/** Reading and setting one attribute of a tag: attributeValue, setAttribute and xmlAttr
    (internal/libvirt/domain_xml.go), with the `$` expansion of replacement templates. */
module XmlAttributes {
  import opened XmlScan
  import opened Text

  // ----- Escaping and replacement templates -----

  function Escaped(c: char): string {
    if c == '&' then "&amp;"
    else if c == '\'' then "&apos;"
    else if c == '"' then "&quot;"
    else if c == '<' then "&lt;"
    else if c == '>' then "&gt;"
    else [c]
  }

  function XmlAttr(value: string): string {
    if value == [] then [] else Escaped(value[0]) + XmlAttr(value[1..])
  }

  /** The five predefined entities read back (section 4.6 of XML 1.0); any other text stands for itself. */
  function Unescaped(s: string): string {
    if s == [] then []
    else if "&amp;" <= s then "&" + Unescaped(s[5..])
    else if "&apos;" <= s then "'" + Unescaped(s[6..])
    else if "&quot;" <= s then "\"" + Unescaped(s[6..])
    else if "&lt;" <= s then "<" + Unescaped(s[4..])
    else if "&gt;" <= s then ">" + Unescaped(s[4..])
    else s[..1] + Unescaped(s[1..])
  }

  lemma NoEntityHere(s: string)
    requires s != [] && s[0] != '&'
    ensures Unescaped(s) == s[..1] + Unescaped(s[1..])
  {
    assert "&amp;"[0] == "&apos;"[0] == "&quot;"[0] == "&lt;"[0] == "&gt;"[0] == '&';
  }

  /** The entities differ in their second or third letter. */
  lemma EntityHere(e: string, rest: string)
    requires e in ["&amp;", "&apos;", "&quot;", "&lt;", "&gt;"]
    ensures
      Unescaped(e + rest) ==
      (if e == "&amp;" then "&" else if e == "&apos;" then "'" else if e == "&quot;" then "\""
       else if e == "&lt;" then "<" else ">") + Unescaped(rest)
  {
    var s := e + rest;
    assert s[|e|..] == rest && s[..|e|] == e && s[1] == e[1] && s[2] == e[2];
    assert "&amp;"[1] == 'a' && "&amp;"[2] == 'm' && "&apos;"[1] == 'a' && "&apos;"[2] == 'p';
    assert "&quot;"[1] == 'q' && "&lt;"[1] == 'l' && "&gt;"[1] == 'g';
  }

  lemma EntityRead(c: char, rest: string)
    ensures Unescaped(Escaped(c) + rest) == [c] + Unescaped(rest)
  {
    if Escaped(c) in ["&amp;", "&apos;", "&quot;", "&lt;", "&gt;"] {
      EntityHere(Escaped(c), rest);
    } else {
      NoEntityHere([c] + rest);
      assert ([c] + rest)[1..] == rest && ([c] + rest)[..1] == [c];
    }
  }

  /** An escaped value is read back as it was. */
  lemma {:induction false} EscapeRoundTrip(value: string)
    ensures Unescaped(XmlAttr(value)) == value
  {
    if value != [] {
      EscapeRoundTrip(value[1..]);
      EntityRead(value[0], XmlAttr(value[1..]));
    }
  }

  predicate Markup(c: char) {
    c == '\'' || c == '"' || c == '<' || c == '>'
  }

  /** An escaped value can stand between quotes: it has neither quotes nor angle brackets. */
  lemma {:induction false} XmlAttrPlain(value: string)
    ensures forall i | 0 <= i < |XmlAttr(value)| :: !Markup(XmlAttr(value)[i])
    ensures '$' !in value ==> forall i | 0 <= i < |XmlAttr(value)| :: XmlAttr(value)[i] != '$'
  {
    if value != [] {
      XmlAttrPlain(value[1..]);
      assert forall i | 0 <= i < |Escaped(value[0])| :: !Markup(Escaped(value[0])[i]);
      assert '$' !in value ==> value[0] != '$' && '$' !in value[1..];
      assert value[0] != '$' ==> forall i | 0 <= i < |Escaped(value[0])| :: Escaped(value[0])[i] != '$';
    }
  }

  /** How many characters of a group name the text starts with; letters beyond ASCII are not modelled. */
  function NameLen(s: string): (n: nat)
    ensures n <= |s|
  {
    if s == [] || !WordChar(s[0]) then 0 else 1 + NameLen(s[1..])
  }

  /** The length of the reference `$name` or `${name}` at the start of the text; 0 when there is none. */
  function RefLen(t: string): (n: nat)
    requires t != []
    ensures n <= |t| && (n > 0 ==> n > 1)
  {
    if |t| > 1 && t[1] == '{' then
      var n := NameLen(t[2..]);
      if n > 0 && n + 2 < |t| && t[n + 2] == '}' then n + 3 else 0
    else
      var n := NameLen(t[1..]);
      if n > 0 then n + 1 else 0
  }

  function RefName(t: string): string
    requires t != [] && RefLen(t) > 0
  {
    if t[1] == '{' then t[2..RefLen(t) - 1] else t[1..RefLen(t)]
  }

  /** Regexp.Expand for patterns with at most one group: `$$`, `$name` and `${name}`; a group that does not
      exist is empty, a malformed reference stays as it is. */
  function Expand(t: string, groups: seq<string>): string
    requires 1 <= |groups| <= 2
  {
    if t == [] then []
    else if t[0] != '$' then t[..1] + Expand(t[1..], groups)
    else if |t| > 1 && t[1] == '$' then "$" + Expand(t[2..], groups)
    else if RefLen(t) == 0 then "$" + Expand(t[1..], groups)
    else Group(RefName(t), groups) + Expand(t[RefLen(t)..], groups)
  }

  function Group(name: string, groups: seq<string>): string
    requires 1 <= |groups| <= 2
  {
    if name == "0" then groups[0] else if name == "1" && |groups| == 2 then groups[1] else []
  }

  /** A `$` that starts no reference. */
  predicate Malformed(u: string)
    requires u != [] && u[0] == '$'
  {
    !(|u| > 1 && u[1] == '$') && RefLen(u) == 0
  }

  /** A template in which every `$` stands for itself. */
  predicate NoReference(t: string) {
    t == [] || ((t[0] == '$' ==> Malformed(t)) && NoReference(t[1..]))
  }

  lemma {:induction false} ExpandSame(t: string, groups: seq<string>)
    requires 1 <= |groups| <= 2 && NoReference(t)
    ensures Expand(t, groups) == t
  {
    if t != [] {
      ExpandSame(t[1..], groups);
      assert t == t[..1] + t[1..];
    }
  }

  /** A reference to the whole match brings its `<`; any other makes the text shorter. */
  lemma {:induction false} ExpandBrings(t: string, w: string)
    requires '<' !in t && '<' in w
    ensures NoReference(t) || |Expand(t, [w])| < |t| || '<' in Expand(t, [w])
    decreases |t|, 0
  {
    if t != [] {
      if t[0] == '$' && !Malformed(t) {
        if |t| > 1 && t[1] == '$' {
          BringsBehind(t[2..], w);
        } else {
          BringsBehind(t[RefLen(t)..], w);
        }
      } else {
        ExpandBrings(t[1..], w);
      }
    }
  }

  lemma BringsBehind(t: string, w: string)
    requires '<' !in t && '<' in w
    ensures |Expand(t, [w])| <= |t| || '<' in Expand(t, [w])
    decreases |t|, 1
  {
    ExpandBrings(t, w);
    if NoReference(t) {
      ExpandSame(t, [w]);
    }
  }

  /** A tag that replaces another tag comes out as it is exactly when it makes no reference. */
  lemma TagExpandsToItself(r: string, w: string)
    requires r != [] && r[0] == '<' && '<' !in r[1..] && '<' in w
    ensures Expand(r, [w]) == r <==> NoReference(r)
  {
    if NoReference(r) {
      ExpandSame(r, [w]);
    } else {
      ExpandBrings(r[1..], w);
      assert Expand(r, [w]) == r[..1] + Expand(r[1..], [w]);
      assert r == r[..1] + r[1..];
    }
  }

  lemma {:induction false} NoDollarNoReference(a: string, b: string)
    requires forall i | 0 <= i < |a| :: a[i] != '$'
    ensures NoReference(a + b) <==> NoReference(b)
  {
    if a == [] {
      assert a + b == b;
    } else {
      assert (a + b)[0] == a[0] && (a + b)[1..] == a[1..] + b;
      NoDollarNoReference(a[1..], b);
    }
  }

  lemma NoDollarAlone(t: string)
    requires '$' !in t
    ensures NoReference(t)
  {
    NoDollarNoReference(t, []);
    assert t + [] == t;
  }

  lemma {:induction false} NameLenConcat(a: string, b: string)
    requires b == [] || !WordChar(b[0])
    ensures NameLen(a + b) == NameLen(a)
  {
    if a == [] {
      assert a + b == b;
    } else {
      assert (a + b)[0] == a[0] && (a + b)[1..] == a[1..] + b;
      NameLenConcat(a[1..], b);
    }
  }

  /** No reference reaches across such a character. */
  predicate Neutral(c: char) {
    !WordChar(c) && c != '$' && c != '{' && c != '}'
  }

  lemma MalformedConcat(a: string, b: string)
    requires a != [] && a[0] == '$' && b != [] && Neutral(b[0])
    ensures (a + b)[0] == '$' && (Malformed(a + b) <==> Malformed(a))
  {
    var u := a + b;
    if |a| == 1 {
      assert u[1..] == b && u[1] == b[0];
      assert a[1..] == [];
    } else {
      var from := if a[1] == '{' then 2 else 1;
      assert u[from..] == a[from..] + b && u[1] == a[1];
      NameLenConcat(a[from..], b);
      var n := NameLen(a[from..]);
      assert from + n == |a| ==> u[from + n] == b[0];
      assert from + n < |a| ==> u[from + n] == a[from + n];
    }
  }

  lemma {:induction false} NoReferenceConcat(a: string, b: string)
    requires b != [] && Neutral(b[0])
    ensures NoReference(a + b) <==> NoReference(a) && NoReference(b)
  {
    if a == [] {
      assert a + b == b;
    } else {
      assert (a + b)[0] == a[0] && (a + b)[1..] == a[1..] + b;
      NoReferenceConcat(a[1..], b);
      if a[0] == '$' {
        MalformedConcat(a, b);
      }
    }
  }

  lemma {:induction false} ExpandPlain(t: string, groups: seq<string>)
    requires 1 <= |groups| <= 2
    requires forall i | 0 <= i < |t| :: t[i] != '$'
    ensures Expand(t, groups) == t
  {
    if t != [] {
      ExpandPlain(t[1..], groups);
      assert t == t[..1] + t[1..];
    }
  }

  lemma ExpandGroup(rest: string, whole: string, group: string)
    requires rest == [] || !WordChar(rest[0])
    ensures Expand("$1" + rest, [whole, group]) == group + Expand(rest, [whole, group])
  {
    var t := "$1" + rest;
    assert t[1..] == "1" + rest && t[1..][1..] == rest;
    assert NameLen(t[1..]) == 1;
    assert t[1..2] == "1" && t[2..] == rest;
  }

  /** A reference to a group that does not exist disappears. */
  lemma NameGone(n: string, b: string, w: string)
    requires n != [] && n != "0" && NameLen(n) == |n| && (b == [] || !WordChar(b[0]))
    ensures Expand("$" + (n + b), [w]) == Expand(b, [w])
  {
    var t := "$" + (n + b);
    NamedAt(t, n, b);
    assert [] + Expand(b, [w]) == Expand(b, [w]);
  }

  lemma NamedAt(t: string, n: string, b: string)
    requires t == "$" + (n + b) && n != [] && NameLen(n) == |n| && (b == [] || !WordChar(b[0]))
    ensures t[0] == '$' && t[1] != '$' && RefLen(t) == |n| + 1 && RefName(t) == n && t[|n| + 1..] == b
  {
    assert t[1..] == n + b && t[1] == n[0];
    NameLenConcat(n, b);
  }

  // ----- Reading -----

  predicate Quote(c: char) {
    c == '\'' || c == '"'
  }

  function UpToQuote(s: string): (n: nat)
    ensures n <= |s| && (n < |s| ==> Quote(s[n]))
    ensures forall i | 0 <= i < n :: !Quote(s[i])
  {
    if s == [] || Quote(s[0]) then 0 else 1 + UpToQuote(s[1..])
  }

  /** The value when `name=` and a quote stand here and some quote follows. */
  function ValueAt(s: string, name: string): (r: int)
    ensures r >= 0 ==> |name| + 2 + r < |s|
  {
    var n := |name| + 2;
    if name + "=" <= s && n <= |s| && Quote(s[n - 1]) && UpToQuote(s[n..]) < |s| - n then UpToQuote(s[n..]) else -1
  }

  /** The first match in the text; `word` tells whether a word character precedes it. */
  function ValueIn(s: string, name: string, word: bool): string {
    if s == [] then []
    else if !word && ValueAt(s, name) >= 0 then s[|name| + 2..|name| + 2 + ValueAt(s, name)]
    else ValueIn(s[1..], name, WordChar(s[0]))
  }

  /** attributeValue: empty when there is no such attribute. */
  function AttributeValue(tag: string, name: string): string {
    ValueIn(tag, name, false)
  }

  lemma UpToQuoteConcat(a: string, b: string)
    requires UpToQuote(a) < |a|
    ensures UpToQuote(a + b) == UpToQuote(a)
  {
    assert (a + b)[UpToQuote(a)] == a[UpToQuote(a)];
    assert forall i | 0 <= i < |a| :: (a + b)[i] == a[i];
  }

  lemma ValueAtConcat(a: string, b: string, name: string)
    ensures ValueAt(a, name) >= 0 ==> ValueAt(a + b, name) == ValueAt(a, name)
    ensures (exists i | |name| + 2 <= i < |a| :: Quote(a[i])) ==> ValueAt(a + b, name) == ValueAt(a, name)
  {
    var n := |name| + 2;
    if n <= |a| {
      PrefixWithin(name + "=", a + b, |a|);
      assert (a + b)[..|a|] == a;
      assert (a + b)[n..] == a[n..] + b;
      if i :| n <= i < |a| && Quote(a[i]) {
        assert a[n..][i - n] == a[i];
      }
      if UpToQuote(a[n..]) < |a| - n {
        UpToQuoteConcat(a[n..], b);
      }
    }
  }

  /** attributeValue finds the attribute in the text, be its value empty. */
  predicate HasValue(s: string, name: string, word: bool) {
    s != [] && ((!word && ValueAt(s, name) >= 0) || HasValue(s[1..], name, WordChar(s[0])))
  }

  /** `name=` and a quote stand at the start of the text. */
  predicate BeginsAt(s: string, name: string) {
    |name| + 2 <= |s| && name + "=" <= s && Quote(s[|name| + 1])
  }

  /** `name=` and a quote stand somewhere, whether another quote follows or not. */
  predicate Begins(s: string, name: string, word: bool) {
    s != [] && ((!word && BeginsAt(s, name)) || Begins(s[1..], name, WordChar(s[0])))
  }

  lemma {:induction false} ValueIsThere(s: string, name: string, word: bool)
    requires ValueIn(s, name, word) != []
    ensures HasValue(s, name, word)
  {
    if word || ValueAt(s, name) < 0 {
      ValueIsThere(s[1..], name, WordChar(s[0]));
    }
  }

  /** A value found in the first part of a text is the value of the whole. */
  lemma {:induction false} ValueConcat(a: string, b: string, name: string, word: bool)
    requires HasValue(a, name, word)
    ensures ValueIn(a + b, name, word) == ValueIn(a, name, word)
  {
    ValueAtConcat(a, b, name);
    var n := |name| + 2;
    if !word && ValueAt(a, name) >= 0 {
      assert (a + b)[n..n + ValueAt(a, name)] == a[n..n + ValueAt(a, name)];
    } else {
      LaterQuote(a[1..], name, WordChar(a[0]));
      assert (a + b)[1..] == a[1..] + b;
      ValueConcat(a[1..], b, name, WordChar(a[0]));
    }
  }

  /** A value is followed by a quote, further on than an attribute that starts earlier. */
  lemma {:induction false} LaterQuote(a: string, name: string, word: bool)
    requires HasValue(a, name, word)
    ensures exists i | |name| + 2 <= i < |a| :: Quote(a[i])
  {
    if !word && ValueAt(a, name) >= 0 {
      var n := |name| + 2;
      assert a[n..][ValueAt(a, name)] == a[n + ValueAt(a, name)];
    } else {
      LaterQuote(a[1..], name, WordChar(a[0]));
      var i :| |name| + 2 <= i < |a[1..]| && Quote(a[1..][i]);
      assert Quote(a[i + 1]);
    }
  }

  /** No attribute starts across the end of a tag. */
  lemma BeginsInTag(a: string, b: string, name: string)
    requires a != [] && a[|a| - 1] == '>' && '>' !in name
    ensures BeginsAt(a + b, name) <==> BeginsAt(a, name)
    ensures BeginsAt(a, name) ==> |name| + 2 < |a|
    ensures ValueAt(a + b, name) >= 0 ==> BeginsAt(a, name)
  {
    var s, t := a + b, name + "=";
    assert s[|a| - 1] == '>' && s[..|a|] == a;
    if t <= s {
      assert forall i | 0 <= i < |t| :: s[i] == t[i];
      assert |t| < |a|;
      PrefixWithin(t, s, |a|);
    }
    if t <= a {
      assert forall i | 0 <= i < |t| :: a[i] == t[i];
    }
  }

  /** A tag in which the attribute does not even start leaves it to what follows. */
  lemma {:induction false} ValueBehind(a: string, b: string, name: string, word: bool)
    requires a != [] && a[|a| - 1] == '>' && '>' !in name && !Begins(a, name, word)
    ensures ValueIn(a + b, name, word) == ValueIn(b, name, false)
  {
    BeginsInTag(a, b, name);
    assert (a + b)[1..] == a[1..] + b;
    if |a| > 1 {
      ValueBehind(a[1..], b, name, WordChar(a[0]));
    } else {
      assert a[1..] + b == b;
    }
  }

  /** A value left open in a tag runs across its end, up to the next quote. */
  lemma {:induction false} ValueAcross(a: string, b: string, name: string, word: bool)
    requires a != [] && a[|a| - 1] == '>' && '>' !in name && Begins(a, name, word) && !HasValue(a, name, word)
    requires UpToQuote(b) < |b|
    ensures '>' in ValueIn(a + b, name, word)
  {
    BeginsInTag(a, b, name);
    assert (a + b)[1..] == a[1..] + b && (a + b)[0] == a[0];
    if !word && BeginsAt(a, name) {
      var n := |name| + 2;
      OpensHere(a, b, name);
    } else {
      ValueAcross(a[1..], b, name, WordChar(a[0]));
    }
  }

  lemma {:induction false} OpensHere(a: string, b: string, name: string)
    requires a != [] && a[|a| - 1] == '>' && BeginsAt(a, name) && |name| + 2 < |a| && ValueAt(a, name) < 0
    requires UpToQuote(b) < |b|
    ensures ValueAt(a + b, name) >= 0
    ensures '>' in (a + b)[|name| + 2..|name| + 2 + ValueAt(a + b, name)]
  {
    var n := |name| + 2;
    var r := UpToQuote((a + b)[n..]);
    assert (a + b)[n..] == a[n..] + b;
    OpenValue(a[n..], b);
    BeginsStill(a, b, name);
    assert ValueAt(a + b, name) == r;
    CharBetween(a, b, n, r);
  }

  lemma BeginsStill(a: string, b: string, name: string)
    requires BeginsAt(a, name)
    ensures BeginsAt(a + b, name)
  {
    assert (a + b)[..|a|] == a;
    PrefixWithin(name + "=", a + b, |a|);
  }

  lemma CharBetween(a: string, b: string, n: nat, r: nat)
    requires n < |a| <= n + r <= |a + b|
    ensures a[|a| - 1] in (a + b)[n..n + r]
  {
    assert (a + b)[n..n + r][|a| - 1 - n] == a[|a| - 1];
  }

  lemma {:induction false} OpenValue(a: string, b: string)
    requires UpToQuote(a) == |a| && UpToQuote(b) < |b|
    ensures UpToQuote(a + b) == |a| + UpToQuote(b)
  {
    if a == [] {
      assert a + b == b;
    } else {
      assert (a + b)[1..] == a[1..] + b;
      OpenValue(a[1..], b);
    }
  }

  /** Text without quotes adds nothing. */
  lemma {:induction false} ValueInFront(a: string, c: string, name: string, word: bool)
    requires forall i | 0 <= i < |c| :: !Quote(c[i])
    ensures ValueIn(a + c, name, word) == ValueIn(a, name, word)
  {
    if a == [] {
      assert a + c == c;
      NoQuoteNoValue(c, name, word);
    } else {
      assert (a + c)[1..] == a[1..] + c && (a + c)[0] == a[0];
      ValueInFront(a[1..], c, name, WordChar(a[0]));
      ValueAtConcat(a, c, name);
      if ValueAt(a + c, name) >= 0 {
        ValueStaysInFront(a, c, name);
      }
      var n := |name| + 2;
      if ValueAt(a, name) >= 0 {
        assert (a + c)[n..n + ValueAt(a, name)] == a[n..n + ValueAt(a, name)];
      }
    }
  }

  lemma ValueStaysInFront(a: string, c: string, name: string)
    requires ValueAt(a + c, name) >= 0 && forall i | 0 <= i < |c| :: !Quote(c[i])
    ensures ValueAt(a, name) == ValueAt(a + c, name)
  {
    var s, n, r := a + c, |name| + 2, ValueAt(a + c, name);
    assert forall i | |a| <= i < |s| :: !Quote(s[i]);
    assert s[n..][r] == s[n + r];
    assert n + r < |a|;
    assert a[n + r] == s[n + r];
    ValueAtConcat(a, c, name);
  }

  lemma {:induction false} NoQuoteNoValue(c: string, name: string, word: bool)
    requires forall i | 0 <= i < |c| :: !Quote(c[i])
    ensures ValueIn(c, name, word) == []
  {
    if c != [] {
      NoQuoteNoValue(c[1..], name, WordChar(c[0]));
    }
  }
}
