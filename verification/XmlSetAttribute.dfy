/** setAttribute (internal/libvirt/domain_xml.go): replace every quoted value of the attribute, or add it. */
module XmlSetAttribute {
  import opened XmlScan
  import opened XmlAttributes
  import opened Text

  function Token(name: string, q: char): string {
    name + "=" + [q]
  }

  /** `name=q...q` at the start of the text; 0 when it is not there. */
  function QuotedLen(s: string, name: string, q: char): (n: nat)
    ensures n <= |s|
  {
    var n := |name| + 2;
    if Token(name, q) <= s && UpTo(s[n..], q) < |s| - n then n + UpTo(s[n..], q) + 1 else 0
  }

  /** The length of the match at the start of the text, which needs a word boundary in front. */
  function MatchAt(s: string, name: string, q: char, word: bool): (n: nat)
    ensures n <= |s|
  {
    if word then 0 else QuotedLen(s, name, q)
  }

  predicate HasQuoted(s: string, name: string, q: char, word: bool) {
    s != [] && (MatchAt(s, name, q, word) > 0 || HasQuoted(s[1..], name, q, WordChar(s[0])))
  }

  /** Every match replaced by the expanded template; `word` tells whether a word character precedes the text. */
  function Rewritten(s: string, name: string, q: char, value: string, word: bool): string {
    if s == [] then []
    else
      var n := MatchAt(s, name, q, word);
      if n > 0 then
        Expand("$1" + [q] + value + [q], [s[..n], name + "="]) + Rewritten(s[n..], name, q, value, false)
      else s[..1] + Rewritten(s[1..], name, q, value, WordChar(s[0]))
  }

  /** The attribute behind the others; attributes that are only white space are dropped. */
  function Placed(head: string, attrs: string, name: string, value: string, end: string): string {
    head + (if TrimSpace(attrs) == [] then [] else attrs) + " " + name + "='" + value + "'" + end
  }

  /** The attribute added in front of the first `>` of a tag. */
  function Added(tag: string, name: string, value: string): string {
    var n := if tag != [] then NameLen(tag[1..]) else 0;
    var g := UpTo(tag, '>');
    if n == 0 || tag[0] != '<' || g == |tag| || g < n + 1 then tag
    else Placed(tag[..n + 1], tag[n + 1..g], name, value, tag[g..])
  }

  function SetAttribute(tag: string, name: string, value: string): string {
    var v := XmlAttr(value);
    if HasQuoted(tag, name, '\'', false) then Rewritten(tag, name, '\'', v, false)
    else if HasQuoted(tag, name, '"', false) then Rewritten(tag, name, '"', v, false)
    else Added(tag, name, v)
  }

  // ----- Attribute names and values that need no escaping -----

  predicate AttributeName(name: string) {
    name != [] && forall i | 0 <= i < |name| :: WordChar(name[i])
  }

  predicate PlainValue(v: string) {
    forall i | 0 <= i < |v| :: !Quote(v[i]) && v[i] != '$'
  }

  function Attribute(name: string, q: char, v: string): string {
    Token(name, q) + v + [q]
  }

  lemma ExpandsToAttribute(name: string, q: char, v: string, whole: string)
    requires AttributeName(name) && PlainValue(v) && Quote(q)
    ensures Expand("$1" + [q] + v + [q], [whole, name + "="]) == Attribute(name, q, v)
  {
    var rest := [q] + v + [q];
    ExpandGroup(rest, whole, name + "=");
    ExpandPlain(rest, [whole, name + "="]);
    AttributeParts(name, q, v);
  }

  lemma AttributeParts(name: string, q: char, v: string)
    ensures "$1" + [q] + v + [q] == "$1" + ([q] + v + [q])
    ensures name + "=" + ([q] + v + [q]) == Attribute(name, q, v)
  {
  }

  /** An attribute whose value has no quote of its kind is one match, whatever follows. */
  lemma AttributeMatches(name: string, q: char, v: string, rest: string)
    requires forall i | 0 <= i < |v| :: v[i] != q
    ensures QuotedLen(Attribute(name, q, v) + rest, name, q) == |Attribute(name, q, v)|
    ensures (Attribute(name, q, v) + rest)[|Attribute(name, q, v)|..] == rest
  {
    var s := Attribute(name, q, v) + rest;
    var n := |name| + 2;
    assert s == Token(name, q) + (v + [q] + rest);
    assert s[n..] == v + ([q] + rest);
    UpToConcat(v, [q] + rest, q);
    assert UpTo(v, q) == |v|;
    assert UpTo([q] + rest, q) == 0;
  }

  // ----- A rewritten text has the same matches -----

  lemma TokenChars(name: string, q: char, i: nat)
    requires AttributeName(name) && i < |name| + 2
    ensures |Token(name, q)| == |name| + 2
    ensures Token(name, q)[i] == if i < |name| then name[i] else if i == |name| then '=' else q
    ensures i < |name| ==> WordChar(Token(name, q)[i])
  {
  }

  lemma TokenAt(t: string, name: string, q: char, i: nat)
    requires AttributeName(name) && i < |name| + 2 && Token(name, q) <= t
    ensures i < |t|
    ensures if i < |name| then WordChar(t[i]) else if i == |name| then t[i] == '=' else t[i] == q
  {
    TokenChars(name, q, i);
    assert t[i] == Token(name, q)[i];
  }

  /** A proper end of one token is never the start of a token: it ends in a quote, the other does not. */
  lemma EndIsNoStart(name: string, p: char, q: char, k: nat, rest: string)
    requires AttributeName(name) && Quote(p) && Quote(q) && 0 < k < |name| + 2
    ensures !(Token(name, p)[k..] <= Token(name, q) + rest)
  {
    var u := Token(name, p)[k..];
    var last := |u| - 1;
    TokenChars(name, p, |name| + 1);
    TokenChars(name, q, last);
    assert u[last] == p;
    assert (Token(name, q) + rest)[last] == Token(name, q)[last];
  }

  lemma RewrittenMatch(t: string, name: string, q: char, v: string, word: bool) returns (rest: string)
    requires AttributeName(name) && PlainValue(v) && Quote(q) && t != [] && MatchAt(t, name, q, word) > 0
    ensures Rewritten(t, name, q, v, word) == Token(name, q) + rest
  {
    var n := MatchAt(t, name, q, word);
    ExpandsToAttribute(name, q, v, t[..n]);
    var after := Rewritten(t[n..], name, q, v, false);
    assert Rewritten(t, name, q, v, word) == Attribute(name, q, v) + after;
    rest := v + [q] + after;
    TokenFirst(name, q, v, after);
  }

  lemma TokenFirst(name: string, q: char, v: string, after: string)
    ensures Attribute(name, q, v) + after == Token(name, q) + (v + [q] + after)
  {
  }

  /** Rewriting never completes a token that was not there. */
  lemma {:induction false} TokenEndKept(t: string, name: string, p: char, q: char, v: string, word: bool, k: nat)
    requires AttributeName(name) && PlainValue(v) && Quote(p) && Quote(q) && 0 < k <= |name| + 2
    requires Token(name, p)[k..] <= Rewritten(t, name, q, v, word)
    ensures Token(name, p)[k..] <= t
  {
    var u := Token(name, p)[k..];
    if u != [] {
      assert t != [];
      if MatchAt(t, name, q, word) > 0 {
        var rest := RewrittenMatch(t, name, q, v, word);
        EndIsNoStart(name, p, q, k, rest);
      } else {
        TokenEndStep(t, name, p, q, v, word, k);
        TokenEndKept(t[1..], name, p, q, v, WordChar(t[0]), k + 1);
      }
    }
  }

  lemma TokenEndStep(t: string, name: string, p: char, q: char, v: string, word: bool, k: nat)
    requires 0 < k < |name| + 2 && t != [] && MatchAt(t, name, q, word) == 0
    requires Token(name, p)[k..] <= Rewritten(t, name, q, v, word)
    ensures Token(name, p)[k + 1..] <= Rewritten(t[1..], name, q, v, WordChar(t[0]))
    ensures Token(name, p)[k + 1..] <= t[1..] ==> Token(name, p)[k..] <= t
  {
    assert Token(name, p)[k + 1..] == Token(name, p)[k..][1..];
    StartsWith(Token(name, p)[k..], t, Rewritten(t[1..], name, q, v, WordChar(t[0])));
  }

  lemma StartsWith(u: string, t: string, after: string)
    requires u != [] && t != [] && u <= t[..1] + after
    ensures u[0] == t[0] && u[1..] <= after
    ensures u[1..] <= t[1..] ==> u <= t
  {
    assert (t[..1] + after)[1..] == after;
    assert u[1..] == (t[..1] + after)[1..|u|];
    if u[1..] <= t[1..] {
      assert t[..|u|] == t[..1] + t[1..][..|u| - 1];
    }
  }

  /** A match needs a quote at its end and one right behind the name. */
  lemma {:induction false} NoQuoteNoMatch(t: string, name: string, q: char, v: string, word: bool)
    requires AttributeName(name) && forall i | |name| + 1 <= i < |t| :: t[i] != q
    ensures Rewritten(t, name, q, v, word) == t && !HasQuoted(t, name, q, word)
  {
    if t != [] {
      if Token(name, q) <= t {
        TokenAt(t, name, q, |name| + 1);
      }
      NoQuoteNoMatch(t[1..], name, q, v, WordChar(t[0]));
      assert t == t[..1] + t[1..];
    }
  }

  lemma NoNewStart(s: string, name: string, q: char, v: string, word: bool)
    requires AttributeName(name) && PlainValue(v) && Quote(q)
    requires s != [] && MatchAt(s, name, q, word) == 0
    ensures MatchAt(s[..1] + Rewritten(s[1..], name, q, v, WordChar(s[0])), name, q, word) == 0
  {
    var after := Rewritten(s[1..], name, q, v, WordChar(s[0]));
    var u := Token(name, q);
    if !word && u <= s[..1] + after {
      assert u[0..] == u;
      StartsWith(u, s, after);
      TokenEndKept(s[1..], name, q, q, v, WordChar(s[0]), 1);
      var n := |name| + 2;
      assert forall i | |name| + 1 <= i < |s[1..]| :: s[1..][i] == s[n..][i + 1 - n];
      NoQuoteNoMatch(s[1..], name, q, v, WordChar(s[0]));
      assert s[..1] + after == s;
    }
  }

  /** Rewriting a second time changes nothing, and the attribute is still found. */
  lemma {:induction false} RewriteAgain(s: string, name: string, q: char, v: string, word: bool)
    requires AttributeName(name) && PlainValue(v) && Quote(q)
    ensures
      var r := Rewritten(s, name, q, v, word);
      && Rewritten(r, name, q, v, word) == r
      && (HasQuoted(r, name, q, word) <==> HasQuoted(s, name, q, word))
    decreases |s|
  {
    if s != [] {
      var r := Rewritten(s, name, q, v, word);
      var n := MatchAt(s, name, q, word);
      if n > 0 {
        var rest := Rewritten(s[n..], name, q, v, false);
        var a := Attribute(name, q, v);
        RewriteAgain(s[n..], name, q, v, false);
        ExpandsToAttribute(name, q, v, s[..n]);
        assert r == a + rest;
        AttributeMatches(name, q, v, rest);
        ExpandsToAttribute(name, q, v, r[..|a|]);
      } else {
        var after := Rewritten(s[1..], name, q, v, WordChar(s[0]));
        RewriteAgain(s[1..], name, q, v, WordChar(s[0]));
        NoNewStart(s, name, q, v, word);
        assert r[..1] == s[..1] && r[1..] == after;
      }
    }
  }

  // ----- Double-quoted rewriting leaves no single-quoted match -----

  /** Text without the quote `p` that ends in another quote starts no `p` match, whatever follows. */
  lemma {:induction false} NoStartWithin(x: string, y: string, name: string, p: char, word: bool)
    requires AttributeName(name) && Quote(p) && x != [] && Quote(x[|x| - 1])
    requires forall i | 0 <= i < |x| :: x[i] != p
    ensures HasQuoted(x + y, name, p, word) <==> HasQuoted(y, name, p, false)
  {
    var s := x + y;
    if Token(name, p) <= s {
      TokenAt(s, name, p, if |x| < |name| + 2 then |x| - 1 else |name| + 1);
    }
    assert s[1..] == x[1..] + y;
    if |x| > 1 {
      NoStartWithin(x[1..], y, name, p, WordChar(x[0]));
    } else {
      assert x[1..] + y == y;
    }
  }

  lemma {:induction false} HasQuotedLater(s: string, name: string, p: char, word: bool, i: nat)
    requires 0 < i <= |s| && HasQuoted(s[i..], name, p, WordChar(s[i - 1]))
    ensures HasQuoted(s, name, p, word)
  {
    if i > 1 {
      assert s[1..][i - 1..] == s[i..];
      HasQuotedLater(s[1..], name, p, WordChar(s[0]), i - 1);
    }
  }

  /** Rewriting adds no quote of the other kind. */
  lemma {:induction false} NoQuoteAdded(t: string, name: string, p: char, q: char, v: string, word: bool)
    requires AttributeName(name) && PlainValue(v) && Quote(p) && Quote(q) && p != q
    requires forall i | 0 <= i < |t| :: t[i] != p
    ensures forall i | 0 <= i < |Rewritten(t, name, q, v, word)| :: Rewritten(t, name, q, v, word)[i] != p
    decreases |t|
  {
    if t != [] {
      var n := MatchAt(t, name, q, word);
      if n > 0 {
        ExpandsToAttribute(name, q, v, t[..n]);
        AttributeAvoids(name, p, q, v);
        NoQuoteAdded(t[n..], name, p, q, v, false);
      } else {
        NoQuoteAdded(t[1..], name, p, q, v, WordChar(t[0]));
      }
    }
  }

  lemma AttributeAvoids(name: string, p: char, q: char, v: string)
    requires AttributeName(name) && PlainValue(v) && Quote(p) && Quote(q) && p != q
    ensures forall i | 0 <= i < |Attribute(name, q, v)| :: Attribute(name, q, v)[i] != p
    ensures Attribute(name, q, v)[|Attribute(name, q, v)| - 1] == q
  {
    var a := Attribute(name, q, v);
    forall i | 0 <= i < |a| ensures a[i] != p {
      if i < |name| + 2 {
        TokenChars(name, q, i);
      } else if i < |a| - 1 {
        assert a[i] == v[i - |name| - 2];
      }
    }
  }

  /** The end of a `p` token is copied unchanged, and so is the absence of `p` after it. */
  lemma {:induction false} TokenEndCopied(t: string, name: string, p: char, q: char, v: string, word: bool, k: nat)
    requires AttributeName(name) && PlainValue(v) && Quote(p) && Quote(q) && p != q && 0 < k <= |name| + 2
    requires Token(name, p)[k..] <= t
    requires forall i | |name| + 2 - k <= i < |t| :: t[i] != p
    ensures
      var m := |name| + 2 - k;
      var r := Rewritten(t, name, q, v, word);
      && m <= |r| && forall i | m <= i < |r| :: r[i] != p
    decreases |t|
  {
    var u := Token(name, p)[k..];
    if u == [] {
      NoQuoteAdded(t, name, p, q, v, word);
    } else {
      TokenChars(name, p, |name| + 1);
      assert t[|u| - 1] == u[|u| - 1] == p;
      if Token(name, q) <= t {
        TokenAt(t, name, q, |u| - 1);
      }
      assert t == t[..1] + t[1..];
      StartsWith(u, t, t[1..]);
      assert Token(name, p)[k + 1..] == u[1..];
      TokenEndCopied(t[1..], name, p, q, v, WordChar(t[0]), k + 1);
    }
  }

  lemma {:induction false} RewriteKeepsAbsence(s: string, name: string, p: char, q: char, v: string, word: bool)
    requires AttributeName(name) && PlainValue(v) && Quote(p) && Quote(q) && p != q
    requires !HasQuoted(s, name, p, word)
    ensures !HasQuoted(Rewritten(s, name, q, v, word), name, p, word)
    decreases |s|
  {
    if s != [] {
      var n := MatchAt(s, name, q, word);
      var r := Rewritten(s, name, q, v, word);
      if n > 0 {
        var a := Attribute(name, q, v);
        assert s[n - 1] == q;
        if HasQuoted(s[n..], name, p, false) {
          HasQuotedLater(s, name, p, word, n);
        }
        RewriteKeepsAbsence(s[n..], name, p, q, v, false);
        ExpandsToAttribute(name, q, v, s[..n]);
        AttributeAvoids(name, p, q, v);
        NoStartWithin(a, Rewritten(s[n..], name, q, v, false), name, p, word);
      } else {
        var after := Rewritten(s[1..], name, q, v, WordChar(s[0]));
        RewriteKeepsAbsence(s[1..], name, p, q, v, WordChar(s[0]));
        assert r[1..] == after;
        NoOtherStart(s, name, p, q, v, word);
      }
    }
  }

  lemma NoOtherStart(s: string, name: string, p: char, q: char, v: string, word: bool)
    requires AttributeName(name) && PlainValue(v) && Quote(p) && Quote(q) && p != q
    requires s != [] && MatchAt(s, name, p, word) == 0
    ensures MatchAt(s[..1] + Rewritten(s[1..], name, q, v, WordChar(s[0])), name, p, word) == 0
  {
    var after := Rewritten(s[1..], name, q, v, WordChar(s[0]));
    var u := Token(name, p);
    if !word && u <= s[..1] + after {
      var n := |name| + 2;
      assert u[0..] == u;
      StartsWith(u, s, after);
      TokenEndKept(s[1..], name, p, q, v, WordChar(s[0]), 1);
      assert forall i | n - 1 <= i < |s[1..]| :: s[1..][i] == s[n..][i + 1 - n];
      TokenEndCopied(s[1..], name, p, q, v, WordChar(s[0]), 1);
      assert forall i | 0 <= i < |after| + 1 - n :: (s[..1] + after)[n..][i] == after[n - 1 + i];
    }
  }

  // ----- Adding the attribute -----

  /** `name=` and the quote stand somewhere behind a word boundary, closed or not. */
  predicate HasStart(s: string, name: string, q: char, word: bool) {
    s != [] && ((!word && Token(name, q) <= s) || HasStart(s[1..], name, q, WordChar(s[0])))
  }

  lemma NoTokenOverSpace(y: string, rest: string, name: string, q: char)
    requires AttributeName(name) && Quote(q)
    ensures Token(name, q) <= y + " " + rest ==> Token(name, q) <= y
  {
    var s := y + " " + rest;
    if Token(name, q) <= s {
      if |y| < |name| + 2 {
        assert s[|y|] == ' ';
        TokenAt(s, name, q, |y|);
      } else {
        assert s[..|y|] == y;
        PrefixWithin(Token(name, q), s, |y|);
      }
    }
  }

  /** Text without a start and the blank behind it are passed over. */
  lemma {:induction false} PassOver(y: string, rest: string, name: string, q: char, v: string, word: bool)
    requires AttributeName(name) && Quote(q) && !HasStart(y, name, q, word)
    ensures Rewritten(y + " " + rest, name, q, v, word) == y + " " + Rewritten(rest, name, q, v, false)
    ensures HasQuoted(y + " " + rest, name, q, word) <==> HasQuoted(rest, name, q, false)
  {
    var s := y + " " + rest;
    NoTokenOverSpace(y, rest, name, q);
    assert MatchAt(s, name, q, word) == 0;
    if y == [] {
      assert s[1..] == rest && s[..1] == " ";
    } else {
      FirstOver(y, rest);
      PassOver(y[1..], rest, name, q, v, WordChar(y[0]));
      FirstOver(y, Rewritten(rest, name, q, v, false));
    }
  }

  lemma FirstOver(y: string, z: string)
    requires y != []
    ensures (y + " " + z)[..1] == y[..1] && (y + " " + z)[1..] == y[1..] + " " + z
    ensures y[..1] + (y[1..] + " " + z) == y + " " + z && (y + " " + z)[0] == y[0]
  {
  }

  lemma {:induction false} PrefixHasNoStart(s: string, m: nat, name: string, q: char, word: bool)
    requires m <= |s| && !HasStart(s, name, q, word)
    ensures !HasStart(s[..m], name, q, word)
  {
    if m > 0 {
      assert s[..m][1..] == s[1..][..m - 1];
      PrefixHasNoStart(s[1..], m - 1, name, q, WordChar(s[0]));
    }
  }

  lemma AttributeFound(name: string, q: char, v: string)
    requires AttributeName(name) && PlainValue(v) && Quote(q)
    ensures HasQuoted(Attribute(name, q, v) + ">", name, q, false)
    ensures Rewritten(Attribute(name, q, v) + ">", name, q, v, false) == Attribute(name, q, v) + ">"
  {
    AttributeMatches(name, q, v, ">");
    var a := Attribute(name, q, v);
    ExpandsToAttribute(name, q, v, (a + ">")[..|a|]);
    assert Rewritten(">", name, q, v, false) == ">" by {
      assert Token(name, q)[0] == name[0];
    }
  }

  /** An attribute left open swallows the one added behind it. */
  lemma {:induction false} OpenStartSwallows(y: string, name: string, q: char, v: string, word: bool)
    requires AttributeName(name) && PlainValue(v) && Quote(q) && '=' !in v
    requires HasStart(y, name, q, word) && !HasQuoted(y + ">", name, q, word)
    ensures
      var s := y + " " + Attribute(name, q, v) + ">";
      Rewritten(s, name, q, v, word) != s
  {
    var s := y + " " + Attribute(name, q, v) + ">";
    var a := Attribute(name, q, v);
    if !word && Token(name, q) <= y {
      SwallowedHere(y, name, q, v);
    } else {
      NoTokenOverSpace(y, a + ">", name, q);
      assert s == y + " " + (a + ">");
      assert s[1..] == y[1..] + " " + a + ">" && (y + ">")[1..] == y[1..] + ">";
      OpenStartSwallows(y[1..], name, q, v, WordChar(y[0]));
      assert Rewritten(s, name, q, v, word)[1..] == Rewritten(s[1..], name, q, v, WordChar(s[0]));
    }
  }

  lemma SwallowedHere(y: string, name: string, q: char, v: string)
    requires AttributeName(name) && PlainValue(v) && Quote(q) && '=' !in v
    requires Token(name, q) <= y && QuotedLen(y + ">", name, q) == 0
    ensures
      var s := y + " " + Attribute(name, q, v) + ">";
      Rewritten(s, name, q, v, false) != s
  {
    var s := y + " " + Attribute(name, q, v) + ">";
    var w := y[|name| + 2..] + " " + name + "=";
    var rest := v + [q] + ">";
    assert s == Attribute(name, q, w) + rest;
    assert w[|w| - 1] == '=';
    NoQuoteSwallowed(y, name, q);
    AttributeMatches(name, q, w, rest);
    ExpandsToAttribute(name, q, v, s[..|Attribute(name, q, w)|]);
    var after := Rewritten(rest, name, q, v, false);
    assert Rewritten(s, name, q, v, false) == Attribute(name, q, v) + after;
    if Attribute(name, q, v) + after == Attribute(name, q, w) + rest {
      SameValue(name, q, v, after, w, rest);
    }
  }

  lemma NoQuoteSwallowed(y: string, name: string, q: char)
    requires AttributeName(name) && Quote(q) && Token(name, q) <= y && QuotedLen(y + ">", name, q) == 0
    ensures
      var w := y[|name| + 2..] + " " + name + "=";
      forall i | 0 <= i < |w| :: w[i] != q
  {
    var mid := y[|name| + 2..];
    PrefixWithin(Token(name, q), y + ">", |y|);
    assert (y + ">")[..|y|] == y && (y + ">")[|name| + 2..] == mid + ">";
    UpToConcat(mid, ">", q);
  }

  lemma SameValue(name: string, q: char, v: string, x: string, w: string, z: string)
    requires forall i | 0 <= i < |v| :: v[i] != q
    requires forall i | 0 <= i < |w| :: w[i] != q
    requires Attribute(name, q, v) + x == Attribute(name, q, w) + z
    ensures v == w
  {
    AttributeMatches(name, q, v, x);
    AttributeMatches(name, q, w, z);
    var n := |name| + 2;
    assert v == (Attribute(name, q, v) + x)[n..n + |v|];
    assert w == (Attribute(name, q, w) + z)[n..n + |w|];
  }

  /** setAttribute is idempotent exactly on tags that have a quoted value to replace, or nothing of the form
      `name='` left open, or no name to add an attribute to. */
  lemma SetAttributeTwice(tag: string, name: string, value: string)
    requires IsTag(tag) && AttributeName(name) && PlainValue(XmlAttr(value)) && '=' !in XmlAttr(value)
    ensures
      SetAttribute(SetAttribute(tag, name, value), name, value) == SetAttribute(tag, name, value) <==>
        || HasQuoted(tag, name, '\'', false) || HasQuoted(tag, name, '"', false)
        || !HasStart(tag, name, '\'', false) || NameLen(tag[1..]) == 0
  {
    var v := XmlAttr(value);
    RewriteAgain(tag, name, '\'', v, false);
    RewriteAgain(tag, name, '"', v, false);
    if HasQuoted(tag, name, '\'', false) {
    } else if HasQuoted(tag, name, '"', false) {
      RewriteKeepsAbsence(tag, name, '\'', '"', v, false);
    } else if NameLen(tag[1..]) > 0 {
      AddedTwice(tag, name, value);
    }
  }

  lemma AddedIs(tag: string, n: nat, g: nat, name: string, v: string)
    requires tag != [] && tag[0] == '<' && n == NameLen(tag[1..]) > 0 && g == UpTo(tag, '>') && n + 1 <= g < |tag|
    ensures Added(tag, name, v) == Placed(tag[..n + 1], tag[n + 1..g], name, v, tag[g..])
  {
  }

  lemma AddedAs(tag: string, name: string, v: string)
    requires IsTag(tag) && NameLen(tag[1..]) > 0
    ensures
      var n, g := NameLen(tag[1..]), |tag| - 1;
      n + 1 <= g && Added(tag, name, v) == Placed(tag[..n + 1], tag[n + 1..g], name, v, ">")
  {
    var n, g := NameLen(tag[1..]), |tag| - 1;
    NameIsBefore(tag, n);
    AddedIs(tag, n, g, name, v);
    assert tag[g..] == ">";
  }

  /** Added puts the attribute behind a prefix of the tag. */
  lemma AddedForm(tag: string, name: string, v: string) returns (y: string)
    requires IsTag(tag) && AttributeName(name) && NameLen(tag[1..]) > 0
    ensures Added(tag, name, v) == y + " " + Attribute(name, '\'', v) + ">"
    ensures y <= tag && (HasStart(tag, name, '\'', false) ==> y + ">" == tag)
  {
    var n, g := NameLen(tag[1..]), |tag| - 1;
    AddedAs(tag, name, v);
    var head, attrs := tag[..n + 1], tag[n + 1..g];
    PlacedForm(head, attrs, name, v);
    CutEnd(tag, n + 1);
    if TrimSpace(attrs) == [] {
      NameIsBefore(tag, n);
      BlankHasNoStart(tag, n, name);
      y := head;
    } else {
      y := head + attrs;
    }
  }

  lemma CutEnd(tag: string, n: nat)
    requires IsTag(tag) && n <= |tag| - 1
    ensures tag[..n] + tag[n..|tag| - 1] == tag[..|tag| - 1]
    ensures tag[..|tag| - 1] + ">" == tag
  {
  }

  lemma PlacedForm(head: string, attrs: string, name: string, v: string)
    ensures
      Placed(head, attrs, name, v, ">") ==
      (if TrimSpace(attrs) == [] then head else head + attrs) + " " + Attribute(name, '\'', v) + ">"
  {
  }

  lemma {:induction false} NameCharsOnly(s: string)
    ensures forall i | 0 <= i < NameLen(s) :: WordChar(s[i])
  {
    if s != [] && WordChar(s[0]) {
      NameCharsOnly(s[1..]);
    }
  }

  lemma NameIsBefore(tag: string, n: nat)
    requires IsTag(tag) && n == NameLen(tag[1..]) > 0
    ensures UpTo(tag, '>') == |tag| - 1 && n + 1 <= |tag| - 1
    ensures forall i | 1 <= i <= n :: WordChar(tag[i])
  {
    NameCharsOnly(tag[1..]);
    assert forall i | 1 <= i <= n :: tag[i] == tag[1..][i - 1];
  }

  /** A tag with a name and white space contains no `=`. */
  lemma BlankHasNoStart(tag: string, n: nat, name: string)
    requires IsTag(tag) && n == NameLen(tag[1..]) > 0 && AttributeName(name)
    requires UpTo(tag, '>') == |tag| - 1 && n + 1 <= |tag| - 1
    requires TrimSpace(tag[n + 1..|tag| - 1]) == []
    ensures !HasStart(tag, name, '\'', false)
  {
    NameIsBefore(tag, n);
    TrimSpaceEmpty(tag[n + 1..|tag| - 1]);
    forall i | 0 <= i < |tag| ensures tag[i] != '=' {
      if n < i < |tag| - 1 {
        assert tag[i] == tag[n + 1..|tag| - 1][i - n - 1];
      }
    }
    NoEqualsNoStart(tag, name, '\'', false);
  }

  lemma {:induction false} NoEqualsNoStart(s: string, name: string, q: char, word: bool)
    requires AttributeName(name) && forall i | 0 <= i < |s| :: s[i] != '='
    ensures !HasStart(s, name, q, word)
  {
    if s != [] {
      if Token(name, q) <= s {
        TokenAt(s, name, q, |name|);
      }
      NoEqualsNoStart(s[1..], name, q, WordChar(s[0]));
    }
  }

  lemma AddedTwice(tag: string, name: string, value: string)
    requires IsTag(tag) && AttributeName(name) && PlainValue(XmlAttr(value)) && '=' !in XmlAttr(value)
    requires !HasQuoted(tag, name, '\'', false) && NameLen(tag[1..]) > 0
    ensures
      SetAttribute(Added(tag, name, XmlAttr(value)), name, value) == Added(tag, name, XmlAttr(value)) <==>
      !HasStart(tag, name, '\'', false)
  {
    var v := XmlAttr(value);
    var y := AddedForm(tag, name, v);
    var a := Attribute(name, '\'', v);
    var added := Added(tag, name, v);
    assert added == y + " " + (a + ">");
    AttributeFound(name, '\'', v);
    if HasStart(tag, name, '\'', false) {
      StartOfPrefix(y, name, '\'');
      OpenStartSwallows(y, name, '\'', v, false);
      FoundBehind(y, a + ">", name, '\'', false);
    } else {
      assert y == tag[..|y|];
      PrefixHasNoStart(tag, |y|, name, '\'', false);
      PassOver(y, a + ">", name, '\'', v, false);
    }
  }

  /** The `>` at the end takes no part in a start. */
  lemma StartOfPrefix(y: string, name: string, q: char)
    requires AttributeName(name) && Quote(q) && HasStart(y + ">", name, q, false)
    ensures HasStart(y, name, q, false)
  {
    StartBeforeEnd(y, name, q, false);
  }

  lemma {:induction false} StartBeforeEnd(y: string, name: string, q: char, word: bool)
    requires AttributeName(name) && Quote(q) && HasStart(y + ">", name, q, word)
    ensures HasStart(y, name, q, word)
  {
    var s := y + ">";
    if Token(name, q) <= s && |y| < |name| + 2 {
      TokenAt(s, name, q, |y|);
    } else if Token(name, q) <= s {
      assert s[..|y|] == y;
      PrefixWithin(Token(name, q), s, |y|);
    }
    if y != [] && !(!word && Token(name, q) <= y) {
      assert s[1..] == y[1..] + ">";
      StartBeforeEnd(y[1..], name, q, WordChar(y[0]));
    }
  }

  /** A match behind a blank is still a match, or an earlier one swallowed it. */
  lemma {:induction false} FoundBehind(y: string, rest: string, name: string, q: char, word: bool)
    requires HasQuoted(rest, name, q, false)
    ensures HasQuoted(y + " " + rest, name, q, word)
  {
    var s := y + " " + rest;
    var i := |y| + 1;
    assert s[i..] == rest && s[i - 1] == ' ';
    HasQuotedLater(s, name, q, word, i);
  }
}
