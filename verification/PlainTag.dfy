/** Opening disk tags that are a plain list of attributes. On them attributeValue reads, and setAttribute writes,
    exactly the attribute with the given name. */
module PlainTag {
  import opened Text
  import opened XmlScan
  import opened XmlAttributes
  import opened XmlSetAttribute
  import opened XmlRewrite
  import opened DiskBlock

  datatype Att = Att(space: string, name: string, quote: char, value: string)

  predicate PlainAtt(a: Att) {
    && a.space != [] && AllSpace(a.space) && AttributeName(a.name) && Quote(a.quote)
    && PlainText(a.value)
  }

  /** A value without quotes, angle brackets and `=`. */
  predicate PlainText(v: string) {
    forall i | 0 <= i < |v| :: !Markup(v[i]) && v[i] != '='
  }

  /** Attributes separated by white space, each name once. */
  predicate PlainAtts(atts: seq<Att>) {
    && (forall i | 0 <= i < |atts| :: PlainAtt(atts[i]))
    && (forall i, j | 0 <= i < j < |atts| :: atts[i].name != atts[j].name)
  }

  function Render(atts: seq<Att>): string {
    if atts == [] then []
    else atts[0].space + Attribute(atts[0].name, atts[0].quote, atts[0].value) + Render(atts[1..])
  }

  function DiskTag(atts: seq<Att>): string {
    "<disk" + Render(atts) + ">"
  }

  // ----- Text in which an attribute does not start -----

  /** Nowhere in `u`, followed by `z`, does `n=` and the quote start behind a word boundary. */
  ghost predicate Quiet(u: string, z: string, n: string, q: char, word: bool) {
    u == [] || ((word || !(Token(n, q) <= u + z)) && Quiet(u[1..], z, n, q, WordChar(u[0])))
  }

  function WordAfter(u: string, word: bool): bool {
    if u == [] then word else WordChar(u[|u| - 1])
  }

  lemma {:induction false} PassQuiet(u: string, z: string, n: string, q: char, v: string, word: bool)
    requires Quiet(u, z, n, q, word)
    ensures Rewritten(u + z, n, q, v, word) == u + Rewritten(z, n, q, v, WordAfter(u, word))
    ensures HasQuoted(u + z, n, q, word) <==> HasQuoted(z, n, q, WordAfter(u, word))
  {
    if u == [] {
      assert u + z == z;
    } else {
      PassQuiet(u[1..], z, n, q, v, WordChar(u[0]));
      assert WordAfter(u[1..], WordChar(u[0])) == WordAfter(u, word);
      Peeled(u, z, Rewritten(z, n, q, v, WordAfter(u, word)));
    }
  }

  lemma Peeled(u: string, z: string, r: string)
    requires u != []
    ensures (u + z)[..1] == u[..1] && (u + z)[1..] == u[1..] + z && u[..1] + (u[1..] + r) == u + r
  {
  }

  lemma {:induction false} ReadQuiet(u: string, z: string, n: string, word: bool)
    requires Quiet(u, z, n, '\'', word) && Quiet(u, z, n, '"', word)
    ensures ValueIn(u + z, n, word) == ValueIn(z, n, WordAfter(u, word))
  {
    if u == [] {
      assert u + z == z;
    } else {
      ReadQuiet(u[1..], z, n, WordChar(u[0]));
      Peeled(u, z, []);
      if !word {
        NoTokenNoValue(u + z, n);
      }
    }
  }

  lemma ValueHasToken(s: string, n: string)
    requires ValueAt(s, n) >= 0
    ensures Quote(s[|n| + 1]) && Token(n, s[|n| + 1]) <= s
  {
    assert s[..|n| + 2] == n + "=" + [s[|n| + 1]];
  }

  lemma NoTokenNoValue(s: string, n: string)
    requires !(Token(n, '\'') <= s) && !(Token(n, '"') <= s)
    ensures ValueAt(s, n) < 0
  {
    if ValueAt(s, n) >= 0 {
      ValueHasToken(s, n);
    }
  }

  lemma {:induction false} QuietConcat(a: string, b: string, z: string, n: string, q: char, word: bool)
    requires Quiet(a, b + z, n, q, word) && Quiet(b, z, n, q, WordAfter(a, word))
    ensures Quiet(a + b, z, n, q, word)
  {
    if a == [] {
      assert a + b == b;
    } else {
      assert (a + b)[1..] == a[1..] + b;
      assert WordAfter(a[1..], WordChar(a[0])) == WordAfter(a, word);
      Assoc(a, b, z);
      QuietConcat(a[1..], b, z, n, q, WordChar(a[0]));
    }
  }

  lemma {:induction false} QuietSpace(u: string, z: string, n: string, q: char, word: bool)
    requires AllSpace(u) && AttributeName(n)
    ensures Quiet(u, z, n, q, word)
  {
    if u != [] {
      NotHere(u + z, n, q);
      QuietSpace(u[1..], z, n, q, WordChar(u[0]));
    }
  }

  /** A token starts with a word character. */
  lemma NotHere(s: string, n: string, q: char)
    requires AttributeName(n) && s != []
    ensures !WordChar(s[0]) ==> !(Token(n, q) <= s)
  {
    CharAt(Token(n, q), s, 0);
  }

  lemma {:induction false} QuietWord(u: string, z: string, n: string, q: char)
    requires forall i | 0 <= i < |u| :: WordChar(u[i])
    ensures Quiet(u, z, n, q, true)
  {
    if u != [] {
      QuietWord(u[1..], z, n, q);
    }
  }

  /** Text without `=` in front of a quote. */
  lemma {:induction false} QuietValue(u: string, p: char, z: string, n: string, q: char, word: bool)
    requires AttributeName(n) && Quote(q) && Quote(p) && forall i | 0 <= i < |u| :: !Quote(u[i]) && u[i] != '='
    ensures Quiet(u, [p] + z, n, q, word)
  {
    if u != [] {
      var s := u + ([p] + z);
      if Token(n, q) <= s {
        TokenAt(s, n, q, if |u| <= |n| then |u| else |n|);
      }
      QuietValue(u[1..], p, z, n, q, WordChar(u[0]));
    }
  }

  /** Only the attribute of that name starts a token. */
  lemma OtherName(name: string, p: char, value: string, z: string, n: string, q: char)
    requires AttributeName(name) && AttributeName(n) && Quote(p) && Quote(q) && (name != n || p != q)
    ensures !(Token(n, q) <= Attribute(name, p, value) + z)
  {
    var s := Attribute(name, p, value) + z;
    assert s[|name|] == '=' && s[|name| + 1] == p && s[..|name|] == name;
    assert forall i | 0 <= i < |name| :: s[i] == name[i];
    if Token(n, q) <= s {
      TokenName(s, n, q);
      TokenAt(s, n, q, if |name| < |n| then |name| else if |n| < |name| then |n| else |n| + 1);
    }
  }

  lemma TokenName(s: string, n: string, q: char)
    requires Token(n, q) <= s
    ensures |n| <= |s| && s[..|n|] == n
  {
    assert Token(n, q)[..|n|] == n;
  }

  lemma QuietAttribute(name: string, p: char, value: string, z: string, n: string, q: char)
    requires AttributeName(name) && AttributeName(n) && Quote(p) && Quote(q) && (name != n || p != q)
    requires forall i | 0 <= i < |value| :: !Quote(value[i]) && value[i] != '='
    ensures Quiet(Attribute(name, p, value), z, n, q, false)
  {
    OtherName(name, p, value, z, n, q);
    var rest := ['=', p] + (value + [p]);
    assert Attribute(name, p, value)[1..] == name[1..] + rest;
    QuietWord(name[1..], rest + z, n, q);
    QuietEnd(p, value, z, n, q, WordAfter(name[1..], true));
    QuietConcat(name[1..], rest, z, n, q, true);
  }

  lemma QuietEnd(p: char, value: string, z: string, n: string, q: char, word: bool)
    requires AttributeName(n) && Quote(p) && Quote(q)
    requires forall i | 0 <= i < |value| :: !Quote(value[i]) && value[i] != '='
    ensures Quiet(['=', p] + (value + [p]), z, n, q, word)
  {
    QuietValue(value, p, z, n, q, false);
    QuietOne(p, z, n, q, WordAfter(value, false));
    QuietConcat(value, [p], z, n, q, false);
    var tail := value + [p];
    QuietOne(p, tail + z, n, q, false);
    QuietConcat([p], tail, z, n, q, false);
    QuietOne('=', [p] + tail + z, n, q, word);
    assert [p] + tail + z == ([p] + tail) + z;
    QuietConcat(['='], [p] + tail, z, n, q, word);
    assert ['='] + ([p] + tail) == ['=', p] + tail;
  }

  lemma QuietOne(c: char, z: string, n: string, q: char, word: bool)
    requires AttributeName(n) && !WordChar(c)
    ensures Quiet([c], z, n, q, word)
  {
    NotHere([c] + z, n, q);
    assert [c][1..] == [];
  }

  // ----- Attribute lists -----

  function Put(atts: seq<Att>, n: string, q: char, v: string): seq<Att> {
    seq(|atts|, i requires 0 <= i < |atts| =>
      if atts[i].name == n && atts[i].quote == q then atts[i].(value := v) else atts[i])
  }

  ghost predicate Names(atts: seq<Att>, n: string, q: char) {
    exists i :: 0 <= i < |atts| && atts[i].name == n && atts[i].quote == q
  }

  lemma TailPlain(atts: seq<Att>)
    requires atts != [] && PlainAtts(atts)
    ensures PlainAtts(atts[1..])
  {
  }

  lemma FirstAttribute(a: Att, z: string, n: string, q: char, v: string, word: bool)
    requires PlainAtt(a) && AttributeName(n) && Quote(q) && PlainValue(v)
    ensures
      var here := a.name == n && a.quote == q;
      var s := a.space + Attribute(a.name, a.quote, a.value) + z;
      && Rewritten(s, n, q, v, word) ==
         a.space + Attribute(a.name, a.quote, if here then v else a.value) + Rewritten(z, n, q, v, false)
      && (HasQuoted(s, n, q, word) <==> here || HasQuoted(z, n, q, false))
  {
    var t := Attribute(a.name, a.quote, a.value);
    QuietSpace(a.space, t + z, n, q, word);
    PassQuiet(a.space, t + z, n, q, v, word);
    SpaceAfter(a.space, word);
    Assoc(a.space, t, z);
    if a.name == n && a.quote == q {
      AttributeMatches(n, q, a.value, z);
      RewriteStep(t + z, n, q, v, false);
      Assoc(a.space, Attribute(n, q, v), Rewritten(z, n, q, v, false));
    } else {
      QuietAttribute(a.name, a.quote, a.value, z, n, q);
      PassQuiet(t, z, n, q, v, false);
      assert t[|t| - 1] == a.quote;
      Assoc(a.space, t, Rewritten(z, n, q, v, false));
    }
  }

  lemma SpaceAfter(u: string, word: bool)
    requires u != [] && AllSpace(u)
    ensures !WordAfter(u, word)
  {
    assert SpaceChar(u[|u| - 1]);
  }

  /** Rewriting changes exactly the attributes of that name and quote. */
  lemma {:induction false} RewriteList(atts: seq<Att>, z: string, n: string, q: char, v: string, word: bool)
    requires PlainAtts(atts) && AttributeName(n) && Quote(q) && PlainValue(v)
    ensures
      var w := atts == [] && word;
      && Rewritten(Render(atts) + z, n, q, v, word) == Render(Put(atts, n, q, v)) + Rewritten(z, n, q, v, w)
      && (HasQuoted(Render(atts) + z, n, q, word) <==> Names(atts, n, q) || HasQuoted(z, n, q, w))
  {
    if atts == [] {
      assert Render(atts) + z == z;
    } else {
      var a, rest := atts[0], atts[1..];
      TailPlain(atts);
      FirstAttribute(a, Render(rest) + z, n, q, v, word);
      RewriteList(rest, z, n, q, v, false);
      PutFirst(atts, n, q, v);
      RenderFirst(atts, z);
      RenderFirst(Put(atts, n, q, v), Rewritten(z, n, q, v, false));
      NamesFirst(atts, n, q);
    }
  }

  lemma PutFirst(atts: seq<Att>, n: string, q: char, v: string)
    requires atts != []
    ensures Put(atts, n, q, v) != []
    ensures Put(atts, n, q, v)[0] == if atts[0].name == n && atts[0].quote == q then atts[0].(value := v) else atts[0]
    ensures Put(atts, n, q, v)[1..] == Put(atts[1..], n, q, v)
  {
  }

  lemma RenderFirst(atts: seq<Att>, z: string)
    requires atts != []
    ensures Render(atts) + z ==
            atts[0].space + Attribute(atts[0].name, atts[0].quote, atts[0].value) + (Render(atts[1..]) + z)
  {
    Assoc(atts[0].space + Attribute(atts[0].name, atts[0].quote, atts[0].value), Render(atts[1..]), z);
  }

  lemma NamesFirst(atts: seq<Att>, n: string, q: char)
    requires atts != []
    ensures Names(atts, n, q) <==> (atts[0].name == n && atts[0].quote == q) || Names(atts[1..], n, q)
  {
    if i :| 0 <= i < |atts[1..]| && atts[1..][i].name == n && atts[1..][i].quote == q {
      assert atts[i + 1] == atts[1..][i];
    }
    if i :| 0 < i < |atts| && atts[i].name == n && atts[i].quote == q {
      assert atts[i] == atts[1..][i - 1];
    }
  }

  // ----- Reading -----

  function Value(atts: seq<Att>, n: string): string {
    if atts == [] then []
    else if atts[0].name == n then atts[0].value
    else Value(atts[1..], n)
  }

  ghost predicate Has(atts: seq<Att>, n: string) {
    exists i :: 0 <= i < |atts| && atts[i].name == n
  }

  lemma {:induction false} ReadList(atts: seq<Att>, z: string, n: string, word: bool)
    requires PlainAtts(atts) && AttributeName(n)
    ensures Has(atts, n) ==> ValueIn(Render(atts) + z, n, word) == Value(atts, n)
    ensures !Has(atts, n) ==> ValueIn(Render(atts) + z, n, word) == ValueIn(z, n, atts == [] && word)
  {
    if atts == [] {
      assert Render(atts) + z == z;
    } else {
      var a, rest := atts[0], atts[1..];
      TailPlain(atts);
      RenderFirst(atts, z);
      ReadFirstAttribute(a, Render(rest) + z, n, word);
      ReadList(rest, z, n, false);
      assert Has(atts, n) <==> a.name == n || Has(rest, n) by {
        if i :| 0 <= i < |rest| && rest[i].name == n {
          assert atts[i + 1].name == n;
        }
        if i :| 0 < i < |atts| && atts[i].name == n {
          assert rest[i - 1].name == n;
        }
      }
    }
  }

  lemma ReadFirstAttribute(a: Att, z: string, n: string, word: bool)
    requires PlainAtt(a) && AttributeName(n)
    ensures
      ValueIn(a.space + Attribute(a.name, a.quote, a.value) + z, n, word) ==
      if a.name == n then a.value else ValueIn(z, n, false)
  {
    var t := Attribute(a.name, a.quote, a.value);
    QuietSpace(a.space, t + z, n, '\'', word);
    QuietSpace(a.space, t + z, n, '"', word);
    ReadQuiet(a.space, t + z, n, word);
    SpaceAfter(a.space, word);
    Assoc(a.space, t, z);
    if a.name == n {
      ValueHere(n, a.quote, a.value, z);
    } else {
      QuietAttribute(a.name, a.quote, a.value, z, n, '\'');
      QuietAttribute(a.name, a.quote, a.value, z, n, '"');
      ReadQuiet(t, z, n, false);
      assert t[|t| - 1] == a.quote;
    }
  }

  lemma ValueHere(n: string, q: char, v: string, z: string)
    requires Quote(q) && forall i | 0 <= i < |v| :: !Quote(v[i])
    ensures ValueIn(Attribute(n, q, v) + z, n, false) == v
  {
    var s := Attribute(n, q, v) + z;
    assert s == n + "=" + ([q] + v + [q] + z);
    assert s[|n| + 2..] == v + ([q] + z);
    QuoteEnds(v, [q] + z);
    assert s[|n| + 2..|n| + 2 + |v|] == v;
  }

  lemma QuoteEnds(v: string, z: string)
    requires (forall i | 0 <= i < |v| :: !Quote(v[i])) && z != [] && Quote(z[0])
    ensures UpToQuote(v + z) == |v|
  {
    var n := UpToQuote(v + z);
    assert (v + z)[|v|] == z[0];
    assert forall i | 0 <= i < |v| :: (v + z)[i] == v[i];
  }

  // ----- Whole tags -----

  ghost predicate IsPlain(o: string) {
    exists atts :: PlainAtts(atts) && o == DiskTag(atts)
  }

  /** Names that do not start like `disk` itself. */
  predicate OtherThanDisk(n: string) {
    AttributeName(n) && (n[0] != 'd' || (|n| > 1 && n[1] != 'i'))
  }

  lemma QuietDisk(z: string, n: string, q: char)
    requires OtherThanDisk(n) && Quote(q)
    ensures Quiet("<disk", z, n, q, false)
  {
    var disk, isk := "disk", "isk";
    assert "<disk"[1..] == disk && disk[1..] == isk;
    QuietWord(isk, z, n, q);
    var s := disk + z;
    CharAt(Token(n, q), s, 0);
    CharAt(Token(n, q), s, 1);
    NotHere("<disk" + z, n, q);
  }

  lemma QuietEndOfTag(n: string, q: char, v: string, word: bool)
    requires AttributeName(n)
    ensures Rewritten(">", n, q, v, word) == ">" && !HasQuoted(">", n, q, word)
  {
    QuietOne('>', [], n, q, word);
    PassQuiet(['>'], [], n, q, v, word);
    assert ['>'] + [] == ">";
  }

  lemma RewriteTag(atts: seq<Att>, n: string, q: char, v: string)
    requires PlainAtts(atts) && OtherThanDisk(n) && Quote(q) && PlainValue(v)
    ensures Rewritten(DiskTag(atts), n, q, v, false) == DiskTag(Put(atts, n, q, v))
    ensures HasQuoted(DiskTag(atts), n, q, false) <==> Names(atts, n, q)
  {
    var z := Render(atts) + ">";
    Assoc("<disk", Render(atts), ">");
    QuietDisk(z, n, q);
    PassQuiet("<disk", z, n, q, v, false);
    RewriteList(atts, ">", n, q, v, true);
    QuietEndOfTag(n, q, v, atts == []);
    Assoc("<disk", Render(Put(atts, n, q, v)), ">");
  }

  /** The value of an attribute set to `v`, added at the end when it is not there. */
  function SetAtt(atts: seq<Att>, n: string, v: string): seq<Att> {
    if exists i :: 0 <= i < |atts| && atts[i].name == n then
      seq(|atts|, i requires 0 <= i < |atts| => if atts[i].name == n then atts[i].(value := v) else atts[i])
    else atts + [Att(" ", n, '\'', v)]
  }

  lemma {:induction false} RenderConcat(a: seq<Att>, b: Att)
    ensures Render(a + [b]) == Render(a) + (b.space + Attribute(b.name, b.quote, b.value))
  {
    if a == [] {
      assert a + [b] == [b] && [b][1..] == [];
    } else {
      assert (a + [b])[1..] == a[1..] + [b];
      RenderConcat(a[1..], b);
      Assoc(a[0].space + Attribute(a[0].name, a[0].quote, a[0].value), Render(a[1..]),
            b.space + Attribute(b.name, b.quote, b.value));
    }
  }

  lemma {:induction false} RenderNoAngle(atts: seq<Att>)
    requires PlainAtts(atts)
    ensures NoAngle(Render(atts))
    ensures atts != [] ==> SpaceChar(Render(atts)[0]) && '=' in Render(atts)
  {
    if atts != [] {
      TailPlain(atts);
      RenderNoAngle(atts[1..]);
      var a := atts[0];
      AttributeNoAngle(a.name, a.quote, a.value);
      assert Attribute(a.name, a.quote, a.value)[|a.name|] == '=';
    }
  }

  lemma PlainIsDiskTag(atts: seq<Att>)
    requires PlainAtts(atts)
    ensures IsDiskTag(DiskTag(atts))
  {
    RenderNoAngle(atts);
    DiskTagFrom(Render(atts));
  }

  lemma AddedOnDisk(attrs: string, n: string, v: string)
    requires IsDiskTag("<disk" + attrs + ">")
    ensures Added("<disk" + attrs + ">", n, v) ==
            (if TrimSpace(attrs) == [] then "<disk" else "<disk" + attrs) + " " + Attribute(n, '\'', v) + ">"
  {
    var tag := "<disk" + attrs + ">";
    DiskName(tag);
    AddedAs(tag, n, v);
    assert tag[5..|tag| - 1] == attrs;
    PlacedForm("<disk", attrs, n, v);
  }

  lemma NotBlank(s: string)
    requires '=' in s
    ensures TrimSpace(s) != []
  {
    TrimSpaceEmpty(s);
    var i :| 0 <= i < |s| && s[i] == '=';
    assert !IsSpace(s[i]);
  }

  lemma AddToPlain(atts: seq<Att>, n: string, v: string)
    requires PlainAtts(atts) && AttributeName(n)
    ensures Added(DiskTag(atts), n, v) == DiskTag(atts + [Att(" ", n, '\'', v)])
  {
    PlainIsDiskTag(atts);
    AddedOnDisk(Render(atts), n, v);
    RenderConcat(atts, Att(" ", n, '\'', v));
    RenderNoAngle(atts);
    if atts != [] {
      NotBlank(Render(atts));
    } else {
      assert TrimSpace([]) == [];
    }
    Behind(Render(atts), Attribute(n, '\'', v));
  }

  lemma Behind(attrs: string, a: string)
    ensures "<disk" + (attrs + (" " + a)) + ">" == "<disk" + attrs + " " + a + ">"
    ensures attrs == [] ==> "<disk" + attrs == "<disk"
  {
  }

  /** setAttribute sets exactly the attribute of that name. */
  lemma SetOnPlain(atts: seq<Att>, n: string, value: string)
    requires PlainAtts(atts) && OtherThanDisk(n) && PlainValue(XmlAttr(value))
    ensures SetAttribute(DiskTag(atts), n, value) == DiskTag(SetAtt(atts, n, XmlAttr(value)))
  {
    var v := XmlAttr(value);
    RewriteTag(atts, n, '\'', v);
    RewriteTag(atts, n, '"', v);
    if Names(atts, n, '\'') {
      OneQuote(atts, n, '\'', v);
    } else if Names(atts, n, '"') {
      OneQuote(atts, n, '"', v);
    } else {
      AddToPlain(atts, n, v);
    }
  }

  lemma OneQuote(atts: seq<Att>, n: string, q: char, v: string)
    requires PlainAtts(atts) && Names(atts, n, q)
    ensures Put(atts, n, q, v) == SetAtt(atts, n, v)
  {
  }

  /** attributeValue reads exactly the attribute of that name. */
  lemma ReadPlain(atts: seq<Att>, n: string)
    requires PlainAtts(atts) && OtherThanDisk(n)
    ensures AttributeValue(DiskTag(atts), n) == Value(atts, n)
  {
    var z := Render(atts) + ">";
    Assoc("<disk", Render(atts), ">");
    QuietDisk(z, n, '\'');
    QuietDisk(z, n, '"');
    ReadQuiet("<disk", z, n, false);
    ReadList(atts, ">", n, true);
    QuietOne('>', [], n, '\'', atts == []);
    QuietOne('>', [], n, '"', atts == []);
    ReadQuiet(['>'], [], n, atts == []);
    assert ['>'] + [] == ">";
    NoValue(atts, n);
  }

  lemma {:induction false} NoValue(atts: seq<Att>, n: string)
    ensures !Has(atts, n) ==> Value(atts, n) == []
  {
    if atts != [] && !Has(atts, n) {
      assert forall i | 0 <= i < |atts[1..]| :: atts[1..][i] == atts[i + 1];
      assert atts[0].name != n;
      NoValue(atts[1..], n);
    }
  }

  lemma SetKeepsPlain(atts: seq<Att>, n: string, v: string)
    requires PlainAtts(atts) && AttributeName(n) && PlainText(v)
    ensures PlainAtts(SetAtt(atts, n, v)) && Has(SetAtt(atts, n, v), n)
  {
    var after := SetAtt(atts, n, v);
    if exists i :: 0 <= i < |atts| && atts[i].name == n {
      var i :| 0 <= i < |atts| && atts[i].name == n;
      assert after[i].name == n;
    } else {
      assert after[|atts|].name == n;
    }
  }

  /** What was set is read back; other attributes are as before. */
  lemma {:induction false} ReadBack(atts: seq<Att>, n: string, v: string, m: string)
    ensures Value(SetAtt(atts, n, v), m) == if m == n then v else Value(atts, m)
  {
    var after := SetAtt(atts, n, v);
    if atts == [] {
      assert after[1..] == [];
    } else if exists i :: 0 <= i < |atts| && atts[i].name == n {
      Changed(atts, n, v, m);
    } else {
      assert after[0] == atts[0] && after[1..] == SetAtt(atts[1..], n, v) by {
        assert forall i | 0 <= i < |atts[1..]| :: atts[1..][i] == atts[i + 1];
        assert after[1..] == atts[1..] + [Att(" ", n, '\'', v)];
      }
      ReadBack(atts[1..], n, v, m);
    }
  }

  lemma {:induction false} Changed(atts: seq<Att>, n: string, v: string, m: string)
    requires exists i :: 0 <= i < |atts| && atts[i].name == n
    ensures Value(SetAtt(atts, n, v), m) == if m == n then v else Value(atts, m)
  {
    var after := SetAtt(atts, n, v);
    if atts[0].name != n {
      var i :| 0 <= i < |atts| && atts[i].name == n;
      assert atts[1..][i - 1].name == n;
      assert after[1..] == SetAtt(atts[1..], n, v);
      Changed(atts[1..], n, v, m);
    } else if m != n {
      if exists j :: 0 <= j < |atts[1..]| && atts[1..][j].name == n {
        assert after[1..] == SetAtt(atts[1..], n, v);
        Changed(atts[1..], n, v, m);
      } else {
        assert forall i | 0 < i < |atts| :: atts[i] == atts[1..][i - 1];
        assert after[1..] == atts[1..];
      }
    }
  }

  /** Setting an attribute to the value it has changes nothing. */
  lemma SetSame(atts: seq<Att>, n: string, v: string)
    requires PlainAtts(atts) && Has(atts, n) && Value(atts, n) == v
    ensures SetAtt(atts, n, v) == atts
  {
    var i :| 0 <= i < |atts| && atts[i].name == n;
    ValueAtIndex(atts, n, i);
  }

  lemma {:induction false} ValueAtIndex(atts: seq<Att>, n: string, i: nat)
    requires PlainAtts(atts) && i < |atts| && atts[i].name == n
    ensures Value(atts, n) == atts[i].value
  {
    if i > 0 {
      TailPlain(atts);
      assert atts[0].name != atts[i].name;
      ValueAtIndex(atts[1..], n, i - 1);
    }
  }
}
