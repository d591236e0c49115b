/** Reading back a finished configuration drive: its target and its volume. */
module DriveRead {
  import opened Text
  import opened XmlScan
  import opened XmlClean
  import opened XmlAttributes
  import opened XmlSetAttribute
  import opened XmlRewrite
  import opened XmlPairs
  import opened DiskBlock
  import opened BootOrder
  import opened PlainTag
  import opened DriveTarget
  import opened DriveBlock

  // ----- The last attribute of a name -----

  lemma {:induction false} LastQuiet(u: string, z: string, n: string, word: bool)
    requires Quiet(u, z, n, '\'', word) && Quiet(u, z, n, '"', word)
    requires forall i | 0 <= i < |u| :: u[i] != '>'
    ensures LastValue(u + z, n, word) == LastValue(z, n, WordAfter(u, word))
  {
    if u == [] {
      assert u + z == z;
    } else {
      LastQuiet(u[1..], z, n, WordChar(u[0]));
      Peeled(u, z, []);
      if !word {
        NoTokenNoValue(u + z, n);
      }
    }
  }

  /** An attribute counts when no later one of its name does. */
  lemma LastAtt(a: Att, z: string, n: string, word: bool)
    requires PlainAtt(a) && AttributeName(n)
    ensures
      LastValue(a.space + Attribute(a.name, a.quote, a.value) + z, n, word) ==
      if LastValue(z, n, false) != [] then LastValue(z, n, false) else if a.name == n then a.value else []
  {
    var t := Attribute(a.name, a.quote, a.value);
    Assoc(a.space, t, z);
    QuietSpace(a.space, t + z, n, '\'', word);
    QuietSpace(a.space, t + z, n, '"', word);
    LastQuiet(a.space, t + z, n, word);
    SpaceAfter(a.space, word);
    AttributeNoAngle(a.name, a.quote, a.value);
    if a.name == n {
      LastHere(n, a.quote, a.value, z);
    } else {
      QuietAttribute(a.name, a.quote, a.value, z, n, '\'');
      QuietAttribute(a.name, a.quote, a.value, z, n, '"');
      LastQuiet(t, z, n, false);
      assert t[|t| - 1] == a.quote;
    }
  }

  lemma LastHere(n: string, q: char, v: string, z: string)
    requires AttributeName(n) && Quote(q) && PlainText(v)
    ensures LastValue(Attribute(n, q, v) + z, n, false) == if LastValue(z, n, false) != [] then LastValue(z, n, false) else v
  {
    var s := Attribute(n, q, v) + z;
    var rest := ['=', q] + (v + [q]);
    assert s[1..] == n[1..] + (rest + z);
    QuietWord(n[1..], rest + z, n, '\'');
    QuietWord(n[1..], rest + z, n, '"');
    LastQuiet(n[1..], rest + z, n, true);
    QuietEnd(q, v, z, n, '\'', WordAfter(n[1..], true));
    QuietEnd(q, v, z, n, '"', WordAfter(n[1..], true));
    LastQuiet(rest, z, n, WordAfter(n[1..], true));
    assert rest[|rest| - 1] == q;
    assert s[0] == n[0];
    OwnValue(n, q, v, z);
  }

  lemma OwnValue(n: string, q: char, v: string, z: string)
    requires Quote(q) && PlainText(v)
    ensures
      var s := Attribute(n, q, v) + z;
      ValueAt(s, n) == |v| && s[|n| + 2..|n| + 2 + |v|] == v
  {
    var s := Attribute(n, q, v) + z;
    assert s == n + "=" + ([q] + v + [q] + z);
    assert s[|n| + 2..] == v + ([q] + z);
    QuoteEnds(v, [q] + z);
  }

  lemma NoValueAtEnd(w: string, n: string, word: bool)
    requires AttributeName(n)
    ensures LastValue("/>" + w, n, word) == []
  {
    var s := "/>" + w;
    assert s[1..][0] == '>';
    NotHere(s, n, '\'');
    NotHere(s, n, '"');
    NoTokenNoValue(s, n);
  }

  lemma TargetText(dev: string, bus: string)
    requires NameText(dev) && NameText(bus)
    ensures TargetElement(dev, bus) == "<target" + (" " + Attribute("dev", '\'', dev) + (" " + Attribute("bus", '\'', bus) + "/>"))
  {
    NameIsItself(dev);
    NameIsItself(bus);
    AttrText("dev", dev);
    AttrText("bus", bus);
    TargetPieces(Attribute("dev", '\'', dev), Attribute("bus", '\'', bus));
  }

  lemma AttrText(n: string, v: string)
    requires XmlAttr(v) == v
    ensures Attr(n, v) == Attribute(n, '\'', v)
  {
  }

  lemma TargetPieces(d: string, b: string)
    ensures Element("<target", d + " " + b) == "<target" + (" " + d + (" " + b + "/>"))
  {
  }

  /** The values of the new target element, whatever follows it. */
  lemma ReadTargetElement(dev: string, bus: string, w: string)
    requires NameText(dev) && NameText(bus) && '=' !in dev && '=' !in bus
    ensures LastValue((TargetElement(dev, bus) + w)[7..], "dev", true) == dev
    ensures LastValue((TargetElement(dev, bus) + w)[7..], "bus", true) == bus
  {
    NameIsItself(dev);
    NameIsItself(bus);
    TargetText(dev, bus);
    var a, b := Att(" ", "dev", '\'', dev), Att(" ", "bus", '\'', bus);
    var end := "/>" + w;
    var second := " " + Attribute("bus", '\'', bus) + end;
    TargetTail(Attribute("dev", '\'', dev), " " + Attribute("bus", '\'', bus), w);
    PlainNames();
    NoValueAtEnd(w, "dev", false);
    NoValueAtEnd(w, "bus", false);
    LastAtt(b, end, "dev", false);
    LastAtt(b, end, "bus", false);
    LastAtt(a, second, "dev", true);
    LastAtt(a, second, "bus", true);
  }

  lemma TargetTail(d: string, b: string, w: string)
    ensures ("<target" + (" " + d + (b + "/>")) + w)[7..] == " " + d + (b + ("/>" + w))
  {
  }

  lemma PlainNames()
    ensures AttributeName("dev") && AttributeName("bus") && AllSpace(" ")
  {
  }

  // ----- The first target of a block -----

  lemma {:induction false} TextHasNoTarget(u: string, z: string, n: string)
    requires forall i | 0 <= i < |u| :: u[i] != '<'
    ensures TargetValue(u + z, n) == TargetValue(z, n)
  {
    if u == [] {
      assert u + z == z;
    } else {
      FirstLetter("<target", u + z);
      Peeled(u, z, []);
      TextHasNoTarget(u[1..], z, n);
    }
  }

  lemma {:induction false} PassNoTarget(u: string, z: string, n: string)
    requires Clean(u) && NoOpens("<target", TagsOf(u))
    ensures TargetValue(u + z, n) == TargetValue(z, n)
    decreases |u|
  {
    if u == [] {
      assert u + z == z;
    } else if u[0] != '<' {
      FirstLetter("<target", u + z);
      Peeled(u, z, []);
      PassNoTarget(u[1..], z, n);
    } else {
      FirstTag(u);
      FirstDoesNotOpen("<target", u);
      var g := UpTo(u, '>') + 1;
      PassNoTarget(u[g..], z, n);
      TagHasNoTarget(u[..g], u[g..] + z, n);
      assert u + z == u[..g] + (u[g..] + z);
    }
  }

  lemma TagHasNoTarget(t: string, z: string, n: string)
    requires IsTag(t) && !Opens(t, "<target")
    ensures TargetValue(t + z, n) == TargetValue(z, n)
  {
    var s := t + z;
    assert s[..|t|] == t;
    OpensInTag(s, |t| - 1, "<target");
    Peeled(t, z, []);
    TextHasNoTarget(t[1..], z, n);
  }

  /** On a plain list of attributes the value of a name is that of its attribute. */
  lemma {:induction false} LastList(atts: seq<Att>, w: string, n: string, word: bool)
    requires PlainAtts(atts) && AttributeName(n)
    ensures LastValue(Render(atts) + ("/>" + w), n, word) == Value(atts, n)
  {
    if atts == [] {
      assert Render(atts) + ("/>" + w) == "/>" + w;
      NoValueAtEnd(w, n, word);
    } else {
      var rest := atts[1..];
      TailPlain(atts);
      RenderFirst(atts, "/>" + w);
      LastAtt(atts[0], Render(rest) + ("/>" + w), n, word);
      LastList(rest, w, n, false);
      if atts[0].name == n {
        NoOtherValue(rest, n);
      }
    }
  }

  lemma {:induction false} NoOtherValue(atts: seq<Att>, n: string)
    requires forall i | 0 <= i < |atts| :: atts[i].name != n
    ensures Value(atts, n) == []
  {
    if atts != [] {
      NoOtherValue(atts[1..], n);
    }
  }

  lemma OpensTarget(rest: string)
    requires rest != [] && !WordChar(rest[0])
    ensures Opens("<target" + rest, "<target") && ("<target" + rest)[7..] == rest
  {
  }

  lemma RenderStarts(atts: seq<Att>, z: string)
    requires PlainAtts(atts) && atts != []
    ensures var s := Render(atts) + z; s != [] && !WordChar(s[0])
  {
    assert Render(atts)[0] == atts[0].space[0];
  }

  /** The target of a disk is read from its first target tag: when that is a plain list of attributes in quotes of
      either kind, the values are those of `dev` and `bus` in it. */
  lemma TargetRead(u: string, atts: seq<Att>, w: string, n: string)
    requires Clean(u) && NoOpens("<target", TagsOf(u)) && PlainAtts(atts) && AttributeName(n) && Value(atts, n) != []
    ensures TargetValue(u + ("<target" + (Render(atts) + ("/>" + w))), n) == Value(atts, n)
  {
    var rest := Render(atts) + ("/>" + w);
    RenderStarts(atts, "/>" + w);
    OpensTarget(rest);
    PassNoTarget(u, "<target" + rest, n);
    LastList(atts, w, n, true);
  }

  /** Text up to the first tag that opens the element, that tag, and the rest. */
  lemma {:induction false} FirstOpening(s: string, open: string) returns (u: string, t: string, z: string)
    requires Clean(s) && !NoOpens(open, TagsOf(s))
    ensures s == u + t + z && Clean(u) && NoOpens(open, TagsOf(u)) && IsTag(t) && Opens(t, open) && t in TagsOf(s)
    decreases |s|
  {
    if s[0] != '<' {
      u, t, z := FirstOpening(s[1..], open);
      LaterChar(s, open, u, t, z);
      u := s[..1] + u;
    } else {
      FirstTag(s);
      var g := UpTo(s, '>') + 1;
      var first, rest := s[..g], s[g..];
      TagsOfTag(first, rest);
      if Opens(first, open) {
        u, t, z := [], first, rest;
        assert TagsOf(s)[0] == first;
      } else {
        OpensSplit2(open, first, TagsOf(rest));
        u, t, z := FirstOpening(rest, open);
        LaterTag(first, open, u, t, z);
        u := first + u;
      }
    }
  }

  lemma OpensSplit2(open: string, t: string, tags: seq<string>)
    requires !NoOpens(open, [t] + tags) && !Opens(t, open)
    ensures !NoOpens(open, tags)
  {
    var i :| 0 <= i < |[t] + tags| && Opens(([t] + tags)[i], open);
    assert Opens(tags[i - 1], open);
  }

  lemma LaterChar(s: string, open: string, u: string, t: string, z: string)
    requires s != [] && s[0] != '<' && s[1..] == u + t + z && Clean(u) && NoOpens(open, TagsOf(u))
    ensures s == s[..1] + u + t + z && Clean(s[..1] + u) && NoOpens(open, TagsOf(s[..1] + u))
  {
    assert (s[..1] + u)[1..] == u;
  }

  lemma LaterTag(first: string, open: string, u: string, t: string, z: string)
    requires IsTag(first) && !Opens(first, open) && Clean(u) && NoOpens(open, TagsOf(u))
    ensures first + (u + t + z) == first + u + t + z && Clean(first + u) && NoOpens(open, TagsOf(first + u))
  {
    TagFirst(first, u);
    TagsOfTag(first, u);
    assert forall i | 0 < i < |[first] + TagsOf(u)| :: ([first] + TagsOf(u))[i] == TagsOf(u)[i - 1];
  }

  /** Every target of the block is self-closing. */
  ghost predicate TargetsClosed(tags: seq<string>) {
    forall i | 0 <= i < |tags| :: Opens(tags[i], "<target") ==> Fits(TARGET, tags[i])
  }

  lemma {:induction false} AllFound(p: Pattern, tags: seq<string>, t: string)
    requires t in tags && Fits(p, t)
    ensures t in Select(p, tags)
  {
    SelectHas(p, tags, t);
  }

  /** A finished drive whose targets are all self-closing reads back the target it was given. */
  lemma DriveReads(o: string, y: string, pool: string, vol: string, dev: string, bus: string)
    requires IsDiskTag(o) && FinishedInside(y, pool, vol, dev, bus) && NameText(dev) && NameText(bus) && dev != "" && bus != ""
    requires TargetsClosed(TagsOf(y)) && '=' !in dev && '=' !in bus
    ensures DiskTargetDev(o + y + CLOSE) == dev && DiskTargetBus(o + y + CLOSE) == bus
  {
    var rt := TargetElement(dev, bus);
    NameIsItself(dev);
    NameIsItself(bus);
    TargetFits(dev, bus);
    var found := Select(TARGET, TagsOf(y));
    SelectHas(TARGET, TagsOf(y), found[0]);
    SomeOpens(TagsOf(y), rt);
    var u, t, z := FirstOpening(y, "<target");
    AllFound(TARGET, TagsOf(y), t);
    assert t == rt;
    InFrontOfTarget(o, u);
    var w := z + CLOSE;
    Regrouped(o, u, rt, z, CLOSE);
    PassNoTarget(o + u, rt + w, "dev");
    PassNoTarget(o + u, rt + w, "bus");
    ReadTargetElement(dev, bus, w);
    TargetOpens(rt, w);
  }

  lemma SomeOpens(tags: seq<string>, t: string)
    requires t in tags && Opens(t, "<target")
    ensures !NoOpens("<target", tags)
  {
  }

  lemma TargetOpens(t: string, w: string)
    requires IsTag(t) && Opens(t, "<target")
    ensures Opens(t + w, "<target")
  {
    assert (t + w)[..|t|] == t;
    OpensInTag(t + w, |t| - 1, "<target");
  }

  lemma InFrontOfTarget(o: string, u: string)
    requires IsDiskTag(o) && Clean(u) && NoOpens("<target", TagsOf(u))
    ensures Clean(o + u) && NoOpens("<target", TagsOf(o + u))
  {
    SecondLetter("<disk", o);
    if Opens(o, "<target") {
      SecondLetter("<target", o);
    }
    LaterTag(o, "<target", u, [], []);
  }

  lemma Regrouped(o: string, u: string, t: string, z: string, c: string)
    ensures o + (u + t + z) + c == (o + u) + (t + (z + c))
  {
  }

  // ----- The drive names its volume -----

  lemma SourceNames(pool: string, vol: string) returns (i: nat)
    requires pool != "" && vol != "" && NameText(vol)
    ensures i + |vol| <= |SourceElement(DriveVolume(pool, vol))|
    ensures SourceElement(DriveVolume(pool, vol))[i..i + |vol|] == vol
  {
    NameIsItself(vol);
    var front := "<source" + " " + (Attr("pool", pool) + " " + "volume" + "='");
    SourcePieces(Attr("pool", pool), vol);
    i := |front|;
    Middle(front, vol, "'" + "/>");
  }

  lemma Middle(a: string, b: string, c: string)
    ensures (a + (b + c))[|a|..|a| + |b|] == b
  {
  }

  lemma SourcePieces(p: string, vol: string)
    requires XmlAttr(vol) == vol
    ensures Element("<source", p + " " + Attr("volume", vol)) == "<source" + " " + (p + " " + "volume" + "='") + (vol + ("'" + "/>"))
  {
  }

  lemma DriveNames(o: string, y: string, pool: string, vol: string, dev: string, bus: string)
    requires FinishedInside(y, pool, vol, dev, bus) && pool != "" && vol != "" && NameText(vol)
    ensures Contains(o + y + CLOSE, vol)
  {
    SourceListed(y, pool, vol, dev, bus);
    var i := SourceNames(pool, vol);
    BlockNames(o, y, CLOSE, SourceElement(DriveVolume(pool, vol)), i, vol);
  }

  lemma SourceListed(y: string, pool: string, vol: string, dev: string, bus: string)
    requires FinishedInside(y, pool, vol, dev, bus)
    ensures SourceElement(DriveVolume(pool, vol)) in TagsOf(y)
  {
    var found := Select(SOURCE, TagsOf(y));
    SelectHas(SOURCE, TagsOf(y), found[0]);
  }

  lemma BlockNames(o: string, y: string, c: string, r: string, i: nat, vol: string)
    requires Clean(y) && r in TagsOf(y) && i + |vol| <= |r| && r[i..i + |vol|] == vol
    ensures Contains(o + y + c, vol)
  {
    var k := TagOccurs(y, r);
    Within(o, y, c, r, k, i, |vol|);
    FindFirst(o + y + c, vol, |o| + k + i);
  }

  lemma Within(o: string, y: string, c: string, r: string, k: nat, i: nat, n: nat)
    requires k <= |y| && r <= y[k..] && i + n <= |r|
    ensures |o| + k + i + n <= |o + y + c| && (o + y + c)[|o| + k + i..|o| + k + i + n] == r[i..i + n]
  {
    var s := o + y + c;
    assert forall j | 0 <= j < |r| :: s[|o| + k + j] == y[k..][j] == r[j];
  }
}
