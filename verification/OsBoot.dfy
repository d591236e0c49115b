/** stripOSBootElements (internal/libvirt/domain_xml.go): the boot entries inside <os> elements are removed. */
module OsBoot {
  import opened XmlScan
  import opened XmlClean
  import opened XmlRewrite
  import opened XmlPairs
  import opened DiskBlock

  const OS := Paired("<os", "</os>")

  function SpaceLen(s: string): (n: nat)
    ensures n <= |s| && (n < |s| ==> !SpaceChar(s[n]))
    ensures forall i | 0 <= i < n :: SpaceChar(s[i])
  {
    if s == [] || !SpaceChar(s[0]) then 0 else 1 + SpaceLen(s[1..])
  }

  /** White space and an element at the start of the text; 0 when they are not there. */
  function SpacedLen(p: Pattern, s: string): (n: nat)
    ensures n <= |s|
  {
    var k := SpaceLen(s);
    if MatchLen(p, s[k..]) > 0 then k + MatchLen(p, s[k..]) else 0
  }

  /** Every element of a kind removed, with the white space in front of it. */
  function RemoveSpaced(p: Pattern, s: string): string {
    if s == [] then []
    else
      var n := SpacedLen(p, s);
      if n > 0 then RemoveSpaced(p, s[n..]) else s[..1] + RemoveSpaced(p, s[1..])
  }

  function RemoveBoots(s: string): string {
    RemoveSpaced(BOOT, s)
  }

  function StripDoc(d: Doc): string {
    match d
    case Tail(text) => text
    case Next(gap, block, rest) => gap + RemoveBoots(block) + StripDoc(rest)
  }

  function Stripped(s: string): string {
    StripDoc(Scan(OS, s))
  }

  method StripOSBootElements(s: string) returns (out: string)
    ensures out == Stripped(s)
  {
    var matches := FindAll(OS, s);
    ReadFirst(OS, s);
    if |matches| == 0 {
      JoinScan(OS, s);
      return s;
    }
    out := [];
    var last: nat := 0;
    ghost var rest := Scan(OS, s);
    for i := 0 to |matches|
      invariant Reading(s, matches, i, last, rest) && last <= |s|
      invariant out + StripDoc(rest) == StripDoc(Scan(OS, s))
    {
      ReadNext(s, matches, i, last, rest);
      StripStep(out, rest);
      var loc := matches[i];
      out := out + s[last..loc.from];
      out := out + RemoveBoots(s[loc.from..loc.to]);
      last := loc.to;
      rest := rest.rest;
    }
    ReadLast(s, matches, last, rest);
    out := out + s[last..];
  }

  lemma StripStep(out: string, d: Doc)
    requires d.Next?
    ensures out + StripDoc(d) == out + d.gap + RemoveBoots(d.block) + StripDoc(d.rest)
  {
  }

  // ----- Removing, tag by tag -----

  function Without(p: Pattern, tags: seq<string>): seq<string> {
    if tags == [] then []
    else (if Fits(p, tags[0]) then [] else tags[..1]) + Without(p, tags[1..])
  }

  lemma {:induction false} SpacesCounted(sp: string, rest: string)
    requires AllSpace(sp) && (rest == [] || !SpaceChar(rest[0]))
    ensures SpaceLen(sp + rest) == |sp| && (sp + rest)[|sp|..] == rest
  {
    if sp == [] {
      assert sp + rest == rest;
    } else {
      assert (sp + rest)[1..] == sp[1..] + rest;
      SpacesCounted(sp[1..], rest);
    }
  }

  lemma TagInFrontOf(p: Pattern, t: string, rest: string)
    requires !p.Paired? && IsTag(t)
    ensures SpacedLen(p, t + rest) == if Fits(p, t) then |t| else 0
    ensures (t + rest)[|t|..] == rest
  {
    SpacesCounted([], t + rest);
    assert [] + (t + rest) == t + rest;
    TagFirst(t, rest);
  }

  /** Inside a tag there is no element. */
  lemma {:induction false} RemoveWithin(p: Pattern, u: string, rest: string)
    requires u != [] && u[|u| - 1] == '>' && forall i | 0 <= i < |u| :: u[i] != '<'
    ensures RemoveSpaced(p, u + rest) == u + RemoveSpaced(p, rest)
  {
    NoneWithin(p, u, rest);
    FirstApart(u, rest, RemoveSpaced(p, rest));
    if |u| == 1 {
      assert u[1..] + rest == rest && u[1..] + RemoveSpaced(p, rest) == RemoveSpaced(p, rest);
    } else {
      RemoveWithin(p, u[1..], rest);
    }
  }

  lemma FirstApart(u: string, rest: string, after: string)
    requires u != []
    ensures (u + rest)[..1] == u[..1] && (u + rest)[1..] == u[1..] + rest
    ensures u[..1] + (u[1..] + after) == u + after
  {
  }

  lemma NoneWithin(p: Pattern, u: string, rest: string)
    requires u != [] && u[|u| - 1] == '>' && forall i | 0 <= i < |u| :: u[i] != '<'
    ensures SpacedLen(p, u + rest) == 0
  {
    var s := u + rest;
    var k := SpaceLen(s);
    assert s[|u| - 1] == '>';
    assert k < |u|;
    assert s[k..][0] == u[k];
  }

  lemma RemoveTag(p: Pattern, t: string, rest: string)
    requires !p.Paired? && IsTag(t)
    ensures RemoveSpaced(p, t + rest) == (if Fits(p, t) then [] else t) + RemoveSpaced(p, rest)
  {
    TagInFrontOf(p, t, rest);
    if Fits(p, t) {
      assert [] + RemoveSpaced(p, rest) == RemoveSpaced(p, rest);
    } else {
      RemoveWithin(p, t[1..], rest);
      FirstApart(t, rest, RemoveSpaced(p, rest));
    }
  }

  /** A character that is no part of a removal, in front of anything tag-balanced. */
  lemma RemoveChar(p: Pattern, s: string)
    requires s != [] && s[0] != '<' && SpacedLen(p, s) == 0
    ensures RemoveSpaced(p, s) == s[..1] + RemoveSpaced(p, s[1..])
    ensures Clean(RemoveSpaced(p, s[1..])) ==> Clean(RemoveSpaced(p, s))
    ensures TagsOf(RemoveSpaced(p, s)) == TagsOf(RemoveSpaced(p, s[1..]))
  {
    var after := RemoveSpaced(p, s[1..]);
    assert (s[..1] + after)[1..] == after;
  }

  /** A match of a one-tag pattern is the first tag. */
  lemma MatchIsTag(p: Pattern, y: string) returns (t: string, rest: string)
    requires !p.Paired? && Clean(y) && MatchLen(p, y) > 0
    ensures y == t + rest && |t| == MatchLen(p, y) && IsTag(t) && Fits(p, t) && Clean(rest)
  {
    FirstTag(y);
    var g := UpTo(y, '>') + 1;
    t, rest := y[..g], y[g..];
  }

  /** The white space in front of a removed tag. */
  lemma CutSpaces(p: Pattern, s: string) returns (sp: string, y: string)
    requires Clean(s) && SpacedLen(p, s) > 0
    ensures s == sp + y && forall i | 0 <= i < |sp| :: sp[i] != '<'
    ensures Clean(y) && MatchLen(p, y) > 0 && SpacedLen(p, s) == |sp| + MatchLen(p, y)
  {
    var k := SpaceLen(s);
    sp, y := s[..k], s[k..];
    assert s[k] == y[0];
    CleanAt(s, k);
  }

  lemma Behind(a: string, b: string, c: string)
    ensures (a + (b + c))[|a| + |b|..] == c
  {
  }

  /** A removal takes white space and one tag. */
  lemma RemovedPiece(p: Pattern, s: string) returns (t: string, rest: string)
    requires !p.Paired? && Clean(s) && s != [] && SpacedLen(p, s) > 0
    ensures IsTag(t) && Fits(p, t) && Clean(rest) && rest == s[SpacedLen(p, s)..]
    ensures TagsOf(s) == [t] + TagsOf(rest)
  {
    var sp, y := CutSpaces(p, s);
    t, rest := MatchIsTag(p, y);
    Behind(sp, t, rest);
    TagsOfText(sp, y);
    TagsOfTag(t, rest);
  }

  lemma WithoutFirst(p: Pattern, t: string, tags: seq<string>)
    ensures Without(p, [t] + tags) == (if Fits(p, t) then [] else [t]) + Without(p, tags)
  {
    assert ([t] + tags)[..1] == [t] && ([t] + tags)[1..] == tags;
  }

  /** Exactly the tags of that kind go. */
  lemma {:induction false} RemoveTags(p: Pattern, s: string)
    requires !p.Paired? && Clean(s)
    ensures Clean(RemoveSpaced(p, s)) && TagsOf(RemoveSpaced(p, s)) == Without(p, TagsOf(s))
    decreases |s|
  {
    if s != [] {
      if SpacedLen(p, s) > 0 {
        var t, rest := RemovedPiece(p, s);
        RemoveTags(p, rest);
        WithoutFirst(p, t, TagsOf(rest));
      } else if s[0] != '<' {
        RemoveTags(p, s[1..]);
        RemoveChar(p, s);
      } else {
        var t, rest := KeptTag(p, s);
        RemoveTags(p, rest);
        TagKept(p, t, TagsOf(rest), RemoveSpaced(p, rest));
      }
    }
  }

  lemma TagKept(p: Pattern, t: string, tags: seq<string>, after: string)
    requires IsTag(t) && !Fits(p, t) && Clean(after) && TagsOf(after) == Without(p, tags)
    ensures Clean(t + after) && TagsOf(t + after) == Without(p, [t] + tags)
  {
    TagFirst(t, after);
    TagsOfTag(t, after);
    WithoutFirst(p, t, tags);
  }

  lemma KeptTag(p: Pattern, s: string) returns (t: string, rest: string)
    requires !p.Paired? && Clean(s) && s != [] && s[0] == '<' && SpacedLen(p, s) == 0
    ensures s == t + rest && IsTag(t) && !Fits(p, t) && Clean(rest)
    ensures RemoveSpaced(p, s) == t + RemoveSpaced(p, rest) && TagsOf(s) == [t] + TagsOf(rest)
  {
    FirstTag(s);
    var g := UpTo(s, '>') + 1;
    t, rest := s[..g], s[g..];
    TagInFrontOf(p, t, rest);
    RemoveTag(p, t, rest);
    TagsOfTag(t, rest);
  }

  /** Where there is no such tag, nothing is removed. */
  lemma {:induction false} RemoveNothing(p: Pattern, s: string)
    requires !p.Paired? && Clean(s) && Select(p, TagsOf(s)) == []
    ensures RemoveSpaced(p, s) == s
    decreases |s|
  {
    if s != [] {
      if SpacedLen(p, s) > 0 {
        var t, rest := RemovedPiece(p, s);
        SelectFirst(p, t, TagsOf(rest));
      } else if s[0] != '<' {
        RemoveNothing(p, s[1..]);
        RemoveChar(p, s);
        assert s == s[..1] + s[1..];
      } else {
        var t, rest := KeptTag(p, s);
        SelectFirst(p, t, TagsOf(rest));
        RemoveNothing(p, rest);
      }
    }
  }

  lemma {:induction false} SelectWithout(p: Pattern, q: Pattern, tags: seq<string>)
    ensures Select(p, Without(p, tags)) == []
    ensures Select(q, tags) == [] ==> Select(q, Without(p, tags)) == []
  {
    if tags != [] {
      var t, rest := tags[0], tags[1..];
      assert tags == [t] + rest;
      SelectWithout(p, q, rest);
      WithoutFirst(p, t, rest);
      SelectFirst(q, t, rest);
      if !Fits(p, t) {
        SelectFirst(p, t, Without(p, rest));
        SelectFirst(q, t, Without(p, rest));
      } else {
        assert [] + Without(p, rest) == Without(p, rest);
      }
    }
  }

  lemma {:induction false} WithoutOpens(p: Pattern, open: string, tags: seq<string>)
    requires NoOpens(open, tags)
    ensures NoOpens(open, Without(p, tags))
  {
    if tags != [] {
      assert forall i | 0 <= i < |tags[1..]| :: tags[1..][i] == tags[i + 1];
      WithoutOpens(p, open, tags[1..]);
    }
  }

  // ----- Stripping a whole text -----

  lemma OsProper()
    ensures Proper(OS) && IsTag("</os>")
  {
  }

  lemma {:induction false} StripPrefix(t: string, d: Doc)
    ensures StripDoc(Prefix(t, d)) == t + StripDoc(d)
  {
    if d.Next? {
      assert t + d.gap + RemoveBoots(d.block) + StripDoc(d.rest)
          == t + (d.gap + RemoveBoots(d.block) + StripDoc(d.rest));
    }
  }

  lemma {:induction false} StripAppend(a: Doc, b: Doc)
    ensures StripDoc(Append(a, b)) == StripDoc(a) + StripDoc(b)
  {
    match a
    case Tail(text) => StripPrefix(text, b);
    case Next(gap, block, rest) =>
      StripAppend(rest, b);
      assert gap + RemoveBoots(block) + (StripDoc(rest) + StripDoc(b))
          == gap + RemoveBoots(block) + StripDoc(rest) + StripDoc(b);
  }

  /** Text in which every <os> is closed is stripped independently of what follows. */
  lemma StripConcat(a: string, b: string)
    requires Settled(OS, a)
    ensures Stripped(a + b) == Stripped(a) + Stripped(b)
  {
    OsProper();
    ScanConcat(OS, a, b);
    StripAppend(Scan(OS, a), Scan(OS, b));
  }

  lemma SpaceExtends(a: string, b: string)
    requires SpaceLen(a) < |a|
    ensures SpaceLen(a + b) == SpaceLen(a)
  {
    var k, n := SpaceLen(a), SpaceLen(a + b);
    assert (a + b)[k] == a[k];
    assert forall i | 0 <= i < k :: (a + b)[i] == a[i];
  }

  lemma DropInto(a: string, b: string, k: nat)
    requires k <= |a|
    ensures (a + b)[k..] == a[k..] + b
  {
  }

  lemma SpacedExtends(p: Pattern, a: string, b: string)
    requires SpacedLen(p, a) > 0
    ensures SpacedLen(p, a + b) == SpacedLen(p, a) && (a + b)[SpacedLen(p, a)..] == a[SpacedLen(p, a)..] + b
  {
    var k := SpaceLen(a);
    SpaceExtends(a, b);
    DropInto(a, b, k);
    MatchExtends(p, a[k..], b);
    DropInto(a, b, SpacedLen(p, a));
  }

  lemma SpacedStays(p: Pattern, a: string, c: string)
    requires !p.Paired? && Proper(p) && Clean(a) && a != [] && SpacedLen(p, a) == 0 && IsTag(c) && !Fits(p, c)
    ensures SpacedLen(p, a + c) == 0
  {
    var k := SpaceLen(a);
    if k < |a| {
      SpaceExtends(a, c);
      DropInto(a, c, k);
      if a[k] == '<' {
        CleanAt(a, k);
        FirstTag(a[k..]);
        StaysUnmatched(p, a[k..], c);
      }
    } else {
      SpacesCounted(a, c);
      TagInFrontOf(p, c, []);
      assert c + [] == c;
      SpacesCounted([], c);
      assert [] + c == c && c[0..] == c;
    }
  }

  /** A closing tag behind the text is not touched. */
  lemma {:induction false} RemoveBefore(p: Pattern, a: string, c: string)
    requires !p.Paired? && Proper(p) && Clean(a) && IsTag(c) && !Fits(p, c)
    ensures RemoveSpaced(p, a + c) == RemoveSpaced(p, a) + c
    decreases |a|
  {
    if a == [] {
      RemoveTag(p, c, []);
      assert a + c == c + [] && c + RemoveSpaced(p, []) == RemoveSpaced(p, a) + c;
    } else if SpacedLen(p, a) > 0 {
      var t, rest := RemovedPiece(p, a);
      SpacedExtends(p, a, c);
      RemoveBefore(p, rest, c);
    } else if a[0] != '<' {
      SpacedStays(p, a, c);
      RemoveBefore(p, a[1..], c);
      CharBefore(p, a, c);
    } else {
      var t, rest := KeptTag(p, a);
      RemoveBefore(p, rest, c);
      TagBeforeClose(p, t, rest, c);
    }
  }

  lemma CharBefore(p: Pattern, a: string, c: string)
    requires a != [] && SpacedLen(p, a) == 0 && SpacedLen(p, a + c) == 0
    requires RemoveSpaced(p, a[1..] + c) == RemoveSpaced(p, a[1..]) + c
    ensures RemoveSpaced(p, a + c) == RemoveSpaced(p, a) + c
  {
    FirstApart(a, c, []);
    Assoc(a[..1], RemoveSpaced(p, a[1..]), c);
  }

  lemma TagBeforeClose(p: Pattern, t: string, rest: string, c: string)
    requires !p.Paired? && IsTag(t) && !Fits(p, t) && RemoveSpaced(p, rest + c) == RemoveSpaced(p, rest) + c
    ensures RemoveSpaced(p, t + rest + c) == RemoveSpaced(p, t + rest) + c
  {
    RemoveTag(p, t, rest);
    RemoveTag(p, t, rest + c);
    Assoc(t, rest, c);
    Assoc(t, RemoveSpaced(p, rest), c);
  }

  lemma OsTagsForeign(o: string)
    requires IsTag(o) && Opens(o, "<os")
    ensures !Fits(BOOT, o) && !Fits(BOOT, "</os>")
  {
    assert o[1] == 'o';
  }

  /** An <os> element stays one, and loses its boot entries. */
  lemma StripBlock(b: string)
    requires IsBlock(OS, b)
    ensures IsBlock(OS, RemoveBoots(b)) && RemoveBoots(RemoveBoots(b)) == RemoveBoots(b)
    ensures Clean(b) && TagsOf(RemoveBoots(b)) == Without(BOOT, TagsOf(b))
  {
    OsProper();
    var o, x :| b == o + x + OS.close && BlockOf(OS, o, x);
    StripInside(o, x);
    BlockClean(OS, b);
    RemoveTags(BOOT, b);
    SelectWithout(BOOT, BOOT, TagsOf(b));
    RemoveNothing(BOOT, RemoveBoots(b));
  }

  lemma StripInside(o: string, x: string)
    requires BlockOf(OS, o, x)
    ensures BlockOf(OS, o, RemoveBoots(x)) && RemoveBoots(o + x + OS.close) == o + RemoveBoots(x) + OS.close
  {
    PatternsProper();
    OsTagsForeign(o);
    RemoveBetween(BOOT, o, x, OS.close);
    RemoveTags(BOOT, x);
    SelectWithout(BOOT, Exact(OS.close), TagsOf(x));
  }

  lemma RemoveBetween(p: Pattern, o: string, x: string, c: string)
    requires !p.Paired? && Proper(p) && IsTag(o) && Clean(x) && IsTag(c) && !Fits(p, o) && !Fits(p, c)
    ensures RemoveSpaced(p, o + x + c) == o + RemoveSpaced(p, x) + c
  {
    Assoc(o, x, c);
    RemoveTag(p, o, x + c);
    RemoveBefore(p, x, c);
    Assoc(o, RemoveSpaced(p, x), c);
  }

  function StripBlocks(d: Doc): Doc {
    match d
    case Tail(_) => d
    case Next(gap, block, rest) => Next(gap, RemoveBoots(block), StripBlocks(rest))
  }

  lemma {:induction false} StripWellCut(d: Doc)
    requires WellCut(OS, d)
    ensures WellCut(OS, StripBlocks(d)) && StripDoc(d) == Join(StripBlocks(d))
    ensures StripDoc(StripBlocks(d)) == Join(StripBlocks(d))
  {
    if d.Next? {
      StripBlock(d.block);
      StripWellCut(d.rest);
    }
  }

  lemma {:induction false} JoinClean(p: Pattern, d: Doc)
    requires p.Paired? && Proper(p) && WellCut(p, d)
    ensures Clean(Join(d))
    ensures d.Next? ==> Clean(d.gap + d.block) && TagsOf(Join(d)) == TagsOf(d.gap) + TagsOf(d.block) + TagsOf(Join(d.rest))
  {
    if d.Next? {
      JoinClean(p, d.rest);
      BlockClean(p, d.block);
      CleanConcat(d.gap, d.block);
      CleanConcat(d.gap + d.block, Join(d.rest));
      TagsConcat(d.gap, d.block);
      TagsConcat(d.gap + d.block, Join(d.rest));
    }
  }

  /** No opening tag appears by stripping. */
  lemma {:induction false} StripOpens(d: Doc, open: string)
    requires WellCut(OS, d) && NoOpens(open, TagsOf(Join(d)))
    ensures NoOpens(open, TagsOf(Join(StripBlocks(d))))
  {
    if d.Next? {
      OsProper();
      StripWellCut(d);
      JoinClean(OS, d);
      JoinClean(OS, StripBlocks(d));
      StripBlock(d.block);
      OpensSplit(open, TagsOf(d.gap), TagsOf(d.block), TagsOf(Join(d.rest)));
      WithoutOpens(BOOT, open, TagsOf(d.block));
      StripOpens(d.rest, open);
      OpensSplit(open, TagsOf(d.gap), TagsOf(RemoveBoots(d.block)), TagsOf(Join(StripBlocks(d.rest))));
    }
  }

  lemma OpensSplit(open: string, a: seq<string>, b: seq<string>, c: seq<string>)
    ensures NoOpens(open, a + b + c) <==> NoOpens(open, a) && NoOpens(open, b) && NoOpens(open, c)
  {
    var all := a + b + c;
    assert forall i | 0 <= i < |a| :: all[i] == a[i];
    assert forall i | 0 <= i < |b| :: all[|a| + i] == b[i];
    assert forall i | 0 <= i < |c| :: all[|a| + |b| + i] == c[i];
  }

  /** Stripping twice is stripping once; the result is as closed as the text was. */
  lemma StripTwice(g: string)
    requires Clean(g) && Settled(OS, g)
    ensures Stripped(Stripped(g)) == Stripped(g)
    ensures Clean(Stripped(g)) && Settled(OS, Stripped(g))
  {
    OsProper();
    CutWell(OS, g);
    var d := Scan(OS, g);
    StripWellCut(d);
    ScanOf(OS, StripBlocks(d));
  }

  lemma StripOpensNothing(g: string, open: string)
    requires Clean(g) && Settled(OS, g) && NoOpens(open, TagsOf(g))
    ensures NoOpens(open, TagsOf(Stripped(g)))
  {
    OsProper();
    CutWell(OS, g);
    JoinScan(OS, g);
    StripWellCut(Scan(OS, g));
    StripOpens(Scan(OS, g), open);
  }
}
