/** patchDomainBootDiskXML (internal/libvirt/domain_xml.go): the boot disk of a domain is pointed at a volume. */
module BootDisk {
  import opened Outcomes
  import opened Text
  import opened XmlScan
  import opened XmlClean
  import opened XmlAttributes
  import opened XmlSetAttribute
  import opened XmlRewrite
  import opened XmlPairs
  import opened DiskBlock
  import opened OsBoot
  import opened BootOrder

  function ReplaceBlock(d: Doc, k: nat, b: string): Doc
    requires k < |Blocks(d)|
  {
    if k == 0 then d.(block := b) else d.(rest := ReplaceBlock(d.rest, k - 1, b))
  }

  // ----- The text around a block -----

  function Before(d: Doc, k: nat): string
    requires k < |Blocks(d)|
  {
    if k == 0 then d.gap else d.gap + d.block + Before(d.rest, k - 1)
  }

  function After(d: Doc, k: nat): string
    requires k < |Blocks(d)|
  {
    if k == 0 then Join(d.rest) else After(d.rest, k - 1)
  }

  lemma {:induction false} AroundBlock(d: Doc, k: nat, b: string)
    requires k < |Blocks(d)|
    ensures Join(ReplaceBlock(d, k, b)) == Before(d, k) + b + After(d, k)
    ensures ReplaceBlock(d, k, Blocks(d)[k]) == d
    ensures Blocks(ReplaceBlock(d, k, b)) == Blocks(d)[k := b]
    ensures forall c :: k < |Blocks(ReplaceBlock(d, k, b))| && ReplaceBlock(ReplaceBlock(d, k, b), k, c) == ReplaceBlock(d, k, c)
  {
    if k > 0 {
      AroundBlock(d.rest, k - 1, b);
      assert d.gap + d.block + (Before(d.rest, k - 1) + b + After(d.rest, k - 1))
          == d.gap + d.block + Before(d.rest, k - 1) + b + After(d.rest, k - 1);
    }
  }

  /** The patched domain; none when it has no disk or no candidate. */
  function Patched(s: string, v: Volume): Option<string> {
    var d := Scan(DISK, s);
    var k := Selected(Blocks(d));
    if k < 0 then None
    else
      var b := PatchDiskBlock(Blocks(d)[k], v);
      if b.None? then None else Some(Stripped(Join(ReplaceBlock(d, k, b.value))))
  }

  // ----- The method -----

  lemma {:induction false} LocsAreBlocks(s: string, last: nat, d: Doc, k: nat)
    requires last <= |s| && s[last..] == Join(d) && k < |Blocks(d)|
    ensures |Locs(d, last)| == |Blocks(d)|
    ensures
      var loc := Locs(d, last)[k];
      last <= loc.from <= loc.to <= |s| && s[loc.from..loc.to] == Blocks(d)[k]
    decreases d
  {
    FirstLoc(s, last, d);
    if k > 0 {
      LocsAreBlocks(s, last + |d.gap| + |d.block|, d.rest, k - 1);
    } else if d.rest.Next? {
      LocsAreBlocks(s, last + |d.gap| + |d.block|, d.rest, 0);
    }
  }

  lemma {:induction false} ReplaceAtLoc(s: string, last: nat, d: Doc, k: nat, b: string)
    requires last <= |s| && s[last..] == Join(d) && k < |Blocks(d)| && |Locs(d, last)| == |Blocks(d)|
    ensures
      var loc := Locs(d, last)[k];
      && last <= loc.from <= loc.to <= |s|
      && Join(ReplaceBlock(d, k, b)) == s[last..loc.from] + b + s[loc.to..]
    decreases d
  {
    FirstLoc(s, last, d);
    LocsAreBlocks(s, last, d, k);
    if k > 0 {
      var to := last + |d.gap| + |d.block|;
      var loc := Locs(d, last)[k];
      assert Locs(d.rest, to)[k - 1] == loc;
      ReplaceAtLoc(s, to, d.rest, k - 1, b);
      JoinedPieces(d.gap, d.block, s[to..loc.from], b, s[loc.to..]);
      assert s[last..loc.from] == d.gap + d.block + s[to..loc.from] by {
        assert s[last..loc.from] == s[last..last + |d.gap|] + s[last + |d.gap|..to] + s[to..loc.from];
      }
    }
  }

  lemma JoinedPieces(a: string, b: string, c: string, m: string, z: string)
    ensures a + b + (c + m + z) == a + b + c + m + z
  {
  }

  lemma SlicesAreBlocks(s: string)
    ensures forall i | 0 <= i < |FindAll(DISK, s)| :: FindAll(DISK, s)[i].from <= FindAll(DISK, s)[i].to <= |s|
    ensures Slices(FindAll(DISK, s), s) == Blocks(Scan(DISK, s))
  {
    var d := Scan(DISK, s);
    JoinScan(DISK, s);
    assert s[0..] == s;
    if d.Next? {
      LocsAreBlocks(s, 0, d, 0);
    }
    forall i | 0 <= i < |FindAll(DISK, s)|
      ensures FindAll(DISK, s)[i].from <= FindAll(DISK, s)[i].to <= |s|
      ensures s[FindAll(DISK, s)[i].from..FindAll(DISK, s)[i].to] == Blocks(d)[i]
    {
      LocsAreBlocks(s, 0, d, i);
    }
  }

  method PatchDomainBootDiskXML(s: string, v: Volume) returns (out: Option<string>)
    ensures out == Patched(s, v)
    ensures out.None? ==> forall i | 0 <= i < |Matches(DISK, s)| :: !IsBootDiskCandidate(Matches(DISK, s)[i])
  {
    var matches := FindAll(DISK, s);
    SlicesAreBlocks(s);
    if |matches| == 0 {
      return None;
    }
    var selected := SelectBootDiskIndex(matches, s);
    if selected < 0 {
      return None;
    }
    var loc := matches[selected];
    JoinScan(DISK, s);
    assert s[0..] == s;
    MatchOpens(s, selected);
    var block := PatchDiskBlock(s[loc.from..loc.to], v);
    if block.None? {
      return None;
    }
    ReplaceAtLoc(s, 0, Scan(DISK, s), selected, block.value);
    var updated := s[..loc.from] + block.value + s[loc.to..];
    assert s[0..loc.from] == s[..loc.from];
    var stripped := StripOSBootElements(updated);
    return Some(stripped);
  }

  lemma MatchOpenTag(s: string)
    requires MatchLen(DISK, s) > 0
    ensures OpenTag(s[..MatchLen(DISK, s)]) != []
  {
    var n, g := MatchLen(DISK, s), UpTo(s, '>');
    var b := s[..n];
    assert s == b + s[n..];
    UpToConcat(b, s[n..], '>');
    assert b[..g + 1] == s[..g + 1];
    OpensInTag(b, g, "<disk");
  }

  /** Every match starts with an opening disk tag. */
  lemma MatchOpens(s: string, k: nat)
    requires k < |Matches(DISK, s)|
    ensures OpenTag(Matches(DISK, s)[k]) != []
  {
    var y := MatchIn(DISK, s, k);
    MatchOpenTag(y);
  }

  // ----- Domains -----

  /** No <os> element reaches across a disk: each is closed in its gap, and no disk contains one. */
  ghost predicate OsApart(d: Doc) {
    match d
    case Tail(text) => Settled(OS, text)
    case Next(gap, block, rest) => Settled(OS, gap) && NoOpens("<os", TagsOf(block)) && OsApart(rest)
  }

  /** Tag-balanced text in which every disk is closed and the <os> elements lie between the disks. */
  ghost predicate IsDomain(s: string) {
    Clean(s) && Settled(DISK, s) && OsApart(Scan(DISK, s))
  }

  function StripGaps(d: Doc): Doc {
    match d
    case Tail(text) => Tail(Stripped(text))
    case Next(gap, block, rest) => Next(Stripped(gap), block, StripGaps(rest))
  }

  lemma NoOsNothing(b: string)
    requires Clean(b) && NoOpens("<os", TagsOf(b))
    ensures Settled(OS, b) && Stripped(b) == b
  {
    OsProper();
    PassGap(OS, b, []);
    assert b + [] == b;
  }

  /** On such text exactly the gaps are stripped. */
  lemma {:induction false} StripJoin(d: Doc)
    requires WellCut(DISK, d) && OsApart(d)
    ensures Stripped(Join(d)) == Join(StripGaps(d))
  {
    if d.Next? {
      PatternsProper();
      BlockClean(DISK, d.block);
      NoOsNothing(d.block);
      StripConcat(d.block, Join(d.rest));
      StripConcat(d.gap, d.block + Join(d.rest));
      StripJoin(d.rest);
      Assoc(d.gap, d.block, Join(d.rest));
      Assoc(Stripped(d.gap), d.block, Join(StripGaps(d.rest)));
    }
  }

  lemma StrippedGap(g: string)
    requires Clean(g) && NoOpens("<disk", TagsOf(g)) && Settled(OS, g)
    ensures Clean(Stripped(g)) && NoOpens("<disk", TagsOf(Stripped(g))) && Settled(OS, Stripped(g))
    ensures Stripped(Stripped(g)) == Stripped(g)
  {
    StripTwice(g);
    StripOpensNothing(g, "<disk");
  }

  lemma {:induction false} StripGapsTwice(d: Doc)
    requires WellCut(DISK, d) && OsApart(d)
    ensures WellCut(DISK, StripGaps(d)) && OsApart(StripGaps(d))
    ensures StripGaps(StripGaps(d)) == StripGaps(d) && Blocks(StripGaps(d)) == Blocks(d)
  {
    match d
    case Tail(text) => StrippedGap(text);
    case Next(gap, _, rest) =>
      StrippedGap(gap);
      StripGapsTwice(rest);
  }

  lemma {:induction false} ReplaceCut(p: Pattern, d: Doc, k: nat, b: string)
    requires p.Paired? && WellCut(p, d) && k < |Blocks(d)| && IsBlock(p, b)
    ensures WellCut(p, ReplaceBlock(d, k, b))
  {
    if k > 0 {
      ReplaceCut(p, d.rest, k - 1, b);
    }
  }

  lemma {:induction false} ReplaceApart(d: Doc, k: nat, b: string)
    requires OsApart(d) && k < |Blocks(d)| && NoOpens("<os", TagsOf(b))
    ensures OsApart(ReplaceBlock(d, k, b))
  {
    if k > 0 {
      ReplaceApart(d.rest, k - 1, b);
    }
  }

  lemma {:induction false} ReplacedBlocks(d: Doc, k: nat, b: string)
    requires k < |Blocks(d)|
    ensures Blocks(ReplaceBlock(d, k, b)) == Blocks(d)[k := b]
  {
    if k > 0 {
      ReplacedBlocks(d.rest, k - 1, b);
    }
  }

  lemma ReplaceWellCut(d: Doc, k: nat, b: string)
    requires WellCut(DISK, d) && OsApart(d) && k < |Blocks(d)| && IsBlock(DISK, b) && NoOpens("<os", TagsOf(b))
    ensures WellCut(DISK, ReplaceBlock(d, k, b)) && OsApart(ReplaceBlock(d, k, b))
    ensures Blocks(ReplaceBlock(d, k, b)) == Blocks(d)[k := b]
  {
    ReplaceCut(DISK, d, k, b);
    ReplaceApart(d, k, b);
    ReplacedBlocks(d, k, b);
  }

  lemma {:induction false} BlockAt(d: Doc, k: nat)
    requires WellCut(DISK, d) && OsApart(d) && k < |Blocks(d)|
    ensures IsBlock(DISK, Blocks(d)[k]) && NoOpens("<os", TagsOf(Blocks(d)[k]))
  {
    if k > 0 {
      BlockAt(d.rest, k - 1);
    }
  }

  // ----- The patched block is a disk again -----

  lemma EffectOpens(p: Pattern, r: string, before: seq<string>, after: seq<string>, open: string)
    requires Effect(p, r, before, after) && NoOpens(open, before) && !Opens(r, open)
    ensures NoOpens(open, after)
  {
    if Select(p, before) == [] {
      var k :| 0 <= k <= |before| && after == before[..k] + [r] + before[k..];
      forall i | 0 <= i < |after| ensures !Opens(after[i], open) {
        assert after[i] == if i < k then before[i] else if i == k then r else before[i - 1];
      }
    }
  }

  lemma NotOpening(r: string, open: string)
    requires |r| > 1 && |open| > 1 && r[1] != open[1]
    ensures !Opens(r, open)
  {
    if Opens(r, open) {
      SecondLetter(open, r);
    }
  }

  lemma PatchedOpens(x: string, v: Volume)
    requires Clean(x) && NoReferences(v) && NoOpens("<os", TagsOf(x))
    ensures NoOpens("<os", TagsOf(PatchInside(x, v)))
  {
    PatchTags(x, v);
    ElementsFit(v);
    var x1 := Inside(DRIVER, DriverElement(v.format), [], x);
    var x2 := Inside(SOURCE, SourceElement(v), [DRIVER], x1);
    SecondLetter("<driver", DriverElement(v.format));
    SecondLetter("<source", SourceElement(v));
    SecondLetter("<boot", BOOT_ELEMENT);
    NotOpening(DriverElement(v.format), "<os");
    NotOpening(SourceElement(v), "<os");
    NotOpening(BOOT_ELEMENT, "<os");
    EffectOpens(DRIVER, DriverElement(v.format), TagsOf(x), TagsOf(x1), "<os");
    EffectOpens(SOURCE, SourceElement(v), TagsOf(x1), TagsOf(x2), "<os");
    EffectOpens(BOOT, BOOT_ELEMENT, TagsOf(x2), TagsOf(PatchInside(x, v)), "<os");
  }

  /** Opening tag and inside of a disk block. */
  lemma BlockParts(b: string) returns (o: string, x: string)
    requires IsBlock(DISK, b)
    ensures b == o + x + CLOSE && IsDiskTag(o) && Clean(x) && Select(END, TagsOf(x)) == []
    ensures TagsOf(b) == [o] + (TagsOf(x) + [CLOSE]) && OpenTag(b) == o
  {
    o, x :| b == o + x + DISK.close && BlockOf(DISK, o, x);
    CloseIsTag();
    TagBeforeTag(o, x, CLOSE);
    Assoc(o, x, CLOSE);
    FrontOfBlock([], o, x, CLOSE);
  }

  lemma PatchedIsBlock(o: string, x: string, v: Volume)
    requires IsDiskTag(o) && Clean(x) && Select(END, TagsOf(x)) == [] && NoReferences(v)
    ensures PatchDiskBlock(o + x + CLOSE, v).Some? && IsBlock(DISK, PatchDiskBlock(o + x + CLOSE, v).value)
  {
    PatchForm(o, x, v);
    TypeVolume(o);
    PatchTags(x, v);
    PatchedElements(x, v);
    assert BlockOf(DISK, SetAttribute(o, "type", "volume"), PatchInside(x, v));
  }

  lemma BlockOpensNoOs(t: string, y: string)
    requires IsDiskTag(t) && Clean(y)
    ensures NoOpens("<os", TagsOf(t + y + CLOSE)) <==> NoOpens("<os", TagsOf(y))
  {
    CloseIsTag();
    TagBeforeTag(t, y, CLOSE);
    Assoc(t, y, CLOSE);
    DiskIsNotOs(t);
    InsideOpens("<os", t, TagsOf(y), CLOSE);
  }

  lemma PatchedNoOs(o: string, x: string, v: Volume)
    requires IsDiskTag(o) && Clean(x) && NoReferences(v) && NoOpens("<os", TagsOf(o + x + CLOSE))
    ensures PatchDiskBlock(o + x + CLOSE, v).Some? && NoOpens("<os", TagsOf(PatchDiskBlock(o + x + CLOSE, v).value))
  {
    PatchForm(o, x, v);
    TypeVolume(o);
    PatchTags(x, v);
    BlockOpensNoOs(o, x);
    PatchedOpens(x, v);
    BlockOpensNoOs(SetAttribute(o, "type", "volume"), PatchInside(x, v));
  }

  lemma PatchedBlock(b: string, v: Volume)
    requires IsBlock(DISK, b) && NoOpens("<os", TagsOf(b)) && NoReferences(v)
    ensures PatchDiskBlock(b, v).Some?
    ensures IsBlock(DISK, PatchDiskBlock(b, v).value) && NoOpens("<os", TagsOf(PatchDiskBlock(b, v).value))
    ensures DiskBootOrder(PatchDiskBlock(b, v).value) in {1, DiskBootOrder(b)}
  {
    var o, x := BlockParts(b);
    PatchedIsBlock(o, x, v);
    PatchedNoOs(o, x, v);
    PatchedOrder(o, x, v);
  }

  lemma DiskIsNotOs(t: string)
    requires IsDiskTag(t)
    ensures !Opens(t, "<os") && !Opens(CLOSE, "<os")
  {
    SecondLetter("<disk", t);
    NotOpening(t, "<os");
    NotOpening(CLOSE, "<os");
  }

  lemma InsideOpens(open: string, o: string, tags: seq<string>, c: string)
    ensures NoOpens(open, [o] + (tags + [c])) <==> !Opens(o, open) && NoOpens(open, tags) && !Opens(c, open)
  {
    var all := [o] + (tags + [c]);
    assert all[0] == o && all[|all| - 1] == c;
    assert forall i | 0 <= i < |tags| :: all[i + 1] == tags[i];
  }

  // ----- Selection is stable -----

  /** Lowering the order of the selected disk to 1 keeps it selected. */
  lemma SelectionStable(bs: seq<string>, k: nat, b: string)
    requires Selected(bs) == k < |bs|
    requires IsBootDiskCandidate(b) && DiskBootOrder(b) in {1, DiskBootOrder(bs[k])}
    ensures Selected(bs[k := b]) == k
  {
    var cs := bs[k := b];
    forall j | 0 <= j < |cs| && IsBootDiskCandidate(cs[j])
      ensures !Better(DiskBootOrder(cs[j]), DiskBootOrder(cs[k]))
      ensures j < k ==> Better(DiskBootOrder(cs[k]), DiskBootOrder(cs[j]))
    {
      if j != k {
        assert IsBootDiskCandidate(bs[j]);
      }
    }
    OneFirstMinimum(cs, k);
  }

  // ----- The main results -----

  /** The domain after patching disk `k`: block `k` is the patched block, the other disks are as they were, and each
      piece of text between them has only lost the boot entries of its <os> elements. */
  lemma PatchFrames(s: string, v: Volume)
    requires IsDomain(s) && NoReferences(v) && Patched(s, v).Some?
    ensures
      var d, k := Scan(DISK, s), Selected(Matches(DISK, s));
      var b := PatchDiskBlock(Blocks(d)[k], v).value;
      && Patched(s, v).value == Join(StripGaps(ReplaceBlock(d, k, b)))
      && Scan(DISK, Patched(s, v).value) == StripGaps(ReplaceBlock(d, k, b))
      && Matches(DISK, Patched(s, v).value) == Matches(DISK, s)[k := b]
      && IsDomain(Patched(s, v).value)
  {
    PatternsProper();
    var d, k := Scan(DISK, s), Selected(Matches(DISK, s));
    CutWell(DISK, s);
    BlockAt(d, k);
    PatchedBlock(Blocks(d)[k], v);
    var b := PatchDiskBlock(Blocks(d)[k], v).value;
    ReplaceWellCut(d, k, b);
    var e := ReplaceBlock(d, k, b);
    StripJoin(e);
    StripGapsTwice(e);
    ScanOf(DISK, StripGaps(e));
  }
}
