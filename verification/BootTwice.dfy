/** Pointing the boot disk of a domain at a volume a second time. */
module BootTwice {
  import opened Outcomes
  import opened Text
  import opened XmlScan
  import opened XmlClean
  import opened XmlAttributes
  import opened XmlSetAttribute
  import opened XmlRewrite
  import opened XmlPairs
  import opened DiskBlock
  import opened OsBoot
  import opened BootOrder
  import opened BootDisk

  // ----- Is the patched disk still a boot disk? -----

  /** What stands between the tags of a block. */
  function InsideOf(b: string): string {
    var o := OpenTag(b);
    if |o| + |CLOSE| <= |b| then b[|o|..|b| - |CLOSE|] else []
  }

  lemma PartsOf(b: string)
    requires IsBlock(DISK, b)
    ensures
      var o, x := OpenTag(b), InsideOf(b);
      b == o + x + CLOSE && IsDiskTag(o) && Clean(x) && Select(END, TagsOf(x)) == []
  {
    var o, x := BlockParts(b);
    assert (o + x + CLOSE)[|o|..|o| + |x|] == x;
  }

  /** After patching, the disk counts as a boot disk: its opening tag with the type says so when it names a device;
      otherwise no device may be left open in it, and the first one in what the patch leaves or writes decides. */
  predicate StaysCandidate(b: string, v: Volume) {
    var t := SetAttribute(OpenTag(b), "type", "volume");
    if HasValue(t, "device", false) then IsBootDiskCandidate(t)
    else !Begins(t, "device", false) && IsBootDiskCandidate(PatchInside(InsideOf(b), v))
  }

  lemma AngleIsNoDisk(device: string)
    requires '>' in device
    ensures device != "" && Lower(device) != "disk"
  {
    var i :| 0 <= i < |device| && device[i] == '>';
    assert Lower(device)[i] == '>';
    assert '>' !in "disk";
  }

  lemma CandidateOfParts(t: string, y: string)
    requires IsTag(t) && UpToQuote(y + CLOSE) < |y + CLOSE|
    ensures
      IsBootDiskCandidate(t + y + CLOSE) <==>
      if HasValue(t, "device", false) then IsBootDiskCandidate(t)
      else !Begins(t, "device", false) && IsBootDiskCandidate(y)
  {
    Assoc(t, y, CLOSE);
    if HasValue(t, "device", false) {
      ValueConcat(t, y + CLOSE, "device", false);
    } else if Begins(t, "device", false) {
      ValueAcross(t, y + CLOSE, "device", false);
      AngleIsNoDisk(AttributeValue(t + y + CLOSE, "device"));
    } else {
      ValueBehind(t, y + CLOSE, "device", false);
      ValueInFront(y, CLOSE, "device", false);
    }
  }

  lemma {:induction false} QuoteAhead(s: string, i: nat)
    requires i < |s| && Quote(s[i])
    ensures UpToQuote(s) < |s|
  {
    if !Quote(s[0]) {
      QuoteAhead(s[1..], i - 1);
    }
  }

  lemma QuoteOccurs(x: string, t: string, i: nat, c: string)
    requires Clean(x) && t in TagsOf(x) && i < |t| && Quote(t[i])
    ensures UpToQuote(x + c) < |x + c|
  {
    var k := TagOccurs(x, t);
    assert x[k..][i] == t[i];
    assert (x + c)[k + i] == x[k + i];
    QuoteAhead(x + c, k + i);
  }

  lemma DriverQuote(format: string)
    ensures |DriverElement(format)| > 13 && DriverElement(format)[13] == '\''
  {
    var rest := "qemu'" + " " + Attr("type", format) + "/>";
    assert DriverElement(format) == "<driver name='" + rest;
    assert ("<driver name='" + rest)[13] == "<driver name='"[13];
  }

  lemma PatchedHasQuote(x: string, v: Volume)
    requires Clean(x) && NoReferences(v)
    ensures UpToQuote(PatchInside(x, v) + CLOSE) < |PatchInside(x, v) + CLOSE|
  {
    var y := PatchInside(x, v);
    PatchTags(x, v);
    PatchedElements(x, v);
    var found := Select(DRIVER, TagsOf(y));
    SelectHas(DRIVER, TagsOf(y), found[0]);
    DriverQuote(v.format);
    QuoteOccurs(y, DriverElement(v.format), 13, CLOSE);
  }

  lemma StaysExactly(b: string, v: Volume)
    requires IsBlock(DISK, b) && NoReferences(v)
    ensures PatchDiskBlock(b, v).Some?
    ensures IsBootDiskCandidate(PatchDiskBlock(b, v).value) <==> StaysCandidate(b, v)
  {
    PartsOf(b);
    var o, x := OpenTag(b), InsideOf(b);
    PatchForm(o, x, v);
    TypeVolume(o);
    PatchedHasQuote(x, v);
    CandidateOfParts(SetAttribute(o, "type", "volume"), PatchInside(x, v));
  }

  // ----- Is a disk patched already? -----

  /** The disk is what patching makes of it: typed, and with the new driver, source and boot elements only. */
  ghost predicate AlreadyPatched(b: string, v: Volume) {
    var tags := TagsOf(InsideOf(b));
    && SetAttribute(OpenTag(b), "type", "volume") == OpenTag(b)
    && AllAre(DriverElement(v.format), Select(DRIVER, tags))
    && AllAre(SourceElement(v), Select(SOURCE, tags))
    && AllAre(BOOT_ELEMENT, Select(BOOT, tags))
  }

  lemma InsideStays(x: string, v: Volume)
    requires Clean(x) && NoReferences(v)
    ensures
      PatchInside(x, v) == x <==>
      && AllAre(DriverElement(v.format), Select(DRIVER, TagsOf(x)))
      && AllAre(SourceElement(v), Select(SOURCE, TagsOf(x)))
      && AllAre(BOOT_ELEMENT, Select(BOOT, TagsOf(x)))
  {
    PatchedElements(x, v);
    ElementsPlain(v);
    if && AllAre(DriverElement(v.format), Select(DRIVER, TagsOf(x)))
       && AllAre(SourceElement(v), Select(SOURCE, TagsOf(x)))
       && AllAre(BOOT_ELEMENT, Select(BOOT, TagsOf(x))) {
      NothingToDo(DRIVER, DriverElement(v.format), [], x);
      NothingToDo(SOURCE, SourceElement(v), [DRIVER], x);
      NothingToDo(BOOT, BOOT_ELEMENT, [TARGET, DRIVER], x);
    }
  }

  /** Opening tag and inside of a block can be told apart. */
  lemma SameParts(t: string, y: string, o: string, x: string)
    requires IsDiskTag(t) && IsDiskTag(o)
    ensures t + y + CLOSE == o + x + CLOSE <==> t == o && y == x
  {
    Retagged(t, t, y);
    Retagged(o, o, x);
    if t + y + CLOSE == o + x + CLOSE {
      assert |y| == |x|;
      assert y == (t + y + CLOSE)[|t|..|t| + |y|] && x == (o + x + CLOSE)[|o|..|o| + |x|];
    }
  }

  lemma AlreadyPatchedExactly(b: string, v: Volume)
    requires IsBlock(DISK, b) && NoReferences(v)
    ensures PatchDiskBlock(b, v) == Some(b) <==> AlreadyPatched(b, v)
  {
    PartsOf(b);
    var o, x := OpenTag(b), InsideOf(b);
    PatchForm(o, x, v);
    TypeVolume(o);
    InsideStays(x, v);
    SameParts(SetAttribute(o, "type", "volume"), PatchInside(x, v), o, x);
  }

  // ----- Selection without the patched disk -----

  /** The disks but one. */
  function AllBut(bs: seq<string>, k: nat): seq<string>
    requires k < |bs|
  {
    bs[..k] + bs[k + 1..]
  }

  /** A disk that is no candidate does not take part in the selection. */
  lemma SelectedWithout(bs: seq<string>, k: nat)
    requires k < |bs| && !IsBootDiskCandidate(bs[k])
    ensures
      var j := Selected(AllBut(bs, k));
      Selected(bs) == if j < k then j else j + 1
  {
    var cs := AllBut(bs, k);
    assert forall i | 0 <= i < |bs| && i != k :: bs[i] == cs[if i < k then i else i - 1];
    var j := Selected(cs);
    if j >= 0 {
      var i := if j < k then j else j + 1;
      StillMinimum(bs, cs, k, i, j);
      OneFirstMinimum(bs, i);
    } else {
      assert forall i | 0 <= i < |bs| :: !IsBootDiskCandidate(bs[i]);
    }
  }

  lemma StillMinimum(bs: seq<string>, cs: seq<string>, k: nat, i: nat, j: nat)
    requires k < |bs| && |cs| + 1 == |bs| && !IsBootDiskCandidate(bs[k])
    requires forall i | 0 <= i < |bs| && i != k :: bs[i] == cs[if i < k then i else i - 1]
    requires FirstMinimum(cs, j) && i == (if j < k then j else j + 1)
    ensures FirstMinimum(bs, i)
  {
    forall h | 0 <= h < |bs| && IsBootDiskCandidate(bs[h])
      ensures !Better(DiskBootOrder(bs[h]), DiskBootOrder(bs[i]))
      ensures h < i ==> Better(DiskBootOrder(bs[i]), DiskBootOrder(bs[h]))
    {
      assert bs[h] == cs[if h < k then h else h - 1];
    }
  }

  // ----- The second run -----

  lemma {:induction false} StripReplaced(d: Doc, k: nat, b: string)
    requires k < |Blocks(d)| && StripGaps(d) == d
    ensures StripGaps(ReplaceBlock(d, k, b)) == ReplaceBlock(d, k, b)
  {
    if k > 0 {
      StripReplaced(d.rest, k - 1, b);
    }
  }

  /** A domain without boot entries in its <os> elements is left as it is exactly when its selected disk is. */
  lemma RunAgain(s: string, v: Volume)
    requires IsDomain(s) && NoReferences(v) && StripGaps(Scan(DISK, s)) == Scan(DISK, s)
    ensures
      Patched(s, v) == Some(s) <==>
      var bs := Matches(DISK, s);
      Selected(bs) >= 0 && PatchDiskBlock(bs[Selected(bs)], v) == Some(bs[Selected(bs)])
  {
    var d, k := Scan(DISK, s), Selected(Matches(DISK, s));
    if k >= 0 {
      PatternsProper();
      CutWell(DISK, s);
      BlockAt(d, k);
      PatchedBlock(Blocks(d)[k], v);
      PatchFrames(s, v);
      var b := PatchDiskBlock(Blocks(d)[k], v).value;
      StripReplaced(d, k, b);
      AroundBlock(d, k, b);
      AroundBlock(d, k, Blocks(d)[k]);
      JoinScan(DISK, s);
      Between(Before(d, k), b, Blocks(d)[k], After(d, k));
    }
  }

  lemma GapsStripped(s: string, v: Volume)
    requires IsDomain(s) && NoReferences(v) && Patched(s, v).Some?
    ensures var d := Scan(DISK, Patched(s, v).value); StripGaps(d) == d
  {
    PatternsProper();
    var d, k := Scan(DISK, s), Selected(Matches(DISK, s));
    CutWell(DISK, s);
    BlockAt(d, k);
    PatchedBlock(Blocks(d)[k], v);
    PatchFrames(s, v);
    var b := PatchDiskBlock(Blocks(d)[k], v).value;
    ReplaceWellCut(d, k, b);
    StripGapsTwice(ReplaceBlock(d, k, b));
  }

  /** A second run selects the patched disk again when it stays a candidate, */
  lemma SameSelected(bs: seq<string>, k: nat, v: Volume)
    requires Selected(bs) == k < |bs| && NoReferences(v) && IsBlock(DISK, bs[k]) && NoOpens("<os", TagsOf(bs[k]))
    requires StaysCandidate(bs[k], v)
    ensures PatchDiskBlock(bs[k], v).Some?
    ensures
      var b := PatchDiskBlock(bs[k], v).value;
      Selected(bs[k := b]) == k && (PatchDiskBlock(b, v) == Some(b) <==> TypeSettles(OpenTag(bs[k])))
  {
    StaysExactly(bs[k], v);
    PatchedBlock(bs[k], v);
    SelectionStable(bs, k, PatchDiskBlock(bs[k], v).value);
    PartsOf(bs[k]);
    PatchBlockTwice(OpenTag(bs[k]), InsideOf(bs[k]), v);
  }

  lemma SameOthers(bs: seq<string>, k: nat, b: string)
    requires k < |bs|
    ensures AllBut(bs[k := b], k) == AllBut(bs, k)
    ensures forall j | 0 <= j < |bs| - 1 :: AllBut(bs, k)[j] == bs[k := b][if j < k then j else j + 1]
  {
  }

  /** and otherwise the best of the others. */
  lemma NextSelected(bs: seq<string>, k: nat, b: string)
    requires k < |bs| && !IsBootDiskCandidate(b)
    ensures Selected(bs[k := b]) >= 0 <==> Selected(AllBut(bs, k)) >= 0
    ensures Selected(AllBut(bs, k)) >= 0 ==> bs[k := b][Selected(bs[k := b])] == AllBut(bs, k)[Selected(AllBut(bs, k))]
  {
    SameOthers(bs, k, b);
    SelectedWithout(bs[k := b], k);
  }

  lemma OtherBlock(bs: seq<string>, k: nat, j: nat)
    requires k < |bs| && j < |AllBut(bs, k)| && forall i | 0 <= i < |bs| :: IsBlock(DISK, bs[i])
    ensures IsBlock(DISK, AllBut(bs, k)[j])
  {
    assert AllBut(bs, k)[j] == bs[if j < k then j else j + 1];
  }

  lemma {:induction false} AllBlocks(d: Doc)
    requires WellCut(DISK, d)
    ensures forall i | 0 <= i < |Blocks(d)| :: IsBlock(DISK, Blocks(d)[i])
  {
    if d.Next? {
      AllBlocks(d.rest);
      assert Blocks(d) == [d.block] + Blocks(d.rest);
    }
  }

  /** Patching a domain twice with the same volume is patching it once exactly when the patched disk is still a boot
      disk and its type settles, or is none any more and the next one to boot is patched for this volume already. */
  lemma PatchTwice(s: string, v: Volume)
    requires IsDomain(s) && NoReferences(v) && Patched(s, v).Some?
    ensures
      var bs := Matches(DISK, s);
      var k := Selected(bs);
      var others := AllBut(bs, k);
      Patched(Patched(s, v).value, v) == Patched(s, v) <==>
      if StaysCandidate(bs[k], v) then TypeSettles(OpenTag(bs[k]))
      else Selected(others) >= 0 && AlreadyPatched(others[Selected(others)], v)
  {
    PatternsProper();
    var d, k := Scan(DISK, s), Selected(Matches(DISK, s));
    CutWell(DISK, s);
    BlockAt(d, k);
    AllBlocks(d);
    PatchFrames(s, v);
    GapsStripped(s, v);
    RunAgain(Patched(s, v).value, v);
    var bs := Matches(DISK, s);
    StaysExactly(bs[k], v);
    if StaysCandidate(bs[k], v) {
      SameSelected(bs, k, v);
    } else {
      NextSelected(bs, k, PatchDiskBlock(bs[k], v).value);
      var j := Selected(AllBut(bs, k));
      if j >= 0 {
        OtherBlock(bs, k, j);
        AlreadyPatchedExactly(AllBut(bs, k)[j], v);
      }
    }
  }

  /** A disk whose own opening tag, once typed, names the device `disk` stays a candidate. */
  lemma OwnDeviceStays(b: string, v: Volume)
    requires Lower(AttributeValue(SetAttribute(OpenTag(b), "type", "volume"), "device")) == "disk"
    ensures StaysCandidate(b, v)
  {
    var t := SetAttribute(OpenTag(b), "type", "volume");
    assert AttributeValue(t, "device") != [];
    ValueIsThere(t, "device", false);
  }
}
