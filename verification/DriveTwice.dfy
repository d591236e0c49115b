/** A domain keeps exactly one configuration drive for a volume, under a target name of its own; patching it again
    changes nothing. */
module DriveTwice {
  import opened Outcomes
  import opened Text
  import opened XmlScan
  import opened XmlClean
  import opened XmlAttributes
  import opened XmlSetAttribute
  import opened XmlRewrite
  import opened XmlPairs
  import opened DiskBlock
  import opened BootOrder
  import opened BootDisk
  import opened PlainTag
  import opened StripDisks
  import opened DriveTarget
  import opened DriveBlock
  import opened DriveRead
  import opened ConfigDrive

  // ----- Occurrences in pieces of text -----

  /** One of the characters next to the boundary does not occur in `t`. */
  predicate Parted(a: string, b: string, t: string) {
    a == [] || b == [] || b[0] !in t || a[|a| - 1] !in t
  }

  /** An occurrence cannot reach across a character that is not in it. */
  lemma ContainsConcat(a: string, b: string, t: string)
    requires t != [] && Parted(a, b, t)
    ensures Contains(a + b, t) <==> Contains(a, t) || Contains(b, t)
  {
    if Contains(a, t) {
      FindExtends(a, b, t);
    }
    ContainsBehind(a, b, t);
    if Contains(a + b, t) {
      OccursInOne(a, b, t, Find(a + b, t));
    }
  }

  lemma ContainsBehind(a: string, b: string, t: string)
    ensures Contains(b, t) ==> Contains(a + b, t)
  {
    if Contains(b, t) {
      var i := Find(b, t);
      OccursBehind(a, b, i, |t|);
      FindFirst(a + b, t, |a| + i);
    }
  }

  lemma OccursBehind(a: string, b: string, i: nat, n: nat)
    requires i + n <= |b|
    ensures (a + b)[|a| + i..|a| + i + n] == b[i..i + n]
  {
  }

  lemma OccursInOne(a: string, b: string, t: string, i: nat)
    requires t != [] && Parted(a, b, t) && i + |t| <= |a + b| && (a + b)[i..i + |t|] == t
    ensures Contains(a, t) || Contains(b, t)
  {
    if i >= |a| {
      OccursBehind(a, b, i - |a|, |t|);
      FindFirst(b, t, i - |a|);
    } else if i + |t| <= |a| {
      assert a[i..i + |t|] == (a + b)[i..i + |t|];
      FindFirst(a, t, i);
    } else {
      AcrossBoundary(a, b, t, i);
    }
  }

  lemma AcrossBoundary(a: string, b: string, t: string, i: nat)
    requires i < |a| < i + |t| <= |a + b| && (a + b)[i..i + |t|] == t
    ensures b[0] in t && a[|a| - 1] in t
  {
    assert t[|a| - i] == (a + b)[|a|] && t[|a| - 1 - i] == (a + b)[|a| - 1];
  }

  const Q35 := "machine='q35'"
  const Q35_DOUBLE := "machine=\"q35\""

  /** Blanks, line ends, slashes and angle brackets are not part of the marker. */
  predicate Outside(c: char) {
    c == '<' || c == '>' || c == '\n' || c == ' ' || c == '/'
  }

  lemma Q35Concat(a: string, b: string)
    requires a == [] || b == [] || Outside(b[0]) || Outside(a[|a| - 1])
    ensures IsQ35(a + b) <==> IsQ35(a) || IsQ35(b)
  {
    ContainsConcat(a, b, Q35);
    ContainsConcat(a, b, Q35_DOUBLE);
  }

  /** A marker: thirteen characters, a quote among them four places in front of the last, none of them outside. */
  predicate IsMarker(t: string) {
    |t| == 13 && Quote(t[8]) && forall i | 0 <= i < |t| :: !Outside(t[i])
  }

  lemma BothMarkers()
    ensures IsMarker(Q35) && IsMarker(Q35_DOUBLE)
  {
  }

  /** A quote of a marker stands at least eight places behind the start of the text and four in front of its last. */
  lemma QuoteInMarker(s: string, t: string)
    requires IsMarker(t)
    ensures Contains(s, t) ==> exists j | 8 <= j < |s| - 4 :: Quote(s[j])
  {
    var i := Find(s, t);
    if i >= 0 {
      assert s[i + 8] == s[i..i + 13][8];
    }
  }

  lemma NoMarker(s: string, t: string)
    requires IsMarker(t) && forall j | 8 <= j < |s| - 4 :: !Quote(s[j])
    ensures !Contains(s, t)
  {
    QuoteInMarker(s, t);
  }

  lemma FreeConcat(a: string, b: string, t: string)
    requires IsMarker(t) && !Contains(a, t) && !Contains(b, t)
    requires a == [] || b == [] || Outside(b[0]) || Outside(a[|a| - 1])
    ensures !Contains(a + b, t)
  {
    ContainsConcat(a, b, t);
  }

  // ----- Editing the drive that is there -----

  /** The number of cdrom disks. */
  function Drives(bs: seq<string>): nat {
    if bs == [] then 0 else Drives(bs[..|bs| - 1]) + if IsCDROMDisk(bs[|bs| - 1]) then 1 else 0
  }

  /** Exchanging the block neither brings nor takes away the q35 marker. */
  predicate MarkerElsewhere(before: string, b: string, c: string, after: string) {
    IsQ35(before) || IsQ35(after) || (IsQ35(b) <==> IsQ35(c))
  }

  /** What the edit needs of the domain: every disk closed, the drive still a cdrom when its tag is written, and its
      targets self-closing and plainly named. */
  ghost predicate Editable(s: string, pool: string, vol: string) {
    var d := Scan(DISK, s);
    var k := DriveIndex(Blocks(d), vol);
    && Clean(s) && Settled(DISK, s) && VolumeNames(pool, vol)
    && k >= 0 && TagReads(OpenTag(Blocks(d)[k])) && TargetsClosed(TagsOf(Blocks(d)[k]))
    && OldTargetPlain(Blocks(d), vol)
  }

  /** The tag of the drive stays once an edit has written it. */
  ghost predicate TagSettles(s: string, vol: string) {
    var k := DriveIndex(Matches(DISK, s), vol);
    k >= 0 && TagStays(OpenTag(Matches(DISK, s)[k]))
  }

  /** The preferred bus is the same afterwards: the other disks decide it whatever the machine, or the marker of the
      machine does not hang on what the edit replaces. */
  ghost predicate BusStays(s: string, pool: string, vol: string)
    requires Editable(s, pool, vol)
  {
    var d, t := Scan(DISK, s), ResolvedTarget(s, vol);
    var k := DriveIndex(Blocks(d), vol);
    var c := PatchDriveBlock(Blocks(d)[k], pool, vol, t.0, t.1);
    || UsesBus(Blocks(d), {"virtio", "sata"})
    || !UsesBus(Blocks(d), {"ide"})
    || (c.Some? && MarkerElsewhere(Before(d, k), Blocks(d)[k], c.value, After(d, k)))
  }

  lemma {:induction false} DiskAt(d: Doc, k: nat)
    requires WellCut(DISK, d) && k < |Blocks(d)|
    ensures IsBlock(DISK, Blocks(d)[k])
  {
    if k > 0 {
      DiskAt(d.rest, k - 1);
    }
  }

  lemma InsideClosed(o: string, tags: seq<string>, c: string)
    requires TargetsClosed([o] + (tags + [c]))
    ensures TargetsClosed(tags)
  {
    var all := [o] + (tags + [c]);
    assert forall i | 0 <= i < |tags| :: all[i + 1] == tags[i];
  }

  /** The edited block is a cdrom that reads back its target and names its volume; editing it for the same target
      changes nothing exactly when its tag stays. */
  lemma EditedBlock(b: string, pool: string, vol: string, dev: string, bus: string)
    requires IsBlock(DISK, b) && TagReads(OpenTag(b)) && TargetsClosed(TagsOf(b))
    requires VolumeNames(pool, vol) && PlainName(dev) && PlainName(bus)
    ensures PatchDriveBlock(b, pool, vol, dev, bus).Some?
    ensures
      var c := PatchDriveBlock(b, pool, vol, dev, bus).value;
      && IsBlock(DISK, c) && Named(c, vol) && DiskTargetDev(c) == dev && DiskTargetBus(c) == bus
      && (PatchDriveBlock(c, pool, vol, dev, bus) == Some(c) <==> TagStays(OpenTag(b)))
      && OpenTag(c) == DriveTag(OpenTag(b)) && TargetsClosed(TagsOf(c))
  {
    var o, x := BlockParts(b);
    NamesFit(pool, vol, dev, bus);
    DriveForm(o, x, pool, vol, dev, bus);
    PatchedIsDrive(o, x, pool, vol, dev, bus);
    var t, y := DriveTag(o), DriveInside(x, pool, vol, dev, bus);
    FinishedStays(t, y, pool, vol, dev, bus);
    ReadsCdrom(t, y);
    assert BlockOf(DISK, t, y);
    InsideClosed(o, TagsOf(x), CLOSE);
    DriveTargetsClosed(x, pool, vol, dev, bus);
    DriveReads(t, y, pool, vol, dev, bus);
    DriveNames(t, y, pool, vol, dev, bus);
    ClosedBlock(t, y);
  }

  lemma ClosedBlock(o: string, y: string)
    requires IsDiskTag(o) && Clean(y) && TargetsClosed(TagsOf(y))
    ensures OpenTag(o + y + CLOSE) == o && TargetsClosed(TagsOf(o + y + CLOSE))
  {
    CloseIsTag();
    Retagged(o, o, y);
    TagBeforeTag(o, y, CLOSE);
    Assoc(o, y, CLOSE);
    NotTarget(o, "<disk");
    NotTarget(CLOSE, "</disk>");
    ClosedTags(o, TagsOf(y), CLOSE);
  }

  lemma ClosedTags(o: string, tags: seq<string>, c: string)
    requires !Opens(o, "<target") && !Opens(c, "<target") && TargetsClosed(tags)
    ensures TargetsClosed([o] + (tags + [c]))
  {
    var all := [o] + (tags + [c]);
    assert forall i | 0 < i < |all| - 1 :: all[i] == tags[i - 1];
  }

  /** Exchanging one cdrom for another leaves the preferred bus to the other disks. */
  lemma SameBuses(bs: seq<string>, k: nat, c: string, buses: set<string>)
    requires k < |bs| && IsCDROMDisk(bs[k]) && IsCDROMDisk(c)
    ensures UsesBus(bs[k := c], buses) <==> UsesBus(bs, buses)
  {
    var cs := bs[k := c];
    if b :| b in bs && !IsCDROMDisk(b) && Lower(DiskTargetBus(b)) in buses {
      var i :| 0 <= i < |bs| && bs[i] == b;
      assert cs[i] == b;
    }
    if b :| b in cs && !IsCDROMDisk(b) && Lower(DiskTargetBus(b)) in buses {
      var i :| 0 <= i < |cs| && cs[i] == b;
      assert bs[i] == b;
    }
  }

  lemma SameDrive(bs: seq<string>, k: nat, c: string, vol: string)
    requires DriveIndex(bs, vol) == k < |bs| && Named(c, vol)
    ensures DriveIndex(bs[k := c], vol) == k
  {
    var cs := bs[k := c];
    assert forall j | 0 <= j < k :: cs[j] == bs[j];
    OneDrive(cs, vol, k);
  }

  lemma {:induction false} SameDrives(bs: seq<string>, k: nat, c: string)
    requires k < |bs| && IsCDROMDisk(bs[k]) && IsCDROMDisk(c)
    ensures Drives(bs[k := c]) == Drives(bs)
  {
    var n := |bs| - 1;
    if k < n {
      SameDrives(bs[..n], k, c);
      assert bs[k := c][..n] == bs[..n][k := c];
    } else {
      assert bs[k := c][..n] == bs[..n];
    }
  }

  /** What an edit does: one disk exchanged for a finished drive. */
  lemma Edited(s: string, pool: string, vol: string) returns (k: nat, c: string)
    requires Editable(s, pool, vol)
    ensures DriveIndex(Matches(DISK, s), vol) == k < |Matches(DISK, s)|
    ensures PatchDriveBlock(Matches(DISK, s)[k], pool, vol, ResolvedTarget(s, vol).0, ResolvedTarget(s, vol).1) == Some(c)
    ensures Driven(s, pool, vol) == Some(Before(Scan(DISK, s), k) + c + After(Scan(DISK, s), k))
    ensures Scan(DISK, Driven(s, pool, vol).value) == ReplaceBlock(Scan(DISK, s), k, c)
    ensures Matches(DISK, Driven(s, pool, vol).value) == Matches(DISK, s)[k := c]
    ensures Named(c, vol) && DiskTargetDev(c) == ResolvedTarget(s, vol).0 && DiskTargetBus(c) == ResolvedTarget(s, vol).1
    ensures PatchDriveBlock(c, pool, vol, ResolvedTarget(s, vol).0, ResolvedTarget(s, vol).1) == Some(c) <==>
              TagSettles(s, vol)
    ensures IsBlock(DISK, c) && OpenTag(c) == DriveTag(OpenTag(Matches(DISK, s)[k])) && TargetsClosed(TagsOf(c))
    ensures Clean(Driven(s, pool, vol).value) && Settled(DISK, Driven(s, pool, vol).value)
    ensures IsBlock(DISK, Matches(DISK, s)[k]) && Proper(DISK)
  {
    PatternsProper();
    var d := Scan(DISK, s);
    var (dev, bus) := ResolvedTarget(s, vol);
    k := DriveIndex(Blocks(d), vol);
    CutWell(DISK, s);
    DiskAt(d, k);
    TargetIsPlain(s, vol);
    EditedBlock(Blocks(d)[k], pool, vol, dev, bus);
    c := PatchDriveBlock(Blocks(d)[k], pool, vol, dev, bus).value;
    ReplaceCut(DISK, d, k, c);
    ScanOf(DISK, ReplaceBlock(d, k, c));
    AroundBlock(d, k, c);
  }

  lemma BlockEnds(b: string)
    requires IsBlock(DISK, b)
    ensures b != [] && b[0] == '<' && b[|b| - 1] == '>'
  {
    var o, x := BlockParts(b);
    assert b[0] == o[0] && CLOSE[|CLOSE| - 1] == '>';
  }

  lemma SameMarker(a: string, b: string, c: string, z: string)
    requires b != [] && b[0] == '<' && b[|b| - 1] == '>' && c != [] && c[0] == '<' && c[|c| - 1] == '>'
    ensures (IsQ35(a + b + z) <==> IsQ35(a + c + z)) <==> MarkerElsewhere(a, b, c, z)
  {
    Q35Concat(a, b);
    Q35Concat(a, c);
    Q35Concat(a + b, z);
    Q35Concat(a + c, z);
  }

  /** The preferred bus after an edit is the one before exactly when it does not hang on a marker that the edit
      takes away or brings. */
  lemma PrefersAgain(s: string, pool: string, vol: string)
    requires Editable(s, pool, vol)
    ensures Driven(s, pool, vol).Some?
    ensures PreferredBus(Driven(s, pool, vol).value) == PreferredBus(s) <==> BusStays(s, pool, vol)
  {
    var k, c := Edited(s, pool, vol);
    var bs, d := Matches(DISK, s), Scan(DISK, s);
    SameBuses(bs, k, c, {"virtio", "sata"});
    SameBuses(bs, k, c, {"ide"});
    AroundBlock(d, k, bs[k]);
    JoinScan(DISK, s);
    CutWell(DISK, s);
    DiskAt(d, k);
    BlockEnds(bs[k]);
    BlockEnds(c);
    SameMarker(Before(d, k), bs[k], c, After(d, k));
    BusByMarker(s, Driven(s, pool, vol).value);
  }

  lemma BusByMarker(s: string, s': string)
    requires UsesBus(Matches(DISK, s'), {"virtio", "sata"}) <==> UsesBus(Matches(DISK, s), {"virtio", "sata"})
    requires UsesBus(Matches(DISK, s'), {"ide"}) <==> UsesBus(Matches(DISK, s), {"ide"})
    ensures
      PreferredBus(s') == PreferredBus(s) <==>
      || UsesBus(Matches(DISK, s), {"virtio", "sata"}) || !UsesBus(Matches(DISK, s), {"ide"})
      || (IsQ35(s) <==> IsQ35(s'))
  {
    assert "sata"[0] != "ide"[0];
  }

  /** The edited drive is found again, with a plainly named target. */
  lemma FoundAgain(s: string, pool: string, vol: string)
    requires Editable(s, pool, vol)
    ensures Driven(s, pool, vol).Some?
    ensures DriveIndex(Matches(DISK, Driven(s, pool, vol).value), vol) == DriveIndex(Matches(DISK, s), vol)
    ensures OldTargetPlain(Matches(DISK, Driven(s, pool, vol).value), vol)
  {
    var k, c := Edited(s, pool, vol);
    SameDrive(Matches(DISK, s), k, c, vol);
    TargetIsPlain(s, vol);
  }

  /** An edited domain whose drive has a tag that stays can be edited again. */
  lemma EditableAgain(s: string, pool: string, vol: string)
    requires Editable(s, pool, vol) && TagSettles(s, vol)
    ensures Driven(s, pool, vol).Some? && Editable(Driven(s, pool, vol).value, pool, vol)
    ensures TagSettles(Driven(s, pool, vol).value, vol)
  {
    var k, c := Edited(s, pool, vol);
    FoundAgain(s, pool, vol);
  }

  /** When the preferred bus stays, the second look resolves the same target. */
  lemma ResolvesAgain(s: string, pool: string, vol: string)
    requires Editable(s, pool, vol) && BusStays(s, pool, vol)
    ensures ResolvedTarget(Driven(s, pool, vol).value, vol) == ResolvedTarget(s, vol)
  {
    var k, c := Edited(s, pool, vol);
    TargetIsPlain(s, vol);
    SameDrive(Matches(DISK, s), k, c, vol);
    PrefersAgain(s, pool, vol);
  }

  /** When it does not, the second look resolves another bus. */
  lemma ResolvesElsewhere(s: string, pool: string, vol: string)
    requires Editable(s, pool, vol) && !BusStays(s, pool, vol)
    ensures Driven(s, pool, vol).Some?
    ensures ResolvedTarget(Driven(s, pool, vol).value, vol).1 != ResolvedTarget(s, vol).1
  {
    FoundAgain(s, pool, vol);
    var s' := Driven(s, pool, vol).value;
    PrefersAgain(s, pool, vol);
    TargetIsPlain(s, vol);
    TargetIsPlain(s', vol);
    BusesApart(PreferredBus(s), PreferredBus(s'), ResolvedTarget(s, vol).1, ResolvedTarget(s', vol).1);
  }

  /** Then the drive moves to another bus. */
  lemma MovesAgain(s: string, pool: string, vol: string)
    requires Editable(s, pool, vol) && TagSettles(s, vol) && !BusStays(s, pool, vol)
    ensures Driven(s, pool, vol).Some?
    ensures Driven(Driven(s, pool, vol).value, pool, vol) != Driven(s, pool, vol)
  {
    ResolvesElsewhere(s, pool, vol);
    EditableAgain(s, pool, vol);
    var s' := Driven(s, pool, vol).value;
    var k, c := Edited(s, pool, vol);
    var k', c' := Edited(s', pool, vol);
    SameDrive(Matches(DISK, s), k, c, vol);
    assert Matches(DISK, s')[k] == c && Matches(DISK, Driven(s', pool, vol).value)[k] == c';
  }

  lemma BusesApart(p: string, p': string, b: string, b': string)
    requires p in {"sata", "ide"} && p' in {"sata", "ide"} && p != p' && EqualFold(b, p) && EqualFold(b', p')
    ensures b != b'
  {
    assert "sata"[0] != "ide"[0];
  }

  lemma RetaggedBlock(c: string, pool: string, vol: string, dev: string, bus: string)
    requires IsBlock(DISK, c) && DriveTag(OpenTag(c)) != OpenTag(c) && Names4(pool, vol, dev, bus)
    ensures PatchDriveBlock(c, pool, vol, dev, bus).Some? && PatchDriveBlock(c, pool, vol, dev, bus).value != c
  {
    var o, x := BlockParts(c);
    DriveForm(o, x, pool, vol, dev, bus);
    DriveTagIsTag(o);
    Retagged(DriveTag(o), DriveTag(o), DriveInside(x, pool, vol, dev, bus));
  }

  /** When the tag of the drive does not stay, a second edit writes another one. */
  lemma TagsAgain(s: string, pool: string, vol: string)
    requires Editable(s, pool, vol) && !TagSettles(s, vol)
    ensures Driven(s, pool, vol).Some?
    ensures Driven(Driven(s, pool, vol).value, pool, vol) != Driven(s, pool, vol)
  {
    var k, c := Edited(s, pool, vol);
    FoundAgain(s, pool, vol);
    var s' := Driven(s, pool, vol).value;
    var (dev, bus) := ResolvedTarget(s', vol);
    TargetIsPlain(s', vol);
    NamesFit(pool, vol, dev, bus);
    RetaggedBlock(c, pool, vol, dev, bus);
    var d := Scan(DISK, s');
    var c' := PatchDriveBlock(c, pool, vol, dev, bus).value;
    AroundBlock(d, k, c');
    AroundBlock(d, k, Blocks(d)[k]);
    JoinScan(DISK, s');
    AroundBlock(Scan(DISK, s), k, c);
    Between(Before(d, k), c', c, After(d, k));
  }

  /** Editing twice is editing once exactly when the preferred bus and the tag of the drive stay; an edit neither adds
      nor removes a drive. */
  lemma EditTwice(s: string, pool: string, vol: string)
    requires Editable(s, pool, vol)
    ensures Driven(s, pool, vol).Some?
    ensures Driven(Driven(s, pool, vol).value, pool, vol) == Driven(s, pool, vol) <==>
              BusStays(s, pool, vol) && TagSettles(s, vol)
    ensures Drives(Matches(DISK, Driven(s, pool, vol).value)) == Drives(Matches(DISK, s))
  {
    var k, c := Edited(s, pool, vol);
    var bs, d := Matches(DISK, s), Scan(DISK, s);
    SameDrives(bs, k, c);
    if !TagSettles(s, vol) {
      TagsAgain(s, pool, vol);
    } else if BusStays(s, pool, vol) {
      ResolvesAgain(s, pool, vol);
      SameDrive(bs, k, c, vol);
      AroundBlock(d, k, c);
      var e := ReplaceBlock(d, k, c);
      assert Blocks(e)[k] == c;
      AroundBlock(e, k, c);
    } else {
      MovesAgain(s, pool, vol);
    }
  }
}
