/** A domain whose only q35 marker stands in what an edit replaces, beside disks that use ide alone: the drive moves
    once more when it is edited again. */
module DriveExample {
  import opened Outcomes
  import opened Text
  import opened XmlScan
  import opened XmlClean
  import opened XmlAttributes
  import opened XmlSetAttribute
  import opened XmlRewrite
  import opened XmlPairs
  import opened DiskBlock
  import opened BootOrder
  import opened BootDisk
  import opened PlainTag
  import opened StripDisks
  import opened DriveTarget
  import opened DriveBlock
  import opened DriveRead
  import opened ConfigDrive
  import opened DriveTwice
  import opened DriveInsert

  // ----- The two disks -----

  const MACHINE_SOURCE := Element("<source", "machine='q35'")
  const MARKED := DRIVE_TAG + MACHINE_SOURCE + CLOSE

  const DISK_ATTS := [Att(" ", "device", '\'', "disk")]
  const IDE_DISK := DiskTag(DISK_ATTS) + TargetElement("hdb", "ide") + CLOSE

  lemma MachineText()
    ensures NoAngle("machine='q35'")
  {
  }

  lemma MachineSource()
    ensures IsTag(MACHINE_SOURCE) && Fits(SOURCE, MACHINE_SOURCE)
  {
    MachineText();
    ElementFits("<source", "machine='q35'");
  }

  lemma OneTag(t: string)
    requires IsTag(t)
    ensures Clean(t) && TagsOf(t) == [t]
  {
    TagFirst(t, []);
    TagsOfTag(t, []);
    assert t + [] == t;
  }

  /** A disk with one element between its tags. */
  lemma OneElement(o: string, m: string)
    requires IsDiskTag(o) && IsTag(m) && m != CLOSE
    ensures IsBlock(DISK, o + m + CLOSE) && TagsOf(o + m + CLOSE) == [o] + ([m] + [CLOSE]) && Clean(o + m + CLOSE)
    ensures OpenTag(o + m + CLOSE) == o
  {
    OneTag(m);
    CloseIsTag();
    PatternsProper();
    TagBeforeTag(o, m, CLOSE);
    Assoc(o, m, CLOSE);
    NothingElse(CLOSE, [m]);
    assert BlockOf(DISK, o, m);
    Retagged(o, o, m);
  }

  lemma MarkedShape()
    ensures IsBlock(DISK, MARKED) && TagsOf(MARKED) == [DRIVE_TAG] + ([MACHINE_SOURCE] + [CLOSE]) && Clean(MARKED)
    ensures OpenTag(MARKED) == DRIVE_TAG && IsDiskTag(DRIVE_TAG)
  {
    NewTag();
    PlainIsDiskTag(NEW_ATTS);
    MachineSource();
    NotEnd();
    OneElement(DRIVE_TAG, MACHINE_SOURCE);
  }

  lemma MarkedIsCDROM()
    ensures IsCDROMDisk(MARKED)
  {
    NewTag();
    DeviceOf(DRIVE_TAG, MACHINE_SOURCE + CLOSE);
    Assoc(DRIVE_TAG, MACHINE_SOURCE, CLOSE);
  }

  lemma NoTargetValue(b: string)
    requires Clean(b) && NoOpens("<target", TagsOf(b))
    ensures DiskTargetDev(b) == "" && DiskTargetBus(b) == ""
  {
    Nothing(b);
    PassNoTarget(b, [], "dev");
    PassNoTarget(b, [], "bus");
  }

  lemma MarkedBlock()
    ensures IsBlock(DISK, MARKED) && IsCDROMDisk(MARKED)
    ensures TagReads(OpenTag(MARKED)) && TargetsClosed(TagsOf(MARKED))
    ensures DiskTargetDev(MARKED) == "" && DiskTargetBus(MARKED) == ""
  {
    NewTag();
    MarkedShape();
    NoTargetHere();
    MarkedIsCDROM();
    NoTargetValue(MARKED);
  }

  lemma NotEnd()
    ensures MACHINE_SOURCE != CLOSE && TargetElement("hdb", "ide") != CLOSE
  {
    assert MACHINE_SOURCE[1] == 's' && CLOSE[1] == '/' && TargetElement("hdb", "ide")[1] == 't';
  }

  lemma NoTargetHere()
    requires IsDiskTag(DRIVE_TAG)
    ensures
      var tags := [DRIVE_TAG] + ([MACHINE_SOURCE] + [CLOSE]);
      NoOpens("<target", tags) && TargetsClosed(tags)
  {
    NotTarget(DRIVE_TAG, "<disk");
    NotTarget(MACHINE_SOURCE, "<source");
    NotTarget(CLOSE, "</disk>");
    var tags := [DRIVE_TAG] + ([MACHINE_SOURCE] + [CLOSE]);
    assert tags == [DRIVE_TAG, MACHINE_SOURCE, CLOSE];
  }

  /** The device a block names in its opening tag. */
  lemma DeviceOf(o: string, rest: string)
    requires AttributeValue(o, "device") != []
    ensures AttributeValue(o + rest, "device") == AttributeValue(o, "device")
  {
    ValueIsThere(o, "device", false);
    ValueConcat(o, rest, "device", false);
  }

  lemma OneAttPlain(a: Att)
    requires PlainAtt(a) && OtherThanDisk(a.name)
    ensures AttributeValue(DiskTag([a]), a.name) == a.value && IsDiskTag(DiskTag([a]))
  {
    var atts := [a];
    assert PlainAtts(atts);
    ReadPlain(atts, a.name);
    ValueAtIndex(atts, a.name, 0);
    PlainIsDiskTag(atts);
  }

  lemma IdeNames()
    ensures PlainName("hdb") && PlainName("ide")
  {
    BusIsPlain("ide");
    CandidateIsPlain("ide", Candidates("ide")[1]);
    LowerIde();
  }

  lemma DiskAttsPlain()
    ensures AttributeValue(DiskTag(DISK_ATTS), "device") == "disk" && IsDiskTag(DiskTag(DISK_ATTS))
  {
    DriveTexts();
    NewAttPlain("device", "disk");
    OneAttPlain(Att(" ", "device", '\'', "disk"));
  }

  /** A disk with one target element reads back its bus. */
  lemma BusOf(o: string, dev: string, bus: string)
    requires IsDiskTag(o) && PlainName(dev) && PlainName(bus)
    ensures DiskTargetBus(o + TargetElement(dev, bus) + CLOSE) == bus
  {
    var t := TargetElement(dev, bus);
    TargetFits(dev, bus);
    InFrontOfTarget(o, []);
    assert o + [] == o;
    PassNoTarget(o, t + CLOSE, "bus");
    Assoc(o, t, CLOSE);
    ReadTargetElement(dev, bus, CLOSE);
    TargetOpens(t, CLOSE);
  }

  lemma IdeDisk()
    ensures IsBlock(DISK, IDE_DISK) && !IsCDROMDisk(IDE_DISK) && DiskTargetBus(IDE_DISK) == "ide"
  {
    DiskAttsPlain();
    IdeNames();
    NotEnd();
    TargetBlock(DiskTag(DISK_ATTS), "hdb", "ide");
    LowerDisk();
  }

  lemma LowerDisk()
    ensures !EqualFold("disk", "cdrom")
  {
    assert Lower("disk")[0] == 'd';
  }

  lemma TargetBlock(o: string, dev: string, bus: string)
    requires IsDiskTag(o) && PlainName(dev) && PlainName(bus) && TargetElement(dev, bus) != CLOSE
    requires AttributeValue(o, "device") != []
    ensures
      var b := o + TargetElement(dev, bus) + CLOSE;
      IsBlock(DISK, b) && DiskTargetBus(b) == bus && AttributeValue(b, "device") == AttributeValue(o, "device")
  {
    var t := TargetElement(dev, bus);
    TargetFits(dev, bus);
    OneElement(o, t);
    BusOf(o, dev, bus);
    DeviceOf(o, t + CLOSE);
    Assoc(o, t, CLOSE);
  }

  lemma TagOfOne(a: string, m: string)
    requires IsMarker(m) && !Contains(a, m)
    ensures !Contains("<disk" + " " + a + ">", m)
  {
    TextNoMarker("<disk", m);
    TwoNoMarker("<disk", a, m);
    TextNoMarker(">", m);
    FreeConcat("<disk" + " " + a, ">", m);
  }

  lemma IdeNoMarker(m: string)
    requires IsMarker(m)
    ensures !Contains(IDE_DISK, m)
  {
    var o, t := DiskTag(DISK_ATTS), TargetElement("hdb", "ide");
    DiskAttsPlain();
    AttributeNoMarker("device", "disk", m);
    TagOfOne(Attribute("device", '\'', "disk"), m);
    OneAtt();
    TargetNoMarker("hdb", "ide", m);
    TextNoMarker(CLOSE, m);
    IdeNames();
    TargetFits("hdb", "ide");
    CloseIsTag();
    BetweenTagsNoMarker(o, t, CLOSE, m);
  }

  lemma OneAtt()
    ensures DiskTag(DISK_ATTS) == "<disk" + " " + Attribute("device", '\'', "disk") + ">"
  {
    assert DISK_ATTS[1..] == [];
    assert Render(DISK_ATTS) == " " + Attribute("device", '\'', "disk");
  }

  // ----- The edited drive -----

  /** Inside a drive that has a source and nothing else. */
  lemma SourceOnly(m: string, pool: string, vol: string, dev: string, bus: string)
    requires IsTag(m) && Fits(SOURCE, m) && Names4(pool, vol, dev, bus)
    ensures
      var rd, rs, rt := DriverElement("raw"), SourceElement(DriveVolume(pool, vol)), TargetElement(dev, bus);
      DriveInside(m, pool, vol, dev, bus) == INDENT + rd + rs + INDENT + READONLY_ELEMENT + (INDENT + rt)
  {
    DriverSourceFits(pool, vol);
    DriverSourcePlain(pool, vol);
    TargetFits(dev, bus);
    FourSteps(m, DriverElement("raw"), SourceElement(DriveVolume(pool, vol)), TargetElement(dev, bus));
  }

  lemma FourSteps(m: string, rd: string, rs: string, rt: string)
    requires IsTag(m) && Fits(SOURCE, m) && IsTag(rd) && Fits(DRIVER, rd)
    requires IsTag(rs) && Fits(SOURCE, rs) && NoReference(rs) && IsTag(rt) && Fits(TARGET, rt)
    ensures
      ReadonlyInside(Inside(TARGET, rt, [SOURCE], Inside(SOURCE, rs, [DRIVER], Inside(DRIVER, rd, [], m)))) ==
      INDENT + rd + rs + INDENT + READONLY_ELEMENT + (INDENT + rt)
  {
    InsertedDriver(m, rd);
    ReplacedSource(m, rd, rs);
    InsertedTarget(rd, rs, rt);
    InsertedReadonly(rd, rs, rt);
  }

  lemma InsertedTarget(rd: string, rs: string, rt: string)
    requires IsTag(rd) && Fits(DRIVER, rd) && IsTag(rs) && Fits(SOURCE, rs)
    ensures Inside(TARGET, rt, [SOURCE], INDENT + rd + rs) == INDENT + rd + rs + (INDENT + rt)
  {
    InsertedBehind(TARGET, rd, rs, rt, []);
    Nothing(INDENT + rd + rs);
    Nothing(INDENT + rd + rs + INDENT + rt);
    Assoc(INDENT + rd + rs, INDENT, rt);
  }

  lemma Nothing(t: string)
    ensures t + [] == t
  {
  }

  lemma OnlyFits(p: Pattern, q: Pattern, r: string)
    requires Apart(p, q) && Fits(p, r)
    ensures !Fits(q, r)
  {
    ApartNeverBoth(p, q, r);
  }

  lemma InsertedDriver(m: string, rd: string)
    requires IsTag(m) && Fits(SOURCE, m)
    ensures Inside(DRIVER, rd, [], m) == INDENT + rd + m
  {
    PatternsApart();
    OnlyFits(SOURCE, DRIVER, m);
    ScanTag(DRIVER, m, []);
    assert m + [] == m;
  }

  /** Text and a tag in front of what is scanned. */
  lemma ScanBehind(p: Pattern, t: string, z: string)
    requires !p.Paired? && IsTag(t) && !Fits(p, t)
    ensures Scan(p, INDENT + t + z) == Prefix(INDENT + t, Scan(p, z))
  {
    Assoc(INDENT, t, z);
    ScanText(p, INDENT, t + z);
    ScanTag(p, t, z);
    PrefixTwice(INDENT, t, Scan(p, z));
  }

  lemma ReplacedSource(m: string, rd: string, rs: string)
    requires IsTag(m) && Fits(SOURCE, m) && IsTag(rd) && Fits(DRIVER, rd) && NoReference(rs)
    ensures Inside(SOURCE, rs, [DRIVER], INDENT + rd + m) == INDENT + rd + rs
  {
    PatternsApart();
    OnlyFits(DRIVER, SOURCE, rd);
    ScanBehind(SOURCE, rd, m);
    ScanTag(SOURCE, m, []);
    assert m + [] == m;
    SubstitutePrefix(rs, INDENT + rd, Scan(SOURCE, m));
    ExpandSame(rs, [m]);
    assert [] + rs + [] == rs;
  }

  lemma InsertedBehind(p: Pattern, rd: string, rs: string, r: string, z: string)
    requires p in {TARGET, READONLY} && IsTag(rd) && Fits(DRIVER, rd) && IsTag(rs) && Fits(SOURCE, rs)
    requires Scan(p, z) == Tail(z)
    ensures Scan(p, INDENT + rd + rs + z).Tail?
    ensures InsertInside(r, [SOURCE], INDENT + rd + rs + z) == INDENT + rd + rs + INDENT + r + z
  {
    PatternsApart();
    OnlyFits(DRIVER, SOURCE, rd);
    OnlyFits(DRIVER, p, rd);
    OnlyFits(SOURCE, p, rs);
    Assoc(INDENT + rd, rs, z);
    ScanBehind(p, rd, rs + z);
    ScanTag(p, rs, z);
    ScanBehind(SOURCE, rd, rs + z);
    ScanTag(SOURCE, rs, z);
    JoinScan(SOURCE, z);
    assert INDENT + rd + [] == INDENT + rd;
  }

  lemma InsertedReadonly(rd: string, rs: string, rt: string)
    requires IsTag(rd) && Fits(DRIVER, rd) && IsTag(rs) && Fits(SOURCE, rs) && IsTag(rt) && Fits(TARGET, rt)
    ensures
      ReadonlyInside(INDENT + rd + rs + (INDENT + rt)) == INDENT + rd + rs + INDENT + READONLY_ELEMENT + (INDENT + rt)
  {
    PatternsApart();
    ApartNeverBoth(READONLY, TARGET, rt);
    ScanBehind(READONLY, rt, []);
    assert INDENT + rt + [] == INDENT + rt;
    InsertedBehind(READONLY, rd, rs, READONLY_ELEMENT, INDENT + rt);
  }

  lemma EditedNoMarker(rd: string, rs: string, rt: string, m: string)
    requires IsMarker(m) && IsTag(rd) && IsTag(rs) && IsTag(rt)
    requires !Contains(rd, m) && !Contains(rs, m) && !Contains(rt, m)
    ensures !Contains(INDENT + rd + rs + INDENT + READONLY_ELEMENT + (INDENT + rt), m)
  {
    FixedNoMarker(m);
    FreeConcat(INDENT, rd, m);
    FreeConcat(INDENT + rd, rs, m);
    FreeConcat(INDENT + rd + rs, INDENT, m);
    FreeConcat(INDENT + rd + rs + INDENT, READONLY_ELEMENT, m);
    FreeConcat(INDENT, rt, m);
    FreeConcat(INDENT + rd + rs + INDENT + READONLY_ELEMENT, INDENT + rt, m);
  }

  /** The edited drive has lost the marker. */
  lemma MarkerLost(pool: string, vol: string, dev: string, bus: string, m: string)
    requires IsMarker(m) && VolumeNames(pool, vol) && PlainName(dev) && PlainName(bus)
    ensures
      var c := PatchDriveBlock(MARKED, pool, vol, dev, bus);
      c.Some? && !Contains(c.value, m)
  {
    var rd, rs, rt := DriverElement("raw"), SourceElement(DriveVolume(pool, vol)), TargetElement(dev, bus);
    NewTag();
    PlainIsDiskTag(NEW_ATTS);
    MachineSource();
    OneTag(MACHINE_SOURCE);
    NamesFit(pool, vol, dev, bus);
    DriveForm(DRIVE_TAG, MACHINE_SOURCE, pool, vol, dev, bus);
    SourceOnly(MACHINE_SOURCE, pool, vol, dev, bus);
    DriverSourceFits(pool, vol);
    TargetFits(dev, bus);
    DriverNoMarker(m);
    SourceNoMarker(pool, vol, m);
    TargetNoMarker(dev, bus, m);
    EditedNoMarker(rd, rs, rt, m);
    TagNoMarker(m);
    FixedNoMarker(m);
    CloseIsTag();
    BetweenTagsNoMarker(DRIVE_TAG, DriveInside(MACHINE_SOURCE, pool, vol, dev, bus), CLOSE, m);
  }

  lemma MarkedHasMarker()
    ensures IsQ35(MARKED)
  {
    var front, back := DRIVE_TAG + ("<source" + " "), "/>" + CLOSE;
    assert MARKED == front + (Q35 + back);
    Middle(front, Q35, back);
    FindFirst(MARKED, Q35, |front|);
  }

  // ----- The domain -----

  const OPEN := "<devices>"

  function TwoDisks(): Doc {
    Next(OPEN, MARKED, Next([], IDE_DISK, Tail(DEVICES)))
  }

  lemma TwoDisksCut()
    ensures WellCut(DISK, TwoDisks())
  {
    MarkedBlock();
    IdeDisk();
    GapsCut();
  }

  lemma GapsCut()
    ensures Clean(OPEN) && NoOpens("<disk", TagsOf(OPEN)) && Clean(DEVICES) && NoOpens("<disk", TagsOf(DEVICES))
    ensures Clean([]) && NoOpens("<disk", TagsOf([]))
  {
    OneTag(OPEN);
    OneTag(DEVICES);
    NotDisk(OPEN, 2);
    NotDisk(DEVICES, 1);
  }

  lemma NotDisk(t: string, i: nat)
    requires i < 5 && i < |t| && t[i] != "<disk"[i]
    ensures !Opens(t, "<disk")
  {
  }

  lemma MarkedIsDrive(vol: string)
    ensures DriveIndex([MARKED, IDE_DISK], vol) == 0
    ensures !UsesBus([MARKED, IDE_DISK], {"virtio", "sata"}) && UsesBus([MARKED, IDE_DISK], {"ide"})
  {
    MarkedBlock();
    IdeDisk();
    LowerIde();
    DriveAndDisk(MARKED, IDE_DISK, vol);
  }

  lemma DriveAndDisk(a: string, b: string, vol: string)
    requires IsCDROMDisk(a) && !IsCDROMDisk(b) && Lower(DiskTargetBus(b)) == "ide" != "virtio" && "ide" != "sata"
    ensures DriveIndex([a, b], vol) == 0
    ensures !UsesBus([a, b], {"virtio", "sata"}) && UsesBus([a, b], {"ide"})
  {
    var bs := [a, b];
    assert bs[0] == a && bs[1] == b;
  }

  lemma LowerIde()
    ensures Lower("ide") == "ide" && "ide" != "virtio" && "ide" != "sata"
  {
    assert "ide"[0] != "virtio"[0] && "ide"[0] != "sata"[0];
  }

  lemma RestNoMarker()
    ensures !IsQ35(OPEN) && !IsQ35(IDE_DISK + DEVICES)
  {
    BothMarkers();
    RestFree(Q35);
    RestFree(Q35_DOUBLE);
  }

  lemma RestFree(m: string)
    requires IsMarker(m)
    ensures !Contains(OPEN, m) && !Contains(IDE_DISK + DEVICES, m)
  {
    TextNoMarker(OPEN, m);
    TextNoMarker(DEVICES, m);
    IdeNoMarker(m);
    FreeConcat(IDE_DISK, DEVICES, m);
  }

  lemma TwoScanned()
    ensures Scan(DISK, Join(TwoDisks())) == TwoDisks() && Blocks(TwoDisks()) == [MARKED, IDE_DISK]
    ensures Clean(Join(TwoDisks())) && Settled(DISK, Join(TwoDisks()))
  {
    TwoDisksCut();
    CutScanned(TwoDisks());
    AroundMarked();
  }

  lemma CutScanned(d: Doc)
    requires WellCut(DISK, d)
    ensures Scan(DISK, Join(d)) == d && Clean(Join(d)) && Settled(DISK, Join(d))
  {
    PatternsProper();
    ScanOf(DISK, d);
  }

  lemma TwoEditable(pool: string, vol: string)
    requires VolumeNames(pool, vol)
    ensures Editable(Join(TwoDisks()), pool, vol)
  {
    TwoScanned();
    MarkedBlock();
    MarkedIsDrive(vol);
    EditableFrom(Join(TwoDisks()), MARKED, IDE_DISK, pool, vol);
  }

  lemma EditableFrom(s: string, a: string, b: string, pool: string, vol: string)
    requires Clean(s) && Settled(DISK, s) && Matches(DISK, s) == [a, b] && VolumeNames(pool, vol)
    requires DriveIndex([a, b], vol) == 0 && TagReads(OpenTag(a)) && TargetsClosed(TagsOf(a))
    requires DiskTargetDev(a) == "" && DiskTargetBus(a) == ""
    ensures Editable(s, pool, vol)
  {
    assert [a, b][0] == a;
    NoTargetPlain([a, b], vol);
  }

  lemma NoTargetPlain(bs: seq<string>, vol: string)
    requires
      var k := DriveIndex(bs, vol);
      k >= 0 ==> DiskTargetDev(bs[k]) == "" && DiskTargetBus(bs[k]) == ""
    ensures OldTargetPlain(bs, vol)
  {
    EmptyText();
  }

  lemma TwoUnsettled(pool: string, vol: string)
    requires VolumeNames(pool, vol) && Editable(Join(TwoDisks()), pool, vol)
    ensures !BusStays(Join(TwoDisks()), pool, vol)
  {
    var s := Join(TwoDisks());
    TwoScanned();
    MarkedIsDrive(vol);
    TargetIsPlain(s, vol);
    var t := ResolvedTarget(s, vol);
    BothMarkers();
    MarkerLost(pool, vol, t.0, t.1, Q35);
    MarkerLost(pool, vol, t.0, t.1, Q35_DOUBLE);
    MarkedHasMarker();
    RestNoMarker();
    AroundMarked();
    assert [MARKED, IDE_DISK][0] == MARKED;
  }

  lemma AroundMarked()
    ensures Blocks(TwoDisks()) == [MARKED, IDE_DISK]
    ensures Before(TwoDisks(), 0) == OPEN && After(TwoDisks(), 0) == IDE_DISK + DEVICES
  {
    assert Join(Next([], IDE_DISK, Tail(DEVICES))) == [] + IDE_DISK + DEVICES;
    assert [] + IDE_DISK == IDE_DISK;
  }

  /** The first edit takes the only marker away, the second moves the drive to the bus of the other disk. */
  lemma DriveMovesTwice(pool: string, vol: string)
    requires VolumeNames(pool, vol)
    ensures
      var s := Join(TwoDisks());
      && Editable(s, pool, vol) && Driven(s, pool, vol).Some?
      && Driven(Driven(s, pool, vol).value, pool, vol) != Driven(s, pool, vol)
  {
    TwoEditable(pool, vol);
    TwoUnsettled(pool, vol);
    EditTwice(Join(TwoDisks()), pool, vol);
  }
}
