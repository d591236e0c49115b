/** A domain without a configuration drive gets one, and the disks keep different target names. */
module DriveInsert {
  import opened Outcomes
  import opened Text
  import opened XmlScan
  import opened XmlClean
  import opened XmlAttributes
  import opened XmlSetAttribute
  import opened XmlRewrite
  import opened XmlPairs
  import opened DiskBlock
  import opened OsBoot
  import opened BootDisk
  import opened PlainTag
  import opened StripDisks
  import opened DriveTarget
  import opened DriveBlock
  import opened DriveRead
  import opened ConfigDrive
  import opened DriveTwice

  // ----- The new disk is a finished drive -----

  const NEW_ATTS := [Att(" ", "type", '\'', "volume"), Att(" ", "device", '\'', "cdrom")]

  lemma NewTag()
    ensures DRIVE_TAG == DiskTag(NEW_ATTS) && PlainAtts(NEW_ATTS) && IsPlain(DRIVE_TAG)
    ensures DriveTag(DRIVE_TAG) == DRIVE_TAG && AttributeValue(DRIVE_TAG, "device") == "cdrom"
  {
    var a := NEW_ATTS;
    DriveTexts();
    NewAttsPlain();
    ValueAtIndex(a, "type", 0);
    ValueAtIndex(a, "device", 1);
    SetOnPlain(a, "type", "volume");
    SetSame(a, "type", "volume");
    SetOnPlain(a, "device", "cdrom");
    SetSame(a, "device", "cdrom");
    ReadPlain(a, "device");
  }

  lemma NewAttPlain(n: string, v: string)
    requires AttributeName(n) && PlainText(v)
    ensures PlainAtt(Att(" ", n, '\'', v))
  {
  }

  lemma TwoAttsPlain(a: Att, b: Att)
    requires PlainAtt(a) && PlainAtt(b) && a.name != b.name
    ensures PlainAtts([a, b]) && Has([a, b], a.name) && Has([a, b], b.name)
  {
    assert [a, b][0] == a && [a, b][1] == b;
  }

  lemma NewAttsPlain()
    ensures PlainAtts(NEW_ATTS) && Has(NEW_ATTS, "type") && Has(NEW_ATTS, "device")
  {
    DriveTexts();
    NewAttPlain("type", "volume");
    NewAttPlain("device", "cdrom");
    assert "type"[0] != "device"[0];
    TwoAttsPlain(Att(" ", "type", '\'', "volume"), Att(" ", "device", '\'', "cdrom"));
  }

  lemma NewTags(pool: string, vol: string, dev: string, bus: string)
    requires VolumeNames(pool, vol) && PlainName(dev) && PlainName(bus)
    ensures
      var y := NewInside(pool, vol, dev, bus);
      && Clean(y)
      && TagsOf(y) ==
         [DriverElement("raw")] + ([SourceElement(DriveVolume(pool, vol))] + ([TargetElement(dev, bus)] + ([READONLY_ELEMENT] + [])))
  {
    DriverSourceFits(pool, vol);
    TargetFits(dev, bus);
    ReadonlyFits();
    LastLine();
    NestedTags(DriverElement("raw"), SourceElement(DriveVolume(pool, vol)), TargetElement(dev, bus), READONLY_ELEMENT, "\n    ");
  }

  lemma LastLine()
    ensures Clean("\n    ") && TagsOf("\n    ") == []
  {
    var end := "\n    ";
    TextClean(end);
    TagsOfText(end, []);
    assert end + [] == end;
  }

  lemma NestedTags(rd: string, rs: string, rt: string, ro: string, end: string)
    requires IsTag(rd) && IsTag(rs) && IsTag(rt) && IsTag(ro) && Clean(end) && TagsOf(end) == []
    ensures
      var y := INDENT + (rd + (INDENT + (rs + (INDENT + (rt + (INDENT + (ro + end)))))));
      Clean(y) && TagsOf(y) == [rd] + ([rs] + ([rt] + ([ro] + [])))
  {
    IndentedTag(end, ro);
    var y1 := INDENT + (ro + end);
    IndentedTag(y1, rt);
    var y2 := INDENT + (rt + y1);
    IndentedTag(y2, rs);
    IndentedTag(INDENT + (rs + y2), rd);
  }

  /** Five patterns no two of which fit the same tag. */
  predicate AllApart(d: Pattern, s: Pattern, t: Pattern, o: Pattern, e: Pattern) {
    && Apart(d, s) && Apart(d, t) && Apart(d, o) && Apart(d, e)
    && Apart(s, t) && Apart(s, o) && Apart(s, e)
    && Apart(t, o) && Apart(t, e) && Apart(o, e)
  }

  lemma InsidesApart()
    ensures AllApart(DRIVER, SOURCE, TARGET, READONLY, END)
  {
    PatternsApart();
  }

  /** A pattern that fits one of four tags finds that one. */
  lemma OneOfFour(p: Pattern, k: nat, r0: string, r1: string, r2: string, r3: string)
    requires k < 4 && Fits(p, [r0, r1, r2, r3][k])
    requires (k == 0 || !Fits(p, r0)) && (k == 1 || !Fits(p, r1)) && (k == 2 || !Fits(p, r2)) && (k == 3 || !Fits(p, r3))
    ensures Select(p, [r0] + ([r1] + ([r2] + ([r3] + [])))) == [[r0, r1, r2, r3][k]]
  {
    SelectFirst(p, r0, [r1] + ([r2] + ([r3] + [])));
    SelectFirst(p, r1, [r2] + ([r3] + []));
    SelectFirst(p, r2, [r3] + []);
    SelectFirst(p, r3, []);
  }

  lemma NoneOfFour(p: Pattern, r0: string, r1: string, r2: string, r3: string)
    requires !Fits(p, r0) && !Fits(p, r1) && !Fits(p, r2) && !Fits(p, r3)
    ensures Select(p, [r0] + ([r1] + ([r2] + ([r3] + [])))) == []
  {
    SelectFirst(p, r0, [r1] + ([r2] + ([r3] + [])));
    SelectFirst(p, r1, [r2] + ([r3] + []));
    SelectFirst(p, r2, [r3] + []);
    SelectFirst(p, r3, []);
  }

  /** A tag that p fits is not fitted by patterns apart from p. */
  lemma FitsNoOther(p: Pattern, q1: Pattern, q2: Pattern, q3: Pattern, e: Pattern, r: string)
    requires Fits(p, r) && Apart(p, q1) && Apart(p, q2) && Apart(p, q3) && Apart(p, e)
    ensures !Fits(q1, r) && !Fits(q2, r) && !Fits(q3, r) && !Fits(e, r)
  {
    ApartNeverBoth(p, q1, r);
    ApartNeverBoth(p, q2, r);
    ApartNeverBoth(p, q3, r);
    ApartNeverBoth(p, e, r);
  }

  /** Each pattern finds its own element. */
  lemma OneOfEach(d: Pattern, s: Pattern, t: Pattern, o: Pattern, e: Pattern,
                  rd: string, rs: string, rt: string, ro: string)
    requires AllApart(d, s, t, o, e) && Fits(d, rd) && Fits(s, rs) && Fits(t, rt) && Fits(o, ro)
    ensures
      var tags := [rd] + ([rs] + ([rt] + ([ro] + [])));
      && Select(d, tags) == [rd] && Select(s, tags) == [rs] && Select(t, tags) == [rt]
      && Select(o, tags) == [ro] && Select(e, tags) == []
  {
    FitsNoOther(d, s, t, o, e, rd);
    FitsNoOther(s, d, t, o, e, rs);
    FitsNoOther(t, d, s, o, e, rt);
    FitsNoOther(o, d, s, t, e, ro);
    OneOfFour(d, 0, rd, rs, rt, ro);
    OneOfFour(s, 1, rd, rs, rt, ro);
    OneOfFour(t, 2, rd, rs, rt, ro);
    OneOfFour(o, 3, rd, rs, rt, ro);
    NoneOfFour(e, rd, rs, rt, ro);
  }

  lemma OneIsAll(r: string, tags: seq<string>)
    requires tags == [r]
    ensures AllAre(r, tags)
  {
  }

  lemma FourElements(tags: seq<string>, rd: string, rs: string, rt: string, ro: string)
    requires tags == [rd] + ([rs] + ([rt] + ([ro] + [])))
    requires Fits(DRIVER, rd) && Fits(SOURCE, rs) && Fits(TARGET, rt) && Fits(READONLY, ro)
    ensures AllAre(rd, Select(DRIVER, tags)) && AllAre(rs, Select(SOURCE, tags)) && AllAre(rt, Select(TARGET, tags))
    ensures Select(READONLY, tags) == [ro] && Select(END, tags) == []
  {
    InsidesApart();
    OneOfEach(DRIVER, SOURCE, TARGET, READONLY, END, rd, rs, rt, ro);
    OneIsAll(rd, Select(DRIVER, tags));
    OneIsAll(rs, Select(SOURCE, tags));
    OneIsAll(rt, Select(TARGET, tags));
  }

  lemma FourClosed(tags: seq<string>, rd: string, rs: string, rt: string, ro: string)
    requires tags == [rd] + ([rs] + ([rt] + ([ro] + [])))
    requires Fits(DRIVER, rd) && Fits(SOURCE, rs) && Fits(TARGET, rt) && Fits(READONLY, ro)
    ensures TargetsClosed(tags)
  {
    NotTarget(rd, "<driver");
    NotTarget(rs, "<source");
    NotTarget(ro, "<readonly");
    assert tags == [rd, rs, rt, ro];
  }

  lemma NewIsDrive(pool: string, vol: string, dev: string, bus: string)
    requires VolumeNames(pool, vol) && PlainName(dev) && PlainName(bus)
    ensures IsDrive(DRIVE_TAG, NewInside(pool, vol, dev, bus), pool, vol, dev, bus)
    ensures TargetsClosed(TagsOf(NewInside(pool, vol, dev, bus)))
  {
    NewTag();
    PlainIsDiskTag(NEW_ATTS);
    NewTags(pool, vol, dev, bus);
    NamesFit(pool, vol, dev, bus);
    DriverSourceFits(pool, vol);
    TargetFits(dev, bus);
    ReadonlyFits();
    var tags := TagsOf(NewInside(pool, vol, dev, bus));
    FourElements(tags, DriverElement("raw"), SourceElement(DriveVolume(pool, vol)), TargetElement(dev, bus), READONLY_ELEMENT);
    FourClosed(tags, DriverElement("raw"), SourceElement(DriveVolume(pool, vol)), TargetElement(dev, bus), READONLY_ELEMENT);
  }

  lemma NewDriveFacts(pool: string, vol: string, dev: string, bus: string)
    requires VolumeNames(pool, vol) && PlainName(dev) && PlainName(bus)
    ensures
      var n := NewDrive(pool, vol, dev, bus);
      && IsBlock(DISK, n) && Named(n, vol) && DiskTargetDev(n) == dev && DiskTargetBus(n) == bus
      && PatchDriveBlock(n, pool, vol, dev, bus) == Some(n)
  {
    NamesFit(pool, vol, dev, bus);
    NewIsDrive(pool, vol, dev, bus);
    var y := NewInside(pool, vol, dev, bus);
    DriveStays(DRIVE_TAG, y, pool, vol, dev, bus);
    DriveReads(DRIVE_TAG, y, pool, vol, dev, bus);
    DriveNames(DRIVE_TAG, y, pool, vol, dev, bus);
  }

  // ----- The new disk has no machine marker -----

  /** The quotes of an attribute with a short name come too early, and at the very end. */
  lemma AttributeNoMarker(n: string, v: string, t: string)
    requires IsMarker(t) && |n| <= 6 && AttributeName(n) && forall i | 0 <= i < |v| :: !Quote(v[i])
    ensures !Contains(Attribute(n, '\'', v), t)
  {
    var a := Attribute(n, '\'', v);
    forall j | 8 <= j < |a| - 4 ensures !Quote(a[j]) {
      assert a[j] == v[j - |n| - 2];
    }
    NoMarker(a, t);
  }

  lemma AttrNoMarker(n: string, v: string, t: string)
    requires IsMarker(t) && |n| <= 6 && AttributeName(n)
    ensures !Contains(Attr(n, v), t)
  {
    XmlAttrPlain(v);
    var e := XmlAttr(v);
    assert forall i | 0 <= i < |e| :: !Markup(e[i]);
    AttributeNoMarker(n, e, t);
    assert Attr(n, v) == Attribute(n, '\'', e);
  }

  lemma TextNoMarker(s: string, t: string)
    requires IsMarker(t) && forall i | 0 <= i < |s| :: !Quote(s[i])
    ensures !Contains(s, t)
  {
    NoMarker(s, t);
  }

  lemma TwoNoMarker(a: string, b: string, t: string)
    requires IsMarker(t) && !Contains(a, t) && !Contains(b, t)
    ensures !Contains(a + " " + b, t)
  {
    TextNoMarker(" ", t);
    FreeConcat(a, " ", t);
    FreeConcat(a + " ", b, t);
  }

  lemma ElementNoMarker(open: string, attributes: string, t: string)
    requires IsMarker(t) && (forall i | 0 <= i < |open| :: !Quote(open[i])) && !Contains(attributes, t)
    ensures !Contains(Element(open, attributes), t)
  {
    TextNoMarker(open, t);
    TwoNoMarker(open, attributes, t);
    TextNoMarker("/>", t);
    FreeConcat(open + " " + attributes, "/>", t);
  }

  lemma TwoAttributesNoMarker(n: string, v: string, m: string, w: string, t: string)
    requires IsMarker(t) && |n| <= 6 && AttributeName(n) && |m| <= 6 && AttributeName(m)
    ensures !Contains(Attr(n, v) + " " + Attr(m, w), t)
  {
    AttrNoMarker(n, v, t);
    AttrNoMarker(m, w, t);
    TwoNoMarker(Attr(n, v), Attr(m, w), t);
  }

  lemma TagOfTwo(a: string, d: string, t: string)
    requires IsMarker(t) && !Contains(a, t) && !Contains(d, t)
    ensures !Contains("<disk" + " " + (a + " " + d) + ">", t)
  {
    TwoNoMarker(a, d, t);
    TextNoMarker("<disk", t);
    TwoNoMarker("<disk", a + " " + d, t);
    TextNoMarker(">", t);
    FreeConcat("<disk" + " " + (a + " " + d), ">", t);
  }

  lemma TagNoMarker(t: string)
    requires IsMarker(t)
    ensures !Contains(DRIVE_TAG, t)
  {
    var a, d := Attribute("type", '\'', "volume"), Attribute("device", '\'', "cdrom");
    DriveTexts();
    AttributeNoMarker("type", "volume", t);
    AttributeNoMarker("device", "cdrom", t);
    TagOfTwo(a, d, t);
    TagPieces(a, d);
  }

  lemma TagPieces(a: string, d: string)
    requires a == Attribute("type", '\'', "volume") && d == Attribute("device", '\'', "cdrom")
    ensures DRIVE_TAG == "<disk" + " " + (a + " " + d) + ">"
  {
    var atts := NEW_ATTS;
    assert atts[1..] == [atts[1]] && atts[1..][1..] == [];
    assert Render(atts[1..]) == " " + d;
  }

  lemma ElementOfTwoNoMarker(open: string, n: string, v: string, m: string, w: string, t: string)
    requires IsMarker(t) && forall i | 0 <= i < |open| :: !Quote(open[i])
    requires |n| <= 6 && AttributeName(n) && |m| <= 6 && AttributeName(m)
    ensures !Contains(Element(open, Attr(n, v) + " " + Attr(m, w)), t)
  {
    TwoAttributesNoMarker(n, v, m, w, t);
    ElementNoMarker(open, Attr(n, v) + " " + Attr(m, w), t);
  }

  lemma DriverNoMarker(t: string)
    requires IsMarker(t)
    ensures !Contains(DriverElement("raw"), t)
  {
    QemuText();
    ElementOfTwoNoMarker("<driver", "name", "qemu", "type", "raw", t);
  }

  lemma SourceNoMarker(pool: string, vol: string, t: string)
    requires IsMarker(t) && pool != "" && vol != ""
    ensures !Contains(SourceElement(DriveVolume(pool, vol)), t)
  {
    ElementOfTwoNoMarker("<source", "pool", pool, "volume", vol, t);
  }

  lemma TargetNoMarker(dev: string, bus: string, t: string)
    requires IsMarker(t)
    ensures !Contains(TargetElement(dev, bus), t)
  {
    ElementOfTwoNoMarker("<target", "dev", dev, "bus", bus, t);
  }

  lemma IndentNoMarker(indent: string, r: string, rest: string, t: string)
    requires IsMarker(t) && IsTag(r) && !Contains(indent, t) && !Contains(r, t) && !Contains(rest, t)
    ensures !Contains(indent + (r + rest), t)
  {
    FreeConcat(r, rest, t);
    FreeConcat(indent, r + rest, t);
  }

  lemma InsideNoMarker(indent: string, rd: string, rs: string, rt: string, ro: string, end: string, t: string)
    requires IsMarker(t) && IsTag(rd) && IsTag(rs) && IsTag(rt) && IsTag(ro)
    requires !Contains(indent, t) && !Contains(rd, t) && !Contains(rs, t) && !Contains(rt, t)
    requires !Contains(ro, t) && !Contains(end, t)
    ensures !Contains(indent + (rd + (indent + (rs + (indent + (rt + (indent + (ro + end))))))), t)
  {
    IndentNoMarker(indent, ro, end, t);
    IndentNoMarker(indent, rt, indent + (ro + end), t);
    IndentNoMarker(indent, rs, indent + (rt + (indent + (ro + end))), t);
    IndentNoMarker(indent, rd, indent + (rs + (indent + (rt + (indent + (ro + end))))), t);
  }

  lemma FixedNoMarker(t: string)
    requires IsMarker(t)
    ensures !Contains(READONLY_ELEMENT, t) && !Contains(INDENT, t) && !Contains("\n    ", t) && !Contains(CLOSE, t)
  {
    TextNoMarker(READONLY_ELEMENT, t);
    TextNoMarker(INDENT, t);
    TextNoMarker("\n    ", t);
    TextNoMarker(CLOSE, t);
  }

  lemma BetweenTagsNoMarker(o: string, y: string, c: string, t: string)
    requires IsMarker(t) && IsTag(o) && IsTag(c) && !Contains(o, t) && !Contains(y, t) && !Contains(c, t)
    ensures !Contains(o + y + c, t)
  {
    FreeConcat(o, y, t);
    FreeConcat(o + y, c, t);
  }

  lemma NewInsideNoMarker(pool: string, vol: string, dev: string, bus: string, t: string)
    requires IsMarker(t) && VolumeNames(pool, vol) && PlainName(dev) && PlainName(bus)
    ensures !Contains(NewInside(pool, vol, dev, bus), t)
  {
    NamesFit(pool, vol, dev, bus);
    DriverSourceFits(pool, vol);
    TargetFits(dev, bus);
    ReadonlyFits();
    DriverNoMarker(t);
    SourceNoMarker(pool, vol, t);
    TargetNoMarker(dev, bus, t);
    FixedNoMarker(t);
    InsideNoMarker(INDENT, DriverElement("raw"), SourceElement(DriveVolume(pool, vol)), TargetElement(dev, bus),
                   READONLY_ELEMENT, "\n    ", t);
  }

  lemma DriveNoMarker(pool: string, vol: string, dev: string, bus: string, t: string)
    requires IsMarker(t) && VolumeNames(pool, vol) && PlainName(dev) && PlainName(bus)
    ensures !Contains(NewDrive(pool, vol, dev, bus), t)
  {
    NewTag();
    PlainIsDiskTag(NEW_ATTS);
    CloseIsTag();
    TagNoMarker(t);
    NewInsideNoMarker(pool, vol, dev, bus, t);
    FixedNoMarker(t);
    BetweenTagsNoMarker(DRIVE_TAG, NewInside(pool, vol, dev, bus), CLOSE, t);
  }

  lemma NewNoMarker(pool: string, vol: string, dev: string, bus: string)
    requires VolumeNames(pool, vol) && PlainName(dev) && PlainName(bus)
    ensures !IsQ35(NewDrive(pool, vol, dev, bus))
  {
    BothMarkers();
    DriveNoMarker(pool, vol, dev, bus, Q35);
    DriveNoMarker(pool, vol, dev, bus, Q35_DOUBLE);
  }

  // ----- Inserting -----

  /** What the insertion needs: no drive yet, a closing devices tag, and every disk that starts in front of the last
      such tag also closed in front of it. */
  ghost predicate Insertable(s: string, pool: string, vol: string) {
    var i := LastFind(s, DEVICES);
    && i >= 0 && Settled(DISK, s[..i]) && VolumeNames(pool, vol)
    && DriveIndex(Matches(DISK, s), vol) < 0
  }

  /** The disks of the result: the new drive between those before and those behind the place. */
  lemma InsertedDisks(p: string, n: string, q: string)
    requires Settled(DISK, p) && IsBlock(DISK, n)
    ensures Matches(DISK, p + ("    " + (n + ("\n" + q)))) == Matches(DISK, p) + ([n] + Matches(DISK, q))
    ensures Matches(DISK, p + q) == Matches(DISK, p) + Matches(DISK, q)
  {
    PatternsProper();
    var z := "\n" + q;
    MatchesConcat(DISK, p, q);
    MatchesConcat(DISK, p, "    " + (n + z));
    ScanText(DISK, "    ", n + z);
    JoinPrefix("    ", Scan(DISK, n + z));
    BlockFirst(DISK, n, z);
    ScanText(DISK, "\n", q);
    JoinPrefix("\n", Scan(DISK, q));
  }

  /** The drive among the disks of the result. */
  lemma NewDriveFound(a: seq<string>, n: string, b: seq<string>, vol: string)
    requires Named(n, vol) && forall j | 0 <= j < |a| :: !IsCDROMDisk(a[j])
    ensures DriveIndex(a + ([n] + b), vol) == |a| && (a + ([n] + b))[|a|] == n
  {
    var all := a + ([n] + b);
    assert forall j | 0 <= j < |a| :: all[j] == a[j];
    OneDrive(all, vol, |a|);
  }

  lemma NewDriveBuses(a: seq<string>, n: string, b: seq<string>, buses: set<string>)
    requires IsCDROMDisk(n)
    ensures UsesBus(a + ([n] + b), buses) <==> UsesBus(a + b, buses)
  {
    assert forall x :: x in a + ([n] + b) <==> x in a + b || x == n;
  }

  lemma BlanksNoMarker(s: string)
    requires AllSpace(s)
    ensures !IsQ35(s)
  {
    BothMarkers();
    TextNoMarker(s, Q35);
    TextNoMarker(s, Q35_DOUBLE);
  }

  lemma NewMarker(p: string, n: string, q: string)
    requires !IsQ35(n) && n != [] && n[0] == '<' && (q == [] || q[0] == '<')
    ensures IsQ35(p + ("    " + (n + ("\n" + q)))) <==> IsQ35(p + q)
  {
    Q35Concat(p, q);
    Q35Concat(p, "    " + (n + ("\n" + q)));
    Q35Concat("    ", n + ("\n" + q));
    Q35Concat(n, "\n" + q);
    Q35Concat("\n", q);
    BlanksNoMarker("    ");
    BlanksNoMarker("\n");
  }

  /** What an insertion does: a finished drive among the disks. */
  lemma DriveInserted(s: string, pool: string, vol: string) returns (p: string, n: string, q: string)
    requires Insertable(s, pool, vol)
    ensures s == p + q && q != [] && q[0] == '<'
    ensures Driven(s, pool, vol) == Some(p + ("    " + (n + ("\n" + q))))
    ensures Matches(DISK, s) == Matches(DISK, p) + Matches(DISK, q)
    ensures Matches(DISK, Driven(s, pool, vol).value) == Matches(DISK, p) + ([n] + Matches(DISK, q))
    ensures var t := ResolvedTarget(s, vol); n == NewDrive(pool, vol, t.0, t.1) && PlainName(t.0) && PlainName(t.1)
    ensures Named(n, vol) && n[0] == '<' && DiskTargetDev(n) == ResolvedTarget(s, vol).0
    ensures DiskTargetBus(n) == ResolvedTarget(s, vol).1
    ensures PatchDriveBlock(n, pool, vol, ResolvedTarget(s, vol).0, ResolvedTarget(s, vol).1) == Some(n)
  {
    var i := LastFind(s, DEVICES);
    p, q := s[..i], s[i..];
    assert s == p + q && q[0] == DEVICES[0];
    var (dev, bus) := ResolvedTarget(s, vol);
    TargetIsPlain(s, vol);
    NewDriveFacts(pool, vol, dev, bus);
    n := NewDrive(pool, vol, dev, bus);
    InsertedDisks(p, n, q);
    BlockEnds(n);
  }

  lemma DriveAmong(s: string, p: string, n: string, q: string, vol: string)
    requires Matches(DISK, s) == Matches(DISK, p) + Matches(DISK, q) && DriveIndex(Matches(DISK, s), vol) < 0 && Named(n, vol)
    ensures
      var all := Matches(DISK, p) + ([n] + Matches(DISK, q));
      DriveIndex(all, vol) == |Matches(DISK, p)| && all[|Matches(DISK, p)|] == n
    ensures forall buses :: UsesBus(Matches(DISK, p) + ([n] + Matches(DISK, q)), buses) <==> UsesBus(Matches(DISK, s), buses)
  {
    var a, b := Matches(DISK, p), Matches(DISK, q);
    assert forall j | 0 <= j < |a| :: a[j] == Matches(DISK, s)[j];
    NewDriveFound(a, n, b, vol);
    forall buses ensures UsesBus(a + ([n] + b), buses) <==> UsesBus(Matches(DISK, s), buses) {
      NewDriveBuses(a, n, b, buses);
    }
  }

  /** The new drive is found again with the target it was given. */
  lemma ResolvesInserted(s: string, pool: string, vol: string)
    requires Insertable(s, pool, vol)
    ensures Driven(s, pool, vol).Some?
    ensures ResolvedTarget(Driven(s, pool, vol).value, vol) == ResolvedTarget(s, vol)
  {
    var p, n, q := DriveInserted(s, pool, vol);
    var t := ResolvedTarget(s, vol);
    TargetIsPlain(s, vol);
    DriveAmong(s, p, n, q, vol);
    NewNoMarker(pool, vol, t.0, t.1);
    NewMarker(p, n, q);
    SameBus(s, Driven(s, pool, vol).value);
  }

  lemma SameBus(s: string, s': string)
    requires IsQ35(s) <==> IsQ35(s')
    requires forall buses :: UsesBus(Matches(DISK, s'), buses) <==> UsesBus(Matches(DISK, s), buses)
    ensures PreferredBus(s') == PreferredBus(s)
  {
    var before, after := Matches(DISK, s), Matches(DISK, s');
    assert UsesBus(after, {"virtio", "sata"}) <==> UsesBus(before, {"virtio", "sata"});
    assert UsesBus(after, {"ide"}) <==> UsesBus(before, {"ide"});
  }

  lemma {:induction false} DrivesConcat(a: seq<string>, b: seq<string>)
    ensures Drives(a + b) == Drives(a) + Drives(b)
  {
    if b == [] {
      assert a + b == a;
    } else {
      var n := |b| - 1;
      assert (a + b)[..|a + b| - 1] == a + b[..n];
      DrivesConcat(a, b[..n]);
    }
  }

  lemma {:induction false} NoDrives(bs: seq<string>)
    requires forall j | 0 <= j < |bs| :: !IsCDROMDisk(bs[j])
    ensures Drives(bs) == 0
  {
    if bs != [] {
      NoDrives(bs[..|bs| - 1]);
    }
  }

  lemma OneDriveMore(a: seq<string>, n: string, b: seq<string>)
    requires IsCDROMDisk(n)
    ensures Drives(a + ([n] + b)) == Drives(a + b) + 1
  {
    DrivesConcat(a, b);
    DrivesConcat(a, [n] + b);
    DrivesConcat([n], b);
    assert [n][..0] == [];
  }

  /** A domain whose drive already is what patching makes of it stays as it is. */
  lemma PatchedAlready(s: string, pool: string, vol: string, n: string)
    requires
      var k := DriveIndex(Matches(DISK, s), vol);
      k >= 0 && Matches(DISK, s)[k] == n
    requires PatchDriveBlock(n, pool, vol, ResolvedTarget(s, vol).0, ResolvedTarget(s, vol).1) == Some(n)
    ensures Driven(s, pool, vol) == Some(s)
  {
    AroundBlock(Scan(DISK, s), DriveIndex(Matches(DISK, s), vol), n);
    JoinScan(DISK, s);
  }

  /** Inserting adds exactly one drive, and doing it again changes nothing. */
  lemma InsertTwice(s: string, pool: string, vol: string)
    requires Insertable(s, pool, vol)
    ensures Driven(s, pool, vol).Some?
    ensures Driven(Driven(s, pool, vol).value, pool, vol) == Driven(s, pool, vol)
    ensures Drives(Matches(DISK, s)) == 0 && Drives(Matches(DISK, Driven(s, pool, vol).value)) == 1
  {
    var p, n, q := DriveInserted(s, pool, vol);
    DriveAmong(s, p, n, q, vol);
    ResolvesInserted(s, pool, vol);
    PatchedAlready(Driven(s, pool, vol).value, pool, vol, n);
    NoDrives(Matches(DISK, s));
    OneDriveMore(Matches(DISK, p), n, Matches(DISK, q));
  }

  // ----- Target names -----

  /** No two disks share a target name, whatever its case. */
  ghost predicate DistinctTargets(bs: seq<string>) {
    forall i, j | 0 <= i < j < |bs| && DiskTargetDev(bs[i]) != "" && DiskTargetDev(bs[j]) != "" ::
      Lower(DiskTargetDev(bs[i])) != Lower(DiskTargetDev(bs[j]))
  }

  /** Some name on the preferred bus is not in use. */
  predicate NameFree(s: string) {
    exists c | c in Candidates(PreferredBus(s)) :: c !in UsedDevs(Matches(DISK, s))
  }

  lemma FreshTarget(s: string, vol: string, j: nat)
    requires NameFree(s) && j < |Matches(DISK, s)| && DiskTargetDev(Matches(DISK, s)[j]) != ""
    ensures
      var bs := Matches(DISK, s);
      var k := DriveIndex(bs, vol);
      || (k >= 0 && ResolvedTarget(s, vol).0 == DiskTargetDev(bs[k]))
      || Lower(ResolvedTarget(s, vol).0) != Lower(DiskTargetDev(bs[j]))
  {
    var bs := Matches(DISK, s);
    var bus := PreferredBus(s);
    CandidateIsPlain(bus, NextTargetDev(bus, UsedDevs(bs)));
    assert bs[j] in bs;
    assert Lower(DiskTargetDev(bs[j])) in UsedDevs(bs);
  }

  /** Target names stay pairwise different, whether a drive is edited or added. */
  lemma TargetsStayDistinct(s: string, pool: string, vol: string)
    requires Editable(s, pool, vol) || Insertable(s, pool, vol)
    requires DistinctTargets(Matches(DISK, s)) && NameFree(s)
    ensures Driven(s, pool, vol).Some? && DistinctTargets(Matches(DISK, Driven(s, pool, vol).value))
  {
    var bs := Matches(DISK, s);
    forall j | 0 <= j < |bs| && DiskTargetDev(bs[j]) != ""
      ensures || (DriveIndex(bs, vol) >= 0 && ResolvedTarget(s, vol).0 == DiskTargetDev(bs[DriveIndex(bs, vol)]))
              || Lower(ResolvedTarget(s, vol).0) != Lower(DiskTargetDev(bs[j]))
    {
      FreshTarget(s, vol, j);
    }
    if Editable(s, pool, vol) {
      var k, c := Edited(s, pool, vol);
      ExchangedDistinct(bs, k, c);
    } else {
      var p, n, q := DriveInserted(s, pool, vol);
      InsertedDistinct(Matches(DISK, p), n, Matches(DISK, q));
    }
  }

  lemma ExchangedDistinct(bs: seq<string>, k: nat, c: string)
    requires DistinctTargets(bs) && k < |bs|
    requires forall j | 0 <= j < |bs| && DiskTargetDev(bs[j]) != "" ::
               DiskTargetDev(c) == DiskTargetDev(bs[k]) || Lower(DiskTargetDev(c)) != Lower(DiskTargetDev(bs[j]))
    ensures DistinctTargets(bs[k := c])
  {
  }

  lemma InsertedDistinct(a: seq<string>, n: string, b: seq<string>)
    requires DistinctTargets(a + b)
    requires forall j | 0 <= j < |a + b| && DiskTargetDev((a + b)[j]) != "" ::
               Lower(DiskTargetDev(n)) != Lower(DiskTargetDev((a + b)[j]))
    ensures DistinctTargets(a + ([n] + b))
  {
    var old_, all := a + b, a + ([n] + b);
    forall i, j | 0 <= i < j < |all| && DiskTargetDev(all[i]) != "" && DiskTargetDev(all[j]) != ""
      ensures Lower(DiskTargetDev(all[i])) != Lower(DiskTargetDev(all[j]))
    {
      var i' := if i <= |a| then i else i - 1;
      var j' := if j <= |a| then j else j - 1;
      assert i != |a| ==> all[i] == old_[i'];
      assert j != |a| ==> all[j] == old_[j'];
    }
  }
}
