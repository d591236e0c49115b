/** A domain that boots from two disks after its boot disk has been patched twice. */
module BootExample {
  import opened Outcomes
  import opened Text
  import opened XmlScan
  import opened XmlClean
  import opened XmlAttributes
  import opened XmlSetAttribute
  import opened XmlRewrite
  import opened XmlPairs
  import opened DiskBlock
  import opened OsBoot
  import opened BootOrder
  import opened BootDisk
  import opened BootTwice
  import opened PlainTag
  import opened DriveBlock
  import opened DriveExample
  import DriveRead
  import opened ConfigDrive

  // ----- A disk whose driver says it is one, and whose target says it is a cdrom -----

  function Two(a: Att, b: Att): string {
    Attribute(a.name, a.quote, a.value) + " " + Attribute(b.name, b.quote, b.value)
  }

  const FILE_ATTS := [Att(" ", "type", '\'', "file")]
  const QEMU := Att(" ", "name", '\'', "qemu")
  const DISK_ATT := Att(" ", "device", '\'', "disk")
  const VDA := Att(" ", "dev", '\'', "vda")
  const CDROM_ATT := Att(" ", "device", '\'', "cdrom")
  const OLD_DRIVER := Element("<driver", Two(QEMU, DISK_ATT))
  const CDROM_TARGET := Element("<target", Two(VDA, CDROM_ATT))
  const MISLEADING := DiskTag(FILE_ATTS) + (OLD_DRIVER + CDROM_TARGET) + CLOSE

  /** A volume whose names can be read back as they were written. */
  predicate PlainVolume(v: Volume) {
    && NameText(v.format) && '=' !in v.format && RefFree(v.format)
    && NameText(v.pool) && '=' !in v.pool && RefFree(v.pool) && v.pool != ""
    && NameText(v.name) && '=' !in v.name && RefFree(v.name) && v.name != ""
  }

  lemma AttsPlain()
    ensures PlainAtt(QEMU) && PlainAtt(DISK_ATT) && PlainAtt(VDA) && PlainAtt(CDROM_ATT) && PlainAtts(FILE_ATTS)
  {
    var file := Att(" ", "type", '\'', "file");
    assert PlainAtt(file);
    assert FILE_ATTS == [file];
  }

  lemma TwoNoAngle(a: Att, b: Att)
    requires PlainAtt(a) && PlainAtt(b)
    ensures NoAngle(Two(a, b))
  {
    AttributeNoAngle(a.name, a.quote, a.value);
    AttributeNoAngle(b.name, b.quote, b.value);
    PairNoAngle(Attribute(a.name, a.quote, a.value), Attribute(b.name, b.quote, b.value));
  }

  lemma OldElements()
    ensures IsTag(OLD_DRIVER) && Fits(DRIVER, OLD_DRIVER) && IsTag(CDROM_TARGET) && Fits(TARGET, CDROM_TARGET)
  {
    AttsPlain();
    TwoNoAngle(QEMU, DISK_ATT);
    TwoNoAngle(VDA, CDROM_ATT);
    ElementFits("<driver", Two(QEMU, DISK_ATT));
    ElementFits("<target", Two(VDA, CDROM_ATT));
  }

  // ----- Which device is read -----

  /** The name of an element other than `device` does not start the attribute. */
  lemma ReadOpen(open: string, z: string)
    requires open in {"<driver", "<source", "<target"}
    ensures ValueIn(open + z, "device", false) == ValueIn(z, "device", true)
  {
    OpenQuiet(open, z, '\'');
    OpenQuiet(open, z, '"');
    ReadQuiet(open, z, "device", false);
  }

  lemma OpenQuiet(open: string, z: string, q: char)
    requires open in {"<driver", "<source", "<target"} && Quote(q)
    ensures Quiet(open, z, "device", q, false)
  {
    var w := open[1..];
    NotHere(open + z, "device", q);
    CharAt(Token("device", q), w + z, 0);
    CharAt(Token("device", q), w + z, 1);
    assert (w + z)[0] == open[1] && (w + z)[1] == open[2];
    assert w[1..] == open[2..];
    QuietWord(w[1..], z, "device", q);
  }

  lemma ReadEnd(z: string)
    ensures ValueIn("/>" + z, "device", false) == ValueIn(z, "device", false)
  {
    EndQuiet(z, '\'');
    EndQuiet(z, '"');
    ReadQuiet("/>", z, "device", false);
  }

  lemma EndQuiet(z: string, q: char)
    requires Quote(q)
    ensures Quiet("/>", z, "device", q, false)
  {
    QuietOne('/', ">" + z, "device", q, false);
    QuietOne('>', z, "device", q, false);
    QuietConcat("/", ">", z, "device", q, false);
    assert "/" + ">" == "/>";
  }

  /** The device an element with two attributes names, or else what follows. */
  lemma ReadElement(open: string, a: Att, b: Att, z: string)
    requires open in {"<driver", "<source", "<target"} && PlainAtt(a) && PlainAtt(b) && a.space == b.space == " "
    ensures
      ValueIn(Element(open, Two(a, b)) + z, "device", false) ==
      if a.name == "device" then a.value else if b.name == "device" then b.value else ValueIn(z, "device", false)
  {
    var second := " " + Attribute(b.name, b.quote, b.value) + ("/>" + z);
    ElementPieces(open, Attribute(a.name, a.quote, a.value), Attribute(b.name, b.quote, b.value), z);
    ReadOpen(open, " " + Attribute(a.name, a.quote, a.value) + second);
    ReadSpaced(a, second, true);
    ReadSpaced(b, "/>" + z, false);
    ReadEnd(z);
  }

  lemma ReadSpaced(a: Att, z: string, word: bool)
    requires PlainAtt(a) && a.space == " "
    ensures
      ValueIn(" " + Attribute(a.name, a.quote, a.value) + z, "device", word) ==
      if a.name == "device" then a.value else ValueIn(z, "device", false)
  {
    DriveTexts();
    ReadFirstAttribute(a, z, "device", word);
  }

  lemma NotDevice()
    ensures "name" != "device" && "type" != "device" && "pool" != "device" && "volume" != "device" && "dev" != "device"
  {
    assert "name"[0] != "device"[0] && "type"[0] != "device"[0] && "pool"[0] != "device"[0] && "volume"[0] != "device"[0];
    assert |"dev"| != |"device"|;
  }

  /** Two elements that name no device, in front of one that does. */
  lemma ReadThird(d1: Att, d2: Att, s1: Att, s2: Att, t1: Att, t2: Att, z: string)
    requires PlainAtt(d1) && PlainAtt(d2) && PlainAtt(s1) && PlainAtt(s2) && PlainAtt(t1) && PlainAtt(t2)
    requires d1.space == d2.space == s1.space == s2.space == t1.space == t2.space == " "
    requires d1.name != "device" && d2.name != "device" && s1.name != "device" && s2.name != "device"
    requires t1.name != "device" && t2.name == "device"
    ensures
      ValueIn(Element("<driver", Two(d1, d2)) + (INDENT + (Element("<source", Two(s1, s2)) +
        (Element("<target", Two(t1, t2)) + z))), "device", false) == t2.value
  {
    var t := Element("<target", Two(t1, t2)) + z;
    var s := Element("<source", Two(s1, s2)) + t;
    ReadElement("<driver", d1, d2, INDENT + s);
    ReadIndent(s);
    ReadElement("<source", s1, s2, t);
    ReadElement("<target", t1, t2, z);
  }

  lemma ElementPieces(open: string, a: string, b: string, z: string)
    ensures Element(open, a + " " + b) + z == open + (" " + a + (" " + b + ("/>" + z)))
  {
  }

  lemma ReadIndent(z: string)
    ensures ValueIn(INDENT + z, "device", false) == ValueIn(z, "device", false)
  {
    QuietSpace(INDENT, z, "device", '\'', false);
    QuietSpace(INDENT, z, "device", '"', false);
    ReadQuiet(INDENT, z, "device", false);
  }

  /** A disk tag that names no device leaves it to what follows. */
  lemma ReadTag(atts: seq<Att>, z: string)
    requires PlainAtts(atts) && !Has(atts, "device") && atts != []
    ensures ValueIn(DiskTag(atts) + z, "device", false) == ValueIn(z, "device", false)
  {
    var rest := ">" + z;
    assert DiskTag(atts) + z == "<disk" + (Render(atts) + rest);
    QuietDisk(Render(atts) + rest, "device", '\'');
    QuietDisk(Render(atts) + rest, "device", '"');
    ReadQuiet("<disk", Render(atts) + rest, "device", false);
    ReadList(atts, rest, "device", true);
    QuietOne('>', z, "device", '\'', false);
    QuietOne('>', z, "device", '"', false);
    ReadQuiet(">", z, "device", false);
  }

  // ----- The misleading disk, before and after -----

  lemma MisleadingShape()
    ensures IsDiskTag(DiskTag(FILE_ATTS)) && Clean(OLD_DRIVER + CDROM_TARGET)
    ensures TagsOf(OLD_DRIVER + CDROM_TARGET) == [OLD_DRIVER] + [CDROM_TARGET]
    ensures IsBlock(DISK, MISLEADING)
  {
    AttsPlain();
    PlainIsDiskTag(FILE_ATTS);
    OldElements();
    OneTag(CDROM_TARGET);
    TagFirst(OLD_DRIVER, CDROM_TARGET);
    TagsOfTag(OLD_DRIVER, CDROM_TARGET);
    NoEnd([OLD_DRIVER] + [CDROM_TARGET]);
    assert BlockOf(DISK, DiskTag(FILE_ATTS), OLD_DRIVER + CDROM_TARGET);
  }

  lemma NoEnd(tags: seq<string>)
    requires forall i | 0 <= i < |tags| :: |tags[i]| > 1 && tags[i][1] != '/'
    ensures Select(END, tags) == []
  {
    forall i | 0 <= i < |tags| ensures tags[i] != CLOSE {
      assert CLOSE[1] == '/';
    }
    NothingElse(CLOSE, tags);
  }

  lemma FileTag()
    ensures !Has(FILE_ATTS, "device") && !Has(SetAtt(FILE_ATTS, "type", "volume"), "device")
    ensures PlainAtts(SetAtt(FILE_ATTS, "type", "volume")) && SetAtt(FILE_ATTS, "type", "volume") != []
    ensures SetAttribute(DiskTag(FILE_ATTS), "type", "volume") == DiskTag(SetAtt(FILE_ATTS, "type", "volume"))
  {
    AttsPlain();
    DriveTexts();
    SetOnPlain(FILE_ATTS, "type", "volume");
    SetKeepsPlain(FILE_ATTS, "type", "volume");
    assert "type"[0] != "device"[0];
  }

  lemma MisleadingBefore()
    ensures AttributeValue(MISLEADING, "device") == "disk" && IsBootDiskCandidate(MISLEADING)
  {
    AttsPlain();
    FileTag();
    var z := CDROM_TARGET + CLOSE;
    BeforePieces(DiskTag(FILE_ATTS), OLD_DRIVER, CDROM_TARGET, CLOSE);
    ReadTag(FILE_ATTS, OLD_DRIVER + z);
    NotDevice();
    ReadElement("<driver", QEMU, DISK_ATT, z);
    DiskIsDisk();
  }

  lemma DiskIsDisk()
    ensures Lower("disk") == "disk" && Lower("cdrom") != "disk" && "cdrom" != ""
  {
    assert Lower("cdrom")[0] == 'c';
  }

  lemma BeforePieces(o: string, d: string, t: string, c: string)
    ensures o + (d + t) + c == o + (d + (t + c))
  {
  }

  lemma Replaced1(p: Pattern, r: string, m: string, z: string)
    requires !p.Paired? && Proper(p) && IsTag(m) && Fits(p, m) && Scan(p, z) == Tail(z) && NoReference(r)
    ensures Inside(p, r, [], m + z) == r + z
  {
    ScanTag(p, m, z);
    SubstituteOne(r, m, z);
  }

  lemma SubstituteOne(r: string, m: string, z: string)
    requires NoReference(r)
    ensures Substitute(r, Next([], m, Tail(z))) == r + z
  {
    ExpandSame(r, [m]);
    assert [] + r + z == r + z;
  }

  lemma NotIn(p: Pattern, t: string)
    requires !p.Paired? && IsTag(t) && !Fits(p, t)
    ensures Scan(p, t) == Tail(t)
  {
    ScanTag(p, t, []);
    Nothing(t);
  }

  /** A new element goes behind the only element of the anchor. */
  lemma Inserted1(p: Pattern, r: string, a: Pattern, more: seq<Pattern>, u: string, t: string, z: string)
    requires !p.Paired? && !a.Paired? && IsTag(t) && Fits(a, t) && !Fits(p, t)
    requires forall w :: Scan(p, u + w) == Prefix(u, Scan(p, w))
    requires forall w :: Scan(a, u + w) == Prefix(u, Scan(a, w))
    requires Scan(p, z) == Tail(z)
    ensures Inside(p, r, [a] + more, u + (t + z)) == u + t + INDENT + r + z
  {
    ScanTag(p, t, z);
    ScanTag(a, t, z);
    JoinScan(a, z);
    assert u + [] == u;
    assert ([a] + more)[0] == a;
  }

  /** What patching leaves between the tags of the misleading disk. */
  lemma MisleadingInside(v: Volume)
    requires NoReferences(v)
    ensures
      var d, s := DriverElement(v.format), SourceElement(v);
      PatchInside(OLD_DRIVER + CDROM_TARGET, v) == d + (INDENT + (s + (CDROM_TARGET + (INDENT + BOOT_ELEMENT))))
  {
    ElementsFit(v);
    ElementsPlain(v);
    OldElements();
    InsideSteps(OLD_DRIVER, CDROM_TARGET, DriverElement(v.format), SourceElement(v));
  }

  lemma InsideSteps(m: string, t: string, d: string, s: string)
    requires IsTag(m) && Fits(DRIVER, m) && IsTag(t) && Fits(TARGET, t)
    requires IsTag(d) && Fits(DRIVER, d) && NoReference(d) && IsTag(s) && Fits(SOURCE, s)
    ensures
      Inside(BOOT, BOOT_ELEMENT, [TARGET, DRIVER], Inside(SOURCE, s, [DRIVER], Inside(DRIVER, d, [], m + t))) ==
      d + (INDENT + (s + (t + (INDENT + BOOT_ELEMENT))))
  {
    PatternsProper();
    PatternsApart();
    OnlyFits(TARGET, DRIVER, t);
    OnlyFits(TARGET, SOURCE, t);
    NotIn(DRIVER, t);
    Replaced1(DRIVER, d, m, t);
    SourceStep(t, d, s);
    BootStep(t, d, s);
    StepPieces(d, s, t);
  }

  lemma StepPieces(d: string, s: string, t: string)
    ensures d + INDENT + s + t == d + INDENT + s + (t + [])
    ensures d + INDENT + s + t + INDENT + BOOT_ELEMENT + [] == d + (INDENT + (s + (t + (INDENT + BOOT_ELEMENT))))
  {
  }

  lemma SourceStep(t: string, d: string, s: string)
    requires IsTag(t) && Fits(TARGET, t) && IsTag(d) && Fits(DRIVER, d)
    ensures Inside(SOURCE, s, [DRIVER], d + t) == d + INDENT + s + t
  {
    PatternsApart();
    OnlyFits(TARGET, SOURCE, t);
    OnlyFits(DRIVER, SOURCE, d);
    NotIn(SOURCE, t);
    forall w ensures Scan(SOURCE, [] + w) == Prefix([], Scan(SOURCE, w)) {
      NothingInFront(SOURCE, w);
    }
    forall w ensures Scan(DRIVER, [] + w) == Prefix([], Scan(DRIVER, w)) {
      NothingInFront(DRIVER, w);
    }
    Inserted1(SOURCE, s, DRIVER, [], [], d, t);
    assert [DRIVER] + [] == [DRIVER] && [] + (d + t) == d + t && [] + d == d;
  }

  lemma NothingInFront(p: Pattern, w: string)
    ensures Scan(p, [] + w) == Prefix([], Scan(p, w))
  {
    assert [] + w == w;
    PrefixNothing(Scan(p, w));
  }

  lemma {:induction false} PassThree(p: Pattern, d: string, s: string, w: string)
    requires !p.Paired? && IsTag(d) && IsTag(s) && !Fits(p, d) && !Fits(p, s)
    ensures Scan(p, d + INDENT + s + w) == Prefix(d + INDENT + s, Scan(p, w))
  {
    ThreePieces(d, s, w);
    ScanBehind(p, s, w);
    ScanTag(p, d, INDENT + s + w);
    PrefixTwice(d, INDENT + s, Scan(p, w));
  }

  lemma ThreePieces(d: string, s: string, w: string)
    ensures d + INDENT + s + w == d + (INDENT + s + w) && d + INDENT + s == d + (INDENT + s)
  {
  }

  lemma BootStep(t: string, d: string, s: string)
    requires IsTag(t) && Fits(TARGET, t) && IsTag(d) && Fits(DRIVER, d) && IsTag(s) && Fits(SOURCE, s)
    ensures
      Inside(BOOT, BOOT_ELEMENT, [TARGET, DRIVER], d + INDENT + s + (t + [])) ==
      d + INDENT + s + t + INDENT + BOOT_ELEMENT + []
  {
    PatternsApart();
    BootApart(t, d, s);
    OnlyFits(DRIVER, TARGET, d);
    OnlyFits(SOURCE, TARGET, s);
    forall w ensures Scan(BOOT, d + INDENT + s + w) == Prefix(d + INDENT + s, Scan(BOOT, w))
      && Scan(TARGET, d + INDENT + s + w) == Prefix(d + INDENT + s, Scan(TARGET, w)) {
      PassThree(BOOT, d, s, w);
      PassThree(TARGET, d, s, w);
    }
    Inserted1(BOOT, BOOT_ELEMENT, TARGET, [DRIVER], d + INDENT + s, t, []);
    assert [TARGET] + [DRIVER] == [TARGET, DRIVER];
  }

  lemma BootApart(t: string, d: string, s: string)
    requires IsTag(t) && Fits(TARGET, t) && Fits(DRIVER, d) && Fits(SOURCE, s)
    ensures !Fits(BOOT, t) && !Fits(BOOT, d) && !Fits(BOOT, s)
  {
    PatternsApart();
    OnlyFits(DRIVER, BOOT, d);
    if Fits(BOOT, t) {
      ApartNeverBoth(BOOT, TARGET, t);
    }
    if Fits(BOOT, s) {
      ApartNeverBoth(BOOT, SOURCE, s);
    }
  }

  lemma NewElements(v: Volume)
    requires PlainVolume(v)
    ensures NoReferences(v)
    ensures DriverElement(v.format) == Element("<driver", Two(QEMU, Att(" ", "type", '\'', v.format)))
    ensures SourceElement(v) == Element("<source", Two(Att(" ", "pool", '\'', v.pool), Att(" ", "volume", '\'', v.name)))
    ensures PlainAtt(Att(" ", "type", '\'', v.format)) && PlainAtt(Att(" ", "pool", '\'', v.pool))
    ensures PlainAtt(Att(" ", "volume", '\'', v.name))
  {
    NameIsItself(v.format);
    NameIsItself(v.pool);
    NameIsItself(v.name);
    DriveRead.AttrText("type", v.format);
    DriveRead.AttrText("pool", v.pool);
    DriveRead.AttrText("volume", v.name);
    assert "name='qemu'" == Attribute("name", '\'', "qemu");
  }

  lemma MisleadingPatched(v: Volume)
    requires NoReferences(v)
    ensures
      var d, s, atts := DriverElement(v.format), SourceElement(v), SetAtt(FILE_ATTS, "type", "volume");
      PatchDiskBlock(MISLEADING, v) ==
      Some(DiskTag(atts) + (d + (INDENT + (s + (CDROM_TARGET + (INDENT + BOOT_ELEMENT + CLOSE))))))
  {
    MisleadingShape();
    PatchForm(DiskTag(FILE_ATTS), OLD_DRIVER + CDROM_TARGET, v);
    MisleadingInside(v);
    FileTag();
    AfterPieces(DiskTag(SetAtt(FILE_ATTS, "type", "volume")), DriverElement(v.format), SourceElement(v), CDROM_TARGET,
                BOOT_ELEMENT, CLOSE);
  }

  /** Once patched, the disk counts as a cdrom. */
  lemma MisleadingAfter(v: Volume)
    requires PlainVolume(v)
    ensures PatchDiskBlock(MISLEADING, v).Some? && !IsBootDiskCandidate(PatchDiskBlock(MISLEADING, v).value)
  {
    NewElements(v);
    MisleadingPatched(v);
    var d, s, atts := DriverElement(v.format), SourceElement(v), SetAtt(FILE_ATTS, "type", "volume");
    var last := INDENT + BOOT_ELEMENT + CLOSE;
    AttsPlain();
    FileTag();
    ReadTag(atts, d + (INDENT + (s + (CDROM_TARGET + last))));
    NotDevice();
    ReadThird(QEMU, Att(" ", "type", '\'', v.format), Att(" ", "pool", '\'', v.pool), Att(" ", "volume", '\'', v.name),
              VDA, CDROM_ATT, last);
    DiskIsDisk();
  }

  lemma AfterPieces(o: string, d: string, s: string, t: string, b: string, c: string)
    ensures o + (d + (INDENT + (s + (t + (INDENT + b))))) + c == o + (d + (INDENT + (s + (t + (INDENT + b + c)))))
  {
  }

  // ----- The domain -----

  function TwoBoots(): Doc {
    Next(OPEN, MISLEADING, Next([], IDE_DISK, Tail(DEVICES)))
  }

  lemma NoOsTag(t: string)
    requires |t| > 1 && t[1] != 'o'
    ensures !Opens(t, "<os")
  {
    NotOpening(t, "<os");
  }

  lemma BlockTags(o: string, x: string)
    requires IsDiskTag(o) && Clean(x) && forall t | t in TagsOf(x) :: |t| > 1 && t[1] != 'o'
    ensures NoOpens("<os", TagsOf(o + x + CLOSE))
  {
    CloseIsTag();
    TagBeforeTag(o, x, CLOSE);
    Assoc(o, x, CLOSE);
    DiskIsNotOs(o);
    forall i | 0 <= i < |TagsOf(x)| ensures !Opens(TagsOf(x)[i], "<os") {
      NoOsTag(TagsOf(x)[i]);
    }
    InsideOpens("<os", o, TagsOf(x), CLOSE);
  }

  lemma NoOrder(o: string, x: string)
    requires IsDiskTag(o) && Clean(x) && forall t | t in TagsOf(x) :: |t| > 1 && t[1] != 'b'
    ensures DiskBootOrder(o + x + CLOSE) == 0
  {
    OrderOfBlock(o, x);
    NoneOrdered(TagsOf(x));
  }

  lemma {:induction false} NoneOrdered(tags: seq<string>)
    requires forall t | t in tags :: |t| > 1 && t[1] != 'b'
    ensures FirstOrder(tags) == None
  {
    if tags != [] {
      NotBoot(tags[0]);
      NoneOrdered(tags[1..]);
    }
  }

  /** A disk whose elements set no order and are no <os>. */
  lemma OrdinaryDisk(o: string, x: string)
    requires IsDiskTag(o) && Clean(x) && forall t | t in TagsOf(x) :: |t| > 1 && t[1] in "dt"
    ensures NoOpens("<os", TagsOf(o + x + CLOSE)) && DiskBootOrder(o + x + CLOSE) == 0
  {
    BlockTags(o, x);
    NoOrder(o, x);
  }

  lemma TwoElementDisk(o: string, d: string, t: string)
    requires IsDiskTag(o) && IsTag(d) && IsTag(t) && |d| > 1 && d[1] == 'd' && |t| > 1 && t[1] == 't'
    ensures var b := o + (d + t) + CLOSE; NoOpens("<os", TagsOf(b)) && DiskBootOrder(b) == 0
  {
    OneTag(t);
    TagFirst(d, t);
    TagsOfTag(d, t);
    OrdinaryDisk(o, d + t);
  }

  lemma MisleadingDisk()
    ensures IsBlock(DISK, MISLEADING) && NoOpens("<os", TagsOf(MISLEADING)) && DiskBootOrder(MISLEADING) == 0
  {
    MisleadingShape();
    OldElements();
    SecondLetters();
    TwoElementDisk(DiskTag(FILE_ATTS), OLD_DRIVER, CDROM_TARGET);
  }

  lemma SecondLetters()
    ensures |OLD_DRIVER| > 1 && OLD_DRIVER[1] == 'd' && |CDROM_TARGET| > 1 && CDROM_TARGET[1] == 't'
    ensures |TargetElement("hdb", "ide")| > 1 && TargetElement("hdb", "ide")[1] == 't'
  {
  }

  /** A disk with a target and nothing else is not patched for any volume. */
  lemma TargetOnly(o: string, t: string, v: Volume)
    requires IsDiskTag(o) && IsTag(t) && Fits(TARGET, t) && |t| > 1 && t[1] == 't'
    ensures var b := o + t + CLOSE; NoOpens("<os", TagsOf(b)) && DiskBootOrder(b) == 0 && !AlreadyPatched(b, v)
  {
    OneTag(t);
    OrdinaryDisk(o, t);
    PatternsApart();
    OnlyFits(TARGET, SOURCE, t);
    InsideIs(o, t);
    NothingSelected(SOURCE, t);
  }

  lemma InsideIs(o: string, x: string)
    requires IsDiskTag(o)
    ensures InsideOf(o + x + CLOSE) == x
  {
    Retagged(o, o, x);
    assert (o + x + CLOSE)[|o|..|o| + |x|] == x;
  }

  lemma NothingSelected(p: Pattern, t: string)
    requires !Fits(p, t)
    ensures Select(p, [t]) == []
  {
    assert [t][1..] == [];
  }

  /** The other disk: candidate, without order, and not patched for any volume. */
  lemma OtherDisk(v: Volume)
    ensures IsBlock(DISK, IDE_DISK) && NoOpens("<os", TagsOf(IDE_DISK)) && DiskBootOrder(IDE_DISK) == 0
    ensures IsBootDiskCandidate(IDE_DISK) && !AlreadyPatched(IDE_DISK, v)
  {
    IdeDisk();
    DiskAttsPlain();
    TargetFits("hdb", "ide");
    SecondLetters();
    TargetOnly(DiskTag(DISK_ATTS), TargetElement("hdb", "ide"), v);
    NamesDisk(DiskTag(DISK_ATTS), TargetElement("hdb", "ide"));
  }

  lemma NamesDisk(o: string, x: string)
    requires AttributeValue(o, "device") == "disk"
    ensures IsBootDiskCandidate(o + x + CLOSE)
  {
    DeviceOf(o, x + CLOSE);
    Assoc(o, x, CLOSE);
    DiskIsDisk();
  }

  lemma OsGap(g: string)
    requires Clean(g) && forall t | t in TagsOf(g) :: |t| > 1 && t[1] != 'o'
    ensures Settled(OS, g)
  {
    forall i | 0 <= i < |TagsOf(g)| ensures !Opens(TagsOf(g)[i], "<os") {
      NoOsTag(TagsOf(g)[i]);
    }
    NoOsNothing(g);
  }

  lemma GapsApart()
    ensures Settled(OS, OPEN) && Settled(OS, []) && Settled(OS, DEVICES)
  {
    OneTag(OPEN);
    OneTag(DEVICES);
    OsGap(OPEN);
    OsGap([]);
    OsGap(DEVICES);
  }

  lemma AddDisk(g: string, b: string, d: Doc)
    requires Clean(g) && NoOpens("<disk", TagsOf(g)) && Settled(OS, g) && IsBlock(DISK, b) && NoOpens("<os", TagsOf(b))
    requires WellCut(DISK, d) && OsApart(d)
    ensures WellCut(DISK, Next(g, b, d)) && OsApart(Next(g, b, d)) && Blocks(Next(g, b, d)) == [b] + Blocks(d)
  {
  }

  lemma DomainOf(d: Doc)
    requires WellCut(DISK, d) && OsApart(d)
    ensures IsDomain(Join(d)) && Scan(DISK, Join(d)) == d
  {
    CutScanned(d);
  }

  lemma EndText(z: string)
    requires Clean(z) && NoOpens("<disk", TagsOf(z)) && Settled(OS, z)
    ensures WellCut(DISK, Tail(z)) && OsApart(Tail(z)) && Blocks(Tail(z)) == []
  {
  }

  /** Two disks between two texts. */
  lemma DomainOfTwo(g: string, a: string, m: string, b: string, z: string)
    requires Clean(g) && NoOpens("<disk", TagsOf(g)) && Settled(OS, g) && IsBlock(DISK, a) && NoOpens("<os", TagsOf(a))
    requires Clean(m) && NoOpens("<disk", TagsOf(m)) && Settled(OS, m) && IsBlock(DISK, b) && NoOpens("<os", TagsOf(b))
    requires Clean(z) && NoOpens("<disk", TagsOf(z)) && Settled(OS, z)
    ensures
      var d := Next(g, a, Next(m, b, Tail(z)));
      IsDomain(Join(d)) && Matches(DISK, Join(d)) == [a, b]
  {
    EndText(z);
    AddDisk(m, b, Tail(z));
    AddDisk(g, a, Next(m, b, Tail(z)));
    assert [a] + ([b] + []) == [a, b];
    DomainOf(Next(g, a, Next(m, b, Tail(z))));
  }

  lemma TwoBootsDomain(v: Volume)
    ensures IsDomain(Join(TwoBoots())) && Matches(DISK, Join(TwoBoots())) == [MISLEADING, IDE_DISK]
  {
    MisleadingDisk();
    OtherDisk(v);
    GapsCut();
    GapsApart();
    DomainOfTwo(OPEN, MISLEADING, [], IDE_DISK, DEVICES);
  }

  lemma FirstOfTwo(a: string, b: string)
    requires IsBootDiskCandidate(a) && DiskBootOrder(a) == 0 && DiskBootOrder(b) == 0
    ensures Selected([a, b]) == 0
  {
    var bs := [a, b];
    assert bs[0] == a && bs[1] == b;
    OneFirstMinimum(bs, 0);
  }

  lemma OnlyOne(b: string)
    requires IsBootDiskCandidate(b)
    ensures Selected([b]) == 0
  {
    assert [b][0] == b;
  }

  /** The first run points the misleading disk at the volume and makes a cdrom of it; the second run then points the
      other disk at the same volume. */
  lemma BootsFromTwoDisks(v: Volume)
    requires PlainVolume(v)
    ensures
      var s := Join(TwoBoots());
      IsDomain(s) && NoReferences(v) && Patched(s, v).Some?
    ensures PatchDiskBlock(MISLEADING, v).Some? && PatchDiskBlock(IDE_DISK, v).Some?
    ensures
      var once := Patched(Join(TwoBoots()), v).value;
      && Patched(once, v).Some? && Patched(once, v).value != once
      && Matches(DISK, Patched(once, v).value) == [PatchDiskBlock(MISLEADING, v).value, PatchDiskBlock(IDE_DISK, v).value]
  {
    NewElements(v);
    var s, b := Join(TwoBoots()), MISLEADING;
    TwoBootsDomain(v);
    MisleadingDisk();
    MisleadingBefore();
    MisleadingAfter(v);
    OtherDisk(v);
    FirstOfTwo(MISLEADING, IDE_DISK);
    PatchedBlock(IDE_DISK, v);
    SecondPatched(s, MISLEADING, IDE_DISK, v);
  }

  lemma SecondPatched(s: string, a: string, b: string, v: Volume)
    requires IsDomain(s) && NoReferences(v) && Matches(DISK, s) == [a, b] && Selected([a, b]) == 0
    requires IsBlock(DISK, a) && PatchDiskBlock(a, v).Some? && !IsBootDiskCandidate(PatchDiskBlock(a, v).value)
    requires PatchDiskBlock(b, v).Some? && IsBootDiskCandidate(b) && !AlreadyPatched(b, v)
    ensures Patched(s, v).Some?
    ensures
      var once := Patched(s, v).value;
      && Patched(once, v).Some? && Patched(once, v) != Patched(s, v)
      && Matches(DISK, Patched(once, v).value) == [PatchDiskBlock(a, v).value, PatchDiskBlock(b, v).value]
  {
    NotAgain(s, a, b, v);
    SecondRun(s, a, b, v);
  }

  lemma NotAgain(s: string, a: string, b: string, v: Volume)
    requires IsDomain(s) && NoReferences(v) && Matches(DISK, s) == [a, b] && Selected([a, b]) == 0
    requires IsBlock(DISK, a) && PatchDiskBlock(a, v).Some? && !IsBootDiskCandidate(PatchDiskBlock(a, v).value)
    requires IsBootDiskCandidate(b) && !AlreadyPatched(b, v)
    ensures Patched(s, v).Some? && Patched(Patched(s, v).value, v) != Patched(s, v)
  {
    StaysExactly(a, v);
    FirstGone(Matches(DISK, s), a, b, v);
    PatchedIsThere(s, v);
    PatchTwice(s, v);
  }

  lemma PatchedIsThere(s: string, v: Volume)
    requires Selected(Matches(DISK, s)) >= 0 && PatchDiskBlock(Matches(DISK, s)[Selected(Matches(DISK, s))], v).Some?
    ensures Patched(s, v).Some?
  {
  }

  lemma FirstGone(bs: seq<string>, a: string, b: string, v: Volume)
    requires bs == [a, b] && IsBootDiskCandidate(b) && !AlreadyPatched(b, v)
    ensures bs[0] == a
    ensures Selected(AllBut(bs, 0)) == 0 && !AlreadyPatched(AllBut(bs, 0)[0], v)
  {
    ButFirst(a, b);
    OnlyOne(b);
  }

  lemma SecondRun(s: string, a: string, b: string, v: Volume)
    requires IsDomain(s) && NoReferences(v) && Matches(DISK, s) == [a, b] && Selected([a, b]) == 0
    requires PatchDiskBlock(a, v).Some? && !IsBootDiskCandidate(PatchDiskBlock(a, v).value)
    requires PatchDiskBlock(b, v).Some? && IsBootDiskCandidate(b)
    ensures Patched(s, v).Some?
    ensures
      var once := Patched(s, v).value;
      && Patched(once, v).Some?
      && Matches(DISK, Patched(once, v).value) == [PatchDiskBlock(a, v).value, PatchDiskBlock(b, v).value]
  {
    AfterFirst(s, a, b, v);
    SecondOfTwo(PatchDiskBlock(a, v).value, b);
    ThenPatched(Patched(s, v).value, PatchDiskBlock(a, v).value, b, v);
  }

  lemma AfterFirst(s: string, a: string, b: string, v: Volume)
    requires IsDomain(s) && NoReferences(v) && Matches(DISK, s) == [a, b] && Selected([a, b]) == 0
    requires PatchDiskBlock(a, v).Some?
    ensures Patched(s, v).Some? && IsDomain(Patched(s, v).value)
    ensures Matches(DISK, Patched(s, v).value) == [PatchDiskBlock(a, v).value, b]
  {
    PatchedIsThere(s, v);
    PatchFrames(s, v);
    assert [a, b][0 := PatchDiskBlock(a, v).value] == [PatchDiskBlock(a, v).value, b];
  }

  lemma ButFirst(a: string, b: string)
    ensures AllBut([a, b], 0) == [b]
  {
  }

  lemma SecondOfTwo(a: string, b: string)
    requires !IsBootDiskCandidate(a) && IsBootDiskCandidate(b)
    ensures Selected([a, b]) == 1
  {
    ButFirst(a, b);
    OnlyOne(b);
    SelectedWithout([a, b], 0);
  }

  lemma ThenPatched(s: string, a: string, b: string, v: Volume)
    requires IsDomain(s) && NoReferences(v) && Matches(DISK, s) == [a, b] && Selected([a, b]) == 1
    requires PatchDiskBlock(b, v).Some?
    ensures Patched(s, v).Some? && Matches(DISK, Patched(s, v).value) == [a, PatchDiskBlock(b, v).value]
  {
    PatchFrames(s, v);
    assert [a, b][1 := PatchDiskBlock(b, v).value] == [a, PatchDiskBlock(b, v).value];
  }
}
