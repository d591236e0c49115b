/** patchConfigDriveBlock and configDriveDiskBlock (internal/libvirt/domain_xml.go): the disk that carries the
    configuration drive. */
module DriveBlock {
  import opened Outcomes
  import opened Text
  import opened XmlScan
  import opened XmlClean
  import opened XmlAttributes
  import opened XmlSetAttribute
  import opened XmlRewrite
  import opened XmlPairs
  import opened DiskBlock
  import opened OsBoot
  import opened BootDisk
  import opened PlainTag
  import opened StripDisks
  import opened DriveTarget

  const READONLY_ELEMENT := "<readonly/>"

  function TargetElement(dev: string, bus: string): string {
    Element("<target", Attr("dev", dev) + " " + Attr("bus", bus))
  }

  function DriveVolume(pool: string, vol: string): Volume {
    Volume("", "raw", pool, vol)
  }

  function EnsureReadonly(b: string): string {
    if Scan(READONLY, b).Next? then b else Insert(READONLY_ELEMENT, [SOURCE], b)
  }

  /** patchConfigDriveBlock; none on text that is no disk. */
  function PatchDriveBlock(b: string, pool: string, vol: string, dev: string, bus: string): Option<string> {
    var open := OpenTag(b);
    if open == [] then None
    else
      var typed := SetAttribute(SetAttribute(open, "type", "volume"), "device", "cdrom") + b[|open|..];
      Some(DriveElements(typed, pool, vol, dev, bus))
  }

  function DriveElements(b: string, pool: string, vol: string, dev: string, bus: string): string {
    var driven := ReplaceOrInsert(DRIVER, DriverElement("raw"), [], b);
    var sourced := ReplaceOrInsert(SOURCE, SourceElement(DriveVolume(pool, vol)), [DRIVER], driven);
    EnsureReadonly(ReplaceOrInsert(TARGET, TargetElement(dev, bus), [SOURCE], sourced))
  }

  // ----- Inside the block -----

  function ReadonlyInside(x: string): string {
    if Scan(READONLY, x).Next? then x else InsertInside(READONLY_ELEMENT, [SOURCE], x)
  }

  function DriverSourceInside(x: string, pool: string, vol: string): string {
    Inside(SOURCE, SourceElement(DriveVolume(pool, vol)), [DRIVER], Inside(DRIVER, DriverElement("raw"), [], x))
  }

  function DriveInside(x: string, pool: string, vol: string, dev: string, bus: string): string {
    ReadonlyInside(Inside(TARGET, TargetElement(dev, bus), [SOURCE], DriverSourceInside(x, pool, vol)))
  }

  /** A name that is written into an attribute as it is: no quotes, angle brackets or `&`. */
  predicate NameText(v: string) {
    forall i | 0 <= i < |v| :: !Markup(v[i]) && v[i] != '&'
  }

  lemma {:induction false} NameIsItself(v: string)
    requires NameText(v)
    ensures XmlAttr(v) == v && ('=' !in v ==> PlainText(v))
  {
    if v != [] {
      NameIsItself(v[1..]);
      assert v == [v[0]] + v[1..];
    }
  }

  /** Names that go into replacement templates unchanged, once escaped. */
  predicate Names4(pool: string, vol: string, dev: string, bus: string) {
    RefFree(pool) && RefFree(vol) && RefFree(dev) && RefFree(bus)
  }

  lemma TargetFits(dev: string, bus: string)
    ensures IsTag(TargetElement(dev, bus)) && Fits(TARGET, TargetElement(dev, bus))
  {
    AttrNoAngle("dev", dev);
    AttrNoAngle("bus", bus);
    PairNoAngle(Attr("dev", dev), Attr("bus", bus));
    ElementFits("<target", Attr("dev", dev) + " " + Attr("bus", bus));
  }

  lemma ReadonlyFits()
    ensures IsTag(READONLY_ELEMENT) && Fits(READONLY, READONLY_ELEMENT)
  {
    var t := READONLY_ELEMENT;
    assert t[9..9] == [] && "<readonly" <= t;
  }

  lemma DriverSourceFits(pool: string, vol: string)
    ensures IsTag(DriverElement("raw")) && Fits(DRIVER, DriverElement("raw"))
    ensures var r := SourceElement(DriveVolume(pool, vol)); IsTag(r) && Fits(SOURCE, r)
  {
    DriverFits("raw");
    SourceFits(DriveVolume(pool, vol));
  }

  lemma RawText()
    ensures RefFree("raw")
  {
    NoDollarRefFree("raw");
  }

  lemma EmptyText()
    ensures RefFree("")
  {
    NoDollarRefFree("");
  }

  lemma DriverSourcePlain(pool: string, vol: string)
    requires RefFree(pool) && RefFree(vol)
    ensures NoReference(DriverElement("raw")) && NoReference(SourceElement(DriveVolume(pool, vol)))
  {
    RawText();
    EmptyText();
    DriverReferences("raw");
    SourceReferences(DriveVolume(pool, vol));
  }

  lemma TargetPlain(dev: string, bus: string)
    requires RefFree(dev) && RefFree(bus)
    ensures NoReference(TargetElement(dev, bus))
  {
    TwoAttributeElement("<target", "dev", dev, "bus", bus);
  }

  /** What the first two operations do. */
  lemma DriverSourceTags(x: string, pool: string, vol: string)
    requires Clean(x) && RefFree(pool) && RefFree(vol)
    ensures
      var x1 := Inside(DRIVER, DriverElement("raw"), [], x);
      var x2 := DriverSourceInside(x, pool, vol);
      && Clean(x1) && Effect(DRIVER, DriverElement("raw"), TagsOf(x), TagsOf(x1))
      && Clean(x2) && Effect(SOURCE, SourceElement(DriveVolume(pool, vol)), TagsOf(x1), TagsOf(x2))
  {
    PatternsProper();
    DriverSourceFits(pool, vol);
    DriverSourcePlain(pool, vol);
    InsideTags(DRIVER, DriverElement("raw"), [], x);
    InsideTags(SOURCE, SourceElement(DriveVolume(pool, vol)), [DRIVER], Inside(DRIVER, DriverElement("raw"), [], x));
  }

  lemma TargetTags(x: string, dev: string, bus: string)
    requires Clean(x) && RefFree(dev) && RefFree(bus)
    ensures
      var y := Inside(TARGET, TargetElement(dev, bus), [SOURCE], x);
      Clean(y) && Effect(TARGET, TargetElement(dev, bus), TagsOf(x), TagsOf(y))
  {
    PatternsProper();
    TargetFits(dev, bus);
    TargetPlain(dev, bus);
    InsideTags(TARGET, TargetElement(dev, bus), [SOURCE], x);
  }

  /** Readonly is there afterwards; at most one tag was added. */
  lemma ReadonlyTags(x: string)
    requires Clean(x)
    ensures
      var y := ReadonlyInside(x);
      && Clean(y) && Select(READONLY, TagsOf(y)) != []
      && (y == x || (Select(READONLY, TagsOf(x)) == [] && OneMore(READONLY_ELEMENT, TagsOf(x), TagsOf(y))))
  {
    PatternsProper();
    ReadonlyFits();
    MatchesAreTags(READONLY, x);
    if !Scan(READONLY, x).Next? {
      InsertTags(READONLY_ELEMENT, [SOURCE], x);
      EffectOnItself(READONLY, READONLY_ELEMENT, TagsOf(x), TagsOf(ReadonlyInside(x)));
    }
  }

  lemma ReadonlyOnOthers(x: string, q: Pattern)
    requires Clean(x) && Apart(READONLY, q)
    ensures Select(q, TagsOf(ReadonlyInside(x))) == Select(q, TagsOf(x))
  {
    ReadonlyTags(x);
    ReadonlyFits();
    ApartNeverBoth(READONLY, q, READONLY_ELEMENT);
    if ReadonlyInside(x) != x {
      InsertedElsewhere(q, READONLY_ELEMENT, TagsOf(x), TagsOf(ReadonlyInside(x)));
    }
  }

  /** The finished inside: only the new driver, source and target, readonly, and no closing tag. */
  lemma DriveInsideElements(x: string, pool: string, vol: string, dev: string, bus: string)
    requires Clean(x) && Names4(pool, vol, dev, bus) && Select(END, TagsOf(x)) == []
    ensures
      var y := DriveInside(x, pool, vol, dev, bus);
      var tags := TagsOf(y);
      && Clean(y) && Select(END, tags) == [] && Select(READONLY, tags) != []
      && AllAre(DriverElement("raw"), Select(DRIVER, tags))
      && AllAre(SourceElement(DriveVolume(pool, vol)), Select(SOURCE, tags))
      && AllAre(TargetElement(dev, bus), Select(TARGET, tags))
  {
    PatternsApart();
    DriverSourceFits(pool, vol);
    TargetFits(dev, bus);
    DriverSourceTags(x, pool, vol);
    var rd, rs, rt := DriverElement("raw"), SourceElement(DriveVolume(pool, vol)), TargetElement(dev, bus);
    var x1 := Inside(DRIVER, rd, [], x);
    var x2 := DriverSourceInside(x, pool, vol);
    var x3 := Inside(TARGET, rt, [SOURCE], x2);
    TargetTags(x2, dev, bus);
    EffectOnItself(DRIVER, rd, TagsOf(x), TagsOf(x1));
    EffectOnItself(SOURCE, rs, TagsOf(x1), TagsOf(x2));
    EffectOnItself(TARGET, rt, TagsOf(x2), TagsOf(x3));
    EffectOnOthers(SOURCE, DRIVER, rs, TagsOf(x1), TagsOf(x2));
    EffectOnOthers(TARGET, DRIVER, rt, TagsOf(x2), TagsOf(x3));
    EffectOnOthers(TARGET, SOURCE, rt, TagsOf(x2), TagsOf(x3));
    EffectOnOthers(DRIVER, END, rd, TagsOf(x), TagsOf(x1));
    EffectOnOthers(SOURCE, END, rs, TagsOf(x1), TagsOf(x2));
    EffectOnOthers(TARGET, END, rt, TagsOf(x2), TagsOf(x3));
    ReadonlyTags(x3);
    ReadonlyOnOthers(x3, DRIVER);
    ReadonlyOnOthers(x3, SOURCE);
    ReadonlyOnOthers(x3, TARGET);
    ReadonlyOnOthers(x3, END);
  }

  lemma DriveInsideAgain(y: string, pool: string, vol: string, dev: string, bus: string)
    requires Clean(y) && Names4(pool, vol, dev, bus) && Select(READONLY, TagsOf(y)) != []
    requires AllAre(DriverElement("raw"), Select(DRIVER, TagsOf(y)))
    requires AllAre(SourceElement(DriveVolume(pool, vol)), Select(SOURCE, TagsOf(y)))
    requires AllAre(TargetElement(dev, bus), Select(TARGET, TagsOf(y)))
    ensures DriveInside(y, pool, vol, dev, bus) == y
  {
    DriverSourcePlain(pool, vol);
    TargetPlain(dev, bus);
    NothingToDo(DRIVER, DriverElement("raw"), [], y);
    NothingToDo(SOURCE, SourceElement(DriveVolume(pool, vol)), [DRIVER], y);
    NothingToDo(TARGET, TargetElement(dev, bus), [SOURCE], y);
    MatchesAreTags(READONLY, y);
  }

  // ----- The whole block -----

  lemma ReadonlyInBlock(t: string, x: string)
    requires IsDiskTag(t) && Clean(x)
    ensures EnsureReadonly(t + x + CLOSE) == t + ReadonlyInside(x) + CLOSE
  {
    CloseIsTag();
    DiskTagsForeign(t);
    ScanInBlock(READONLY, t, x, CLOSE);
    if !Scan(READONLY, x).Next? {
      InsertInBlock(READONLY_ELEMENT, [SOURCE], t, x, CLOSE);
    }
  }

  lemma TargetInBlock(t: string, x: string, dev: string, bus: string)
    requires IsDiskTag(t) && Clean(x)
    ensures ReplaceOrInsert(TARGET, TargetElement(dev, bus), [SOURCE], t + x + CLOSE)
         == t + Inside(TARGET, TargetElement(dev, bus), [SOURCE], x) + CLOSE
  {
    CloseIsTag();
    DiskTagsForeign(t);
    RewriteInBlock(TARGET, TargetElement(dev, bus), [SOURCE], t, x, CLOSE);
  }

  lemma DriveElementsForm(t: string, x: string, pool: string, vol: string, dev: string, bus: string)
    requires IsDiskTag(t) && Clean(x) && Names4(pool, vol, dev, bus)
    ensures DriveElements(t + x + CLOSE, pool, vol, dev, bus) == t + DriveInside(x, pool, vol, dev, bus) + CLOSE
  {
    DriverSourceTags(x, pool, vol);
    var v := DriveVolume(pool, vol);
    var x1 := Inside(DRIVER, DriverElement("raw"), [], x);
    var x2 := DriverSourceInside(x, pool, vol);
    TargetTags(x2, dev, bus);
    DriverInBlock(t, x, v);
    SourceInBlock(t, x1, v);
    TargetInBlock(t, x2, dev, bus);
    ReadonlyInBlock(t, Inside(TARGET, TargetElement(dev, bus), [SOURCE], x2));
  }

  /** The opening tag of a drive. */
  function DriveTag(o: string): string {
    SetAttribute(SetAttribute(o, "type", "volume"), "device", "cdrom")
  }

  lemma VolumeText()
    ensures XmlAttr("volume") == "volume" && PlainValue("volume") && PlainText("volume")
  {
    EscapeNothing("volume");
  }

  lemma CdromText()
    ensures XmlAttr("cdrom") == "cdrom" && PlainValue("cdrom") && PlainText("cdrom")
  {
    EscapeNothing("cdrom");
  }

  lemma DriveTexts()
    ensures XmlAttr("volume") == "volume" && XmlAttr("cdrom") == "cdrom"
    ensures OtherThanDisk("type") && OtherThanDisk("device") && PlainValue("volume") && PlainValue("cdrom")
    ensures PlainText("volume") && PlainText("cdrom")
  {
    VolumeText();
    CdromText();
  }

  /** The tag written by an edit is what another edit writes. */
  predicate TagStays(o: string) {
    DriveTag(DriveTag(o)) == DriveTag(o)
  }

  /** The tag written by an edit reads as a cdrom. */
  predicate TagReads(o: string) {
    AttributeValue(DriveTag(o), "device") == "cdrom"
  }

  lemma DriveTagIsTag(o: string)
    requires IsDiskTag(o)
    ensures IsDiskTag(DriveTag(o))
  {
    TypeVolume(o);
    CdromText();
    SetKeepsTag(SetAttribute(o, "type", "volume"), "device", "cdrom");
  }

  /** A plain tag becomes a plain cdrom tag of type volume, and stays as it is from then on. */
  lemma DriveTagPlain(o: string)
    requires IsPlain(o)
    ensures IsPlain(DriveTag(o)) && IsDiskTag(o) && IsDiskTag(DriveTag(o)) && TagStays(o) && TagReads(o)
  {
    DriveTexts();
    var a :| PlainAtts(a) && o == DiskTag(a);
    var b := SetAtt(a, "type", "volume");
    var c := SetAtt(b, "device", "cdrom");
    SetOnPlain(a, "type", "volume");
    SetKeepsPlain(a, "type", "volume");
    SetOnPlain(b, "device", "cdrom");
    SetKeepsPlain(b, "device", "cdrom");
    ReadBack(a, "type", "volume", "type");
    ReadBack(b, "device", "cdrom", "type");
    ReadBack(b, "device", "cdrom", "device");
    StillHas(b, "device", "cdrom", "type");
    SetOnPlain(c, "type", "volume");
    SetSame(c, "type", "volume");
    SetOnPlain(c, "device", "cdrom");
    SetSame(c, "device", "cdrom");
    ReadPlain(c, "device");
    PlainIsDiskTag(a);
    PlainIsDiskTag(c);
  }

  lemma StillHas(atts: seq<Att>, n: string, v: string, m: string)
    requires Has(atts, m)
    ensures Has(SetAtt(atts, n, v), m)
  {
    var i :| 0 <= i < |atts| && atts[i].name == m;
    assert SetAtt(atts, n, v)[i].name == m;
  }

  lemma DriveForm(o: string, x: string, pool: string, vol: string, dev: string, bus: string)
    requires IsDiskTag(o) && Clean(x) && Names4(pool, vol, dev, bus)
    ensures PatchDriveBlock(o + x + CLOSE, pool, vol, dev, bus)
         == Some(DriveTag(o) + DriveInside(x, pool, vol, dev, bus) + CLOSE)
  {
    DriveTagIsTag(o);
    Retagged(o, DriveTag(o), x);
    DriveElementsForm(DriveTag(o), x, pool, vol, dev, bus);
  }

  /** Between the tags of a finished drive. */
  ghost predicate FinishedInside(y: string, pool: string, vol: string, dev: string, bus: string) {
    && Clean(y) && Select(END, TagsOf(y)) == [] && Select(READONLY, TagsOf(y)) != []
    && AllAre(DriverElement("raw"), Select(DRIVER, TagsOf(y)))
    && AllAre(SourceElement(DriveVolume(pool, vol)), Select(SOURCE, TagsOf(y)))
    && AllAre(TargetElement(dev, bus), Select(TARGET, TagsOf(y)))
  }

  /** A finished drive: a cdrom tag that stays, and a finished inside. */
  ghost predicate IsDrive(o: string, y: string, pool: string, vol: string, dev: string, bus: string) {
    && IsDiskTag(o) && DriveTag(o) == o && AttributeValue(o, "device") == "cdrom"
    && FinishedInside(y, pool, vol, dev, bus)
  }

  /** Patching any disk block finishes its inside, and makes a drive of it exactly when the tag written stays and
      reads as a cdrom. */
  lemma PatchedIsDrive(o: string, x: string, pool: string, vol: string, dev: string, bus: string)
    requires IsDiskTag(o) && Clean(x) && Select(END, TagsOf(x)) == [] && Names4(pool, vol, dev, bus)
    ensures IsDiskTag(DriveTag(o)) && FinishedInside(DriveInside(x, pool, vol, dev, bus), pool, vol, dev, bus)
    ensures IsDrive(DriveTag(o), DriveInside(x, pool, vol, dev, bus), pool, vol, dev, bus) <==> TagStays(o) && TagReads(o)
  {
    DriveTagIsTag(o);
    DriveInsideElements(x, pool, vol, dev, bus);
  }

  /** Patching a finished inside again changes the opening tag at most, and not even that exactly when the tag is one
      that an edit writes again. */
  lemma FinishedStays(o: string, y: string, pool: string, vol: string, dev: string, bus: string)
    requires IsDiskTag(o) && FinishedInside(y, pool, vol, dev, bus) && Names4(pool, vol, dev, bus)
    ensures PatchDriveBlock(o + y + CLOSE, pool, vol, dev, bus) == Some(DriveTag(o) + y + CLOSE)
    ensures PatchDriveBlock(o + y + CLOSE, pool, vol, dev, bus) == Some(o + y + CLOSE) <==> DriveTag(o) == o
  {
    DriveForm(o, y, pool, vol, dev, bus);
    DriveInsideAgain(y, pool, vol, dev, bus);
    OtherTag(DriveTag(o), o, y);
  }

  lemma ReadsCdrom(o: string, y: string)
    requires AttributeValue(o, "device") == "cdrom"
    ensures IsCDROMDisk(o + y + CLOSE)
  {
    Assoc(o, y, CLOSE);
    ValueIsThere(o, "device", false);
    ValueConcat(o, y + CLOSE, "device", false);
  }

  /** Patching a finished drive for the same volume and target changes nothing. */
  lemma DriveStays(o: string, y: string, pool: string, vol: string, dev: string, bus: string)
    requires IsDrive(o, y, pool, vol, dev, bus) && Names4(pool, vol, dev, bus)
    ensures PatchDriveBlock(o + y + CLOSE, pool, vol, dev, bus) == Some(o + y + CLOSE)
    ensures IsCDROMDisk(o + y + CLOSE) && IsBlock(DISK, o + y + CLOSE)
  {
    FinishedStays(o, y, pool, vol, dev, bus);
    ReadsCdrom(o, y);
    assert BlockOf(DISK, o, y);
  }
}
