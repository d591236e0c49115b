/** The boot disk of an ordinary domain, and a domain on which removing drives is not finished in one run. */
module DomainExamples {
  import opened Outcomes
  import opened Text
  import opened XmlScan
  import opened XmlClean
  import opened XmlAttributes
  import opened XmlSetAttribute
  import opened XmlRewrite
  import opened XmlPairs
  import opened DiskBlock
  import opened BootDisk
  import opened BootTwice
  import opened PlainTag
  import opened StripDisks
  import opened DriveBlock
  import BootOrder

  /** On a plain opening tag the type settles, and the device is what it was. */
  lemma PlainTypeSettles(o: string)
    requires IsPlain(o)
    ensures TypeSettles(o) && AttributeValue(SetAttribute(o, "type", "volume"), "device") == AttributeValue(o, "device")
  {
    DriveTexts();
    var a :| PlainAtts(a) && o == DiskTag(a);
    var b := SetAtt(a, "type", "volume");
    SetOnPlain(a, "type", "volume");
    SetKeepsPlain(a, "type", "volume");
    ReadBack(a, "type", "volume", "type");
    SetOnPlain(b, "type", "volume");
    SetSame(b, "type", "volume");
    ReadPlain(a, "device");
    ReadPlain(b, "device");
    ReadBack(a, "type", "volume", "device");
    PlainIsDiskTag(a);
    DiskName(o);
    SetAttributeTwice(o, "type", "volume");
  }

  /** Patching the boot disk is idempotent on every tag-balanced domain whose selected disk has a plain opening tag
      with device `disk`. */
  lemma PlainPatchTwice(s: string, v: Volume)
    requires IsDomain(s) && NoReferences(v) && Patched(s, v).Some?
    requires
      var o := OpenTag(Matches(DISK, s)[BootOrder.Selected(Matches(DISK, s))]);
      IsPlain(o) && Lower(AttributeValue(o, "device")) == "disk"
    ensures Patched(Patched(s, v).value, v) == Patched(s, v)
  {
    var b := Matches(DISK, s)[BootOrder.Selected(Matches(DISK, s))];
    PlainTypeSettles(OpenTag(b));
    OwnDeviceStays(b, v);
    PatchTwice(s, v);
  }

  const CDROM_TAG := DiskTag([Att(" ", "device", '\'', "cdrom")])

  lemma CdromTag()
    ensures IsDiskTag(CDROM_TAG) && AttributeValue(CDROM_TAG, "device") == "cdrom"
  {
    DriveTexts();
    var a := [Att(" ", "device", '\'', "cdrom")];
    PlainIsDiskTag(a);
    ReadPlain(a, "device");
  }

  lemma CdromBlock(z: string)
    ensures var b := CDROM_TAG + CLOSE; Scan(DISK, b + z) == Next([], b, Scan(DISK, z)) && IsCDROMDisk(b)
  {
    CdromTag();
    PatternsProper();
    assert BlockOf(DISK, CDROM_TAG, []);
    assert CDROM_TAG + [] == CDROM_TAG;
    assert CDROM_TAG + [] + DISK.close == CDROM_TAG + CLOSE;
    BlockFirst(DISK, CDROM_TAG + CLOSE, z);
    ValueIsThere(CDROM_TAG, "device", false);
    ValueConcat(CDROM_TAG, CLOSE, "device", false);
  }

  /** What is behind the first three characters of a disk tag starts no disk. */
  lemma EndOfSplit(o: string)
    requires IsDiskTag(o)
    ensures Scan(DISK, o[3..] + CLOSE) == Tail(o[3..] + CLOSE)
    ensures "<di" + (o[3..] + CLOSE) == o + CLOSE
  {
    SplitTag(o);
    var u := o[3..];
    Assoc("<di", u, CLOSE);
    ScanText(DISK, u, CLOSE);
    CloseIsTag();
    PassTag(DISK, CLOSE, []);
    assert CLOSE + [] == CLOSE;
  }

  lemma SplitTag(o: string)
    requires IsDiskTag(o)
    ensures |o| > 3 && "<di" + o[3..] == o && '<' !in o[3..]
  {
    assert o[..5] == "<disk";
    assert forall i | 0 <= i < |o[3..]| :: o[3..][i] == o[i + 3];
  }

  lemma HalfName()
    ensures NoStart("<di") && !NoStub("<di")
  {
    var g := "<di";
    assert g[0..] + "<" == "<di<" && g[1..] + "<" == "di<" && g[2..] + "<" == "i<";
    assert g[0..] <= "<disk";
  }

  /** A drive behind half of a tag, with the other half behind it. */
  lemma HalfTagScan(b: string, z: string)
    requires b != [] && b[0] == '<' && Scan(DISK, b + z) == Next([], b, Tail(z))
    ensures Scan(DISK, "<di" + (b + z)) == Next("<di", b, Tail(z))
  {
    HalfName();
    PassNoStart("<di", b + z);
    assert "<di" + [] == "<di";
  }

  /** A tag left open in front of a drive: removing the drive completes another one, which a second run removes. */
  lemma OpenTagNeedsSecondRun()
    ensures
      var s := "<di" + (CDROM_TAG + CLOSE + (CDROM_TAG[3..] + CLOSE));
      var once := Join(Kept(Scan(DISK, s)));
      once == CDROM_TAG + CLOSE && HasCDROM(Scan(DISK, once)) && !NoStubBefore(Scan(DISK, s))
  {
    var z, b := CDROM_TAG[3..] + CLOSE, CDROM_TAG + CLOSE;
    CdromTag();
    EndOfSplit(CDROM_TAG);
    CdromBlock(z);
    CdromBlock([]);
    assert b + [] == b;
    HalfTagScan(b, z);
    HalfName();
  }
}
