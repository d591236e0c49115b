/** patchDomainConfigDriveXML (internal/libvirt/domain_xml.go): a domain gets one configuration drive. */
module ConfigDrive {
  import opened Outcomes
  import opened Text
  import opened XmlScan
  import opened XmlClean
  import opened XmlAttributes
  import opened XmlSetAttribute
  import opened XmlRewrite
  import opened XmlPairs
  import opened DiskBlock
  import opened BootDisk
  import opened PlainTag
  import opened StripDisks
  import opened DriveTarget
  import opened DriveBlock
  import opened DriveRead

  // ----- The operation -----

  /** The index of the last occurrence of `t`, or -1. */
  function LastFind(s: string, t: string): (r: int)
    ensures -1 <= r && (r >= 0 ==> r + |t| <= |s| && s[r..r + |t|] == t)
  {
    if s == [] then if t == [] then 0 else -1
    else
      var r := LastFind(s[1..], t);
      if r >= 0 then r + 1 else if t <= s then 0 else -1
  }

  /** It is the last one. */
  lemma {:induction false} LastFindIsLast(s: string, t: string, i: nat)
    requires t != [] && i + |t| <= |s| && s[i..i + |t|] == t
    ensures i <= LastFind(s, t)
  {
    if i > 0 {
      assert s[1..][i - 1..i - 1 + |t|] == s[i..i + |t|];
      LastFindIsLast(s[1..], t, i - 1);
    } else {
      assert s[..|t|] == s[0..|t|];
    }
  }

  const DEVICES := "</devices>"
  const DRIVE_TAG := DiskTag([Att(" ", "type", '\'', "volume"), Att(" ", "device", '\'', "cdrom")])

  function NewInside(pool: string, vol: string, dev: string, bus: string): string {
    INDENT + (DriverElement("raw") +
      (INDENT + (Element("<source", Attr("pool", pool) + " " + Attr("volume", vol)) +
        (INDENT + (TargetElement(dev, bus) +
          (INDENT + (READONLY_ELEMENT + "\n    ")))))))
  }

  /** configDriveDiskBlock without its leading blanks. */
  function NewDrive(pool: string, vol: string, dev: string, bus: string): string {
    DRIVE_TAG + NewInside(pool, vol, dev, bus) + CLOSE
  }

  /** In front of the last closing devices tag; none when there is no such tag. */
  function Inserted(s: string, pool: string, vol: string, dev: string, bus: string): Option<string> {
    var i := LastFind(s, DEVICES);
    if i < 0 then None else Some(s[..i] + ("    " + (NewDrive(pool, vol, dev, bus) + ("\n" + s[i..]))))
  }

  function Driven(s: string, pool: string, vol: string): Option<string> {
    var (dev, bus) := ResolvedTarget(s, vol);
    var d := Scan(DISK, s);
    var k := DriveIndex(Blocks(d), vol);
    if k < 0 then Inserted(s, pool, vol, dev, bus)
    else
      var b := PatchDriveBlock(Blocks(d)[k], pool, vol, dev, bus);
      if b.None? then None else Some(Join(ReplaceBlock(d, k, b.value)))
  }

  method PatchDomainConfigDriveXML(s: string, pool: string, vol: string) returns (out: Option<string>)
    ensures out == Driven(s, pool, vol)
    ensures out.None? ==> Find(s, DEVICES) < 0
  {
    var dev, bus := ResolveConfigDriveTarget(s, vol);
    var matches := FindAll(DISK, s);
    SlicesAreBlocks(s);
    JoinScan(DISK, s);
    assert s[0..] == s;
    var blocks := Matches(DISK, s);
    var selected := FindConfigDriveDiskIndex(blocks, vol);
    if selected >= 0 {
      LocsAreBlocks(s, 0, Scan(DISK, s), selected);
      var loc := matches[selected];
      MatchOpens(s, selected);
      var block := PatchDriveBlock(s[loc.from..loc.to], pool, vol, dev, bus);
      ReplaceAtLoc(s, 0, Scan(DISK, s), selected, block.value);
      assert s[0..loc.from] == s[..loc.from];
      return Some(s[..loc.from] + block.value + s[loc.to..]);
    }
    LastOrNone(s, DEVICES);
    out := Inserted(s, pool, vol, dev, bus);
  }

  lemma {:induction false} LastOrNone(s: string, t: string)
    requires t != []
    ensures LastFind(s, t) < 0 ==> Find(s, t) < 0
  {
    if s != [] {
      LastOrNone(s[1..], t);
    }
  }

  // ----- The target is a plain name -----

  /** A target name or bus that is read back as it was written. */
  predicate PlainName(v: string) {
    v != "" && NameText(v) && '=' !in v && RefFree(v)
  }

  /** A pool, whose name is escaped, and a volume, whose name is looked for as it is. */
  predicate VolumeNames(pool: string, vol: string) {
    pool != "" && RefFree(pool) && vol != "" && NameText(vol) && RefFree(vol)
  }

  lemma NamesFit(pool: string, vol: string, dev: string, bus: string)
    requires VolumeNames(pool, vol) && PlainName(dev) && PlainName(bus)
    ensures Names4(pool, vol, dev, bus)
  {
    NameIsItself(vol);
    NameIsItself(dev);
    NameIsItself(bus);
  }

  lemma CandidateIsPlain(bus: string, dev: string)
    requires dev in Candidates(bus)
    ensures PlainName(dev) && Lower(dev) == dev
  {
    assert |dev| == 3 && forall i | 0 <= i < 3 :: 'a' <= dev[i] <= 'z';
    assert forall i | 0 <= i < |dev| :: Lower(dev)[i] == dev[i];
    LettersPlain(dev);
  }

  lemma LettersPlain(v: string)
    requires v != "" && forall i | 0 <= i < |v| :: 'a' <= v[i] <= 'z'
    ensures PlainName(v)
  {
    NoDollarRefFree(v);
  }

  /** The names the current drive brings along, when it keeps its target. */
  predicate OldTargetPlain(bs: seq<string>, vol: string) {
    var k := DriveIndex(bs, vol);
    k >= 0 ==>
      var dev, bus := DiskTargetDev(bs[k]), DiskTargetBus(bs[k]);
      NameText(dev) && '=' !in dev && RefFree(dev) && NameText(bus) && '=' !in bus && RefFree(bus)
  }

  lemma TargetIsPlain(s: string, vol: string)
    requires OldTargetPlain(Matches(DISK, s), vol)
    ensures PlainName(ResolvedTarget(s, vol).0) && PlainName(ResolvedTarget(s, vol).1)
    ensures EqualFold(ResolvedTarget(s, vol).1, PreferredBus(s))
  {
    var bus := PreferredBus(s);
    CandidateIsPlain(bus, NextTargetDev(bus, UsedDevs(Matches(DISK, s))));
    BusIsPlain(bus);
  }

  lemma BusIsPlain(bus: string)
    requires bus == "sata" || bus == "ide"
    ensures PlainName(bus)
  {
    NoDollarRefFree(bus);
  }

  // ----- Targets stay self-closing -----

  lemma EffectClosed(p: Pattern, r: string, before: seq<string>, after: seq<string>)
    requires Effect(p, r, before, after) && TargetsClosed(before) && (Opens(r, "<target") ==> Fits(TARGET, r))
    ensures TargetsClosed(after)
  {
    if Select(p, before) == [] {
      OneMoreClosed(r, before, after);
    }
  }

  lemma OneMoreClosed(r: string, before: seq<string>, after: seq<string>)
    requires OneMore(r, before, after) && TargetsClosed(before) && (Opens(r, "<target") ==> Fits(TARGET, r))
    ensures TargetsClosed(after)
  {
    var k :| 0 <= k <= |before| && after == before[..k] + [r] + before[k..];
    forall i | 0 <= i < |after| && Opens(after[i], "<target") ensures Fits(TARGET, after[i]) {
      assert after[i] == if i < k then before[i] else if i == k then r else before[i - 1];
    }
  }

  lemma NotTarget(r: string, open: string)
    requires |open| > 1 && open <= r && open[1] != 't'
    ensures !Opens(r, "<target")
  {
    CharAt(open, r, 1);
    if Opens(r, "<target") {
      CharAt("<target", r, 1);
    }
  }

  lemma DriveTargetsClosed(x: string, pool: string, vol: string, dev: string, bus: string)
    requires Clean(x) && Names4(pool, vol, dev, bus) && TargetsClosed(TagsOf(x))
    ensures TargetsClosed(TagsOf(DriveInside(x, pool, vol, dev, bus)))
  {
    var rd, rs, rt := DriverElement("raw"), SourceElement(DriveVolume(pool, vol)), TargetElement(dev, bus);
    DriverSourceFits(pool, vol);
    TargetFits(dev, bus);
    ReadonlyFits();
    NotTarget(rd, "<driver");
    NotTarget(rs, "<source");
    NotTarget(READONLY_ELEMENT, "<readonly");
    DriverSourceTags(x, pool, vol);
    var x1, x2 := Inside(DRIVER, rd, [], x), DriverSourceInside(x, pool, vol);
    var x3 := Inside(TARGET, rt, [SOURCE], x2);
    TargetTags(x2, dev, bus);
    EffectClosed(DRIVER, rd, TagsOf(x), TagsOf(x1));
    EffectClosed(SOURCE, rs, TagsOf(x1), TagsOf(x2));
    EffectClosed(TARGET, rt, TagsOf(x2), TagsOf(x3));
    ReadonlyTags(x3);
    if ReadonlyInside(x3) != x3 {
      OneMoreClosed(READONLY_ELEMENT, TagsOf(x3), TagsOf(ReadonlyInside(x3)));
    }
  }
}
