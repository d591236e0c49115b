/** Where the configuration drive is attached: resolveConfigDriveTarget and what it rests on
    (internal/libvirt/domain_xml.go). */
module DriveTarget {
  import opened Text
  import opened XmlScan
  import opened XmlAttributes
  import opened XmlSetAttribute
  import opened DiskBlock
  import opened StripDisks

  // ----- Reading the target of a disk -----

  /** The last attribute of that name in front of the first `>` whose value is not empty. */
  function LastValue(s: string, name: string, word: bool): string {
    if s == [] || s[0] == '>' then []
    else
      var later := LastValue(s[1..], name, WordChar(s[0]));
      if later != [] then later
      else if !word && ValueAt(s, name) > 0 then s[|name| + 2..|name| + 2 + ValueAt(s, name)]
      else []
  }

  /** The value in the first target tag that has one; empty when none has. */
  function TargetValue(s: string, name: string): string {
    if s == [] then []
    else if Opens(s, "<target") && LastValue(s[7..], name, true) != [] then LastValue(s[7..], name, true)
    else TargetValue(s[1..], name)
  }

  function DiskTargetDev(b: string): string {
    TargetValue(b, "dev")
  }

  function DiskTargetBus(b: string): string {
    TargetValue(b, "bus")
  }

  // ----- The preferred bus -----

  predicate Contains(s: string, t: string) {
    Find(s, t) >= 0
  }

  predicate IsQ35(s: string) {
    Contains(s, "machine='q35'") || Contains(s, "machine=\"q35\"")
  }

  predicate UsesBus(bs: seq<string>, buses: set<string>) {
    exists b | b in bs :: !IsCDROMDisk(b) && Lower(DiskTargetBus(b)) in buses
  }

  function PreferredBus(s: string): string {
    if IsQ35(s) then "sata"
    else if UsesBus(Matches(DISK, s), {"virtio", "sata"}) then "sata"
    else if UsesBus(Matches(DISK, s), {"ide"}) then "ide"
    else "sata"
  }

  /** Some disk that is no cdrom sits on the bus. */
  ghost predicate OtherDiskOn(s: string, bus: string) {
    exists b | b in Matches(DISK, s) :: !IsCDROMDisk(b) && Lower(DiskTargetBus(b)) == bus
  }

  /** The machine has ide, some other disk is on it, and none is on virtio or sata. */
  ghost predicate OnlyIde(s: string) {
    !IsQ35(s) && OtherDiskOn(s, "ide") && !OtherDiskOn(s, "virtio") && !OtherDiskOn(s, "sata")
  }

  lemma BusNames()
    ensures "ide" != "sata" && "ide" != "virtio" && "sata" != "virtio"
  {
    assert "ide"[0] != "sata"[0] && "ide"[0] != "virtio"[0] && "sata"[0] != "virtio"[0];
  }

  /** Ide exactly then, and sata otherwise. */
  lemma PreferredExactly(s: string)
    ensures PreferredBus(s) == if OnlyIde(s) then "ide" else "sata"
  {
    BusNames();
    OneOfBuses(s, "virtio", "sata");
    OneOfBuses(s, "ide", "ide");
    assert {"ide", "ide"} == {"ide"};
  }

  lemma OneOfBuses(s: string, a: string, b: string)
    ensures UsesBus(Matches(DISK, s), {a, b}) <==> OtherDiskOn(s, a) || OtherDiskOn(s, b)
  {
  }

  predicate OccursAt(s: string, t: string, i: int) {
    0 <= i <= |s| - |t| && s[i..i + |t|] == t
  }

  lemma OccursExactly(s: string, t: string)
    ensures Contains(s, t) <==> exists i :: OccursAt(s, t, i)
  {
    if i :| OccursAt(s, t, i) {
      FindFirst(s, t, i);
    } else if Contains(s, t) {
      assert OccursAt(s, t, Find(s, t));
    }
  }

  /** A q35 machine is one whose text contains the attribute in either kind of quotes. */
  lemma Q35Exactly(s: string)
    ensures IsQ35(s) <==> exists i :: OccursAt(s, "machine='q35'", i) || OccursAt(s, "machine=\"q35\"", i)
  {
    var single, double := "machine='q35'", "machine=\"q35\"";
    OccursExactly(s, single);
    OccursExactly(s, double);
  }

  /** Sata, unless the other disks use only ide. */
  method PreferredCDROMBus(s: string) returns (bus: string)
    ensures bus == PreferredBus(s)
    ensures bus == if OnlyIde(s) then "ide" else "sata"
  {
    if IsQ35(s) {
      PreferredExactly(s);
      return "sata";
    }
    var matches := Matches(DISK, s);
    var hasVirtio, hasSata, hasIDE := false, false, false;
    for i := 0 to |matches|
      invariant hasVirtio || hasSata <==> UsesBus(matches[..i], {"virtio", "sata"})
      invariant hasIDE <==> UsesBus(matches[..i], {"ide"})
    {
      var block := matches[i];
      assert matches[..i + 1] == matches[..i] + [block];
      if IsCDROMDisk(block) {
        continue;
      }
      var used := Lower(DiskTargetBus(block));
      assert block in matches[..i + 1];
      if used == "virtio" {
        hasVirtio := true;
      } else if used == "sata" {
        hasSata := true;
      } else if used == "ide" {
        hasIDE := true;
      }
    }
    assert matches[..|matches|] == matches;
    PreferredExactly(s);
    if hasVirtio || hasSata {
      return "sata";
    }
    if hasIDE {
      return "ide";
    }
    return "sata";
  }

  // ----- Names in use -----

  function UsedDevs(bs: seq<string>): set<string> {
    set b | b in bs && DiskTargetDev(b) != "" :: Lower(DiskTargetDev(b))
  }

  method CollectUsedTargetDevs(s: string) returns (used: set<string>)
    ensures used == UsedDevs(Matches(DISK, s))
  {
    var matches := Matches(DISK, s);
    used := {};
    for i := 0 to |matches|
      invariant used == UsedDevs(matches[..i])
    {
      assert matches[..i + 1] == matches[..i] + [matches[i]];
      var dev := DiskTargetDev(matches[i]);
      if dev != "" {
        used := used + {Lower(dev)};
      }
    }
    assert matches[..|matches|] == matches;
  }

  function Candidates(bus: string): seq<string> {
    if Lower(bus) == "ide" then ["hda", "hdb", "hdc", "hdd"] else ["sda", "sdb", "sdc", "sdd", "sde", "sdf"]
  }

  /** The first candidate not in use, or the first of all. */
  function NextTargetDev(bus: string, used: set<string>): (dev: string)
    ensures dev in Candidates(bus)
    ensures (exists c | c in Candidates(bus) :: c !in used) ==> dev !in used
  {
    FirstFree(Candidates(bus), Candidates(bus)[0], used)
  }

  function FirstFree(candidates: seq<string>, default: string, used: set<string>): (dev: string)
    ensures dev in candidates || dev == default
    ensures (exists c | c in candidates :: c !in used) ==> dev in candidates && dev !in used
  {
    if candidates == [] then default
    else if candidates[0] !in used then candidates[0]
    else FirstFree(candidates[1..], default, used)
  }

  /** `dev` is the first of the names that is not in use, or `default` when all of them are. */
  ghost predicate TakesFirst(dev: string, names: seq<string>, default: string, used: set<string>) {
    if forall c | c in names :: c in used then dev == default
    else exists i :: 0 <= i < |names| && dev == names[i] && dev !in used && forall j | 0 <= j < i :: names[j] in used
  }

  lemma {:induction false} FreeIsFirst(cs: seq<string>, default: string, used: set<string>)
    ensures TakesFirst(FirstFree(cs, default, used), cs, default, used)
  {
    if cs != [] && cs[0] in used {
      var dev := FirstFree(cs[1..], default, used);
      FreeIsFirst(cs[1..], default, used);
      if c :| c in cs && c !in used {
        assert c in cs[1..];
        var i :| 0 <= i < |cs[1..]| && dev == cs[1..][i] && dev !in used && forall j | 0 <= j < i :: cs[1..][j] in used;
        assert cs[i + 1] == dev;
        assert forall j | 0 < j < i + 1 :: cs[j] == cs[1..][j - 1];
      }
    }
  }

  // ----- The configuration drive among the disks -----

  predicate Named(b: string, vol: string) {
    IsCDROMDisk(b) && Contains(b, vol)
  }

  /** The first cdrom that mentions the volume, else the first cdrom, else -1. */
  function DriveIndex(bs: seq<string>, vol: string): (k: int)
    ensures -1 <= k < |bs|
    ensures k < 0 <==> forall j | 0 <= j < |bs| :: !IsCDROMDisk(bs[j])
    ensures k >= 0 ==> IsCDROMDisk(bs[k])
    ensures k >= 0 ==> forall j | 0 <= j < k :: !Named(bs[j], vol)
    ensures k >= 0 && !Named(bs[k], vol) ==>
              (forall j | 0 <= j < |bs| :: !Named(bs[j], vol)) && forall j | 0 <= j < k :: !IsCDROMDisk(bs[j])
  {
    if bs == [] then -1
    else
      var n := |bs| - 1;
      var k := DriveIndex(bs[..n], vol);
      assert forall j | 0 <= j < n :: bs[..n][j] == bs[j];
      if k >= 0 && (Named(bs[k], vol) || !Named(bs[n], vol)) then k
      else if IsCDROMDisk(bs[n]) then n
      else -1
  }

  /** Those facts determine it. */
  lemma OneDrive(bs: seq<string>, vol: string, k: int)
    requires 0 <= k < |bs| && Named(bs[k], vol) && forall j | 0 <= j < k :: !Named(bs[j], vol)
    ensures DriveIndex(bs, vol) == k
  {
    var d := DriveIndex(bs, vol);
    assert IsCDROMDisk(bs[k]);
  }

  method FindConfigDriveDiskIndex(matches: seq<string>, vol: string) returns (k: int)
    ensures k == DriveIndex(matches, vol)
  {
    for i := 0 to |matches|
      invariant forall j | 0 <= j < i :: !Named(matches[j], vol)
    {
      if !IsCDROMDisk(matches[i]) {
        continue;
      }
      if Contains(matches[i], vol) {
        OneDrive(matches, vol, i);
        return i;
      }
    }
    for i := 0 to |matches|
      invariant forall j | 0 <= j < i :: !IsCDROMDisk(matches[j])
    {
      if IsCDROMDisk(matches[i]) {
        FirstOfAll(matches, vol, i);
        return i;
      }
    }
    return -1;
  }

  lemma FirstOfAll(bs: seq<string>, vol: string, k: int)
    requires 0 <= k < |bs| && IsCDROMDisk(bs[k])
    requires (forall j | 0 <= j < |bs| :: !Named(bs[j], vol)) && forall j | 0 <= j < k :: !IsCDROMDisk(bs[j])
    ensures DriveIndex(bs, vol) == k
  {
    var d := DriveIndex(bs, vol);
    assert !Named(bs[d], vol);
  }

  // ----- The target -----

  /** The drive keeps its target when it already sits on the preferred bus. */
  function ResolvedTarget(s: string, vol: string): (string, string) {
    var bs := Matches(DISK, s);
    var k := DriveIndex(bs, vol);
    var bus := PreferredBus(s);
    if k >= 0 && DiskTargetBus(bs[k]) != "" && EqualFold(DiskTargetBus(bs[k]), bus) && DiskTargetDev(bs[k]) != "" then
      (DiskTargetDev(bs[k]), DiskTargetBus(bs[k]))
    else (NextTargetDev(bus, UsedDevs(bs)), bus)
  }

  method ResolveConfigDriveTarget(s: string, vol: string) returns (dev: string, bus: string)
    ensures (dev, bus) == ResolvedTarget(s, vol)
  {
    var matches := Matches(DISK, s);
    MatchesNotEmpty(s);
    var existing := "";
    ghost var k := -1;
    for i := 0 to |matches|
      invariant -1 <= k < i
      invariant k < 0 ==> existing == "" && forall j | 0 <= j < i :: !IsCDROMDisk(matches[j])
      invariant k >= 0 ==> existing == matches[k] && IsCDROMDisk(existing) && (forall j | 0 <= j < k :: !IsCDROMDisk(matches[j]))
      invariant vol != "" ==> forall j | 0 <= j < i :: !Named(matches[j], vol)
    {
      var block := matches[i];
      if !IsCDROMDisk(block) {
        continue;
      }
      if vol != "" && Contains(block, vol) {
        existing := block;
        k := i;
        OneDrive(matches, vol, i);
        break;
      }
      if existing == "" {
        existing := block;
        k := i;
      }
    }
    DriveFound(matches, vol, k);
    var preferred := PreferredCDROMBus(s);
    var used := CollectUsedTargetDevs(s);
    if existing != "" {
      var curDev := DiskTargetDev(existing);
      var curBus := DiskTargetBus(existing);
      if curBus != "" && EqualFold(curBus, preferred) && curDev != "" {
        return curDev, curBus;
      }
      return NextTargetDev(preferred, used), preferred;
    }
    return NextTargetDev(preferred, used), preferred;
  }

  /** Both ways of looking for the drive agree, also for an empty volume name. */
  lemma DriveFound(bs: seq<string>, vol: string, k: int)
    requires -1 <= k < |bs|
    requires k < 0 ==> forall j | 0 <= j < |bs| :: !IsCDROMDisk(bs[j])
    requires k >= 0 ==> IsCDROMDisk(bs[k])
    requires k >= 0 ==> DriveIndex(bs, vol) == k || ((forall j | 0 <= j < k :: !IsCDROMDisk(bs[j])) &&
                                                    (vol != "" ==> forall j | 0 <= j < |bs| :: !Named(bs[j], vol)))
    ensures DriveIndex(bs, vol) == k
  {
    if k >= 0 && DriveIndex(bs, vol) != k {
      if vol == "" {
        FindFirst(bs[k], vol, 0);
        OneDrive(bs, vol, k);
      } else {
        FirstOfAll(bs, vol, k);
      }
    }
  }

  lemma MatchesNotEmpty(s: string)
    ensures forall i | 0 <= i < |Matches(DISK, s)| :: Matches(DISK, s)[i] != ""
  {
    forall i | 0 <= i < |Matches(DISK, s)| ensures Matches(DISK, s)[i] != "" {
      var y := MatchIn(DISK, s, i);
    }
  }
}
