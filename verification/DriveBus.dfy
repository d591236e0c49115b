/** The bus a domain's configuration drive ends up on. */
module DriveBus {
  import opened Outcomes
  import opened Text
  import opened XmlScan
  import opened DiskBlock
  import opened StripDisks
  import opened DriveTarget
  import opened ConfigDrive
  import opened DriveTwice
  import opened DriveInsert

  /** The drive of a domain, once there is one. */
  function DriveOf(s: string, vol: string): string
    requires DriveIndex(Matches(DISK, s), vol) >= 0
  {
    Matches(DISK, s)[DriveIndex(Matches(DISK, s), vol)]
  }

  lemma DriveTargeted(s: string, pool: string, vol: string)
    requires Editable(s, pool, vol) || Insertable(s, pool, vol)
    ensures Driven(s, pool, vol).Some?
    ensures
      var s' := Driven(s, pool, vol).value;
      && DriveIndex(Matches(DISK, s'), vol) >= 0
      && DiskTargetDev(DriveOf(s', vol)) == ResolvedTarget(s, vol).0
      && DiskTargetBus(DriveOf(s', vol)) == ResolvedTarget(s, vol).1
  {
    if Editable(s, pool, vol) {
      var k, c := Edited(s, pool, vol);
      SameDrive(Matches(DISK, s), k, c, vol);
    } else {
      var p, n, q := DriveInserted(s, pool, vol);
      DriveAmong(s, p, n, q, vol);
    }
  }

  lemma OneBus(bus: string, preferred: string)
    requires preferred in {"ide", "sata"} && EqualFold(bus, preferred)
    ensures EqualFold(bus, "ide") <==> preferred == "ide"
    ensures EqualFold(bus, "sata") <==> preferred == "sata"
  {
    assert |"ide"| != |"sata"|;
  }

  /** An edited or inserted drive ends up on ide exactly when the machine is not q35 and the other disks use ide and
      neither virtio nor sata; otherwise, in particular on every q35 machine, it ends up on sata. */
  lemma DriveEndsOn(s: string, pool: string, vol: string)
    requires Editable(s, pool, vol) || Insertable(s, pool, vol)
    ensures Driven(s, pool, vol).Some? && DriveIndex(Matches(DISK, Driven(s, pool, vol).value), vol) >= 0
    ensures
      var bus := DiskTargetBus(DriveOf(Driven(s, pool, vol).value, vol));
      && (EqualFold(bus, "ide") <==> OnlyIde(s)) && (EqualFold(bus, "sata") <==> !OnlyIde(s))
      && (IsQ35(s) ==> EqualFold(bus, "sata"))
  {
    DriveTargeted(s, pool, vol);
    TargetIsPlain(s, vol);
    PreferredExactly(s);
    BusNames();
    OneBus(DiskTargetBus(DriveOf(Driven(s, pool, vol).value, vol)), PreferredBus(s));
  }

  lemma LowerBus(bus: string)
    requires bus in {"ide", "sata"}
    ensures Lower(bus) == bus
  {
  }

  /** The names a drive can take. */
  function NamesOn(ide: bool): seq<string> {
    if ide then ["hda", "hdb", "hdc", "hdd"] else ["sda", "sdb", "sdc", "sdd", "sde", "sdf"]
  }

  /** An inserted drive gets the first free of hda to hdd on ide and of sda to sdf on sata, and hda or sda when all of
      them are taken. */
  lemma InsertedName(s: string, pool: string, vol: string)
    requires Insertable(s, pool, vol)
    ensures Driven(s, pool, vol).Some? && DriveIndex(Matches(DISK, Driven(s, pool, vol).value), vol) >= 0
    ensures
      var dev, names := DiskTargetDev(DriveOf(Driven(s, pool, vol).value, vol)), NamesOn(OnlyIde(s));
      TakesFirst(dev, names, names[0], UsedDevs(Matches(DISK, s)))
  {
    var bus := PreferredBus(s);
    DriveTargeted(s, pool, vol);
    NamesTaken(s, bus);
    FreeIsFirst(Candidates(bus), Candidates(bus)[0], UsedDevs(Matches(DISK, s)));
  }

  lemma NamesTaken(s: string, bus: string)
    requires bus == PreferredBus(s)
    ensures Candidates(bus) == NamesOn(OnlyIde(s))
  {
    PreferredExactly(s);
    BusNames();
    LowerBus(bus);
  }
}
