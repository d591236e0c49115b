/** The boot order as a number: what the digits of a boot element stand for, and which disk the numbers select. */
module BootNumbers {
  import opened Outcomes
  import opened Text
  import opened XmlScan
  import opened XmlClean
  import opened XmlAttributes
  import opened XmlRewrite
  import opened XmlPairs
  import opened DiskBlock
  import opened OsBoot
  import opened BootOrder
  import opened BootDisk

  // ----- Decimal text -----

  function Digit(n: nat): (c: char)
    requires n < 10
    ensures '0' <= c <= '9' && c as int == '0' as int + n
  {
    (n + '0' as int) as char
  }

  /** The decimal text of a number, by division. */
  function Decimal(n: nat): (s: string)
    ensures s != "" && forall i | 0 <= i < |s| :: '0' <= s[i] <= '9'
  {
    if n < 10 then [Digit(n)] else Decimal(n / 10) + [Digit(n % 10)]
  }

  function Zeros(k: nat): (s: string)
    ensures |s| == k && forall i | 0 <= i < |s| :: s[i] == '0'
  {
    seq(k, i => '0')
  }

  /** Reading the decimal text of a number gives the number, leading zeros or not. */
  lemma {:induction false} NumberOfDecimal(n: nat, zeros: nat)
    ensures Number(Zeros(zeros) + Decimal(n)) == n
  {
    var front := if n < 10 then Zeros(zeros) else Zeros(zeros) + Decimal(n / 10);
    var s := front + [Digit(n % 10)];
    assert Zeros(zeros) + Decimal(n) == s;
    assert s[..|s| - 1] == front && s[|s| - 1] == Digit(n % 10);
    if n < 10 {
      NumberOfZeros(zeros);
    } else {
      NumberOfDecimal(n / 10, zeros);
    }
  }

  lemma {:induction false} NumberOfZeros(k: nat)
    ensures Number(Zeros(k)) == 0
  {
    if k > 0 {
      assert Zeros(k)[..k - 1] == Zeros(k - 1);
      NumberOfZeros(k - 1);
    }
  }

  // ----- Boot elements -----

  /** The boot element with the given order, in either kind of quotes. */
  function OrderElement(n: nat, zeros: nat, q: char): string {
    Element("<boot", "order=" + Quoted(Zeros(zeros) + Decimal(n), q))
  }

  lemma {:induction false} DigitsEnd(d: string, rest: string)
    requires (forall i | 0 <= i < |d| :: '0' <= d[i] <= '9') && rest != [] && !('0' <= rest[0] <= '9')
    ensures DigitsLen(d + rest) == |d|
  {
    if d == [] {
      assert d + rest == rest;
    } else {
      assert (d + rest)[1..] == d[1..] + rest;
      DigitsEnd(d[1..], rest);
    }
  }

  /** A quoted number in a boot element. */
  function Quoted(d: string, q: char): string {
    [q] + d + [q]
  }

  predicate Digits(d: string) {
    d != [] && forall i | 0 <= i < |d| :: '0' <= d[i] <= '9'
  }

  lemma OrderAtDigits(d: string, q: char)
    requires Digits(d) && Quote(q)
    ensures OrderAt("order=" + (Quoted(d, q) + "/")) == Some(d)
  {
    var t := "order=" + (Quoted(d, q) + "/");
    assert t[7..] == d + ([q] + "/") && t[6] == q;
    DigitsEnd(d, [q] + "/");
    assert t[7..7 + |d|] == d && t[7 + |d|] == q;
  }

  lemma NoLetterO(d: string, q: char)
    requires Digits(d) && Quote(q)
    ensures LastOrder("rder=" + (Quoted(d, q) + "/")) == None
  {
    var u, z := "rder=", Quoted(d, q) + "/";
    assert forall i | 0 <= i < |u| :: u[i] != 'o';
    assert forall i | 0 <= i < |z| :: z[i] != 'o';
    assert forall i | 0 <= i < |u + z| :: (u + z)[i] == if i < |u| then u[i] else z[i - |u|];
    NoOrderIn(u + z);
  }

  lemma OrderPieces(z: string)
    ensures (" order=" + z)[1..] == "order=" + z && ("order=" + z)[1..] == "rder=" + z && !("order=" <= " order=" + z)
  {
    assert (" order=" + z)[0] == ' ' && "order="[0] == 'o';
    FirstLetter("order=", " order=" + z);
  }

  lemma {:induction false} LastOfDigits(d: string, q: char)
    requires Digits(d) && Quote(q)
    ensures LastOrder(" order=" + (Quoted(d, q) + "/")) == Some(d)
  {
    var z := Quoted(d, q) + "/";
    OrderPieces(z);
    OrderAtDigits(d, q);
    NoLetterO(d, q);
    OneBehind("order=" + z);
    OneBehind(" order=" + z);
  }

  lemma {:induction false} OneBehind(t: string)
    requires t != []
    ensures LastOrder(t) == if LastOrder(t[1..]).Some? then LastOrder(t[1..]) else OrderAt(t)
  {
  }

  lemma OrderInDigits(d: string, q: char)
    requires Digits(d) && Quote(q)
    ensures OrderInBoot(Element("<boot", "order=" + Quoted(d, q))) == Some(d)
  {
    var region := " order=" + (Quoted(d, q) + "/");
    assert Element("<boot", "order=" + Quoted(d, q)) == "<boot" + (region + ">");
    BehindName(region + ">");
    RegionNoAngle(d, q);
    BeforeEnd(region);
    LastOfDigits(d, q);
  }

  lemma RegionNoAngle(d: string, q: char)
    requires Digits(d) && Quote(q)
    ensures var region := " order=" + (Quoted(d, q) + "/"); forall i | 0 <= i < |region| :: region[i] != '>'
  {
    var u, z := " order=", Quoted(d, q) + "/";
    assert forall i | 0 <= i < |u| :: u[i] != '>';
    assert forall i | 0 <= i < |z| :: z[i] != '>';
    assert forall i | 0 <= i < |u + z| :: (u + z)[i] == if i < |u| then u[i] else z[i - |u|];
  }

  lemma OrderOfElement(n: nat, zeros: nat, q: char)
    requires Quote(q)
    ensures OrderInBoot(OrderElement(n, zeros, q)) == Some(Zeros(zeros) + Decimal(n))
  {
    OrderInDigits(Zeros(zeros) + Decimal(n), q);
  }

  // ----- Disks -----

  /** The first boot element of these tags carries that order. */
  ghost predicate Ordered(tags: seq<string>, n: nat) {
    exists i, zeros, q ::
      0 <= i < |tags| && Quote(q) && tags[i] == OrderElement(n, zeros, q) && NoOpens("<boot", tags[..i])
  }

  lemma {:induction false} FirstOrderIs(tags: seq<string>, i: nat, n: nat, zeros: nat, q: char)
    requires i < |tags| && Quote(q) && tags[i] == OrderElement(n, zeros, q) && NoOpens("<boot", tags[..i])
    ensures FirstOrder(tags) == Some(Zeros(zeros) + Decimal(n))
  {
    if i == 0 {
      OrderOfElement(n, zeros, q);
    } else {
      assert tags[..i][0] == tags[0] && !Opens(tags[..i][0], "<boot");
      assert tags[1..][..i - 1] == tags[..i][1..];
      FirstOrderIs(tags[1..], i - 1, n, zeros, q);
    }
  }

  lemma {:induction false} NoFirstOrder(tags: seq<string>)
    requires NoOpens("<boot", tags)
    ensures FirstOrder(tags) == None
  {
    if tags != [] {
      assert !Opens(tags[0], "<boot");
      NoFirstOrder(tags[1..]);
    }
  }

  /** The largest 64-bit integer. */
  const LARGEST := 9_223_372_036_854_775_807

  /** The number a disk boots at: that of its first boot element; none when it has no boot element. Zero and numbers
      beyond 64 bits count as none. */
  ghost predicate BootsAt(b: string, order: Option<nat>) {
    match order
    case Some(n) => 0 < n <= LARGEST && Ordered(TagsOf(b), n)
    case None => NoOpens("<boot", TagsOf(b)) || Ordered(TagsOf(b), 0) || exists n: nat :: n > LARGEST && Ordered(TagsOf(b), n)
  }

  lemma OrderedNumber(b: string, n: nat)
    requires Clean(b) && Ordered(TagsOf(b), n)
    ensures DiskBootOrder(b) == if n <= LARGEST then n else 0
  {
    var i, zeros, q :|
      0 <= i < |TagsOf(b)| && Quote(q) && TagsOf(b)[i] == OrderElement(n, zeros, q) && NoOpens("<boot", TagsOf(b)[..i]);
    FirstOrderIs(TagsOf(b), i, n, zeros, q);
    OrderOfTags(b);
    NumberOfDecimal(n, zeros);
  }

  lemma NumberOfDisk(b: string, order: Option<nat>)
    requires Clean(b) && BootsAt(b, order)
    ensures DiskBootOrder(b) == if order.Some? then order.value else 0
  {
    OrderOfTags(b);
    if order.Some? {
      OrderedNumber(b, order.value);
    } else if NoOpens("<boot", TagsOf(b)) {
      NoFirstOrder(TagsOf(b));
    } else if Ordered(TagsOf(b), 0) {
      OrderedNumber(b, 0);
    } else {
      var n: nat :| n > LARGEST && Ordered(TagsOf(b), n);
      OrderedNumber(b, n);
    }
  }

  // ----- Which disk is patched -----

  /** `a` boots before `b`: a number before none, a smaller number before a larger one. */
  predicate Earlier(a: Option<nat>, b: Option<nat>) {
    a.Some? && (b.None? || a.value < b.value)
  }

  /** The first of the candidates that boot earliest. */
  ghost predicate Earliest(bs: seq<string>, orders: seq<Option<nat>>, k: nat)
    requires |orders| == |bs|
  {
    && k < |bs| && IsBootDiskCandidate(bs[k])
    && forall j | 0 <= j < |bs| && IsBootDiskCandidate(bs[j]) ::
         !Earlier(orders[j], orders[k]) && (j < k ==> Earlier(orders[k], orders[j]))
  }

  lemma EarliestSelected(bs: seq<string>, orders: seq<Option<nat>>, k: nat)
    requires |orders| == |bs| && Earliest(bs, orders, k)
    requires forall i | 0 <= i < |bs| :: Clean(bs[i]) && BootsAt(bs[i], orders[i])
    ensures Selected(bs) == k
  {
    forall i | 0 <= i < |bs| ensures DiskBootOrder(bs[i]) == if orders[i].Some? then orders[i].value else 0 {
      NumberOfDisk(bs[i], orders[i]);
    }
    OneFirstMinimum(bs, k);
  }

  lemma {:induction false} CleanBlocks(d: Doc)
    requires WellCut(DISK, d)
    ensures forall i | 0 <= i < |Blocks(d)| :: IsBlock(DISK, Blocks(d)[i]) && Clean(Blocks(d)[i])
  {
    if d.Next? {
      PatternsProper();
      BlockClean(DISK, d.block);
      CleanBlocks(d.rest);
      assert Blocks(d) == [d.block] + Blocks(d.rest);
    }
  }

  /** On a domain whose disks boot at these numbers, the patched disk is the first candidate with the smallest number,
      or the first candidate at all when none has one; every other disk is as it was. */
  lemma PatchesTheEarliest(s: string, v: Volume, orders: seq<Option<nat>>, k: nat)
    requires IsDomain(s) && NoReferences(v) && |orders| == |Matches(DISK, s)|
    requires forall i | 0 <= i < |Matches(DISK, s)| :: BootsAt(Matches(DISK, s)[i], orders[i])
    requires Earliest(Matches(DISK, s), orders, k)
    ensures Patched(s, v).Some? && PatchDiskBlock(Matches(DISK, s)[k], v).Some?
    ensures Matches(DISK, Patched(s, v).value) == Matches(DISK, s)[k := PatchDiskBlock(Matches(DISK, s)[k], v).value]
  {
    PatternsProper();
    CutWell(DISK, s);
    CleanBlocks(Scan(DISK, s));
    EarliestSelected(Matches(DISK, s), orders, k);
    BlockAt(Scan(DISK, s), k);
    PatchedBlock(Matches(DISK, s)[k], v);
    PatchFrames(s, v);
  }
}
