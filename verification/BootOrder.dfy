/** Which disk boots: boot order, candidates and selectBootDiskIndex (internal/libvirt/domain_xml.go). */
module BootOrder {
  import opened Outcomes
  import opened Text
  import opened XmlScan
  import opened XmlClean
  import opened XmlAttributes
  import opened XmlRewrite
  import opened XmlSetAttribute
  import opened DiskBlock

  // ----- The boot order of a disk -----

  function DigitsLen(s: string): (n: nat)
    ensures n <= |s|
    ensures forall i | 0 <= i < n :: '0' <= s[i] <= '9'
  {
    if s == [] || !('0' <= s[0] <= '9') then 0 else 1 + DigitsLen(s[1..])
  }

  /** `order=`, a quote, digits and a quote at the start of the text: the digits. */
  function OrderAt(t: string): Option<string> {
    if "order=" <= t && |t| > 6 && Quote(t[6]) then
      var n := DigitsLen(t[7..]);
      if n > 0 && 7 + n < |t| && Quote(t[7 + n]) then Some(t[7..7 + n]) else None
    else None
  }

  /** The last such attribute. */
  function LastOrder(t: string): Option<string> {
    if t == [] then None
    else
      var later := LastOrder(t[1..]);
      if later.Some? then later else OrderAt(t)
  }

  function OrderInBoot(s: string): Option<string> {
    if Opens(s, "<boot") then LastOrder(s[5..][..UpTo(s[5..], '>')]) else None
  }

  /** The digits in the first boot tag that has an order. */
  function OrderText(s: string): Option<string> {
    if s == [] then None
    else if OrderInBoot(s).Some? then OrderInBoot(s)
    else OrderText(s[1..])
  }

  const MAX_INT := 0x7FFF_FFFF_FFFF_FFFF

  function Number(digits: string): nat
    requires forall i | 0 <= i < |digits| :: '0' <= digits[i] <= '9'
  {
    if digits == [] then 0
    else 10 * Number(digits[..|digits| - 1]) + (digits[|digits| - 1] as int - '0' as int)
  }

  lemma {:induction false} OrderIsDigits(t: string)
    ensures LastOrder(t).Some? ==> forall i | 0 <= i < |LastOrder(t).value| :: '0' <= LastOrder(t).value[i] <= '9'
  {
    if t != [] {
      OrderIsDigits(t[1..]);
      if OrderAt(t).Some? {
        var n := DigitsLen(t[7..]);
        assert forall i | 0 <= i < n :: t[7..7 + n][i] == t[7..][i];
      }
    }
  }

  lemma {:induction false} OrderTextIsDigits(s: string)
    ensures OrderText(s).Some? ==> forall i | 0 <= i < |OrderText(s).value| :: '0' <= OrderText(s).value[i] <= '9'
  {
    if s != [] {
      if Opens(s, "<boot") {
        OrderIsDigits(s[5..][..UpTo(s[5..], '>')]);
      }
      OrderTextIsDigits(s[1..]);
    }
  }

  /** diskBootOrder: 0 when there is none, or when the number does not fit a 64-bit integer. */
  function DiskBootOrder(b: string): nat {
    OrderTextIsDigits(b);
    var text := OrderText(b);
    if text.Some? && Number(text.value) <= MAX_INT then Number(text.value) else 0
  }

  /** isBootDiskCandidate: a disk, or a device that does not say what it is. */
  predicate IsBootDiskCandidate(b: string) {
    var device := AttributeValue(b, "device");
    device == "" || Lower(device) == "disk"
  }

  /** A candidate names no device, or `disk` in letters of either case; two letters beyond ASCII have i and k as their
      lower case. */
  lemma CandidateExactly(b: string)
    ensures
      IsBootDiskCandidate(b) <==>
      var v := AttributeValue(b, "device");
      || v == ""
      || (|v| == 4 && v[0] in "dD" && v[1] in ['i', 'I', '\U{130}'] && v[2] in "sS" && v[3] in ['k', 'K', '\U{212A}'])
  {
    var v, w := AttributeValue(b, "device"), "disk";
    assert |w| == 4 && w[0] == 'd' && w[1] == 'i' && w[2] == 's' && w[3] == 'k';
  }

  // ----- Selection -----

  /** A smaller positive order comes first; no order comes last. */
  predicate Better(a: nat, b: nat) {
    a > 0 && (b == 0 || a < b)
  }

  /** The first candidate no other candidate is better than. */
  ghost predicate FirstMinimum(bs: seq<string>, k: int) {
    && 0 <= k < |bs| && IsBootDiskCandidate(bs[k])
    && forall j | 0 <= j < |bs| && IsBootDiskCandidate(bs[j]) ::
         && !Better(DiskBootOrder(bs[j]), DiskBootOrder(bs[k]))
         && (j < k ==> Better(DiskBootOrder(bs[k]), DiskBootOrder(bs[j])))
  }

  function Selected(bs: seq<string>): (k: int)
    ensures -1 <= k < |bs|
    ensures k < 0 <==> forall j | 0 <= j < |bs| :: !IsBootDiskCandidate(bs[j])
    ensures k >= 0 ==> FirstMinimum(bs, k)
  {
    if bs == [] then -1
    else
      var n := |bs| - 1;
      var k := Selected(bs[..n]);
      assert forall j | 0 <= j < n :: bs[..n][j] == bs[j];
      if IsBootDiskCandidate(bs[n]) && (k < 0 || Better(DiskBootOrder(bs[n]), DiskBootOrder(bs[k]))) then n else k
  }

  lemma OneFirstMinimum(bs: seq<string>, k: int)
    requires FirstMinimum(bs, k)
    ensures Selected(bs) == k
  {
    assert IsBootDiskCandidate(bs[k]);
  }

  function Slices(matches: seq<Loc>, s: string): seq<string>
    requires forall i | 0 <= i < |matches| :: matches[i].from <= matches[i].to <= |s|
  {
    seq(|matches|, i requires 0 <= i < |matches| => s[matches[i].from..matches[i].to])
  }

  /** The first candidate that minimises the boot order, a missing order counted as infinite; -1 exactly when no
      disk is a candidate. */
  method SelectBootDiskIndex(matches: seq<Loc>, s: string) returns (k: int)
    requires forall i | 0 <= i < |matches| :: matches[i].from <= matches[i].to <= |s|
    ensures k == Selected(Slices(matches, s))
    ensures k == -1 <==> forall j | 0 <= j < |matches| :: !IsBootDiskCandidate(Slices(matches, s)[j])
    ensures k != -1 ==> FirstMinimum(Slices(matches, s), k)
  {
    ghost var bs := Slices(matches, s);
    k := -1;
    var selectedOrder := 0;
    for i := 0 to |matches|
      invariant k == Selected(bs[..i]) && -1 <= k < i
      invariant k >= 0 ==> selectedOrder == DiskBootOrder(bs[k]) && selectedOrder != 1
    {
      assert bs[..i + 1][..i] == bs[..i];
      var block := s[matches[i].from..matches[i].to];
      assert block == bs[i];
      if !IsBootDiskCandidate(block) {
        continue;
      }
      var order := DiskBootOrder(block);
      if k < 0 {
        k := i;
        selectedOrder := order;
        if order == 1 {
          NoneBetterThanOne(bs, i + 1, k);
          return k;
        }
        continue;
      }
      if order == 1 {
        NoneBetterThanOne(bs, i + 1, i);
        return i;
      }
      if selectedOrder == 1 {
        continue;
      }
      if order > 0 && (selectedOrder == 0 || order < selectedOrder) {
        k := i;
        selectedOrder := order;
      }
    }
    assert bs[..|matches|] == bs;
  }

  /** Once a disk with order 1 is selected, nothing later replaces it. */
  lemma {:induction false} NoneBetterThanOne(bs: seq<string>, n: nat, k: int)
    requires n <= |bs| && Selected(bs[..n]) == k && 0 <= k && DiskBootOrder(bs[k]) == 1
    ensures Selected(bs) == k
    decreases |bs| - n
  {
    if n < |bs| {
      assert bs[..n + 1][..n] == bs[..n];
      NoneBetterThanOne(bs, n + 1, k);
    } else {
      assert bs[..n] == bs;
    }
  }

  // ----- The order is a property of the tags -----

  function FirstOrder(tags: seq<string>): Option<string> {
    if tags == [] then None
    else if OrderInBoot(tags[0]).Some? then OrderInBoot(tags[0])
    else FirstOrder(tags[1..])
  }

  lemma {:induction false} TextHasNoOrder(u: string, rest: string)
    requires forall i | 0 <= i < |u| :: u[i] != '<'
    ensures OrderText(u + rest) == OrderText(rest)
  {
    if u == [] {
      assert u + rest == rest;
    } else {
      assert (u + rest)[1..] == u[1..] + rest && (u + rest)[0] == u[0];
      TextHasNoOrder(u[1..], rest);
    }
  }

  lemma OrderOfTag(t: string, rest: string)
    requires IsTag(t)
    ensures OrderInBoot(t + rest) == OrderInBoot(t)
  {
    var s := t + rest;
    assert s[..|t|] == t;
    OpensInTag(s, |t| - 1, "<boot");
    if Opens(t, "<boot") {
      assert t[4] == 't';
      assert s[5..] == t[5..] + rest;
      assert t[5..][|t| - 6] == '>';
      UpToConcat(t[5..], rest, '>');
      var n := UpTo(t[5..], '>');
      assert s[5..][..n] == t[5..][..n];
    }
  }

  lemma {:induction false} OrderOfTags(s: string)
    requires Clean(s)
    ensures OrderText(s) == FirstOrder(TagsOf(s))
    decreases |s|
  {
    if s != [] {
      if s[0] != '<' {
        OrderOfTags(s[1..]);
      } else {
        FirstTag(s);
        var g := UpTo(s, '>') + 1;
        OrderOfTag(s[..g], s[g..]);
        OrderOfTags(s[g..]);
        assert s[1..] == s[1..g] + s[g..];
        TextHasNoOrder(s[1..g], s[g..]);
        assert TagsOf(s)[1..] == TagsOf(s[g..]);
      }
    }
  }

  lemma {:induction false} FirstOrderConcat(a: seq<string>, b: seq<string>)
    ensures FirstOrder(a + b) == if FirstOrder(a).Some? then FirstOrder(a) else FirstOrder(b)
  {
    if a == [] {
      assert a + b == b;
    } else {
      assert (a + b)[1..] == a[1..] + b;
      FirstOrderConcat(a[1..], b);
    }
  }

  /** Tags of another kind have no order. */
  lemma NoOrderElsewhere(p: Pattern, t: string)
    requires Apart(p, BOOT) && Fits(p, t)
    ensures OrderInBoot(t) == None
  {
    SecondLetter(Name(p), t);
    if Opens(t, "<boot") {
      SecondLetter("<boot", t);
    }
  }

  lemma SecondLetter(open: string, t: string)
    requires |open| > 1 && open <= t
    ensures t[1] == open[1]
  {
  }

  lemma {:induction false} OrderReplaced(p: Pattern, r: string, tags: seq<string>)
    requires Apart(p, BOOT) && Fits(p, r)
    ensures FirstOrder(Replaced(p, r, tags)) == FirstOrder(tags)
  {
    if tags != [] {
      OrderReplaced(p, r, tags[1..]);
      assert Replaced(p, r, tags)[1..] == Replaced(p, r, tags[1..]);
      NoOrderElsewhere(p, r);
      if Fits(p, tags[0]) {
        NoOrderElsewhere(p, tags[0]);
      }
    }
  }

  lemma OrderOfOne(t: string)
    ensures FirstOrder([t]) == OrderInBoot(t)
  {
    assert [t][1..] == [];
  }

  /** Rewriting elements of another kind leaves the order alone. */
  lemma OrderAfterOthers(p: Pattern, r: string, before: seq<string>, after: seq<string>)
    requires Effect(p, r, before, after) && Fits(p, r) && Apart(p, BOOT)
    ensures FirstOrder(after) == FirstOrder(before)
  {
    NoOrderElsewhere(p, r);
    if Select(p, before) != [] {
      OrderReplaced(p, r, before);
    } else {
      var k :| 0 <= k <= |before| && after == before[..k] + [r] + before[k..];
      assert before == before[..k] + before[k..];
      FirstOrderConcat(before[..k], before[k..]);
      FirstOrderConcat(before[..k] + [r], before[k..]);
      FirstOrderConcat(before[..k], [r]);
      OrderOfOne(r);
    }
  }

  lemma FirstLetter(p: string, t: string)
    requires p != [] && t != []
    ensures p <= t ==> t[0] == p[0]
  {
  }

  lemma {:induction false} NoOrderIn(t: string)
    requires forall i | 0 <= i < |t| :: t[i] != 'o'
    ensures LastOrder(t) == None
  {
    if t != [] {
      FirstLetter("order=", t);
      NoOrderIn(t[1..]);
    }
  }

  lemma OrderOne()
    ensures OrderAt("order='1'/") == Some("1")
  {
    var t := "order='1'/";
    var after := t[7..];
    assert after[0] == '1' && after[1] == '\'' && t[7] == '1' && t[8] == '\'';
    assert DigitsLen(after[1..]) == 0;
    assert t[7..8] == [t[7]];
  }

  lemma LastOfOne()
    ensures LastOrder(" order='1'/") == Some("1")
  {
    var region, t := " order='1'/", "order='1'/";
    assert region[1..] == t && t[1..] == "rder='1'/";
    NoOrderIn("rder='1'/");
    OrderOne();
  }

  lemma BootElementOrder()
    ensures OrderInBoot(BOOT_ELEMENT) == Some("1")
  {
    var region := " order='1'/";
    assert BOOT_ELEMENT == "<boot" + (region + ">");
    BehindName(region + ">");
    BeforeEnd(region);
    LastOfOne();
  }

  lemma BeforeEnd(region: string)
    requires forall i | 0 <= i < |region| :: region[i] != '>'
    ensures (region + ">")[..UpTo(region + ">", '>')] == region
  {
    UpToConcat(region, ">", '>');
  }

  lemma BehindName(rest: string)
    requires rest != [] && !WordChar(rest[0])
    ensures Opens("<boot" + rest, "<boot") && ("<boot" + rest)[5..] == rest
  {
  }

  lemma {:induction false} OrderReplacedBy(p: Pattern, r: string, tags: seq<string>)
    requires OrderInBoot(r).Some?
    ensures FirstOrder(Replaced(p, r, tags)) in {FirstOrder(tags), OrderInBoot(r)}
  {
    if tags != [] {
      OrderReplacedBy(p, r, tags[1..]);
      assert Replaced(p, r, tags)[1..] == Replaced(p, r, tags[1..]);
    }
  }

  lemma BootReplaced(tags: seq<string>)
    ensures FirstOrder(Replaced(BOOT, BOOT_ELEMENT, tags)) in {FirstOrder(tags), Some("1")}
  {
    BootElementOrder();
    OrderReplacedBy(BOOT, BOOT_ELEMENT, tags);
  }

  /** Afterwards the order is 1, or an element that is not self-closing still sets it. */
  lemma OrderAfterBoot(before: seq<string>, after: seq<string>)
    requires Effect(BOOT, BOOT_ELEMENT, before, after)
    ensures FirstOrder(after) in {FirstOrder(before), Some("1")}
  {
    if Select(BOOT, before) != [] {
      BootReplaced(before);
    } else {
      var k :| 0 <= k <= |before| && after == before[..k] + [BOOT_ELEMENT] + before[k..];
      assert before == before[..k] + before[k..];
      FirstOrderConcat(before[..k], before[k..]);
      FirstOrderConcat(before[..k] + [BOOT_ELEMENT], before[k..]);
      FirstOrderConcat(before[..k], [BOOT_ELEMENT]);
      OrderOfOne(BOOT_ELEMENT);
      BootElementOrder();
    }
  }

  /** The order of a block is decided between its two tags. */
  lemma OrderOfBlock(o: string, x: string)
    requires IsDiskTag(o) && Clean(x)
    ensures OrderText(o + x + CLOSE) == FirstOrder(TagsOf(x))
  {
    CloseIsTag();
    NotBoot(o);
    NotBoot(CLOSE);
    OrderBetween(o, x, CLOSE);
  }

  lemma OrderBetween(o: string, x: string, c: string)
    requires IsTag(o) && Clean(x) && IsTag(c) && OrderInBoot(o) == None && OrderInBoot(c) == None
    ensures OrderText(o + x + c) == FirstOrder(TagsOf(x))
  {
    Assoc(o, x, c);
    TagBeforeTag(o, x, c);
    OrderOfTags(o + (x + c));
    FirstOrderConcat([o], TagsOf(x) + [c]);
    FirstOrderConcat(TagsOf(x), [c]);
    OrderOfOne(o);
    OrderOfOne(c);
  }

  lemma NotBoot(t: string)
    requires |t| > 1 && t[1] != 'b'
    ensures OrderInBoot(t) == None
  {
    if Opens(t, "<boot") {
      SecondLetter("<boot", t);
    }
  }

  lemma TagBeforeTag(o: string, x: string, c: string)
    requires IsTag(o) && Clean(x) && IsTag(c)
    ensures Clean(o + (x + c)) && TagsOf(o + (x + c)) == [o] + (TagsOf(x) + [c])
  {
    TagFirst(c, []);
    TagsOfTag(c, []);
    assert c + [] == c;
    CleanConcat(x, c);
    TagFirst(o, x + c);
    TagsConcat(x, c);
    TagsOfTag(o, x + c);
  }

  /** A patched block has order 1 or the order it had. */
  lemma PatchedOrder(o: string, x: string, v: Volume)
    requires IsDiskTag(o) && Clean(x) && NoReferences(v)
    ensures PatchDiskBlock(o + x + CLOSE, v).Some?
    ensures DiskBootOrder(PatchDiskBlock(o + x + CLOSE, v).value) in {1, DiskBootOrder(o + x + CLOSE)}
  {
    PatchForm(o, x, v);
    TypeVolume(o);
    PatchTags(x, v);
    OrderOfInside(x, v);
    OrderOfBlock(o, x);
    OrderOfBlock(SetAttribute(o, "type", "volume"), PatchInside(x, v));
    OrderNumber(PatchDiskBlock(o + x + CLOSE, v).value, o + x + CLOSE);
  }

  lemma OrderNumber(after: string, before: string)
    requires OrderText(after) in {OrderText(before), Some("1")}
    ensures DiskBootOrder(after) in {1, DiskBootOrder(before)}
  {
    assert Number("1") == 1 by {
      assert "1"[..0] == [];
    }
  }

  lemma OrderOfInside(x: string, v: Volume)
    requires Clean(x) && NoReferences(v)
    ensures FirstOrder(TagsOf(PatchInside(x, v))) in {FirstOrder(TagsOf(x)), Some("1")}
  {
    PatchTags(x, v);
    ElementsFit(v);
    PatternsApart();
    var x1 := Inside(DRIVER, DriverElement(v.format), [], x);
    var x2 := Inside(SOURCE, SourceElement(v), [DRIVER], x1);
    OrderAfterOthers(DRIVER, DriverElement(v.format), TagsOf(x), TagsOf(x1));
    OrderAfterOthers(SOURCE, SourceElement(v), TagsOf(x1), TagsOf(x2));
    OrderAfterBoot(TagsOf(x2), TagsOf(PatchInside(x, v)));
  }
}
