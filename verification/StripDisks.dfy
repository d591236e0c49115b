/** stripConfigDriveDisks (internal/libvirt/domain_xml.go): every cdrom disk is taken out of a domain. */
module StripDisks {
  import opened Text
  import opened XmlScan
  import opened XmlClean
  import opened XmlAttributes
  import opened XmlRewrite
  import opened XmlPairs
  import opened DiskBlock

  predicate IsCDROMDisk(b: string) {
    EqualFold(AttributeValue(b, "device"), "cdrom")
  }

  /** A cdrom is a disk whose first device value is `cdrom`, in letters of either case. */
  lemma CdromExactly(b: string)
    ensures
      IsCDROMDisk(b) <==>
      var v := AttributeValue(b, "device");
      |v| == 5 && v[0] in "cC" && v[1] in "dD" && v[2] in "rR" && v[3] in "oO" && v[4] in "mM"
  {
    var v, w := AttributeValue(b, "device"), "cdrom";
    assert |w| == 5 && w[0] == 'c' && w[1] == 'd' && w[2] == 'r' && w[3] == 'o' && w[4] == 'm';
    if |v| == 5 {
      FoldsTo(v[0], 'c', 'C');
      FoldsTo(v[1], 'd', 'D');
      FoldsTo(v[2], 'r', 'R');
      FoldsTo(v[3], 'o', 'O');
      FoldsTo(v[4], 'm', 'M');
    }
  }

  /** A small letter other than k and s stands for itself and its capital. */
  lemma FoldsTo(c: char, small: char, capital: char)
    requires 'a' <= small <= 'z' && small != 'k' && small != 's' && capital as int + 32 == small as int
    ensures FoldChar(c) == FoldChar(small) <==> c in [small, capital]
  {
  }

  /** The text without its cdrom disks, still cut at the disks that stay. */
  function Kept(d: Doc): Doc {
    match d
    case Tail(_) => d
    case Next(gap, block, rest) =>
      if IsCDROMDisk(block) then Prefix(gap, Kept(rest)) else Next(gap, block, Kept(rest))
  }

  predicate HasCDROM(d: Doc) {
    d.Next? && (IsCDROMDisk(d.block) || HasCDROM(d.rest))
  }

  /** Exactly the cdrom disks are taken out, all other text stays in order, and a change is reported exactly when
      there was one to take out. */
  method StripConfigDriveDisks(s: string) returns (out: string, changed: bool)
    ensures out == Join(Kept(Scan(DISK, s)))
    ensures changed <==> HasCDROM(Scan(DISK, s))
    ensures changed <==> exists b | b in Matches(DISK, s) :: IsCDROMDisk(b)
    ensures !changed ==> out == s
  {
    AnyCDROM(Scan(DISK, s));
    KeepsAll(Scan(DISK, s));
    JoinScan(DISK, s);
    ReadFirst(DISK, s);
    var matches := FindAll(DISK, s);
    if |matches| == 0 {
      return s, false;
    }
    changed := false;
    out := "";
    var last: nat := 0;
    ghost var at: nat, rest := 0, Scan(DISK, s);
    for i := 0 to |matches|
      invariant Stripping(s, matches, i, at, rest, out, last, changed)
    {
      StripStep(s, matches, i, at, rest, out, last, changed);
      var loc := matches[i];
      if IsCDROMDisk(s[loc.from..loc.to]) {
        out := out + s[last..loc.from];
        last := loc.to;
        changed := true;
      }
      at := loc.to;
      rest := rest.rest;
    }
    StripEnd(s, matches, at, rest, out, last, changed);
    if !changed {
      return s, false;
    }
    out := out + s[last..];
  }

  /** After `i` disks, `at` is where the next gap starts and `last` where the text not yet written starts. */
  ghost predicate Stripping(
    s: string, matches: seq<Loc>, i: nat, at: nat, rest: Doc, out: string, last: nat, changed: bool)
  {
    && Reading(s, matches, i, at, rest) && last <= at
    && out + s[last..at] + Join(Kept(rest)) == Join(Kept(Scan(DISK, s)))
    && (HasCDROM(Scan(DISK, s)) <==> changed || HasCDROM(rest))
  }

  lemma StripStep(s: string, matches: seq<Loc>, i: nat, at: nat, rest: Doc, out: string, last: nat, changed: bool)
    requires Stripping(s, matches, i, at, rest, out, last, changed) && i < |matches|
    ensures
      var loc := matches[i];
      && last <= loc.from <= loc.to <= |s| && rest.Next?
      && (if IsCDROMDisk(s[loc.from..loc.to])
          then Stripping(s, matches, i + 1, loc.to, rest.rest, out + s[last..loc.from], loc.to, true)
          else Stripping(s, matches, i + 1, loc.to, rest.rest, out, last, changed))
  {
    ReadNext(s, matches, i, at, rest);
    KeptPiece(s, out, last, at, matches[i], rest);
  }

  lemma StripEnd(s: string, matches: seq<Loc>, at: nat, rest: Doc, out: string, last: nat, changed: bool)
    requires Stripping(s, matches, |matches|, at, rest, out, last, changed)
    ensures last <= |s| && out + s[last..] == Join(Kept(Scan(DISK, s))) && (changed <==> HasCDROM(Scan(DISK, s)))
  {
    ReadLast(s, matches, at, rest);
    assert Join(Kept(rest)) == s[at..];
    AllWritten(s, out, last, at);
  }

  lemma AllWritten(s: string, out: string, last: nat, at: nat)
    requires last <= at <= |s|
    ensures out + s[last..at] + s[at..] == out + s[last..]
  {
    Assoc(out, s[last..at], s[at..]);
    assert s[last..at] + s[at..] == s[last..];
  }

  lemma KeptPiece(s: string, out: string, last: nat, at: nat, loc: Loc, d: Doc)
    requires d.Next? && last <= at <= loc.from <= loc.to <= |s|
    requires s[at..loc.from] == d.gap && s[loc.from..loc.to] == d.block
    ensures
      out + s[last..at] + Join(Kept(d)) ==
      (if IsCDROMDisk(d.block) then out + s[last..loc.from] + s[loc.to..loc.to] else out + s[last..loc.to])
      + Join(Kept(d.rest))
  {
    KeptStep(out + s[last..at], d);
    SliceJoin(s, last, at, loc.from);
    Assoc(out, s[last..at], d.gap);
    if IsCDROMDisk(d.block) {
      assert s[loc.to..loc.to] == [];
    } else {
      SliceJoin(s, last, loc.from, loc.to);
      Assoc(out, s[last..loc.from], d.block);
    }
  }

  lemma KeptStep(out: string, d: Doc)
    requires d.Next?
    ensures out + Join(Kept(d)) == out + d.gap + (if IsCDROMDisk(d.block) then [] else d.block) + Join(Kept(d.rest))
  {
    JoinPrefix(d.gap, Kept(d.rest));
  }

  lemma {:induction false} AnyCDROM(d: Doc)
    ensures HasCDROM(d) <==> exists b | b in Blocks(d) :: IsCDROMDisk(b)
  {
    if d.Next? {
      AnyCDROM(d.rest);
    }
  }

  lemma {:induction false} KeepsAll(d: Doc)
    ensures !HasCDROM(d) ==> Kept(d) == d
    ensures !HasCDROM(Kept(d))
  {
    if d.Next? {
      KeepsAll(d.rest);
      PrefixSameBlocks(d.gap, Kept(d.rest));
    }
  }

  lemma PrefixSameBlocks(t: string, d: Doc)
    ensures HasCDROM(Prefix(t, d)) <==> HasCDROM(d)
  {
  }

  // ----- A second run -----

  /** The text does not end in the first characters of a disk tag. */
  predicate NoStub(g: string) {
    forall i | 0 <= i < |g| && |g| - i < 5 :: !(g[i..] <= "<disk")
  }

  /** No disk tag is begun right in front of a disk that goes. */
  predicate NoStubBefore(d: Doc) {
    d.Next? ==> (IsCDROMDisk(d.block) ==> NoStub(d.gap)) && NoStubBefore(d.rest)
  }

  /** No disk starts in the gap, even when a `<` follows it. */
  predicate NoStart(g: string) {
    forall i | 0 <= i < |g| :: !Opens(g[i..] + "<", "<disk")
  }

  /** What cutting any text at its disks guarantees, piece by piece. */
  ghost predicate Local(d: Doc) {
    match d
    case Tail(text) => Scan(DISK, text) == Tail(text)
    case Next(gap, block, rest) => NoStart(gap) && block != [] && MatchLen(DISK, block) == |block| && Local(rest)
  }

  lemma MatchNeedsOpen(s: string)
    requires MatchLen(DISK, s) > 0
    ensures Opens(s, "<disk") && '>' in s
  {
    OpensInTag(s, UpTo(s, '>'), "<disk");
  }

  /** A match is one on its own. */
  lemma MatchAlone(p: Pattern, s: string)
    requires p.Paired? && MatchLen(p, s) > 0
    ensures MatchLen(p, s[..MatchLen(p, s)]) == MatchLen(p, s)
  {
    var tag, after, n := SplitPair(p, s);
    TakeInto(tag, after, n);
    MatchAloneFrom(p, tag, after, n);
  }

  lemma SplitPair(p: Pattern, s: string) returns (tag: string, after: string, n: nat)
    requires p.Paired? && MatchLen(p, s) > 0
    ensures s == tag + after && tag != [] && tag[0] == '<' && UpTo(tag, '>') == |tag| - 1 && Fits(p, tag)
    ensures Find(after, p.close) >= 0 && n == Find(after, p.close) + |p.close| <= |after|
    ensures MatchLen(p, s) == |tag| + n
  {
    tag, after := SplitAtTag(p, s);
    n := Find(after, p.close) + |p.close|;
  }

  lemma MatchAloneFrom(p: Pattern, tag: string, after: string, n: nat)
    requires p.Paired? && tag != [] && tag[0] == '<' && UpTo(tag, '>') == |tag| - 1
    requires Fits(p, tag) && Find(after, p.close) >= 0 && n == Find(after, p.close) + |p.close|
    ensures MatchLen(p, tag + after[..n]) == |tag| + n
  {
    ClosedInFront(after, p.close, n);
    FindExtends(after[..n], after[n..], p.close);
    assert after == after[..n] + after[n..];
    MatchOf(p, tag, after[..n]);
  }

  lemma {:induction false} ClosedInFront(s: string, t: string, n: nat)
    requires Find(s, t) >= 0 && n == Find(s, t) + |t|
    ensures n <= |s| && Find(s[..n], t) >= 0
  {
    var r := Find(s, t);
    SliceOfTake(s, n, r, n);
    FindFirst(s[..n], t, r);
  }

  /** An opening tag in front of a whole element is closed by that element. */
  lemma OpenedIsMatched(p: Pattern, s: string, i: nat)
    requires p.Paired? && Proper(p) && i <= |s| && Opens(s, p.open) && MatchLen(p, s[i..]) > 0
    ensures MatchLen(p, s) > 0
  {
    var g, after := CloseLater(p, s, i);
    OpenedAndClosed(p, s, g, s[..g + 1], after);
  }

  /** Behind the first tag there is a closing tag. */
  lemma CloseLater(p: Pattern, s: string, i: nat) returns (g: nat, after: string)
    requires p.Paired? && i <= |s| && MatchLen(p, s[i..]) > 0
    ensures g == UpTo(s, '>') < |s| && after == s[g + 1..] && Find(after, p.close) >= 0
  {
    var h, at := CloseBehind(p, s, i);
    g := FirstEnd(s, h);
    after := s[g + 1..];
    FoundLater(s, p.close, g + 1, at, after);
  }

  lemma FoundLater(s: string, t: string, n: nat, at: nat, rest: string)
    requires n <= at && at + |t| <= |s| && s[at..at + |t|] == t && rest == s[n..]
    ensures Find(rest, t) >= 0
  {
    SliceOfDrop(s, n, at, at + |t|);
    FindFirst(rest, t, at - n);
  }

  /** The end of the first tag lies before every other `>`. */
  lemma FirstEnd(s: string, h: nat) returns (g: nat)
    requires h < |s| && s[h] == '>'
    ensures g == UpTo(s, '>') <= h
  {
    g := UpTo(s, '>');
  }

  lemma CloseBehind(p: Pattern, s: string, i: nat) returns (h: nat, at: nat)
    requires p.Paired? && i <= |s| && MatchLen(p, s[i..]) > 0
    ensures h < at && at + |p.close| <= |s| && s[h] == '>' && s[at..at + |p.close|] == p.close
  {
    var h0, at0 := CloseOf(p, s[i..]);
    h, at := i + h0, i + at0;
    Shifted(s, i, h0, at0, |p.close|);
  }

  lemma Shifted(s: string, i: nat, h: nat, at: nat, n: nat)
    requires i <= |s| && h < |s| - i && at + n <= |s| - i
    ensures s[i..][h] == s[i + h] && s[i..][at..at + n] == s[i + at..i + at + n]
  {
  }

  /** The end of the first tag of a match, and its closing tag. */
  lemma CloseOf(p: Pattern, y: string) returns (h: nat, at: nat)
    requires p.Paired? && MatchLen(p, y) > 0
    ensures h < at && at + |p.close| <= |y| && y[h] == '>' && y[at..at + |p.close|] == p.close
  {
    h := UpTo(y, '>');
    var c := Find(y[h + 1..], p.close);
    at := h + 1 + c;
    SliceOfDrop(y, h + 1, at, at + |p.close|);
  }

  lemma OpenedAndClosed(p: Pattern, s: string, g: nat, tag: string, after: string)
    requires p.Paired? && Proper(p) && g == UpTo(s, '>') && g < |s| && Opens(s, p.open)
    requires tag == s[..g + 1] && after == s[g + 1..] && Find(after, p.close) >= 0
    ensures MatchLen(p, s) > 0
  {
    OpensInTag(s, g, p.open);
    CharAt(p.open, s, 0);
    EndsFirst(s, g);
    MatchOf(p, tag, after);
  }

  lemma OpensLocal(u: string, z: string)
    requires u != [] && z != [] && z[0] == '<'
    ensures Opens(u + z, "<disk") <==> Opens(u + "<", "<disk")
  {
    var a, b := u + z, u + "<";
    assert forall i | 0 <= i <= |u| :: a[i] == b[i];
    assert a[..|u| + 1] == b;
    if |u| >= 5 {
      PrefixWithin("<disk", a, |u| + 1);
    } else {
      assert a[|u|] == '<';
      SecondBracket(a, |u|);
      SecondBracket(b, |u|);
    }
  }

  lemma SecondBracket(a: string, n: nat)
    requires 0 < n < 5 && n < |a| && a[n] == '<'
    ensures !("<disk" <= a)
  {
    CharAt("<disk", a, n);
  }

  lemma {:induction false} ScanIsLocal(s: string)
    ensures Local(Scan(DISK, s))
    decreases |s|
  {
    if s != [] {
      var n := MatchLen(DISK, s);
      if n > 0 {
        MatchAlone(DISK, s);
        ScanIsLocal(s[n..]);
      } else {
        ScanIsLocal(s[1..]);
        JoinScan(DISK, s[1..]);
        LongerGap(s, Scan(DISK, s[1..]));
      }
    }
  }

  lemma LongerGap(s: string, d: Doc)
    requires s != [] && MatchLen(DISK, s) == 0 && Join(d) == s[1..] && Local(d)
    requires Scan(DISK, s) == Prefix(s[..1], d)
    ensures Local(Prefix(s[..1], d))
  {
    match d
    case Tail(text) => assert s == s[..1] + s[1..];
    case Next(gap, block, rest) =>
      GapBeforeBlock(s, gap, block, Join(rest));
  }

  lemma GapBeforeBlock(s: string, gap: string, block: string, rest: string)
    requires s != [] && MatchLen(DISK, s) == 0 && s[1..] == gap + block + rest && NoStart(gap)
    requires MatchLen(DISK, block) == |block| > 0
    ensures NoStart(s[..1] + gap)
  {
    Assoc(gap, block, rest);
    MatchExtends(DISK, block, rest);
    GapGrows(s, gap, block + rest);
  }

  lemma NotOpened(s: string, i: nat)
    requires i <= |s| && MatchLen(DISK, s) == 0 && MatchLen(DISK, s[i..]) > 0
    ensures !Opens(s, DISK.open)
  {
    PatternsProper();
    if Opens(s, DISK.open) {
      OpenedIsMatched(DISK, s, i);
    }
  }

  lemma GapGrows(s: string, gap: string, z: string)
    requires s != [] && MatchLen(DISK, s) == 0 && s[1..] == gap + z && NoStart(gap) && MatchLen(DISK, z) > 0
    ensures NoStart(s[..1] + gap)
  {
    var g := s[..1] + gap;
    assert s == g + z && s[|g|..] == z;
    NotOpened(s, |g|);
    OpensLocal(g, z);
    LongerNoStart(g, gap);
  }

  lemma LongerNoStart(g: string, gap: string)
    requires g != [] && g[1..] == gap && NoStart(gap) && !Opens(g + "<", "<disk")
    ensures NoStart(g)
  {
    forall i | 0 <= i < |g| ensures !Opens(g[i..] + "<", "<disk") {
      if i == 0 {
        assert g[0..] == g;
      } else {
        assert g[i..] == gap[i - 1..];
      }
    }
  }

  lemma {:induction false} PassNoStart(g: string, z: string)
    requires NoStart(g) && z != [] && z[0] == '<'
    ensures Scan(DISK, g + z) == Prefix(g, Scan(DISK, z))
  {
    if g == [] {
      assert g + z == z;
      PrefixNothing(Scan(DISK, z));
    } else {
      assert g[0..] == g;
      OpensLocal(g, z);
      PassOne(g, z);
      NoStartBehind(g);
      PassNoStart(g[1..], z);
    }
  }

  lemma NoStartBehind(g: string)
    requires g != [] && NoStart(g)
    ensures NoStart(g[1..])
  {
    forall i | 0 <= i < |g[1..]| ensures !Opens(g[1..][i..] + "<", "<disk") {
      assert g[1..][i..] == g[i + 1..];
    }
  }

  lemma PassOne(g: string, z: string)
    requires g != [] && !Opens(g + z, "<disk")
    ensures Scan(DISK, g[1..] + z) == Prefix(g[1..], Scan(DISK, z)) ==> Scan(DISK, g + z) == Prefix(g, Scan(DISK, z))
  {
    var s := g + z;
    if MatchLen(DISK, s) > 0 {
      MatchNeedsOpen(s);
    }
    assert s[..1] == g[..1] && s[1..] == g[1..] + z;
    PrefixTwice(g[..1], g[1..], Scan(DISK, z));
    assert g == g[..1] + g[1..];
  }

  lemma Shares(u: string, z: string, t: string)
    requires |u| < |t| && t <= u + z
    ensures u <= t
  {
    assert (u + z)[..|u|] == u && t[..|u|] == (u + z)[..|u|];
  }

  lemma OpensWithin(u: string, z: string, open: string)
    requires |open| < |u|
    ensures Opens(u + z, open) <==> Opens(u, open)
  {
    assert (u + z)[..|open|] == u[..|open|] && (u + z)[|open|] == u[|open|];
    PrefixWithin(open, u, |open|);
    PrefixWithin(open, u + z, |open|);
  }

  /** Where no disk starts before a `<` and none is begun, none starts whatever follows. */
  lemma OpensNowhere(u: string, z: string, open: string)
    requires u != [] && !Opens(u + "<", open) && (|u| < |open| ==> !(u <= open))
    ensures !Opens(u + z, open)
  {
    if |u| > |open| {
      OpensWithin(u, z, open);
      OpensWithin(u, "<", open);
    } else if |u| == |open| {
      assert open <= u + z ==> u == open by { assert (u + z)[..|u|] == u; }
      assert (u + "<")[..|u|] == u && (u + "<")[|u|] == '<';
    } else if open <= u + z {
      Shares(u, z, open);
    }
  }

  lemma StubAt(g: string, i: nat, z: string)
    requires NoStart(g) && NoStub(g) && i < |g|
    ensures !Opens(g[i..] + z, "<disk")
  {
    OpensNowhere(g[i..], z, "<disk");
  }

  lemma {:induction false} PassWhole(g: string, z: string)
    requires NoStart(g) && NoStub(g)
    ensures Scan(DISK, g + z) == Prefix(g, Scan(DISK, z))
  {
    if g == [] {
      assert g + z == z;
      PrefixNothing(Scan(DISK, z));
    } else {
      assert g[0..] == g;
      StubAt(g, 0, z);
      PassOne(g, z);
      NoStartBehind(g);
      NoStubBehind(g);
      PassWhole(g[1..], z);
    }
  }

  lemma NoStubBehind(g: string)
    requires g != [] && NoStub(g)
    ensures NoStub(g[1..])
  {
    forall i | 0 <= i < |g[1..]| && |g[1..]| - i < 5 ensures !(g[1..][i..] <= "<disk") {
      assert g[1..][i..] == g[i + 1..];
    }
  }

  // ----- The demand on gaps is exact -----

  const BARE_DISK := "<disk></disk>"

  lemma BareDisk()
    ensures Scan(DISK, BARE_DISK) == Next([], BARE_DISK, Tail([])) && BARE_DISK[0] == '<'
  {
    var o := "<disk>";
    PatternsProper();
    CloseIsTag();
    assert BARE_DISK == o + [] + CLOSE && IsTag(o) && TagsOf([]) == [];
    assert BlockOf(DISK, o, []);
    BlockFirst(DISK, BARE_DISK, []);
    assert BARE_DISK + [] == BARE_DISK;
  }

  /** Without its first characters it is no disk. */
  lemma CutDisk(n: nat)
    requires 0 < n < 5
    ensures Scan(DISK, BARE_DISK[n..]) == Tail(BARE_DISK[n..])
  {
    var u := BARE_DISK[n..6];
    CloseIsTag();
    assert BARE_DISK[n..] == u + CLOSE;
    assert forall i | 0 <= i < |u| :: u[i] == BARE_DISK[n + i];
    ScanText(DISK, u, CLOSE);
    PassTag(DISK, CLOSE, []);
    assert CLOSE + [] == CLOSE;
  }

  lemma NoStartPrefix(g: string, i: nat)
    requires NoStart(g) && i < |g| && g[i] == '<'
    ensures NoStart(g[..i])
  {
    forall j | 0 <= j < i ensures !Opens(g[..i][j..] + "<", "<disk") {
      assert g[..i][j..] == g[j..i] && g[j..] == g[j..i] + g[i..];
      OpensLocal(g[j..i], g[i..] + "<");
      Assoc(g[j..i], g[i..], "<");
    }
  }

  /** The beginning of a disk tag is completed to a disk by text that has none. */
  lemma StubOf(u: string) returns (b: string, z: string)
    requires u != [] && |u| < 5 && u <= "<disk"
    ensures b == u + z && b != [] && u[0] == '<' && Scan(DISK, b).Next? && Scan(DISK, z).Tail?
  {
    BareDisk();
    BareOpens();
    PrefixOf(u, "<disk", BARE_DISK);
    CutDisk(|u|);
    b, z := BARE_DISK, BARE_DISK[|u|..];
  }

  lemma BareOpens()
    ensures "<disk" <= BARE_DISK
  {
  }

  lemma PrefixOf(u: string, t: string, b: string)
    requires u != [] && u <= t <= b
    ensures |u| <= |b| && b == u + b[|u|..] && u[0] == b[0]
  {
    assert b[..|u|] == t[..|u|];
  }

  lemma StubCompletes(a: string, u: string, b: string, z: string)
    requires NoStart(a + u) && u != [] && u[0] == '<' && b == u + z && Scan(DISK, b).Next? && Scan(DISK, z).Tail?
    ensures Scan(DISK, a + u + z) != Prefix(a + u, Scan(DISK, z))
  {
    NoStartPrefix(a + u, |a|);
    assert (a + u)[..|a|] == a;
    Assoc(a, u, z);
    FoundOnlyTogether(a, b, a + u, z);
  }

  lemma StubShows(a: string, u: string) returns (z: string)
    requires NoStart(a + u) && u != [] && |u| < 5 && u <= "<disk"
    ensures Scan(DISK, a + u + z) != Prefix(a + u, Scan(DISK, z))
  {
    var b;
    b, z := StubOf(u);
    StubCompletes(a, u, b, z);
  }

  lemma FoundOnlyTogether(a: string, b: string, g: string, z: string)
    requires a + b == g + z && NoStart(a) && b != [] && b[0] == '<' && Scan(DISK, b).Next? && Scan(DISK, z).Tail?
    ensures Scan(DISK, g + z) != Prefix(g, Scan(DISK, z))
  {
    PassNoStart(a, b);
  }

  /** A gap is passed over whatever follows it exactly when it does not end in the beginning of a disk tag. */
  lemma PassExactly(g: string)
    requires NoStart(g)
    ensures (forall z :: Scan(DISK, g + z) == Prefix(g, Scan(DISK, z))) <==> NoStub(g)
  {
    if NoStub(g) {
      forall z ensures Scan(DISK, g + z) == Prefix(g, Scan(DISK, z)) {
        PassWhole(g, z);
      }
    } else {
      var i :| 0 <= i < |g| && |g| - i < 5 && g[i..] <= "<disk";
      assert g == g[..i] + g[i..];
      var z := StubShows(g[..i], g[i..]);
    }
  }

  lemma {:induction false} KeptLocal(d: Doc)
    requires Local(d) && NoStubBefore(d)
    ensures Local(Kept(d))
  {
    if d.Next? {
      KeptLocal(d.rest);
      if IsCDROMDisk(d.block) {
        MergedGap(d.gap, Kept(d.rest));
      }
    }
  }

  lemma MergedGap(g: string, d: Doc)
    requires NoStart(g) && NoStub(g) && Local(d)
    ensures Local(Prefix(g, d))
  {
    match d
    case Tail(text) => PassWhole(g, text);
    case Next(gap, _, _) =>
      var m := g + gap;
      forall i | 0 <= i < |m| ensures !Opens(m[i..] + "<", "<disk") {
        if i < |g| {
          StubAt(g, i, gap + "<");
          assert m[i..] + "<" == g[i..] + (gap + "<");
        } else {
          assert m[i..] == gap[i - |g|..];
        }
      }
  }

  lemma {:induction false} ScanOfLocal(d: Doc)
    requires Local(d)
    ensures Scan(DISK, Join(d)) == d
  {
    if d.Next? {
      ScanOfLocal(d.rest);
      var z := d.block + Join(d.rest);
      MatchExtends(DISK, d.block, Join(d.rest));
      assert z[..|d.block|] == d.block && z[|d.block|..] == Join(d.rest);
      PassNoStart(d.gap, z);
      Assoc(d.gap, d.block, Join(d.rest));
      assert d.gap + [] == d.gap;
    }
  }

  /** What is left is cut into exactly the other disks, if and only if no disk starts in the text that the removed
      ones leave behind. */
  lemma OthersStayExactly(s: string)
    ensures
      var d := Scan(DISK, s);
      Scan(DISK, Join(Kept(d))) == Kept(d) <==> Local(Kept(d))
  {
    var d := Scan(DISK, s);
    ScanIsLocal(Join(Kept(d)));
    if Local(Kept(d)) {
      ScanOfLocal(Kept(d));
    }
  }

  /** When no disk tag is begun right in front of a removed disk, the remaining disks are exactly the others, and a
      second run changes nothing. */
  lemma StripTwice(s: string)
    requires NoStubBefore(Scan(DISK, s))
    ensures
      var out := Join(Kept(Scan(DISK, s)));
      Scan(DISK, out) == Kept(Scan(DISK, s)) && !HasCDROM(Scan(DISK, out)) && Join(Kept(Scan(DISK, out))) == out
  {
    var d := Scan(DISK, s);
    ScanIsLocal(s);
    KeptLocal(d);
    ScanOfLocal(Kept(d));
    KeepsAll(d);
    KeepsAll(Kept(d));
  }
}
