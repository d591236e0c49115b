/** The few fixed element patterns of internal/libvirt/domain_xml.go, matched leftmost and non-greedily on text. */
module XmlScan {

  // ----- Searching -----

  /** `\w` */
  predicate WordChar(c: char) {
    'a' <= c <= 'z' || 'A' <= c <= 'Z' || '0' <= c <= '9' || c == '_'
  }

  /** `\s` */
  predicate SpaceChar(c: char) {
    c == '\t' || c == '\n' || c == '\U{0C}' || c == '\r' || c == ' '
  }

  /** The index of the first `c`, or the length. */
  function UpTo(s: string, c: char): (n: nat)
    ensures n <= |s| && (n < |s| ==> s[n] == c)
    ensures forall i | 0 <= i < n :: s[i] != c
  {
    if s == [] || s[0] == c then 0 else 1 + UpTo(s[1..], c)
  }

  /** The index of the first occurrence of `t`, or -1. */
  function Find(s: string, t: string): (r: int)
    ensures -1 <= r && (r >= 0 ==> r + |t| <= |s| && s[r..r + |t|] == t)
  {
    if t <= s then 0
    else if s == [] then -1
    else
      var r := Find(s[1..], t);
      if r < 0 then -1
      else
        assert s[r + 1..r + 1 + |t|] == s[1..][r..r + |t|];
        r + 1
  }

  /** Find finds something, and nothing occurs before it. */
  lemma {:induction false} FindFirst(s: string, t: string, i: nat)
    requires i + |t| <= |s| && s[i..i + |t|] == t
    ensures 0 <= Find(s, t) <= i
  {
    if i > 0 {
      assert s[1..][i - 1..i - 1 + |t|] == s[i..i + |t|];
      FindFirst(s[1..], t, i - 1);
    } else {
      assert s[0..|t|] == s[..|t|];
    }
  }

  lemma CharAt(t: string, s: string, n: nat)
    requires n < |t| && n < |s|
    ensures t <= s ==> s[n] == t[n]
  {
  }

  lemma SliceJoin(s: string, a: nat, b: nat, c: nat)
    requires a <= b <= c <= |s|
    ensures s[a..b] + s[b..c] == s[a..c]
  {
  }

  lemma SliceOfTake(s: string, n: nat, a: nat, b: nat)
    requires a <= b <= n <= |s|
    ensures s[..n][a..b] == s[a..b]
  {
  }

  lemma SliceOfDrop(s: string, n: nat, a: nat, b: nat)
    requires n <= a <= b <= |s|
    ensures s[n..][a - n..b - n] == s[a..b]
  {
  }

  lemma TakeInto(x: string, y: string, m: nat)
    requires m <= |y|
    ensures (x + y)[..|x| + m] == x + y[..m]
  {
  }

  lemma Assoc(x: string, y: string, z: string)
    ensures x + y + z == x + (y + z)
  {
  }

  // ----- Patterns -----

  /** `SelfClosing(o)` is `o\b[^>]*` up to `/>`; `Bare(o)` allows only white space before the slash; `Exact` is one
      literal tag; `Paired(o, c)` runs from `o\b[^>]*>` to the first `c` after it. */
  datatype Pattern =
    | SelfClosing(open: string)
    | Bare(open: string)
    | Exact(tag: string)
    | Paired(open: string, close: string)

  /** Names start with `<` and contain no `>`; a literal tag has angle brackets only at its two ends. */
  predicate IsOpen(open: string) {
    |open| > 1 && open[0] == '<' && '>' !in open
  }

  predicate IsTag(tag: string) {
    && |tag| > 1 && tag[0] == '<' && tag[|tag| - 1] == '>'
    && (forall i | 1 <= i < |tag| :: tag[i] != '<')
    && (forall i | 0 <= i < |tag| - 1 :: tag[i] != '>')
  }

  predicate Proper(p: Pattern) {
    match p
    case SelfClosing(open) => IsOpen(open)
    case Bare(open) => IsOpen(open)
    case Exact(tag) => IsTag(tag)
    case Paired(open, close) => IsOpen(open) && IsTag(close)
  }

  /** `open\b` at the start of the text. */
  predicate Opens(s: string, open: string) {
    open <= s && (|s| == |open| || !WordChar(s[|open|]))
  }

  predicate AllSpace(s: string) {
    forall i | 0 <= i < |s| :: SpaceChar(s[i])
  }

  /** Whether text up to and including its first `>` is a match of a one-tag pattern, or the first tag of a pair. */
  predicate Fits(p: Pattern, tag: string) {
    match p
    case SelfClosing(open) => Opens(tag, open) && |tag| >= |open| + 2 && tag[|tag| - 2] == '/'
    case Bare(open) =>
      open <= tag && |tag| >= |open| + 2 && tag[|tag| - 2] == '/' && AllSpace(tag[|open|..|tag| - 2])
    case Exact(text) => tag == text
    case Paired(open, _) => Opens(tag, open)
  }

  /** The match that starts with `tag`, when `after` follows. */
  function LenFrom(p: Pattern, tag: string, after: string): (n: nat)
    ensures n <= |tag| + |after|
  {
    if !Fits(p, tag) then 0
    else if !p.Paired? then |tag|
    else
      var c := Find(after, p.close);
      if c < 0 then 0 else |tag| + c + |p.close|
  }

  /** How long the match at the start of the text is; 0 when there is none. */
  function MatchLen(p: Pattern, s: string): (n: nat)
    ensures n <= |s| && (n > 0 ==> s[0] == '<')
  {
    var g := UpTo(s, '>');
    if s == [] || s[0] != '<' || g == |s| then 0 else LenFrom(p, s[..g + 1], s[g + 1..])
  }

  // ----- All matches -----

  /** Text cut at the matches of a pattern: the text before each match, the match, and the text after the last. */
  datatype Doc = Tail(text: string) | Next(gap: string, block: string, rest: Doc)

  function Prefix(t: string, d: Doc): Doc {
    match d
    case Tail(text) => Tail(t + text)
    case Next(gap, block, rest) => Next(t + gap, block, rest)
  }

  function Scan(p: Pattern, s: string): Doc {
    if s == [] then Tail([])
    else
      var n := MatchLen(p, s);
      if n > 0 then Next([], s[..n], Scan(p, s[n..]))
      else Prefix(s[..1], Scan(p, s[1..]))
  }

  function Join(d: Doc): string {
    match d
    case Tail(text) => text
    case Next(gap, block, rest) => gap + block + Join(rest)
  }

  function Blocks(d: Doc): seq<string> {
    match d
    case Tail(_) => []
    case Next(_, block, rest) => [block] + Blocks(rest)
  }

  function Matches(p: Pattern, s: string): seq<string> {
    Blocks(Scan(p, s))
  }

  function Append(a: Doc, b: Doc): Doc {
    match a
    case Tail(text) => Prefix(text, b)
    case Next(gap, block, rest) => Next(gap, block, Append(rest, b))
  }

  lemma {:induction false} JoinPrefix(t: string, d: Doc)
    ensures Join(Prefix(t, d)) == t + Join(d)
    ensures Blocks(Prefix(t, d)) == Blocks(d)
  {
    if d.Next? {
      assert t + d.gap + d.block + Join(d.rest) == t + (d.gap + d.block + Join(d.rest));
    }
  }

  lemma JoinCut(s: string, n: nat, d: Doc)
    requires n <= |s| && Join(d) == s[n..]
    ensures Join(Next([], s[..n], d)) == s && Join(Prefix(s[..n], d)) == s
  {
    JoinPrefix(s[..n], d);
    assert s == s[..n] + s[n..];
  }

  /** Cutting loses nothing. */
  lemma {:induction false} JoinScan(p: Pattern, s: string)
    ensures Join(Scan(p, s)) == s
  {
    if s != [] {
      var n := MatchLen(p, s);
      if n > 0 {
        JoinScan(p, s[n..]);
        JoinCut(s, n, Scan(p, s[n..]));
      } else {
        JoinScan(p, s[1..]);
        JoinCut(s, 1, Scan(p, s[1..]));
      }
    }
  }

  /** Every block is a match where it was found. */
  lemma {:induction false} MatchIn(p: Pattern, s: string, k: nat) returns (y: string)
    requires k < |Matches(p, s)|
    ensures MatchLen(p, y) > 0 && Matches(p, s)[k] == y[..MatchLen(p, y)]
    decreases |s|
  {
    var n := MatchLen(p, s);
    if n == 0 {
      JoinPrefix(s[..1], Scan(p, s[1..]));
      y := MatchIn(p, s[1..], k);
    } else if k == 0 {
      y := s;
    } else {
      y := MatchIn(p, s[n..], k - 1);
    }
  }

  lemma {:induction false} JoinAppend(a: Doc, b: Doc)
    ensures Join(Append(a, b)) == Join(a) + Join(b)
    ensures Blocks(Append(a, b)) == Blocks(a) + Blocks(b)
  {
    match a
    case Tail(text) => JoinPrefix(text, b);
    case Next(gap, block, rest) =>
      JoinAppend(rest, b);
      assert gap + block + (Join(rest) + Join(b)) == gap + block + Join(rest) + Join(b);
      assert [block] + (Blocks(rest) + Blocks(b)) == [block] + Blocks(rest) + Blocks(b);
  }

  // ----- Cutting a concatenation -----

  /** No text appended can turn a failed match at the start into a successful one. */
  predicate Decided(p: Pattern, s: string) {
    s == [] || s[0] != '<' || ('>' in s && (p.Paired? ==> !Opens(s, p.open)))
  }

  /** Every match the text starts, it also decides. */
  predicate Settled(p: Pattern, s: string) {
    s == [] ||
    (var n := MatchLen(p, s);
     if n > 0 then Settled(p, s[n..]) else Decided(p, s) && Settled(p, s[1..]))
  }

  lemma UpToConcat(a: string, b: string, c: char)
    ensures UpTo(a, c) < |a| ==> UpTo(a + b, c) == UpTo(a, c)
    ensures UpTo(a, c) == |a| ==> UpTo(a + b, c) == |a| + UpTo(b, c)
  {
    var n, m, k := UpTo(a, c), UpTo(b, c), UpTo(a + b, c);
    if n < |a| {
      assert (a + b)[n] == c;
    } else if m < |b| {
      assert (a + b)[n + m] == c;
    }
    assert forall i | 0 <= i < |b| :: (a + b)[|a| + i] == b[i];
    assert k < |a| ==> (a + b)[k] == a[k];
  }

  /** Text appended changes nothing about what was found. */
  lemma FindExtends(a: string, b: string, t: string)
    requires Find(a, t) >= 0
    ensures Find(a + b, t) == Find(a, t)
  {
    var r := Find(a, t);
    assert (a + b)[r..r + |t|] == a[r..r + |t|];
    FindFirst(a + b, t, r);
    var q := Find(a + b, t);
    assert (a + b)[q..q + |t|] == a[q..q + |t|];
    FindFirst(a, t, q);
  }

  lemma LenExtends(p: Pattern, tag: string, after: string, b: string)
    requires LenFrom(p, tag, after) > 0
    ensures LenFrom(p, tag, after + b) == LenFrom(p, tag, after)
  {
    if p.Paired? {
      FindExtends(after, b, p.close);
    }
  }

  lemma FirstTagConcat(a: string, b: string)
    requires '>' in a
    ensures
      var g := UpTo(a, '>');
      g < |a| && UpTo(a + b, '>') == g && (a + b)[..g + 1] == a[..g + 1] && (a + b)[g + 1..] == a[g + 1..] + b
  {
    UpToConcat(a, b, '>');
  }

  lemma EndsFirst(s: string, g: nat)
    requires g == UpTo(s, '>') && g < |s|
    ensures UpTo(s[..g + 1], '>') == g && s == s[..g + 1] + s[g + 1..]
  {
    var t, rest := s[..g + 1], s[g + 1..];
    assert t[g] == '>' && s == t + rest;
    UpToConcat(t, rest, '>');
  }

  /** The first tag of a match and what follows it. */
  lemma SplitAtTag(p: Pattern, s: string) returns (tag: string, after: string)
    requires MatchLen(p, s) > 0
    ensures s == tag + after && tag != [] && tag[0] == '<' && UpTo(tag, '>') == |tag| - 1
    ensures MatchLen(p, s) == LenFrom(p, tag, after)
  {
    var g := UpTo(s, '>');
    tag, after := s[..g + 1], s[g + 1..];
    EndsFirst(s, g);
  }

  lemma MatchOf(p: Pattern, tag: string, after: string)
    requires tag != [] && tag[0] == '<' && UpTo(tag, '>') == |tag| - 1
    ensures MatchLen(p, tag + after) == LenFrom(p, tag, after)
  {
    UpToConcat(tag, after, '>');
    assert (tag + after)[..|tag|] == tag && (tag + after)[|tag|..] == after;
  }

  lemma MatchExtends(p: Pattern, a: string, b: string)
    requires MatchLen(p, a) > 0
    ensures MatchLen(p, a + b) == MatchLen(p, a)
  {
    var tag, after := SplitAtTag(p, a);
    LenExtends(p, tag, after, b);
    MatchOf(p, tag, after + b);
    Assoc(tag, after, b);
  }

  /** The name and the character after it lie before the first `>`, or are it. */
  lemma OpensInTag(s: string, g: nat, open: string)
    requires g < |s| && s[g] == '>' && '>' !in open
    ensures Opens(s[..g + 1], open) <==> Opens(s, open)
  {
    if |open| <= g {
      PrefixWithin(open, s, g + 1);
    } else {
      OnlyWithChar(open, s, g);
      OnlyWithChar(open, s[..g + 1], g);
    }
  }

  lemma OnlyWithChar(t: string, s: string, g: nat)
    requires g < |t| && g < |s|
    ensures t <= s ==> s[g] in t
  {
    assert t <= s ==> t[g] == s[g];
  }

  lemma PrefixWithin(t: string, s: string, n: nat)
    requires |t| <= n <= |s|
    ensures t <= s[..n] <==> t <= s
  {
    assert s[..n][..|t|] == s[..|t|];
  }

  lemma StaysUnmatched(p: Pattern, a: string, b: string)
    requires a != [] && MatchLen(p, a) == 0 && Decided(p, a) && Proper(p)
    ensures MatchLen(p, a + b) == 0
  {
    if a[0] == '<' {
      var g := UpTo(a, '>');
      FirstTagConcat(a, b);
      if p.Paired? {
        OpensInTag(a, g, p.open);
      }
    }
  }

  lemma {:induction false} PrefixAppend(t: string, a: Doc, b: Doc)
    ensures Append(Prefix(t, a), b) == Prefix(t, Append(a, b))
  {
    if a.Tail? {
      PrefixTwice(t, a.text, b);
    }
  }

  lemma PrefixTwice(t: string, u: string, d: Doc)
    ensures Prefix(t + u, d) == Prefix(t, Prefix(u, d))
  {
    match d
    case Tail(text) => assert t + u + text == t + (u + text);
    case Next(gap, _, _) => assert t + u + gap == t + (u + gap);
  }

  /** Settled text and what follows it are cut independently. */
  lemma {:induction false} ScanConcat(p: Pattern, a: string, b: string)
    requires Proper(p) && Settled(p, a)
    ensures Scan(p, a + b) == Append(Scan(p, a), Scan(p, b))
    decreases |a|
  {
    if a == [] {
      assert a + b == b;
      PrefixNothing(Scan(p, b));
    } else {
      var n := MatchLen(p, a);
      if n > 0 {
        MatchExtends(p, a, b);
        assert (a + b)[..n] == a[..n] && (a + b)[n..] == a[n..] + b;
        ScanConcat(p, a[n..], b);
      } else {
        StaysUnmatched(p, a, b);
        assert (a + b)[..1] == a[..1] && (a + b)[1..] == a[1..] + b;
        ScanConcat(p, a[1..], b);
        PrefixAppend(a[..1], Scan(p, a[1..]), Scan(p, b));
      }
    }
  }

  lemma PrefixNothing(d: Doc)
    ensures Prefix([], d) == d
  {
    match d
    case Tail(text) => assert [] + text == text;
    case Next(gap, _, _) => assert [] + gap == gap;
  }

  lemma MatchesConcat(p: Pattern, a: string, b: string)
    requires Proper(p) && Settled(p, a)
    ensures Matches(p, a + b) == Matches(p, a) + Matches(p, b)
  {
    ScanConcat(p, a, b);
    JoinAppend(Scan(p, a), Scan(p, b));
  }

  // ----- Match positions -----

  datatype Loc = Loc(from: nat, to: nat)

  /** Where the matches of a cut text lie when it starts at position `at`. */
  function Locs(d: Doc, at: nat): seq<Loc> {
    match d
    case Tail(_) => []
    case Next(gap, block, rest) =>
      var to := at + |gap| + |block|;
      [Loc(at + |gap|, to)] + Locs(rest, to)
  }

  /** FindAllStringIndex. */
  function FindAll(p: Pattern, s: string): seq<Loc> {
    Locs(Scan(p, s), 0)
  }

  lemma FirstLoc(s: string, last: nat, d: Doc)
    requires last <= |s| && d.Next? && s[last..] == Join(d)
    ensures
      var from, to := last + |d.gap|, last + |d.gap| + |d.block|;
      && to <= |s| && s[last..from] == d.gap && s[from..to] == d.block && s[to..] == Join(d.rest)
      && Locs(d, last) == [Loc(from, to)] + Locs(d.rest, to)
  {
    var from, to := last + |d.gap|, last + |d.gap| + |d.block|;
    assert Join(d)[..|d.gap|] == d.gap;
    assert Join(d)[|d.gap|..|d.gap| + |d.block|] == d.block;
    assert Join(d)[|d.gap| + |d.block|..] == Join(d.rest);
    assert s[last..][..|d.gap|] == s[last..from];
    assert s[last..][|d.gap|..|d.gap| + |d.block|] == s[from..to];
    assert s[last..][|d.gap| + |d.block|..] == s[to..];
  }

  /** Reading a text match by match: from `last` on, `rest` is what is still to come. */
  ghost predicate Reading(s: string, matches: seq<Loc>, i: nat, last: nat, rest: Doc) {
    i <= |matches| && last <= |s| && s[last..] == Join(rest) && matches[i..] == Locs(rest, last)
  }

  lemma ReadFirst(p: Pattern, s: string)
    ensures Reading(s, FindAll(p, s), 0, 0, Scan(p, s))
    ensures FindAll(p, s) == [] <==> Scan(p, s).Tail?
  {
    JoinScan(p, s);
    assert s[0..] == s && FindAll(p, s)[0..] == FindAll(p, s);
  }

  lemma ReadNext(s: string, matches: seq<Loc>, i: nat, last: nat, rest: Doc)
    requires Reading(s, matches, i, last, rest) && i < |matches|
    ensures
      var loc := matches[i];
      && rest.Next? && last <= loc.from <= loc.to <= |s|
      && s[last..loc.from] == rest.gap && s[loc.from..loc.to] == rest.block
      && Reading(s, matches, i + 1, loc.to, rest.rest)
  {
    assert matches[i..] != [] && matches[i..][0] == matches[i];
    FirstLoc(s, last, rest);
    assert matches[i + 1..] == matches[i..][1..];
  }

  lemma ReadLast(s: string, matches: seq<Loc>, last: nat, rest: Doc)
    requires Reading(s, matches, |matches|, last, rest)
    ensures rest == Tail(s[last..])
  {
    assert matches[|matches|..] == [];
  }
}
