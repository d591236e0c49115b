/** Elements with an opening and a closing tag in tag-balanced text: cutting at them and putting rewritten pieces back
    together are inverse to each other. */
module XmlPairs {
  import opened XmlScan
  import opened XmlClean
  import opened XmlRewrite

  ghost predicate NoOpens(open: string, tags: seq<string>) {
    forall i | 0 <= i < |tags| :: !Opens(tags[i], open)
  }

  /** An opening tag, an inside without the closing tag, and the closing tag. */
  ghost predicate IsBlock(p: Pattern, b: string)
    requires p.Paired?
  {
    exists o: string, x: string :: b == o + x + p.close && BlockOf(p, o, x)
  }

  ghost predicate BlockOf(p: Pattern, o: string, x: string)
    requires p.Paired?
  {
    IsTag(o) && Opens(o, p.open) && Clean(x) && Select(Exact(p.close), TagsOf(x)) == []
  }

  /** A text cut so that gaps open no element, blocks are whole elements, and nothing is left open at the end. */
  ghost predicate WellCut(p: Pattern, d: Doc)
    requires p.Paired?
  {
    match d
    case Tail(text) => Clean(text) && NoOpens(p.open, TagsOf(text))
    case Next(gap, block, rest) =>
      Clean(gap) && NoOpens(p.open, TagsOf(gap)) && IsBlock(p, block) && WellCut(p, rest)
  }

  // ----- Closing tags -----

  lemma SameTag(t: string, c: string, z: string)
    requires IsTag(t) && IsTag(c) && c <= t + z
    ensures t == c
  {
    TagFirst(t, z);
    TagFirst(c, (t + z)[|c|..]);
    assert t + z == c + (t + z)[|c|..];
  }

  lemma TagsSplit(x: string, i: nat)
    requires i <= |x| && Clean(x[..i])
    ensures TagsOf(x) == TagsOf(x[..i]) + TagsOf(x[i..])
  {
    TagsConcat(x[..i], x[i..]);
    assert x == x[..i] + x[i..];
  }

  lemma TagAt(x: string, i: nat) returns (t: string, rest: string)
    requires Clean(x) && i < |x| && x[i] == '<'
    ensures x[i..] == t + rest && IsTag(t) && t in TagsOf(x)
  {
    CleanAt(x, i);
    t, rest := TagInFront(x[i..]);
    TagsSplit(x, i);
  }

  lemma TagInFront(y: string) returns (t: string, rest: string)
    requires Clean(y) && y != [] && y[0] == '<'
    ensures y == t + rest && IsTag(t) && t in TagsOf(y)
  {
    FirstTag(y);
    FirstTagListed(y);
    var g := UpTo(y, '>') + 1;
    t, rest := y[..g], y[g..];
  }

  lemma FirstTagListed(y: string)
    requires Clean(y) && y != [] && y[0] == '<'
    ensures UpTo(y, '>') < |y| && y[..UpTo(y, '>') + 1] in TagsOf(y)
  {
    assert TagsOf(y)[0] == y[..UpTo(y, '>') + 1];
  }

  lemma {:induction false} SelectHas(p: Pattern, tags: seq<string>, t: string)
    ensures t in Select(p, tags) <==> t in tags && Fits(p, t)
  {
    if tags != [] {
      SelectHas(p, tags[1..], t);
      assert tags == tags[..1] + tags[1..];
    }
  }

  /** A closing tag does not start inside text without one. */
  lemma NoCloseWithin(x: string, c: string, rest: string, i: nat)
    requires Clean(x) && IsTag(c) && Select(Exact(c), TagsOf(x)) == [] && i < |x|
    ensures !(c <= x[i..] + rest)
  {
    if c <= x[i..] + rest {
      CharAt(c, x[i..] + rest, 0);
      var t, after := TagAt(x, i);
      Assoc(t, after, rest);
      SameTag(t, c, after + rest);
      SelectHas(Exact(c), TagsOf(x), c);
    }
  }

  /** The first closing tag behind an inside without one is the one that follows it. */
  lemma FindClose(x: string, c: string, rest: string)
    requires Clean(x) && IsTag(c) && Select(Exact(c), TagsOf(x)) == []
    ensures Find(x + c + rest, c) == |x|
  {
    var s := x + c + rest;
    assert s[|x|..|x| + |c|] == c;
    FindFirst(s, c, |x|);
    var q := Find(s, c);
    if q < |x| {
      StartsIn(x, c, rest, q);
      NoCloseWithin(x, c, c + rest, q);
    }
  }

  lemma StartsIn(x: string, c: string, rest: string, q: nat)
    requires q < |x| && (x + c + rest)[q..q + |c|] == c
    ensures c <= x[q..] + (c + rest)
  {
    assert (x + c + rest)[q..] == x[q..] + (c + rest);
    assert (x + c + rest)[q..][..|c|] == c;
  }

  lemma {:induction false} TagOccurs(x: string, t: string) returns (i: nat)
    requires Clean(x) && t in TagsOf(x)
    ensures i < |x| && t <= x[i..]
    decreases |x|
  {
    if x[0] != '<' {
      i := TagOccurs(x[1..], t);
      assert x[1..][i..] == x[i + 1..];
      i := i + 1;
    } else {
      var g := UpTo(x, '>') + 1;
      if t == x[..g] {
        i := 0;
        assert x[0..] == x;
      } else {
        FirstTag(x);
        i := TagOccurs(x[g..], t);
        assert x[g..][i..] == x[g + i..];
        i := g + i;
      }
    }
  }

  // ----- Blocks are matches -----

  lemma BlockMatches(p: Pattern, o: string, x: string, rest: string)
    requires p.Paired? && Proper(p) && BlockOf(p, o, x)
    ensures MatchLen(p, o + x + p.close + rest) == |o + x + p.close|
    ensures (o + x + p.close + rest)[|o + x + p.close|..] == rest
    ensures (o + x + p.close + rest)[..|o + x + p.close|] == o + x + p.close
  {
    var after := x + p.close + rest;
    assert o + x + p.close + rest == o + after;
    TagFirst(o, after);
    FindClose(x, p.close, rest);
  }

  lemma BlockClean(p: Pattern, b: string)
    requires p.Paired? && Proper(p) && IsBlock(p, b)
    ensures Clean(b)
  {
    var o, x :| b == o + x + p.close && BlockOf(p, o, x);
    TagBefore(o, x, p.close);
  }

  lemma MatchIsBlock(p: Pattern, s: string)
    requires p.Paired? && Proper(p) && Clean(s) && MatchLen(p, s) > 0
    ensures IsBlock(p, s[..MatchLen(p, s)])
  {
    FirstTag(s);
    var g := UpTo(s, '>') + 1;
    BlockFrom(p, s, g);
  }

  lemma BlockFrom(p: Pattern, s: string, g: nat)
    requires p.Paired? && Proper(p) && g <= |s| && IsTag(s[..g]) && Opens(s[..g], p.open) && Clean(s[g..])
    requires Find(s[g..], p.close) >= 0
    ensures g + Find(s[g..], p.close) + |p.close| <= |s|
    ensures IsBlock(p, s[..g + Find(s[g..], p.close) + |p.close|])
  {
    FirstClose(s[g..], p.close);
    MakeBlock(p, s, g, Find(s[g..], p.close));
  }

  lemma MakeBlock(p: Pattern, s: string, g: nat, c: nat)
    requires p.Paired? && g <= |s| && c + |p.close| <= |s[g..]| && s[g..][c..c + |p.close|] == p.close
    requires BlockOf(p, s[..g], s[g..][..c])
    ensures IsBlock(p, s[..g + c + |p.close|])
  {
    PairCut(s, g, c, p.close);
  }

  /** Nothing before the first closing tag is a closing tag. */
  lemma FirstClose(after: string, close: string)
    requires Clean(after) && IsTag(close) && Find(after, close) >= 0
    ensures
      var x := after[..Find(after, close)];
      Clean(x) && Select(Exact(close), TagsOf(x)) == []
  {
    var c := Find(after, close);
    var x := after[..c];
    assert after[c] == after[c..c + |close|][0];
    CleanAt(after, c);
    if close in TagsOf(x) {
      var i := TagOccurs(x, close);
      assert after[i..i + |close|] == x[i..][..|close|];
      FindFirst(after, close, i);
    }
    NothingElse(close, TagsOf(x));
  }

  lemma NothingElse(close: string, tags: seq<string>)
    requires close !in tags
    ensures Select(Exact(close), tags) == []
  {
    var found := Select(Exact(close), tags);
    if found != [] {
      SelectHas(Exact(close), tags, found[0]);
    }
  }

  // ----- Gaps are passed over -----

  lemma {:induction false} PassGap(p: Pattern, g: string, z: string)
    requires p.Paired? && Proper(p) && Clean(g) && NoOpens(p.open, TagsOf(g))
    ensures Scan(p, g + z) == Prefix(g, Scan(p, z))
    ensures Settled(p, z) ==> Settled(p, g + z)
    decreases |g|
  {
    if g == [] {
      assert g + z == z;
      PrefixNothing(Scan(p, z));
    } else if g[0] != '<' {
      PassGap(p, g[1..], z);
      PassChar(p, g, z);
    } else {
      FirstTag(g);
      var n := UpTo(g, '>') + 1;
      FirstDoesNotOpen(p.open, g);
      PassGap(p, g[n..], z);
      PassThen(p, g[..n], g[n..], z);
    }
  }

  lemma PassThen(p: Pattern, t: string, rest: string, z: string)
    requires p.Paired? && Proper(p) && IsTag(t) && !Opens(t, p.open) && Scan(p, rest + z) == Prefix(rest, Scan(p, z))
    ensures Scan(p, t + rest + z) == Prefix(t + rest, Scan(p, z))
    ensures Settled(p, rest + z) ==> Settled(p, t + rest + z)
  {
    PassTag(p, t, rest + z);
    assert t + rest + z == t + (rest + z);
    PrefixTwice(t, rest, Scan(p, z));
  }

  lemma PassChar(p: Pattern, g: string, z: string)
    requires g != [] && g[0] != '<' && Scan(p, g[1..] + z) == Prefix(g[1..], Scan(p, z))
    ensures Scan(p, g + z) == Prefix(g, Scan(p, z))
    ensures Settled(p, g[1..] + z) ==> Settled(p, g + z)
  {
    assert (g + z)[..1] == g[..1] && (g + z)[1..] == g[1..] + z;
    PrefixTwice(g[..1], g[1..], Scan(p, z));
    assert g == g[..1] + g[1..];
  }

  lemma FirstDoesNotOpen(open: string, g: string)
    requires Clean(g) && g != [] && g[0] == '<' && NoOpens(open, TagsOf(g))
    ensures var n := UpTo(g, '>') + 1; n <= |g| && !Opens(g[..n], open) && NoOpens(open, TagsOf(g[n..]))
  {
    var n := UpTo(g, '>') + 1;
    assert TagsOf(g)[0] == g[..n];
    assert forall i | 0 <= i < |TagsOf(g[n..])| :: TagsOf(g[n..])[i] == TagsOf(g)[i + 1];
  }

  lemma PassTag(p: Pattern, t: string, z: string)
    requires p.Paired? && IsTag(t) && !Opens(t, p.open)
    ensures Scan(p, t + z) == Prefix(t, Scan(p, z))
    ensures Proper(p) && Settled(p, z) ==> Settled(p, t + z)
  {
    var s := t + z;
    TagFirst(t, z);
    assert MatchLen(p, s) == 0;
    assert s[1..] == t[1..] + z && s[..1] == t[..1];
    ScanText(p, t[1..], z);
    PrefixTwice(t[..1], t[1..], Scan(p, z));
    assert t == t[..1] + t[1..];
    if Proper(p) {
      OpensInTag(s, |t| - 1, p.open);
      assert s[|t| - 1] == '>';
    }
  }

  // ----- Cutting and joining -----

  lemma {:induction false} SettledBehind(p: Pattern, t: string, b: string)
    requires (forall i | 0 <= i < |t| :: t[i] != '<') && Settled(p, t + b)
    ensures Settled(p, b)
  {
    if t == [] {
      assert t + b == b;
    } else {
      assert (t + b)[1..] == t[1..] + b;
      SettledBehind(p, t[1..], b);
    }
  }

  lemma PrefixWellCut(p: Pattern, t: string, d: Doc)
    requires p.Paired? && Clean(t) && NoOpens(p.open, TagsOf(t)) && WellCut(p, d)
    ensures WellCut(p, Prefix(t, d))
  {
    match d
    case Tail(text) => GapJoined(p.open, t, text);
    case Next(gap, _, _) => GapJoined(p.open, t, gap);
  }

  lemma GapJoined(open: string, a: string, b: string)
    requires Clean(a) && Clean(b) && NoOpens(open, TagsOf(a)) && NoOpens(open, TagsOf(b))
    ensures Clean(a + b) && NoOpens(open, TagsOf(a + b))
  {
    CleanConcat(a, b);
    TagsConcat(a, b);
  }

  /** Every opened element is closed: then cutting leaves nothing open. */
  lemma {:induction false} CutWell(p: Pattern, s: string)
    requires p.Paired? && Proper(p) && Clean(s) && Settled(p, s)
    ensures WellCut(p, Scan(p, s))
    decreases |s|
  {
    if s != [] {
      var n := MatchLen(p, s);
      if n > 0 {
        MatchIsBlock(p, s);
        var a, b := MatchClean(p, s);
        assert b == s[n..];
        CutWell(p, s[n..]);
      } else if s[0] != '<' {
        CutWell(p, s[1..]);
        OneChar(s);
        PrefixWellCut(p, s[..1], Scan(p, s[1..]));
      } else {
        CutAtTag(p, s);
        var g := UpTo(s, '>') + 1;
        CutWell(p, s[g..]);
        PassTag(p, s[..g], s[g..]);
        PrefixWellCut(p, s[..g], Scan(p, s[g..]));
      }
    }
  }

  lemma OneChar(s: string)
    requires s != [] && s[0] != '<'
    ensures Clean(s[..1]) && TagsOf(s[..1]) == []
  {
    TextClean(s[..1]);
    assert s[..1][1..] == [];
  }

  lemma CutAtTag(p: Pattern, s: string)
    requires p.Paired? && Proper(p) && Clean(s) && Settled(p, s) && s != [] && s[0] == '<' && MatchLen(p, s) == 0
    ensures
      var g := UpTo(s, '>') + 1;
      && g <= |s| && s == s[..g] + s[g..] && IsTag(s[..g]) && !Opens(s[..g], p.open)
      && Clean(s[..g]) && TagsOf(s[..g]) == [s[..g]] && Clean(s[g..]) && Settled(p, s[g..])
  {
    FirstTag(s);
    var g := UpTo(s, '>') + 1;
    TagFirst(s[..g], []);
    TagsOfTag(s[..g], []);
    assert s[..g] + [] == s[..g];
    OpensInTag(s, g - 1, p.open);
    assert s[1..] == s[1..g] + s[g..];
    SettledBehind(p, s[1..g], s[g..]);
  }

  /** Pieces put together are cut apart again at the same places. */
  lemma {:induction false} ScanOf(p: Pattern, d: Doc)
    requires p.Paired? && Proper(p) && WellCut(p, d)
    ensures Scan(p, Join(d)) == d && Settled(p, Join(d)) && Clean(Join(d))
  {
    match d
    case Tail(text) =>
      PassGap(p, text, []);
      assert text + [] == text;
    case Next(gap, block, rest) =>
      ScanOf(p, rest);
      Assoc(gap, block, Join(rest));
      JoinedClean(p, gap, block, Join(rest));
      BlockFirst(p, block, Join(rest));
      PassGap(p, gap, block + Join(rest));
      assert gap + [] == gap;
  }

  lemma JoinedClean(p: Pattern, gap: string, block: string, rest: string)
    requires p.Paired? && Proper(p) && Clean(gap) && IsBlock(p, block) && Clean(rest)
    ensures Clean(gap + (block + rest))
  {
    BlockClean(p, block);
    CleanConcat(block, rest);
    CleanConcat(gap, block + rest);
  }

  lemma BlockFirst(p: Pattern, b: string, z: string)
    requires p.Paired? && Proper(p) && IsBlock(p, b)
    ensures Scan(p, b + z) == Next([], b, Scan(p, z))
    ensures Settled(p, z) ==> Settled(p, b + z)
  {
    var o, x :| b == o + x + p.close && BlockOf(p, o, x);
    BlockMatches(p, o, x, z);
  }
}
