/** Tag-balanced text: every `<` opens a tag that ends at the next `>` with no other `<` between. On such text the
    patterns see one tag at a time, and rewriting one kind of element leaves the others alone. */
module XmlClean {
  import opened XmlScan

  predicate Clean(s: string) {
    s == [] ||
    (if s[0] != '<' then Clean(s[1..])
     else
       var g := UpTo(s, '>');
       g < |s| && (forall i | 1 <= i < g :: s[i] != '<') && Clean(s[g + 1..]))
  }

  lemma CutTag(s: string, g: nat)
    requires 0 < g < |s| && s[0] == '<' && s[g] == '>'
    requires (forall i | 0 <= i < g :: s[i] != '>') && (forall i | 1 <= i < g :: s[i] != '<')
    ensures IsTag(s[..g + 1]) && s == s[..g + 1] + s[g + 1..]
  {
  }

  /** Text that starts with a tag: the tag and what follows. */
  lemma FirstTag(s: string)
    requires Clean(s) && s != [] && s[0] == '<'
    ensures
      var g := UpTo(s, '>');
      g < |s| && IsTag(s[..g + 1]) && Clean(s[g + 1..]) && s == s[..g + 1] + s[g + 1..]
  {
    CutTag(s, UpTo(s, '>'));
  }

  lemma TagFirst(t: string, b: string)
    requires IsTag(t)
    ensures UpTo(t + b, '>') == |t| - 1
    ensures (t + b)[..|t|] == t && (t + b)[|t|..] == b
    ensures Clean(t + b) <==> Clean(b)
    ensures Clean(t)
  {
    assert UpTo(t, '>') == |t| - 1;
    UpToConcat(t, b, '>');
    assert (t + b)[|t|..] == b;
    assert t[|t|..] == [];
  }

  lemma {:induction false} CleanConcat(a: string, b: string)
    requires Clean(a)
    ensures Clean(a + b) <==> Clean(b)
    decreases |a|
  {
    if a == [] {
      assert a + b == b;
    } else if a[0] != '<' {
      assert (a + b)[1..] == a[1..] + b;
      CleanConcat(a[1..], b);
    } else {
      FirstTag(a);
      var g := UpTo(a, '>');
      TagFirst(a[..g + 1], a[g + 1..] + b);
      assert a + b == a[..g + 1] + (a[g + 1..] + b);
      CleanConcat(a[g + 1..], b);
    }
  }

  lemma {:induction false} TextClean(t: string)
    requires '<' !in t
    ensures Clean(t)
  {
    if t != [] {
      TextClean(t[1..]);
    }
  }

  /** Text may be cut in front of any tag. */
  lemma {:induction false} CleanAt(s: string, i: nat)
    requires Clean(s) && i < |s| && s[i] == '<'
    ensures Clean(s[..i]) && Clean(s[i..])
    decreases |s|
  {
    if i > 0 {
      var n := if s[0] != '<' then 1 else UpTo(s, '>') + 1;
      FirstPieceEnds(s, i, n);
      CleanAt(s[n..], i - n);
      CutTwice(s, n, i);
      FirstPieceClean(s, n);
      CleanConcat(s[..n], s[n..][..i - n]);
    }
  }

  lemma CutTwice(s: string, n: nat, i: nat)
    requires n <= i <= |s|
    ensures s[..i] == s[..n] + s[n..][..i - n] && s[i..] == s[n..][i - n..]
  {
  }

  lemma FirstPieceEnds(s: string, i: nat, n: nat)
    requires Clean(s) && 0 < i < |s| && s[i] == '<'
    requires n == if s[0] != '<' then 1 else UpTo(s, '>') + 1
    ensures n <= i && Clean(s[n..]) && s[n..][i - n] == '<'
  {
  }

  lemma FirstPieceClean(s: string, n: nat)
    requires Clean(s) && s != [] && n == if s[0] != '<' then 1 else UpTo(s, '>') + 1
    ensures n <= |s| && Clean(s[..n])
  {
    if s[0] == '<' {
      FirstTag(s);
      TagFirst(s[..n], []);
    } else {
      TextClean(s[..n]);
    }
  }

  // ----- One piece at a time -----

  /** A character outside tags. */
  lemma ScanChar(p: Pattern, s: string)
    requires s != [] && s[0] != '<'
    ensures MatchLen(p, s) == 0 && Scan(p, s) == Prefix(s[..1], Scan(p, s[1..]))
  {
  }

  lemma {:induction false} ScanText(p: Pattern, t: string, b: string)
    requires '<' !in t
    ensures Scan(p, t + b) == Prefix(t, Scan(p, b))
    ensures Settled(p, b) ==> Settled(p, t + b)
  {
    if t == [] {
      assert t + b == b;
      PrefixNothing(Scan(p, b));
    } else {
      assert (t + b)[..1] == t[..1] && (t + b)[1..] == t[1..] + b;
      ScanText(p, t[1..], b);
      PrefixTwice(t[..1], t[1..], Scan(p, b));
      assert t == t[..1] + t[1..];
    }
  }

  /** A tag of a one-tag pattern is a match exactly when it fits. */
  lemma ScanTag(p: Pattern, t: string, b: string)
    requires !p.Paired? && IsTag(t)
    ensures Scan(p, t + b) == if Fits(p, t) then Next([], t, Scan(p, b)) else Prefix(t, Scan(p, b))
    ensures Settled(p, b) ==> Settled(p, t + b)
  {
    TagFirst(t, b);
    var s := t + b;
    if Fits(p, t) {
      assert MatchLen(p, s) == |t|;
    } else {
      assert MatchLen(p, s) == 0;
      assert s[1..] == t[1..] + b;
      ScanText(p, t[1..], b);
      PrefixTwice(t[..1], t[1..], Scan(p, b));
      assert t == t[..1] + t[1..] && s[..1] == t[..1];
      assert s[|t| - 1] == '>';
    }
  }

  lemma {:induction false} CleanSettled(p: Pattern, s: string)
    requires Clean(s) && !p.Paired?
    ensures Settled(p, s)
    decreases |s|
  {
    if s != [] {
      if s[0] != '<' {
        CleanSettled(p, s[1..]);
      } else {
        FirstTag(s);
        var g := UpTo(s, '>');
        CleanSettled(p, s[g + 1..]);
        ScanTag(p, s[..g + 1], s[g + 1..]);
      }
    }
  }

  // ----- The pieces of clean text are clean -----

  ghost predicate CleanDoc(d: Doc) {
    match d
    case Tail(text) => Clean(text)
    case Next(gap, block, rest) => Clean(gap) && Clean(block) && CleanDoc(rest)
  }

  lemma PrefixClean(t: string, d: Doc)
    requires Clean(t) && CleanDoc(d)
    ensures CleanDoc(Prefix(t, d))
  {
    match d
    case Tail(text) => CleanConcat(t, text);
    case Next(gap, _, _) => CleanConcat(t, gap);
  }

  lemma TagBefore(t: string, u: string, c: string)
    requires IsTag(t) && Clean(u) && IsTag(c)
    ensures Clean(t + u + c)
  {
    TagFirst(c, []);
    CleanConcat(u, c);
    TagFirst(t, u + c);
    assert t + u + c == t + (u + c);
  }

  /** A match and what follows it are both tag-balanced. */
  lemma MatchClean(p: Pattern, s: string) returns (a: string, b: string)
    requires Clean(s) && Proper(p) && MatchLen(p, s) > 0
    ensures s == a + b && |a| == MatchLen(p, s) && Clean(a) && Clean(b)
  {
    FirstTag(s);
    var g := UpTo(s, '>') + 1;
    if p.Paired? {
      a, b := PairMatchClean(s[..g], s[g..], p.close);
    } else {
      TagFirst(s[..g], []);
      a, b := s[..g], s[g..];
    }
  }

  lemma PairMatchClean(t: string, after: string, close: string) returns (a: string, b: string)
    requires IsTag(t) && Clean(after) && IsTag(close) && Find(after, close) >= 0
    ensures t + after == a + b && |a| == |t| + Find(after, close) + |close| && Clean(a) && Clean(b)
  {
    var c := Find(after, close);
    PairClean(t, after, c, close);
    a, b := t + after[..c] + close, after[c + |close|..];
    CutClose(after, c, close);
    Regrouped(t, after, c, close);
  }

  lemma Regrouped(t: string, after: string, c: nat, close: string)
    requires c + |close| <= |after| && after[c..c + |close|] == close
    ensures t + after == t + after[..c] + close + after[c + |close|..]
  {
  }

  lemma PairCut(s: string, n: nat, c: nat, close: string)
    requires n <= |s| && c + |close| <= |s[n..]| && s[n..][c..c + |close|] == close
    ensures s[..n + c + |close|] == s[..n] + s[n..][..c] + close
    ensures s[n + c + |close|..] == s[n..][c + |close|..]
  {
  }

  lemma PairClean(t: string, after: string, c: nat, close: string)
    requires IsTag(t) && Clean(after) && IsTag(close) && c + |close| <= |after| && after[c..c + |close|] == close
    ensures Clean(t + after[..c] + close) && Clean(after[c + |close|..])
  {
    assert after[c] == after[c..c + |close|][0];
    CleanAt(after, c);
    TagBefore(t, after[..c], close);
    CutClose(after, c, close);
    CleanConcat(close, after[c + |close|..]);
  }

  lemma CutClose(after: string, c: nat, close: string)
    requires IsTag(close) && c + |close| <= |after| && after[c..c + |close|] == close
    ensures after[c..] == close + after[c + |close|..] && Clean(close)
  {
    TagFirst(close, []);
  }

  /** A tag that is no match is passed over. */
  lemma PassUnmatched(p: Pattern, s: string)
    requires Clean(s) && s != [] && s[0] == '<' && MatchLen(p, s) == 0
    ensures
      var g := UpTo(s, '>') + 1;
      g <= |s| && Scan(p, s) == Prefix(s[..g], Scan(p, s[g..])) && Clean(s[..g]) && Clean(s[g..])
  {
    FirstTag(s);
    var g := UpTo(s, '>') + 1;
    var t, rest := s[..g], s[g..];
    assert s[1..] == t[1..] + rest;
    ScanText(p, t[1..], rest);
    PrefixTwice(s[..1], t[1..], Scan(p, rest));
    assert s[..1] + t[1..] == t;
    TagFirst(t, []);
  }

  lemma {:induction false} ScanClean(p: Pattern, s: string)
    requires Clean(s) && Proper(p)
    ensures CleanDoc(Scan(p, s))
    decreases |s|
  {
    if s != [] {
      var n := MatchLen(p, s);
      if n > 0 {
        var a, b := MatchClean(p, s);
        assert a == s[..n] && b == s[n..];
        ScanClean(p, s[n..]);
      } else if s[0] != '<' {
        ScanClean(p, s[1..]);
        TextClean(s[..1]);
        PrefixClean(s[..1], Scan(p, s[1..]));
      } else {
        PassUnmatched(p, s);
        var g := UpTo(s, '>') + 1;
        ScanClean(p, s[g..]);
        PrefixClean(s[..g], Scan(p, s[g..]));
      }
    }
  }
}
