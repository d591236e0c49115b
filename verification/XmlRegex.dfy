/** The matchers against the regular expressions they stand for: what a match is, and which matches are found. */
module XmlRegex {
  import opened XmlScan

  // ----- One match -----

  /** A name is not followed by a word character. */
  predicate Boundary(rest: string) {
    rest == [] || !WordChar(rest[0])
  }

  /** `t` does not occur in `x + t` before its end. */
  ghost predicate FirstEnd(x: string, t: string) {
    forall i | 0 <= i < |x| :: (x + t)[i..][..|t|] != t
  }

  /** The first `n` characters of `s` are in the language of the expression, and no shorter text is taken where the
      expression is non-greedy. */
  ghost predicate Language(p: Pattern, s: string, n: nat) {
    n <= |s| &&
    match p
    case SelfClosing(open) => exists a :: s[..n] == open + a + "/>" && '>' !in a && Boundary(a + "/>")
    case Bare(open) => exists a :: s[..n] == open + a + "/>" && AllSpace(a)
    case Exact(tag) => s[..n] == tag
    case Paired(open, close) =>
      exists a, x :: s[..n] == open + a + ">" + x + close && '>' !in a && Boundary(a + ">") && FirstEnd(x, close)
  }

  lemma SpaceIsNoEnd(a: string)
    requires AllSpace(a)
    ensures '>' !in a
  {
  }

  /** The first `>` of a text that starts with a tag ends that tag. */
  lemma FirstAngle(tag: string, rest: string)
    requires tag != [] && tag[|tag| - 1] == '>' && forall i | 0 <= i < |tag| - 1 :: tag[i] != '>'
    ensures UpTo(tag + rest, '>') == |tag| - 1
    ensures (tag + rest)[..|tag|] == tag && (tag + rest)[|tag|..] == rest
  {
    UpToConcat(tag, rest, '>');
  }

  lemma OneTagText(open: string, a: string, close: string)
    requires IsOpen(open) && '>' !in a && (close == ">" || close == "/>")
    ensures
      var tag := open + a + close;
      && tag[0] == '<' && tag[|tag| - 1] == '>' && (forall i | 0 <= i < |tag| - 1 :: tag[i] != '>')
      && open <= tag && tag[|open|..] == a + close
  {
    var tag := open + a + close;
    forall i | 0 <= i < |tag| - 1 ensures tag[i] != '>' {
      if i < |open| {
        assert tag[i] == open[i];
      } else if i < |open| + |a| {
        assert tag[i] == a[i - |open|];
      }
    }
  }

  /** The tag at the start of a text that matches. */
  lemma TagOfMatch(p: Pattern, s: string) returns (tag: string, after: string)
    requires MatchLen(p, s) > 0
    ensures s == tag + after && Fits(p, tag) && MatchLen(p, s) == LenFrom(p, tag, after)
    ensures tag != [] && tag[|tag| - 1] == '>' && forall i | 0 <= i < |tag| - 1 :: tag[i] != '>'
  {
    var g := UpTo(s, '>');
    tag, after := s[..g + 1], s[g + 1..];
  }

  lemma SelfClosingMatch(open: string, s: string)
    requires IsOpen(open) && MatchLen(SelfClosing(open), s) > 0
    ensures Language(SelfClosing(open), s, MatchLen(SelfClosing(open), s))
  {
    var tag, after := TagOfMatch(SelfClosing(open), s);
    var a := tag[|open|..|tag| - 2];
    assert tag == open + a + "/>";
    assert s[..|tag|] == tag;
    assert '>' !in a;
    assert (a + "/>")[0] == tag[|open|];
  }

  lemma BareMatch(open: string, s: string)
    requires IsOpen(open) && MatchLen(Bare(open), s) > 0
    ensures Language(Bare(open), s, MatchLen(Bare(open), s))
  {
    var tag, after := TagOfMatch(Bare(open), s);
    var a := tag[|open|..|tag| - 2];
    assert tag == open + a + "/>";
    assert s[..|tag|] == tag;
  }

  lemma PairedMatch(open: string, close: string, s: string)
    requires IsOpen(open) && IsTag(close) && MatchLen(Paired(open, close), s) > 0
    ensures Language(Paired(open, close), s, MatchLen(Paired(open, close), s))
  {
    var p := Paired(open, close);
    var tag, after := TagOfMatch(p, s);
    var c := Find(after, close);
    OpenedTag(tag, open);
    CutPair(tag, after, open, close, c);
    FirstIsEnd(after, close);
    PairInLanguage(open, close, s, |tag| + c + |close|, tag[|open|..|tag| - 1], after[..c]);
  }

  lemma OpenedTag(tag: string, open: string)
    requires IsOpen(open) && Opens(tag, open) && tag[|tag| - 1] == '>' && forall i | 0 <= i < |tag| - 1 :: tag[i] != '>'
    ensures |tag| > |open| && '>' !in tag[|open|..|tag| - 1] && Boundary(tag[|open|..|tag| - 1] + ">")
  {
    assert tag[|open|..] == tag[|open|..|tag| - 1] + ">";
  }

  lemma PairInLanguage(open: string, close: string, s: string, n: nat, a: string, x: string)
    requires n <= |s| && s[..n] == open + a + ">" + x + close && '>' !in a && Boundary(a + ">") && FirstEnd(x, close)
    ensures Language(Paired(open, close), s, n)
  {
  }

  lemma CutPair(tag: string, after: string, open: string, close: string, c: nat)
    requires open <= tag && |tag| > |open| && tag[|tag| - 1] == '>' && c + |close| <= |after| && after[c..c + |close|] == close
    ensures
      var n := |tag| + c + |close|;
      n <= |tag + after| && (tag + after)[..n] == open + tag[|open|..|tag| - 1] + ">" + after[..c] + close
  {
    var n := |tag| + c + |close|;
    assert (tag + after)[..n] == tag + after[..c + |close|];
    assert after[..c + |close|] == after[..c] + close;
    assert tag == open + tag[|open|..|tag| - 1] + ">";
    Assoc(tag, after[..c], close);
  }

  lemma FirstIsEnd(after: string, close: string)
    requires Find(after, close) >= 0
    ensures FirstEnd(after[..Find(after, close)], close)
  {
    var c := Find(after, close);
    var x := after[..c];
    forall i | 0 <= i < |x| ensures (x + close)[i..][..|close|] != close {
      if (x + close)[i..][..|close|] == close {
        assert x + close == after[..c + |close|];
        assert after[i..i + |close|] == close;
        FindFirst(after, close, i);
      }
    }
  }

  lemma SelfClosingFound(open: string, s: string, n: nat)
    requires IsOpen(open) && Language(SelfClosing(open), s, n)
    ensures MatchLen(SelfClosing(open), s) == n > 0
  {
    var a :| s[..n] == open + a + "/>" && '>' !in a && Boundary(a + "/>");
    TagFound(SelfClosing(open), open, a, "/>", s, n);
  }

  lemma BareFound(open: string, s: string, n: nat)
    requires IsOpen(open) && Language(Bare(open), s, n)
    ensures MatchLen(Bare(open), s) == n > 0
  {
    var a :| s[..n] == open + a + "/>" && AllSpace(a);
    SpaceIsNoEnd(a);
    var tag := open + a + "/>";
    assert tag[|open|..|tag| - 2] == a;
    TagFound(Bare(open), open, a, "/>", s, n);
  }

  lemma TagFound(p: Pattern, open: string, a: string, close: string, s: string, n: nat)
    requires !p.Paired? && IsOpen(open) && '>' !in a && (close == ">" || close == "/>") && n <= |s| && s[..n] == open + a + close
    requires OneTagFits(p, open, a, close)
    ensures MatchLen(p, s) == n > 0
  {
    OneTagText(open, a, close);
    FirstAngle(s[..n], s[n..]);
    assert s == s[..n] + s[n..];
  }

  predicate OneTagFits(p: Pattern, open: string, a: string, close: string) {
    Fits(p, open + a + close)
  }

  lemma PairedFound(open: string, close: string, s: string, n: nat)
    requires IsOpen(open) && IsTag(close) && Language(Paired(open, close), s, n)
    ensures MatchLen(Paired(open, close), s) == n > 0
  {
    var a, x :| s[..n] == open + a + ">" + x + close && '>' !in a && Boundary(a + ">") && FirstEnd(x, close);
    var tag, rest := open + a + ">", s[n..];
    OneTagText(open, a, ">");
    PairPieces(s, n, tag, x, close);
    FirstAngle(tag, x + close + rest);
    EndFound(x, close, rest);
  }

  lemma PairPieces(s: string, n: nat, tag: string, x: string, close: string)
    requires n <= |s| && s[..n] == tag + x + close
    ensures s == tag + (x + close + s[n..]) && n == |tag| + |x| + |close|
  {
    assert s == s[..n] + s[n..];
    Assoc(tag, x, close);
    Assoc(tag, x + close, s[n..]);
  }

  lemma NotEarlier(x: string, close: string, rest: string, i: nat)
    requires FirstEnd(x, close) && i < |x|
    ensures (x + close + rest)[i..i + |close|] != close
  {
    assert (x + close + rest)[i..i + |close|] == (x + close)[i..][..|close|];
  }

  lemma EndFound(x: string, close: string, rest: string)
    requires close != [] && FirstEnd(x, close)
    ensures Find(x + close + rest, close) == |x|
  {
    var s := x + close + rest;
    assert s[|x|..|x| + |close|] == close;
    FindFirst(s, close, |x|);
    if Find(s, close) < |x| {
      NotEarlier(x, close, rest, Find(s, close));
    }
  }

  /** The matcher finds a match at the start of a text exactly when the expression does, and the same one. */
  lemma MatchExactly(p: Pattern, s: string, n: nat)
    requires Proper(p) && n > 0
    ensures MatchLen(p, s) == n <==> Language(p, s, n)
  {
    match p
    case SelfClosing(open) =>
      if MatchLen(p, s) == n { SelfClosingMatch(open, s); }
      if Language(p, s, n) { SelfClosingFound(open, s, n); }
    case Bare(open) =>
      if MatchLen(p, s) == n { BareMatch(open, s); }
      if Language(p, s, n) { BareFound(open, s, n); }
    case Paired(open, close) =>
      if MatchLen(p, s) == n { PairedMatch(open, close, s); }
      if Language(p, s, n) { PairedFound(open, close, s, n); }
    case Exact(tag) =>
      if Language(p, s, n) {
        FirstAngle(tag, s[n..]);
        assert s == tag + s[n..];
      }
      if MatchLen(p, s) == n {
        var t, after := TagOfMatch(p, s);
        assert s[..n] == t;
      }
  }

  // ----- All matches -----

  /** Nowhere in front of `n` does a match start. */
  ghost predicate NoneBefore(p: Pattern, s: string, n: nat) {
    n <= |s| && forall i | 0 <= i < n :: MatchLen(p, s[i..]) == 0
  }

  /** A text cut at its matches from left to right, each at the first place where one starts. */
  ghost predicate Leftmost(p: Pattern, d: Doc) {
    match d
    case Tail(text) => NoneBefore(p, text, |text|)
    case Next(gap, block, rest) =>
      && NoneBefore(p, Join(d), |gap|)
      && block != [] && MatchLen(p, block + Join(rest)) == |block|
      && Leftmost(p, rest)
  }

  lemma NoneBeforeOne(p: Pattern, s: string, n: nat)
    requires s != [] && MatchLen(p, s) == 0 && NoneBefore(p, s[1..], n)
    ensures NoneBefore(p, s, n + 1)
  {
    forall i | 0 <= i < n + 1 ensures MatchLen(p, s[i..]) == 0 {
      if i == 0 {
        assert s[0..] == s;
      } else {
        assert s[i..] == s[1..][i - 1..];
      }
    }
  }

  lemma PrefixLeftmost(p: Pattern, s: string, d: Doc)
    requires s != [] && MatchLen(p, s) == 0 && Join(d) == s[1..] && Leftmost(p, d)
    ensures Leftmost(p, Prefix(s[..1], d))
  {
    JoinCut(s, 1, d);
    match d
    case Tail(text) => NoneBeforeOne(p, s, |text|);
    case Next(gap, _, _) => NoneBeforeOne(p, s, |gap|);
  }

  lemma MatchLeftmost(p: Pattern, s: string, n: nat, d: Doc)
    requires 0 < n == MatchLen(p, s) && Join(d) == s[n..] && Leftmost(p, d)
    ensures Leftmost(p, Next([], s[..n], d))
  {
    assert s == s[..n] + s[n..];
  }

  lemma {:induction false} ScanIsLeftmost(p: Pattern, s: string)
    ensures Leftmost(p, Scan(p, s))
  {
    if s != [] {
      var n := MatchLen(p, s);
      if n > 0 {
        ScanIsLeftmost(p, s[n..]);
        JoinScan(p, s[n..]);
        MatchLeftmost(p, s, n, Scan(p, s[n..]));
      } else {
        ScanIsLeftmost(p, s[1..]);
        JoinScan(p, s[1..]);
        PrefixLeftmost(p, s, Scan(p, s[1..]));
      }
    }
  }

  /** Passing text in which no match starts. */
  lemma {:induction false} PassNone(p: Pattern, s: string, n: nat)
    requires NoneBefore(p, s, n)
    ensures Scan(p, s) == Prefix(s[..n], Scan(p, s[n..]))
  {
    if n == 0 {
      assert s[0..] == s && s[..0] == [];
      PrefixNothing(Scan(p, s));
    } else {
      assert s[0..] == s;
      forall i | 0 <= i < n - 1 ensures MatchLen(p, s[1..][i..]) == 0 {
        assert s[1..][i..] == s[i + 1..];
      }
      PassNone(p, s[1..], n - 1);
      assert s[1..][n - 1..] == s[n..];
      assert s[..1] + s[1..][..n - 1] == s[..n];
      PrefixTwice(s[..1], s[1..][..n - 1], Scan(p, s[n..]));
    }
  }

  lemma {:induction false} LeftmostIsScan(p: Pattern, d: Doc)
    requires Leftmost(p, d)
    ensures Scan(p, Join(d)) == d
  {
    match d
    case Tail(text) =>
      PassNone(p, text, |text|);
      assert text[|text|..] == [] && text[..|text|] == text;
      assert text + [] == text;
    case Next(gap, block, rest) =>
      LeftmostIsScan(p, rest);
      var s, z := Join(d), block + Join(rest);
      Assoc(gap, block, Join(rest));
      PassNone(p, s, |gap|);
      assert s[|gap|..] == z && s[..|gap|] == gap;
      assert z[..|block|] == block && z[|block|..] == Join(rest);
      assert gap + [] == gap;
  }

  /** Scanning cuts a text at its leftmost matches, one after the other, and there is only one such cut. */
  lemma ScanExactly(p: Pattern, s: string, d: Doc)
    ensures d == Scan(p, s) <==> Join(d) == s && Leftmost(p, d)
  {
    ScanIsLeftmost(p, s);
    JoinScan(p, s);
    if Join(d) == s && Leftmost(p, d) {
      LeftmostIsScan(p, d);
    }
  }
}
