/** Replacing every element of a kind, or inserting one behind an anchor: the replaceOrInsert functions, followed on
    the list of tags of tag-balanced text. */
module XmlRewrite {
  import opened XmlScan
  import opened XmlClean
  import opened XmlAttributes

  const INDENT := "\n      "

  // ----- Replacing -----

  /** ReplaceAllString for a pattern without groups. */
  function Substitute(r: string, d: Doc): string {
    match d
    case Tail(text) => text
    case Next(gap, block, rest) => gap + Expand(r, [block]) + Substitute(r, rest)
  }

  function ReplaceAll(p: Pattern, r: string, s: string): string {
    Substitute(r, Scan(p, s))
  }

  lemma {:induction false} SubstitutePrefix(r: string, t: string, d: Doc)
    ensures Substitute(r, Prefix(t, d)) == t + Substitute(r, d)
  {
    if d.Next? {
      assert t + d.gap + Expand(r, [d.block]) + Substitute(r, d.rest)
          == t + (d.gap + Expand(r, [d.block]) + Substitute(r, d.rest));
    }
  }

  lemma {:induction false} SubstituteAppend(r: string, a: Doc, b: Doc)
    ensures Substitute(r, Append(a, b)) == Substitute(r, a) + Substitute(r, b)
  {
    match a
    case Tail(text) => SubstitutePrefix(r, text, b);
    case Next(gap, block, rest) =>
      SubstituteAppend(r, rest, b);
      assert gap + Expand(r, [block]) + (Substitute(r, rest) + Substitute(r, b))
          == gap + Expand(r, [block]) + Substitute(r, rest) + Substitute(r, b);
  }

  /** Replacing matches that already are the replacement changes nothing. */
  lemma {:induction false} SubstituteSame(r: string, d: Doc)
    requires NoReference(r) && forall i | 0 <= i < |Blocks(d)| :: Blocks(d)[i] == r
    ensures Substitute(r, d) == Join(d)
  {
    if d.Next? {
      assert Blocks(d)[0] == d.block;
      assert forall i | 0 <= i < |Blocks(d.rest)| :: Blocks(d.rest)[i] == Blocks(d)[i + 1];
      ExpandSame(r, [d.block]);
      SubstituteSame(r, d.rest);
    }
  }

  // ----- Inserting -----

  /** The opening disk tag a block starts with; empty when there is none. */
  function OpenTag(s: string): (t: string)
    ensures t <= s
  {
    var g := UpTo(s, '>');
    if Opens(s, "<disk") && g < |s| then s[..g + 1] else []
  }

  function InsertAtFront(r: string, s: string): string {
    var open := OpenTag(s);
    if open == [] then s else open + INDENT + r + s[|open|..]
  }

  /** Behind the first match of the first anchor that has one, else behind the opening tag. */
  function Insert(r: string, anchors: seq<Pattern>, s: string): string {
    if anchors == [] then InsertAtFront(r, s)
    else
      match Scan(anchors[0], s)
      case Next(gap, block, rest) => gap + block + INDENT + r + Join(rest)
      case Tail(_) => Insert(r, anchors[1..], s)
  }

  function ReplaceOrInsert(p: Pattern, r: string, anchors: seq<Pattern>, s: string): string {
    if Scan(p, s).Next? then ReplaceAll(p, r, s) else Insert(r, anchors, s)
  }

  /** The same, seen from inside a block: between its opening and its closing tag. */
  function InsertInside(r: string, anchors: seq<Pattern>, x: string): string {
    if anchors == [] then INDENT + r + x
    else
      match Scan(anchors[0], x)
      case Next(gap, block, rest) => gap + block + INDENT + r + Join(rest)
      case Tail(_) => InsertInside(r, anchors[1..], x)
  }

  function Inside(p: Pattern, r: string, anchors: seq<Pattern>, x: string): string {
    if Scan(p, x).Next? then ReplaceAll(p, r, x) else InsertInside(r, anchors, x)
  }

  /** The opening and closing tags of a block are none of the elements rewritten in it. */
  predicate Foreign(p: Pattern, o: string, c: string) {
    !p.Paired? && Proper(p) && !Fits(p, o) && !Fits(p, c)
  }

  lemma ScanInBlock(p: Pattern, o: string, x: string, c: string)
    requires IsTag(o) && Clean(x) && IsTag(c) && Foreign(p, o, c)
    ensures Scan(p, o + x + c) == Prefix(o, Append(Scan(p, x), Tail(c)))
  {
    assert o + x + c == o + (x + c);
    ScanTag(p, o, x + c);
    CleanSettled(p, x);
    ScanConcat(p, x, c);
    ScanTag(p, c, []);
    assert c + [] == c;
  }

  lemma InsertInBlock(r: string, anchors: seq<Pattern>, o: string, x: string, c: string)
    requires IsTag(o) && Opens(o, "<disk") && Clean(x) && IsTag(c)
    requires forall i | 0 <= i < |anchors| :: Foreign(anchors[i], o, c)
    ensures Insert(r, anchors, o + x + c) == o + InsertInside(r, anchors, x) + c
  {
    if anchors == [] {
      FrontOfBlock(r, o, x, c);
    } else {
      ScanInBlock(anchors[0], o, x, c);
      match Scan(anchors[0], x) {
        case Tail(_) => InsertInBlock(r, anchors[1..], o, x, c);
        case Next(gap, block, rest) =>
          JoinAppend(rest, Tail(c));
          GroupInBlock(o, gap, block, r, Join(rest), c);
      }
    }
  }

  lemma GroupInBlock(o: string, gap: string, block: string, r: string, rest: string, c: string)
    ensures o + gap + block + INDENT + r + (rest + c) == o + (gap + block + INDENT + r + rest) + c
  {
  }

  lemma FrontOfBlock(r: string, o: string, x: string, c: string)
    requires IsTag(o) && Opens(o, "<disk")
    ensures InsertAtFront(r, o + x + c) == o + (INDENT + r + x) + c
    ensures OpenTag(o + x + c) == o
  {
    var s := o + x + c;
    assert s == o + (x + c);
    TagFirst(o, x + c);
    OpensInTag(s, |o| - 1, "<disk");
    assert o + INDENT + r + (x + c) == o + (INDENT + r + x) + c;
  }

  lemma ReplaceInBlock(p: Pattern, r: string, o: string, x: string, c: string)
    requires IsTag(o) && Clean(x) && IsTag(c) && Foreign(p, o, c)
    ensures ReplaceAll(p, r, o + x + c) == o + ReplaceAll(p, r, x) + c
    ensures Scan(p, o + x + c).Next? <==> Scan(p, x).Next?
  {
    ScanInBlock(p, o, x, c);
    SubstituteBetween(r, o, Scan(p, x), c);
  }

  lemma SubstituteBetween(r: string, o: string, d: Doc, c: string)
    ensures Substitute(r, Prefix(o, Append(d, Tail(c)))) == o + Substitute(r, d) + c
    ensures Prefix(o, Append(d, Tail(c))).Next? <==> d.Next?
  {
    SubstitutePrefix(r, o, Append(d, Tail(c)));
    SubstituteAppend(r, d, Tail(c));
    Assoc(o, Substitute(r, d), c);
  }

  /** On a block the whole operation happens between the two tags. */
  lemma RewriteInBlock(p: Pattern, r: string, anchors: seq<Pattern>, o: string, x: string, c: string)
    requires IsTag(o) && Opens(o, "<disk") && Clean(x) && IsTag(c) && Foreign(p, o, c)
    requires forall i | 0 <= i < |anchors| :: Foreign(anchors[i], o, c)
    ensures ReplaceOrInsert(p, r, anchors, o + x + c) == o + Inside(p, r, anchors, x) + c
  {
    ReplaceInBlock(p, r, o, x, c);
    if Scan(p, x).Tail? {
      InsertInBlock(r, anchors, o, x, c);
    }
  }

  // ----- The tags of tag-balanced text -----

  function TagsOf(s: string): seq<string> {
    if s == [] then []
    else if s[0] != '<' then TagsOf(s[1..])
    else
      var g := UpTo(s, '>');
      if g == |s| then [] else [s[..g + 1]] + TagsOf(s[g + 1..])
  }

  function Select(p: Pattern, tags: seq<string>): seq<string> {
    if tags == [] then []
    else (if Fits(p, tags[0]) then tags[..1] else []) + Select(p, tags[1..])
  }

  function Replaced(p: Pattern, r: string, tags: seq<string>): seq<string> {
    seq(|tags|, i requires 0 <= i < |tags| => if Fits(p, tags[i]) then r else tags[i])
  }

  lemma TagsOfTag(t: string, b: string)
    requires IsTag(t)
    ensures TagsOf(t + b) == [t] + TagsOf(b)
  {
    TagFirst(t, b);
  }

  lemma {:induction false} TagsOfText(t: string, b: string)
    requires forall i | 0 <= i < |t| :: t[i] != '<'
    ensures TagsOf(t + b) == TagsOf(b)
  {
    if t == [] {
      assert t + b == b;
    } else {
      assert (t + b)[1..] == t[1..] + b;
      TagsOfText(t[1..], b);
    }
  }

  lemma {:induction false} TagsConcat(a: string, b: string)
    requires Clean(a)
    ensures TagsOf(a + b) == TagsOf(a) + TagsOf(b)
    decreases |a|
  {
    if a == [] {
      assert a + b == b;
    } else if a[0] != '<' {
      assert (a + b)[1..] == a[1..] + b;
      TagsConcat(a[1..], b);
    } else {
      FirstTag(a);
      var g := UpTo(a, '>');
      var t, rest := a[..g + 1], a[g + 1..];
      TagsConcat(rest, b);
      TagFirstConcat(t, rest, b);
      assert a == t + rest;
    }
  }

  lemma TagFirstConcat(t: string, rest: string, b: string)
    requires IsTag(t) && TagsOf(rest + b) == TagsOf(rest) + TagsOf(b)
    ensures TagsOf(t + rest + b) == TagsOf(t + rest) + TagsOf(b)
  {
    TagsOfTag(t, rest);
    TagsOfTag(t, rest + b);
    Assoc(t, rest, b);
  }

  lemma SelectFirst(p: Pattern, t: string, rest: seq<string>)
    ensures Select(p, [t] + rest) == (if Fits(p, t) then [t] else []) + Select(p, rest)
  {
    assert ([t] + rest)[..1] == [t] && ([t] + rest)[1..] == rest;
  }

  lemma {:induction false} SelectConcat(p: Pattern, a: seq<string>, b: seq<string>)
    ensures Select(p, a + b) == Select(p, a) + Select(p, b)
  {
    if a == [] {
      assert a + b == b;
    } else {
      var t, rest := a[0], a[1..];
      assert a == [t] + rest && a + b == [t] + (rest + b);
      SelectFirst(p, t, rest);
      SelectFirst(p, t, rest + b);
      SelectConcat(p, rest, b);
    }
  }

  /** On tag-balanced text the matches of a one-tag pattern are the tags that fit it. */
  lemma {:induction false} MatchesAreTags(p: Pattern, s: string)
    requires Clean(s) && !p.Paired?
    ensures Matches(p, s) == Select(p, TagsOf(s))
    decreases |s|
  {
    if s != [] {
      if s[0] != '<' {
        ScanChar(p, s);
        JoinPrefix(s[..1], Scan(p, s[1..]));
        MatchesAreTags(p, s[1..]);
      } else {
        FirstTag(s);
        var g := UpTo(s, '>');
        var t, rest := s[..g + 1], s[g + 1..];
        ScanTag(p, t, rest);
        JoinPrefix(t, Scan(p, rest));
        MatchesAreTags(p, rest);
        assert TagsOf(s)[..1] == [t] && TagsOf(s)[1..] == TagsOf(rest);
      }
    }
  }

  /** Replacing works tag by tag and leaves the text tag-balanced. */
  lemma {:induction false} ReplaceTags(p: Pattern, r: string, s: string)
    requires Clean(s) && !p.Paired? && NoReference(r) && IsTag(r)
    ensures Clean(ReplaceAll(p, r, s)) && TagsOf(ReplaceAll(p, r, s)) == Replaced(p, r, TagsOf(s))
    decreases |s|
  {
    if s != [] {
      if s[0] != '<' {
        ReplaceTags(p, r, s[1..]);
        ReplaceChar(p, r, s);
      } else {
        FirstTag(s);
        var g := UpTo(s, '>');
        var t, rest := s[..g + 1], s[g + 1..];
        ReplaceTag(p, r, t, rest);
        ReplaceTags(p, r, rest);
        PutTag(p, r, t, rest);
      }
    }
  }

  lemma ReplaceChar(p: Pattern, r: string, s: string)
    requires s != [] && s[0] != '<'
    ensures
      var after := ReplaceAll(p, r, s[1..]);
      && (Clean(after) ==> Clean(ReplaceAll(p, r, s)))
      && TagsOf(ReplaceAll(p, r, s)) == TagsOf(after)
  {
    ScanChar(p, s);
    SubstitutePrefix(r, s[..1], Scan(p, s[1..]));
    var after := ReplaceAll(p, r, s[1..]);
    assert (s[..1] + after)[1..] == after;
  }

  lemma PutTag(p: Pattern, r: string, t: string, rest: string)
    requires IsTag(t) && IsTag(r) && TagsOf(ReplaceAll(p, r, rest)) == Replaced(p, r, TagsOf(rest))
    requires Clean(ReplaceAll(p, r, rest))
    ensures
      var s := (if Fits(p, t) then r else t) + ReplaceAll(p, r, rest);
      Clean(s) && TagsOf(s) == Replaced(p, r, TagsOf(t + rest))
  {
    var u := if Fits(p, t) then r else t;
    TagFirst(u, ReplaceAll(p, r, rest));
    TagsOfTag(u, ReplaceAll(p, r, rest));
    TagsOfTag(t, rest);
    assert Replaced(p, r, [t] + TagsOf(rest)) == [u] + Replaced(p, r, TagsOf(rest));
  }

  lemma ReplaceTag(p: Pattern, r: string, t: string, rest: string)
    requires IsTag(t) && !p.Paired? && NoReference(r)
    ensures ReplaceAll(p, r, t + rest) == (if Fits(p, t) then r else t) + ReplaceAll(p, r, rest)
  {
    ScanTag(p, t, rest);
    ExpandSame(r, [t]);
    SubstitutePrefix(r, t, Scan(p, rest));
    assert [] + r == r;
  }

  /** One tag more, somewhere. */
  ghost predicate OneMore(r: string, before: seq<string>, after: seq<string>) {
    exists k :: 0 <= k <= |before| && after == before[..k] + [r] + before[k..]
  }

  lemma InsertTags(r: string, anchors: seq<Pattern>, x: string)
    requires Clean(x) && IsTag(r) && forall i | 0 <= i < |anchors| :: Proper(anchors[i])
    ensures Clean(InsertInside(r, anchors, x)) && OneMore(r, TagsOf(x), TagsOf(InsertInside(r, anchors, x)))
  {
    if anchors == [] {
      InsertedTag([], x, r);
      assert [] + INDENT + r + x == INDENT + r + x && [] + x == x;
    } else {
      match Scan(anchors[0], x) {
        case Tail(_) => InsertTags(r, anchors[1..], x);
        case Next(gap, block, rest) =>
          ScanClean(anchors[0], x);
          JoinScan(anchors[0], x);
          CleanConcat(gap, block);
          CleanConcat(gap + block, Join(rest));
          InsertedTag(gap + block, Join(rest), r);
      }
    }
  }

  lemma InsertedTag(a: string, b: string, r: string)
    requires Clean(a) && Clean(b) && IsTag(r)
    ensures Clean(a + INDENT + r + b)
    ensures OneMore(r, TagsOf(a + b), TagsOf(a + INDENT + r + b))
  {
    var added := INDENT + (r + b);
    IndentedTag(b, r);
    CleanConcat(a, added);
    Regroup(a, INDENT, r, b);
    TagsConcat(a, b);
    TagsConcat(a, added);
    InsertedAt(TagsOf(a), TagsOf(b), r);
  }

  lemma IndentedTag(b: string, r: string)
    requires Clean(b) && IsTag(r)
    ensures Clean(INDENT + (r + b)) && TagsOf(INDENT + (r + b)) == [r] + TagsOf(b)
  {
    TextClean(INDENT);
    TagFirst(r, b);
    CleanConcat(INDENT, r + b);
    TagsOfText(INDENT, r + b);
    TagsOfTag(r, b);
  }

  lemma Regroup(a: string, i: string, r: string, b: string)
    ensures a + i + r + b == a + (i + (r + b))
  {
  }

  lemma InsertedAt(a: seq<string>, b: seq<string>, r: string)
    ensures OneMore(r, a + b, a + ([r] + b))
  {
    assert (a + b)[..|a|] == a && (a + b)[|a|..] == b;
    assert a + ([r] + b) == (a + b)[..|a|] + [r] + (a + b)[|a|..];
  }

  // ----- What an operation does to the tags -----

  /** Every fitting tag replaced, or one tag more where none fitted. */
  ghost predicate Effect(p: Pattern, r: string, before: seq<string>, after: seq<string>) {
    if Select(p, before) != [] then after == Replaced(p, r, before) else OneMore(r, before, after)
  }

  lemma InsideTags(p: Pattern, r: string, anchors: seq<Pattern>, x: string)
    requires Clean(x) && !p.Paired? && NoReference(r) && IsTag(r)
    requires forall i | 0 <= i < |anchors| :: Proper(anchors[i])
    ensures Clean(Inside(p, r, anchors, x)) && Effect(p, r, TagsOf(x), TagsOf(Inside(p, r, anchors, x)))
  {
    MatchesAreTags(p, x);
    if Scan(p, x).Next? {
      ReplaceTags(p, r, x);
    } else {
      InsertTags(r, anchors, x);
    }
  }

  ghost predicate AllAre(r: string, tags: seq<string>) {
    tags != [] && forall i | 0 <= i < |tags| :: tags[i] == r
  }

  lemma {:induction false} SelectReplaced(p: Pattern, q: Pattern, r: string, tags: seq<string>)
    requires forall t | Fits(p, t) :: Fits(q, t) <==> q == p
    requires Fits(q, r) <==> q == p
    ensures q == p ==> |Select(q, Replaced(p, r, tags))| == |Select(q, tags)|
    ensures q == p ==> forall i | 0 <= i < |Select(q, tags)| :: Select(q, Replaced(p, r, tags))[i] == r
    ensures q != p ==> Select(q, Replaced(p, r, tags)) == Select(q, tags)
  {
    if tags != [] {
      SelectReplaced(p, q, r, tags[1..]);
      assert Replaced(p, r, tags)[1..] == Replaced(p, r, tags[1..]);
      assert tags[..1] == [tags[0]] && Replaced(p, r, tags)[..1] == [Replaced(p, r, tags)[0]];
    }
  }

  /** The second character of the names keeps the element patterns apart. */
  predicate Apart(p: Pattern, q: Pattern) {
    Proper(p) && Proper(q) && Name(p)[1] != Name(q)[1]
  }

  function Name(p: Pattern): string {
    if p.Exact? then p.tag else p.open
  }

  lemma ApartNeverBoth(p: Pattern, q: Pattern, t: string)
    requires Apart(p, q)
    ensures !(Fits(p, t) && Fits(q, t))
  {
    assert Fits(p, t) ==> Name(p) <= t && t[1] == Name(p)[1];
    assert Fits(q, t) ==> Name(q) <= t && t[1] == Name(q)[1];
  }

  lemma SelectOne(p: Pattern, r: string)
    ensures Select(p, [r]) == if Fits(p, r) then [r] else []
  {
    assert [r][..1] == [r] && [r][1..] == [];
  }

  /** Afterwards there is at least one element of the kind, and all of them are the new one. */
  lemma EffectOnItself(p: Pattern, r: string, before: seq<string>, after: seq<string>)
    requires Effect(p, r, before, after) && Fits(p, r)
    ensures AllAre(r, Select(p, after))
  {
    if Select(p, before) != [] {
      SelectReplaced(p, p, r, before);
    } else {
      var k :| 0 <= k <= |before| && after == before[..k] + [r] + before[k..];
      assert before == before[..k] + before[k..];
      SelectConcat(p, before[..k], before[k..]);
      SelectConcat(p, before[..k] + [r], before[k..]);
      SelectConcat(p, before[..k], [r]);
      SelectOne(p, r);
    }
  }

  /** Elements of another kind stay as they are. */
  lemma EffectOnOthers(p: Pattern, q: Pattern, r: string, before: seq<string>, after: seq<string>)
    requires Effect(p, r, before, after) && Fits(p, r) && Apart(p, q)
    ensures Select(q, after) == Select(q, before)
  {
    ApartNeverBoth(p, q, r);
    if Select(p, before) != [] {
      forall t | Fits(p, t) ensures !Fits(q, t) {
        ApartNeverBoth(p, q, t);
      }
      SelectReplaced(p, q, r, before);
    } else {
      InsertedElsewhere(q, r, before, after);
    }
  }

  lemma InsertedElsewhere(q: Pattern, r: string, before: seq<string>, after: seq<string>)
    requires OneMore(r, before, after) && !Fits(q, r)
    ensures Select(q, after) == Select(q, before)
  {
    var k :| 0 <= k <= |before| && after == before[..k] + [r] + before[k..];
    assert before == before[..k] + before[k..];
    SelectConcat(q, before[..k], before[k..]);
    SelectConcat(q, before[..k] + [r], before[k..]);
    SelectConcat(q, before[..k], [r]);
    SelectOne(q, r);
  }

  /** An operation whose result is already there changes nothing. */
  lemma NothingToDo(p: Pattern, r: string, anchors: seq<Pattern>, x: string)
    requires Clean(x) && !p.Paired? && NoReference(r) && AllAre(r, Select(p, TagsOf(x)))
    ensures Inside(p, r, anchors, x) == x
  {
    MatchesAreTags(p, x);
    SubstituteSame(r, Scan(p, x));
    JoinScan(p, x);
  }

  // ----- Elements -----

  predicate NoAngle(s: string) {
    forall i | 0 <= i < |s| :: s[i] != '<' && s[i] != '>'
  }

  function Element(open: string, attributes: string): string {
    open + " " + attributes + "/>"
  }

  lemma ElementReferences(open: string, attributes: string)
    requires '$' !in open
    ensures NoReference(Element(open, attributes)) <==> NoReference(attributes)
  {
    assert Element(open, attributes) == (open + " ") + (attributes + "/>");
    NoDollarNoReference(open + " ", attributes + "/>");
    NoReferenceConcat(attributes, "/>");
    NoDollarAlone("/>");
  }

  lemma ElementFits(open: string, attributes: string)
    requires |open| > 1 && open[0] == '<' && NoAngle(open[1..]) && NoAngle(attributes)
    ensures IsTag(Element(open, attributes)) && Fits(SelfClosing(open), Element(open, attributes))
  {
    var e := Element(open, attributes);
    assert forall i | 1 <= i < |open| :: open[i] == open[1..][i - 1];
    assert e[|e| - 2] == '/' && e[|e| - 1] == '>' && e[|open|] == ' ';
    assert forall i | 0 <= i < |attributes| :: e[|open| + 1 + i] == attributes[i];
  }
}
