/** Byte-order comparison and the few character classes the server relies on. */
module Text {

  /** Go's `<` on strings: the first difference decides, a proper prefix is smaller. */
  predicate Less(a: string, b: string) {
    b != [] && (a == [] || a[0] < b[0] || (a[0] == b[0] && Less(a[1..], b[1..])))
  }

  lemma {:induction false} LessTotal(a: string, b: string)
    ensures a != b ==> (Less(a, b) <==> !Less(b, a))
    ensures !Less(a, a)
  {
    if a != [] {
      LessTotal(a[1..], a[1..]);
    }
    if a != [] && b != [] && a[0] == b[0] {
      LessTotal(a[1..], b[1..]);
      assert a == [a[0]] + a[1..] && b == [b[0]] + b[1..];
    }
  }

  lemma {:induction false} LessTransitive(a: string, b: string, c: string)
    requires Less(a, b) && Less(b, c)
    ensures Less(a, c)
  {
    if a != [] && a[0] == b[0] && b[0] == c[0] {
      LessTransitive(a[1..], b[1..], c[1..]);
    }
  }

  /** The first difference decides; a proper prefix comes first. */
  lemma {:induction false} LessExactly(front: string, a: string, b: string)
    requires a == "" || b == "" || a[0] != b[0]
    ensures Less(front + a, front + b) <==> b != "" && (a == "" || a[0] < b[0])
  {
    if front == "" {
      assert front + a == a && front + b == b;
    } else {
      assert (front + a)[1..] == front[1..] + a && (front + b)[1..] == front[1..] + b;
      LessExactly(front[1..], a, b);
    }
  }

  /** unicode.IsSpace, the class strings.TrimSpace removes. */
  predicate IsSpace(c: char) {
    || '\t' <= c <= '\r'
    || c == ' ' || c == '\U{85}' || c == '\U{A0}' || c == '\U{1680}' || c == '\U{2028}'
    || c == '\U{2029}' || c == '\U{202F}' || c == '\U{205F}' || c == '\U{3000}'
    || '\U{2000}' <= c <= '\U{200A}'
  }

  function TrimLeft(s: string): (r: string)
    ensures r == [] || !IsSpace(r[0])
    ensures |r| <= |s| && r == s[|s| - |r|..]
  {
    if s != [] && IsSpace(s[0]) then TrimLeft(s[1..]) else s
  }

  function TrimRight(s: string): (r: string)
    ensures r == [] || !IsSpace(r[|r| - 1])
    ensures |r| <= |s| && r == s[..|r|]
  {
    if s != [] && IsSpace(s[|s| - 1]) then TrimRight(s[..|s| - 1]) else s
  }

  /** strings.TrimSpace. */
  function TrimSpace(s: string): (r: string)
    ensures r == [] || (!IsSpace(r[0]) && !IsSpace(r[|r| - 1]))
    ensures |r| <= |s|
  {
    TrimRight(TrimLeft(s))
  }

  /** A trimmed string is empty exactly when every character is white space. */
  lemma {:induction false} TrimSpaceEmpty(s: string)
    ensures TrimSpace(s) == [] <==> forall i | 0 <= i < |s| :: IsSpace(s[i])
  {
    var t := TrimLeft(s);
    TrimLeftDrops(s);
    if t != [] {
      assert s[|s| - |t|] == t[0] && !IsSpace(t[0]);
      TrimRightDrops(t);
    }
  }

  lemma {:induction false} TrimLeftDrops(s: string)
    ensures forall i | 0 <= i < |s| - |TrimLeft(s)| :: IsSpace(s[i])
  {
    if s != [] && IsSpace(s[0]) {
      TrimLeftDrops(s[1..]);
      forall i | 0 <= i < |s| - |TrimLeft(s)| ensures IsSpace(s[i]) {
        if i > 0 {
          assert s[i] == s[1..][i - 1];
        }
      }
    }
  }

  lemma {:induction false} TrimRightDrops(s: string)
    ensures forall i | |TrimRight(s)| <= i < |s| :: IsSpace(s[i])
  {
    if s != [] && IsSpace(s[|s| - 1]) {
      TrimRightDrops(s[..|s| - 1]);
    }
  }

  /** A string that neither starts nor ends with white space is left alone. */
  lemma TrimSpaceIdentity(s: string)
    requires s == [] || (!IsSpace(s[0]) && !IsSpace(s[|s| - 1]))
    ensures TrimSpace(s) == s
  {
  }

  /** strings.ToLower, exact wherever the result is compared with ASCII text: besides
      A to Z only U+0130 and U+212A have an ASCII lower-case form. */
  function LowerChar(c: char): (r: char)
    ensures !('A' <= r <= 'Z') && r != '\U{130}' && r != '\U{212A}'
    ensures IsSpace(c) == IsSpace(r)
  {
    if 'A' <= c <= 'Z' then ((c as int) + 32) as char
    else if c == '\U{130}' then 'i'
    else if c == '\U{212A}' then 'k'
    else c
  }

  function Lower(s: string): (r: string)
    ensures |r| == |s|
    ensures forall i | 0 <= i < |s| :: r[i] == LowerChar(s[i])
  {
    seq(|s|, i requires 0 <= i < |s| => LowerChar(s[i]))
  }

  /** strings.EqualFold, exact wherever one side is ASCII: besides the letters only U+017F and U+212A fold to it. */
  function FoldChar(c: char): char {
    if 'A' <= c <= 'Z' then ((c as int) + 32) as char
    else if c == '\U{17F}' then 's'
    else if c == '\U{212A}' then 'k'
    else c
  }

  predicate EqualFold(a: string, b: string) {
    |a| == |b| && forall i | 0 <= i < |a| :: FoldChar(a[i]) == FoldChar(b[i])
  }

  /** sort.SliceStable and sort.Strings: ascending by key, equal keys in their old order. */
  function SortBy<T>(key: T -> string, xs: seq<T>): seq<T> {
    if xs == [] then [] else InsertBy(key, xs[0], SortBy(key, xs[1..]))
  }

  function InsertBy<T>(key: T -> string, x: T, xs: seq<T>): seq<T> {
    if xs == [] || !Less(key(xs[0]), key(x)) then [x] + xs
    else [xs[0]] + InsertBy(key, x, xs[1..])
  }

  ghost predicate Ascending<T>(key: T -> string, xs: seq<T>) {
    forall i, j | 0 <= i < j < |xs| :: !Less(key(xs[j]), key(xs[i]))
  }

  lemma {:induction false} SortBySorts<T>(key: T -> string, xs: seq<T>)
    ensures Ascending(key, SortBy(key, xs))
    ensures multiset(SortBy(key, xs)) == multiset(xs)
  {
    if xs != [] {
      SortBySorts(key, xs[1..]);
      InsertByKeepsOrder(key, xs[0], SortBy(key, xs[1..]));
      assert xs == [xs[0]] + xs[1..];
    }
  }

  lemma NotLessTransitive(a: string, b: string, c: string)
    requires a == b || !Less(a, b)
    requires !Less(b, c)
    ensures !Less(a, c)
  {
    LessTotal(a, b);
    LessTotal(b, c);
    if Less(a, c) && b != c && a != b {
      LessTransitive(b, a, c);
    }
  }

  lemma {:induction false} InsertByAdds<T>(key: T -> string, x: T, xs: seq<T>)
    ensures multiset(InsertBy(key, x, xs)) == multiset(xs) + multiset{x}
  {
    if xs != [] && Less(key(xs[0]), key(x)) {
      assert xs == [xs[0]] + xs[1..];
      InsertByAdds(key, x, xs[1..]);
    }
  }

  lemma {:induction false} InsertByKeepsOrder<T>(key: T -> string, x: T, xs: seq<T>)
    requires Ascending(key, xs)
    ensures Ascending(key, InsertBy(key, x, xs))
    ensures multiset(InsertBy(key, x, xs)) == multiset(xs) + multiset{x}
  {
    InsertByAdds(key, x, xs);
    if xs == [] {
    } else if !Less(key(xs[0]), key(x)) {
      forall j | 0 <= j < |xs| ensures !Less(key(xs[j]), key(x)) {
        NotLessTransitive(key(xs[j]), key(xs[0]), key(x));
      }
    } else {
      InsertByKeepsOrder(key, x, xs[1..]);
      InsertByAdds(key, x, xs[1..]);
      LessTotal(key(x), key(xs[0]));
      FirstStaysFirst(key, x, xs);
    }
  }

  /** Nothing in the rest of an ascending list, or the new element behind it, is smaller than the first. */
  lemma FirstStaysFirst<T>(key: T -> string, x: T, xs: seq<T>)
    requires xs != [] && Ascending(key, xs) && !Less(key(x), key(xs[0]))
    ensures forall y | y in InsertBy(key, x, xs[1..]) :: !Less(key(y), key(xs[0]))
  {
    InsertByAdds(key, x, xs[1..]);
    var rest := InsertBy(key, x, xs[1..]);
    forall y | y in rest ensures !Less(key(y), key(xs[0])) {
      assert y in multiset(rest);
      assert y in multiset(xs[1..]) || y == x;
    }
  }
}
