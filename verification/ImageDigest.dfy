/** Digests and cache file names (internal/libvirt/imagecache.go). */
module ImageDigest {
  import opened Text

  const PREFIX := "sha256:"

  function TrimPrefix(s: string, prefix: string): string {
    if prefix <= s then s[|prefix|..] else s
  }

  function NormalizeImageDigest(digest: string): string {
    TrimPrefix(TrimSpace(Lower(digest)), PREFIX)
  }

  predicate PlainHex(s: string) {
    s != "" && forall i | 0 <= i < |s| :: '0' <= s[i] <= '9' || 'a' <= s[i] <= 'f'
  }

  /** Normalising a second time changes nothing exactly when there is no prefix to take off, or what stands behind it
      starts with neither white space nor another prefix. The cache path is computed with a second pass. */
  lemma NormalizeIdempotent(digest: string)
    ensures
      var trimmed := TrimSpace(Lower(digest));
      NormalizeImageDigest(NormalizeImageDigest(digest)) == NormalizeImageDigest(digest) <==>
      || !(PREFIX <= trimmed) || trimmed == PREFIX
      || (!IsSpace(trimmed[|PREFIX|]) && !(PREFIX + PREFIX <= trimmed))
  {
    NormalizedIsLower(digest);
    var trimmed, once := TrimSpace(Lower(digest)), NormalizeImageDigest(digest);
    if once != "" {
      LastOfTrimPrefix(trimmed);
      TrimmedAgain(once);
      if PREFIX <= trimmed {
        PrefixBehind(PREFIX, trimmed);
      } else {
        TrimmedFront(Lower(digest));
      }
    }
  }

  lemma PrefixBehind(prefix: string, s: string)
    requires prefix <= s
    ensures prefix + prefix <= s <==> prefix <= s[|prefix|..]
  {
    assert s == prefix + s[|prefix|..];
    if prefix <= s[|prefix|..] {
      assert s[|prefix|..] == prefix + s[|prefix|..][|prefix|..];
      assert s == prefix + prefix + s[|prefix|..][|prefix|..];
    }
    if prefix + prefix <= s {
      assert s[|prefix|..][..|prefix|] == (prefix + prefix)[|prefix|..];
    }
  }

  lemma TrimmedFront(s: string)
    ensures var t := TrimSpace(s); t == "" || !IsSpace(t[0])
  {
  }

  lemma LastOfTrimPrefix(trimmed: string)
    requires TrimPrefix(trimmed, PREFIX) != ""
    ensures var once := TrimPrefix(trimmed, PREFIX); once[|once| - 1] == trimmed[|trimmed| - 1]
  {
  }

  lemma TrimmedAgain(once: string)
    requires once != "" && !IsSpace(once[|once| - 1])
    ensures TrimPrefix(TrimSpace(once), PREFIX) == once <==> !IsSpace(once[0]) && !(PREFIX <= once)
  {
    var again := TrimSpace(once);
    if !IsSpace(once[0]) {
      TrimSpaceIdentity(once);
    } else {
      assert again != once;
      assert |TrimPrefix(again, PREFIX)| == |once| ==> TrimPrefix(again, PREFIX) == again;
    }
  }

  ghost predicate InLowerCase(s: string) {
    forall i | 0 <= i < |s| :: LowerChar(s[i]) == s[i]
  }

  lemma LowerFixed(s: string)
    requires InLowerCase(s)
    ensures Lower(s) == s
  {
  }

  lemma TrimmedInLowerCase(s: string)
    requires InLowerCase(s)
    ensures InLowerCase(TrimSpace(s))
  {
    var left := TrimLeft(s);
    forall i | 0 <= i < |left| ensures LowerChar(left[i]) == left[i] {
      assert left[i] == s[|s| - |left| + i];
    }
  }

  lemma NormalizedIsLower(digest: string)
    ensures Lower(NormalizeImageDigest(digest)) == NormalizeImageDigest(digest)
  {
    var low := Lower(digest);
    assert InLowerCase(low);
    TrimmedInLowerCase(low);
    var trimmed := TrimSpace(low);
    assert InLowerCase(TrimPrefix(trimmed, PREFIX));
    LowerFixed(NormalizeImageDigest(digest));
  }

  /** path.Ext: the suffix from the last dot, if no slash follows it. */
  function Ext(url: string): (ext: string)
    ensures ext == "" || (ext[0] == '.' && '/' !in ext)
  {
    if url == "" || url[|url| - 1] == '/' then ""
    else if url[|url| - 1] == '.' then "."
    else
      var before := Ext(url[..|url| - 1]);
      if before == "" then "" else before + [url[|url| - 1]]
  }

  /** The extension is everything from the last dot, unless a slash follows it; without such a dot there is none. */
  lemma {:induction false} ExtExactly(front: string, back: string)
    requires '.' !in back && '/' !in back
    ensures Ext(front + "." + back) == "." + back
    ensures (front == "" || front[|front| - 1] == '/') ==> Ext(front + back) == ""
  {
    var url, plain := front + "." + back, front + back;
    if back == "" {
      assert url[|url| - 1] == '.' && url[..|url| - 1] == front;
      assert plain == front;
    } else {
      var n := |back| - 1;
      assert back[n] in back;
      assert url[..|url| - 1] == front + "." + back[..n] && url[|url| - 1] == back[n];
      assert plain[..|plain| - 1] == front + back[..n] && plain[|plain| - 1] == back[n];
      ExtExactly(front, back[..n]);
      assert "." + back == "." + back[..n] + [back[n]];
    }
  }

  /** A file name inside a cleaned directory name. */
  datatype CachePath = CachePath(dir: string, base: string)

  /** imageCachePath for a digest whose normalised form holds no separator. */
  function ImageCachePath(cacheDir: string, digest: string, imageUrl: string): CachePath {
    var ext := Lower(Ext(imageUrl));
    CachePath(cacheDir, NormalizeImageDigest(digest) + if ext == "" then ".img" else ext)
  }

  lemma PlainHexNormal(digest: string)
    requires PlainHex(digest)
    ensures NormalizeImageDigest(digest) == digest
  {
    assert InLowerCase(digest);
    LowerFixed(digest);
    TrimSpaceIdentity(digest);
    assert digest[0] != PREFIX[0];
  }

  lemma LowerConcat(a: string, b: string)
    requires InLowerCase(a) && InLowerCase(b)
    ensures InLowerCase(a + b)
  {
    forall i | 0 <= i < |a + b| ensures LowerChar((a + b)[i]) == (a + b)[i] {
      assert (a + b)[i] == if i < |a| then a[i] else b[i - |a|];
    }
  }

  lemma PrefixIsLower()
    ensures InLowerCase(PREFIX) && !IsSpace(PREFIX[0])
  {
  }

  lemma DropPrefix(prefix: string, s: string)
    ensures TrimPrefix(prefix + s, prefix) == s
  {
    assert (prefix + s)[..|prefix|] == prefix;
  }

  /** One pass takes one prefix off. */
  lemma PrefixedNormal(prefix: string, s: string)
    requires prefix != "" && InLowerCase(prefix) && !IsSpace(prefix[0])
    requires s != "" && InLowerCase(s) && !IsSpace(s[|s| - 1])
    ensures TrimPrefix(TrimSpace(Lower(prefix + s)), prefix) == s
  {
    LowerConcat(prefix, s);
    LowerFixed(prefix + s);
    assert (prefix + s)[|prefix + s| - 1] == s[|s| - 1] && (prefix + s)[0] == prefix[0];
    TrimSpaceIdentity(prefix + s);
    DropPrefix(prefix, s);
  }

  lemma HexIsLower(digest: string)
    requires PlainHex(digest)
    ensures InLowerCase(digest) && !IsSpace(digest[|digest| - 1])
  {
  }

  /** A doubled prefix takes two passes. */
  lemma DoubledPrefix(digest: string)
    requires PlainHex(digest)
    ensures
      var once := NormalizeImageDigest(PREFIX + (PREFIX + digest));
      once == PREFIX + digest && NormalizeImageDigest(once) == digest && digest != once
  {
    PrefixIsLower();
    HexIsLower(digest);
    LowerConcat(PREFIX, digest);
    var once := PREFIX + digest;
    assert once[|once| - 1] == digest[|digest| - 1];
    PrefixedNormal(PREFIX, digest);
    PrefixedNormal(PREFIX, once);
    assert |once| > |digest|;
  }

  lemma {:induction false} SplitAtDot(a: string, x: string, b: string, y: string)
    requires '.' !in a && '.' !in b && x != "" && y != "" && x[0] == '.' && y[0] == '.'
    requires a + x == b + y
    ensures a == b
  {
    assert (a + x)[0] == (b + y)[0];
    if a != "" && b != "" {
      assert (a + x)[1..] == a[1..] + x && (b + y)[1..] == b[1..] + y;
      SplitAtDot(a[1..], x, b[1..], y);
      assert a == [a[0]] + a[1..] && b == [b[0]] + b[1..];
    }
  }

  predicate Hex(s: string) {
    s != "" && forall i | 0 <= i < |s| :: '0' <= s[i] <= '9' || 'a' <= s[i] <= 'f' || 'A' <= s[i] <= 'F'
  }

  lemma HexHasNoPrefix(s: string)
    requires PlainHex(s)
    ensures TrimPrefix(s, PREFIX) == s
  {
    assert PREFIX[0] == 's';
  }

  lemma PrefixedHex(digest: string)
    requires Hex(digest)
    ensures
      var s := PREFIX + digest;
      s != "" && !IsSpace(s[0]) && !IsSpace(s[|s| - 1]) && TrimPrefix(Lower(s), PREFIX) == Lower(digest)
  {
    HexLower(digest);
    PrefixIsLower();
    LowerFixed(PREFIX);
    LowerOfConcat(PREFIX, digest);
    DropPrefix(PREFIX, Lower(digest));
  }

  /** Letter case, white space around it and one `sha256:` in front of it do not matter for a digest. */
  lemma SameDigest(left: string, digest: string, right: string)
    requires Hex(digest) && AllBlank(left) && AllBlank(right)
    ensures NormalizeImageDigest(left + digest + right) == Lower(digest)
    ensures NormalizeImageDigest(left + ("sha256:" + digest) + right) == Lower(digest)
  {
    PrefixText();
    HexLower(digest);
    HexHasNoPrefix(Lower(digest));
    PrefixedHex(digest);
    TrimmedBetween(left, digest, right);
    TrimmedBetween(left, PREFIX + digest, right);
  }

  lemma PrefixText()
    ensures PREFIX == "sha256:"
  {
  }

  ghost predicate AllBlank(s: string) {
    forall i | 0 <= i < |s| :: IsSpace(s[i])
  }

  lemma HexLower(digest: string)
    requires Hex(digest)
    ensures PlainHex(Lower(digest)) && !IsSpace(digest[0]) && !IsSpace(digest[|digest| - 1])
  {
  }

  lemma LowerOfConcat(a: string, b: string)
    ensures Lower(a + b) == Lower(a) + Lower(b)
  {
  }

  lemma TrimmedBetween(left: string, s: string, right: string)
    requires AllBlank(left) && AllBlank(right) && s != "" && !IsSpace(s[0]) && !IsSpace(s[|s| - 1])
    ensures TrimSpace(Lower(left + s + right)) == Lower(s)
  {
    LowerOfConcat(left, s);
    LowerOfConcat(left + s, right);
    BlankLower(left);
    BlankLower(right);
    TrimBlanks(Lower(left), Lower(s), Lower(right));
  }

  lemma BlankLower(s: string)
    requires AllBlank(s)
    ensures AllBlank(Lower(s))
  {
  }

  lemma TrimBlanks(left: string, s: string, right: string)
    requires AllBlank(left) && AllBlank(right) && s != "" && !IsSpace(s[0]) && !IsSpace(s[|s| - 1])
    ensures TrimSpace(left + s + right) == s
  {
    LeftBlanks(left, s + right);
    assert left + s + right == left + (s + right);
    assert (s + right)[0] == s[0];
    RightBlanks(s, right);
  }

  lemma {:induction false} LeftBlanks(left: string, s: string)
    requires AllBlank(left) && s != "" && !IsSpace(s[0])
    ensures TrimLeft(left + s) == s
  {
    if left == "" {
      assert left + s == s;
    } else {
      assert (left + s)[1..] == left[1..] + s && (left + s)[0] == left[0];
      LeftBlanks(left[1..], s);
    }
  }

  lemma {:induction false} RightBlanks(s: string, right: string)
    requires AllBlank(right) && s != "" && !IsSpace(s[|s| - 1])
    ensures TrimRight(s + right) == s
  {
    if right == "" {
      assert s + right == s;
    } else {
      var n := |right| - 1;
      assert (s + right)[..|s + right| - 1] == s + right[..n] && (s + right)[|s + right| - 1] == right[n];
      RightBlanks(s, right[..n]);
    }
  }

  /** A cache file is the digest with the lower-case extension of the URL, or `.img` when it has none. */
  lemma CacheFileName(dir: string, digest: string, front: string, back: string)
    requires PlainHex(digest) && '.' !in back && '/' !in back
    ensures ImageCachePath(dir, digest, front + "." + back) == CachePath(dir, digest + ("." + Lower(back)))
    ensures front == "" || front[|front| - 1] == '/' ==>
              ImageCachePath(dir, digest, front + back) == CachePath(dir, digest + ".img")
  {
    ExtExactly(front, back);
    PlainHexNormal(digest);
    LowerOfConcat(".", back);
    assert Lower(".") == "." && Lower("") == "";
  }

  /** Plain hexadecimal digests that share a cache file are equal. */
  lemma PathDeterminesDigest(dir1: string, digest1: string, url1: string, dir2: string, digest2: string, url2: string)
    requires PlainHex(digest1) && PlainHex(digest2)
    requires ImageCachePath(dir1, digest1, url1) == ImageCachePath(dir2, digest2, url2)
    ensures digest1 == digest2
  {
    PlainHexNormal(digest1);
    PlainHexNormal(digest2);
    var ext1, ext2 := Lower(Ext(url1)), Lower(Ext(url2));
    SplitAtDot(digest1, if ext1 == "" then ".img" else ext1, digest2, if ext2 == "" then ".img" else ext2);
  }
}
