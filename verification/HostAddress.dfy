/** generateIPAddressInCIDR (internal/server/utils.go): a random host address inside an IPv4 prefix. */
module HostAddress {
  import opened Outcomes

  const WORD: int := 0x1_0000_0000

  type Word = x: int | 0 <= x < WORD witness 0
  type Octet = x: int | 0 <= x < 256 witness 0

  /** What parsing the text yields. An IPv4-mapped IPv6 prefix still has a four-byte form, with a
      prefix length above 96 counted over 128 bits. */
  datatype Cidr =
    | Malformed
    | NotIpv4
    | Ipv4(address: Word, ones: int)

  function Pow2(n: nat): (p: nat)
    ensures p >= 1
  {
    if n == 0 then 1 else 2 * Pow2(n - 1)
  }

  /** A prefix as the parser returns it: host bits cleared, 0 to 32 or mapped 96 to 128 ones. */
  predicate Parsed(cidr: Cidr) {
    cidr.Ipv4? ==>
      || (0 <= cidr.ones <= 32 && cidr.address % Pow2(32 - cidr.ones) == 0)
      || 96 <= cidr.ones <= 128
  }

  type Prefix = c: Cidr | Parsed(c) witness Malformed

  /** The addresses of the prefix are address .. address + Size - 1. */
  function Size(cidr: Cidr): nat
    requires cidr.Ipv4? && 0 <= cidr.ones <= 32
  {
    Pow2(32 - cidr.ones)
  }

  /** binary.BigEndian.PutUint32. */
  method PutUint32(out: array<Octet>, value: Word)
    requires out.Length == 4
    modifies out
    ensures out[..] == Octets(value)
  {
    out[0] := value / 0x100_0000;
    out[1] := value / 0x1_0000 % 256;
    out[2] := value / 0x100 % 256;
    out[3] := value % 256;
    assert out[..] == [out[0], out[1], out[2], out[3]];
  }

  function Octets(value: Word): seq<Octet> {
    [value / 0x100_0000, value / 0x1_0000 % 256, value / 0x100 % 256, value % 256]
  }

  /** binary.BigEndian.Uint32. */
  function FromOctets(b: seq<Octet>): Word
    requires |b| == 4
  {
    var b0: int, b1: int, b2: int, b3: int := b[0], b[1], b[2], b[3];
    ((b0 * 256 + b1) * 256 + b2) * 256 + b3
  }

  lemma OctetsRoundTrip(value: Word)
    ensures FromOctets(Octets(value)) == value
  {
    var high := value / 0x100;
    assert value == high * 0x100 + value % 0x100;
    var top := high / 0x100;
    assert high == top * 0x100 + high % 0x100;
    assert top == value / 0x1_0000;
    assert top == top / 0x100 * 0x100 + top % 0x100;
    assert top / 0x100 == value / 0x100_0000;
  }

  lemma {:induction false} Pow2Adds(m: nat, n: nat)
    ensures Pow2(m + n) == Pow2(m) * Pow2(n)
  {
    if m > 0 {
      Pow2Adds(m - 1, n);
    }
  }

  lemma {:induction false} Pow2Grows(m: nat, n: nat)
    requires m <= n
    ensures Pow2(m) <= Pow2(n)
  {
    if m < n {
      Pow2Grows(m, n - 1);
    }
  }

  lemma Pow2Of32()
    ensures Pow2(32) == WORD
  {
    assert Pow2(8) == 256;
    Pow2Adds(8, 8);
    Pow2Adds(16, 16);
  }

  /** A masked prefix never reaches past the last address. */
  lemma PrefixFits(cidr: Cidr)
    requires Parsed(cidr) && cidr.Ipv4? && 0 <= cidr.ones <= 32
    ensures cidr.address + Size(cidr) <= WORD
  {
    Pow2Of32();
    Pow2Adds(32 - cidr.ones, cidr.ones);
    BlockFits(Size(cidr), cidr.address / Size(cidr), Pow2(cidr.ones));
  }

  lemma BlockFits(size: nat, k: nat, blocks: nat)
    requires size > 0 && size * k < size * blocks
    ensures size * k + size <= size * blocks
  {
    if k >= blocks {
      MulMonotone(size, blocks, k);
    }
    MulMonotone(size, k + 1, blocks);
    assert size * (k + 1) == size * k + size;
  }

  /** How many different offsets can be drawn below a prefix of this length. */
  function MaxHost(ones: int): (m: nat)
    requires 0 <= ones <= 30
    ensures 2 <= m <= WORD - 3
  {
    if ones == 0 then WORD - 3
    else
      assert Pow2(1) == 2 * Pow2(0) && Pow2(2) == 2 * Pow2(1) && Pow2(32) == 2 * Pow2(31);
      Pow2Grows(2, 32 - ones);
      Pow2Grows(32 - ones, 31);
      Pow2Of32();
      Pow2(32 - ones) - 2
  }

  lemma MulMonotone(a: nat, b: int, c: int)
    requires b <= c
    ensures a * b <= a * c
  {
  }

  /** What is drawn for a prefix and a random word: an IPv4 address in network byte order, an error for
      text that is no IPv4 prefix, or a panic, by a remainder by zero or a negative shift. */
  function Generated(cidr: Prefix, random: Word): Reply<seq<Octet>> {
    if !cidr.Ipv4? then Refused(InvalidArgument)
    else if cidr.ones == 31 || cidr.ones > 32 then Panicked
    else if cidr.ones == 32 then Answer(Octets(cidr.address))
    else
      InsidePrefix(cidr, random);
      Answer(Octets(cidr.address + 1 + random % MaxHost(cidr.ones)))
  }

  /** generateIPAddressInCIDR, with `random` the drawn 32-bit word; additions wrap at 32 bits. */
  method GenerateIPAddressInCIDR(cidr: Prefix, random: Word) returns (reply: Reply<seq<Octet>>)
    ensures reply == Generated(cidr, random)
    ensures reply.Answer? && cidr.ones < 31 ==>
              FromOctets(reply.value) == cidr.address + 1 + random % MaxHost(cidr.ones)
  {
    if cidr.Malformed? || cidr.NotIpv4? {
      return Refused(InvalidArgument);
    }
    var hostBits := 32 - cidr.ones;
    if hostBits == 0 {
      var same := Encode(cidr.address);
      return Answer(same);
    }
    if hostBits < 0 {
      return Panicked;
    }
    var maxHost: Word := 0;
    if hostBits >= 32 {
      maxHost := WORD - 1 - 2;
    } else if hostBits == 1 {
      assert Pow2(1) == 2 * Pow2(0);
      maxHost := Pow2(hostBits) - 2;
    } else {
      var bound := MaxHost(cidr.ones);
      maxHost := Pow2(hostBits) - 2;
    }
    if maxHost == 0 {
      return Panicked;
    }
    InsidePrefix(cidr, random);
    var offset := Wrap(random % maxHost + 1);
    var sum := Wrap(cidr.address + offset);
    var octets := Encode(sum);
    return Answer(octets);
  }

  /** 32-bit unsigned arithmetic keeps the low word. */
  function Wrap(x: nat): (w: Word)
    ensures x < WORD ==> w == x
  {
    x % WORD
  }

  method Encode(value: Word) returns (octets: seq<Octet>)
    ensures octets == Octets(value) && FromOctets(octets) == value
  {
    var out := new Octet[4];
    PutUint32(out, value);
    OctetsRoundTrip(value);
    return out[..];
  }

  /** The drawn address lies in the prefix without wrapping; for lengths 1 to 30 it is neither the
      network nor the broadcast address. */
  lemma InsidePrefix(cidr: Cidr, random: Word)
    requires Parsed(cidr) && cidr.Ipv4? && 0 <= cidr.ones <= 30
    ensures cidr.address < cidr.address + 1 + random % MaxHost(cidr.ones) < cidr.address + Size(cidr) - 1
    ensures cidr.address + Size(cidr) <= WORD
  {
    PrefixFits(cidr);
    Pow2Of32();
    ModBound(random, MaxHost(cidr.ones));
  }

  lemma ModBound(x: nat, m: nat)
    requires m > 0
    ensures 0 <= x % m < m && (x < m ==> x % m == x)
  {
  }

  /** For lengths 1 to 30 the hosts some random word yields are exactly the addresses strictly between
      the network and the broadcast address (prefix notation of section 3.1 of RFC 4632). */
  lemma ReachableHosts(cidr: Cidr, host: int)
    requires Parsed(cidr) && cidr.Ipv4? && 1 <= cidr.ones <= 30
    ensures
      cidr.address < host < cidr.address + Size(cidr) - 1 <==>
      exists random: Word :: host == cidr.address + 1 + random % MaxHost(cidr.ones)
  {
    if cidr.address < host < cidr.address + Size(cidr) - 1 {
      var random := host - cidr.address - 1;
      PrefixFits(cidr);
      ModBound(random, MaxHost(cidr.ones));
      assert host == cidr.address + 1 + random % MaxHost(cidr.ones);
    }
    forall random: Word | host == cidr.address + 1 + random % MaxHost(cidr.ones)
      ensures cidr.address < host < cidr.address + Size(cidr) - 1
    {
      InsidePrefix(cidr, random);
    }
  }

  /** For length 0 every host is reachable but the one just below the broadcast address. */
  lemma ReachableHostsOfEverything(cidr: Cidr, host: int)
    requires Parsed(cidr) && cidr.Ipv4? && cidr.ones == 0
    ensures
      0 < host < WORD - 2 <==> exists random: Word :: host == cidr.address + 1 + random % MaxHost(0)
  {
    PrefixFits(cidr);
    Pow2Of32();
    if 0 < host < WORD - 2 {
      var random := host - 1;
      ModBound(random, MaxHost(0));
      assert host == cidr.address + 1 + random % MaxHost(0);
    }
  }
}
