/** The generation-aware longest-prefix-match trie: which stored keys a lookup key matches,
    at the level of the bytes the kernel compares (bpf/headers/common.h:29-34). */
module Lpm {
  import opened Words

  /** An IPv4 address as its four bytes in network order. */
  datatype Ip = Ip(a: U8, b: U8, c: U8, d: U8)

  function IpBytes(ip: Ip): seq<U8> {
    [ip.a, ip.b, ip.c, ip.d]
  }

  function Number(ip: Ip): nat {
    ip.a * 0x100_0000 + ip.b * 0x1_0000 + ip.c * 0x100 + ip.d
  }

  // ---- Bits, most significant first ------------------------------------------------------

  /** Logical shift right. */
  function Shr(x: nat, k: nat): nat {
    if k == 0 then x else Shr(x, k - 1) / 2
  }

  function Pow2(k: nat): nat {
    if k == 0 then 1 else 2 * Pow2(k - 1)
  }

  /** Bit `i` of the data, most significant bit of each byte first: the trie's comparison order. */
  function Bit(data: seq<U8>, i: nat): (b: int)
    requires i < 8 * |data|
  {
    Shr(data[i / 8], 7 - i % 8) % 2
  }

  ghost predicate BitsAgree(d: seq<U8>, e: seq<U8>, n: nat)
    requires n <= 8 * |d| && n <= 8 * |e|
  {
    forall i: nat | i < n :: Bit(d, i) == Bit(e, i)
  }

  // ---- Networks --------------------------------------------------------------------------

  datatype Cidr = Cidr(ip: Ip, plen: nat)

  /** No address bit is set beyond the prefix, as net.ParseCIDR guarantees of the network it returns. */
  ghost predicate Canonical(c: Cidr) {
    c.plen <= 32 && forall i: nat | c.plen <= i < 32 :: Bit(IpBytes(c.ip), i) == 0
  }

  type Net = c: Cidr | Canonical(c) ghost witness Cidr(Ip(0, 0, 0, 0), 32)

  /** CIDR containment, arithmetically: the block of 2^(32 - plen) addresses from the network address. */
  predicate Contains(c: Net, ip: Ip) {
    Number(c.ip) <= Number(ip) < Number(c.ip) + Pow2(32 - c.plen)
  }

  // ---- The key structure in memory -------------------------------------------------------

  /** struct lpm_key_ipv4 */
  datatype LpmKey = LpmKey(prefixlen: U32, gen: U32, addr: U32)

  /** The bytes of a 32-bit word on a little-endian machine. */
  function LeBytes(w: U32): seq<U8> {
    [w % 256, w / 256 % 256, w / 256 / 256 % 256, w / 256 / 256 / 256]
  }

  /** The word a little-endian machine loads from four address bytes. */
  function LeWord(ip: Ip): U32 {
    ip.a + 256 * (ip.b + 256 * (ip.c + 256 * ip.d))
  }

  /** Key written by StageCIDRRule: the address word is read little-endian from the four bytes. */
  function StoredKey(gen: U32, c: Net): LpmKey {
    LpmKey(32 + c.plen, gen, LeWord(c.ip))
  }

  /** Key built by the XDP program: `saddr` is loaded as a word from the packet. */
  function LookupKey(gen: U32, src: Ip): LpmKey {
    LpmKey(64, gen, LeWord(src))
  }

  /** The eight data bytes behind `prefixlen`. */
  function KeyData(k: LpmKey): seq<U8> {
    LeBytes(k.gen) + LeBytes(k.addr)
  }

  /** The kernel's match: the stored prefix is no longer than the key's and its bits agree. */
  ghost predicate TrieMatch(stored: LpmKey, key: LpmKey) {
    stored.prefixlen <= key.prefixlen <= 64 && BitsAgree(KeyData(stored), KeyData(key), stored.prefixlen)
  }

  // ---- Bits against arithmetic -----------------------------------------------------------

  /** The number spelled by bits `from..from + n`. */
  ghost function Value(data: seq<U8>, from: nat, n: nat): nat
    requires from + n <= 8 * |data|
  {
    if n == 0 then 0 else 2 * Value(data, from, n - 1) + Bit(data, from + n - 1)
  }

  lemma {:induction false} ValueByte(data: seq<U8>, j: nat)
    requires j < |data|
    ensures Value(data, 8 * j, 8) == data[j]
  {
    ValueHighBits(data, j, 8);
  }

  lemma {:induction false} ValueHighBits(data: seq<U8>, j: nat, n: nat)
    requires j < |data| && n <= 8
    ensures Value(data, 8 * j, n) == Shr(data[j], 8 - n)
  {
    if n == 0 {
      ShrByteGone(data[j]);
    } else {
      ValueHighBits(data, j, n - 1);
      assert Shr(data[j], 8 - (n - 1)) == Shr(data[j], 8 - n) / 2;
      assert (8 * j + n - 1) / 8 == j && (8 * j + n - 1) % 8 == n - 1;
    }
  }

  lemma ShrByteGone(x: U8)
    ensures Shr(x, 8) == 0
  {
    assert Shr(x, 1) == x / 2 < 128;
    assert Shr(x, 2) == Shr(x, 1) / 2 < 64;
    assert Shr(x, 3) == Shr(x, 2) / 2 < 32;
    assert Shr(x, 4) == Shr(x, 3) / 2 < 16;
    assert Shr(x, 5) == Shr(x, 4) / 2 < 8;
    assert Shr(x, 6) == Shr(x, 5) / 2 < 4;
    assert Shr(x, 7) == Shr(x, 6) / 2 < 2;
  }

  /** A number made of a high and a low part, the low one below `p`. */
  predicate Splits(whole: nat, high: nat, p: nat, low: nat) {
    whole == high * p + low && low < p
  }

  lemma {:induction false} ValueSplit(data: seq<U8>, from: nat, n: nat, m: nat)
    requires from + n + m <= 8 * |data|
    ensures Splits(Value(data, from, n + m), Value(data, from, n), Pow2(m), Value(data, from + n, m))
  {
    if m == 0 {
      SplitsZero(Value(data, from, n));
    } else {
      ValueSplit(data, from, n, m - 1);
      SplitStep(data, from, n, m - 1);
    }
  }

  lemma SplitsZero(v: nat)
    ensures Splits(v, v, 1, 0)
  {
  }

  lemma SplitStep(data: seq<U8>, from: nat, n: nat, k: nat)
    requires from + n + k + 1 <= 8 * |data|
    requires Splits(Value(data, from, n + k), Value(data, from, n), Pow2(k), Value(data, from + n, k))
    ensures Splits(Value(data, from, n + (k + 1)), Value(data, from, n), Pow2(k + 1), Value(data, from + n, k + 1))
  {
    var bit := BitAt(data, from + n + k);
    var whole := ValueMore(data, from, n + k, bit);
    var low := ValueMore(data, from + n, k, bit);
    SplitMore(Value(data, from, n + k), Value(data, from, n), Pow2(k), Value(data, from + n, k), bit);
    assert n + (k + 1) == n + k + 1;
  }

  lemma BitAt(data: seq<U8>, i: nat) returns (bit: nat)
    requires i < 8 * |data|
    ensures bit == Bit(data, i) && bit <= 1
  {
    bit := Bit(data, i);
  }

  lemma ValueMore(data: seq<U8>, from: nat, n: nat, bit: nat) returns (v: nat)
    requires from + n + 1 <= 8 * |data| && bit == Bit(data, from + n)
    ensures v == Value(data, from, n + 1) == 2 * Value(data, from, n) + bit
  {
    v := Value(data, from, n + 1);
  }

  lemma SplitMore(whole: nat, high: nat, p: nat, low: nat, bit: nat)
    requires Splits(whole, high, p, low) && bit <= 1
    ensures Splits(2 * whole + bit, high, 2 * p, 2 * low + bit)
  {
    assert high * (2 * p) == 2 * (high * p);
  }

  /** Equal leading bits are the same as equal leading numbers. */
  lemma {:induction false} AgreeIsEqualValue(d: seq<U8>, e: seq<U8>, from: nat, n: nat)
    requires from + n <= 8 * |d| && from + n <= 8 * |e|
    ensures (forall i: nat | from <= i < from + n :: Bit(d, i) == Bit(e, i))
       <==> Value(d, from, n) == Value(e, from, n)
  {
    if n > 0 {
      AgreeIsEqualValue(d, e, from, n - 1);
    }
  }

  /** An address is the number its 32 bits spell. */
  lemma NumberIsValue(ip: Ip)
    ensures Value(IpBytes(ip), 0, 32) == Number(ip)
  {
    var d := IpBytes(ip);
    ValueByte(d, 0);
    assert Value(d, 0, 8) == ip.a;
    ValueNextByte(d, 1);
    assert Value(d, 0, 16) == ip.a * 256 + ip.b;
    ValueNextByte(d, 2);
    assert Value(d, 0, 24) == (ip.a * 256 + ip.b) * 256 + ip.c;
    ValueNextByte(d, 3);
  }

  lemma ValueNextByte(d: seq<U8>, j: nat)
    requires j < |d|
    ensures Value(d, 0, 8 * (j + 1)) == Value(d, 0, 8 * j) * 256 + d[j]
  {
    ValueByte(d, j);
    Pow2Of8();
    ValueSplit(d, 0, 8 * j, 8);
    assert 8 * (j + 1) == 8 * j + 8;
  }

  lemma Pow2Of8()
    ensures Pow2(8) == 256
  {
    assert Pow2(2) == 4;
    assert Pow2(4) == 16;
    assert Pow2(6) == 64;
  }

  /** Bits that are all clear spell zero. */
  lemma {:induction false} ClearValue(d: seq<U8>, from: nat, n: nat)
    requires from + n <= 8 * |d|
    requires forall i: nat | from <= i < from + n :: Bit(d, i) == 0
    ensures Value(d, from, n) == 0
  {
    if n > 0 {
      ClearValue(d, from, n - 1);
    }
  }

  /** A number lies in the block of `p` numbers from `x` exactly when its high part is x's. */
  lemma InBlock(x: nat, v: nat, y: nat, w: nat, p: nat, rest: nat)
    requires Splits(x, v, p, 0) && Splits(y, w, p, rest)
    ensures x <= y < x + p <==> v == w
  {
    if v < w {
      OneBlockApart(v, w, p);
    } else if w < v {
      OneBlockApart(w, v, p);
    }
  }

  lemma {:induction false} OneBlockApart(v: nat, w: nat, p: nat)
    requires v < w
    ensures v * p + p <= w * p
    decreases w - v
  {
    assert (v + 1) * p == v * p + p;
    if v + 1 < w {
      OneBlockApart(v + 1, w, p);
    }
  }

  /** An address is a block number and an offset into the block of 2^(32 - p) addresses. */
  lemma NumberSplits(ip: Ip, p: nat) returns (block: nat, offset: nat)
    requires p <= 32
    ensures block == Value(IpBytes(ip), 0, p) && offset == Value(IpBytes(ip), p, 32 - p)
    ensures Splits(Number(ip), block, Pow2(32 - p), offset)
  {
    var d := IpBytes(ip);
    block, offset := Value(d, 0, p), Value(d, p, 32 - p);
    NumberIsValue(ip);
    ValueSplit(d, 0, p, 32 - p);
  }

  /** Containment as a range of addresses is agreement on the first `plen` bits. */
  lemma ContainsIsPrefix(c: Net, ip: Ip)
    ensures Contains(c, ip) <==> BitsAgree(IpBytes(c.ip), IpBytes(ip), c.plen)
  {
    var d, e, p := IpBytes(c.ip), IpBytes(ip), c.plen;
    var v, zero := NumberSplits(c.ip, p);
    var w, rest := NumberSplits(ip, p);
    ClearValue(d, p, 32 - p);
    InBlock(Number(c.ip), v, Number(ip), w, Pow2(32 - p), rest);
    AgreeIsEqualValue(d, e, 0, p);
  }

  // ---- Keys ------------------------------------------------------------------------------

  /** Storing the little-endian word lays the address bytes out in network order again. */
  lemma WordRoundTrip(ip: Ip)
    ensures LeBytes(LeWord(ip)) == IpBytes(ip)
  {
    var w := LeWord(ip);
    assert w / 256 == ip.b + 256 * (ip.c + 256 * ip.d);
    assert w / 256 / 256 == ip.c + 256 * ip.d;
    assert w / 256 / 256 / 256 == ip.d;
  }

  lemma LeBytesInjective(g: U32, h: U32)
    requires LeBytes(g) == LeBytes(h)
    ensures g == h
  {
    assert g / 256 / 256 / 256 == LeBytes(g)[3] == LeBytes(h)[3] == h / 256 / 256 / 256;
    assert g / 256 / 256 % 256 == LeBytes(g)[2] == LeBytes(h)[2] == h / 256 / 256 % 256;
    assert g / 256 % 256 == LeBytes(g)[1] == LeBytes(h)[1] == h / 256 % 256;
    assert g % 256 == LeBytes(g)[0] == LeBytes(h)[0] == h % 256;
  }

  lemma WordBitsAgree(d: seq<U8>, e: seq<U8>)
    requires |d| == |e| == 4
    ensures BitsAgree(d, e, 32) <==> d == e
  {
    if BitsAgree(d, e, 32) {
      forall j: nat | j < 4
        ensures d[j] == e[j]
      {
        AgreeIsEqualValue(d, e, 8 * j, 8);
        ValueByte(d, j);
        ValueByte(e, j);
      }
    }
  }

  lemma BitOfConcat(x: seq<U8>, y: seq<U8>, i: nat)
    requires i < 8 * (|x| + |y|)
    ensures Bit(x + y, i) == if i < 8 * |x| then Bit(x, i) else Bit(y, i - 8 * |x|)
  {
    if i >= 8 * |x| {
      assert (i - 8 * |x|) / 8 == i / 8 - |x| && (i - 8 * |x|) % 8 == i % 8;
    }
  }

  lemma ConcatAgree(x: seq<U8>, y: seq<U8>, x': seq<U8>, y': seq<U8>, n: nat)
    requires |x| == |x'| == |y| == |y'| == 4 && n <= 32
    ensures BitsAgree(x + y, x' + y', 32 + n) <==> BitsAgree(x, x', 32) && BitsAgree(y, y', n)
  {
    if BitsAgree(x + y, x' + y', 32 + n) {
      forall i: nat | i < 32 ensures Bit(x, i) == Bit(x', i) {
        BitOfConcat(x, y, i);
        BitOfConcat(x', y', i);
      }
      forall i: nat | i < n ensures Bit(y, i) == Bit(y', i) {
        BitOfConcat(x, y, 32 + i);
        BitOfConcat(x', y', 32 + i);
        assert Bit(x + y, 32 + i) == Bit(x' + y', 32 + i);
      }
    }
    if BitsAgree(x, x', 32) && BitsAgree(y, y', n) {
      forall i: nat | i < 32 + n ensures Bit(x + y, i) == Bit(x' + y', i) {
        BitOfConcat(x, y, i);
        BitOfConcat(x', y', i);
      }
    }
  }

  lemma GenerationBits(g: U32, h: U32)
    ensures BitsAgree(LeBytes(g), LeBytes(h), 32) <==> g == h
  {
    WordBitsAgree(LeBytes(g), LeBytes(h));
    if LeBytes(g) == LeBytes(h) {
      LeBytesInjective(g, h);
    }
  }

  /** Key data agree on the generation's 32 bits and `n` more exactly when both parts do. */
  lemma KeyBits(g: U32, a: Ip, h: U32, b: Ip, n: nat)
    requires n <= 32
    ensures BitsAgree(LeBytes(g) + LeBytes(LeWord(a)), LeBytes(h) + LeBytes(LeWord(b)), 32 + n)
       <==> BitsAgree(LeBytes(g), LeBytes(h), 32) && BitsAgree(IpBytes(a), IpBytes(b), n)
  {
    WordRoundTrip(a);
    WordRoundTrip(b);
    ConcatAgree(LeBytes(g), IpBytes(a), LeBytes(h), IpBytes(b), n);
  }

  /** A stored key matches a lookup key exactly when the generations are equal and the network
      contains the address: lookups never cross generations. */
  lemma TrieMatchIsContainment(g: U32, c: Net, h: U32, src: Ip)
    ensures TrieMatch(StoredKey(g, c), LookupKey(h, src)) <==> g == h && Contains(c, src)
  {
    GenerationBits(g, h);
    KeyBits(g, c.ip, h, src, c.plen);
    ContainsIsPrefix(c, src);
  }

  /** Two networks of one prefix length that share an address are the same network. */
  lemma SameLengthSameNet(c: Net, d: Net, ip: Ip)
    requires c.plen == d.plen && Contains(c, ip) && Contains(d, ip)
    ensures c == d
  {
    var p := c.plen;
    ContainsIsPrefix(c, ip);
    ContainsIsPrefix(d, ip);
    forall i: nat | i < 32 ensures Bit(IpBytes(c.ip), i) == Bit(IpBytes(d.ip), i) {
      if i < p {
        assert Bit(IpBytes(c.ip), i) == Bit(IpBytes(ip), i) == Bit(IpBytes(d.ip), i);
      }
    }
    WordBitsAgree(IpBytes(c.ip), IpBytes(d.ip));
    assert IpBytes(c.ip)[0] == IpBytes(d.ip)[0] && IpBytes(c.ip)[1] == IpBytes(d.ip)[1];
    assert IpBytes(c.ip)[2] == IpBytes(d.ip)[2] && IpBytes(c.ip)[3] == IpBytes(d.ip)[3];
  }

  // ---- Whole octets ----------------------------------------------------------------------

  lemma {:induction false} WholeBytesAgree(d: seq<U8>, e: seq<U8>, j: nat)
    requires |d| == |e| && j <= |d|
    ensures BitsAgree(d, e, 8 * j) <==> d[..j] == e[..j]
  {
    if j > 0 {
      WholeBytesAgree(d, e, j - 1);
      AgreeIsEqualValue(d, e, 8 * (j - 1), 8);
      ValueByte(d, j - 1);
      ValueByte(e, j - 1);
      assert d[..j] == d[..j - 1] + [d[j - 1]] && e[..j] == e[..j - 1] + [e[j - 1]];
      var from := 8 * (j - 1);
      assert BitsAgree(d, e, 8 * j)
        <==> BitsAgree(d, e, from) && forall i: nat | from <= i < from + 8 :: Bit(d, i) == Bit(e, i);
    }
  }

  /** Networks of whole octets contain the addresses that begin like them. */
  lemma OctetNetworks(c: Net, ip: Ip)
    ensures c.plen == 0 ==> Contains(c, ip)
    ensures c.plen == 8 ==> (Contains(c, ip) <==> ip.a == c.ip.a)
    ensures c.plen == 16 ==> (Contains(c, ip) <==> ip.a == c.ip.a && ip.b == c.ip.b)
    ensures c.plen == 24 ==> (Contains(c, ip) <==> ip.a == c.ip.a && ip.b == c.ip.b && ip.c == c.ip.c)
    ensures c.plen == 32 ==> (Contains(c, ip) <==> ip == c.ip)
  {
    var j := c.plen / 8;
    if c.plen == 8 * j {
      ContainsIsPrefix(c, ip);
      WholeBytesAgree(IpBytes(c.ip), IpBytes(ip), j);
      OctetsOf(c.ip, ip);
    }
  }

  lemma OctetsOf(x: Ip, y: Ip)
    ensures IpBytes(x)[..0] == IpBytes(y)[..0]
    ensures IpBytes(x)[..1] == IpBytes(y)[..1] <==> x.a == y.a
    ensures IpBytes(x)[..2] == IpBytes(y)[..2] <==> x.a == y.a && x.b == y.b
    ensures IpBytes(x)[..3] == IpBytes(y)[..3] <==> x.a == y.a && x.b == y.b && x.c == y.c
    ensures IpBytes(x)[..4] == IpBytes(y)[..4] <==> x == y
  {
    var d, e := IpBytes(x), IpBytes(y);
    assert d[..1] == [x.a] && e[..1] == [y.a];
    assert d[..2] == [x.a, x.b] && e[..2] == [y.a, y.b];
    assert d[..3] == [x.a, x.b, x.c] && e[..3] == [y.a, y.b, y.c];
    assert d[..4] == d && e[..4] == e;
  }
}
