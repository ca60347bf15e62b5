/**
 IP addresses and prefixes as octets, and the address range of a prefix computed by bit
 operations (prefixRange in internal/packet/windivert/filter.go).

 An address is its octets, most significant first: four of them for IPv4, sixteen for IPv6.
 */
module AddrBits {
  type Octets = seq<bv8>

  predicate IsAddr(o: Octets) {
    |o| == 4 || |o| == 16
  }

  datatype Prefix = Prefix(addr: Octets, bits: nat) {
    predicate Valid() {
      IsAddr(addr) && bits <= 8 * |addr|
    }

    predicate IsSingleIP() {
      bits == 8 * |addr|
    }

    /** netip's Contains: same family, and the first `bits` bits agree. */
    predicate Contains(a: Octets)
      requires Valid()
    {
      |a| == |addr| && Bits(a)[..bits] == Bits(addr)[..bits]
    }
  }

  // ---------------------------------------------------------------- bits of octets

  /** Bit `j` of an octet, counted from the high end. */
  function Mask(j: nat): bv8
    requires j < 8
  {
    if j == 0 then 0x80 else if j == 1 then 0x40 else if j == 2 then 0x20 else if j == 3 then 0x10
    else if j == 4 then 0x08 else if j == 5 then 0x04 else if j == 6 then 0x02 else 0x01
  }

  /** The octet with its first `r` bits set. */
  function HighMask(r: nat): bv8
    requires r <= 8
  {
    if r == 0 then 0x00 else if r == 1 then 0x80 else if r == 2 then 0xC0 else if r == 3 then 0xE0
    else if r == 4 then 0xF0 else if r == 5 then 0xF8 else if r == 6 then 0xFC else if r == 7 then 0xFE
    else 0xFF
  }

  predicate Has(b: bv8, j: nat)
    requires j < 8
  {
    Meets(b, Mask(j))
  }

  predicate Meets(b: bv8, m: bv8) {
    b & m != 0
  }

  function Bits(o: Octets): (s: seq<bool>)
    ensures |s| == 8 * |o|
    ensures forall i :: 0 <= i < |s| ==> s[i] == Has(o[i/8], i % 8)
  {
    seq(8 * |o|, i requires 0 <= i < 8 * |o| => Has(o[i/8], i % 8))
  }

  lemma {:induction false} OrMask(b: bv8, j: nat, k: nat)
    requires j < 8 && k < 8
    ensures Mask(j) == 1 << (7 - j)
    ensures Has(b | Mask(j), k) == (j == k || Has(b, k))
  {}

  lemma {:induction false} AndHighMask(b: bv8, r: nat, k: nat)
    requires r <= 8 && k < 8
    ensures Has(b & HighMask(r), k) == (k < r && Has(b, k))
  {}

  // ---------------------------------------------------------------- bits of a uint32

  /** binary.BigEndian.Uint32 and PutUint32. */
  function Uint32(o: Octets): bv32
    requires |o| == 4
  {
    Join(o[0], o[1], o[2], o[3])
  }

  function Join(a: bv8, b: bv8, c: bv8, d: bv8): bv32 {
    ((a as bv32) << 24) | ((b as bv32) << 16) | ((c as bv32) << 8) | (d as bv32)
  }

  function PutUint32(u: bv32): (o: Octets)
    ensures |o| == 4
  {
    [((u >> 24) & 0xFF) as bv8, ((u >> 16) & 0xFF) as bv8, ((u >> 8) & 0xFF) as bv8, (u & 0xFF) as bv8]
  }

  predicate Bit32(u: bv32, i: nat)
    requires i < 32
  {
    Meets32(u, OneBit(i))
  }

  predicate Meets32(u: bv32, m: bv32) {
    u & m != 0
  }

  function OneBit(i: nat): bv32
    requires i < 32
  {
    1 << (31 - i)
  }

  lemma {:induction false} PutThenGet(u: bv32)
    ensures Uint32(PutUint32(u)) == u
  {}

  /** A single bit of a number, written as a mask inside its octet. */
  lemma {:induction false} MaskShift(q: nat, j: nat)
    requires q < 4 && j < 8
    ensures OneBit(8 * q + j) == InOctet(Mask(j), q)
  {
    if j == 0 {} else if j == 1 {} else if j == 2 {} else if j == 3 {}
    else if j == 4 {} else if j == 5 {} else if j == 6 {} else {}
    if q == 0 {} else if q == 1 {} else if q == 2 {} else {}
  }

  function InOctet(m: bv8, q: nat): bv32
    requires q < 4
  {
    if q == 0 then (m as bv32) << 24 else if q == 1 then (m as bv32) << 16
    else if q == 2 then (m as bv32) << 8 else m as bv32
  }

  lemma {:induction false} PickOctet(a: bv8, b: bv8, c: bv8, d: bv8, m: bv8)
    ensures (Join(a, b, c, d) & InOctet(m, 0) != 0) == (a & m != 0)
    ensures (Join(a, b, c, d) & InOctet(m, 1) != 0) == (b & m != 0)
    ensures (Join(a, b, c, d) & InOctet(m, 2) != 0) == (c & m != 0)
    ensures (Join(a, b, c, d) & InOctet(m, 3) != 0) == (d & m != 0)
  {}

  lemma {:induction false} PickMeets(a: bv8, b: bv8, c: bv8, d: bv8, m: bv8)
    ensures Meets32(Join(a, b, c, d), InOctet(m, 0)) == Meets(a, m)
    ensures Meets32(Join(a, b, c, d), InOctet(m, 1)) == Meets(b, m)
    ensures Meets32(Join(a, b, c, d), InOctet(m, 2)) == Meets(c, m)
    ensures Meets32(Join(a, b, c, d), InOctet(m, 3)) == Meets(d, m)
  {
    hide Join, InOctet;
    PickOctet(a, b, c, d, m);
  }

  lemma {:induction false} PickFromOctets(o: Octets, q: nat, m: bv8)
    requires |o| == 4 && q < 4
    ensures Meets32(Uint32(o), InOctet(m, q)) == Meets(o[q], m)
  {
    hide Meets, Meets32, Join, InOctet;
    PickMeets(o[0], o[1], o[2], o[3], m);
    if q == 0 {} else if q == 1 {} else if q == 2 {} else {}
  }

  lemma {:induction false} Uint32BitAt(o: Octets, q: nat, j: nat)
    requires |o| == 4 && q < 4 && j < 8
    ensures Bit32(Uint32(o), 8 * q + j) == Has(o[q], j)
  {
    hide Mask, Uint32, InOctet, OneBit, Meets, Meets32;
    MaskShift(q, j);
    PickFromOctets(o, q, Mask(j));
  }

  /** Bit `i` of the number is bit `i` of the octets. */
  lemma {:induction false} Uint32Bit(o: Octets, i: nat)
    requires |o| == 4 && i < 32
    ensures Bit32(Uint32(o), i) == Has(o[i/8], i % 8)
  {
    hide Uint32, Bit32, Has;
    Uint32BitAt(o, i / 8, i % 8);
  }

  lemma {:induction false} AsWord(n: nat)
    requires n < 32
    ensures (n as bv32) as nat == n && n as bv32 < 32
  {}

  lemma {:induction false} SameOrder(x: bv32, y: bv32)
    requires x < 32 && y < 32
    ensures x < y <==> (x as nat) < (y as nat)
  {}

  lemma {:induction false} ShiftAmounts(i: nat, host: nat)
    requires i < 32 && host < 32
    ensures ((31 - i) as bv32 < host as bv32) == (31 - i < host)
    ensures (31 - i) as bv32 < 32 && host as bv32 < 32
  {
    AsWord(31 - i);
    AsWord(host);
    SameOrder((31 - i) as bv32, host as bv32);
  }

  lemma {:induction false} LowOnes(u: bv32, host: bv32, k: bv32)
    requires host < 32 && k < 32
    ensures ((u | ((1 << host) - 1)) & (1 << k) != 0) == (k < host || u & (1 << k) != 0)
  {}

  lemma {:induction false} LowOnesMeets(u: bv32, host: bv32, k: bv32)
    requires host < 32 && k < 32
    ensures Meets32(OrOnes(u, 1 << host), 1 << k) == (k < host || Meets32(u, 1 << k))
  {
    LowOnes(u, host, k);
  }

  /** `u | (top - 1)`. */
  function OrOnes(u: bv32, top: bv32): bv32 {
    u | (top - 1)
  }

  lemma {:induction false} ShiftByWord(n: nat)
    requires n < 32
    ensures (1 as bv32) << n == (1 as bv32) << (n as bv32)
  {}

  /** `u |= 1<<host - 1` sets the last `host` bits and keeps the others. */
  lemma {:induction false} OrLowOnes(u: bv32, host: nat, i: nat)
    requires host < 32 && i < 32
    ensures Bit32(OrOnes(u, 1 << host), i) == (i >= 32 - host || Bit32(u, i))
  {
    hide Meets32, OrOnes;
    ShiftAmounts(i, host);
    ShiftByWord(host);
    ShiftByWord(31 - i);
    LowOnesMeets(u, host as bv32, (31 - i) as bv32);
  }

  lemma {:induction false} AllOnes(i: nat)
    requires i < 32
    ensures Bit32(0xFFFF_FFFF, i)
  {
    ShiftAmounts(i, 31);
    AllOnesAt((31 - i) as bv32);
  }

  lemma {:induction false} AllOnesAt(k: bv32)
    requires k < 32
    ensures (0xFFFF_FFFF as bv32) & (1 << k) != 0
  {}

  // ---------------------------------------------------------------- the range of a prefix

  /** How many bits of octet `q` lie inside the first `n` bits. */
  function Inside(n: nat, q: nat): (r: nat)
    ensures r <= 8
  {
    if n <= 8 * q then 0 else if n - 8 * q >= 8 then 8 else n - 8 * q
  }

  lemma {:induction false} InsideBit(n: nat, i: nat)
    ensures i % 8 < Inside(n, i / 8) <==> i < n
  {}

  /** netip's Masked: the address with everything behind the prefix cleared. */
  function Masked(p: Prefix): (o: Octets)
    requires p.Valid()
    ensures |o| == |p.addr|
    ensures forall q :: 0 <= q < |o| ==> o[q] == p.addr[q] & HighMask(Inside(p.bits, q))
  {
    seq(|p.addr|, q requires 0 <= q < |p.addr| => p.addr[q] & HighMask(Inside(p.bits, q)))
  }

  /** The prefix followed by a constant bit. */
  function Filled(p: Prefix, b: bool): (s: seq<bool>)
    requires p.Valid()
    ensures |s| == 8 * |p.addr|
    ensures forall i :: 0 <= i < |s| ==> s[i] == if i < p.bits then Bits(p.addr)[i] else b
  {
    Bits(p.addr)[..p.bits] + seq(8 * |p.addr| - p.bits, _ => b)
  }

  lemma {:induction false} MaskedBits(p: Prefix)
    requires p.Valid()
    ensures Bits(Masked(p)) == Filled(p, false)
  {
    hide Has, HighMask, Filled, Masked, Inside;
    var s := Bits(Masked(p));
    forall i | 0 <= i < |s| ensures s[i] == Filled(p, false)[i] {
      MaskedBit(p, i);
    }
  }

  lemma {:induction false} MaskedBit(p: Prefix, i: nat)
    requires p.Valid() && i < 8 * |p.addr|
    ensures Bits(Masked(p))[i] == Filled(p, false)[i]
  {
    hide Has, HighMask, Filled, Masked, Inside;
    var q, j := i / 8, i % 8;
    assert Bits(Masked(p))[i] == Has(Masked(p)[q], j);
    AndHighMask(p.addr[q], Inside(p.bits, q), j);
    InsideBit(p.bits, i);
    assert Bits(p.addr)[i] == Has(p.addr[q], j);
  }

  /** The first and the last address of the prefix. */
  method PrefixRange(p: Prefix) returns (lo: Octets, hi: Octets)
    requires p.Valid()
    ensures |lo| == |hi| == |p.addr|
    ensures Bits(lo) == Filled(p, false)
    ensures Bits(hi) == Filled(p, true)
  {
    lo := Masked(p);
    MaskedBits(p);
    if |lo| == 4 {
      hi := LastV4(p, lo);
      return;
    }
    var v := new bv8[16](q requires 0 <= q < 16 => lo[q]);
    var i := p.bits;
    while i < 128
      invariant p.bits <= i <= 128
      invariant forall k :: 0 <= k < 128 ==> Has(v[k/8], k % 8) == (p.bits <= k < i || Bits(lo)[k])
    {
      var j := i % 8;
      forall k | 0 <= k < 8 ensures Has(v[i/8] | Mask(j), k) == (j == k || Has(v[i/8], k)) {
        OrMask(v[i/8], j, k);
      }
      SetBit(v, i);
      i := i + 1;
    }
    hi := v[..];
    assert Bits(hi) == Filled(p, true);
  }

  /** `v[i/8] |= 1 << (7 - i%8)`. */
  method SetBit(v: array<bv8>, i: nat)
    requires i < 8 * v.Length
    modifies v
    ensures forall k :: 0 <= k < 8 * v.Length ==> Has(v[k/8], k % 8) == (k == i || old(Has(v[k/8], k % 8)))
  {
    var b := v[i/8];
    v[i/8] := b | Mask(i % 8);
    forall k | 0 <= k < 8 * v.Length
      ensures Has(v[k/8], k % 8) == (k == i || old(Has(v[k/8], k % 8)))
    {
      OrMask(b, i % 8, k % 8);
      assert k == 8 * (k / 8) + k % 8 && i == 8 * (i / 8) + i % 8;
    }
  }

  method LastV4(p: Prefix, lo: Octets) returns (hi: Octets)
    requires p.Valid() && |p.addr| == |lo| == 4 && Bits(lo) == Filled(p, false)
    ensures |hi| == 4 && Bits(hi) == Filled(p, true)
  {
    hide Uint32, PutUint32, Bit32, Has, OrOnes;
    var host := 32 - p.bits;
    var u := Uint32(lo);
    var w := if host >= 32 then 0xFFFF_FFFF else OrOnes(u, 1 << host);
    hi := PutUint32(w);
    forall i | 0 <= i < 32 ensures Bits(hi)[i] == Filled(p, true)[i] {
      PutThenGet(w);
      Uint32Bit(hi, i);
      Uint32Bit(lo, i);
      if host >= 32 { AllOnes(i); } else { OrLowOnes(u, host, i); }
    }
  }

  // ---------------------------------------------------------------- addresses as numbers

  function Pow2(n: nat): nat {
    if n == 0 then 1 else 2 * Pow2(n - 1)
  }

  function Value(s: seq<bool>): (v: nat) {
    if s == [] then 0 else 2 * Value(s[..|s|-1]) + if s[|s|-1] then 1 else 0
  }

  /** The number an address is compared as. */
  function Number(o: Octets): nat {
    Value(Bits(o))
  }

  lemma {:induction false} PowPositive(n: nat)
    ensures Pow2(n) > 0
  {
    if n > 0 { PowPositive(n - 1); }
  }

  lemma {:induction false} ValueBound(s: seq<bool>)
    ensures Value(s) < Pow2(|s|)
  {
    if s != [] { ValueBound(s[..|s|-1]); }
  }

  lemma {:induction false} ValueAppend(a: seq<bool>, b: seq<bool>)
    ensures Value(a + b) == Value(a) * Pow2(|b|) + Value(b)
  {
    if b == [] {
      assert a + b == a;
    } else {
      var b' := b[..|b|-1];
      ValueAppend(a, b');
      assert (a + b)[..|a + b| - 1] == a + b';
      assert Value(a) * Pow2(|b|) == 2 * (Value(a) * Pow2(|b'|));
    }
  }

  lemma {:induction false} ValueInjective(a: seq<bool>, b: seq<bool>)
    requires |a| == |b| && Value(a) == Value(b)
    ensures a == b
  {
    if a != [] {
      var a', b' := a[..|a|-1], b[..|b|-1];
      assert a[|a|-1] == b[|b|-1];
      ValueInjective(a', b');
      assert a == a' + [a[|a|-1]] && b == b' + [b[|b|-1]];
    }
  }

  lemma {:induction false} ValueConstant(n: nat, b: bool)
    ensures Value(seq(n, _ => b)) == if b then Pow2(n) - 1 else 0
  {
    if n > 0 {
      assert seq(n, _ => b)[..n-1] == seq(n - 1, _ => b);
      ValueConstant(n - 1, b);
    }
  }

  lemma {:induction false} Between(x: nat, y: nat, r: nat, m: nat)
    requires r < m
    ensures (x * m <= y * m + r <= x * m + (m - 1)) <==> x == y
  {
    if x < y { assert y * m >= (x + 1) * m == x * m + m; }
    if y < x { assert x * m >= (y + 1) * m == y * m + m; }
  }

  /** The range runs over exactly the addresses of the prefix. */
  lemma {:induction false} RangeIsPrefix(p: Prefix, lo: Octets, hi: Octets, a: Octets)
    requires p.Valid() && Bits(lo) == Filled(p, false) && Bits(hi) == Filled(p, true)
    requires |a| == |p.addr|
    ensures Number(lo) <= Number(a) <= Number(hi) <==> p.Contains(a)
  {
    var n, h := p.bits, 8 * |p.addr| - p.bits;
    var head, mine, tail := Bits(p.addr)[..n], Bits(a)[..n], Bits(a)[n..];
    assert Bits(a) == mine + tail;
    ValueAppend(mine, tail);
    ValueAppend(head, seq(h, _ => false));
    ValueAppend(head, seq(h, _ => true));
    ValueConstant(h, false);
    ValueConstant(h, true);
    ValueBound(tail);
    Between(Value(head), Value(mine), Value(tail), Pow2(h));
    if Value(head) == Value(mine) { ValueInjective(head, mine); }
  }

  /** Addresses of one family are the same exactly when their numbers are. */
  lemma {:induction false} NumberInjective(a: Octets, b: Octets)
    requires |a| == |b|
    ensures Number(a) == Number(b) <==> Bits(a) == Bits(b)
  {
    if Number(a) == Number(b) { ValueInjective(Bits(a), Bits(b)); }
  }
}
