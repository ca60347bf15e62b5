/**
 Which destinations the guard's own list (internal/guard/guard.go) keeps out of the tunnel, in the
 octets of the address: the networks of the home and of the machine itself.
 */
module LocalNetworks {
  import opened AddrBits
  import opened Guard

  /** The two octets agree in their first `r` bits. */
  predicate SameHigh(x: bv8, y: bv8, r: nat)
    requires r <= 8
  {
    x & HighMask(r) == y & HighMask(r)
  }

  /** A prefix asks for its whole octets, and for the high bits of the one after them. */
  ghost predicate Begins(p: Prefix, a: Octets)
    requires p.Valid()
  {
    var (n, r) := (p.bits / 8, p.bits % 8);
    && |a| == |p.addr| && (forall q :: 0 <= q < n ==> a[q] == p.addr[q])
    && (r > 0 ==> SameHigh(a[n], p.addr[n], r))
  }

  lemma {:induction false} SameMasked(x: bv8, y: bv8, r: nat)
    requires r <= 8
    ensures SameHigh(x, y, r) <==> forall j :: 0 <= j < r ==> Has(x, j) == Has(y, j)
  {
    hide HighMask, Has;
    var u, v := x & HighMask(r), y & HighMask(r);
    if forall j :: 0 <= j < r ==> Has(x, j) == Has(y, j) {
      forall j | 0 <= j < 8 ensures Has(u, j) == Has(v, j) {
        AndHighMask(x, r, j);
        AndHighMask(y, r, j);
        assert j < r ==> Has(x, j) == Has(y, j);
      }
      SameOctet(u, v);
    } else {
      var j :| 0 <= j < r && Has(x, j) != Has(y, j);
      AndHighMask(x, r, j);
      AndHighMask(y, r, j);
    }
  }

  lemma {:induction false} BitsAgree(p: Prefix, a: Octets, q: nat, r: nat)
    requires p.Valid() && p.Contains(a) && r <= 8 && 8 * q + r <= p.bits
    ensures forall j :: 0 <= j < r ==> Has(a[q], j) == Has(p.addr[q], j)
  {
    forall j | 0 <= j < r ensures Has(a[q], j) == Has(p.addr[q], j) {
      assert (8 * q + j) / 8 == q && (8 * q + j) % 8 == j;
      assert Bits(a)[..p.bits][8*q+j] == Bits(p.addr)[..p.bits][8*q+j];
    }
  }

  lemma {:induction false} OctetBits(p: Prefix, a: Octets, i: nat)
    requires p.Valid() && Begins(p, a) && i < p.bits
    ensures Bits(a)[i] == Bits(p.addr)[i]
  {
    hide SameHigh, Has;
    var n, r := p.bits / 8, p.bits % 8;
    if i / 8 == n { SameMasked(a[n], p.addr[n], r); }
  }

  /** Containment in a prefix, in whole octets and one mask. */
  lemma {:induction false} ContainsIff(p: Prefix, a: Octets)
    requires p.Valid()
    ensures p.Contains(a) <==> Begins(p, a)
  {
    hide SameHigh, Has;
    var n, r := p.bits / 8, p.bits % 8;
    if p.Contains(a) {
      forall q | 0 <= q < n ensures a[q] == p.addr[q] {
        BitsAgree(p, a, q, 8);
        SameOctet(a[q], p.addr[q]);
      }
      if r > 0 {
        BitsAgree(p, a, n, r);
        SameMasked(a[n], p.addr[n], r);
      }
    }
    if Begins(p, a) {
      forall i | 0 <= i < p.bits ensures Bits(a)[i] == Bits(p.addr)[i] { OctetBits(p, a, i); }
    }
  }

  lemma {:induction false} Masks(x: bv8)
    ensures SameHigh(x, 0x40, 2) <==> 0x40 <= x <= 0x7F
    ensures SameHigh(x, 0x80, 2) <==> 0x80 <= x <= 0xBF
    ensures SameHigh(x, 0x10, 4) <==> 0x10 <= x <= 0x1F
    ensures SameHigh(x, 0xE0, 4) <==> 0xE0 <= x <= 0xEF
    ensures SameHigh(x, 0xFC, 7) <==> x == 0xFC || x == 0xFD
  {}

  /** Some prefix of the guard's own list holds the address. */
  ghost predicate Listed(a: Octets) {
    exists p :: p in DEFAULT_BYPASS && p.Contains(a)
  }

  lemma {:induction false} ByOctets(p: Prefix, o: Octets)
    requires p.Valid() && |p.addr| == |o|
    ensures p.bits == 8 ==> (Begins(p, o) <==> o[0] == p.addr[0])
    ensures p.bits == 16 ==> (Begins(p, o) <==> o[0] == p.addr[0] && o[1] == p.addr[1])
    ensures p.bits == 8 * |o| ==> (Begins(p, o) <==> o == p.addr)
  {
    hide SameHigh;
    if Begins(p, o) && p.bits == 16 { assert o[0] == p.addr[0] && o[1] == p.addr[1]; }
  }

  lemma {:induction false} ByMask(p: Prefix, o: Octets)
    requires p.Valid() && |p.addr| == |o|
    ensures p.bits < 8 && p.bits > 0 ==> (Begins(p, o) <==> SameHigh(o[0], p.addr[0], p.bits))
    ensures 8 < p.bits < 16 ==>
              (Begins(p, o) <==> o[0] == p.addr[0] && SameHigh(o[1], p.addr[1], p.bits - 8))
  {
    hide SameHigh;
    if Begins(p, o) && 8 < p.bits < 16 { assert o[0] == p.addr[0]; }
  }

  /** Some of the thirteen. */
  lemma {:induction false} SomeOf(ps: seq<Prefix>, a: Octets)
    requires |ps| == 13 && forall p :: p in ps ==> p.Valid()
    ensures (exists p :: p in ps && p.Contains(a)) <==>
            || Begins(ps[0], a) || Begins(ps[1], a) || Begins(ps[2], a) || Begins(ps[3], a) || Begins(ps[4], a)
            || Begins(ps[5], a) || Begins(ps[6], a) || Begins(ps[7], a) || Begins(ps[8], a) || Begins(ps[9], a)
            || Begins(ps[10], a) || Begins(ps[11], a) || Begins(ps[12], a)
  {
    hide Begins;
    forall p | p in ps ensures p.Contains(a) <==> Begins(p, a) { ContainsIff(p, a); }
    if p :| p in ps && p.Contains(a) {
      var i :| 0 <= i < |ps| && ps[i] == p;
      assert Begins(ps[i], a);
    }
  }

  lemma {:induction false} ListedAs(a: Octets)
    ensures Listed(a) <==>
            || Begins(Prefix([0, 0, 0, 0], 8), a) || Begins(Prefix([10, 0, 0, 0], 8), a)
            || Begins(Prefix([100, 64, 0, 0], 10), a) || Begins(Prefix([127, 0, 0, 0], 8), a)
            || Begins(Prefix([169, 254, 0, 0], 16), a) || Begins(Prefix([172, 16, 0, 0], 12), a)
            || Begins(Prefix([192, 168, 0, 0], 16), a) || Begins(Prefix([224, 0, 0, 0], 4), a)
            || Begins(Prefix([255, 255, 255, 255], 32), a) || Begins(Prefix(LOOPBACK, 128), a)
            || Begins(Prefix(V6([0xFC]), 7), a) || Begins(Prefix(V6([0xFE, 0x80]), 10), a)
            || Begins(Prefix(V6([0xFF]), 8), a)
  {
    hide Begins, Listed, V6;
    SomeRow(a);
  }

  lemma {:induction false} SomeRow(a: Octets)
    ensures Listed(a) <==>
            var ps := DEFAULT_BYPASS;
            || Begins(ps[0], a) || Begins(ps[1], a) || Begins(ps[2], a) || Begins(ps[3], a) || Begins(ps[4], a)
            || Begins(ps[5], a) || Begins(ps[6], a) || Begins(ps[7], a) || Begins(ps[8], a) || Begins(ps[9], a)
            || Begins(ps[10], a) || Begins(ps[11], a) || Begins(ps[12], a)
  {
    hide Begins, V6;
    SomeOf(DEFAULT_BYPASS, a);
  }

  const LOOPBACK: Octets := [0, 0, 0, 0, 0, 0, 0, 0, 0, 0, 0, 0, 0, 0, 0, 1]

  lemma {:induction false} InMasked(o: Octets)
    requires |o| == 4
    ensures Begins(Prefix([100, 64, 0, 0], 10), o) <==> o[0] == 100 && 64 <= o[1] <= 127
    ensures Begins(Prefix([172, 16, 0, 0], 12), o) <==> o[0] == 172 && 16 <= o[1] <= 31
    ensures Begins(Prefix([224, 0, 0, 0], 4), o) <==> 224 <= o[0] <= 239
  {
    hide SameHigh, Begins;
    ByMask(Prefix([100, 64, 0, 0], 10), o);
    ByMask(Prefix([172, 16, 0, 0], 12), o);
    ByMask(Prefix([224, 0, 0, 0], 4), o);
    Masks(o[0]);
    Masks(o[1]);
  }

  lemma {:induction false} InWhole(o: Octets, x: bv8, y: bv8)
    requires |o| == 4
    ensures Begins(Prefix([x, 0, 0, 0], 8), o) <==> o[0] == x
    ensures Begins(Prefix([x, y, 0, 0], 16), o) <==> o[0] == x && o[1] == y
  {
    hide Begins;
    ByOctets(Prefix([x, 0, 0, 0], 8), o);
    ByOctets(Prefix([x, y, 0, 0], 16), o);
  }

  lemma {:induction false} InIPv6(o: Octets)
    requires |o| == 16
    ensures Begins(Prefix(LOOPBACK, 128), o) <==> o == LOOPBACK
    ensures Begins(Prefix(V6([0xFC]), 7), o) <==> o[0] == 0xFC || o[0] == 0xFD
    ensures Begins(Prefix(V6([0xFE, 0x80]), 10), o) <==> o[0] == 0xFE && 0x80 <= o[1] <= 0xBF
    ensures Begins(Prefix(V6([0xFF]), 8), o) <==> o[0] == 0xFF
  {
    hide SameHigh, V6, Begins;
    var p, q, r := V6([0xFC]), V6([0xFE, 0x80]), V6([0xFF]);
    assert p[0] == p[..1][0] == 0xFC && q[0] == q[..2][0] == 0xFE && q[1] == q[..2][1] == 0x80;
    assert r[0] == r[..1][0] == 0xFF;
    ByOctets(Prefix(LOOPBACK, 128), o);
    ByMask(Prefix(p, 7), o);
    ByMask(Prefix(q, 10), o);
    ByOctets(Prefix(r, 8), o);
    Masks(o[0]);
    Masks(o[1]);
  }

  lemma {:induction false} FamiliesApart(o: Octets)
    ensures |o| == 4 ==>
              && !Begins(Prefix(LOOPBACK, 128), o) && !Begins(Prefix(V6([0xFC]), 7), o)
              && !Begins(Prefix(V6([0xFE, 0x80]), 10), o) && !Begins(Prefix(V6([0xFF]), 8), o)
    ensures |o| == 16 ==> forall a, b, c, d, n :: n <= 32 ==> !Begins(Prefix([a, b, c, d], n), o)
  {
    hide SameHigh, V6;
  }

  /** Of IPv4 exactly these: the whole of every private network, with its router, among them. */
  lemma {:induction false} LocalIPv4Iff(a: bv8, b: bv8, c: bv8, d: bv8)
    ensures Listed([a, b, c, d]) <==>
            || a == 0 || a == 10 || a == 127 || (a == 192 && b == 168)
            || (a == 172 && 16 <= b <= 31) || (a == 100 && 64 <= b <= 127) || (a == 169 && b == 254)
            || 224 <= a <= 239 || (a == 255 && b == 255 && c == 255 && d == 255)
  {
    hide Begins, Listed, V6;
    var o := [a, b, c, d];
    ListedAs(o);
    FamiliesApart(o);
    InMasked(o);
    InWhole(o, 0, 0);
    InWhole(o, 10, 0);
    InWhole(o, 127, 0);
    InWhole(o, 169, 254);
    InWhole(o, 192, 168);
    ByOctets(Prefix([255, 255, 255, 255], 32), o);
  }

  /** And of IPv6 exactly the loopback address, fc00::/7, fe80::/10 and ff00::/8. */
  lemma {:induction false} LocalIPv6Iff(o: Octets)
    requires |o| == 16
    ensures Listed(o) <==>
            || o == [0, 0, 0, 0, 0, 0, 0, 0, 0, 0, 0, 0, 0, 0, 0, 1]
            || o[0] == 0xFC || o[0] == 0xFD || (o[0] == 0xFE && 0x80 <= o[1] <= 0xBF) || o[0] == 0xFF
  {
    hide Begins, Listed, V6;
    ListedAs(o);
    FamiliesApart(o);
    InIPv6(o);
  }
}
