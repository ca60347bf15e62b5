/**
 The client's 1:1 address translation (internal/client/nat/nat.go): addresses are
 rewritten in place, the IPv4 header checksum is recomputed and the TCP, UDP or ICMPv6
 checksum is adjusted incrementally.
 */
module Nat {
  import opened Basics
  import opened Checksum

  type Packet = seq<byte>

  const TCP: byte := 6
  const UDP: byte := 17
  const ICMPV6: byte := 58

  function Version(p: Packet): int
    requires p != []
  {
    p[0] / 16
  }

  function HeaderLen(p: Packet): (n: nat)
    requires p != []
    ensures n % 4 == 0
  {
    var b: int := p[0];
    b % 16 * 4
  }

  function PutBytes(p: Packet, i: nat, bs: seq<byte>): (q: Packet)
    requires i + |bs| <= |p|
    ensures |q| == |p| && q[i..i+|bs|] == bs
    ensures forall j :: 0 <= j < |p| && !(i <= j < i + |bs|) ==> q[j] == p[j]
  {
    p[..i] + bs + p[i+|bs|..]
  }

  // ---------------------------------------------------------------- specification

  /** fixIPv4Header: checksum over the header words with the field itself zeroed. */
  function FixHeader(p: Packet): (q: Packet)
    requires |p| >= 20
    ensures |q| == |p|
  {
    var ihl := HeaderLen(p);
    if ihl < 20 || ihl > |p| then p
    else PutWord(p, 10, 0xFFFF - Fold(Sum(PutWord(p, 10, 0)[..ihl])))
  }

  function L4Offset(p: Packet, ver: int): nat
    requires |p| >= 20
  {
    if ver == 4 then HeaderLen(p) else 40
  }

  function Protocol(p: Packet, ver: int): byte
    requires |p| >= 20
  {
    if ver == 4 then p[9] else p[6]
  }

  /** Offset of the checksum field, if the protocol has one and it lies inside the packet. */
  function CsumOffset(p: Packet, ver: int): (o: Option<nat>)
    requires |p| >= 20
    ensures o.Some? ==> L4Offset(p, ver) <= o.value && o.value + 2 <= |p|
  {
    var off := L4Offset(p, ver);
    var proto := Protocol(p, ver);
    var field := if proto == TCP then off + 16 else if proto == UDP then off + 6 else off + 2;
    if (proto == TCP || proto == UDP || proto == ICMPV6) && field + 2 <= |p| then Some(field) else None
  }

  /** fixL4: the checksum after `old_` became `new_` in the pseudo-header. */
  function FixL4(p: Packet, ver: int, old_: seq<byte>, new_: seq<byte>): (q: Packet)
    requires |p| >= 20 && |old_| == |new_| && |old_| % 2 == 0
    ensures |q| == |p|
  {
    var field := CsumOffset(p, ver);
    if field.None? then p
    else
      var c, udp := Word(p, field.value), Protocol(p, ver) == UDP;
      if udp && ver == 4 && c == 0 then p
      else
        var nc := Updated(c, old_, new_);
        PutWord(p, field.value, if udp && nc == 0 then 0xFFFF else nc)
  }

  /** Replaces the address at offset `at` and settles the transport checksum. */
  function Replace(p: Packet, ver: int, at: nat, to: seq<byte>): (q: Packet)
    requires |p| >= 20 && |to| % 2 == 0 && at + |to| <= |p|
    ensures |q| == |p|
  {
    FixL4(PutBytes(p, at, to), ver, p[at..at+|to|], to)
  }

  function Rewritten(p: Packet, at: nat, to: Option<seq<byte>>): (q: Packet)
    requires |p| >= 20 && (to.Some? ==> |to.value| == 4) && at <= 16
    ensures |q| == |p|
  {
    if to.None? || p[at..at+4] == to.value then p else Replace(p, 4, at, to.value)
  }

  /** A matching address at `at` is replaced; anything else leaves the packet alone (applyV4). */
  function TranslateV4(p: Packet, at: nat, from: seq<byte>, to: seq<byte>): (q: Packet)
    requires |from| == |to| == 4 && (at == 12 || at == 16)
    ensures |q| == |p|
  {
    if |p| < 20 || p[at..at+4] != from then p
    else FixL4(FixHeader(PutBytes(p, at, to)), 4, from, to)
  }

  /** applyV6: there is no header sum to recompute. */
  function TranslateV6(p: Packet, at: nat, from: seq<byte>, to: seq<byte>): (q: Packet)
    requires |from| == |to| == 16 && (at == 8 || at == 24)
    ensures |q| == |p|
  {
    if |p| < 40 || p[at..at+16] != from then p else Replace(p, 6, at, to)
  }

  /** RewriteV4: either address may be given; the header sum is recomputed in any case. */
  function RewriteBoth(p: Packet, src: Option<seq<byte>>, dst: Option<seq<byte>>): (q: Packet)
    requires src.Some? ==> |src.value| == 4
    requires dst.Some? ==> |dst.value| == 4
    ensures |q| == |p|
  {
    if |p| < 20 || Version(p) != 4 then p
    else FixHeader(Rewritten(Rewritten(p, 12, src), 16, dst))
  }

  // ---------------------------------------------------------------- verification of packets

  predicate HeaderValid(p: Packet)
    requires |p| >= 20
  {
    var ihl := HeaderLen(p);
    20 <= ihl <= |p| && Fold(Sum(p[..ihl])) == 0xFFFF
  }

  /** Where the two addresses of the pseudo-header lie. */
  function AddrLo(ver: int): nat { if ver == 4 then 12 else 8 }
  function AddrHi(ver: int): nat { if ver == 4 then 20 else 40 }

  /** Where the datagram ends by its own length field; octets behind it belong to nobody. */
  function End(p: Packet, ver: int): nat
    requires |p| >= 20
  {
    if ver == 4 then Word(p, 2) else 40 + Word(p, 4)
  }

  /** The header, the datagram and its checksum field fit, and the protocol has a checksum. */
  predicate Checksummed(p: Packet, ver: int) {
    && (ver == 4 || ver == 6)
    && |p| >= AddrHi(ver)
    && AddrHi(ver) <= L4Offset(p, ver) <= End(p, ver) <= |p|
    && CsumOffset(p, ver).Some? && CsumOffset(p, ver).value + 2 <= End(p, ver)
  }

  /** UDP over IPv4 may leave the checksum out by sending zero. */
  predicate Disabled(p: Packet, ver: int)
    requires Checksummed(p, ver)
  {
    ver == 4 && Protocol(p, ver) == UDP && Word(p, CsumOffset(p, ver).value) == 0
  }

  /** Everything the transport checksum of an unfragmented packet covers: pseudo-header and segment. */
  function Covered(p: Packet, ver: int): nat
    requires Checksummed(p, ver)
  {
    var off, end := L4Offset(p, ver), End(p, ver);
    var n := end - off;
    Sum(p[AddrLo(ver)..AddrHi(ver)]) + Protocol(p, ver) + n / 0x10000 + n % 0x10000 + Sum(p[off..end])
  }

  predicate L4Valid(p: Packet, ver: int)
    requires Checksummed(p, ver)
  {
    Fold(Covered(p, ver)) == 0xFFFF
  }

  /** Octet `j` belongs to the transport checksum. */
  predicate InCsum(p: Packet, ver: int, j: nat)
    requires |p| >= 20
  {
    CsumOffset(p, ver).Some? && CsumOffset(p, ver).value <= j < CsumOffset(p, ver).value + 2
  }

  /** `p` and `q` differ at most in `n` octets at `at` and in the transport checksum, if there is one. */
  ghost predicate OnlyReplaces(p: Packet, q: Packet, ver: int, at: nat, n: nat)
    requires |p| >= 20
  {
    && |q| == |p|
    && (forall j :: 0 <= j < |p| && !(at <= j < at + n) && !InCsum(p, ver, j) ==> q[j] == p[j])
  }

  /** The same, but for the IPv4 header sum. */
  ghost predicate OnlyTouches(p: Packet, q: Packet, at: nat, n: nat)
    requires |p| >= 20
  {
    && |q| == |p|
    && (forall j :: 0 <= j < |p| && !(at <= j < at + n) && !InCsum(p, 4, j) && !(10 <= j < 12) ==> q[j] == p[j])
  }

  /** `q` verifies if and only if `p` does, or neither has a checksum to verify. */
  predicate SameVerdict(p: Packet, q: Packet, ver: int)
    requires Checksummed(p, ver)
  {
    && Checksummed(q, ver) && Disabled(q, ver) == Disabled(p, ver)
    && (Disabled(p, ver) || (L4Valid(q, ver) <==> L4Valid(p, ver)))
  }

  // ---------------------------------------------------------------- slices

  lemma {:induction false} SumPutBytes(s: seq<byte>, i: nat, bs: seq<byte>)
    requires i % 2 == 0 && |bs| % 2 == 0 && i + |bs| <= |s|
    ensures Sum(PutBytes(s, i, bs)) == Sum(s) - Sum(s[i..i+|bs|]) + Sum(bs)
  {
    hide Sum;
    var a, m, b := s[..i], s[i..i+|bs|], s[i+|bs|..];
    assert s == a + m + b;
    SumAppend(a, m);
    SumAppend(a + m, b);
    SumAppend(a, bs);
    SumAppend(a + bs, b);
  }

  lemma {:induction false} SameSlice(p: Packet, q: Packet, a: nat, b: nat)
    requires a <= b <= |p| == |q| && forall j :: a <= j < b ==> q[j] == p[j]
    ensures q[a..b] == p[a..b]
  {}

  lemma {:induction false} SliceOfSlice(p: Packet, lo: nat, hi: nat, at: nat, n: nat)
    requires lo <= at && at + n <= hi <= |p|
    ensures p[lo..hi][at-lo..at-lo+n] == p[at..at+n]
  {
    var s, t := p[lo..hi][at-lo..at-lo+n], p[at..at+n];
    forall j | 0 <= j < n ensures s[j] == t[j] { assert p[lo..hi][at-lo+j] == p[at+j]; }
  }

  lemma {:induction false} PutBytesSlice(p: Packet, at: nat, to: seq<byte>, lo: nat, hi: nat)
    requires lo <= at && at + |to| <= hi <= |p|
    ensures PutBytes(p, at, to)[lo..hi] == PutBytes(p[lo..hi], at - lo, to)
    ensures p[lo..hi][at-lo..at-lo+|to|] == p[at..at+|to|]
  {
    SliceOfSlice(p, lo, hi, at, |to|);
    var q, i := PutBytes(p, at, to), at - lo;
    var s, t := q[lo..hi], PutBytes(p[lo..hi], i, to);
    forall j | 0 <= j < |t| ensures s[j] == t[j] {
      if i <= j < i + |to| {
        assert t[j] == t[i..i+|to|][j-i] && q[lo+j] == q[at..at+|to|][j-i];
      } else {
        assert t[j] == p[lo..hi][j];
      }
    }
  }

  lemma {:induction false} PutWordSlice(p: Packet, c: nat, w: int, off: nat, end: nat)
    requires off <= c && c + 2 <= end <= |p| && 0 <= w <= 0xFFFF
    ensures PutWord(p, c, w)[off..end] == PutWord(p[off..end], c - off, w)
    ensures Word(p[off..end], c - off) == Word(p, c)
  {
    var s, t := PutWord(p, c, w)[off..end], PutWord(p[off..end], c - off, w);
    forall j | 0 <= j < |t| ensures s[j] == t[j] {
      if j != c - off && j != c - off + 1 { assert t[j] == p[off..end][j]; }
    }
  }

  lemma {:induction false} SumZero(n: nat)
    ensures Sum(seq<byte>(n, _ => 0)) == 0
  {
    if n > 0 {
      assert seq<byte>(n, _ => 0)[..n-1] == seq<byte>(n - 1, _ => 0);
      SumZero(n - 1);
    }
  }

  lemma {:induction false} PartOfSum(p: Packet, at: nat, n: nat, lo: nat, hi: nat)
    requires lo <= at && at + n <= hi <= |p| && lo % 2 == 0 && at % 2 == 0 && n % 2 == 0
    ensures Sum(p[at..at+n]) <= Sum(p[lo..hi])
  {
    hide Sum;
    var zero: seq<byte> := seq(n, _ => 0);
    PutBytesSlice(p, at, zero, lo, hi);
    SumPutBytes(p[lo..hi], at - lo, zero);
    SumZero(n);
  }

  // ---------------------------------------------------------------- what the transport checksum covers

  /** The fields that say where the transport segment is. */
  predicate SameLayout(p: Packet, q: Packet, ver: int) {
    && |q| == |p| >= 20
    && if ver == 4 then q[0] == p[0] && q[2] == p[2] && q[3] == p[3] && q[9] == p[9]
       else q[4] == p[4] && q[5] == p[5] && q[6] == p[6]
  }

  lemma {:induction false} Layout(p: Packet, q: Packet, ver: int)
    requires SameLayout(p, q, ver) && (ver == 4 || ver == 6)
    ensures L4Offset(q, ver) == L4Offset(p, ver) && Protocol(q, ver) == Protocol(p, ver) && End(q, ver) == End(p, ver)
    ensures CsumOffset(q, ver) == CsumOffset(p, ver)
    ensures Checksummed(p, ver) <==> Checksummed(q, ver)
  {}

  /** What the checksum covers moves with the addresses and with the segment. */
  lemma {:induction false} CoveredMoves(p: Packet, q: Packet, ver: int)
    requires Checksummed(p, ver) && SameLayout(p, q, ver)
    ensures Checksummed(q, ver)
    ensures var (lo, hi, off, end) := (AddrLo(ver), AddrHi(ver), L4Offset(p, ver), End(p, ver));
            Covered(q, ver) - Covered(p, ver) ==
            Sum(q[lo..hi]) - Sum(p[lo..hi]) + Sum(q[off..end]) - Sum(p[off..end])
  {
    hide Sum, CsumOffset;
    Layout(p, q, ver);
  }

  /** An even-aligned stretch of octets inside the pseudo-header addresses. */
  predicate InAddresses(ver: int, at: nat, n: nat) {
    n % 2 == 0 && at % 2 == 0 && AddrLo(ver) <= at && at + n <= AddrHi(ver)
  }

  /** Writing the address leaves the layout, the segment and the checksum field. */
  lemma {:induction false} AddrLeaves(p: Packet, ver: int, at: nat, to: seq<byte>)
    requires Checksummed(p, ver) && InAddresses(ver, at, |to|)
    ensures var q := PutBytes(p, at, to);
            && SameLayout(p, q, ver)
            && q[L4Offset(p, ver)..End(p, ver)] == p[L4Offset(p, ver)..End(p, ver)]
            && Word(q, CsumOffset(p, ver).value) == Word(p, CsumOffset(p, ver).value)
  {
    hide CsumOffset, End;
    var q, c := PutBytes(p, at, to), CsumOffset(p, ver).value;
    SameSlice(p, q, L4Offset(p, ver), End(p, ver));
    assert q[c] == p[c] && q[c+1] == p[c+1];
  }

  /** It moves what the checksum covers by the difference of the addresses. */
  lemma {:induction false} CoveredPutAddr(p: Packet, ver: int, at: nat, to: seq<byte>)
    requires Checksummed(p, ver) && InAddresses(ver, at, |to|)
    ensures var q := PutBytes(p, at, to);
            && SameLayout(p, q, ver) && Checksummed(q, ver)
            && Covered(q, ver) == Covered(p, ver) - Sum(p[at..at+|to|]) + Sum(to)
            && Word(q, CsumOffset(p, ver).value) == Word(p, CsumOffset(p, ver).value)
  {
    hide Sum, Covered, End, CsumOffset, L4Offset, PutBytes, SameLayout, Word;
    AddrLeaves(p, ver, at, to);
    CoveredMoves(p, PutBytes(p, at, to), ver);
    PutBytesSlice(p, at, to, AddrLo(ver), AddrHi(ver));
    SumPutBytes(p[AddrLo(ver)..AddrHi(ver)], at - AddrLo(ver), to);
  }

  /** Writing the checksum field moves it by the difference of the fields. */
  lemma {:induction false} CoveredPutCsum(p: Packet, ver: int, w: int)
    requires Checksummed(p, ver) && 0 <= w <= 0xFFFF
    ensures var c := CsumOffset(p, ver).value;
            var q := PutWord(p, c, w);
            && SameLayout(p, q, ver) && Checksummed(q, ver)
            && Covered(q, ver) == Covered(p, ver) - Word(p, c) + w
            && Word(p, c) <= Sum(p[L4Offset(p, ver)..End(p, ver)])
  {
    hide Sum, Covered, End;
    var c, off, end := CsumOffset(p, ver).value, L4Offset(p, ver), End(p, ver);
    var q, s := PutWord(p, c, w), p[off..end];
    assert (c - off) % 2 == 0;
    CoveredMoves(p, q, ver);
    PutWordSlice(p, c, w, off, end);
    SumPutWord(s, c - off, w);
    SumPutWord(s, c - off, 0);
    SameSlice(p, q, AddrLo(ver), AddrHi(ver));
  }

  /** The header sum lies outside. */
  lemma {:induction false} HeaderSumNotCovered(p: Packet, q: Packet)
    requires Checksummed(p, 4) && |q| == |p| && forall j :: 0 <= j < |p| && j != 10 && j != 11 ==> q[j] == p[j]
    ensures SameLayout(p, q, 4) && Checksummed(q, 4) && Covered(q, 4) == Covered(p, 4)
    ensures Word(q, CsumOffset(p, 4).value) == Word(p, CsumOffset(p, 4).value)
  {
    hide Sum;
    Layout(p, q, 4);
    hide CsumOffset;
    SameSlice(p, q, 12, 20);
    SameSlice(p, q, L4Offset(p, 4), End(p, 4));
  }

  /** The protocol number alone keeps the covered sum above its address and checksum parts. */
  lemma {:induction false} BasePositive(p: Packet, ver: int, at: nat, n: nat)
    requires Checksummed(p, ver) && InAddresses(ver, at, n)
    ensures Covered(p, ver) - Word(p, CsumOffset(p, ver).value) - Sum(p[at..at+n]) > 0
  {
    hide Sum;
    CoveredPutCsum(p, ver, 0);
    PartOfSum(p, at, n, AddrLo(ver), AddrHi(ver));
    hide CsumOffset;
  }

  // ---------------------------------------------------------------- theorems

  /** What fixL4 writes into the checksum field. */
  function NewCsum(p: Packet, ver: int, old_: seq<byte>, new_: seq<byte>): (w: int)
    requires Checksummed(p, ver) && |old_| == |new_| && |old_| % 2 == 0
    ensures 0 <= w <= 0xFFFF
  {
    var nc := Updated(Word(p, CsumOffset(p, ver).value), old_, new_);
    if Protocol(p, ver) == UDP && nc == 0 then 0xFFFF else nc
  }

  lemma {:induction false} FixL4Is(p: Packet, ver: int, old_: seq<byte>, new_: seq<byte>)
    requires Checksummed(p, ver) && |old_| == |new_| && |old_| % 2 == 0
    ensures FixL4(p, ver, old_, new_) ==
            if Disabled(p, ver) then p else PutWord(p, CsumOffset(p, ver).value, NewCsum(p, ver, old_, new_))
  {
    hide Updated;
  }

  /**
   If `h` is `p` with `old_` replaced by `new_` somewhere under the checksum and the field itself
   untouched, settling the field makes the result verify if and only if `p` did.
   */
  lemma {:induction false} FixL4KeepsVerdict(p: Packet, h: Packet, ver: int, old_: seq<byte>, new_: seq<byte>)
    requires Checksummed(p, ver) && SameLayout(p, h, ver) && Checksummed(h, ver)
    requires |old_| == |new_| && |old_| % 2 == 0
    requires Word(h, CsumOffset(p, ver).value) == Word(p, CsumOffset(p, ver).value)
    requires Covered(h, ver) == Covered(p, ver) - Sum(old_) + Sum(new_)
    requires Covered(p, ver) - Word(p, CsumOffset(p, ver).value) - Sum(old_) > 0
    ensures SameLayout(p, FixL4(h, ver, old_, new_), ver) && SameVerdict(p, FixL4(h, ver, old_, new_), ver)
  {
    hide Sum, Fold, Updated, Covered, CsumOffset, FixL4;
    Layout(p, h, ver);
    FixL4Is(h, ver, old_, new_);
    if !Disabled(p, ver) {
      var c, hc, w := CsumOffset(p, ver).value, Word(p, CsumOffset(p, ver).value), NewCsum(h, ver, old_, new_);
      var q, base := PutWord(h, c, w), Covered(p, ver) - hc - Sum(old_);
      CoveredPutCsum(h, ver, w);
      Layout(p, q, ver);
      assert Covered(q, ver) == base + Sum(new_) + w && Covered(p, ver) == base + Sum(old_) + hc;
      VerdictOfSums(p, q, ver, base, hc, old_, new_, w);
    }
  }

  lemma {:induction false} ValidIs(p: Packet, ver: int, rest: nat, hc: nat)
    requires Checksummed(p, ver) && Covered(p, ver) == rest + hc
    ensures L4Valid(p, ver) <==> Verifies(rest, hc)
  {
    hide Fold, Covered, Checksummed;
  }

  lemma {:induction false} VerdictOfSums(
    p: Packet, q: Packet, ver: int, base: nat, hc: int, old_: seq<byte>, new_: seq<byte>, w: int)
    requires Checksummed(p, ver) && Checksummed(q, ver) && base > 0 && 0 <= hc <= 0xFFFF
    requires |old_| == |new_| && |old_| % 2 == 0
    requires w == Updated(hc, old_, new_) || (Updated(hc, old_, new_) == 0 && w == 0xFFFF)
    requires Covered(p, ver) == base + Sum(old_) + hc && Covered(q, ver) == base + Sum(new_) + w
    ensures L4Valid(q, ver) <==> L4Valid(p, ver)
  {
    hide Sum, Fold, Updated, Covered, Checksummed, Verifies, L4Valid;
    ValidIs(p, ver, base + Sum(old_), hc);
    ValidIs(q, ver, base + Sum(new_), w);
    UpdateKeepsVerdict(base, hc, old_, new_);
  }

  /** Replacing an address keeps a good transport checksum good and a bad one bad. */
  lemma {:induction false} ReplaceKeepsVerdict(p: Packet, ver: int, at: nat, to: seq<byte>)
    requires Checksummed(p, ver) && InAddresses(ver, at, |to|)
    ensures SameLayout(p, Replace(p, ver, at, to), ver) && SameVerdict(p, Replace(p, ver, at, to), ver)
  {
    hide Sum, Covered, CsumOffset, FixL4, SameVerdict;
    CoveredPutAddr(p, ver, at, to);
    BasePositive(p, ver, at, |to|);
    FixL4KeepsVerdict(p, PutBytes(p, at, to), ver, p[at..at+|to|], to);
  }

  /** fixL4 writes nothing but the checksum field, and writes no zero for UDP when it writes at all. */
  lemma {:induction false} FixL4Writes(p: Packet, ver: int, old_: seq<byte>, new_: seq<byte>)
    requires |p| >= 20 && |old_| == |new_| && |old_| % 2 == 0
    ensures OnlyReplaces(p, FixL4(p, ver, old_, new_), ver, 0, 0)
    ensures CsumOffset(p, ver).Some? && Protocol(p, ver) == UDP && ver == 6 ==>
              Word(FixL4(p, ver, old_, new_), CsumOffset(p, ver).value) != 0
  {
    hide Updated;
  }

  lemma {:induction false} BehindAddresses(p: Packet, ver: int)
    requires |p| >= AddrHi(ver) && (ver == 4 || ver == 6) && L4Offset(p, ver) >= AddrHi(ver)
    ensures forall j: nat :: j < AddrHi(ver) ==> !InCsum(p, ver, j)
  {}

  /** A packet is changed where it should be, whatever its protocol. */
  lemma {:induction false} ReplaceWrites(p: Packet, ver: int, at: nat, to: seq<byte>)
    requires |p| >= AddrHi(ver) && (ver == 4 || ver == 6) && InAddresses(ver, at, |to|)
    requires L4Offset(p, ver) >= AddrHi(ver)
    ensures var q := Replace(p, ver, at, to);
            && SameLayout(p, q, ver) && q[at..at+|to|] == to && OnlyReplaces(p, q, ver, at, |to|)
            && (CsumOffset(p, ver).Some? && Protocol(p, ver) == UDP && ver == 6 ==>
                  Word(q, CsumOffset(p, ver).value) != 0)
  {
    hide FixL4;
    var m, q := PutBytes(p, at, to), Replace(p, ver, at, to);
    Layout(p, m, ver);
    FixL4Writes(m, ver, p[at..at+|to|], to);
    SameSlice(m, q, at, at + |to|);
  }

  /** The recomputed header always sums to 0xFFFF, and nothing else of the packet changes. */
  lemma {:induction false} FixHeaderValid(p: Packet)
    requires |p| >= 20 && 20 <= HeaderLen(p) <= |p|
    requires p[0] != 0    // a version is there: the header is not all zero
    ensures HeaderValid(FixHeader(p))
    ensures forall j :: 0 <= j < |p| && j != 10 && j != 11 ==> FixHeader(p)[j] == p[j]
  {
    hide Sum;
    var ihl, z, q := HeaderLen(p), PutWord(p, 10, 0), FixHeader(p);
    var w := Word(q, 10);
    assert q[..ihl] == PutWord(z[..ihl], 10, w) && Word(z[..ihl], 10) == 0;
    SumPutWord(z[..ihl], 10, w);
    HeaderNotZero(z[..ihl]);
    var x := Sum(z[..ihl]);
    assert x + w == 0xFFFF + 0xFFFF * ((x - 1) / 0xFFFF);
    ModShift(0xFFFF, (x - 1) / 0xFFFF);
  }

  lemma {:induction false} HeaderNotZero(s: seq<byte>)
    requires s != [] && s[0] != 0
    ensures Sum(s) > 0
  {
    if |s| > 1 { HeaderNotZero(s[..|s|-1]); }
  }

  /** A header whose octets are kept stays valid. */
  lemma {:induction false} HeaderKept(p: Packet, q: Packet)
    requires |p| >= 20 && HeaderValid(p) && |q| == |p| && q[..HeaderLen(p)] == p[..HeaderLen(p)]
    ensures HeaderValid(q)
  {
    hide Sum, Fold;
    assert q[0] == q[..HeaderLen(p)][0] == p[..HeaderLen(p)][0] == p[0];
  }

  /** An IPv4 packet that holds its own header. */
  predicate HeaderFits(p: Packet) {
    |p| >= 20 && Version(p) == 4 && 20 <= HeaderLen(p) <= |p|
  }

  lemma {:induction false} ChecksummedFits(p: Packet)
    requires p != [] && Checksummed(p, Version(p))
    ensures if Version(p) == 4 then HeaderFits(p) else |p| >= 40
  {
    hide CsumOffset;
  }

  /** Whatever the protocol, and even without room for a checksum: the header is valid afterwards. */
  lemma {:induction false} TranslateV4Header(p: Packet, at: nat, from: seq<byte>, to: seq<byte>)
    requires HeaderFits(p)
    requires |from| == |to| == 4 && (at == 12 || at == 16) && p[at..at+4] == from
    ensures var q := TranslateV4(p, at, from, to);
            HeaderValid(q) && q[at..at+4] == to && OnlyTouches(p, q, at, 4)
  {
    hide HeaderValid, FixHeader, FixL4;
    var m, h, q := PutBytes(p, at, to), FixHeader(PutBytes(p, at, to)), TranslateV4(p, at, from, to);
    FixHeaderValid(m);
    Layout(p, h, 4);
    FixL4Writes(h, 4, from, to);
    SameSlice(h, q, 0, HeaderLen(p));
    assert q[..HeaderLen(p)] == q[0..HeaderLen(p)] && h[..HeaderLen(p)] == h[0..HeaderLen(p)];
    HeaderKept(h, q);
    SameSlice(m, q, at, at + 4);
  }

  lemma {:induction false} TranslateV4Verdict(p: Packet, at: nat, from: seq<byte>, to: seq<byte>)
    requires HeaderFits(p) && Checksummed(p, 4)
    requires |from| == |to| == 4 && (at == 12 || at == 16) && p[at..at+4] == from
    ensures SameVerdict(p, TranslateV4(p, at, from, to), 4)
  {
    hide Sum, Covered, CsumOffset, FixL4, FixHeader, SameVerdict;
    var m := PutBytes(p, at, to);
    CoveredPutAddr(p, 4, at, to);
    FixHeaderValid(m);
    HeaderSumNotCovered(m, FixHeader(m));
    Layout(p, m, 4);
    BasePositive(p, 4, at, 4);
    FixL4KeepsVerdict(p, FixHeader(m), 4, from, to);
  }

  /** Translating any IPv4 packet leaves a valid header, and keeps the transport verdict where there is one. */
  lemma {:induction false} TranslateV4Correct(p: Packet, at: nat, from: seq<byte>, to: seq<byte>)
    requires HeaderFits(p)
    requires |from| == |to| == 4 && (at == 12 || at == 16) && p[at..at+4] == from
    ensures var q := TranslateV4(p, at, from, to);
            && HeaderValid(q) && q[at..at+4] == to && OnlyTouches(p, q, at, 4)
            && (Checksummed(p, 4) ==> SameVerdict(p, q, 4))
  {
    hide HeaderValid, OnlyTouches, SameVerdict, Checksummed, TranslateV4;
    TranslateV4Header(p, at, from, to);
    if Checksummed(p, 4) { TranslateV4Verdict(p, at, from, to); }
  }

  /** The same for IPv6, which has no header sum, and no zero checksum for UDP. */
  lemma {:induction false} TranslateV6Correct(p: Packet, at: nat, from: seq<byte>, to: seq<byte>)
    requires |p| >= 40
    requires |from| == |to| == 16 && (at == 8 || at == 24) && p[at..at+16] == from
    ensures var q := TranslateV6(p, at, from, to);
            && q[at..at+16] == to && OnlyReplaces(p, q, 6, at, 16)
            && (Checksummed(p, 6) ==> SameVerdict(p, q, 6))
            && (CsumOffset(p, 6).Some? && Protocol(p, 6) == UDP ==> Word(q, CsumOffset(p, 6).value) != 0)
  {
    hide CsumOffset, OnlyReplaces, SameVerdict, Replace, Checksummed;
    ReplaceWrites(p, 6, at, to);
    if Checksummed(p, 6) { ReplaceKeepsVerdict(p, 6, at, to); }
  }

  lemma {:induction false} RewrittenKeeps(p: Packet, at: nat, to: Option<seq<byte>>)
    requires HeaderFits(p) && (to.Some? ==> |to.value| == 4) && (at == 12 || at == 16)
    ensures var q := Rewritten(p, at, to);
            && SameLayout(p, q, 4) && OnlyReplaces(p, q, 4, at, 4)
            && q[at..at+4] == (if to.Some? then to.value else p[at..at+4])
            && (Checksummed(p, 4) ==> SameVerdict(p, q, 4))
  {
    hide CsumOffset, SameVerdict, Replace, Checksummed;
    if to.Some? && p[at..at+4] != to.value {
      ReplaceWrites(p, 4, at, to.value);
      if Checksummed(p, 4) { ReplaceKeepsVerdict(p, 4, at, to.value); }
    } else if Checksummed(p, 4) {
      VerdictOfSame(p, 4);
    }
  }

  lemma {:induction false} VerdictOfSame(p: Packet, ver: int)
    requires Checksummed(p, ver)
    ensures SameVerdict(p, p, ver)
  {
    hide Checksummed, L4Valid, Disabled;
  }

  lemma {:induction false} FixHeaderKeepsVerdict(p: Packet)
    requires HeaderFits(p) && Checksummed(p, 4)
    ensures SameVerdict(p, FixHeader(p), 4)
  {
    hide Sum, Fold, FixHeader, CsumOffset, Covered;
    FixHeaderValid(p);
    HeaderSumNotCovered(p, FixHeader(p));
    Layout(p, FixHeader(p), 4);
  }

  lemma {:induction false} Verdicts(p: Packet, q: Packet, r: Packet)
    requires Checksummed(p, 4) && SameVerdict(p, q, 4) && SameVerdict(q, r, 4)
    ensures SameVerdict(p, r, 4)
  {
    hide L4Valid, Disabled, Checksummed;
  }

  lemma {:induction false} RewriteTouches(p: Packet, src: Option<seq<byte>>, dst: Option<seq<byte>>)
    requires HeaderFits(p)
    requires src.Some? ==> |src.value| == 4
    requires dst.Some? ==> |dst.value| == 4
    ensures var q := RewriteBoth(p, src, dst);
            && HeaderValid(q) && OnlyTouches(p, q, 12, 8)
            && q[12..16] == (if src.Some? then src.value else p[12..16])
            && q[16..20] == (if dst.Some? then dst.value else p[16..20])
  {
    hide SameVerdict, Checksummed, HeaderValid, Rewritten, FixHeader;
    var a := Rewritten(p, 12, src);
    var b := Rewritten(a, 16, dst);
    RewrittenKeeps(p, 12, src);
    RewrittenKeeps(a, 16, dst);
    Layout(p, a, 4);
    FixHeaderValid(b);
    SameSlice(p, a, 16, 20);
    SameSlice(a, b, 12, 16);
    SameSlice(b, FixHeader(b), 12, 16);
    SameSlice(b, FixHeader(b), 16, 20);
  }

  /** Both addresses at once: the requested ones are in place, the header valid, the verdict kept. */
  lemma {:induction false} RewriteBothCorrect(p: Packet, src: Option<seq<byte>>, dst: Option<seq<byte>>)
    requires HeaderFits(p)
    requires src.Some? ==> |src.value| == 4
    requires dst.Some? ==> |dst.value| == 4
    ensures var q := RewriteBoth(p, src, dst);
            && HeaderValid(q) && OnlyTouches(p, q, 12, 8)
            && q[12..16] == (if src.Some? then src.value else p[12..16])
            && q[16..20] == (if dst.Some? then dst.value else p[16..20])
            && (Checksummed(p, 4) ==> SameVerdict(p, q, 4))
  {
    hide SameVerdict, Checksummed, HeaderValid, OnlyTouches, Rewritten, FixHeader, OnlyReplaces;
    RewriteTouches(p, src, dst);
    if Checksummed(p, 4) { RewriteVerdict(p, src, dst); }
  }

  lemma {:induction false} RewriteVerdict(p: Packet, src: Option<seq<byte>>, dst: Option<seq<byte>>)
    requires HeaderFits(p) && Checksummed(p, 4)
    requires src.Some? ==> |src.value| == 4
    requires dst.Some? ==> |dst.value| == 4
    ensures SameVerdict(p, RewriteBoth(p, src, dst), 4)
  {
    hide Checksummed, Rewritten, FixHeader, OnlyReplaces, L4Valid, Disabled;
    var a := Rewritten(p, 12, src);
    var b := Rewritten(a, 16, dst);
    RewrittenKeeps(p, 12, src);
    RewrittenKeeps(a, 16, dst);
    FixHeaderKeepsVerdict(b);
    Verdicts(p, a, b);
    Verdicts(p, b, FixHeader(b));
  }

  // ---------------------------------------------------------------- octet by octet

  /** The transport header of an IPv4 packet starts after the header's own length, that of an IPv6 packet at 40. */
  function Transport(p: Packet, ver: int): int
    requires p != []
  {
    var b: int := p[0];
    if ver == 4 then b % 16 * 4 else 40
  }

  /** Octet `j` is a transport checksum: the 17th and 18th of TCP, the 7th and 8th of UDP, the 3rd and 4th of ICMPv6. */
  predicate ChecksumOctet(p: Packet, ver: int, j: int)
    requires |p| >= 20
  {
    var k, proto := j - Transport(p, ver), if ver == 4 then p[9] else p[6];
    || (proto == 6 && (k == 16 || k == 17))
    || (proto == 17 && (k == 6 || k == 7))
    || (proto == 58 && (k == 2 || k == 3))
  }

  lemma {:induction false} CsumOctets(p: Packet, ver: int, j: nat)
    requires |p| >= 20
    ensures InCsum(p, ver, j) ==> ChecksumOctet(p, ver, j)
    ensures j + 1 < |p| ==>
              (InCsum(p, ver, j) && InCsum(p, ver, j + 1) <==> ChecksumOctet(p, ver, j) && ChecksumOctet(p, ver, j + 1))
  {}

  /** The packets whose verdict is kept, all of them: TCP, UDP and ICMPv6 with the field inside the datagram. */
  lemma {:induction false} ChecksummedIff(p: Packet, ver: int)
    requires |p| >= 20 && (ver == 4 || ver == 6)
    ensures Checksummed(p, ver) <==>
            var (off, end, proto) := (Transport(p, ver), End(p, ver), if ver == 4 then p[9] else p[6]);
            && (if ver == 4 then 20 else 40) <= off <= |p| && end <= |p|
            && ((proto == 6 && off + 18 <= end) || (proto == 17 && off + 8 <= end) || (proto == 58 && off + 4 <= end))
  {}

  /** Translating an IPv4 packet changes the address, the header sum and the octets of the checksum, and no other. */
  lemma {:induction false} TranslateV4Changes(p: Packet, at: nat, from: seq<byte>, to: seq<byte>, j: nat)
    requires HeaderFits(p) && j < |p|
    requires |from| == |to| == 4 && (at == 12 || at == 16) && p[at..at+4] == from
    requires TranslateV4(p, at, from, to)[j] != p[j]
    ensures at <= j < at + 4 || j == 10 || j == 11 || ChecksumOctet(p, 4, j)
  {
    hide TranslateV4, CsumOffset, HeaderValid, ChecksumOctet;
    TranslateV4Header(p, at, from, to);
    if InCsum(p, 4, j) { CsumOctets(p, 4, j); }
  }

  lemma {:induction false} TranslateV6Changes(p: Packet, at: nat, from: seq<byte>, to: seq<byte>, j: nat)
    requires |p| >= 40 && j < |p|
    requires |from| == |to| == 16 && (at == 8 || at == 24) && p[at..at+16] == from
    requires TranslateV6(p, at, from, to)[j] != p[j]
    ensures at <= j < at + 16 || ChecksumOctet(p, 6, j)
  {
    hide Replace, CsumOffset, ChecksumOctet;
    ReplaceWrites(p, 6, at, to);
    if InCsum(p, 6, j) { CsumOctets(p, 6, j); }
  }

  lemma {:induction false} RewriteBothChanges(p: Packet, src: Option<seq<byte>>, dst: Option<seq<byte>>, j: nat)
    requires j < |p| && (src.Some? ==> |src.value| == 4) && (dst.Some? ==> |dst.value| == 4)
    requires RewriteBoth(p, src, dst)[j] != p[j] && 20 <= HeaderLen(p) <= |p|
    ensures |p| >= 20 && p[0] / 16 == 4
    ensures 12 <= j < 20 || j == 10 || j == 11 || ChecksumOctet(p, 4, j)
  {
    hide CsumOffset, HeaderValid, ChecksumOctet, FixHeader, Rewritten;
    RewriteTouches(p, src, dst);
    if InCsum(p, 4, j) { CsumOctets(p, 4, j); }
  }

  // ---------------------------------------------------------------- in place

  datatype Addr = IPv4(octets: seq<byte>) | IPv6(octets: seq<byte>)

  predicate WellFormed(a: Addr) {
    |a.octets| == if a.IPv4? then 4 else 16
  }

  /** The first address of the family in the list. */
  function First(addrs: seq<Addr>, v4: bool): (r: Option<Addr>)
    ensures r.Some? ==> r.value in addrs && r.value.IPv4? == v4
    ensures r.None? ==> forall a :: a in addrs ==> a.IPv4? != v4
  {
    if addrs == [] then None
    else if addrs[0].IPv4? == v4 then Some(addrs[0]) else First(addrs[1..], v4)
  }

  lemma {:induction false} FirstIsFirst(addrs: seq<Addr>, v4: bool, i: nat)
    requires i < |addrs| && addrs[i].IPv4? == v4 && forall j :: 0 <= j < i ==> addrs[j].IPv4? != v4
    ensures First(addrs, v4) == Some(addrs[i])
  {
    if i > 0 { FirstIsFirst(addrs[1..], v4, i - 1); }
  }

  method FixIPv4Header(pkt: array<byte>)
    requires pkt.Length >= 20
    modifies pkt
    ensures pkt[..] == FixHeader(old(pkt[..]))
  {
    var p0: int := pkt[0];
    var ihl := p0 % 16 * 4;
    if ihl < 20 || ihl > pkt.Length { return; }
    pkt[10], pkt[11] := 0, 0;
    assert pkt[..] == PutWord(old(pkt[..]), 10, 0);
    var sum := HeaderSum(pkt, ihl);
    pkt[10], pkt[11] := (0xFFFF - sum) / 256, (0xFFFF - sum) % 256;
    assert pkt[..] == FixHeader(old(pkt[..])) by { hide Sum, Fold; }
  }

  /** The folded sum of the header's words; it does not leave uint32 on the way. */
  method HeaderSum(pkt: array<byte>, ihl: nat) returns (sum: uint32)
    requires ihl <= pkt.Length && ihl <= 60 && ihl % 2 == 0
    ensures sum == Fold(Sum(pkt[..][..ihl]))
  {
    hide Fold;
    sum := 0;
    var i := 0;
    while i + 1 < ihl
      invariant 0 <= i <= ihl && i % 2 == 0
      invariant sum == Sum(pkt[..][..i]) && sum <= 0xFFFF * i
    {
      AddWord(pkt[..], i);
      sum := sum + Word(pkt[..], i);
      i := i + 2;
    }
    sum := FoldCarries(sum);
  }

  method FixL4InPlace(pkt: array<byte>, ver: int, old_: seq<byte>, new_: seq<byte>)
    requires pkt.Length >= 20 && |old_| == |new_| <= 16 && |old_| % 2 == 0
    modifies pkt
    ensures pkt[..] == FixL4(old(pkt[..]), ver, old_, new_)
  {
    hide Sum, Fold, Updated;
    var p0: int := pkt[0];
    var l4off := if ver == 4 then p0 % 16 * 4 else 40;
    var proto := if ver == 4 then pkt[9] else pkt[6];
    var csumOff;
    if proto == TCP {
      csumOff := l4off + 16;
    } else if proto == UDP {
      csumOff := l4off + 6;
    } else if proto == ICMPV6 {
      csumOff := l4off + 2;
    } else {
      return;
    }
    if csumOff + 2 > pkt.Length { return; }
    var c := Word(pkt[..], csumOff);
    if proto == UDP && ver == 4 && c == 0 { return; }
    var nc := CsumUpdate(c, old_, new_);
    if proto == UDP && nc == 0 { nc := 0xFFFF; }
    pkt[csumOff], pkt[csumOff+1] := nc / 256, nc % 256;
    assert pkt[..] == PutWord(old(pkt[..]), csumOff, nc);
  }

  /** `copy(pkt[at:], to)`. */
  method CopyInto(pkt: array<byte>, at: nat, to: seq<byte>)
    requires at + |to| <= pkt.Length
    modifies pkt
    ensures pkt[..] == PutBytes(old(pkt[..]), at, to)
  {
    forall j | 0 <= j < |to| { pkt[at + j] := to[j]; }
    assert pkt[..] == PutBytes(old(pkt[..]), at, to);
  }

  method RewriteV4(pkt: array<byte>, newSrc: Option<seq<byte>>, newDst: Option<seq<byte>>)
    requires newSrc.Some? ==> |newSrc.value| == 4
    requires newDst.Some? ==> |newDst.value| == 4
    modifies pkt
    ensures pkt[..] == RewriteBoth(old(pkt[..]), newSrc, newDst)
  {
    if pkt.Length < 20 || pkt[0] / 16 != 4 { return; }
    ReplaceInPlace(pkt, 12, newSrc);
    ReplaceInPlace(pkt, 16, newDst);
    FixIPv4Header(pkt);
  }

  method ReplaceInPlace(pkt: array<byte>, at: nat, to: Option<seq<byte>>)
    requires pkt.Length >= 20 && (to.Some? ==> |to.value| == 4) && (at == 12 || at == 16)
    modifies pkt
    ensures pkt[..] == Rewritten(old(pkt[..]), at, to)
  {
    if to.None? { return; }
    var was := pkt[at..at+4];
    assert was == pkt[..][at..at+4];
    if was != to.value {
      CopyInto(pkt, at, to.value);
      FixL4InPlace(pkt, 4, was, to.value);
    }
  }

  class NAT {
    var haveV4: bool
    var realV4: seq<byte>
    var assignedV4: seq<byte>
    var haveV6: bool
    var realV6: seq<byte>
    var assignedV6: seq<byte>

    ghost predicate Valid()
      reads this
    {
      && (haveV4 ==> |realV4| == |assignedV4| == 4)
      && (haveV6 ==> |realV6| == |assignedV6| == 16)
    }

    /** One address per family, the first given; a family needs both a real and an assigned one. */
    constructor (reals: seq<Addr>, leased: seq<Addr>)
      requires forall a :: a in reals || a in leased ==> WellFormed(a)
      ensures Valid()
      ensures haveV4 <==> First(reals, true).Some? && First(leased, true).Some?
      ensures haveV6 <==> First(reals, false).Some? && First(leased, false).Some?
      ensures haveV4 ==> realV4 == First(reals, true).value.octets
                         && assignedV4 == First(leased, true).value.octets
      ensures haveV6 ==> realV6 == First(reals, false).value.octets
                         && assignedV6 == First(leased, false).value.octets
    {
      haveV4, haveV6, realV4, assignedV4, realV6, assignedV6 := false, false, [], [], [], [];
      new;
      var r4, r6 := First(reals, true), First(reals, false);
      var a4, a6 := First(leased, true), First(leased, false);
      if r4.Some? && a4.Some? {
        realV4, assignedV4, haveV4 := r4.value.octets, a4.value.octets, true;
      }
      if r6.Some? && a6.Some? {
        realV6, assignedV6, haveV6 := r6.value.octets, a6.value.octets, true;
      }
    }

    /** What Outbound or Inbound makes of a packet. */
    function Applied(p: Packet, outbound: bool): (q: Packet)
      requires Valid()
      reads this
      ensures |q| == |p|
    {
      if p == [] then p
      else if Version(p) == 4 && haveV4 then
        if outbound then TranslateV4(p, 12, realV4, assignedV4) else TranslateV4(p, 16, assignedV4, realV4)
      else if Version(p) == 6 && haveV6 then
        if outbound then TranslateV6(p, 8, realV6, assignedV6) else TranslateV6(p, 24, assignedV6, realV6)
      else p
    }

    /**
     Whatever the packet and the direction: an IPv4 packet that is changed has a valid header
     afterwards, and a transport checksum verifies afterwards if and only if it did before.
     */
    lemma {:induction false} AppliedCorrect(p: Packet, outbound: bool)
      requires Valid() && p != []
      ensures HeaderFits(p) && Applied(p, outbound) != p ==> HeaderValid(Applied(p, outbound))
      ensures Checksummed(p, Version(p)) ==> SameVerdict(p, Applied(p, outbound), Version(p))
    {
      hide SameVerdict, HeaderValid, Checksummed, OnlyTouches, OnlyReplaces, CsumOffset, FixL4, FixHeader, Replace;
      if Checksummed(p, Version(p)) {
        VerdictOfSame(p, Version(p));
        ChecksummedFits(p);
      }
      if Version(p) == 4 && haveV4 && HeaderFits(p) {
        var at, from, to := 16, assignedV4, realV4;
        if outbound { at, from, to := 12, realV4, assignedV4; }
        if p[at..at+4] == from { TranslateV4Correct(p, at, from, to); }
      } else if Version(p) == 6 && haveV6 && |p| >= 40 {
        var at, from, to := 24, assignedV6, realV6;
        if outbound { at, from, to := 8, realV6, assignedV6; }
        if p[at..at+16] == from { TranslateV6Correct(p, at, from, to); }
      }
    }

    /**
     What Outbound and Inbound are for: the real source address of a packet becomes the assigned
     one, and the assigned destination the real one; any other packet is left as it is.
     */
    lemma {:induction false} AppliedAddress(p: Packet, outbound: bool)
      requires Valid()
      ensures var q := Applied(p, outbound);
              if |p| >= 20 && p[0] / 16 == 4 && haveV4 && 20 <= HeaderLen(p) <= |p| then
                if outbound then
                  if p[12..16] == realV4 then q[12..16] == assignedV4 && q[16..20] == p[16..20] else q == p
                else
                  if p[16..20] == assignedV4 then q[16..20] == realV4 && q[12..16] == p[12..16] else q == p
              else if |p| >= 40 && p[0] / 16 == 6 && haveV6 then
                if outbound then
                  if p[8..24] == realV6 then q[8..24] == assignedV6 && q[24..40] == p[24..40] else q == p
                else
                  if p[24..40] == assignedV6 then q[24..40] == realV6 && q[8..24] == p[8..24] else q == p
              else if |p| >= 20 && p[0] / 16 == 4 && haveV4 then true else q == p
    {
      hide HeaderValid, FixL4, FixHeader, Replace, CsumOffset;
      if |p| >= 20 && p[0] / 16 == 4 && haveV4 && 20 <= HeaderLen(p) <= |p| {
        var at, from, to := 16, assignedV4, realV4;
        if outbound { at, from, to := 12, realV4, assignedV4; }
        if p[at..at+4] == from {
          TranslateV4Header(p, at, from, to);
          BehindAddresses(p, 4);
          SameSlice(p, TranslateV4(p, at, from, to), 28 - at, 32 - at);
        }
      } else if |p| >= 40 && p[0] / 16 == 6 && haveV6 {
        var at, from, to := 24, assignedV6, realV6;
        if outbound { at, from, to := 8, realV6, assignedV6; }
        if p[at..at+16] == from {
          ReplaceWrites(p, 6, at, to);
          BehindAddresses(p, 6);
          SameSlice(p, Replace(p, 6, at, to), 32 - at, 48 - at);
        }
      }
    }

    method Outbound(pkt: array<byte>)
      requires Valid()
      modifies pkt
      ensures pkt[..] == Applied(old(pkt[..]), true)
    {
      Apply(pkt, true);
    }

    method Inbound(pkt: array<byte>)
      requires Valid()
      modifies pkt
      ensures pkt[..] == Applied(old(pkt[..]), false)
    {
      Apply(pkt, false);
    }

    method Apply(pkt: array<byte>, outbound: bool)
      requires Valid()
      modifies pkt
      ensures pkt[..] == Applied(old(pkt[..]), outbound)
    {
      if pkt.Length < 1 { return; }
      if pkt[0] / 16 == 4 {
        ApplyV4(pkt, outbound);
      } else if pkt[0] / 16 == 6 {
        ApplyV6(pkt, outbound);
      }
    }

    method ApplyV4(pkt: array<byte>, outbound: bool)
      requires Valid() && pkt.Length > 0 && Version(pkt[..]) == 4
      modifies pkt
      ensures pkt[..] == Applied(old(pkt[..]), outbound)
    {
      if !haveV4 || pkt.Length < 20 { return; }
      var at, from, to := 16, assignedV4, realV4;
      if outbound { at, from, to := 12, realV4, assignedV4; }
      assert pkt[at..at+4] == pkt[..][at..at+4];
      if pkt[at..at+4] != from { return; }
      CopyInto(pkt, at, to);
      FixIPv4Header(pkt);
      FixL4InPlace(pkt, 4, from, to);
    }

    method ApplyV6(pkt: array<byte>, outbound: bool)
      requires Valid() && pkt.Length > 0 && Version(pkt[..]) == 6
      modifies pkt
      ensures pkt[..] == Applied(old(pkt[..]), outbound)
    {
      if !haveV6 || pkt.Length < 40 { return; }
      var at, from, to := 24, assignedV6, realV6;
      if outbound { at, from, to := 8, realV6, assignedV6; }
      assert pkt[at..at+16] == pkt[..][at..at+16];
      if pkt[at..at+16] != from { return; }
      CopyInto(pkt, at, to);
      FixL4InPlace(pkt, 6, from, to);
    }
  }
}
