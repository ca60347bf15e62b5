/**
 clampMSS (internal/engine/connectip/engine.go): the MSS option of an IPv4 TCP SYN is
 lowered to the tunnel's limit in place and the TCP checksum is adjusted incrementally.
 Options are laid out as in section 3.2 of RFC 9293.
 */
module ClampMss {
  import opened Basics
  import opened Checksum
  import opened Nat

  const LIMIT := 1200

  /** An IPv4 TCP SYN whose header and options lie inside the packet. */
  predicate IsSyn(p: Packet) {
    && |p| >= 20 && p[0] / 16 == 4 && p[9] == TCP
    && var ihl := HeaderLen(p);
    && |p| >= ihl + 20
    && p[ihl+13] / 2 % 2 == 1
    && OptionsEnd(p) >= ihl + 20 && OptionsEnd(p) <= |p|
  }

  /** Where the options of the TCP header end, as an offset into the packet. */
  function OptionsEnd(p: Packet): nat
    requires |p| >= 20 && |p| >= HeaderLen(p) + 20
  {
    var b: int := p[HeaderLen(p)+12];
    HeaderLen(p) + b / 16 * 4
  }

  // ---------------------------------------------------------------- specification

  /** One MSS option at `k`: lowered when above the limit, and the checksum adjusted. */
  function ClampOne(p: Packet, csum: nat, k: nat): (q: Packet)
    requires csum + 1 < k && k + 4 <= |p|
    ensures |q| == |p|
  {
    if Word(p, k + 2) <= LIMIT then p
    else
      var m := PutWord(p, k + 2, LIMIT);
      PutWord(m, csum, Updated(Word(m, csum), p[k+2..k+4], m[k+2..k+4]))
  }

  /** What the scan does at position `k`: where it goes next, or None when it stops. */
  function Next(p: Packet, end: nat, k: nat): (n: Option<nat>)
    requires end <= |p|
    ensures n.Some? ==> k < n.value && k + 1 < end && n.value <= end
  {
    if k + 1 >= end || p[k] == 0 then None
    else if p[k] == 1 then Some(k + 1)
    else
      var length: int := p[k+1];
      if length < 2 || k + length > end then None else Some(k + length)
  }

  /** The scan stands on a well-formed MSS option. */
  predicate AtMss(p: Packet, end: nat, k: nat)
    requires end <= |p|
  {
    Next(p, end, k).Some? && p[k] == 2 && p[k+1] == 4
  }

  /** The scan from option position `k` on. */
  function Scan(p: Packet, csum: nat, end: nat, k: nat): (q: Packet)
    requires csum + 1 < k && end <= |p|
    ensures |q| == |p|
    decreases end - k
  {
    var next := Next(p, end, k);
    if next.None? then p
    else Scan(if AtMss(p, end, k) then ClampOne(p, csum, k) else p, csum, end, next.value)
  }

  function Clamped(p: Packet): (q: Packet)
    ensures |q| == |p|
  {
    if IsSyn(p) then Scan(p, HeaderLen(p) + 16, OptionsEnd(p), HeaderLen(p) + 20) else p
  }

  // ---------------------------------------------------------------- what the scan reaches

  /** The MSS options the scan meets, in order. */
  function Reached(p: Packet, end: nat, k: nat): (ks: seq<nat>)
    requires end <= |p|
    decreases end - k
  {
    var next := Next(p, end, k);
    if next.None? then []
    else if AtMss(p, end, k) then [k] + Reached(p, end, next.value)
    else Reached(p, end, next.value)
  }

  /** By how much the values at odd offsets exceed the limit, added up. */
  function OddExcess(p: Packet, end: nat, k: nat): (x: nat)
    requires end <= |p|
    decreases end - k
  {
    var next := Next(p, end, k);
    if next.None? then 0
    else (if AtMss(p, end, k) && k % 2 == 1 && Word(p, k + 2) > LIMIT then Word(p, k + 2) - LIMIT else 0)
         + OddExcess(p, end, next.value)
  }

  /** Octets before the checksum, and option octets still ahead, decide the rest of the scan. */
  lemma {:induction false} ScanAhead(p: Packet, q: Packet, end: nat, k: nat)
    requires end <= |p| == |q| && (forall j :: k <= j < end ==> q[j] == p[j])
    ensures Reached(q, end, k) == Reached(p, end, k) && OddExcess(q, end, k) == OddExcess(p, end, k)
    decreases end - k
  {
    var next := Next(p, end, k);
    assert Next(q, end, k) == next;
    if next.Some? { ScanAhead(p, q, end, next.value); }
  }

  ghost predicate InValues(ks: seq<nat>, j: int) {
    exists i :: 0 <= i < |ks| && ks[i] + 2 <= j < ks[i] + 4
  }

  ghost predicate OnlyValues(p: Packet, q: Packet, csum: nat, ks: seq<nat>) {
    |q| == |p| && forall j :: 0 <= j < |p| && !(csum <= j < csum + 2 || InValues(ks, j)) ==> q[j] == p[j]
  }

  lemma {:induction false} OnlyValuesCons(p: Packet, m: Packet, q: Packet, csum: nat, k: nat, ahead: seq<nat>)
    requires OnlyValues(p, m, csum, [k]) && OnlyValues(m, q, csum, ahead)
    ensures OnlyValues(p, q, csum, [k] + ahead)
  {
    var ks := [k] + ahead;
    forall j | 0 <= j < |p| && !(csum <= j < csum + 2 || InValues(ks, j)) ensures q[j] == p[j] {
      assert !InValues([k], j) by { assert ks[0] == k; }
      assert !InValues(ahead, j) by { assert forall i :: 0 <= i < |ahead| ==> ks[i+1] == ahead[i]; }
    }
  }

  function Lowered(v: int): int {
    if v > LIMIT then LIMIT else v
  }

  /** Nothing but the values of the options reached and the checksum changes. */
  lemma {:induction false} ScanOnlyValues(p: Packet, csum: nat, end: nat, k: nat)
    requires csum + 1 < k && end <= |p|
    ensures OnlyValues(p, Scan(p, csum, end, k), csum, Reached(p, end, k))
    decreases end - k
  {
    var next := Next(p, end, k);
    if next.Some? {
      if AtMss(p, end, k) {
        var m := ClampOne(p, csum, k);
        ScanAhead(p, m, end, next.value);
        ScanOnlyValues(m, csum, end, next.value);
        forall j | 0 <= j < |p| && !(csum <= j < csum + 2 || InValues([k], j)) ensures m[j] == p[j] {
          assert [k][0] == k;
        }
        OnlyValuesCons(p, m, Scan(p, csum, end, k), csum, k, Reached(p, end, next.value));
      } else {
        ScanOnlyValues(p, csum, end, next.value);
      }
    }
  }

  ghost predicate AllLowered(p: Packet, q: Packet, ks: seq<nat>) {
    |q| == |p| && forall k :: k in ks ==> LoweredAt(p, q, k)
  }

  predicate LoweredAt(p: Packet, q: Packet, k: nat)
    requires |q| == |p|
  {
    k + 4 <= |p| && Word(q, k + 2) == Lowered(Word(p, k + 2))
  }

  lemma {:induction false} ReachedInside(p: Packet, end: nat, k: nat)
    requires end <= |p|
    ensures forall a :: a in Reached(p, end, k) ==> k <= a && a + 4 <= end
    decreases end - k
  {
    var next := Next(p, end, k);
    if next.Some? { ReachedInside(p, end, next.value); }
  }

  /** Every option reached ends up at the smaller of its value and the limit. */
  lemma {:induction false} ScanLowers(p: Packet, csum: nat, end: nat, k: nat)
    requires csum + 1 < k && end <= |p|
    ensures AllLowered(p, Scan(p, csum, end, k), Reached(p, end, k))
    decreases end - k
  {
    var next := Next(p, end, k);
    if next.Some? {
      if AtMss(p, end, k) {
        var m := ClampOne(p, csum, k);
        var ahead := Reached(p, end, next.value);
        ScanAhead(p, m, end, next.value);
        ScanLowers(m, csum, end, next.value);
        ScanOnlyValues(m, csum, end, next.value);
        ReachedInside(p, end, next.value);
        LowersCons(p, m, Scan(p, csum, end, k), csum, k, ahead);
      } else {
        ScanLowers(p, csum, end, next.value);
      }
    }
  }

  lemma {:induction false} LowersCons(p: Packet, m: Packet, q: Packet, csum: nat, k: nat, ahead: seq<nat>)
    requires csum + 1 < k && k + 4 <= |p| && m == ClampOne(p, csum, k)
    requires OnlyValues(m, q, csum, ahead) && AllLowered(m, q, ahead)
    requires forall a :: a in ahead ==> k + 4 <= a
    ensures AllLowered(p, q, [k] + ahead)
  {
    hide Updated;
    assert !InValues(ahead, k + 2) && !InValues(ahead, k + 3) by {
      forall i | 0 <= i < |ahead| ensures k + 4 <= ahead[i] { assert ahead[i] in ahead; }
    }
    assert m[k+2] == q[k+2] && m[k+3] == q[k+3];
    forall a | a in ahead ensures LoweredAt(p, q, a) {
      assert LoweredAt(m, q, a);
      assert m[a+2] == p[a+2] && m[a+3] == p[a+3];
    }
  }

  // ---------------------------------------------------------------- the checksum

  ghost predicate Cong(a: int, b: int) {
    (a - b) % 0xFFFF == 0
  }

  lemma {:induction false} CongSum(a: int, b: int, c: int, d: int)
    requires Cong(a, b) && Cong(c, d)
    ensures Cong(a + c, b + d) && Cong(b, a)
  {
    var x, y := (a - b) / 0xFFFF, (c - d) / 0xFFFF;
    assert (a + c) - (b + d) == 0 + 0xFFFF * (x + y);
    ModShift(0, x + y);
    assert b - a == 0 + 0xFFFF * (-x);
    ModShift(0, -x);
  }

  lemma {:induction false} CongShift(a: int, b: int, c: int, d: int)
    requires a - b == c - d && (a == b || Cong(a, b))
    ensures Cong(c, d)
  {}

  lemma {:induction false} UpdatedCong(hc: int, old_: seq<byte>, new_: seq<byte>)
    requires 0 <= hc <= 0xFFFF && |old_| == |new_| && |old_| % 2 == 0
    ensures Cong(Updated(hc, old_, new_), hc + Sum(old_) - Sum(new_))
  {
    WordsBound(old_);
    var k := |old_| / 2;
    var x := (0xFFFF - hc) + (0xFFFF * k - Sum(old_)) + Sum(new_);
    var q := if x == 0 then 0 else (x - 1) / 0xFFFF;
    assert Updated(hc, old_, new_) - (hc + Sum(old_) - Sum(new_)) == 0 + 0xFFFF * (q - k);
    ModShift(0, q - k);
  }

  lemma {:induction false} SumOfWord(s: seq<byte>)
    requires |s| == 2
    ensures Sum(s) == Word(s, 0)
  {
    AddWord(s, 0);
    assert s[..2] == s;
  }

  /** A TCP segment whose MSS option at `k` the scan may rewrite. */
  ghost predicate MssInside(p: Packet, k: nat) {
    Checksummed(p, 4) && p[9] == TCP && L4Offset(p, 4) + 20 <= k && k + 4 <= End(p, 4)
  }

  /** Rewriting one word of the segment, in terms of what the checksum covers. */
  lemma {:induction false} CoveredPutValue(p: Packet, k: nat, w: int)
    requires MssInside(p, k) && 0 <= w <= 0xFFFF
    ensures var (q, d) := (PutWord(p, k + 2, w), w - Word(p, k + 2));
            && SameLayout(p, q, 4) && Checksummed(q, 4)
            && Cong(Covered(q, 4), Covered(p, 4) + if k % 2 == 0 then d else 256 * d)
  {
    hide Sum, Covered, End, CsumOffset;
    var q, off, end := PutWord(p, k + 2, w), L4Offset(p, 4), End(p, 4);
    var s := p[off..end];
    CoveredMoves(p, q, 4);
    PutWordSlice(p, k + 2, w, off, end);
    SameSlice(p, q, 12, 20);
    if k % 2 == 0 { SumPutWord(s, k + 2 - off, w); } else { SumPutWordOdd(s, k + 2 - off, w); }
  }

  lemma {:induction false} CsumIs(p: Packet)
    requires Checksummed(p, 4) && p[9] == TCP
    ensures CsumOffset(p, 4) == Some(L4Offset(p, 4) + 16)
  {}

  /** The sums before (a), with the new value (b), and with the settled checksum (c). */
  lemma {:induction false} SettledSum(a: int, b: int, c: int, hc: int, w: int, step: int, d: int)
    requires Cong(b, a + step) && Cong(w, hc - d) && c == b - hc + w
    ensures Cong(c, a + step - d)
  {
    CongSum(b, a + step, w, hc - d);
    CongShift(b + w, a + step + (hc - d), c, a + step - d);
  }

  lemma {:induction false} LoweredCovered(p: Packet, k: nat)
    requires MssInside(p, k) && Word(p, k + 2) > LIMIT
    ensures var (q, excess) := (ClampOne(p, L4Offset(p, 4) + 16, k), Word(p, k + 2) - LIMIT);
            && SameLayout(p, q, 4) && Checksummed(q, 4)
            && Cong(Covered(q, 4), Covered(p, 4) - if k % 2 == 0 then 0 else 255 * excess)
  {
    hide Sum, Covered, Updated, End, Cong, CsumOffset;
    var m, csum, d := PutWord(p, k + 2, LIMIT), L4Offset(p, 4) + 16, LIMIT - Word(p, k + 2);
    CoveredPutValue(p, k, LIMIT);
    Layout(p, m, 4);
    CsumIs(p);
    var hc, w := Word(m, csum), Updated(Word(m, csum), p[k+2..k+4], m[k+2..k+4]);
    UpdatedCong(hc, p[k+2..k+4], m[k+2..k+4]);
    SumOfWord(p[k+2..k+4]);
    SumOfWord(m[k+2..k+4]);
    CoveredPutCsum(m, 4, w);
    SettledSum(Covered(p, 4), Covered(m, 4), Covered(PutWord(m, csum, w), 4), hc, w,
               if k % 2 == 0 then d else 256 * d, d);
  }

  /** One clamp: at an even offset the covered sum is unchanged, at an odd one it is off by 255 per unit. */
  lemma {:induction false} ClampOneCovered(p: Packet, k: nat)
    requires MssInside(p, k)
    ensures var q := ClampOne(p, L4Offset(p, 4) + 16, k);
            var excess := if Word(p, k + 2) > LIMIT then Word(p, k + 2) - LIMIT else 0;
            && SameLayout(p, q, 4) && Checksummed(q, 4)
            && Cong(Covered(q, 4), Covered(p, 4) - if k % 2 == 0 then 0 else 255 * excess)
  {
    hide Covered;
    if Word(p, k + 2) > LIMIT { LoweredCovered(p, k); }
  }

  lemma {:induction false} ScanCovered(p: Packet, end: nat, k: nat)
    requires Checksummed(p, 4) && p[9] == TCP && L4Offset(p, 4) + 20 <= k && end <= End(p, 4)
    ensures var q := Scan(p, L4Offset(p, 4) + 16, end, k);
            && SameLayout(p, q, 4) && Checksummed(q, 4)
            && Cong(Covered(q, 4), Covered(p, 4) - 255 * OddExcess(p, end, k))
    decreases end - k
  {
    hide Sum, Covered, ClampOne;
    var next, csum := Next(p, end, k), L4Offset(p, 4) + 16;
    if next.Some? {
      var n := next.value;
      if AtMss(p, end, k) {
        var m := ClampOne(p, csum, k);
        ClampOneCovered(p, k);
        Layout(p, m, 4);
        ClampOneAhead(p, csum, k, end, n);
        ScanCovered(m, end, n);
        var q := Scan(p, csum, end, k);
        Layout(m, q, 4);
        var excess := if k % 2 == 1 && Word(p, k + 2) > LIMIT then Word(p, k + 2) - LIMIT else 0;
        CongSum(Covered(q, 4), Covered(m, 4) - 255 * OddExcess(p, end, n),
                Covered(m, 4), Covered(p, 4) - 255 * excess);
      } else {
        ScanCovered(p, end, n);
      }
    }
  }

  lemma {:induction false} ClampOneAhead(p: Packet, csum: nat, k: nat, end: nat, n: nat)
    requires csum + 1 < k && k + 4 <= n <= end <= |p|
    ensures OddExcess(ClampOne(p, csum, k), end, n) == OddExcess(p, end, n)
  {
    ScanAhead(p, ClampOne(p, csum, k), end, n);
  }

  /**
   Clamping a SYN that verifies leaves one that verifies if and only if the values it
   lowers at odd offsets exceed the limit by a multiple of 257 in all; with even offsets
   only (every value two-octet aligned), always.
   */
  lemma {:induction false} ClampKeepsVerifying(p: Packet)
    requires IsSyn(p) && Checksummed(p, 4) && OptionsEnd(p) <= End(p, 4) && L4Valid(p, 4)
    ensures Checksummed(Clamped(p), 4)
    ensures L4Valid(Clamped(p), 4) <==> OddExcess(p, OptionsEnd(p), HeaderLen(p) + 20) % 257 == 0
  {
    hide Scan, OddExcess, Sum;
    var q, x: int := Clamped(p), OddExcess(p, OptionsEnd(p), HeaderLen(p) + 20);
    ScanCovered(p, OptionsEnd(p), HeaderLen(p) + 20);
    Layout(p, q, 4);
    assert Covered(p, 4) > 0 && Covered(q, 4) > 0;
    var c := Covered(q, 4);
    CongSum(c, Covered(p, 4) - 255 * x, Covered(p, 4), 0);
    assert Cong(c, -255 * x);
    Multiple257(c, x);
  }

  lemma {:induction false} Multiple257(c: int, x: int)
    requires Cong(c, -255 * x)
    ensures c % 0xFFFF == 0 <==> x % 257 == 0
  {
    var q := (c + 255 * x) / 0xFFFF;
    assert c == 0xFFFF * q - 255 * x;
    var y, r := x / 257, x % 257;
    assert 255 * x == 0xFFFF * y + 255 * r;
    assert c == -255 * r + 0xFFFF * (q - y);
    ModShift(-255 * r, q - y);
  }

  /** A bare SYN whose MSS of 1460 stands behind one NOP, so at an odd offset; its checksum is right. */
  const ODD_SYN: Packet := IP_HEADER + (TCP_PORTS + TCP_REST)

  const IP_HEADER: seq<byte> := [0x45, 0, 0, 48, 0, 0, 0, 0, 64, 6, 0, 0] + ZEROS
  const ZEROS: seq<byte> := [0, 0, 0, 0, 0, 0, 0, 0]
  const TCP_PORTS: seq<byte> := [0, 0, 0, 0, 0, 0, 0, 0, 0, 0, 0, 0]
  const TCP_REST: seq<byte> := [0x70, 2, 0, 0, 0xD6, 0xD3, 0, 0, 1, 2, 4, 5, 0xB4, 0, 0, 0]

  lemma {:induction false} SumOfEight(s: seq<byte>)
    requires |s| == 8
    ensures Sum(s) == Word(s, 0) + Word(s, 2) + Word(s, 4) + Word(s, 6)
  {
    AddWord(s, 0);
    AddWord(s, 2);
    AddWord(s, 4);
    AddWord(s, 6);
    assert s[..8] == s && s[..0] == [];
  }

  lemma {:induction false} OddSegmentSum()
    ensures Sum(TCP_PORTS + TCP_REST) == 131036
  {
    var head, tail := TCP_REST[..8], TCP_REST[8..];
    assert TCP_PORTS == seq<byte>(12, _ => 0);
    SumZero(12);
    SumOfEight(head);
    SumOfEight(tail);
    assert TCP_REST == head + tail;
    hide Sum;
    SumAppend(head, tail);
    SumAppend(TCP_PORTS, TCP_REST);
  }

  lemma {:induction false} OddSynCovered()
    ensures Checksummed(ODD_SYN, 4) && End(ODD_SYN, 4) == 48 && Covered(ODD_SYN, 4) == 131070
  {
    OddSegmentSum();
    SumZero(8);
    hide Sum;
    assert ODD_SYN[12..20] == seq<byte>(8, _ => 0) && ODD_SYN[20..48] == TCP_PORTS + TCP_REST;
  }

  lemma {:induction false} OddSynExcess()
    ensures IsSyn(ODD_SYN) && OptionsEnd(ODD_SYN) == 48 && HeaderLen(ODD_SYN) == 20
    ensures OddExcess(ODD_SYN, 48, 40) == 260
  {
    hide OddExcess;
    var p := ODD_SYN;
    assert Next(p, 48, 40) == Some(41) && Next(p, 48, 41) == Some(45) && Next(p, 48, 45) == None;
    assert !AtMss(p, 48, 40) && AtMss(p, 48, 41) && Word(p, 43) == 1460;
    ExcessAt(p, 48, 40);
    ExcessAt(p, 48, 41);
    ExcessAt(p, 48, 45);
  }

  lemma {:induction false} ExcessAt(p: Packet, end: nat, k: nat)
    requires end <= |p|
    ensures OddExcess(p, end, k) ==
            if Next(p, end, k).None? then 0
            else (if AtMss(p, end, k) && k % 2 == 1 && Word(p, k + 2) > LIMIT then Word(p, k + 2) - LIMIT else 0)
                 + OddExcess(p, end, Next(p, end, k).value)
  {}

  /** So the checksum is not always kept: the clamp corrupts this segment. */
  lemma {:induction false} OddOffsetBreaksChecksum()
    ensures IsSyn(ODD_SYN) && Checksummed(ODD_SYN, 4) && L4Valid(ODD_SYN, 4)
    ensures Checksummed(Clamped(ODD_SYN), 4) && !L4Valid(Clamped(ODD_SYN), 4)
  {
    hide Checksummed, Clamped, OddExcess, Covered;
    OddSynExcess();
    OddSynCovered();
    assert L4Valid(ODD_SYN, 4) by { hide IsSyn; }
    ClampKeepsVerifying(ODD_SYN);
  }

  lemma {:induction false} EvenOffsetsOnly(p: Packet, end: nat, k: nat)
    requires end <= |p|
    requires forall a :: a in Reached(p, end, k) ==> a % 2 == 0
    ensures OddExcess(p, end, k) == 0
    decreases end - k
  {
    var next := Next(p, end, k);
    if next.Some? {
      var ks, ahead := Reached(p, end, k), Reached(p, end, next.value);
      assert forall a :: a in ahead ==> a in ks;
      if AtMss(p, end, k) {
        assert ks[0] == k;
        assert k in ks;
      }
      EvenOffsetsOnly(p, end, next.value);
    }
  }

  /** Everything that is not an MSS value or the checksum survives, and no reached MSS is above the limit. */
  lemma {:induction false} ClampedValues(p: Packet)
    ensures !IsSyn(p) ==> Clamped(p) == p
    ensures IsSyn(p) ==>
              var ks := Reached(p, OptionsEnd(p), HeaderLen(p) + 20);
              OnlyValues(p, Clamped(p), HeaderLen(p) + 16, ks) && AllLowered(p, Clamped(p), ks)
  {
    hide Scan, OnlyValues, AllLowered, Reached;
    if IsSyn(p) {
      ScanOnlyValues(p, HeaderLen(p) + 16, OptionsEnd(p), HeaderLen(p) + 20);
      ScanLowers(p, HeaderLen(p) + 16, OptionsEnd(p), HeaderLen(p) + 20);
    }
  }

  // ---------------------------------------------------------------- in place

  method ClampInPlace(pkt: array<byte>)
    modifies pkt
    ensures pkt[..] == Clamped(old(pkt[..]))
  {
    hide Updated, Sum, Scan, ClampOne;
    if pkt.Length < 20 || pkt[0] / 16 != 4 || pkt[9] != TCP { return; }
    var p0: int := pkt[0];
    var ihl := p0 % 16 * 4;
    if pkt.Length < ihl + 20 { return; }
    if pkt[ihl+13] / 2 % 2 == 0 { return; }
    var b: int := pkt[ihl+12];
    var dataOff := b / 16 * 4;
    if dataOff < 20 || ihl + dataOff > pkt.Length { return; }
    ScanInPlace(pkt, ihl + 16, ihl + dataOff, ihl + 20);
  }

  method ScanInPlace(pkt: array<byte>, csum: nat, end: nat, start: nat)
    requires csum + 1 < start && end <= pkt.Length
    modifies pkt
    ensures pkt[..] == Scan(old(pkt[..]), csum, end, start)
  {
    hide Updated, Sum;
    var k := start;
    while k + 1 < end
      invariant start <= k
      invariant Scan(pkt[..], csum, end, k) == Scan(old(pkt[..]), csum, end, start)
      decreases end - k
    {
      var kind := pkt[k];
      if kind == 0 { break; }
      if kind == 1 {
        k := k + 1;
        continue;
      }
      var length: int := pkt[k+1];
      if length < 2 || k + length > end { break; }
      if kind == 2 && length == 4 {
        ClampOneInPlace(pkt, csum, k);
      }
      k := k + length;
    }
  }

  method ClampOneInPlace(pkt: array<byte>, csum: nat, k: nat)
    requires csum + 1 < k && k + 4 <= pkt.Length
    modifies pkt
    ensures pkt[..] == ClampOne(old(pkt[..]), csum, k)
  {
    hide Updated, Sum;
    var mss := Word(pkt[..], k + 2);
    if mss > LIMIT {
      var old_ := pkt[k+2..k+4];
      pkt[k+2], pkt[k+3] := LIMIT / 256, LIMIT % 256;
      assert pkt[..] == PutWord(old(pkt[..]), k + 2, LIMIT);
      var new_ := pkt[k+2..k+4];
      var w := CsumUpdate(Word(pkt[..], csum), old_, new_);
      ghost var m := pkt[..];
      assert old_ == old(pkt[..])[k+2..k+4] && new_ == m[k+2..k+4];
      pkt[csum], pkt[csum+1] := w / 256, w % 256;
      assert pkt[..] == PutWord(m, csum, w);
    }
  }
}
