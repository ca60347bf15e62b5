/**
 One's-complement checksums over octet sequences (RFC 1071) and their incremental
 update (RFC 1624, section 3), as used by the client NAT and by the MSS clamp.
 */
module Checksum {
  import opened Basics

  /** Contribution of position `i`: the high octet of a word at even positions, the low at odd. */
  function Weight(i: int): int {
    if i % 2 == 0 then 256 else 1
  }

  /** Plain sum of the big-endian 16-bit words of `s`; an odd tail is padded with zero. */
  function Sum(s: seq<byte>): (n: int)
    ensures n >= 0
  {
    if s == [] then 0 else Sum(s[..|s|-1]) + Weight(|s|-1) * s[|s|-1]
  }

  function Word(s: seq<byte>, i: nat): (w: int)
    requires i + 1 < |s|
    ensures 0 <= w <= 0xFFFF
  {
    var hi: int, lo: int := s[i], s[i+1];
    256 * hi + lo
  }

  function PutWord(s: seq<byte>, i: nat, w: int): (t: seq<byte>)
    requires i + 1 < |s| && 0 <= w <= 0xFFFF
    ensures |t| == |s| && Word(t, i) == w
    ensures forall j :: 0 <= j < |s| && j != i && j != i + 1 ==> t[j] == s[j]
  {
    s[i := w / 256][i+1 := w % 256]
  }

  /** Carries folded back in until the sum fits 16 bits: the representative of x in 1..65535. */
  function Fold(x: nat): (r: nat)
    ensures r <= 0xFFFF
    ensures r == 0xFFFF <==> x > 0 && x % 0xFFFF == 0
    ensures r == 0 <==> x == 0
  {
    if x == 0 then 0 else (x - 1) % 0xFFFF + 1
  }

  /** `sum & 0xFFFF` plus `sum >> 16`, until nothing is left above 16 bits. */
  method FoldCarries(sum: uint32) returns (r: uint32)
    ensures r == Fold(sum)
  {
    r := sum;
    while r > 0xFFFF
      invariant Fold(r) == Fold(sum)
      decreases r
    {
      FoldOnce(r);
      r := r % 0x10000 + r / 0x10000;
    }
  }

  lemma {:induction false} FoldOnce(x: int)
    requires x > 0xFFFF
    ensures 0 < x % 0x10000 + x / 0x10000 < x
    ensures Fold(x % 0x10000 + x / 0x10000) == Fold(x)
  {
    var y, q := x % 0x10000 + x / 0x10000, x / 0x10000;
    assert x - 1 == (y - 1) + 0xFFFF * q;
    ModShift(y - 1, q);
  }

  lemma {:induction false} ModShift(a: int, q: int)
    ensures (a + 0xFFFF * q) % 0xFFFF == a % 0xFFFF
  {
    var d := a / 0xFFFF;
    assert a + 0xFFFF * q == 0xFFFF * (d + q) + a % 0xFFFF;
  }

  // ------------------------------------------------------------------ sums

  lemma {:induction false} SumAppend(a: seq<byte>, b: seq<byte>)
    requires |a| % 2 == 0
    ensures Sum(a + b) == Sum(a) + Sum(b)
  {
    if b == [] {
      assert a + b == a;
    } else {
      var b' := b[..|b|-1];
      SumAppend(a, b');
      var n := |a + b| - 1;
      assert (a + b)[..n] == a + b' && (a + b)[n] == b[|b|-1];
      assert Weight(n) == Weight(|b|-1);
    }
  }

  lemma {:induction false} SumBound(s: seq<byte>)
    ensures Sum(s) <= 255 * 256 * ((|s| + 1) / 2) + 255 * (|s| / 2)
  {
    if s != [] { SumBound(s[..|s|-1]); }
  }

  lemma {:induction false} SumUpdate(s: seq<byte>, i: nat, b: byte)
    requires i < |s|
    ensures Sum(s[i := b]) == Sum(s) + Weight(i) * (b - s[i])
  {
    var n := |s| - 1;
    if i == n {
      assert s[i := b][..n] == s[..n];
    } else {
      assert s[i := b][..n] == s[..n][i := b];
      SumUpdate(s[..n], i, b);
    }
  }

  /** Overwriting the word at an even position moves the sum by the difference of the words. */
  lemma {:induction false} SumPutWord(s: seq<byte>, i: nat, w: int)
    requires i % 2 == 0 && i + 1 < |s| && 0 <= w <= 0xFFFF
    ensures Sum(PutWord(s, i, w)) == Sum(s) - Word(s, i) + w
  {
    SumUpdate(s, i, w / 256);
    SumUpdate(s[i := w / 256], i + 1, w % 256);
  }

  /** Overwriting a word at an odd position moves it by the difference with the octets swapped. */
  lemma {:induction false} SumPutWordOdd(s: seq<byte>, i: nat, w: int)
    requires i % 2 == 1 && i + 1 < |s| && 0 <= w <= 0xFFFF
    ensures (Sum(PutWord(s, i, w)) - (Sum(s) + 256 * (w - Word(s, i)))) % 0xFFFF == 0
  {
    SumUpdate(s, i, w / 256);
    SumUpdate(s[i := w / 256], i + 1, w % 256);
    var hi, lo := w / 256 - s[i], w % 256 - s[i+1];
    assert Sum(PutWord(s, i, w)) == Sum(s) + hi + 256 * lo;
    assert w - Word(s, i) == 256 * hi + lo;
    assert Sum(PutWord(s, i, w)) - (Sum(s) + 256 * (w - Word(s, i))) == 0 + 0xFFFF * (-hi);
    ModShift(0, -hi);
  }

  // ---------------------------------------------------- the incremental update

  /** HC' = ~(~HC + ~m + m') over all the replaced words. */
  function Updated(hc: int, old_: seq<byte>, new_: seq<byte>): (r: int)
    requires 0 <= hc <= 0xFFFF && |old_| == |new_| && |old_| % 2 == 0
    ensures 0 <= r <= 0xFFFF
  {
    WordsBound(old_);
    0xFFFF - Fold((0xFFFF - hc) + (0xFFFF * (|old_| / 2) - Sum(old_)) + Sum(new_))
  }

  lemma {:induction false} WordsBound(s: seq<byte>)
    requires |s| % 2 == 0
    ensures Sum(s) <= 0xFFFF * (|s| / 2)
  {
    SumBound(s);
  }

  /** The loop over the replaced words; no intermediate sum leaves uint32. */
  method CsumUpdate(hc: int, old_: seq<byte>, new_: seq<byte>) returns (r: int)
    requires 0 <= hc <= 0xFFFF && |old_| == |new_| && |old_| % 2 == 0
    requires |old_| <= 16    // an address or a single option word: all the callers pass
    ensures r == Updated(hc, old_, new_)
  {
    var sum: uint32 := 0xFFFF - hc;
    var i := 0;
    while i + 1 < |old_|
      invariant 0 <= i <= |old_| && i % 2 == 0
      invariant sum == (0xFFFF - hc) + (0xFFFF * (i / 2) - Sum(old_[..i])) + Sum(new_[..i])
      invariant sum <= 0xFFFF * (1 + i)
    {
      AddWord(old_, i);
      AddWord(new_, i);
      sum := sum + (0xFFFF - Word(old_, i));
      sum := sum + Word(new_, i);
      i := i + 2;
    }
    assert old_[..i] == old_ && new_[..i] == new_;
    sum := FoldCarries(sum);
    r := 0xFFFF - sum;
  }

  lemma {:induction false} AddWord(s: seq<byte>, i: nat)
    requires i % 2 == 0 && i + 1 < |s|
    ensures Sum(s[..i+2]) == Sum(s[..i]) + Word(s, i)
  {
    assert s[..i+2][..i+1] == s[..i+1] && s[..i+1][..i] == s[..i];
  }

  /** A block of data with its checksum field verifies. `rest` sums everything but the field. */
  predicate Verifies(rest: nat, hc: nat) {
    Fold(rest + hc) == 0xFFFF
  }

  /** The checksum a sender computes from scratch. */
  function Recomputed(rest: nat): int {
    0xFFFF - Fold(rest)
  }

  /**
   The update is the full recomputation, whatever words are replaced, as long as the
   data is not all zero (a pseudo-header, which carries the protocol, never is).
   */
  lemma {:induction false} UpdateIsRecomputation(base: nat, old_: seq<byte>, new_: seq<byte>)
    requires |old_| == |new_| && |old_| % 2 == 0 && |old_| > 0
    requires base + Sum(new_) > 0
    ensures Updated(Recomputed(base + Sum(old_)), old_, new_) == Recomputed(base + Sum(new_))
  {
    WordsBound(old_);
    var before, k := base + Sum(old_), |old_| / 2;
    var x, y := Fold(before) + (0xFFFF * k - Sum(old_)) + Sum(new_), base + Sum(new_);
    var q := if before == 0 then 0 else (before - 1) / 0xFFFF;
    assert before == Fold(before) + 0xFFFF * q;
    assert y - 1 == (x - 1) + 0xFFFF * (q - k);
    if x > 0 { ModShift(x - 1, q - k); }
  }

  /** Updating keeps a good checksum good and a bad one bad. */
  lemma {:induction false} UpdateKeepsVerdict(base: nat, hc: int, old_: seq<byte>, new_: seq<byte>)
    requires 0 <= hc <= 0xFFFF && |old_| == |new_| && |old_| % 2 == 0
    requires base > 0
    ensures Verifies(base + Sum(new_), Updated(hc, old_, new_)) <==> Verifies(base + Sum(old_), hc)
    ensures Updated(hc, old_, new_) == 0 ==>
            (Verifies(base + Sum(new_), 0xFFFF) <==> Verifies(base + Sum(old_), hc))
  {
    WordsBound(old_);
    var k := |old_| / 2;
    var x := (0xFFFF - hc) + (0xFFFF * k - Sum(old_)) + Sum(new_);
    var q := if x == 0 then 0 else (x - 1) / 0xFFFF;
    assert x == Fold(x) + 0xFFFF * q;
    var a, b := base + Sum(old_) + hc, base + Sum(new_) + Updated(hc, old_, new_);
    assert b == a + 0xFFFF * (q - k);
    ModShift(a, q - k);
    ModShift(b, 1);
  }
}
