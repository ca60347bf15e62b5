/**
 The circular search both address pools use (alloc in internal/client/fakeip/pool.go and in
 internal/client/nat46/table.go): try the cursor, advance it, start again at the bottom.
 Addresses are uint32 values and the cursor's increment wraps like one.
 */
module CircularAlloc {
  import opened Basics

  const WRAP := 0x1_0000_0000

  /** `next++`, and back to `lo` once it is above `hi`. */
  function Succ(lo: nat, hi: nat, a: nat): nat {
    var n := (a + 1) % WRAP;
    if n > hi then lo else n
  }

  predicate InPool(lo: nat, hi: nat, a: nat) {
    lo <= a <= hi
  }

  /** The cursor never leaves the pool. */
  predicate Closed(lo: nat, hi: nat) {
    lo <= hi < WRAP && (hi < WRAP - 1 || lo == 0)
  }

  /** That is so exactly when the pool does not end at the last address, or is all of them. */
  lemma {:induction false} ClosedIff(lo: nat, hi: nat)
    requires lo <= hi < WRAP
    ensures (forall a :: InPool(lo, hi, a) ==> InPool(lo, hi, Succ(lo, hi, a))) <==> Closed(lo, hi)
  {
    if hi == WRAP - 1 && lo > 0 { assert InPool(lo, hi, hi) && !InPool(lo, hi, Succ(lo, hi, hi)); }
  }

  /** Where the cursor stands after `k` advances. */
  function At(lo: nat, hi: nat, start: nat, k: nat): nat
    decreases k
  {
    if k == 0 then start else At(lo, hi, Succ(lo, hi, start), k - 1)
  }

  lemma {:induction false} SuccIs(lo: nat, hi: nat, a: nat)
    requires Closed(lo, hi) && InPool(lo, hi, a)
    ensures Succ(lo, hi, a) == if a < hi then a + 1 else lo
  {}

  lemma {:induction false} AtIs(lo: nat, hi: nat, start: nat, k: nat)
    requires Closed(lo, hi) && InPool(lo, hi, start) && k <= hi - lo + 1
    ensures At(lo, hi, start, k) == if start + k <= hi then start + k else start + k - (hi - lo + 1)
    decreases k
  {
    if k > 0 {
      SuccIs(lo, hi, start);
      hide Succ;
      AtIs(lo, hi, Succ(lo, hi, start), k - 1);
    }
  }

  /** From any cursor, one round meets every address of the pool exactly once and ends where it began. */
  lemma {:induction false} OneRound(lo: nat, hi: nat, start: nat, a: nat)
    requires Closed(lo, hi) && InPool(lo, hi, start) && InPool(lo, hi, a)
    ensures exists k :: 0 <= k <= hi - lo && At(lo, hi, start, k) == a
    ensures forall i, j :: 0 <= i < j <= hi - lo ==> At(lo, hi, start, i) != At(lo, hi, start, j)
    ensures At(lo, hi, start, hi - lo + 1) == start
  {
    var size := hi - lo + 1;
    var k := if a >= start then a - start else a + size - start;
    AtIs(lo, hi, start, k);
    AtIs(lo, hi, start, size);
    forall i, j | 0 <= i < j <= hi - lo ensures At(lo, hi, start, i) != At(lo, hi, start, j) {
      AtIs(lo, hi, start, i);
      AtIs(lo, hi, start, j);
    }
  }

  datatype Search = Search(found: Option<nat>, cursor: nat)

  /** At most `steps` candidates from `next` on; `live` are the addresses with an unexpired mapping. */
  function Scan(lo: nat, hi: nat, next: nat, live: set<nat>, steps: nat): Search
    decreases steps
  {
    if steps == 0 then Search(None, next)
    else if next !in live then Search(Some(next), Succ(lo, hi, next))
    else Scan(lo, hi, Succ(lo, hi, next), live, steps - 1)
  }

  /** One whole round. */
  function Pick(lo: nat, hi: nat, next: nat, live: set<nat>): Search
    requires lo <= hi
  {
    Scan(lo, hi, next, live, hi - lo + 1)
  }

  /** The first `k` candidates are live. */
  ghost predicate LiveBefore(lo: nat, hi: nat, next: nat, live: set<nat>, k: nat) {
    forall j :: 0 <= j < k ==> At(lo, hi, next, j) in live
  }

  /** Candidate `k` is the first that is not live, and the cursor stands behind it. */
  ghost predicate FirstFree(lo: nat, hi: nat, next: nat, live: set<nat>, s: Search, k: nat) {
    && s == Search(Some(At(lo, hi, next, k)), At(lo, hi, next, k + 1))
    && s.found.value !in live && LiveBefore(lo, hi, next, live, k)
  }

  lemma {:induction false} LiveBeforeMore(lo: nat, hi: nat, next: nat, live: set<nat>, k: nat)
    requires next in live && LiveBefore(lo, hi, Succ(lo, hi, next), live, k)
    ensures LiveBefore(lo, hi, next, live, k + 1)
  {
    forall j | 0 <= j < k + 1 ensures At(lo, hi, next, j) in live {
      if j > 0 { assert At(lo, hi, next, j) == At(lo, hi, Succ(lo, hi, next), j - 1); }
    }
  }

  lemma {:induction false} ScanFinds(lo: nat, hi: nat, next: nat, live: set<nat>, steps: nat)
    ensures var s := Scan(lo, hi, next, live, steps);
            if s.found.Some? then exists k :: 0 <= k < steps && FirstFree(lo, hi, next, live, s, k)
            else s.cursor == At(lo, hi, next, steps) && LiveBefore(lo, hi, next, live, steps)
    decreases steps
  {
    if steps > 0 {
      var s, n := Scan(lo, hi, next, live, steps), Succ(lo, hi, next);
      if next !in live {
        assert At(lo, hi, next, 1) == At(lo, hi, n, 0) == n;
        assert FirstFree(lo, hi, next, live, s, 0);
      } else {
        ScanFinds(lo, hi, n, live, steps - 1);
        if s.found.Some? {
          var k :| 0 <= k < steps - 1 && FirstFree(lo, hi, n, live, s, k);
          LiveBeforeMore(lo, hi, next, live, k);
          assert FirstFree(lo, hi, next, live, s, k + 1);
        } else {
          LiveBeforeMore(lo, hi, next, live, steps - 1);
        }
      }
    }
  }

  /**
   A round succeeds exactly when some address of the pool is not live; then it gives the
   first such one in cursor order, and the cursor stands behind it. A failure moves nothing.
   */
  lemma {:induction false} PickFinds(lo: nat, hi: nat, next: nat, live: set<nat>)
    requires Closed(lo, hi) && InPool(lo, hi, next)
    ensures var s := Pick(lo, hi, next, live);
            && InPool(lo, hi, s.cursor)
            && (s.found.None? <==> forall a :: InPool(lo, hi, a) ==> a in live)
            && (s.found.None? ==> s.cursor == next)
            && (s.found.Some? ==> InPool(lo, hi, s.found.value) && s.found.value !in live
                                  && exists k :: 0 <= k <= hi - lo && FirstFree(lo, hi, next, live, s, k))
  {
    var size := hi - lo + 1;
    ScanFinds(lo, hi, next, live, size);
    var s := Pick(lo, hi, next, live);
    OneRound(lo, hi, next, next);
    if s.found.Some? {
      var k :| 0 <= k < size && FirstFree(lo, hi, next, live, s, k);
      AtIs(lo, hi, next, k);
      AtIs(lo, hi, next, k + 1);
    } else {
      forall a | InPool(lo, hi, a) ensures a in live {
        OneRound(lo, hi, next, a);
        var k :| 0 <= k <= hi - lo && At(lo, hi, next, k) == a;
      }
    }
  }
}
