/**
 The path supervisor (internal/client/supervisor/health.go): when data goes out and nothing
 comes back for long enough, the session moves to another local port.

 A tick carries the traffic counters and the clock; the move itself is left out.
 */
module PathWatch {
  import opened Basics

  /** A negative maxRepairs sets no ceiling. */
  datatype Limits = Limits(silenceLimit: int, repairEvery: int, maxRepairs: int)

  datatype Tick = Tick(sent: nat, recv: nat, now: Time)

  datatype State = State(
    lastSent: nat, lastRecv: nat,
    silentSince: Option<Time>, lastRepair: Option<Time>,
    tries: nat, started: bool)

  const INITIAL := State(0, 0, None, None, 0, false)

  /** silentSince after the counters are compared. */
  function Listened(s: State, t: Tick): Option<Time> {
    if t.recv > s.lastRecv then None
    else if t.sent > s.lastSent && s.silentSince.None? then Some(t.now)
    else s.silentSince
  }

  predicate Due(l: Limits, silent: Option<Time>, last: Option<Time>, tries: nat, now: Time) {
    && silent.Some? && now - silent.value >= l.silenceLimit
    && (last.None? || now - last.value >= l.repairEvery)
    && (l.maxRepairs < 0 || tries < l.maxRepairs)
  }

  /** One tick, and whether it repairs. */
  function Step(l: Limits, s: State, t: Tick): (State, bool) {
    if !s.started then (s.(lastSent := t.sent, lastRecv := t.recv, started := true), false)
    else
      var silent := Listened(s, t);
      var tries := if t.recv > s.lastRecv then 0 else s.tries;
      var u := s.(lastSent := t.sent, lastRecv := t.recv, silentSince := silent, tries := tries);
      if Due(l, silent, s.lastRepair, tries, t.now)
      then (u.(lastRepair := Some(t.now), tries := tries + 1), true) else (u, false)
  }

  class Watch {
    const limits: Limits
    var lastSent: nat
    var lastRecv: nat
    var silentSince: Option<Time>
    var lastRepair: Option<Time>
    var tries: nat
    var started: bool

    function Snapshot(): State
      reads this
    {
      State(lastSent, lastRecv, silentSince, lastRepair, tries, started)
    }

    constructor (l: Limits)
      ensures limits == l && Snapshot() == INITIAL
    {
      limits := l;
      lastSent, lastRecv, silentSince, lastRepair, tries, started := 0, 0, None, None, 0, false;
    }

    method OnTick(sent: nat, recv: nat, now: Time) returns (repair: bool)
      modifies this
      ensures (Snapshot(), repair) == Step(limits, old(Snapshot()), Tick(sent, recv, now))
    {
      if !started {
        lastSent, lastRecv, started := sent, recv, true;
        return false;
      }
      if recv > lastRecv {
        silentSince, tries := None, 0;
      } else if sent > lastSent {
        if silentSince.None? { silentSince := Some(now); }
      }
      lastSent, lastRecv := sent, recv;
      if silentSince.None? || now - silentSince.value < limits.silenceLimit { return false; }
      if lastRepair.Some? && now - lastRepair.value < limits.repairEvery { return false; }
      if limits.maxRepairs >= 0 && tries >= limits.maxRepairs { return false; }
      lastRepair := Some(now);
      tries := tries + 1;
      return true;
    }
  }

  // ---------------------------------------------------------------- what a run of ticks shows

  type Trace = seq<Tick>

  function At(t: Tick): Time {
    t.now
  }

  function Run(l: Limits, ts: Trace): State {
    if ts == [] then INITIAL else Step(l, Run(l, ts[..|ts|-1]), ts[|ts|-1]).0
  }

  /** On tick i received grew. */
  predicate Grew(ts: Trace, i: int) {
    1 <= i < |ts| && ts[i].recv > ts[i-1].recv
  }

  /** On tick i sent grew, and since then received has not. */
  predicate Unanswered(ts: Trace, i: int) {
    && 1 <= i < |ts| && ts[i].sent > ts[i-1].sent
    && forall j :: i <= j < |ts| ==> !Grew(ts, j)
  }

  /** Tick i repairs. */
  predicate Repairs(l: Limits, ts: Trace, i: int) {
    0 <= i < |ts| && Step(l, Run(l, ts[..i]), ts[i]).1
  }

  /** How many of the ticks from `a` on repair. */
  function CountFrom(l: Limits, ts: Trace, a: nat): nat {
    if |ts| <= a then 0 else CountFrom(l, ts[..|ts|-1], a) + if Repairs(l, ts, |ts|-1) then 1 else 0
  }

  /** The first tick after the latest growth of received, 0 when it never grew. */
  function Outage(ts: Trace): nat {
    if ts == [] then 0 else if Grew(ts, |ts|-1) then |ts| else Outage(ts[..|ts|-1])
  }

  /** When the first tick now unanswered came. */
  function FirstSilent(ts: Trace): Option<Time> {
    if |ts| < 2 || Grew(ts, |ts|-1) then None
    else if FirstSilent(ts[..|ts|-1]).Some? then FirstSilent(ts[..|ts|-1])
    else if ts[|ts|-1].sent > ts[|ts|-2].sent then Some(ts[|ts|-1].now) else None
  }

  ghost predicate SilenceTold(s: State, ts: Trace) {
    && s.started == (ts != [])
    && (ts != [] ==> s.lastSent == ts[|ts|-1].sent && s.lastRecv == ts[|ts|-1].recv)
    && s.silentSince == FirstSilent(ts)
  }

  ghost predicate RepairsTold(l: Limits, s: State, ts: Trace) {
    && (s.lastRepair.Some? ==> exists i :: Repairs(l, ts, i) && ts[i].now == s.lastRepair.value)
    && (forall i :: Repairs(l, ts, i) ==> s.lastRepair.Some? && ts[i].now <= s.lastRepair.value)
    && s.tries == CountFrom(l, ts, Outage(ts))
  }

  lemma {:induction false} UnansweredBefore(ts: Trace, i: int)
    requires ts != [] && i != |ts| - 1
    ensures Unanswered(ts, i) <==> Unanswered(ts[..|ts|-1], i) && !Grew(ts, |ts|-1)
  {
    var g := ts[..|ts|-1];
    assert forall j :: j < |g| ==> Grew(g, j) == Grew(ts, j);
    if Unanswered(g, i) && !Grew(ts, |ts|-1) {
      forall j | i <= j < |ts| ensures !Grew(ts, j) {
        if j < |g| { assert !Grew(g, j); }
      }
    }
  }

  lemma {:induction false} RepairsBefore(l: Limits, ts: Trace, i: int)
    requires ts != [] && i != |ts| - 1
    ensures Repairs(l, ts, i) <==> Repairs(l, ts[..|ts|-1], i)
  {
    if 0 <= i < |ts| - 1 { assert ts[..|ts|-1][..i] == ts[..i]; }
  }

  lemma {:induction false} SilentTicks(ts: Trace, i: nat)
    requires ClockForward(ts, At) && Unanswered(ts, i)
    ensures FirstSilent(ts).Some? && FirstSilent(ts).value <= ts[i].now
  {
    assert !Grew(ts, |ts|-1);
    var g := ts[..|ts|-1];
    if i < |ts| - 1 {
      UnansweredBefore(ts, i);
      SilentTicks(g, i);
    } else if FirstSilent(g).Some? {
      var k := SilentSource(g);
      ClockOrder(ts, At, k);
    }
  }

  lemma {:induction false} SilentSource(ts: Trace) returns (i: nat)
    requires FirstSilent(ts).Some?
    ensures Unanswered(ts, i) && ts[i].now == FirstSilent(ts).value
  {
    var g := ts[..|ts|-1];
    if FirstSilent(g).Some? {
      i := SilentSource(g);
      UnansweredBefore(ts, i);
    } else {
      i := |ts| - 1;
    }
  }

  lemma {:induction false} SilenceStays(l: Limits, ts: Trace)
    requires ts != [] && SilenceTold(Run(l, ts[..|ts|-1]), ts[..|ts|-1])
    ensures SilenceTold(Run(l, ts), ts)
  {
    var s, t := Run(l, ts[..|ts|-1]), ts[|ts|-1];
    assert |ts| == 1 ==> s == INITIAL;
    assert Run(l, ts) == Step(l, s, t).0;
    hide Run;
  }

  lemma {:induction false} OutageInside(ts: Trace)
    ensures Outage(ts) <= |ts|
  {
    if ts != [] { OutageInside(ts[..|ts|-1]); }
  }

  lemma {:induction false} RepairsStay(l: Limits, ts: Trace)
    requires ts != [] && ClockForward(ts, At)
    requires SilenceTold(Run(l, ts[..|ts|-1]), ts[..|ts|-1]) && RepairsTold(l, Run(l, ts[..|ts|-1]), ts[..|ts|-1])
    ensures RepairsTold(l, Run(l, ts), ts)
  {
    var n := |ts| - 1;
    var g := ts[..n];
    var s, t := Run(l, g), ts[n];
    var u := Step(l, s, t).0;
    assert Run(l, ts) == u;
    assert Repairs(l, ts, n) == Step(l, s, t).1;
    OutageInside(g);
    hide Run, Due;
    forall i ensures Repairs(l, ts, i) ==> u.lastRepair.Some? && ts[i].now <= u.lastRepair.value {
      if i != n { RepairsBefore(l, ts, i); }
      if Repairs(l, g, i) { ClockOrder(ts, At, i); }
    }
    if u.lastRepair.Some? && !Repairs(l, ts, n) {
      var i :| Repairs(l, g, i) && g[i].now == s.lastRepair.value;
      RepairsBefore(l, ts, i);
    }
  }

  lemma {:induction false} RunTold(l: Limits, ts: Trace)
    requires ClockForward(ts, At)
    ensures SilenceTold(Run(l, ts), ts) && RepairsTold(l, Run(l, ts), ts)
  {
    if ts != [] {
      RunTold(l, ts[..|ts|-1]);
      SilenceStays(l, ts);
      RepairsStay(l, ts);
    }
  }

  lemma {:induction false} LongSilence(ts: Trace, limit: int)
    requires ts != [] && ClockForward(ts, At)
    ensures FirstSilent(ts).Some? && ts[|ts|-1].now - FirstSilent(ts).value >= limit <==>
              exists i :: Unanswered(ts, i) && ts[|ts|-1].now - ts[i].now >= limit
  {
    hide FirstSilent;
    if FirstSilent(ts).Some? {
      var i := SilentSource(ts);
    }
    if i :| Unanswered(ts, i) && ts[|ts|-1].now - ts[i].now >= limit {
      SilentTicks(ts, i);
    }
  }

  lemma {:induction false} LongSinceRepair(l: Limits, s: State, ts: Trace)
    requires ts != [] && RepairsTold(l, s, ts[..|ts|-1])
    ensures s.lastRepair.None? || ts[|ts|-1].now - s.lastRepair.value >= l.repairEvery <==>
              forall i :: i != |ts| - 1 && Repairs(l, ts, i) ==> ts[|ts|-1].now - ts[i].now >= l.repairEvery
  {
    var g := ts[..|ts|-1];
    forall i | i != |ts| - 1 ensures Repairs(l, ts, i) <==> Repairs(l, g, i) { RepairsBefore(l, ts, i); }
    if s.lastRepair.Some? {
      var i :| Repairs(l, g, i) && g[i].now == s.lastRepair.value;
      assert Repairs(l, ts, i);
    }
  }

  /**
   With a clock that does not go back, a tick repairs exactly when data sent SilenceLimit ago or
   earlier is still unanswered, every earlier repair is RepairEvery old, and this outage has seen
   fewer than MaxRepairs of them.
   */
  lemma {:induction false} RepairsIff(l: Limits, ts: Trace)
    requires ClockForward(ts, At) && ts != []
    ensures var n := |ts| - 1;
            Repairs(l, ts, n) <==>
              && (exists i :: Unanswered(ts, i) && ts[n].now - ts[i].now >= l.silenceLimit)
              && (forall i :: i != n && Repairs(l, ts, i) ==> ts[n].now - ts[i].now >= l.repairEvery)
              && (l.maxRepairs < 0 || CountFrom(l, ts[..n], Outage(ts)) < l.maxRepairs)
  {
    var n := |ts| - 1;
    var g := ts[..n];
    RunTold(l, g);
    SilenceStays(l, ts);
    OutageInside(g);
    var s, t, u := Run(l, g), ts[n], Run(l, ts);
    LongSilence(ts, l.silenceLimit);
    LongSinceRepair(l, s, ts);
    assert u == Step(l, s, t).0;
    assert Repairs(l, ts, n) == Step(l, s, t).1;
    if n > 0 {
      assert u.silentSince == Listened(s, t);
      assert Grew(ts, n) <==> t.recv > s.lastRecv;
      assert CountFrom(l, g, Outage(ts)) == if Grew(ts, n) then 0 else s.tries;
    }
    hide Run, Repairs, CountFrom, Outage, Unanswered, FirstSilent;
  }

  /** Two repairs are RepairEvery apart. */
  lemma {:induction false} RepairsApart(l: Limits, ts: Trace, i: nat, j: nat)
    requires ClockForward(ts, At) && i < j < |ts| && Repairs(l, ts, i) && Repairs(l, ts, j)
    ensures ts[j].now - ts[i].now >= l.repairEvery
  {
    hide Run, Repairs, CountFrom, Unanswered, Outage;
    ClockPrefix(ts, At, j + 1);
    RepairsPrefix(l, ts, i, j + 1);
    RepairsPrefix(l, ts, j, j + 1);
    RepairsIff(l, ts[..j+1]);
  }

  lemma {:induction false} RepairsPrefix(l: Limits, ts: Trace, i: nat, n: nat)
    requires i < n <= |ts|
    ensures Repairs(l, ts[..n], i) <==> Repairs(l, ts, i)
  {
    hide Run;
    assert ts[..n][..i] == ts[..i];
  }

  /** Between two ticks on which received grew there are at most MaxRepairs repairs. */
  lemma {:induction false} FewRepairs(l: Limits, ts: Trace, a: nat)
    requires l.maxRepairs >= 0 && ClockForward(ts, At)
    requires forall i :: a <= i < |ts| ==> !Grew(ts, i)
    ensures CountFrom(l, ts, a) <= l.maxRepairs
  {
    if a < |ts| {
      var g := ts[..|ts|-1];
      assert forall i :: i < |g| ==> Grew(g, i) == Grew(ts, i);
      FewRepairs(l, g, a);
      if Repairs(l, ts, |ts|-1) {
        RepairsIff(l, ts);
        NoGrowthSince(ts, a);
        CountShrinks(l, g, Outage(ts), a);
      }
    }
  }

  lemma {:induction false} NoGrowthSince(ts: Trace, a: nat)
    requires forall i :: a <= i < |ts| ==> !Grew(ts, i)
    requires a <= |ts|
    ensures Outage(ts) <= a
  {
    if a < |ts| {
      var g := ts[..|ts|-1];
      assert forall i :: i < |g| ==> Grew(g, i) == Grew(ts, i);
      NoGrowthSince(g, a);
    } else {
      OutageInside(ts);
    }
  }

  lemma {:induction false} CountShrinks(l: Limits, ts: Trace, a: nat, b: nat)
    requires a <= b
    ensures CountFrom(l, ts, b) <= CountFrom(l, ts, a)
  {
    if |ts| > b { CountShrinks(l, ts[..|ts|-1], a, b); }
  }
}
