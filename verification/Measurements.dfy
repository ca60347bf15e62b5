/**
 Picks and measurements of the path balancer (internal/server/balance.go, internal/server/links.go):
 when three picks in a row are three measurements in a row.
 */
module Measurements {
  import opened Basics
  import opened Balancer

  /** Where `node` was last measured, -1 when it never was. */
  function Sampled(h: History, node: string): (i: int)
    ensures -1 <= i < |h|
  {
    if h == [] then -1
    else if h[|h|-1].op.Observe? && h[|h|-1].op.node == node then |h| - 1
    else Sampled(h[..|h|-1], node)
  }

  /** Where the last non-empty pick for `tag` is, -1 when there is none. */
  function LastPick(h: History, tag: string): (p: int)
    ensures -1 <= p < |h|
  {
    if h == [] then -1 else if EndsInPick(h, tag) then |h| - 1 else LastPick(h[..|h|-1], tag)
  }

  lemma {:induction false} PickKeepsStats(s: State, tag: string, c: seq<string>, now: Time)
    ensures PickStep(s, tag, c, now).0.stats == s.stats
  {
    hide Sorted, Best, Worth;
  }

  /** What is known of a node is its last measurement. */
  lemma {:induction false} SampleIs(h: History, node: string)
    requires node in Run(h).stats
    ensures var i := Sampled(h, node);
            i >= 0 && h[i].op.Observe? && h[i].op.node == node && Run(h).stats[node] == Sample(h[i].op.st, h[i].now)
  {
    hide PickStep;
    if h != [] {
      var g, last := h[..|h|-1], h[|h|-1];
      if last.op.Pick? { PickKeepsStats(Run(g), last.op.tag, last.op.candidates, last.now); }
      if !(last.op.Observe? && last.op.node == node) { SampleIs(g, node); }
    }
  }

  /** Where `node` was last forgotten, -1 when it never was. */
  function Forgotten(h: History, node: string): (i: int)
    ensures -1 <= i < |h|
  {
    if h == [] then -1
    else if h[|h|-1].op == Op.Forget(node) then |h| - 1
    else Forgotten(h[..|h|-1], node)
  }

  /** Something is known of a node exactly when it was measured and not forgotten since. */
  lemma {:induction false} KnownIff(h: History, node: string)
    ensures node in Run(h).stats <==> Sampled(h, node) > Forgotten(h, node)
  {
    hide PickStep;
    if h != [] {
      var g, last := h[..|h|-1], h[|h|-1];
      KnownIff(g, node);
      if last.op.Pick? { PickKeepsStats(Run(g), last.op.tag, last.op.candidates, last.now); }
    }
  }

  ghost predicate MeasuredBetween(h: History, a: int, b: int, node: string) {
    exists i :: a < i < b && 0 <= i < |h| && h[i].op.Observe? && h[i].op.node == node
  }

  lemma {:induction false} SampledBetween(h: History, a: nat, b: nat, node: string)
    requires a < b <= |h| && h[a].op.Pick?
    ensures if MeasuredBetween(h, a, b, node) then Sampled(h[..b], node) > a
            else Sampled(h[..b], node) == Sampled(h[..a], node)
    decreases b
  {
    var g := h[..b];
    assert g[..b-1] == h[..b-1] && g[b-1] == h[b-1];
    if b == a + 1 {
      assert g[..a] == h[..a];
    } else if !(h[b-1].op.Observe? && h[b-1].op.node == node) {
      SampledBetween(h, a, b - 1, node);
      if MeasuredBetween(h, a, b, node) {
        var i :| a < i < b && 0 <= i < |h| && h[i].op.Observe? && h[i].op.node == node;
        assert i < b - 1;
      }
    }
  }

  lemma {:induction false} StreakAtLastPick(h: History, tag: string, x: string, y: string)
    ensures var p := LastPick(h, tag);
            if p < 0 then Streak(h, tag, x, y) == 0
            else EndsInPick(h[..p+1], tag) && Streak(h, tag, x, y) == Streak(h[..p+1], tag, x, y)
  {
    hide Favours;
    if h != [] {
      var g, p := h[..|h|-1], LastPick(h, tag);
      if EndsInPick(h, tag) {
        assert h[..|h|] == h;
      } else {
        StreakAtLastPick(g, tag, x, y);
        if p >= 0 { assert g[..p+1] == h[..p+1]; }
      }
    }
  }

  /** The pick at `p` favoured `y` over `x`. */
  ghost predicate FavouredAt(h: History, tag: string, x: string, y: string, p: int) {
    0 <= p < |h| && EndsInPick(h[..p+1], tag) && Favours(h[..p+1], tag, x, y)
  }

  /** The non-empty pick for `tag` before the one that ends the history, and the one before that. */
  function Second(h: History, tag: string): (p: int)
    requires EndsInPick(h, tag)
    ensures -1 <= p < |h| - 1
  {
    LastPick(h[..|h|-1], tag)
  }

  function First(h: History, tag: string): (p: int)
    requires EndsInPick(h, tag)
    ensures -1 <= p < |h|
  {
    if Second(h, tag) < 0 then -1 else LastPick(h[..Second(h, tag)], tag)
  }

  lemma {:induction false} StreakUnfolds(h: History, tag: string, x: string, y: string)
    requires EndsInPick(h, tag) && Streak(h, tag, x, y) > 0
    ensures Favours(h, tag, x, y)
    ensures var p := LastPick(h[..|h|-1], tag);
            if p < 0 then Streak(h, tag, x, y) == 1
            else EndsInPick(h[..p+1], tag) && Streak(h, tag, x, y) == Streak(h[..p+1], tag, x, y) + 1
  {
    hide Favours;
    var g := h[..|h|-1];
    StreakAtLastPick(g, tag, x, y);
    var p := LastPick(g, tag);
    if p >= 0 { assert g[..p+1] == h[..p+1]; }
  }

  lemma {:induction false} ThreePicks(h: History, tag: string, x: string, y: string)
    requires EndsInPick(h, tag) && Streak(h, tag, x, y) >= HOLD_WINDOWS
    ensures var p1, p2, p3 := First(h, tag), Second(h, tag), |h| - 1;
            && 0 <= p1 < p2 < p3
            && FavouredAt(h, tag, x, y, p1) && FavouredAt(h, tag, x, y, p2) && FavouredAt(h, tag, x, y, p3)
  {
    hide Favours, Streak, LastPick, EndsInPick;
    var p1, p2, p3 := First(h, tag), Second(h, tag), |h| - 1;
    StreakUnfolds(h, tag, x, y);
    assert h[..p3+1] == h;
    StreakUnfolds(h[..p2+1], tag, x, y);
    assert h[..p2+1][..p2] == h[..p2];
    assert h[..p2+1][..p1+1] == h[..p1+1];
    StreakUnfolds(h[..p1+1], tag, x, y);
  }

  /** A favoured node has a measurement to show for it. */
  lemma {:induction false} FavouredIsSampled(h: History, tag: string, x: string, y: string, p: int)
    requires FavouredAt(h, tag, x, y, p)
    ensures var i := Sampled(h[..p], y);
            && 0 <= i < p && h[i].op.Observe? && h[i].op.node == y && h[p].op.Pick?
            && y in Run(h[..p]).stats && Run(h[..p]).stats[y] == Sample(h[i].op.st, h[i].now)
  {
    hide Run, Sorted, Best, Holder, ChosenAt;
    assert h[..p+1][..p] == h[..p];
    SampleIs(h[..p], y);
  }

  /**
   The three picks a switch rests on each rest on a measurement of the node switched to. These
   are three different ones if and only if it was measured between each two successive picks.
   */
  lemma {:induction false} SwitchMeasurementsIff(h: History, tag: string, x: string, y: string)
    requires ClockForward(h, At) && EndsInPick(h, tag) && x != y
    requires Holder(h[..|h|-1], tag) == Some(x) && x in h[|h|-1].op.candidates && Answered(h, tag) == y
    ensures var p1, p2, p3 := First(h, tag), Second(h, tag), |h| - 1;
            && 0 <= p1 < p2 < p3
            && FavouredAt(h, tag, x, y, p1) && FavouredAt(h, tag, x, y, p2) && FavouredAt(h, tag, x, y, p3)
            && 0 <= Sampled(h[..p1], y) <= Sampled(h[..p2], y) <= Sampled(h[..p3], y)
            && (Sampled(h[..p1], y) < Sampled(h[..p2], y) < Sampled(h[..p3], y) <==>
                MeasuredBetween(h, p1, p2, y) && MeasuredBetween(h, p2, p3, y))
  {
    hide Streak, Favours, Holder, ChosenAt, LastPick, Run, MeasuredBetween, First, Second;
    SwitchesIffEarned(h, tag, x, y);
    ThreePicks(h, tag, x, y);
    var p1, p2, p3 := First(h, tag), Second(h, tag), |h| - 1;
    FavouredIsSampled(h, tag, x, y, p1);
    FavouredIsSampled(h, tag, x, y, p2);
    FavouredIsSampled(h, tag, x, y, p3);
    SampledBetween(h, p1, p2, y);
    SampledBetween(h, p2, p3, y);
  }

  /** If `p` is a non-empty pick for `tag` and not the first, its candidate `c` was measured since the one before. */
  ghost predicate FedAt(h: History, tag: string, p: nat, c: string) {
    p < |h| && EndsInPick(h[..p+1], tag) && LastPick(h[..p], tag) >= 0 && c in h[p].op.candidates ==>
      MeasuredBetween(h, LastPick(h[..p], tag), p, c)
  }

  /** Every non-empty pick for `tag` but the first comes after new measurements of its candidates. */
  ghost predicate Fed(h: History, tag: string) {
    forall p: nat, c: string :: FedAt(h, tag, p, c)
  }

  /** Then picks do count measurement windows: each switch takes three measurements, one for every pick. */
  lemma {:induction false} FedSwitchesAreMeasured(h: History, tag: string, x: string, y: string)
    requires ClockForward(h, At) && EndsInPick(h, tag) && x != y && Fed(h, tag)
    requires Holder(h[..|h|-1], tag) == Some(x) && x in h[|h|-1].op.candidates && Answered(h, tag) == y
    ensures var p1, p2, p3 := First(h, tag), Second(h, tag), |h| - 1;
            0 <= p1 < p2 < p3 && 0 <= Sampled(h[..p1], y) < Sampled(h[..p2], y) < Sampled(h[..p3], y)
  {
    hide Streak, Holder, ChosenAt, Run, MeasuredBetween, Favours, Answered;
    SwitchMeasurementsIff(h, tag, x, y);
    var p1, p2, p3 := First(h, tag), Second(h, tag), |h| - 1;
    FavouredIsCandidate(h, tag, x, y, p2);
    FavouredIsCandidate(h, tag, x, y, p3);
    assert FedAt(h, tag, p2, y) && FedAt(h, tag, p3, y);
  }

  lemma {:induction false} FavouredIsCandidate(h: History, tag: string, x: string, y: string, p: int)
    requires FavouredAt(h, tag, x, y, p)
    ensures y in h[p].op.candidates
  {
    hide Run, Holder, ChosenAt, Sorted, Best, Worth;
    PickBasics(Run(h[..p+1][..p]).stats, h[p].op.candidates, y, h[p].now);
  }

  /** "x" is chosen, "y" measured once a cooldown later, and the tag then picked `n` times at that instant. */
  function OneSample(st: PathStats, n: nat): History {
    if n == 0 then [Event(Pick("t", ["x"]), 0), Event(Observe("y", st), SWITCH_COOLDOWN)]
    else OneSample(st, n - 1) + [Event(Pick("t", ["x", "y"]), SWITCH_COOLDOWN)]
  }

  lemma {:induction false} OnlyYIsKnown(stats: map<string, Sample>, now: Time)
    requires IsFresh(stats, "y", now) && !IsFresh(stats, "x", now)
    ensures Sorted(["x", "y"]) == ["x", "y"] && Best(stats, ["x", "y"], now) == "y" && Worth(stats, "x", "y", now)
  {
    hide Score;
    assert ["x", "y"][1..] == ["y"] && ["y"][1..] == [];
    assert ["x", "y"][..1] == ["x"] && ["x"][..0] == [];
    assert Looked(stats, ["x"], now) == Found("", 0, "x");
    assert Looked(stats, ["x", "y"], now).best == "y";
  }

  /** The table after `n` picks at the instant of the measurement. */
  predicate AfterPicks(s: State, st: PathStats, n: nat) {
    && s.stats == map["y" := Sample(st, SWITCH_COOLDOWN)] && "t" in s.choice
    && s.choice["t"] == Decision("x", 0, if n == 0 then "" else "y", n)
  }

  lemma {:induction false} OneMorePick(s: State, st: PathStats, n: nat)
    requires n <= 2 && AfterPicks(s, st, n)
    ensures var r := PickStep(s, "t", ["x", "y"], SWITCH_COOLDOWN);
            r.1 == (if n == 2 then "y" else "x") && (n < 2 ==> AfterPicks(r.0, st, n + 1))
  {
    hide Sorted, Best, Worth;
    OnlyYIsKnown(s.stats, SWITCH_COOLDOWN);
  }

  lemma {:induction false} OnlyXIsThere()
    ensures Sorted(["x"]) == ["x"] && Best(map[], ["x"], 0) == "x"
  {
    assert ["x"][1..] == [] && ["x"][..0] == [];
  }

  /** What the first picks leave. */
  lemma {:induction false} OneSampleRuns(st: PathStats, n: nat)
    requires n <= 2
    ensures AfterPicks(Run(OneSample(st, n)), st, n)
  {
    hide Sorted, Best, Worth, PickStep;
    var h := OneSample(st, n);
    if n == 0 {
      var g := h[..1];
      assert g[..0] == [] && Run([]) == State(map[], map[]);
      assert Run(g) == PickStep(State(map[], map[]), "t", ["x"], 0).0;
      FirstPickOfX();
    } else {
      OneSampleRuns(st, n - 1);
      assert h[..|h|-1] == OneSample(st, n - 1);
      OneMorePick(Run(OneSample(st, n - 1)), st, n - 1);
    }
  }

  lemma {:induction false} FirstPickOfX()
    ensures PickStep(State(map[], map[]), "t", ["x"], 0).0 == State(map[], map["t" := Decision("x", 0, "", 0)])
  {
    hide Sorted, Best, Worth;
    OnlyXIsThere();
  }

  lemma {:induction false} OneSampleAnswers(st: PathStats, n: nat)
    requires 1 <= n <= 3
    ensures var h := OneSample(st, n); EndsInPick(h, "t") && Answered(h, "t") == if n == 3 then "y" else "x"
  {
    hide Run, PickStep, AfterPicks;
    var h := OneSample(st, n);
    assert h[..|h|-1] == OneSample(st, n - 1);
    OneSampleRuns(st, n - 1);
    OneMorePick(Run(OneSample(st, n - 1)), st, n - 1);
  }

  lemma {:induction false} OnePickMore(h: History, ev: Event)
    requires ClockForward(h, At) && h != [] && h[|h|-1].now <= ev.now && ev.op.Pick?
    ensures ClockForward(h + [ev], At) && Sampled(h + [ev], "y") == Sampled(h, "y")
  {
    assert (h + [ev])[..|h|] == h;
  }

  lemma {:induction false} TwoEvents(e: Event, f: Event)
    requires e.now <= f.now && f.op.Observe? && f.op.node == "y"
    ensures ClockForward([e, f], At) && Sampled([e, f], "y") == 1
  {
    assert [e, f][..1] == [e] && [e][..0] == [];
  }

  lemma {:induction false} OneSampleIsOne(st: PathStats, n: nat)
    ensures var h := OneSample(st, n);
            h != [] && ClockForward(h, At) && Sampled(h, "y") == 1 && h[|h|-1].now == SWITCH_COOLDOWN
  {
    hide ClockForward, Sampled;
    if n > 0 {
      OneSampleIsOne(st, n - 1);
      OnePickMore(OneSample(st, n - 1), Event(Pick("t", ["x", "y"]), SWITCH_COOLDOWN));
    } else {
      TwoEvents(Event(Pick("t", ["x"]), 0), Event(Observe("y", st), SWITCH_COOLDOWN));
    }
  }

  /** So one measurement is enough: three picks at one instant answer "x", "x" and "y", all on the same sample. */
  lemma {:induction false} OneSampleSwitches(st: PathStats)
    ensures forall n :: 1 <= n <= 3 ==>
              && ClockForward(OneSample(st, n), At) && EndsInPick(OneSample(st, n), "t")
              && Answered(OneSample(st, n), "t") == (if n == 3 then "y" else "x")
              && Sampled(OneSample(st, n), "y") == 1
  {
    forall n | 1 <= n <= 3
      ensures ClockForward(OneSample(st, n), At) && EndsInPick(OneSample(st, n), "t")
      ensures Answered(OneSample(st, n), "t") == (if n == 3 then "y" else "x") && Sampled(OneSample(st, n), "y") == 1
    {
      OneSampleAnswers(st, n);
      OneSampleIsOne(st, n);
    }
  }
}
