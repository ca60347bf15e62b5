/**
 The path balancer (internal/server/balance.go): which node serves an `auto:` tag. It keeps
 its choice and leaves it only for an advantage that lasts, and not too often.

 Durations are nanoseconds; the loss share is a real number and rounding is left out.
 */
module Balancer {
  import opened Basics
  import opened GoStrings

  const LOSS_PENALTY := 2_000_000_000
  const MIN_GAIN := 5_000_000
  const HOLD_WINDOWS := 3
  const SWITCH_COOLDOWN := 300_000_000_000
  const STATS_STALE := 120_000_000_000

  datatype PathStats = PathStats(srtt: int, rttVar: int, loss: real)

  datatype Sample = Sample(stats: PathStats, at: Time)

  datatype Decision = Decision(node: string, since: Time, challenger: string, wins: nat)

  datatype State = State(stats: map<string, Sample>, choice: map<string, Decision>)

  // ---------------------------------------------------------------- scores

  /** Conversion of a float to an integer drops the fraction. */
  function Truncated(x: real): int {
    if x >= 0.0 then x.Floor else -(-x).Floor
  }

  function Score(p: PathStats): int {
    p.srtt + 2 * p.rttVar + Truncated(p.loss * LOSS_PENALTY as real)
  }

  predicate IsFresh(stats: map<string, Sample>, node: string, now: Time) {
    node in stats && now - stats[node].at <= STATS_STALE
  }

  function ScoreOf(stats: map<string, Sample>, node: string): int
    requires node in stats
  {
    Score(stats[node].stats)
  }

  /** Is `cand` so much better than `cur`? By a fifth, and by MIN_GAIN at least; nothing known of `cur` will do. */
  predicate Worth(stats: map<string, Sample>, cur: string, cand: string, now: Time) {
    IsFresh(stats, cand, now) &&
    (!IsFresh(stats, cur, now) ||
     (5 * ScoreOf(stats, cand) < 4 * ScoreOf(stats, cur) && ScoreOf(stats, cur) - ScoreOf(stats, cand) >= MIN_GAIN))
  }

  /**
   What each part of a score costs: a millisecond of delay one, of its spread two, and a path that
   loses everything two seconds more than one that loses nothing.
   */
  lemma {:induction false} ScoreWeighs(p: PathStats, d: int)
    requires 0.0 <= p.loss <= 1.0
    ensures Score(p.(srtt := p.srtt + d)) == Score(p) + d
    ensures Score(p.(rttVar := p.rttVar + d)) == Score(p) + 2 * d
    ensures Score(PathStats(p.srtt, p.rttVar, 0.0)) == p.srtt + 2 * p.rttVar
    ensures Score(p.(loss := 1.0)) == Score(p.(loss := 0.0)) + 2_000_000_000
    ensures Score(p.(loss := 0.0)) <= Score(p) <= Score(p.(loss := 1.0))
  {
    assert 0.0 <= p.loss * LOSS_PENALTY as real <= LOSS_PENALTY as real;
  }

  /** Loss within a nanosecond of what it should cost. */
  lemma {:induction false} LossCosts(p: PathStats)
    requires p.loss >= 0.0
    ensures p.loss * 2_000_000_000.0 - 1.0 < (Score(p) - Score(p.(loss := 0.0))) as real <= p.loss * 2_000_000_000.0
  {}

  /**
   Worth leaving: the other was measured within two minutes, and is a fifth and five milliseconds
   cheaper, or nothing is known of the one chosen.
   */
  lemma {:induction false} WorthIff(stats: map<string, Sample>, cur: string, cand: string, now: Time)
    ensures var known := node => node in stats && now - stats[node].at <= 120_000_000_000;
            Worth(stats, cur, cand, now) <==>
              && known(cand)
              && (known(cur) ==>
                    var x, y := Score(stats[cur].stats), Score(stats[cand].stats);
                    y as real < 0.8 * x as real && x - y >= 5_000_000)
  {
    hide Score;
  }

  // ---------------------------------------------------------------- candidates in order

  function Insert(x: string, s: seq<string>): seq<string> {
    if s == [] || StrLe(x, s[0]) then [x] + s else [s[0]] + Insert(x, s[1..])
  }

  /** sort.Strings. */
  function Sorted(s: seq<string>): seq<string> {
    if s == [] then [] else Insert(s[0], Sorted(s[1..]))
  }

  predicate Ascending(s: seq<string>) {
    |s| >= 2 ==> StrLe(s[0], s[1]) && Ascending(s[1..])
  }

  lemma {:induction false} InsertKeeps(x: string, s: seq<string>)
    ensures multiset(Insert(x, s)) == multiset{x} + multiset(s)
    ensures Ascending(s) ==> Ascending(Insert(x, s))
  {
    if s != [] {
      assert s == [s[0]] + s[1..];
      if !StrLe(x, s[0]) {
        StrLeTotal(x, s[0]);
        InsertKeeps(x, s[1..]);
        assert Insert(x, s)[1..] == Insert(x, s[1..]);
      } else {
        assert ([x] + s)[1..] == s;
      }
    }
  }

  lemma {:induction false} SortedIsSorted(s: seq<string>)
    ensures multiset(Sorted(s)) == multiset(s) && Ascending(Sorted(s))
    ensures forall x :: x in Sorted(s) <==> x in s
  {
    if s != [] {
      assert s == [s[0]] + s[1..];
      SortedIsSorted(s[1..]);
      InsertKeeps(s[0], Sorted(s[1..]));
    }
    forall x ensures x in Sorted(s) <==> x in s {
      assert x in multiset(Sorted(s)) <==> x in multiset(s);
    }
  }

  lemma {:induction false} FirstIsLeast(s: seq<string>)
    requires Ascending(s) && s != []
    ensures forall x :: x in s ==> StrLe(s[0], x)
  {
    StrLeTotal(s[0], s[0]);
    if |s| >= 2 {
      FirstIsLeast(s[1..]);
      forall x | x in s ensures StrLe(s[0], x) {
        if x != s[0] {
          assert x in s[1..];
          StrLeTrans(s[0], s[1], x);
        }
      }
    }
  }

  lemma {:induction false} TailBag(a: seq<string>)
    requires a != []
    ensures multiset(a[1..]) == multiset(a) - multiset{a[0]}
  {
    assert a == [a[0]] + a[1..];
  }

  lemma {:induction false} SameHead(a: seq<string>, b: seq<string>)
    requires Ascending(a) && Ascending(b) && a != [] && b != [] && a[0] in b && b[0] in a
    ensures a[0] == b[0]
  {
    FirstIsLeast(a);
    FirstIsLeast(b);
    StrLeTotal(a[0], b[0]);
  }

  /** Two ascending lists of the same names are the same list. */
  lemma {:induction false} AscendingUnique(a: seq<string>, b: seq<string>)
    requires Ascending(a) && Ascending(b) && multiset(a) == multiset(b)
    ensures a == b
  {
    if a == [] {
      assert |b| == |multiset(b)| == 0;
    } else {
      assert |b| == |multiset(b)| == |multiset(a)| == |a|;
      assert a[0] in multiset(b) && b[0] in multiset(a);
      SameHead(a, b);
      assert Ascending(a[1..]) && Ascending(b[1..]);
      hide Ascending, StrLe;
      TailBag(a);
      TailBag(b);
      AscendingUnique(a[1..], b[1..]);
    }
  }

  // ---------------------------------------------------------------- the best candidate

  datatype Found = Found(best: string, score: int, fallback: string)

  /** bestLocked's variables after the candidates of `s`. */
  function Looked(stats: map<string, Sample>, s: seq<string>, now: Time): Found {
    if s == [] then Found("", 0, "")
    else
      var f, node := Looked(stats, s[..|s|-1], now), s[|s|-1];
      if !IsFresh(stats, node, now) then f.(fallback := if f.fallback == "" then node else f.fallback)
      else if f.best == "" || ScoreOf(stats, node) < f.score then f.(best := node, score := ScoreOf(stats, node))
      else f
  }

  function Best(stats: map<string, Sample>, s: seq<string>, now: Time): string {
    var f := Looked(stats, s, now);
    if f.best == "" then f.fallback else f.best
  }

  method BestOf(stats: map<string, Sample>, s: seq<string>, now: Time) returns (b: string)
    ensures b == Best(stats, s, now)
  {
    var best, bestScore, fallback := "", 0, "";
    for i := 0 to |s|
      invariant Looked(stats, s[..i], now) == Found(best, bestScore, fallback)
    {
      assert s[..i+1][..i] == s[..i];
      var node := s[i];
      if node !in stats || now - stats[node].at > STATS_STALE {
        if fallback == "" { fallback := node; }
      } else {
        var score := Score(stats[node].stats);
        if best == "" || score < bestScore { best, bestScore := node, score; }
      }
    }
    assert s[..|s|] == s;
    return if best == "" then fallback else best;
  }

  lemma {:induction false} LookedFinds(stats: map<string, Sample>, s: seq<string>, now: Time)
    ensures var f := Looked(stats, s, now);
            && (f.best != "" ==> f.best in s && IsFresh(stats, f.best, now) && f.score == ScoreOf(stats, f.best))
            && (f.fallback != "" ==> f.fallback in s && !IsFresh(stats, f.fallback, now))
            && ("" !in s ==>
                  && (f.best != "" ==> forall x :: x in s && IsFresh(stats, x, now) ==> f.score <= ScoreOf(stats, x))
                  && (f.best == "" ==> forall x :: x in s ==> !IsFresh(stats, x, now))
                  && (f.fallback == "" ==> forall x :: x in s ==> IsFresh(stats, x, now)))
  {
    hide Score;
    if s != [] {
      var g, node := s[..|s|-1], s[|s|-1];
      LookedFinds(stats, g, now);
      assert s == g + [node];
      assert forall x :: x in s ==> x in g || x == node;
      assert forall x :: x in g ==> x in s;
    }
  }

  /** The best is one of the candidates; when anything is measured it is measured, and none is cheaper. */
  lemma {:induction false} BestIsBest(stats: map<string, Sample>, s: seq<string>, now: Time)
    requires s != []
    ensures Best(stats, s, now) in s
    ensures "" !in s ==>
              if exists x :: x in s && IsFresh(stats, x, now)
              then IsFresh(stats, Best(stats, s, now), now) &&
                   forall x :: x in s && IsFresh(stats, x, now) ==>
                     ScoreOf(stats, Best(stats, s, now)) <= ScoreOf(stats, x)
              else Best(stats, s, now) != ""
  {
    hide Score;
    LookedFinds(stats, s, now);
    hide Looked;
    assert s[0] in s;
  }

  /** Among equals the first by name is taken, and so it is when nothing is measured. */
  lemma {:induction false} LookedFirst(stats: map<string, Sample>, s: seq<string>, now: Time)
    requires Ascending(s) && "" !in s
    ensures var f := Looked(stats, s, now);
            && (f.best != "" ==> forall x :: x in s && IsFresh(stats, x, now) && ScoreOf(stats, x) == f.score ==>
                                   StrLe(f.best, x))
            && (f.fallback != "" ==> forall x :: x in s && !IsFresh(stats, x, now) ==> StrLe(f.fallback, x))
  {
    hide Score, StrLe;
    if s != [] {
      var g, node := s[..|s|-1], s[|s|-1];
      assert s == g + [node];
      AscendingPrefix(s);
      LookedFirst(stats, g, now);
      LookedFinds(stats, g, now);
      StrLeTotal(node, node);
      forall x | x in g ensures StrLe(x, node) { LastIsMost(s, x); }
    }
  }

  lemma {:induction false} AscendingPrefix(s: seq<string>)
    requires Ascending(s) && s != []
    ensures Ascending(s[..|s|-1])
  {
    hide StrLe;
    if |s| > 2 {
      AscendingPrefix(s[1..]);
      assert s[..|s|-1][1..] == s[1..][..|s|-2];
    }
  }

  lemma {:induction false} LastIsMost(s: seq<string>, x: string)
    requires Ascending(s) && x in s
    ensures StrLe(x, s[|s|-1])
  {
    if x == s[0] {
      FirstIsLeast(s);
      assert s[|s|-1] in s;
    } else {
      LastIsMost(s[1..], x);
    }
  }

  lemma {:induction false} BestIsFirst(stats: map<string, Sample>, s: seq<string>, now: Time, x: string)
    requires Ascending(s) && "" !in s && x in s
    requires IsFresh(stats, x, now) <==> IsFresh(stats, Best(stats, s, now), now)
    requires IsFresh(stats, x, now) ==> ScoreOf(stats, x) == ScoreOf(stats, Best(stats, s, now))
    ensures StrLe(Best(stats, s, now), x)
  {
    hide Score, Ascending, StrLe;
    LookedFirst(stats, s, now);
    LookedFinds(stats, s, now);
    hide Looked;
  }

  // ---------------------------------------------------------------- one pick

  function PickStep(s: State, tag: string, candidates: seq<string>, now: Time): (State, string) {
    if candidates == [] then (s, "")
    else
      var sorted := Sorted(candidates);
      var best := Best(s.stats, sorted, now);
      var chosen := Decision(best, now, "", 0);
      if tag !in s.choice || s.choice[tag].node !in sorted then (s.(choice := s.choice[tag := chosen]), best)
      else
        var cur := s.choice[tag];
        var reset := cur.(challenger := "", wins := 0);
        if best == "" || best == cur.node then (s.(choice := s.choice[tag := reset]), cur.node)
        else if now - cur.since < SWITCH_COOLDOWN then (s, cur.node)
        else if !Worth(s.stats, cur.node, best, now) then (s.(choice := s.choice[tag := reset]), cur.node)
        else if cur.challenger != best then
          (s.(choice := s.choice[tag := cur.(challenger := best, wins := 1)]), cur.node)
        else if cur.wins + 1 < HOLD_WINDOWS then
          (s.(choice := s.choice[tag := cur.(wins := cur.wins + 1)]), cur.node)
        else (s.(choice := s.choice[tag := chosen]), best)
  }

  lemma {:induction false} SameSorted(a: seq<string>, b: seq<string>)
    requires multiset(a) == multiset(b)
    ensures Sorted(a) == Sorted(b) && |a| == |b|
  {
    hide Sorted, Ascending;
    SortedIsSorted(a);
    SortedIsSorted(b);
    AscendingUnique(Sorted(a), Sorted(b));
    assert |a| == |multiset(a)| == |multiset(b)| == |b|;
  }

  /** In whatever order the candidates are listed, the pick and everything after it are the same. */
  lemma {:induction false} OrderIsIrrelevant(s: State, tag: string, a: seq<string>, b: seq<string>, now: Time)
    requires multiset(a) == multiset(b)
    ensures PickStep(s, tag, a, now) == PickStep(s, tag, b, now)
  {
    hide Sorted, Best, Worth;
    SameSorted(a, b);
  }

  class PathBalancer {
    var stats: map<string, Sample>
    var choice: map<string, Decision>

    function Snapshot(): State
      reads this
    {
      State(stats, choice)
    }

    constructor ()
      ensures Snapshot() == State(map[], map[])
    {
      stats, choice := map[], map[];
    }

    method Observe(node: string, st: PathStats, now: Time)
      modifies this`stats
      ensures stats == old(stats)[node := Sample(st, now)]
      ensures Snapshot() == Step(old(Snapshot()), Event(Op.Observe(node, st), now))
    {
      stats := stats[node := Sample(st, now)];
    }

    method Forget(node: string)
      modifies this`stats
      ensures stats == old(stats) - {node}
      ensures Snapshot() == Step(old(Snapshot()), Event(Op.Forget(node), 0))   // whatever the clock
    {
      stats := stats - {node};
    }

    method Pick(tag: string, candidates: seq<string>, now: Time) returns (node: string)
      modifies this`choice
      ensures (Snapshot(), node) == PickStep(old(Snapshot()), tag, candidates, now)
    {
      hide Sorted, Best, Worth;
      if |candidates| == 0 { return ""; }
      var sorted := Sorted(candidates);
      var best := BestOf(stats, sorted, now);
      if tag !in choice || choice[tag].node !in sorted {
        choice := choice[tag := Decision(best, now, "", 0)];
        return best;
      }
      var cur := choice[tag];
      if best == "" || best == cur.node {
        choice := choice[tag := cur.(challenger := "", wins := 0)];
        return cur.node;
      }
      if now - cur.since < SWITCH_COOLDOWN { return cur.node; }
      if !Worth(stats, cur.node, best, now) {
        choice := choice[tag := cur.(challenger := "", wins := 0)];
        return cur.node;
      }
      if cur.challenger != best {
        choice := choice[tag := cur.(challenger := best, wins := 1)];
        return cur.node;
      }
      cur := cur.(wins := cur.wins + 1);
      if cur.wins < HOLD_WINDOWS {
        choice := choice[tag := cur];
        return cur.node;
      }
      choice := choice[tag := Decision(best, now, "", 0)];
      return best;
    }
  }

  // ---------------------------------------------------------------- whole histories

  datatype Op =
    | Observe(node: string, st: PathStats)
    | Forget(gone: string)
    | Pick(tag: string, candidates: seq<string>)

  datatype Event = Event(op: Op, now: Time)

  type History = seq<Event>

  function At(ev: Event): Time {
    ev.now
  }

  function Step(s: State, ev: Event): State {
    match ev.op
    case Observe(node, st) => s.(stats := s.stats[node := Sample(st, ev.now)])
    case Forget(node) => s.(stats := s.stats - {node})
    case Pick(tag, candidates) => PickStep(s, tag, candidates, ev.now).0
  }

  function Run(h: History): State {
    if h == [] then State(map[], map[]) else Step(Run(h[..|h|-1]), h[|h|-1])
  }

  /** A non-empty pick for `tag` ends the history. */
  predicate EndsInPick(h: History, tag: string) {
    h != [] && h[|h|-1].op.Pick? && h[|h|-1].op.tag == tag && h[|h|-1].op.candidates != []
  }

  /** What the pick that ends the history answered. */
  function Answered(h: History, tag: string): string
    requires EndsInPick(h, tag)
  {
    PickStep(Run(h[..|h|-1]), tag, h[|h|-1].op.candidates, h[|h|-1].now).1
  }

  /** The node the last non-empty pick for `tag` answered. */
  function Holder(h: History, tag: string): Option<string> {
    if h == [] then None
    else if EndsInPick(h, tag) then Some(Answered(h, tag)) else Holder(h[..|h|-1], tag)
  }

  /** When the answers for `tag` last changed to what they are now. */
  function ChosenAt(h: History, tag: string): Time {
    if h == [] then 0
    else if EndsInPick(h, tag) && Holder(h[..|h|-1], tag) != Some(Answered(h, tag)) then h[|h|-1].now
    else ChosenAt(h[..|h|-1], tag)
  }

  /**
   The pick that ends the history found `x` chosen a cooldown ago or more and still a
   candidate, `y` best, and worth leaving `x` for.
   */
  ghost predicate Favours(h: History, tag: string, x: string, y: string)
    requires EndsInPick(h, tag)
  {
    var last, s := h[|h|-1], Run(h[..|h|-1]);
    && Holder(h[..|h|-1], tag) == Some(x) && x in last.op.candidates && y != ""
    && last.now - ChosenAt(h[..|h|-1], tag) >= SWITCH_COOLDOWN
    && Best(s.stats, Sorted(last.op.candidates), last.now) == y && Worth(s.stats, x, y, last.now)
  }

  /** How many of the latest non-empty picks for `tag`, without a break, favoured `y` over `x`. */
  ghost function Streak(h: History, tag: string, x: string, y: string): nat {
    if h == [] then 0
    else if !EndsInPick(h, tag) then Streak(h[..|h|-1], tag, x, y)
    else if Favours(h, tag, x, y) then Streak(h[..|h|-1], tag, x, y) + 1
    else 0
  }

  function Last(h: History): Time {
    if h == [] then 0 else h[|h|-1].now
  }

  /** The stored decision is what the history says: who, since when, and how long `y` has been ahead. */
  ghost predicate Told(h: History, tag: string, y: string) {
    var s := Run(h);
    && (tag in s.choice <==> Holder(h, tag).Some?)
    && (tag in s.choice ==>
          var d := s.choice[tag];
          && Holder(h, tag) == Some(d.node) && d.since == ChosenAt(h, tag) <= Last(h)
          && (d.wins > 0 ==> Last(h) - d.since >= SWITCH_COOLDOWN) && d.wins < HOLD_WINDOWS
          && Streak(h, tag, d.node, y) == if y != "" && y == d.challenger then d.wins else 0)
  }

  lemma {:induction false} OtherStepTold(h: History, tag: string, y: string)
    requires h != [] && ClockForward(h, At) && !EndsInPick(h, tag) && Told(h[..|h|-1], tag, y)
    ensures Told(h, tag, y)
  {
    hide Sorted, Best, Worth;
    var g := h[..|h|-1];
    if g == [] {
      assert Run(g) == State(map[], map[]);
    } else {
      assert h[|h|-2] == g[|g|-1];
    }
    assert tag in Run(h).choice <==> tag in Run(g).choice;
    assert tag in Run(h).choice ==> Run(h).choice[tag] == Run(g).choice[tag];
  }

  lemma {:induction false} PickBasics(stats: map<string, Sample>, c: seq<string>, x: string, now: Time)
    requires c != []
    ensures Best(stats, Sorted(c), now) in c && (x in Sorted(c) <==> x in c) && !Worth(stats, x, x, now)
  {
    hide Sorted, Best;
    SortedIsSorted(c);
    assert c[0] in c;
    BestIsBest(stats, Sorted(c), now);
  }

  /** What a pick answers and leaves in the table. */
  lemma {:induction false} PickLeaves(s: State, tag: string, c: seq<string>, now: Time)
    requires c != []
    ensures var (t, ans) := PickStep(s, tag, c, now);
            var best := Best(s.stats, Sorted(c), now);
            && ans in c && tag in t.choice
            && var d := t.choice[tag];
            if tag in s.choice && s.choice[tag].node in c then
              var cur := s.choice[tag];
              var n := if cur.challenger == best then cur.wins + 1 else 1;
              var favoured := best != "" && now - cur.since >= SWITCH_COOLDOWN && Worth(s.stats, cur.node, best, now);
              if favoured && n >= HOLD_WINDOWS then ans == best != cur.node && d == Decision(best, now, "", 0)
              else ans == d.node == cur.node && d.since == cur.since &&
                   if favoured then d.challenger == best && d.wins == n
                   else d.wins == 0 || (d == cur && now - cur.since < SWITCH_COOLDOWN)
            else d == Decision(ans, now, "", 0)
  {
    hide Sorted, Best, Worth;
    PickBasics(s.stats, c, if tag in s.choice then s.choice[tag].node else "", now);
  }

  lemma {:induction false} PickTold(h: History, tag: string, y: string)
    requires EndsInPick(h, tag) && ClockForward(h, At) && Told(h[..|h|-1], tag, y)
    ensures Told(h, tag, y)
  {
    hide Best, Worth, Sorted;
    var g, last := h[..|h|-1], h[|h|-1];
    var s, c := Run(g), last.op.candidates;
    PickLeaves(s, tag, c, last.now);
    if g != [] { assert h[|h|-2] == g[|g|-1]; } else { assert s == State(map[], map[]); }
    assert Run(h) == PickStep(s, tag, c, last.now).0;
    hide PickStep;
  }

  lemma {:induction false} RunTold(h: History, tag: string, y: string)
    requires ClockForward(h, At)
    ensures Told(h, tag, y)
  {
    if h != [] {
      RunTold(h[..|h|-1], tag, y);
      if EndsInPick(h, tag) { PickTold(h, tag, y); } else { OtherStepTold(h, tag, y); }
    }
  }

  /**
   With a clock that does not go back: a pick leaves a node that is still a candidate for
   another exactly when this and the picks before it, HOLD_WINDOWS in a row, all came a cooldown
   or more after the node was chosen, found that other best and worth the change.
   */
  lemma {:induction false} SwitchesIffEarned(h: History, tag: string, x: string, y: string)
    requires ClockForward(h, At) && EndsInPick(h, tag) && x != y
    requires Holder(h[..|h|-1], tag) == Some(x) && x in h[|h|-1].op.candidates
    ensures Answered(h, tag) == y <==> Streak(h, tag, x, y) >= HOLD_WINDOWS
  {
    var g, last := h[..|h|-1], h[|h|-1];
    RunTold(g, tag, y);
    PickLeaves(Run(g), tag, last.op.candidates, last.now);
    hide Best, Worth, Sorted, PickStep;
  }

  /** A node that stays a candidate is kept for the whole cooldown. */
  lemma {:induction false} KeptWhileFresh(h: History, tag: string, x: string)
    requires ClockForward(h, At) && EndsInPick(h, tag)
    requires Holder(h[..|h|-1], tag) == Some(x) && x in h[|h|-1].op.candidates
    ensures h[|h|-1].now - ChosenAt(h[..|h|-1], tag) < SWITCH_COOLDOWN ==> Answered(h, tag) == x
  {
    if Answered(h, tag) != x { SwitchesIffEarned(h, tag, x, Answered(h, tag)); }
  }

  /** Where there is no choice yet, or the chosen node is no longer offered, the best is answered at once. */
  lemma {:induction false} FirstChoiceIsBest(s: State, tag: string, c: seq<string>, now: Time, x: string)
    requires c != [] && "" !in c && (tag in s.choice ==> s.choice[tag].node !in c)
    requires x in c && IsFresh(s.stats, x, now)
    ensures var ans := PickStep(s, tag, c, now).1;
            && ans in c && IsFresh(s.stats, ans, now) && ScoreOf(s.stats, ans) <= ScoreOf(s.stats, x)
            && (ScoreOf(s.stats, ans) == ScoreOf(s.stats, x) ==> StrLe(ans, x))
  {
    hide Best, Score, Worth, Sorted;
    SortedIsSorted(c);
    BestIsBest(s.stats, Sorted(c), now);
    if ScoreOf(s.stats, Best(s.stats, Sorted(c), now)) == ScoreOf(s.stats, x) {
      BestIsFirst(s.stats, Sorted(c), now, x);
    }
  }

  /** And where nothing is measured, the first by name. */
  lemma {:induction false} FirstChoiceByName(s: State, tag: string, c: seq<string>, now: Time, x: string)
    requires c != [] && "" !in c && (tag in s.choice ==> s.choice[tag].node !in c)
    requires x in c && forall y :: y in c ==> !IsFresh(s.stats, y, now)
    ensures var ans := PickStep(s, tag, c, now).1; ans in c && StrLe(ans, x)
  {
    hide Best, Score, Worth, Sorted;
    SortedIsSorted(c);
    BestIsBest(s.stats, Sorted(c), now);
    BestIsFirst(s.stats, Sorted(c), now, x);
  }

  /** A switch is to a freshly measured node, and away from a measured one only for a fifth and five milliseconds. */
  lemma {:induction false} SwitchGains(h: History, tag: string, x: string)
    requires ClockForward(h, At) && EndsInPick(h, tag)
    requires Holder(h[..|h|-1], tag) == Some(x) && x in h[|h|-1].op.candidates && Answered(h, tag) != x
    ensures var s, now, y := Run(h[..|h|-1]), h[|h|-1].now, Answered(h, tag);
            && IsFresh(s.stats, y, now)
            && (IsFresh(s.stats, x, now) ==>
                  && 5 * ScoreOf(s.stats, y) < 4 * ScoreOf(s.stats, x)
                  && ScoreOf(s.stats, x) - ScoreOf(s.stats, y) >= 5_000_000)
  {
    hide Score, Best, Sorted, Holder, ChosenAt, Run, Answered;
    SwitchesIffEarned(h, tag, x, Answered(h, tag));
  }

  // ---------------------------------------------------------------- how often it switches

  /** Every non-empty pick for `tag` offers exactly the nodes of `nodes`. */
  ghost predicate Offers(h: History, tag: string, nodes: set<string>) {
    forall ev :: ev in h && ev.op.Pick? && ev.op.tag == tag && ev.op.candidates != [] ==>
                   (forall n :: n in nodes <==> n in ev.op.candidates)
  }

  /** Changes of the answer, the first choice not counted. */
  function Switches(h: History, tag: string): nat {
    if h == [] then 0
    else
      Switches(h[..|h|-1], tag)
      + if EndsInPick(h, tag) && Holder(h[..|h|-1], tag).Some? && Holder(h[..|h|-1], tag) != Some(Answered(h, tag))
        then 1 else 0
  }

  function FirstPick(h: History, tag: string): Time {
    if h == [] then 0
    else if EndsInPick(h, tag) && Holder(h[..|h|-1], tag).None? then h[|h|-1].now
    else FirstPick(h[..|h|-1], tag)
  }

  lemma {:induction false} SwitchesSpaced(h: History, tag: string, nodes: set<string>)
    requires ClockForward(h, At) && Offers(h, tag, nodes)
    ensures Holder(h, tag).None? ==> Switches(h, tag) == 0
    ensures Holder(h, tag).Some? ==>
              && Holder(h, tag).value in nodes
              && FirstPick(h, tag) + Switches(h, tag) * SWITCH_COOLDOWN <= ChosenAt(h, tag) <= Last(h)
  {
    if h != [] {
      var g, last := h[..|h|-1], h[|h|-1];
      assert forall ev :: ev in g ==> ev in h;
      SwitchesSpaced(g, tag, nodes);
      RunTold(g, tag, "");
      RunTold(h, tag, "");
      if EndsInPick(h, tag) {
        assert last in h;
        AnswerOffered(h, tag);
        if Holder(g, tag).Some? { KeptWhileFresh(h, tag, Holder(g, tag).value); }
      }
    }
  }

  /** A pick always answers with one of its candidates. */
  lemma {:induction false} AnswerOffered(h: History, tag: string)
    requires EndsInPick(h, tag)
    ensures Answered(h, tag) in h[|h|-1].op.candidates
  {
    PickLeaves(Run(h[..|h|-1]), tag, h[|h|-1].op.candidates, h[|h|-1].now);
    hide PickStep;
  }

  /** Over a fixed set of candidates, a run of length D switches at most D / SWITCH_COOLDOWN times. */
  lemma {:induction false} SwitchesAreRare(h: History, tag: string, nodes: set<string>)
    requires ClockForward(h, At) && Offers(h, tag, nodes) && Holder(h, tag).Some?
    ensures Switches(h, tag) <= (Last(h) - FirstPick(h, tag)) / 300_000_000_000
  {
    SwitchesSpaced(h, tag, nodes);
    var d := Last(h) - FirstPick(h, tag);
    assert Switches(h, tag) * SWITCH_COOLDOWN <= d;
  }
}
