/**
 Traffic quotas (internal/server/db/quota.go): how much of its limit a client has used in the
 current period. Periods move on lazily, when somebody asks.

 A token's row is an object; the network's counters and the clock are parameters.
 */
module Quota {
  import opened Basics

  const DAY := 86_400_000_000_000

  /** A resetAt of 0 is a period that has not begun. */
  datatype Row = Row(limit: int, days: int, resetAt: Time, base: int)

  datatype Usage = Usage(limit: int, days: int, used: int, resetAt: Option<Time>)

  function Period(days: int): int {
    days * DAY
  }

  predicate Exceeded(u: Usage) {
    u.limit > 0 && u.used >= u.limit
  }

  /** Nothing is left exactly when the limit is exceeded; else what is left and what is used make it up. */
  function Left(u: Usage): (left: int)
    ensures u.used >= 0 ==> (left == 0 <==> Exceeded(u)) && (left > 0 ==> left + u.used == u.limit)
    ensures left == -1 <==> u.limit <= 0
  {
    if u.limit <= 0 then -1 else if u.used >= u.limit then 0 else u.limit - u.used
  }

  /** `count` periods after `at`. */
  function Later(at: Time, count: nat, period: int): Time {
    at + count * period
  }

  function NextReset(next: Time, period: int, now: Time): Time
    requires period > 0 && now > next
  {
    Later(next, (now - next) / period + 1, period)
  }

  function AskStep(r: Row, total: int, now: Time): (Row, Usage) {
    var base := if total < r.base then total else r.base;
    var s :=
      if r.days > 0 && r.resetAt == 0 then r.(base := total, resetAt := now + Period(r.days))
      else if r.days > 0 && now > r.resetAt then r.(base := total, resetAt := NextReset(r.resetAt, Period(r.days), now))
      else r.(base := base);
    (s, Usage(r.limit, r.days, total - s.base, if r.days > 0 then Some(s.resetAt) else None))
  }

  function ResetStep(r: Row, total: int, now: Time): Row {
    r.(base := total, resetAt := if r.days > 0 then now + Period(r.days) else 0)
  }

  class Account {
    var limit: int
    var days: int
    var resetAt: Time
    var base: int

    function Snapshot(): Row
      reads this
    {
      Row(limit, days, resetAt, base)
    }

    method QuotaOf(total: int, now: Time) returns (u: Usage)
      modifies this
      ensures (Snapshot(), u) == AskStep(old(Snapshot()), total, now)
      ensures limit == old(limit) && days == old(days) && u.limit == limit && u.days == days
    {
      if total < base { base := total; }
      var moment := None;
      if days > 0 {
        var next := resetAt;
        if resetAt == 0 {
          next := now + Period(days);
          base, resetAt := total, next;
        } else if now > next {
          var missed := (now - next) / Period(days) + 1;
          next := next + missed * Period(days);
          base, resetAt := total, next;
        }
        moment := Some(next);
      }
      var used := total - base;
      if used < 0 { used := 0; }
      return Usage(limit, days, used, moment);
    }

    method ResetTraffic(total: int, now: Time)
      modifies this
      ensures Snapshot() == ResetStep(old(Snapshot()), total, now)
      ensures base == total && resetAt == (if days > 0 then now + days * 86_400_000_000_000 else 0)
      ensures limit == old(limit) && days == old(days)
    {
      var at := 0;
      if days > 0 { at := now + Period(days); }
      base, resetAt := total, at;
    }

    method SetTrafficLimit(newLimit: int, newDays: int)
      modifies this
      ensures Snapshot() == old(Snapshot()).(limit := newLimit, days := newDays)
    {
      limit, days := newLimit, newDays;
    }
  }

  // ---------------------------------------------------------------- when it resets

  lemma {:induction false} NextResetWithin(next: Time, period: int, now: Time)
    requires period > 0 && now > next
    ensures now < NextReset(next, period, now) <= now + period
  {
    var d := now - next;
    assert d == d / period * period + d % period;
    assert (d / period + 1) * period == d / period * period + period;
  }

  /**
   Whoever asks is told a reset moment not yet past. It lies a period ahead or less exactly when
   the one stored did: a row whose period was made shorter keeps its old moment.
   */
  lemma {:induction false} ResetIsAhead(r: Row, total: int, now: Time)
    requires r.days > 0
    ensures var (s, u) := AskStep(r, total, now);
            && u.resetAt == Some(s.resetAt) && s.resetAt >= now
            && (s.resetAt <= now + Period(r.days) <==> r.resetAt <= now + Period(r.days) || r.resetAt == 0)
            && (r.resetAt != 0 ==>
                  && (s.resetAt == r.resetAt <==> now <= r.resetAt)
                  && exists m :: s.resetAt == Later(r.resetAt, m, Period(r.days)))
  {
    if r.resetAt != 0 {
      if now > r.resetAt {
        NextResetWithin(r.resetAt, Period(r.days), now);
      } else {
        assert r.resetAt == Later(r.resetAt, 0, Period(r.days));
      }
    }
  }

  // ---------------------------------------------------------------- histories

  datatype Op = Ask | Reset | SetLimit(limit: int, days: int)

  /** One operation: what it is, the network's counters of the client, and the clock. */
  datatype Event = Event(op: Op, total: int, now: Time)

  function Step(r: Row, ev: Event): Row {
    match ev.op
    case Ask => AskStep(r, ev.total, ev.now).0
    case Reset => ResetStep(r, ev.total, ev.now)
    case SetLimit(limit, days) => r.(limit := limit, days := days)
  }

  function Run(r: Row, evs: seq<Event>): Row {
    if evs == [] then r else Step(Run(r, evs[..|evs|-1]), evs[|evs|-1])
  }

  function At(ev: Event): Time {
    ev.now
  }

  /** A period not begun, or one that ends a period from `now` at the latest. */
  predicate DueWithin(r: Row, now: Time) {
    r.resetAt == 0 || r.resetAt <= now + Period(r.days)
  }

  lemma {:induction false} RunDueWithin(r: Row, evs: seq<Event>)
    requires r.days > 0 && ClockForward(evs, At) && (evs != [] ==> DueWithin(r, evs[0].now))
    requires forall ev :: ev in evs ==> !ev.op.SetLimit?
    ensures Run(r, evs).days == r.days && (evs != [] ==> DueWithin(Run(r, evs), evs[|evs|-1].now))
  {
    if evs != [] {
      var g, last := evs[..|evs|-1], evs[|evs|-1];
      assert last in evs && forall ev :: ev in g ==> ev in evs;
      RunDueWithin(r, g);
      if g != [] { assert g[|g|-1].now <= last.now; } else { assert Run(r, g) == r && evs[0] == last; }
      var s := Run(r, g);
      assert DueWithin(s, last.now);
      if last.op.Ask? { ResetIsAhead(s, last.total, last.now); }
      hide Period, NextReset;
    }
  }

  /**
   While the length of the period is left alone and the clock does not go back, whoever asks, after
   whatever history, is told a moment from now to a period from now.
   */
  lemma {:induction false} ToldWithinAPeriod(r: Row, evs: seq<Event>, total: int, now: Time)
    requires r.days > 0 && ClockForward(evs + [Event(Ask, total, now)], At)
    requires DueWithin(r, (evs + [Event(Ask, total, now)])[0].now)
    requires forall ev :: ev in evs ==> !ev.op.SetLimit?
    ensures var moment := AskStep(Run(r, evs), total, now).1.resetAt;
            moment.Some? && now <= moment.value <= now + Period(r.days)
  {
    var all := evs + [Event(Ask, total, now)];
    assert all[..|all|-1] == evs;
    RunDueWithin(r, evs);
    if evs != [] { assert all[|all|-2] == evs[|evs|-1]; }
    ResetIsAhead(Run(r, evs), total, now);
    hide NextReset, Period;
  }

  /** A month is agreed, asked for at 1, cut to a day at 2: who asks at 3 is still told the end of the month. */
  lemma {:induction false} ShortenedPeriodWaits(limit: int, total: int)
    ensures var evs := [Event(Ask, total, 1), Event(SetLimit(limit, 1), total, 2)];
            var r := Run(Row(0, 30, 0, 0), evs);
            && r.days == 1 && AskStep(r, total, 3).1.resetAt == Some(1 + Period(30))
            && 1 + Period(30) > 3 + Period(r.days)
  {
    var e, f, r := Event(Ask, total, 1), Event(SetLimit(limit, 1), total, 2), Row(0, 30, 0, 0);
    assert [e, f][..1] == [e] && [e][..0] == [];
    assert Run(r, []) == r && Run(r, [e]) == AskStep(r, total, 1).0;
  }

  /** The limit and the length agreed last, or those the row began with. */
  function Agreed(limit: int, days: int, evs: seq<Event>): (int, int) {
    if evs == [] then (limit, days)
    else if evs[|evs|-1].op.SetLimit? then (evs[|evs|-1].op.limit, evs[|evs|-1].op.days)
    else Agreed(limit, days, evs[..|evs|-1])
  }

  /** Neither asking nor resetting touches what was agreed, and every answer states it. */
  lemma {:induction false} AnswersStateTheAgreed(r: Row, evs: seq<Event>, total: int, now: Time)
    ensures var (s, agreed) := (Run(r, evs), Agreed(r.limit, r.days, evs));
            var u := AskStep(s, total, now).1;
            && s.limit == u.limit == agreed.0 && s.days == u.days == agreed.1
            && (u.resetAt.Some? <==> agreed.1 > 0)
  {
    hide Period, NextReset;
    if evs != [] { AnswersStateTheAgreed(r, evs[..|evs|-1], total, now); }
  }

  /**
   After a manual reset nothing counts as used, and of the days agreed the whole number lies ahead:
   until then only what comes after the reset is used.
   */
  lemma {:induction false} ResetStartsAWholePeriod(
    r: Row, evs: seq<Event>, at: Time, total: int, later: int, now: Time)
    requires 0 <= at <= now && total <= later
    requires var days := Agreed(r.limit, r.days, evs).1; days > 0 ==> now <= at + days * 86_400_000_000_000
    ensures var (limit, days) := Agreed(r.limit, r.days, evs);
            AskStep(Run(r, evs + [Event(Reset, total, at)]), later, now).1 ==
            Usage(limit, days, later - total, if days > 0 then Some(at + days * 86_400_000_000_000) else None)
  {
    var all := evs + [Event(Reset, total, at)];
    assert all[..|all|-1] == evs;
    AnswersStateTheAgreed(r, evs, total, at);
    AnswersStateTheAgreed(r, all, later, now);
    hide NextReset, Run;
  }

  // ---------------------------------------------------------------- nothing is counted twice or lost

  /** What is used of a period, never negative. */
  function Used(r: Row, total: int): int {
    if total < r.base then 0 else total - r.base
  }

  /** The usage of the periods an operation closes: of one that begins anew, what had been used of it. */
  function Closes(r: Row, ev: Event): int {
    match ev.op
    case Ask =>
      if r.days > 0 && (r.resetAt == 0 || ev.now > r.resetAt) then Used(r, ev.total) else 0
    case Reset => Used(r, ev.total)
    case SetLimit(_, _) => 0
  }

  /** What counters lost by a node took from under the base. */
  function Forgiven(r: Row, ev: Event): int {
    if !ev.op.SetLimit? && ev.total < r.base then r.base - ev.total else 0
  }

  function Closed(r: Row, evs: seq<Event>): int {
    if evs == [] then 0 else Closed(r, evs[..|evs|-1]) + Closes(Run(r, evs[..|evs|-1]), evs[|evs|-1])
  }

  function AllForgiven(r: Row, evs: seq<Event>): int {
    if evs == [] then 0 else AllForgiven(r, evs[..|evs|-1]) + Forgiven(Run(r, evs[..|evs|-1]), evs[|evs|-1])
  }

  /** Over any history, the usage of closed periods is all the base has moved, lost counters aside. */
  lemma {:induction false} ClosedIsBaseMoved(r: Row, evs: seq<Event>)
    ensures Closed(r, evs) - AllForgiven(r, evs) == Run(r, evs).base - r.base
  {
    if evs != [] {
      ClosedIsBaseMoved(r, evs[..|evs|-1]);
      hide NextReset, Period;
    }
  }

  /** The answer now and all that was closed before, with this answer, add up to the traffic since the start. */
  lemma {:induction false} UsageIsConserved(r: Row, evs: seq<Event>, total: int, now: Time)
    ensures var before, ev := Run(r, evs), Event(Ask, total, now);
            var u := AskStep(before, total, now).1;
            && u.used >= 0
            && Closed(r, evs + [ev]) + u.used == total - r.base + AllForgiven(r, evs + [ev])
  {
    var ev := Event(Ask, total, now);
    assert (evs + [ev])[..|evs + [ev]|-1] == evs;
    ClosedIsBaseMoved(r, evs + [ev]);
    hide NextReset, Period;
  }

  /** The network's counters of the client never go down, and start at `from` or above. */
  ghost predicate Growing(evs: seq<Event>, from: int) {
    evs == [] || (evs[|evs|-1].total >= HighestOr(evs[..|evs|-1], from) && Growing(evs[..|evs|-1], from))
  }

  function HighestOr(evs: seq<Event>, from: int): int {
    if evs == [] then from else evs[|evs|-1].total
  }

  /** Then nothing is forgiven: every byte since the start is in one closed period or in the current one. */
  lemma {:induction false} GrowingForgivesNothing(r: Row, evs: seq<Event>)
    requires Growing(evs, r.base)
    ensures AllForgiven(r, evs) == 0 && Run(r, evs).base <= HighestOr(evs, r.base)
  {
    if evs != [] {
      GrowingForgivesNothing(r, evs[..|evs|-1]);
      hide NextReset, Period;
    }
  }
}
