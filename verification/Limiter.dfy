/**
 The request limiter of the public page (limiter in internal/server/decoy/site.go): a
 counting window per address, a ban after the limit, and a table swept now and then.
 */
module Limiter {
  import opened Basics

  /** `banTill` is None for Go's zero time. */
  datatype Counter = Counter(n: nat, resetAt: Time, banTill: Option<Time>)

  datatype Limits = Limits(burst: int, window: int, ban: int, maxKeys: nat)

  type Table = map<string, Counter>

  /** Refused, with the time left, or let through. */
  datatype Answer = Refused(retry: int) | Allowed

  // ---------------------------------------------------------------- specification

  predicate Banned(c: Counter, now: Time) {
    c.banTill.Some? && now < c.banTill.value
  }

  function NewCounter(l: Limits, now: Time): Counter {
    Counter(0, now + l.window, None)
  }

  /** The counter a request is entered in: a served ban or a window that is over starts a new one. */
  function Renewed(l: Limits, c: Counter, now: Time): Counter {
    if c.banTill.Some? || now > c.resetAt then NewCounter(l, now) else c
  }

  function Hit(l: Limits, c: Counter, now: Time): (Counter, Answer) {
    if Banned(c, now) then (c, Refused(c.banTill.value - now))
    else
      var d := Renewed(l, c, now);
      if d.n + 1 > l.burst then (d.(n := d.n + 1, banTill := Some(now + l.ban)), Refused(l.ban))
      else (d.(n := d.n + 1), Allowed)
  }

  function Of(l: Limits, t: Table, ip: string, now: Time): Counter {
    if ip in t then t[ip] else NewCounter(l, now)
  }

  /** A request on a table that is never swept. */
  function Request(l: Limits, t: Table, ip: string, now: Time): (Table, Answer) {
    var (c, a) := Hit(l, Of(l, t, ip, now), now);
    (t[ip := c], a)
  }

  predicate Spent(c: Counter, now: Time) {
    now > c.resetAt && (c.banTill.None? || now > c.banTill.value)
  }

  datatype State = State(seen: Table, lastGC: Time)

  function Swept(l: Limits, s: State, now: Time): State {
    if |s.seen| >= l.maxKeys then State(map[], now)
    else if now - s.lastGC < l.window then s
    else State(s.seen - (set ip | ip in s.seen && Spent(s.seen[ip], now)), now)
  }

  function Allow(l: Limits, s: State, ip: string, now: Time): (State, Answer) {
    var g := Swept(l, s, now);
    var (t, a) := Request(l, g.seen, ip, now);
    (g.(seen := t), a)
  }

  // ---------------------------------------------------------------- sweeping changes no answer

  /** `t` is `full` with only spent counters missing. */
  ghost predicate OnlySpentGone(t: Table, full: Table, now: Time) {
    && (forall ip :: ip in t ==> ip in full && t[ip] == full[ip])
    && (forall ip :: ip in full && ip !in t ==> Spent(full[ip], now))
  }

  /** A spent counter answers like no counter at all. */
  lemma {:induction false} SpentIsNew(l: Limits, c: Counter, now: Time)
    requires Spent(c, now)
    ensures Hit(l, c, now) == Hit(l, NewCounter(l, now), now)
  {}

  lemma {:induction false} SweepKeepsAnswer(l: Limits, s: State, full: Table, ip: string, now: Time)
    requires l.window >= 0 && OnlySpentGone(s.seen, full, now) && |s.seen| < l.maxKeys
    ensures Allow(l, s, ip, now).1 == Request(l, full, ip, now).1
    ensures OnlySpentGone(Allow(l, s, ip, now).0.seen, Request(l, full, ip, now).0, now)
  {
    var g := Swept(l, s, now);
    assert OnlySpentGone(g.seen, full, now);
    if ip in full && ip !in g.seen { SpentIsNew(l, full[ip], now); }
  }

  datatype Req = Req(ip: string, now: Time)

  function At(r: Req): Time {
    r.now
  }

  /** The clock starts at `from` or later, and does not go back. */
  ghost predicate Ordered(reqs: seq<Req>, from: Time) {
    ClockForward(reqs, At) && (reqs != [] ==> from <= reqs[0].now)
  }

  function Answers(l: Limits, s: State, reqs: seq<Req>): seq<Answer>
    decreases |reqs|
  {
    if reqs == [] then []
    else [Allow(l, s, reqs[0].ip, reqs[0].now).1] + Answers(l, Allow(l, s, reqs[0].ip, reqs[0].now).0, reqs[1..])
  }

  function AnswersUnswept(l: Limits, t: Table, reqs: seq<Req>): seq<Answer>
    decreases |reqs|
  {
    if reqs == [] then []
    else
      var (u, a) := Request(l, t, reqs[0].ip, reqs[0].now);
      [a] + AnswersUnswept(l, u, reqs[1..])
  }

  /** The table stays below its ceiling all along. */
  ghost predicate Roomy(l: Limits, s: State, reqs: seq<Req>)
    decreases |reqs|
  {
    reqs == [] || (|s.seen| < l.maxKeys && Roomy(l, Allow(l, s, reqs[0].ip, reqs[0].now).0, reqs[1..]))
  }

  lemma {:induction false} SpentLater(t: Table, full: Table, now: Time, later: Time)
    requires OnlySpentGone(t, full, now) && now <= later
    ensures OnlySpentGone(t, full, later)
  {}

  /** For every trace with a clock that does not go back: the same answers with and without sweeping. */
  lemma {:induction false} SweepingIsInvisible(l: Limits, s: State, full: Table, reqs: seq<Req>, from: Time)
    requires l.window >= 0 && OnlySpentGone(s.seen, full, from)
    requires Ordered(reqs, from) && Roomy(l, s, reqs)
    ensures Answers(l, s, reqs) == AnswersUnswept(l, full, reqs)
    decreases |reqs|
  {
    if reqs != [] {
      var r := reqs[0];
      ClockTail(reqs, At);
      SpentLater(s.seen, full, from, r.now);
      SweepKeepsAnswer(l, s, full, r.ip, r.now);
      hide Allow, Request;
      SweepingIsInvisible(l, Allow(l, s, r.ip, r.now).0, Request(l, full, r.ip, r.now).0, reqs[1..], r.now);
    }
  }

  // ---------------------------------------------------------------- one address over time

  /** Requests of one address, oldest first, on a counter that is never swept. */
  function Replay(l: Limits, c: Counter, times: seq<Time>): Counter
    decreases |times|
  {
    if times == [] then c else Hit(l, Replay(l, c, times[..|times|-1]), times[|times|-1]).0
  }

  /** How many of them are let through at or after `a` and before `a + window`. */
  function Passed(l: Limits, c: Counter, times: seq<Time>, a: Time): nat
    decreases |times|
  {
    if times == [] then 0
    else
      var earlier, t := times[..|times|-1], times[|times|-1];
      Passed(l, c, earlier, a)
      + if Hit(l, Replay(l, c, earlier), t).1.Allowed? && a <= t < a + l.window then 1 else 0
  }

  function Itself(t: Time): Time {
    t
  }

  /** A counter as the limiter leaves it, with no time later than `now` behind it. */
  ghost predicate Sound(l: Limits, c: Counter, now: Time) {
    && c.resetAt - l.window <= now
    && (if c.banTill.None? then c.n <= l.burst
        else c.n == l.burst + 1 && c.resetAt - l.window + l.ban <= c.banTill.value <= now + l.ban)
  }

  /**
   What can have passed since `a`: the current window's share, or one more full window if
   the current one began after `a`, or the span is over.
   */
  ghost predicate Counted(l: Limits, c: Counter, p: nat, a: Time, now: Time) {
    var share := if c.n <= l.burst then c.n else l.burst;
    || p <= share
    || (p <= l.burst + share && c.resetAt - l.window >= a)
    || (p <= 2 * l.burst && now >= a + l.window)
  }

  lemma {:induction false} HitCounted(l: Limits, c: Counter, p: nat, a: Time, last: Time, t: Time)
    requires l.burst >= 1 && l.ban >= l.window > 0 && last <= t
    requires Sound(l, c, last) && Counted(l, c, p, a, last)
    requires p > 0 ==> a <= last
    ensures var (d, ans) := Hit(l, c, t);
            var q := p + if ans.Allowed? && a <= t < a + l.window then 1 else 0;
            Sound(l, d, t) && Counted(l, d, q, a, t) && (q > 0 ==> a <= t)
  {}

  lemma {:induction false} ReplayCounted(l: Limits, start: Time, times: seq<Time>, a: Time)
    requires l.burst >= 1 && l.ban >= l.window > 0 && ClockForward(times, Itself)
    requires times != [] ==> start <= times[0]
    ensures var (c, p) := (Replay(l, NewCounter(l, start), times), Passed(l, NewCounter(l, start), times, a));
            var now := if times == [] then start else times[|times|-1];
            Sound(l, c, now) && Counted(l, c, p, a, now) && (p > 0 ==> a <= now)
    decreases |times|
  {
    if times != [] {
      var earlier, t := times[..|times|-1], times[|times|-1];
      ReplayCounted(l, start, earlier, a);
      var c, p := Replay(l, NewCounter(l, start), earlier), Passed(l, NewCounter(l, start), earlier, a);
      HitCounted(l, c, p, a, if earlier == [] then start else earlier[|earlier|-1], t);
    }
  }

  /** In any half-open span of one window's length, one address is let through at most twice the burst. */
  lemma {:induction false} AtMostTwiceTheBurst(l: Limits, start: Time, times: seq<Time>, a: Time)
    requires l.burst >= 1 && l.ban >= l.window > 0 && ClockForward(times, Itself)
    requires times != [] ==> start <= times[0]
    ensures Passed(l, NewCounter(l, start), times, a) <= 2 * l.burst
  {
    ReplayCounted(l, start, times, a);
  }

  /** One more request at the end of a replay. */
  lemma {:induction false} ReplaySnoc(l: Limits, c: Counter, times: seq<Time>, t: Time, a: Time)
    ensures Replay(l, c, []) == c && Replay(l, c, times + [t]) == Hit(l, Replay(l, c, times), t).0
    ensures Passed(l, c, [], a) == 0
    ensures Passed(l, c, times + [t], a) ==
            Passed(l, c, times, a) + if Hit(l, Replay(l, c, times), t).1.Allowed? && a <= t < a + l.window then 1 else 0
    ensures ClockForward(times, Itself) && (times != [] ==> times[|times|-1] <= t) ==> ClockForward(times + [t], Itself)
  {
    hide Hit;
    assert (times + [t])[..|times|] == times;
  }

  /** `n` requests at `w`, the end of the window that began at 0, and `m` more a moment later. */
  function Bursts(n: nat, m: nat, w: Time): seq<Time>
    decreases n + m
  {
    if m > 0 then Bursts(n, m - 1, w) + [w + 1] else if n > 0 then Bursts(n - 1, m, w) + [w] else []
  }

  lemma {:induction false} LastOfBursts(n: nat, m: nat, w: Time)
    ensures var b := Bursts(n, m, w);
            |b| == n + m && (b != [] ==> b[|b|-1] == if m > 0 then w + 1 else w) && (n > 0 ==> b[0] == w)
    decreases n + m
  {
    if m > 0 { LastOfBursts(n, m - 1, w); } else if n > 0 { LastOfBursts(n - 1, m, w); }
  }

  /** All of them are let through, the later ones in the window that begins there. */
  lemma {:induction false} BurstsPass(l: Limits, n: nat, m: nat)
    requires n <= l.burst && m <= l.burst && (m > 0 ==> n == l.burst) && l.window > 1
    ensures var (c, times, w) := (NewCounter(l, 0), Bursts(n, m, l.window), l.window);
            && Replay(l, c, times) == (if m == 0 then Counter(n, w, None) else Counter(m, w + 1 + w, None))
            && Passed(l, c, times, w) == n + m && ClockForward(times, Itself)
    decreases n + m
  {
    hide Replay, Passed, ClockForward;
    var c, w := NewCounter(l, 0), l.window;
    if m > 0 {
      BurstsPass(l, n, m - 1);
      LastOfBursts(n, m - 1, w);
      ReplaySnoc(l, c, Bursts(n, m - 1, w), w + 1, w);
    } else if n > 0 {
      BurstsPass(l, n - 1, m);
      LastOfBursts(n - 1, m, w);
      ReplaySnoc(l, c, Bursts(n - 1, m, w), w, w);
    } else {
      ReplaySnoc(l, c, [], w, w);
      assert ClockForward<Time>([], Itself) by { NothingIsForward(); }
    }
  }

  lemma {:induction false} NothingIsForward()
    ensures ClockForward<Time>([], Itself)
  {}

  /** Requests that reach twice the burst. */
  ghost predicate ReachesTwice(l: Limits) {
    exists times, a :: ClockForward(times, Itself) && times != [] && 0 <= times[0]
                       && Passed(l, NewCounter(l, 0), times, a) == 2 * l.burst
  }

  /** Twice the burst is reached: a full window ends just as the next begins. */
  lemma {:induction false} TwiceTheBurstIsReached(l: Limits)
    requires l.burst >= 1 && l.ban >= l.window > 1
    ensures ReachesTwice(l)
  {
    var w := l.window;
    var times := Bursts(l.burst, l.burst, w);
    hide Passed, ClockForward, Bursts;
    BurstsPass(l, l.burst, l.burst);
    LastOfBursts(l.burst, l.burst, w);
    assert ClockForward(times, Itself) && times[0] == w && Passed(l, NewCounter(l, 0), times, w) == 2 * l.burst;
  }

  /** In a window of one tick: what passed at `a` is in a counter that does not start anew at `a`. */
  ghost predicate CountedAt(c: Counter, p: nat, a: Time, now: Time) {
    p > 0 && now <= a ==> now == a && p <= c.n && c.resetAt >= a && (c.banTill.Some? ==> c.banTill.value > a)
  }

  lemma {:induction false} HitCountedAt(l: Limits, c: Counter, p: nat, a: Time, last: Time, t: Time)
    requires l.burst >= 1 && l.ban >= l.window == 1 && last <= t
    requires p <= l.burst && CountedAt(c, p, a, last) && (p > 0 ==> a <= last)
    ensures var d := Hit(l, c, t).0;
            var q := p + if Hit(l, c, t).1.Allowed? && a <= t < a + l.window then 1 else 0;
            q <= l.burst && CountedAt(d, q, a, t) && (q > 0 ==> a <= t)
  {}

  lemma {:induction false} OneTickWindow(l: Limits, start: Time, times: seq<Time>, a: Time)
    requires l.burst >= 1 && l.ban >= l.window == 1 && ClockForward(times, Itself)
    requires times != [] ==> start <= times[0]
    ensures var c, p := Replay(l, NewCounter(l, start), times), Passed(l, NewCounter(l, start), times, a);
            var now := if times == [] then start else times[|times|-1];
            p <= l.burst && CountedAt(c, p, a, now) && (p > 0 ==> a <= now)
    decreases |times|
  {
    hide Hit;
    if times != [] {
      var earlier, t := times[..|times|-1], times[|times|-1];
      OneTickWindow(l, start, earlier, a);
      ClockOrder(times, Itself, 0);
      HitCountedAt(l, Replay(l, NewCounter(l, start), earlier), Passed(l, NewCounter(l, start), earlier, a), a,
                   if earlier == [] then start else earlier[|earlier|-1], t);
    }
  }

  /** The bound is reached exactly when a window is longer than one tick of the clock. */
  lemma {:induction false} TwiceTheBurstIff(l: Limits)
    requires l.burst >= 1 && l.ban >= l.window > 0
    ensures ReachesTwice(l) <==> l.window > 1
  {
    hide Passed, ClockForward, Replay;
    if l.window > 1 {
      TwiceTheBurstIsReached(l);
    } else if ReachesTwice(l) {
      var times, a :| ClockForward(times, Itself) && times != [] && 0 <= times[0]
                      && Passed(l, NewCounter(l, 0), times, a) == 2 * l.burst;
      OneTickWindow(l, 0, times, a);
    }
  }

  /** Knocking during a ban does not lengthen it, and the first request at its end is let through. */
  lemma {:induction false} BanEndsOnTime(l: Limits, c: Counter, knocks: seq<Time>, end: Time)
    requires l.burst >= 1 && c.banTill == Some(end) && (forall t :: t in knocks ==> t < end)
    ensures Replay(l, c, knocks) == c
    ensures forall t :: t >= end ==> Hit(l, Replay(l, c, knocks), t).1 == Allowed
    decreases |knocks|
  {
    if knocks != [] {
      var earlier := knocks[..|knocks|-1];
      forall t | t in earlier ensures t < end { assert t in knocks; }
      BanEndsOnTime(l, c, earlier, end);
      assert knocks[|knocks|-1] in knocks;
    }
  }

  // ---------------------------------------------------------------- many addresses

  /** The times at which `ip` asks. */
  function TimesOf(reqs: seq<Req>, ip: string): seq<Time>
    decreases |reqs|
  {
    if reqs == [] then []
    else
      var earlier, r := reqs[..|reqs|-1], reqs[|reqs|-1];
      TimesOf(earlier, ip) + if r.ip == ip then [r.now] else []
  }

  /** The table after the requests, when nothing is swept. */
  function After(l: Limits, t: Table, reqs: seq<Req>): Table
    decreases |reqs|
  {
    if reqs == [] then t else After(l, Request(l, t, reqs[0].ip, reqs[0].now).0, reqs[1..])
  }

  /** The last request is entered, and answered, on the table of the earlier ones. */
  lemma {:induction false} AnswersSnoc(l: Limits, t: Table, reqs: seq<Req>, r: Req)
    ensures AnswersUnswept(l, t, reqs + [r]) ==
            AnswersUnswept(l, t, reqs) + [Request(l, After(l, t, reqs), r.ip, r.now).1]
    ensures After(l, t, reqs + [r]) == Request(l, After(l, t, reqs), r.ip, r.now).0
    decreases |reqs|
  {
    hide Request;
    if reqs == [] {
      assert [] + [r] == [r] && [r][1..] == [];
    } else {
      assert (reqs + [r])[1..] == reqs[1..] + [r];
      AnswersSnoc(l, Request(l, t, reqs[0].ip, reqs[0].now).0, reqs[1..], r);
    }
  }

  /** Addresses do not touch one another: each counter is the replay of its own requests. */
  lemma {:induction false} CounterIsItsOwn(l: Limits, reqs: seq<Req>, ip: string)
    ensures var (t, times) := (After(l, map[], reqs), TimesOf(reqs, ip));
            (ip in t <==> times != []) &&
            (ip in t ==> t[ip] == Replay(l, NewCounter(l, times[0]), times))
    decreases |reqs|
  {
    hide After, Hit, Replay, Request, TimesOf;
    AfterNone(l, ip);
    if reqs != [] {
      var earlier, r := reqs[..|reqs|-1], reqs[|reqs|-1];
      CounterIsItsOwn(l, earlier, ip);
      TimesSnoc(reqs, ip);
      assert reqs == earlier + [r];
      AnswersSnoc(l, map[], earlier, r);
      Entered(l, After(l, map[], earlier), ip, r);
      var times := TimesOf(earlier, ip);
      ReplaySnoc(l, NewCounter(l, (times + [r.now])[0]), times, r.now, 0);
      assert times + [] == times;
      if times == [] { assert (times + [r.now])[0] == r.now; } else { assert (times + [r.now])[0] == times[0]; }
    }
  }

  lemma {:induction false} Entered(l: Limits, t: Table, ip: string, r: Req)
    ensures var u := Request(l, t, r.ip, r.now).0;
            if r.ip == ip then
              var h := Hit(l, if ip in t then t[ip] else NewCounter(l, r.now), r.now);
              ip in u && u[ip] == h.0 && Request(l, t, r.ip, r.now).1 == h.1
            else (ip in u <==> ip in t) && (ip in t ==> u[ip] == t[ip])
  {
    hide Hit;
  }

  lemma {:induction false} TimesSnoc(reqs: seq<Req>, ip: string)
    requires reqs != []
    ensures TimesOf(reqs, ip) == TimesOf(reqs[..|reqs|-1], ip)
                                + if reqs[|reqs|-1].ip == ip then [reqs[|reqs|-1].now] else []
  {}

  lemma {:induction false} AfterNone(l: Limits, ip: string)
    ensures After(l, map[], []) == map[] && TimesOf([], ip) == []
  {}

  /** How many requests of `ip` are answered with Allowed at or after `a` and before `a + window`. */
  function LetThrough(l: Limits, reqs: seq<Req>, ans: seq<Answer>, ip: string, a: Time): nat
    requires |reqs| == |ans|
    decreases |reqs|
  {
    if reqs == [] then 0
    else
      var n := |reqs| - 1;
      LetThrough(l, reqs[..n], ans[..n], ip, a)
      + if reqs[n].ip == ip && ans[n].Allowed? && a <= reqs[n].now < a + l.window then 1 else 0
  }

  lemma {:induction false} AnswersLength(l: Limits, s: State, t: Table, reqs: seq<Req>)
    ensures |Answers(l, s, reqs)| == |AnswersUnswept(l, t, reqs)| == |reqs|
    decreases |reqs|
  {
    if reqs != [] {
      var r := reqs[0];
      AnswersLength(l, Allow(l, s, r.ip, r.now).0, Request(l, t, r.ip, r.now).0, reqs[1..]);
    }
  }

  lemma {:induction false} LetThroughIsPassed(l: Limits, reqs: seq<Req>, ip: string, a: Time, ans: seq<Answer>)
    requires |ans| == |reqs| && ans == AnswersUnswept(l, map[], reqs)
    ensures var times := TimesOf(reqs, ip);
            LetThrough(l, reqs, ans, ip, a) ==
            if times == [] then 0 else Passed(l, NewCounter(l, times[0]), times, a)
    decreases |reqs|
  {
    hide After, Hit, Replay, Request, TimesOf, Passed, AnswersUnswept;
    AfterNone(l, ip);
    if reqs != [] {
      var n := |reqs| - 1;
      var earlier, r, was := reqs[..n], reqs[n], TimesOf(reqs[..n], ip);
      assert reqs == earlier + [r];
      AnswersSnoc(l, map[], earlier, r);
      AnswersLength(l, State(map[], 0), map[], earlier);
      assert ans[..n] == AnswersUnswept(l, map[], earlier);
      LetThroughIsPassed(l, earlier, ip, a, ans[..n]);
      CounterIsItsOwn(l, earlier, ip);
      TimesSnoc(reqs, ip);
      Entered(l, After(l, map[], earlier), ip, r);
      ReplaySnoc(l, NewCounter(l, (was + [r.now])[0]), was, r.now, a);
      assert was + [] == was;
      if was == [] { assert (was + [r.now])[0] == r.now; } else { assert (was + [r.now])[0] == was[0]; }
    }
  }

  lemma {:induction false} TimesInOrder(reqs: seq<Req>, ip: string, from: Time)
    requires Ordered(reqs, from)
    ensures ClockForward(TimesOf(reqs, ip), Itself) && (forall t :: t in TimesOf(reqs, ip) ==> from <= t)
    ensures reqs != [] ==> forall t :: t in TimesOf(reqs, ip) ==> t <= reqs[|reqs|-1].now
    decreases |reqs|
  {
    if reqs != [] {
      var n := |reqs| - 1;
      ClockOrder(reqs, At, 0);
      TimesInOrder(reqs[..n], ip, from);
      var was := TimesOf(reqs[..n], ip);
      if was != [] { assert was[|was|-1] in was; }
      if reqs[n].ip == ip {
        assert TimesOf(reqs, ip) == was + [reqs[n].now] && (was + [reqs[n].now])[..|was|] == was;
      } else {
        assert TimesOf(reqs, ip) == was;
      }
    }
  }

  /**
   The limiter as it runs, sweeping and all: while the table stays below its ceiling and the
   clock does not go back, no address gets more than twice the burst through in one window's length.
   */
  lemma {:induction false} LimiterBound(l: Limits, lastGC: Time, reqs: seq<Req>, ip: string, from: Time, a: Time)
    requires l.burst >= 1 && l.ban >= l.window > 0
    requires Ordered(reqs, from) && Roomy(l, State(map[], lastGC), reqs)
    ensures |Answers(l, State(map[], lastGC), reqs)| == |reqs|
    ensures LetThrough(l, reqs, Answers(l, State(map[], lastGC), reqs), ip, a) <= 2 * l.burst
  {
    var s, times := State(map[], lastGC), TimesOf(reqs, ip);
    AnswersLength(l, s, map[], reqs);
    SweepingIsInvisible(l, s, map[], reqs, from);
    LetThroughIsPassed(l, reqs, ip, a, AnswersUnswept(l, map[], reqs));
    TimesInOrder(reqs, ip, from);
    if times != [] { AtMostTwiceTheBurst(l, times[0], times, a); }
  }

  // ---------------------------------------------------------------- a refusal means what it says

  lemma {:induction false} AnswerAt(l: Limits, reqs: seq<Req>, j: nat)
    requires j < |reqs|
    ensures |AnswersUnswept(l, map[], reqs)| == |reqs|
    ensures AnswersUnswept(l, map[], reqs)[j] == Request(l, After(l, map[], reqs[..j]), reqs[j].ip, reqs[j].now).1
    decreases |reqs|
  {
    hide Request;
    var earlier, r := reqs[..|reqs|-1], reqs[|reqs|-1];
    assert reqs == earlier + [r];
    AnswersLength(l, State(map[], 0), map[], reqs);
    AnswersSnoc(l, map[], earlier, r);
    if j < |reqs| - 1 {
      AnswerAt(l, earlier, j);
      assert earlier[..j] == reqs[..j];
    }
  }

  lemma {:induction false} AfterPrefix(l: Limits, reqs: seq<Req>, j: nat)
    requires j < |reqs|
    ensures After(l, map[], reqs[..j+1]) == Request(l, After(l, map[], reqs[..j]), reqs[j].ip, reqs[j].now).0
  {
    hide Request;
    AnswersSnoc(l, map[], reqs[..j], reqs[j]);
    assert reqs[..j+1] == reqs[..j] + [reqs[j]];
  }

  /** A banned counter stands until somebody of that address asks at its end or later. */
  lemma {:induction false} BanStands(l: Limits, reqs: seq<Req>, ip: string, i: nat, j: nat, c: Counter)
    requires i <= j <= |reqs| && c.banTill.Some?
    requires var t := After(l, map[], reqs[..i]); ip in t && t[ip] == c
    requires forall k :: i <= k < j && reqs[k].ip == ip ==> reqs[k].now < c.banTill.value
    ensures var t := After(l, map[], reqs[..j]); ip in t && t[ip] == c
    decreases j
  {
    hide After;
    if i < j {
      BanStands(l, reqs, ip, i, j - 1, c);
      AfterPrefix(l, reqs, j - 1);
    }
  }

  lemma {:induction false} RefusedTill(l: Limits, t: Table, ip: string, now: Time)
    ensures var (u, a) := Request(l, t, ip, now);
            a.Refused? ==> ip in u && u[ip].banTill == Some(now + a.retry)
  {}

  lemma {:induction false} AnsweredWhileBanned(l: Limits, t: Table, ip: string, now: Time)
    requires l.burst >= 1 && ip in t && t[ip].banTill.Some?
    ensures Request(l, t, ip, now).1 ==
            if now < t[ip].banTill.value then Refused(t[ip].banTill.value - now) else Allowed
  {}

  /**
   The limiter as it runs: once an address is refused and told how long to wait, every request it
   makes before that moment is refused with just the time that is left, and the first one at
   that moment or later is let through. Knocking does not lengthen the ban.
   */
  lemma {:induction false} RefusalMeansWhatItSays(
    l: Limits, lastGC: Time, reqs: seq<Req>, from: Time, i: nat, j: nat, ans: seq<Answer>)
    requires l.burst >= 1 && l.window >= 0
    requires Ordered(reqs, from) && Roomy(l, State(map[], lastGC), reqs)
    requires ans == Answers(l, State(map[], lastGC), reqs) && |ans| == |reqs|
    requires i < j < |reqs| && reqs[j].ip == reqs[i].ip && ans[i].Refused?
    requires forall k :: i < k < j && reqs[k].ip == reqs[i].ip ==> reqs[k].now < reqs[i].now + ans[i].retry
    ensures var end := reqs[i].now + ans[i].retry;
            ans[j] == if reqs[j].now < end then Refused(end - reqs[j].now) else Allowed
  {
    hide After, Request, Answers, AnswersUnswept, Roomy;
    var ip, end := reqs[i].ip, reqs[i].now + ans[i].retry;
    SweepingIsInvisible(l, State(map[], lastGC), map[], reqs, from);
    AnswerAt(l, reqs, i);
    AnswerAt(l, reqs, j);
    AfterPrefix(l, reqs, i);
    RefusedTill(l, After(l, map[], reqs[..i]), ip, reqs[i].now);
    BanStands(l, reqs, ip, i + 1, j, After(l, map[], reqs[..i+1])[ip]);
    AnsweredWhileBanned(l, After(l, map[], reqs[..j]), ip, reqs[j].now);
  }

  // ---------------------------------------------------------------- when a ban begins

  /** `till` is the moment an earlier refusal of `ip` told. */
  ghost predicate Told(reqs: seq<Req>, ans: seq<Answer>, ip: string, till: Time)
    requires |reqs| == |ans|
  {
    exists k :: 0 <= k < |reqs| && reqs[k].ip == ip && ans[k].Refused? && reqs[k].now + ans[k].retry == till
  }

  lemma {:induction false} ToldSnoc(
    reqs: seq<Req>, ans: seq<Answer>, r: Req, a: Answer, ip: string, till: Time)
    requires |reqs| == |ans|
    requires Told(reqs, ans, ip, till) || (r.ip == ip && a.Refused? && r.now + a.retry == till)
    ensures Told(reqs + [r], ans + [a], ip, till)
  {
    var n, rs, as_ := |reqs|, reqs + [r], ans + [a];
    if Told(reqs, ans, ip, till) {
      var k :| 0 <= k < n && reqs[k].ip == ip && ans[k].Refused? && reqs[k].now + ans[k].retry == till;
      assert rs[k] == reqs[k] && as_[k] == ans[k];
    } else {
      assert rs[n] == r && as_[n] == a;
    }
  }

  /** No address is banned without having been told until when. */
  lemma {:induction false} BansWereTold(l: Limits, reqs: seq<Req>, ip: string)
    ensures |AnswersUnswept(l, map[], reqs)| == |reqs|
    ensures var t := After(l, map[], reqs);
            ip in t && t[ip].banTill.Some? ==> Told(reqs, AnswersUnswept(l, map[], reqs), ip, t[ip].banTill.value)
    decreases |reqs|
  {
    hide After, AnswersUnswept, Told, Request, Hit;
    AnswersLength(l, State(map[], 0), map[], reqs);
    AfterNone(l, ip);
    if reqs != [] {
      var earlier, r := reqs[..|reqs|-1], reqs[|reqs|-1];
      BansWereTold(l, earlier, ip);
      assert reqs == earlier + [r];
      AnswersSnoc(l, map[], earlier, r);
      var t := After(l, map[], earlier);
      Entered(l, t, ip, r);
      if r.ip == ip { HitTells(l, if ip in t then t[ip] else NewCounter(l, r.now), r.now); }
      var u := After(l, map[], reqs);
      if ip in u && u[ip].banTill.Some? {
        ToldSnoc(earlier, AnswersUnswept(l, map[], earlier), r, Request(l, t, r.ip, r.now).1, ip, u[ip].banTill.value);
      }
    }
  }

  lemma {:induction false} HitTells(l: Limits, c: Counter, now: Time)
    ensures var (d, a) := Hit(l, c, now); d.banTill.Some? ==> a == Refused(d.banTill.value - now)
    ensures var a := Hit(l, c, now).1; a.Refused? ==> a == Refused(l.ban) || c.banTill == Some(now + a.retry)
    ensures Banned(c, now) <==> c.banTill.Some? && now < c.banTill.value
  {}

  /** An earlier refusal of the address that asks at `j` is still in force. */
  ghost predicate StillBanned(reqs: seq<Req>, ans: seq<Answer>, j: nat)
    requires j < |reqs| == |ans|
  {
    exists k :: 0 <= k < j && reqs[k].ip == reqs[j].ip && ans[k].Refused? && reqs[j].now < reqs[k].now + ans[k].retry
  }

  /** Who is banned at `j` has been told so before: the answer on the counter's side. */
  lemma {:induction false} BannedWasTold(l: Limits, reqs: seq<Req>, j: nat)
    requires j < |reqs|
    ensures |AnswersUnswept(l, map[], reqs)| == |reqs|
    ensures var t := After(l, map[], reqs[..j]);
            reqs[j].ip in t && Banned(t[reqs[j].ip], reqs[j].now) ==>
              StillBanned(reqs, AnswersUnswept(l, map[], reqs), j)
  {
    hide After, Request, Hit, AnswersUnswept;
    var ip, t := reqs[j].ip, After(l, map[], reqs[..j]);
    AnswersLength(l, State(map[], 0), map[], reqs);
    BansWereTold(l, reqs[..j], ip);
    if ip in t && Banned(t[ip], reqs[j].now) {
      var was, all, till := AnswersUnswept(l, map[], reqs[..j]), AnswersUnswept(l, map[], reqs), t[ip].banTill.value;
      var k :| 0 <= k < j && reqs[..j][k].ip == ip && was[k].Refused? && reqs[..j][k].now + was[k].retry == till;
      AnswerAt(l, reqs[..j], k);
      AnswerAt(l, reqs, k);
      assert reqs[..j][..k] == reqs[..k];
      assert reqs[k].ip == ip && all[k] == was[k];
    }
  }

  /**
   The limiter as it runs: a refusal that no earlier one announced begins a ban, and whoever gets it
   is told the whole of it.
   */
  lemma {:induction false} NewBansAreWhole(
    l: Limits, lastGC: Time, reqs: seq<Req>, from: Time, j: nat, ans: seq<Answer>)
    requires l.window >= 0 && Ordered(reqs, from) && Roomy(l, State(map[], lastGC), reqs)
    requires ans == Answers(l, State(map[], lastGC), reqs) && |ans| == |reqs|
    requires j < |reqs| && ans[j].Refused? && !StillBanned(reqs, ans, j)
    ensures ans[j] == Refused(l.ban)
  {
    hide After, Request, Hit, Answers, AnswersUnswept, Roomy, StillBanned;
    var r, t := reqs[j], After(l, map[], reqs[..j]);
    SweepingIsInvisible(l, State(map[], lastGC), map[], reqs, from);
    AnswerAt(l, reqs, j);
    BannedWasTold(l, reqs, j);
    Entered(l, t, r.ip, r);
    UnbannedHit(l, if r.ip in t then t[r.ip] else NewCounter(l, r.now), r.now);
  }

  lemma {:induction false} UnbannedHit(l: Limits, c: Counter, now: Time)
    requires !Banned(c, now)
    ensures Hit(l, c, now).1 == Allowed || Hit(l, c, now).1 == Refused(l.ban)
  {}

  // ---------------------------------------------------------------- who is let through

  /** How many requests of `ip` there are at `a` or later. */
  function Since(reqs: seq<Req>, ip: string, a: Time): nat
    decreases |reqs|
  {
    if reqs == [] then 0
    else
      var r := reqs[|reqs|-1];
      Since(reqs[..|reqs|-1], ip, a) + if r.ip == ip && a <= r.now then 1 else 0
  }

  lemma {:induction false} SinceEarlier(reqs: seq<Req>, ip: string, a: Time, b: Time)
    requires a <= b
    ensures Since(reqs, ip, b) <= Since(reqs, ip, a)
    decreases |reqs|
  {
    if reqs != [] { SinceEarlier(reqs[..|reqs|-1], ip, a, b); }
  }

  /** A counter that is not banned has counted no more than was asked since its window began. */
  ghost predicate CountsSince(l: Limits, c: Counter, reqs: seq<Req>, ip: string) {
    c.banTill.None? ==> c.n <= Since(reqs, ip, c.resetAt - l.window)
  }

  lemma {:induction false} HitCountsSince(l: Limits, c: Counter, reqs: seq<Req>, ip: string, now: Time)
    requires reqs != [] && reqs[|reqs|-1] == Req(ip, now) && c.resetAt - l.window <= now
    requires CountsSince(l, c, reqs[..|reqs|-1], ip)
    ensures CountsSince(l, Hit(l, c, now).0, reqs, ip) && Hit(l, c, now).0.resetAt - l.window <= now
  {}

  lemma {:induction false} CountersCountSince(l: Limits, reqs: seq<Req>, ip: string, now: Time)
    requires ClockForward(reqs, At) && (reqs != [] ==> reqs[|reqs|-1].now <= now)
    ensures var t := After(l, map[], reqs);
            ip in t ==> CountsSince(l, t[ip], reqs, ip) && t[ip].resetAt - l.window <= now
    decreases |reqs|
  {
    hide After, Request, Hit, CountsSince;
    AfterNone(l, ip);
    if reqs != [] {
      var earlier, r := reqs[..|reqs|-1], reqs[|reqs|-1];
      if earlier != [] { assert earlier[|earlier|-1] == reqs[|reqs|-2]; }
      CountersCountSince(l, earlier, ip, r.now);
      assert reqs == earlier + [r];
      AnswersSnoc(l, map[], earlier, r);
      var t := After(l, map[], earlier);
      Entered(l, t, ip, r);
      if r.ip == ip {
        NewCountsSince(l, earlier, ip, r.now);
        HitCountsSince(l, if ip in t then t[ip] else NewCounter(l, r.now), reqs, ip, r.now);
      } else if ip in t {
        OthersUncounted(l, t[ip], reqs, ip);
      }
    }
  }

  lemma {:induction false} NewCountsSince(l: Limits, reqs: seq<Req>, ip: string, now: Time)
    ensures CountsSince(l, NewCounter(l, now), reqs, ip)
  {}

  lemma {:induction false} OthersUncounted(l: Limits, c: Counter, reqs: seq<Req>, ip: string)
    requires reqs != [] && reqs[|reqs|-1].ip != ip && CountsSince(l, c, reqs[..|reqs|-1], ip)
    ensures CountsSince(l, c, reqs, ip)
  {}

  lemma {:induction false} FewPass(l: Limits, c: Counter, reqs: seq<Req>, ip: string, now: Time)
    requires CountsSince(l, c, reqs, ip) && !Banned(c, now) && l.window >= 0
    requires Since(reqs, ip, now - l.window) < l.burst
    ensures Hit(l, c, now).1 == Allowed
  {
    if c.banTill.None? && now <= c.resetAt { SinceEarlier(reqs, ip, now - l.window, c.resetAt - l.window); }
  }

  /**
   The limiter as it runs: an address under no ban that asked fewer times than the burst during the
   last window is let through, whatever the others did.
   */
  lemma {:induction false} QuietIsServed(
    l: Limits, lastGC: Time, reqs: seq<Req>, from: Time, j: nat, ans: seq<Answer>)
    requires l.window >= 0 && Ordered(reqs, from) && Roomy(l, State(map[], lastGC), reqs)
    requires ans == Answers(l, State(map[], lastGC), reqs) && |ans| == |reqs|
    requires j < |reqs| && !StillBanned(reqs, ans, j)
    requires Since(reqs[..j], reqs[j].ip, reqs[j].now - l.window) < l.burst
    ensures ans[j] == Allowed
  {
    hide After, Request, Hit, Answers, AnswersUnswept, Roomy, StillBanned, CountsSince, Since;
    var r, t := reqs[j], After(l, map[], reqs[..j]);
    SweepingIsInvisible(l, State(map[], lastGC), map[], reqs, from);
    AnswerAt(l, reqs, j);
    BannedWasTold(l, reqs, j);
    Entered(l, t, r.ip, r);
    ClockPrefix(reqs, At, j);
    if j > 0 { InOrder(reqs, j); }
    CountersCountSince(l, reqs[..j], r.ip, r.now);
    NewCountsSince(l, reqs[..j], r.ip, r.now);
    FewPass(l, if r.ip in t then t[r.ip] else NewCounter(l, r.now), reqs[..j], r.ip, r.now);
  }

  lemma {:induction false} InOrder(reqs: seq<Req>, j: nat)
    requires ClockForward(reqs, At) && 0 < j < |reqs|
    ensures reqs[..j][j-1].now <= reqs[j].now
  {
    ClockPrefix(reqs, At, j + 1);
    ClockOrder(reqs[..j+1], At, j - 1);
  }

  // ---------------------------------------------------------------- the table itself

  /** The state after a whole trace. */
  function AllowAll(l: Limits, s: State, reqs: seq<Req>): State
    decreases |reqs|
  {
    if reqs == [] then s else AllowAll(l, Allow(l, s, reqs[0].ip, reqs[0].now).0, reqs[1..])
  }

  /** No trace brings the table above its ceiling. */
  lemma {:induction false} TableBounded(l: Limits, s: State, reqs: seq<Req>)
    requires 1 <= l.maxKeys && |s.seen| <= l.maxKeys
    ensures |AllowAll(l, s, reqs).seen| <= l.maxKeys
    decreases |reqs|
  {
    if reqs != [] {
      var g := Swept(l, s, reqs[0].now);
      if |s.seen| < l.maxKeys { NoMore(g.seen, s.seen); }
      var t := Allow(l, s, reqs[0].ip, reqs[0].now).0;
      OneMore(g.seen, t.seen, reqs[0].ip);
      TableBounded(l, t, reqs[1..]);
    }
  }

  lemma {:induction false} NoMore(t: Table, u: Table)
    requires t.Keys <= u.Keys
    ensures |t| <= |u|
  {
    Subset(t.Keys, u.Keys);
    assert |t| == |t.Keys| && |u| == |u.Keys|;
  }

  lemma {:induction false} OneMore(t: Table, u: Table, ip: string)
    requires u.Keys == t.Keys + {ip}
    ensures |u| <= |t| + 1
  {
    assert |t| == |t.Keys| && |u| == |u.Keys|;
    if ip in t.Keys { assert u.Keys == t.Keys; }
  }

  lemma {:induction false} Subset(a: set<string>, b: set<string>)
    requires a <= b
    ensures |a| <= |b|
  {
    if x :| x in a { Subset(a - {x}, b - {x}); }
  }

  /**
   What a request leaves of the other counters: once a window has passed since the last sweep, those
   that are past both their window and their ban go and no others do; a table at its ceiling goes whole.
   */
  lemma {:induction false} WhatStays(l: Limits, s: State, ip: string, now: Time, other: string)
    requires other != ip
    ensures var t := Allow(l, s, ip, now).0;
            && (|s.seen| >= l.maxKeys ==> t.seen.Keys == {ip} && t.lastGC == now)
            && (|s.seen| < l.maxKeys ==>
                  && (other in t.seen <==>
                        other in s.seen &&
                        !(now - s.lastGC >= l.window && now > s.seen[other].resetAt
                          && (s.seen[other].banTill.None? || now > s.seen[other].banTill.value)))
                  && (other in t.seen ==> t.seen[other] == s.seen[other])
                  && t.lastGC == if now - s.lastGC >= l.window then now else s.lastGC)
  {
    hide Hit;
  }

  // ---------------------------------------------------------------- the limiter itself

  class RequestLimiter {
    const l: Limits
    var seen: Table
    var lastGC: Time

    function Snapshot(): State
      reads this
    {
      State(seen, lastGC)
    }

    constructor (burst: int, window: int, ban: int)
      ensures l == Limits(burst, window, ban, 100_000) && seen == map[] && lastGC == 0
    {
      l := Limits(burst, window, ban, 100_000);
      seen, lastGC := map[], 0;
    }

    method AllowRequest(ip: string, now: Time) returns (a: Answer)
      modifies this
      ensures (Snapshot(), a) == Allow(l, old(Snapshot()), ip, now)
    {
      hide Swept, Request;
      Sweep(now);
      a := CountRequest(ip, now);
    }

    /** The rest of `allow`, after the sweep. */
    method CountRequest(ip: string, now: Time) returns (a: Answer)
      modifies this`seen
      ensures (seen, a) == Request(l, old(seen), ip, now)
    {
      ghost var was := seen;
      var c;
      if ip in seen {
        c := seen[ip];
      } else {
        c := Counter(0, now + l.window, None);
        seen := seen[ip := c];
      }
      if c.banTill.Some? && now < c.banTill.value {
        assert seen[ip := c] == seen;
        return Refused(c.banTill.value - now);
      }
      if c.banTill.Some? {
        c := Counter(0, now + l.window, None);
      }
      if now > c.resetAt {
        c := c.(n := 0, resetAt := now + l.window);
      }
      c := c.(n := c.n + 1);
      if c.n > l.burst {
        c := c.(banTill := Some(now + l.ban));
        seen := seen[ip := c];
        assert seen == was[ip := c];
        return Refused(l.ban);
      }
      seen := seen[ip := c];
      assert seen == was[ip := c];
      return Allowed;
    }

    method Sweep(now: Time)
      modifies this
      ensures Snapshot() == Swept(l, old(Snapshot()), now)
    {
      if |seen| >= l.maxKeys {
        seen, lastGC := map[], now;
        return;
      }
      if now - lastGC < l.window { return; }
      var keys := seen.Keys;
      while keys != {}
        invariant keys <= old(seen).Keys
        invariant seen == old(seen) - (set ip | ip in old(seen) && ip !in keys && Spent(old(seen)[ip], now))
        invariant lastGC == old(lastGC)
        decreases keys
      {
        var ip :| ip in keys;
        var c := seen[ip];
        if now > c.resetAt && (c.banTill.None? || now > c.banTill.value) {
          seen := seen - {ip};
        }
        keys := keys - {ip};
      }
      lastGC := now;
    }
  }
}
