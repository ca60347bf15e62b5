/**
 Fictitious IPv4 addresses for domains (internal/client/fakeip/pool.go): fake address to
 entry, domain to fake, and real address back to fake. Fakes are uint32 values.
 */
module FakeIp {
  import opened Basics
  import opened CircularAlloc
  import opened AddrBits

  type RealAddr = Octets

  const DEFAULT_TTL: int := 3_600_000_000_000   // one hour

  datatype Entry = Entry(domain: string, addrs: seq<RealAddr>, expires: Time)

  datatype State = State(
    lo: nat, hi: nat, ttl: int, next: nat,
    byFake: map<nat, Entry>, byDomain: map<string, nat>, byReal: map<RealAddr, nat>)

  /** A trailing dot is dropped. */
  function Norm(d: string): string {
    if d != "" && d[|d|-1] == '.' then d[..|d|-1] else d
  }

  // ---------------------------------------------------------------- specification

  function Detached(byReal: map<RealAddr, nat>, addrs: seq<RealAddr>): map<RealAddr, nat> {
    byReal - (set r | r in addrs)
  }

  /** The loop that leads each of the addresses to the fake. */
  function Attached(byReal: map<RealAddr, nat>, addrs: seq<RealAddr>, fake: nat): (m: map<RealAddr, nat>)
    ensures m.Keys == byReal.Keys + (set r | r in addrs)
    ensures forall r :: r in m ==> m[r] == if r in addrs then fake else byReal[r]
  {
    if addrs == [] then byReal
    else
      assert addrs == addrs[..|addrs|-1] + [addrs[|addrs|-1]];
      Attached(byReal, addrs[..|addrs|-1], fake)[addrs[|addrs|-1] := fake]
  }

  /** Fakes whose mapping has not expired. */
  function LiveAt(s: State, now: Time): set<nat> {
    set f | f in s.byFake && now <= s.byFake[f].expires
  }

  /** The address alloc comes to rest on loses its expired mapping, if it has one. */
  function Reclaimed(s: State, a: nat): State {
    if a !in s.byFake then s
    else
      var e := s.byFake[a];
      s.(byFake := s.byFake - {a}, byDomain := s.byDomain - {e.domain}, byReal := Detached(s.byReal, e.addrs))
  }

  function Allocated(s: State, now: Time): (State, Option<nat>)
    requires s.lo <= s.hi
  {
    var p := Pick(s.lo, s.hi, s.next, LiveAt(s, now));
    var t := s.(next := p.cursor);
    (if p.found.Some? then Reclaimed(t, p.found.value) else t, p.found)
  }

  predicate Known(s: State, domain: string) {
    domain in s.byDomain && s.byDomain[domain] in s.byFake
  }

  function Refreshed(s: State, domain: string, addrs: seq<RealAddr>, now: Time): State
    requires Known(s, domain)
  {
    var fake := s.byDomain[domain];
    var e := s.byFake[fake];
    s.(byFake := s.byFake[fake := e.(addrs := addrs, expires := now + s.ttl)],
       byReal := Attached(Detached(s.byReal, e.addrs), addrs, fake))
  }

  function Added(s: State, domain: string, addrs: seq<RealAddr>, now: Time, fake: nat): State {
    s.(byFake := s.byFake[fake := Entry(domain, addrs, now + s.ttl)],
       byDomain := s.byDomain[domain := fake],
       byReal := Attached(s.byReal, addrs, fake))
  }

  function AssignStep(s: State, domain: string, addrs: seq<RealAddr>, now: Time): (State, Option<nat>)
    requires s.lo <= s.hi
  {
    var d := Norm(domain);
    if d == "" then (s, None)
    else if Known(s, d) then (Refreshed(s, d, addrs, now), Some(s.byDomain[d]))
    else
      var (t, found) := Allocated(s, now);
      if found.None? then (t, None) else (Added(t, d, addrs, now, found.value), found)
  }

  function DomainAt(s: State, fake: nat, now: Time): Option<string> {
    if fake !in s.byFake || now > s.byFake[fake].expires then None else Some(s.byFake[fake].domain)
  }

  function RealAt(s: State, fake: nat, now: Time): Option<seq<RealAddr>> {
    if fake !in s.byFake || now > s.byFake[fake].expires then None else Some(s.byFake[fake].addrs)
  }

  // ---------------------------------------------------------------- the invariant

  /** Fake and domain are inverse to one another; a real address leads to a fake that lists it. */
  ghost predicate Inv(s: State) {
    && Closed(s.lo, s.hi) && InPool(s.lo, s.hi, s.next) && s.ttl > 0
    && (forall f :: f in s.byFake ==> InPool(s.lo, s.hi, f))
    && (forall f :: f in s.byFake ==> s.byFake[f].domain in s.byDomain && s.byDomain[s.byFake[f].domain] == f)
    && (forall d :: d in s.byDomain ==> s.byDomain[d] in s.byFake && s.byFake[s.byDomain[d]].domain == d)
    && (forall r :: r in s.byReal ==> s.byReal[r] in s.byFake && r in s.byFake[s.byReal[r]].addrs)
  }

  lemma {:induction false} ReclaimKeepsInv(s: State, a: nat)
    requires Inv(s)
    ensures Inv(Reclaimed(s, a)) && a !in Reclaimed(s, a).byFake
    ensures forall d :: d !in s.byDomain ==> d !in Reclaimed(s, a).byDomain
  {}

  lemma {:induction false} AllocKeepsInv(s: State, now: Time)
    requires Inv(s)
    ensures var (t, found) := Allocated(s, now);
            && Inv(t)
            && (found.Some? ==> InPool(s.lo, s.hi, found.value) && found.value !in t.byFake)
            && (forall d :: d !in s.byDomain ==> d !in t.byDomain)
  {
    PickFinds(s.lo, s.hi, s.next, LiveAt(s, now));
    hide Pick;
    var p := Pick(s.lo, s.hi, s.next, LiveAt(s, now));
    if p.found.Some? { ReclaimKeepsInv(s.(next := p.cursor), p.found.value); }
  }

  lemma {:induction false} RefreshKeepsInv(s: State, d: string, addrs: seq<RealAddr>, now: Time)
    requires Inv(s) && Known(s, d)
    ensures Inv(Refreshed(s, d, addrs, now))
  {}

  lemma {:induction false} AddKeepsInv(s: State, d: string, addrs: seq<RealAddr>, now: Time, fake: nat)
    requires Inv(s) && d !in s.byDomain && fake !in s.byFake && InPool(s.lo, s.hi, fake)
    ensures Inv(Added(s, d, addrs, now, fake))
  {}

  /** Assigning keeps the maps consistent, and its answer is at once in force. */
  lemma {:induction false} AssignKeepsInv(s: State, domain: string, addrs: seq<RealAddr>, now: Time)
    requires Inv(s)
    ensures var (t, fake) := AssignStep(s, domain, addrs, now);
            && Inv(t) && t.lo == s.lo && t.hi == s.hi && t.ttl == s.ttl
            && (fake.Some? ==>
                  && fake.value in t.byFake && t.byFake[fake.value] == Entry(Norm(domain), addrs, now + s.ttl)
                  && (forall r :: r in addrs ==> r in t.byReal && t.byReal[r] == fake.value))
  {
    var d := Norm(domain);
    if d != "" {
      if Known(s, d) {
        RefreshKeepsInv(s, d, addrs, now);
      } else {
        AllocKeepsInv(s, now);
        hide Allocated;
        var (t, found) := Allocated(s, now);
        if found.Some? { AddKeepsInv(t, d, addrs, now, found.value); }
      }
    }
  }

  /** A new domain is refused exactly when every address of the pool holds an unexpired mapping. */
  lemma {:induction false} RefusedIff(s: State, domain: string, addrs: seq<RealAddr>, now: Time)
    requires Inv(s)
    ensures AssignStep(s, domain, addrs, now).1.None? <==>
            Norm(domain) == "" ||
            (Norm(domain) !in s.byDomain &&
             forall a :: InPool(s.lo, s.hi, a) ==> a in s.byFake && now <= s.byFake[a].expires)
  {
    PickFinds(s.lo, s.hi, s.next, LiveAt(s, now));
    hide Pick;
  }

  /** At most one mapping goes, it had expired, and it is the one of the address given out. */
  lemma {:induction false} LosesOnlyTheStale(s: State, domain: string, addrs: seq<RealAddr>, now: Time, f: nat)
    requires Inv(s) && f in s.byFake
    ensures var (t, fake) := AssignStep(s, domain, addrs, now);
            t.byFake.Keys >= s.byFake.Keys &&
            (t.byFake[f].domain != s.byFake[f].domain ==> fake == Some(f) && now > s.byFake[f].expires)
  {
    PickFinds(s.lo, s.hi, s.next, LiveAt(s, now));
    hide Pick;
  }

  // ---------------------------------------------------------------- runs

  datatype Event = Assign(domain: string, addrs: seq<RealAddr>, now: Time)

  function Run(s: State, evs: seq<Event>): (t: State)
    requires s.lo <= s.hi
    ensures t.lo == s.lo && t.hi == s.hi
    decreases |evs|
  {
    if evs == [] then s else Run(AssignStep(s, evs[0].domain, evs[0].addrs, evs[0].now).0, evs[1..])
  }

  lemma {:induction false} RunKeepsInv(s: State, evs: seq<Event>)
    requires Inv(s)
    ensures Inv(Run(s, evs))
    decreases |evs|
  {
    if evs != [] {
      AssignKeepsInv(s, evs[0].domain, evs[0].addrs, evs[0].now);
      RunKeepsInv(AssignStep(s, evs[0].domain, evs[0].addrs, evs[0].now).0, evs[1..]);
    }
  }

  /** The addresses last assigned to `d` in the run, or those it started with. */
  function LatestReal(d: string, addrs: seq<RealAddr>, evs: seq<Event>): seq<RealAddr>
    decreases |evs|
  {
    if evs == [] then addrs
    else LatestReal(d, if Norm(evs[0].domain) == d then evs[0].addrs else addrs, evs[1..])
  }

  /** Every event of the run falls into [from, till]. */
  ghost predicate Within(evs: seq<Event>, from: Time, till: Time) {
    forall ev :: ev in evs ==> from <= ev.now <= till
  }

  /** Some other domain is given `fake` during the run. */
  ghost predicate GivenToOther(s: State, d: string, fake: nat, evs: seq<Event>)
    requires s.lo <= s.hi
    decreases |evs|
  {
    evs != [] &&
    var (t, given) := AssignStep(s, evs[0].domain, evs[0].addrs, evs[0].now);
    (given == Some(fake) && Norm(evs[0].domain) != d) || GivenToOther(t, d, fake, evs[1..])
  }

  lemma {:induction false} StepHolds(s: State, d: string, fake: nat, till: Time, ev: Event)
    requires Inv(s) && d != "" && fake in s.byFake && s.byFake[fake].domain == d
    requires s.byFake[fake].expires >= till && till - s.ttl <= ev.now <= till
    ensures var (t, given) := AssignStep(s, ev.domain, ev.addrs, ev.now);
            && fake in t.byFake && t.byFake[fake].domain == d && t.byFake[fake].expires >= till
            && t.byFake[fake].addrs == (if Norm(ev.domain) == d then ev.addrs else s.byFake[fake].addrs)
            && (given == Some(fake) ==> Norm(ev.domain) == d)
  {
    PickFinds(s.lo, s.hi, s.next, LiveAt(s, ev.now));
    hide Pick;
  }

  lemma {:induction false} RunHolds(s: State, d: string, fake: nat, till: Time, evs: seq<Event>)
    requires Inv(s) && d != "" && fake in s.byFake && s.byFake[fake].domain == d
    requires s.byFake[fake].expires >= till && Within(evs, till - s.ttl, till)
    ensures var t := Run(s, evs);
            && fake in t.byFake && t.byFake[fake].domain == d && t.byFake[fake].expires >= till
            && t.byFake[fake].addrs == LatestReal(d, s.byFake[fake].addrs, evs)
    ensures !GivenToOther(s, d, fake, evs)
    decreases |evs|
  {
    if evs != [] {
      var ev := evs[0];
      assert ev in evs;
      StepHolds(s, d, fake, till, ev);
      AssignKeepsInv(s, ev.domain, ev.addrs, ev.now);
      hide AssignStep;
      var t := AssignStep(s, ev.domain, ev.addrs, ev.now).0;
      RunHolds(t, d, fake, till, evs[1..]);
    }
  }

  /**
   From an Assign at `t0` until `ttl` later, whatever else is assigned meanwhile: the fake keeps
   answering that domain with its latest addresses, and nobody else is given it.
   */
  lemma {:induction false} FakeIsHeld(
    s: State, domain: string, addrs: seq<RealAddr>, t0: Time, evs: seq<Event>, now: Time)
    requires Inv(s) && AssignStep(s, domain, addrs, t0).1.Some?
    requires Within(evs, t0, t0 + s.ttl) && now <= t0 + s.ttl
    ensures var (t, fake) := AssignStep(s, domain, addrs, t0);
            && DomainAt(Run(t, evs), fake.value, now) == Some(Norm(domain))
            && RealAt(Run(t, evs), fake.value, now) == Some(LatestReal(Norm(domain), addrs, evs))
            && !GivenToOther(t, Norm(domain), fake.value, evs)
  {
    AssignKeepsInv(s, domain, addrs, t0);
    var (t, fake) := AssignStep(s, domain, addrs, t0);
    RunHolds(t, Norm(domain), fake.value, t0 + s.ttl, evs);
  }

  /** And asking for that domain again meanwhile gives the same fake. */
  lemma {:induction false} SameFakeAgain(
    s: State, domain: string, addrs: seq<RealAddr>, t0: Time, evs: seq<Event>, more: seq<RealAddr>, now: Time)
    requires Inv(s) && AssignStep(s, domain, addrs, t0).1.Some?
    requires Within(evs, t0, t0 + s.ttl)
    ensures var (t, fake) := AssignStep(s, domain, addrs, t0); AssignStep(Run(t, evs), domain, more, now).1 == fake
  {
    AssignKeepsInv(s, domain, addrs, t0);
    var (t, fake) := AssignStep(s, domain, addrs, t0);
    RunHolds(t, Norm(domain), fake.value, t0 + s.ttl, evs);
    RunKeepsInv(t, evs);
  }

  // ---------------------------------------------------------------- what is answered

  /** The dot at the end of a full name makes no difference, and nothing else is dropped. */
  lemma {:induction false} TrailingDot(s: State, d: string, addrs: seq<RealAddr>, now: Time)
    requires s.lo <= s.hi && (d == "" || d[|d|-1] != '.')
    ensures Norm(d) == d && Norm(d + ".") == d
    ensures AssignStep(s, d + ".", addrs, now) == AssignStep(s, d, addrs, now)
  {
    assert (d + ".")[..|d|] == d;
  }

  /** What was last entered at `fake` in the run, or `last` from before it. */
  function LastEntered(s: State, fake: nat, last: Option<Entry>, evs: seq<Event>): Option<Entry>
    requires s.lo <= s.hi
    decreases |evs|
  {
    if evs == [] then last
    else
      var (t, given) := AssignStep(s, evs[0].domain, evs[0].addrs, evs[0].now);
      var e := Entry(Norm(evs[0].domain), evs[0].addrs, evs[0].now + s.ttl);
      LastEntered(t, fake, if given == Some(fake) then Some(e) else last, evs[1..])
  }

  lemma {:induction false} StepEnters(s: State, ev: Event, fake: nat)
    requires Inv(s)
    ensures var (t, given) := AssignStep(s, ev.domain, ev.addrs, ev.now);
            && (given == Some(fake) ==>
                  fake in t.byFake && t.byFake[fake] == Entry(Norm(ev.domain), ev.addrs, ev.now + s.ttl))
            && (given != Some(fake) ==>
                  && (fake in t.byFake <==> fake in s.byFake)
                  && (fake in s.byFake ==> t.byFake[fake] == s.byFake[fake]))
  {
    PickFinds(s.lo, s.hi, s.next, LiveAt(s, ev.now));
    hide Pick;
  }

  ghost predicate HoldsOnly(s: State, fake: nat, last: Option<Entry>) {
    (fake in s.byFake <==> last.Some?) && (last.Some? ==> s.byFake[fake] == last.value)
  }

  lemma {:induction false} StepHoldsOnly(s: State, ev: Event, fake: nat, last: Option<Entry>)
    requires Inv(s) && HoldsOnly(s, fake, last)
    ensures var (t, given) := AssignStep(s, ev.domain, ev.addrs, ev.now);
            var e := Entry(Norm(ev.domain), ev.addrs, ev.now + s.ttl);
            Inv(t) && t.ttl == s.ttl && HoldsOnly(t, fake, if given == Some(fake) then Some(e) else last)
  {
    hide AssignStep, Norm, Inv;
    StepEnters(s, ev, fake);
    AssignKeepsInv(s, ev.domain, ev.addrs, ev.now);
  }

  lemma {:induction false} RunEnters(s: State, fake: nat, last: Option<Entry>, evs: seq<Event>)
    requires Inv(s) && HoldsOnly(s, fake, last)
    ensures HoldsOnly(Run(s, evs), fake, LastEntered(s, fake, last, evs))
    decreases |evs|
  {
    hide AssignStep, Norm, HoldsOnly;
    if evs != [] {
      var ev := evs[0];
      StepHoldsOnly(s, ev, fake, last);
      var (t, given) := AssignStep(s, ev.domain, ev.addrs, ev.now);
      var e := Entry(Norm(ev.domain), ev.addrs, ev.now + s.ttl);
      RunEnters(t, fake, if given == Some(fake) then Some(e) else last, evs[1..]);
    }
  }

  /**
   After any run from an empty pool a fake answers the domain and the addresses of the Assign it was
   last given out by, and from the end of that Assign's lifetime on nothing.
   */
  lemma {:induction false} AnswersTheLast(s: State, evs: seq<Event>, fake: nat, now: Time)
    requires Inv(s) && s.byFake == map[]
    ensures var (t, last) := (Run(s, evs), LastEntered(s, fake, None, evs));
            && DomainAt(t, fake, now) ==
               (if last.Some? && now <= last.value.expires then Some(last.value.domain) else None)
            && RealAt(t, fake, now) ==
               (if last.Some? && now <= last.value.expires then Some(last.value.addrs) else None)
  {
    RunEnters(s, fake, None, evs);
    hide Run, LastEntered;
  }

  /** However late a domain comes back, it gets its fake again unless another domain has been given it since. */
  lemma {:induction false} RevivedUnlessGivenAway(
    s: State, evs: seq<Event>, fake: nat, domain: string, addrs: seq<RealAddr>, now: Time)
    requires Inv(s) && s.byFake == map[] && Norm(domain) != ""
    ensures var last := LastEntered(s, fake, None, evs);
            last.Some? && last.value.domain == Norm(domain) ==>
              AssignStep(Run(s, evs), domain, addrs, now).1 == Some(fake)
  {
    RunEnters(s, fake, None, evs);
    RunKeepsInv(s, evs);
    hide Run, LastEntered, Norm, Allocated;
  }

  // ---------------------------------------------------------------- the way back

  /** The real addresses an Assign takes out of the reverse map before it enters its own. */
  function Loses(s: State, domain: string, now: Time): seq<RealAddr>
    requires s.lo <= s.hi
  {
    var d := Norm(domain);
    if d == "" then []
    else if Known(s, d) then s.byFake[s.byDomain[d]].addrs
    else
      var p := Pick(s.lo, s.hi, s.next, LiveAt(s, now));
      if p.found.Some? && p.found.value in s.byFake then s.byFake[p.found.value].addrs else []
  }

  /**
   FakeOf keeps leading a real address to the fake of another, live domain exactly when the
   Assign neither takes the address for itself nor drops an entry that also listed it.
   */
  lemma {:induction false} ReverseKeptIff(s: State, domain: string, addrs: seq<RealAddr>, now: Time, r: RealAddr)
    requires Inv(s) && r in s.byReal && s.byFake[s.byReal[r]].domain != Norm(domain)
    requires now <= s.byFake[s.byReal[r]].expires
    requires AssignStep(s, domain, addrs, now).1.Some?
    ensures var t := AssignStep(s, domain, addrs, now).0;
            (r in t.byReal && t.byReal[r] == s.byReal[r]) <==> r !in addrs && r !in Loses(s, domain, now)
  {
    PickFinds(s.lo, s.hi, s.next, LiveAt(s, now));
    hide Pick;
  }

  /** One Assign takes `r` away from `d`: another domain claims or drops it, or `d` itself no longer has it. */
  ghost predicate Disturbs(s: State, ev: Event, d: string, r: RealAddr)
    requires s.lo <= s.hi
  {
    && AssignStep(s, ev.domain, ev.addrs, ev.now).1.Some?
    && if Norm(ev.domain) == d then r !in ev.addrs else r in ev.addrs || r in Loses(s, ev.domain, ev.now)
  }

  ghost predicate Disturbed(s: State, evs: seq<Event>, d: string, r: RealAddr)
    requires s.lo <= s.hi
    decreases |evs|
  {
    evs != [] &&
    (Disturbs(s, evs[0], d, r) ||
     Disturbed(AssignStep(s, evs[0].domain, evs[0].addrs, evs[0].now).0, evs[1..], d, r))
  }

  /** All along the run, FakeOf leads `r` to `fake`. */
  ghost predicate KeptAlong(s: State, evs: seq<Event>, r: RealAddr, fake: nat)
    requires s.lo <= s.hi
    decreases |evs|
  {
    && r in s.byReal && s.byReal[r] == fake
    && (evs != [] ==> KeptAlong(AssignStep(s, evs[0].domain, evs[0].addrs, evs[0].now).0, evs[1..], r, fake))
  }

  lemma {:induction false} OwnReverseKeptIff(s: State, addrs: seq<RealAddr>, now: Time, r: RealAddr, domain: string)
    requires Inv(s) && r in s.byReal && s.byFake[s.byReal[r]].domain == Norm(domain) != ""
    ensures var t := AssignStep(s, domain, addrs, now).0;
            (r in t.byReal && t.byReal[r] == s.byReal[r]) <==> r in addrs
    ensures AssignStep(s, domain, addrs, now).1.Some?
  {
    hide Pick;
  }

  lemma {:induction false} RefusalChangesNothing(s: State, domain: string, addrs: seq<RealAddr>, now: Time)
    requires Inv(s) && AssignStep(s, domain, addrs, now).1.None?
    ensures AssignStep(s, domain, addrs, now).0.byReal == s.byReal
  {
    PickFinds(s.lo, s.hi, s.next, LiveAt(s, now));
    hide Pick;
  }

  lemma {:induction false} StepKeepsReverseIff(s: State, ev: Event, r: RealAddr, d: string)
    requires Inv(s) && r in s.byReal && s.byFake[s.byReal[r]].domain == d != ""
    requires ev.now <= s.byFake[s.byReal[r]].expires
    ensures var t := AssignStep(s, ev.domain, ev.addrs, ev.now).0;
            (r in t.byReal && t.byReal[r] == s.byReal[r]) <==> !Disturbs(s, ev, d, r)
  {
    assert s.lo <= s.hi;
    hide AssignStep, Loses, Inv;
    if AssignStep(s, ev.domain, ev.addrs, ev.now).1.None? {
      RefusalChangesNothing(s, ev.domain, ev.addrs, ev.now);
    } else if Norm(ev.domain) == d {
      OwnReverseKeptIff(s, ev.addrs, ev.now, r, ev.domain);
    } else {
      ReverseKeptIff(s, ev.domain, ev.addrs, ev.now, r);
    }
  }

  /**
   Over runs: FakeOf keeps leading a real address to the fake of a domain that stays live if and
   only if no Assign on the way claims the address, drops an entry that also listed it, or
   leaves it out for the domain itself.
   */
  lemma {:induction false} RunKeepsReverseIff(s: State, d: string, r: RealAddr, till: Time, evs: seq<Event>)
    requires Inv(s) && r in s.byReal && s.byFake[s.byReal[r]].domain == d != ""
    requires s.byFake[s.byReal[r]].expires >= till && Within(evs, till - s.ttl, till)
    ensures KeptAlong(s, evs, r, s.byReal[r]) <==> !Disturbed(s, evs, d, r)
    decreases |evs|
  {
    if evs != [] {
      var ev := evs[0];
      assert ev in evs;
      StepKeepsReverseIff(s, ev, r, d);
      StepHolds(s, d, s.byReal[r], till, ev);
      AssignKeepsInv(s, ev.domain, ev.addrs, ev.now);
      hide AssignStep, Disturbs;
      var t := AssignStep(s, ev.domain, ev.addrs, ev.now).0;
      if r in t.byReal && t.byReal[r] == s.byReal[r] { RunKeepsReverseIff(t, d, r, till, evs[1..]); }
    }
  }

  /** A pool of four addresses, with two domains "a" and "b" behind one real address. */
  function Shared(one: RealAddr, t: Time): State {
    State(0, 3, 1, 2, map[0 := Entry("a", [one], t + 1), 1 := Entry("b", [one], t + 1)],
          map["a" := 0, "b" := 1], map[one := 1])
  }

  lemma {:induction false} AssignFresh(s: State, d: string, addrs: seq<RealAddr>, t: Time, a: nat)
    requires s.lo <= s.hi && d != "" && d[|d|-1] != '.' && d !in s.byDomain && a !in s.byFake
    requires Pick(s.lo, s.hi, s.next, LiveAt(s, t)) == Search(Some(a), Succ(s.lo, s.hi, a))
    ensures AssignStep(s, d, addrs, t) == (Added(s.(next := Succ(s.lo, s.hi, a)), d, addrs, t, a), Some(a))
  {
    hide Pick;
  }

  lemma {:induction false} SharedIsReached(one: RealAddr, t: Time)
    ensures Run(State(0, 3, 1, 0, map[], map[], map[]), [Assign("a", [one], t), Assign("b", [one], t)])
            == Shared(one, t)
  {
    var s0 := State(0, 3, 1, 0, map[], map[], map[]);
    var s1 := State(0, 3, 1, 1, map[0 := Entry("a", [one], t + 1)], map["a" := 0], map[one := 0]);
    assert LiveAt(s0, t) == {} && LiveAt(s1, t) == {0};
    assert Pick(0, 3, 0, {}) == Search(Some(0), 1) && Pick(0, 3, 1, {0}) == Search(Some(1), 2);
    hide Pick, LiveAt;
    AssignFresh(s0, "a", [one], t, 0);
    assert Added(s0.(next := 1), "a", [one], t, 0) == s1 by { assert Attached(map[], [one], 0) == map[one := 0]; }
    AssignFresh(s1, "b", [one], t, 1);
    assert Added(s1.(next := 2), "b", [one], t, 1) == Shared(one, t) by {
      assert Attached(s1.byReal, [one], 1) == map[one := 1];
    }
    hide AssignStep;
    var evs := [Assign("a", [one], t), Assign("b", [one], t)];
    var rest := evs[1..];
    assert rest == [Assign("b", [one], t)] && rest[1..] == [];
    assert AssignStep(s0, "a", [one], t).0 == s1 && AssignStep(s1, "b", [one], t).0 == Shared(one, t);
    assert Run(s0, evs) == Run(s1, rest) == Run(Shared(one, t), rest[1..]) == Run(Shared(one, t), []);
  }

  /** Refreshing "a" with another address cuts the live "b" off: its replies lead nowhere. */
  lemma {:induction false} SharedAddressCutOff(one: RealAddr, two: RealAddr, t: Time)
    requires one != two
    ensures Inv(Shared(one, t))
    ensures var after := AssignStep(Shared(one, t), "a", [two], t).0;
            RealAt(after, 1, t) == Some([one]) && one !in after.byReal
  {
    assert Norm("a") == "a" && one in [one];
  }

  /** The last two addresses of IPv4, after `n` of them are given out. */
  function AtTheEnd(t: Time, n: nat): State {
    State(WRAP - 2, WRAP - 1, 1, if n == 0 then WRAP - 2 else if n == 1 then WRAP - 1 else 0,
          if n == 0 then map[] else if n == 1 then map[WRAP - 2 := Entry("a", [], t + 1)]
          else map[WRAP - 2 := Entry("a", [], t + 1), WRAP - 1 := Entry("b", [], t + 1)],
          if n == 0 then map[] else if n == 1 then map["a" := WRAP - 2] else map["a" := WRAP - 2, "b" := WRAP - 1],
          map[])
  }

  lemma {:induction false} FirstOffered(lo: nat, hi: nat, next: nat, live: set<nat>)
    requires lo <= hi && next !in live
    ensures Pick(lo, hi, next, live) == Search(Some(next), Succ(lo, hi, next))
  {}

  lemma {:induction false} AssignNext(s: State, d: string, t: Time)
    requires s.lo <= s.hi && d != "" && d[|d|-1] != '.' && d !in s.byDomain && s.next !in s.byFake
    ensures AssignStep(s, d, [], t) == (Added(s.(next := Succ(s.lo, s.hi, s.next)), d, [], t, s.next), Some(s.next))
  {
    FirstOffered(s.lo, s.hi, s.next, LiveAt(s, t));
    AssignFresh(s, d, [], t, s.next);
    hide Pick;
  }

  /** A third domain is then given 0.0.0.0, outside the pool. */
  lemma {:induction false} CursorLeavesThePool(t: Time)
    ensures AssignStep(AtTheEnd(t, 0), "a", [], t) == (AtTheEnd(t, 1), Some(WRAP - 2))
    ensures AssignStep(AtTheEnd(t, 1), "b", [], t) == (AtTheEnd(t, 2), Some(WRAP - 1))
    ensures AssignStep(AtTheEnd(t, 2), "c", [], t).1 == Some(0) && !InPool(WRAP - 2, WRAP - 1, 0)
  {
    hide AssignStep;
    AssignNext(AtTheEnd(t, 0), "a", t);
    AssignNext(AtTheEnd(t, 1), "b", t);
    AssignNext(AtTheEnd(t, 2), "c", t);
    assert Attached(map[], [], WRAP - 2) == map[] && Attached(map[], [], WRAP - 1) == map[];
  }

  // ---------------------------------------------------------------- the pool itself

  class Pool {
    const lo: nat
    const hi: nat
    const ttl: int
    var next: nat
    var byFake: map<nat, Entry>
    var byDomain: map<string, nat>
    var byReal: map<RealAddr, nat>

    function Snapshot(): State
      reads this
    {
      State(lo, hi, ttl, next, byFake, byDomain, byReal)
    }

    /** The pool of an IPv4 prefix, given by its first address; consistent unless the cursor can leave it. */
    constructor (first: nat, bits: nat, ttl: int)
      requires bits <= 32 && first + Pow2(32 - bits) <= WRAP
      ensures lo == first && hi - lo + 1 == Pow2(32 - bits) && (Inv(Snapshot()) <==> Closed(lo, hi))
      ensures byFake == map[] && next == lo && this.ttl == if ttl <= 0 then DEFAULT_TTL else ttl
    {
      PowPositive(32 - bits);
      lo, hi, next := first, first + (Pow2(32 - bits) - 1), first;
      this.ttl := if ttl <= 0 then DEFAULT_TTL else ttl;
      byFake, byDomain, byReal := map[], map[], map[];
    }

    method Assign(domain: string, addrs: seq<RealAddr>, now: Time) returns (fake: Option<nat>)
      requires lo <= hi
      modifies this
      ensures (Snapshot(), fake) == AssignStep(old(Snapshot()), domain, addrs, now)
      ensures old(Inv(Snapshot())) ==> Inv(Snapshot())
    {
      if Inv(Snapshot()) { AssignKeepsInv(Snapshot(), domain, addrs, now); }
      hide Inv;
      var d := if domain != "" && domain[|domain|-1] == '.' then domain[..|domain|-1] else domain;
      if d == "" { return None; }
      if d in byDomain {
        var f := byDomain[d];
        if f in byFake {
          var e := byFake[f];
          DetachAll(e.addrs);
          e := e.(addrs := addrs, expires := now + ttl);
          byFake := byFake[f := e];
          AttachAll(addrs, f);
          return Some(f);
        }
      }
      fake := Alloc(now);
      if fake.None? { return; }
      byFake := byFake[fake.value := Entry(d, addrs, now + ttl)];
      byDomain := byDomain[d := fake.value];
      AttachAll(addrs, fake.value);
    }

    method DetachAll(addrs: seq<RealAddr>)
      modifies this`byReal
      ensures byReal == Detached(old(byReal), addrs)
    {
      for i := 0 to |addrs|
        invariant byReal == Detached(old(byReal), addrs[..i])
      {
        byReal := byReal - {addrs[i]};
        assert addrs[..i+1] == addrs[..i] + [addrs[i]];
      }
      assert addrs[..|addrs|] == addrs;
    }

    method AttachAll(addrs: seq<RealAddr>, fake: nat)
      modifies this`byReal
      ensures byReal == Attached(old(byReal), addrs, fake)
    {
      for i := 0 to |addrs|
        invariant byReal == Attached(old(byReal), addrs[..i], fake)
      {
        assert addrs[..i+1][..i] == addrs[..i];
        byReal := byReal[addrs[i] := fake];
      }
      assert addrs[..|addrs|] == addrs;
    }

    method Alloc(now: Time) returns (found: Option<nat>)
      requires lo <= hi
      modifies this
      ensures (Snapshot(), found) == Allocated(old(Snapshot()), now)
    {
      var size := hi - lo + 1;
      ghost var live := LiveAt(Snapshot(), now);
      var i := 0;
      while i < size
        invariant 0 <= i <= size
        invariant Snapshot() == old(Snapshot()).(next := next)
        invariant Pick(lo, hi, old(next), live) == Scan(lo, hi, next, live, size - i)
      {
        var cand := next;
        next := (next + 1) % WRAP;
        if next > hi { next := lo; }
        if cand !in byFake { return Some(cand); }
        var e := byFake[cand];
        if now > e.expires {
          byFake := byFake - {cand};
          byDomain := byDomain - {e.domain};
          DetachAll(e.addrs);
          return Some(cand);
        }
        i := i + 1;
      }
      return None;
    }

    method Domain(fake: nat, now: Time) returns (d: Option<string>)
      ensures d == DomainAt(Snapshot(), fake, now)
    {
      if fake !in byFake || now > byFake[fake].expires { return None; }
      return Some(byFake[fake].domain);
    }

    method Real(fake: nat, now: Time) returns (addrs: Option<seq<RealAddr>>)
      ensures addrs == RealAt(Snapshot(), fake, now)
    {
      if fake !in byFake || now > byFake[fake].expires { return None; }
      return Some(byFake[fake].addrs);
    }

    method FakeOf(addrs: RealAddr) returns (fake: Option<nat>)
      ensures fake == if addrs in byReal then Some(byReal[addrs]) else None
    {
      return if addrs in byReal then Some(byReal[addrs]) else None;
    }
  }
}
