/**
 Fictitious IPv4 addresses for IPv6-only hosts (internal/client/nat46/table.go).

 Unlike the domain pool, an expired mapping is not revived: the host gets another fake and
 the old one stays behind until the allocator comes round. Reclaiming it then drops the
 reverse entry of the newer one, so "the same fake until it expires" holds only under the
 condition proved below.
 */
module Nat46 {
  import opened Basics
  import opened CircularAlloc
  import opened AddrBits

  datatype Entry = Entry(addr: Octets, expires: Time)

  datatype State = State(
    lo: nat, hi: nat, ttl: int, next: nat, byFake: map<nat, Entry>, byReal: map<Octets, nat>)

  /** A genuine IPv6 address: not one that embeds an IPv4 address. */
  predicate Mappable(v: Octets) {
    |v| == 16 && !((forall i :: 0 <= i < 10 ==> v[i] == 0) && v[10] == 0xFF && v[11] == 0xFF)
  }

  // ---------------------------------------------------------------- specification

  function LiveAt(s: State, now: Time): set<nat> {
    set f | f in s.byFake && now <= s.byFake[f].expires
  }

  function Reclaimed(s: State, a: nat): State {
    if a !in s.byFake then s
    else s.(byFake := s.byFake - {a}, byReal := s.byReal - {s.byFake[a].addr})
  }

  function Allocated(s: State, now: Time): (State, Option<nat>)
    requires s.lo <= s.hi
  {
    var p := Pick(s.lo, s.hi, s.next, LiveAt(s, now));
    var t := s.(next := p.cursor);
    (if p.found.Some? then Reclaimed(t, p.found.value) else t, p.found)
  }

  /** The host has a fake that is still in use. */
  predicate InUse(s: State, v: Octets, now: Time) {
    v in s.byReal && s.byReal[v] in s.byFake && now < s.byFake[s.byReal[v]].expires
  }

  function MapStep(s: State, v: Octets, now: Time): (State, Option<nat>)
    requires s.lo <= s.hi
  {
    if !Mappable(v) then (s, None)
    else if InUse(s, v, now) then
      var f := s.byReal[v];
      (s.(byFake := s.byFake[f := s.byFake[f].(expires := now + s.ttl)]), Some(f))
    else
      var (t, found) := Allocated(s, now);
      if found.None? then (t, None)
      else (t.(byFake := t.byFake[found.value := Entry(v, now + s.ttl)], byReal := t.byReal[v := found.value]), found)
  }

  function LookupAt(s: State, fake: nat, now: Time): Option<Octets> {
    if fake !in s.byFake || now > s.byFake[fake].expires then None else Some(s.byFake[fake].addr)
  }

  /** A reverse entry always leads to a fake of that very host. */
  ghost predicate Inv(s: State) {
    && Closed(s.lo, s.hi) && InPool(s.lo, s.hi, s.next) && s.ttl > 0
    && (forall f :: f in s.byFake ==> InPool(s.lo, s.hi, f))
    && (forall v :: v in s.byReal ==> s.byReal[v] in s.byFake && s.byFake[s.byReal[v]].addr == v)
  }

  lemma {:induction false} MapKeepsInv(s: State, v: Octets, now: Time)
    requires Inv(s)
    ensures var (t, fake) := MapStep(s, v, now);
            && Inv(t) && t.lo == s.lo && t.hi == s.hi && t.ttl == s.ttl
            && (fake.Some? ==> v in t.byReal && t.byReal[v] == fake.value
                               && t.byFake[fake.value] == Entry(v, now + s.ttl))
  {
    PickFinds(s.lo, s.hi, s.next, LiveAt(s, now));
    hide Pick;
  }

  /** A host is refused exactly when it has no fake in use and every address of the pool is live. */
  lemma {:induction false} RefusedIff(s: State, v: Octets, now: Time)
    requires Inv(s) && Mappable(v)
    ensures MapStep(s, v, now).1.None? <==>
            !InUse(s, v, now) && forall a :: InPool(s.lo, s.hi, a) ==> a in s.byFake && now <= s.byFake[a].expires
  {
    PickFinds(s.lo, s.hi, s.next, LiveAt(s, now));
    hide Pick;
  }

  /** Anything but sixteen octets, and an IPv4 address written as IPv6 (::ffff:a.b.c.d), is turned away untouched. */
  lemma {:induction false} OnlyIPv6IsMapped(s: State, v: Octets, now: Time)
    requires s.lo <= s.hi
    ensures Mappable(v) <==> |v| == 16 && v[..12] != [0, 0, 0, 0, 0, 0, 0, 0, 0, 0, 0xFF, 0xFF]
    ensures !Mappable(v) ==> MapStep(s, v, now) == (s, None)
  {
    if |v| == 16 && v[..10] == [0, 0, 0, 0, 0, 0, 0, 0, 0, 0] {
      assert forall i :: 0 <= i < 10 ==> v[i] == v[..10][i];
      assert v[..12] == v[..10] + [v[10], v[11]];
    } else if |v| == 16 {
      assert v[..12][..10] == v[..10];
    }
  }

  /** At most one mapping goes: that of the fake given out, and it had expired. */
  lemma {:induction false} LosesOnlyTheStale(s: State, v: Octets, now: Time, f: nat)
    requires Inv(s) && f in s.byFake
    ensures var (t, fake) := MapStep(s, v, now);
            && t.byFake.Keys >= s.byFake.Keys
            && (t.byFake[f].addr != s.byFake[f].addr ==> fake == Some(f) && now > s.byFake[f].expires)
  {
    PickFinds(s.lo, s.hi, s.next, LiveAt(s, now));
    hide Pick, Mappable;
  }

  /** And of the reverse entries at most that of its host, and the one of the host itself is replaced. */
  lemma {:induction false} ReverseLosesOnlyTheStale(s: State, v: Octets, now: Time, w: Octets)
    requires Inv(s) && w in s.byReal && w != v
    ensures var (t, fake) := MapStep(s, v, now);
            if w in t.byReal then t.byReal[w] == s.byReal[w]
            else
              && fake.Some? && fake.value in s.byFake
              && s.byFake[fake.value].addr == w && now > s.byFake[fake.value].expires
  {
    PickFinds(s.lo, s.hi, s.next, LiveAt(s, now));
    hide Pick, Mappable;
  }

  // ---------------------------------------------------------------- runs

  datatype Event = Map(v: Octets, now: Time)

  function Run(s: State, evs: seq<Event>): (t: State)
    requires s.lo <= s.hi
    ensures t.lo == s.lo && t.hi == s.hi
    decreases |evs|
  {
    if evs == [] then s else Run(MapStep(s, evs[0].v, evs[0].now).0, evs[1..])
  }

  ghost predicate Within(evs: seq<Event>, from: Time, till: Time) {
    forall ev :: ev in evs ==> from <= ev.now < till
  }

  /** Forward, the promise holds: a fake in force keeps leading to its host. */
  lemma {:induction false} FakeIsHeld(s: State, fake: nat, v: Octets, till: Time, evs: seq<Event>)
    requires Inv(s) && fake in s.byFake && s.byFake[fake].addr == v && s.byFake[fake].expires >= till
    requires Within(evs, till - s.ttl, till)
    ensures forall now :: now <= till ==> LookupAt(Run(s, evs), fake, now) == Some(v)
    decreases |evs|
  {
    if evs != [] {
      var ev := evs[0];
      assert ev in evs;
      MapKeepsInv(s, ev.v, ev.now);
      PickFinds(s.lo, s.hi, s.next, LiveAt(s, ev.now));
      hide Pick;
      FakeIsHeld(MapStep(s, ev.v, ev.now).0, fake, v, till, evs[1..]);
    }
  }

  /** What was last entered at `fake` in the run, or `last` from before it. */
  function LastEntered(s: State, fake: nat, last: Option<Entry>, evs: seq<Event>): Option<Entry>
    requires s.lo <= s.hi
    decreases |evs|
  {
    if evs == [] then last
    else
      var (t, given) := MapStep(s, evs[0].v, evs[0].now);
      LastEntered(t, fake, if given == Some(fake) then Some(Entry(evs[0].v, evs[0].now + s.ttl)) else last, evs[1..])
  }

  lemma {:induction false} StepEnters(s: State, ev: Event, fake: nat)
    requires Inv(s)
    ensures var (t, given) := MapStep(s, ev.v, ev.now);
            && (given == Some(fake) ==> fake in t.byFake && t.byFake[fake] == Entry(ev.v, ev.now + s.ttl))
            && (given != Some(fake) ==>
                  && (fake in t.byFake <==> fake in s.byFake)
                  && (fake in s.byFake ==> t.byFake[fake] == s.byFake[fake]))
  {
    PickFinds(s.lo, s.hi, s.next, LiveAt(s, ev.now));
    hide Pick, Mappable;
  }

  ghost predicate HoldsOnly(s: State, fake: nat, last: Option<Entry>) {
    (fake in s.byFake <==> last.Some?) && (last.Some? ==> s.byFake[fake] == last.value)
  }

  lemma {:induction false} RunEnters(s: State, fake: nat, last: Option<Entry>, evs: seq<Event>)
    requires Inv(s) && HoldsOnly(s, fake, last)
    ensures HoldsOnly(Run(s, evs), fake, LastEntered(s, fake, last, evs))
    decreases |evs|
  {
    if evs != [] {
      var ev := evs[0];
      StepEnters(s, ev, fake);
      MapKeepsInv(s, ev.v, ev.now);
      hide MapStep;
      var (t, given) := MapStep(s, ev.v, ev.now);
      RunEnters(t, fake, if given == Some(fake) then Some(Entry(ev.v, ev.now + s.ttl)) else last, evs[1..]);
    }
  }

  /**
   After any run from an empty table a fake leads to the host it was last given to, and once that
   mapping is past its lifetime to none.
   */
  lemma {:induction false} LeadsToTheLast(s: State, evs: seq<Event>, fake: nat, now: Time)
    requires Inv(s) && s.byFake == map[]
    ensures var last := LastEntered(s, fake, None, evs);
            LookupAt(Run(s, evs), fake, now) ==
            if last.Some? && now <= last.value.expires then Some(last.value.addr) else None
  {
    RunEnters(s, fake, None, evs);
    hide Run, LastEntered;
  }

  /** A host is given its fake again strictly before the mapping ends; at that very moment it gets another, or none. */
  lemma {:induction false} RenewedIff(s: State, w: Octets, now: Time)
    requires Inv(s) && Mappable(w) && w in s.byReal && now <= s.byFake[s.byReal[w]].expires
    ensures MapStep(s, w, now).1 == Some(s.byReal[w]) <==> now < s.byFake[s.byReal[w]].expires
  {
    PickFinds(s.lo, s.hi, s.next, LiveAt(s, now));
    hide Pick, Mappable;
  }

  /** The stale mapping that mapping `v` would take the address of, if any. */
  function Victim(s: State, v: Octets, now: Time): Option<Entry>
    requires s.lo <= s.hi
  {
    var p := Pick(s.lo, s.hi, s.next, LiveAt(s, now));
    if !Mappable(v) || InUse(s, v, now) || p.found.None? || p.found.value !in s.byFake then None
    else Some(s.byFake[p.found.value])
  }

  /**
   Backward, one step keeps the fake of a host that is in use exactly when the stale mapping
   it reclaims, if any, was not an older one of that same host.
   */
  lemma {:induction false} SameFakeIff(s: State, w: Octets, v: Octets, now: Time)
    requires Inv(s) && InUse(s, w, now)
    ensures (InUse(MapStep(s, v, now).0, w, now) && MapStep(s, v, now).0.byReal[w] == s.byReal[w]) <==>
            !(Victim(s, v, now).Some? && Victim(s, v, now).value.addr == w)
  {
    PickFinds(s.lo, s.hi, s.next, LiveAt(s, now));
    hide Pick;
  }

  /** No older mapping of the host is left behind. */
  ghost predicate OnlyMapping(s: State, w: Octets) {
    w in s.byReal && forall g :: g in s.byFake && s.byFake[g].addr == w ==> g == s.byReal[w]
  }

  lemma {:induction false} OnlyStays(s: State, w: Octets, till: Time, v: Octets, now: Time)
    requires Inv(s) && OnlyMapping(s, w) && s.byFake[s.byReal[w]].expires >= till && till - s.ttl <= now < till
    ensures var t := MapStep(s, v, now).0;
            && Inv(t) && t.ttl == s.ttl && OnlyMapping(t, w) && t.byReal[w] == s.byReal[w]
            && t.byFake[t.byReal[w]].expires >= till
  {
    hide Pick, Mappable;
    MapKeepsInv(s, v, now);
    PickFinds(s.lo, s.hi, s.next, LiveAt(s, now));
  }

  /** With nothing stale left of it, a host keeps its fake through any run inside the window. */
  lemma {:induction false} SameFakeWhenOnly(s: State, w: Octets, till: Time, evs: seq<Event>, now: Time)
    requires Inv(s) && OnlyMapping(s, w) && Mappable(w) && s.byFake[s.byReal[w]].expires >= till
    requires Within(evs, till - s.ttl, till) && now < till
    ensures MapStep(Run(s, evs), w, now).1 == Some(s.byReal[w])
    decreases |evs|
  {
    hide Mappable, Pick;
    if evs != [] {
      var ev := evs[0];
      assert ev in evs;
      OnlyStays(s, w, till, ev.v, ev.now);
      SameFakeWhenOnly(MapStep(s, ev.v, ev.now).0, w, till, evs[1..], now);
    }
  }

  // ---------------------------------------------------------------- an older mapping costs the fake

  /** Fake `g` still holds an expired mapping of `w`, and is not the one `w` goes by. */
  ghost predicate Stale(s: State, w: Octets, g: nat, now: Time) {
    && Inv(s) && g in s.byFake && s.byFake[g].addr == w && now > s.byFake[g].expires
    && (w in s.byReal ==> s.byReal[w] != g)
  }

  /** How many advances bring the cursor to `g`. */
  function Ahead(s: State, g: nat): int {
    if g >= s.next then g - s.next else g - s.next + (s.hi - s.lo + 1)
  }

  /** Where the pick comes to rest: not behind `g`, and nearer to it than the cursor was. */
  lemma {:induction false} PickReaches(s: State, g: nat, now: Time)
    requires Inv(s) && g in s.byFake && now > s.byFake[g].expires
    ensures var p := Pick(s.lo, s.hi, s.next, LiveAt(s, now));
            && p.found.Some? && InPool(s.lo, s.hi, p.cursor)
            && (p.found.value != g ==> 0 <= Ahead(s.(next := p.cursor), g) < Ahead(s, g))
  {
    hide Pick, Succ;
    var live := LiveAt(s, now);
    var p := Pick(s.lo, s.hi, s.next, live);
    PickFinds(s.lo, s.hi, s.next, live);
    assert g !in live && InPool(s.lo, s.hi, g);
    var k :| 0 <= k <= s.hi - s.lo && FirstFree(s.lo, s.hi, s.next, live, p, k);
    var d := Ahead(s, g);
    AtIs(s.lo, s.hi, s.next, d);
    AtIs(s.lo, s.hi, s.next, k);
    AtIs(s.lo, s.hi, s.next, k + 1);
    assert At(s.lo, s.hi, s.next, d) == g;
    hide At;
  }

  /** A newcomer either takes the fake away from `w`, or brings the cursor nearer to doing so. */
  lemma {:induction false} NewcomerStep(s: State, w: Octets, g: nat, v: Octets, now: Time)
    requires Stale(s, w, g, now) && Mappable(v) && v !in s.byReal && v != w
    ensures var t := MapStep(s, v, now).0;
            w !in t.byReal || (Stale(t, w, g, now) && 0 <= Ahead(t, g) < Ahead(s, g))
  {
    hide Pick, LiveAt, Mappable;
    PickReaches(s, g, now);
    MapKeepsInv(s, v, now);
  }

  lemma {:induction false} OnlyItself(s: State, v: Octets, now: Time, x: Octets)
    requires s.lo <= s.hi && x != v
    ensures x in MapStep(s, v, now).0.byReal ==> x in s.byReal
  {
    hide Pick, LiveAt, Mappable;
  }

  /** Every newcomer is a genuine IPv6 host, unknown to the table, and comes once. */
  ghost predicate Unknown(s: State, newcomers: seq<Octets>) {
    forall i :: 0 <= i < |newcomers| ==>
      Mappable(newcomers[i]) && newcomers[i] !in s.byReal && newcomers[i] !in newcomers[..i]
  }

  function MapAll(newcomers: seq<Octets>, now: Time): seq<Event> {
    seq(|newcomers|, i requires 0 <= i < |newcomers| => Map(newcomers[i], now))
  }

  lemma {:induction false} NoWayBack(s: State, w: Octets, newcomers: seq<Octets>, now: Time)
    requires s.lo <= s.hi && w !in s.byReal && w !in newcomers
    ensures w !in Run(s, MapAll(newcomers, now)).byReal
    decreases |newcomers|
  {
    if newcomers != [] {
      assert MapAll(newcomers, now)[1..] == MapAll(newcomers[1..], now);
      OnlyItself(s, newcomers[0], now, w);
      hide MapStep;
      NoWayBack(MapStep(s, newcomers[0], now).0, w, newcomers[1..], now);
    }
  }

  lemma {:induction false} StillUnknown(s: State, newcomers: seq<Octets>, now: Time)
    requires s.lo <= s.hi && newcomers != [] && Unknown(s, newcomers)
    ensures Unknown(MapStep(s, newcomers[0], now).0, newcomers[1..])
  {
    hide MapStep, Mappable;
    var t, rest := MapStep(s, newcomers[0], now).0, newcomers[1..];
    forall i | 0 <= i < |rest|
      ensures Mappable(rest[i]) && rest[i] !in t.byReal && rest[i] !in rest[..i]
    {
      assert rest[i] == newcomers[i+1] && newcomers[0] in newcomers[..i+1];
      assert forall x :: x in rest[..i] ==> x in newcomers[..i+1];
      OnlyItself(s, newcomers[0], now, rest[i]);
    }
  }

  lemma {:induction false} NewcomersTakeIt(s: State, w: Octets, g: nat, newcomers: seq<Octets>, now: Time)
    requires Stale(s, w, g, now) && Unknown(s, newcomers) && w !in newcomers
    requires 0 <= Ahead(s, g) < |newcomers|
    ensures w !in Run(s, MapAll(newcomers, now)).byReal
    decreases |newcomers|
  {
    var v := newcomers[0];
    assert Mappable(v) && v !in s.byReal && v != w;
    assert MapAll(newcomers, now)[1..] == MapAll(newcomers[1..], now);
    NewcomerStep(s, w, g, v, now);
    StillUnknown(s, newcomers, now);
    hide MapStep, Mappable, Ahead, Stale, Unknown;
    var t := MapStep(s, v, now).0;
    if w !in t.byReal {
      NoWayBack(t, w, newcomers[1..], now);
    } else {
      NewcomersTakeIt(t, w, g, newcomers[1..], now);
    }
  }

  /**
   The exact condition over runs. Take a host whose fake is in use, its older mappings, if any,
   being expired. After as many newcomers as the pool has addresses, it still gets that fake if
   and only if no older mapping of it was left behind.
   */
  lemma {:induction false} SameFakeAfterNewcomersIff(s: State, w: Octets, newcomers: seq<Octets>, now: Time)
    requires Inv(s) && Mappable(w) && InUse(s, w, now) && s.byFake[s.byReal[w]].expires <= now + s.ttl
    requires forall g :: g in s.byFake && s.byFake[g].addr == w && g != s.byReal[w] ==> now > s.byFake[g].expires
    requires |newcomers| > s.hi - s.lo && Unknown(s, newcomers)
    ensures MapStep(Run(s, MapAll(newcomers, now)), w, now).1 == Some(s.byReal[w]) <==> OnlyMapping(s, w)
  {
    hide Mappable, Unknown, MapStep;
    assert w !in newcomers by { KnownIsNoNewcomer(s, w, newcomers); }
    var f, evs := s.byReal[w], MapAll(newcomers, now);
    var till := s.byFake[f].expires;
    if OnlyMapping(s, w) {
      SameFakeWhenOnly(s, w, till, evs, now);
    } else {
      var g :| g in s.byFake && s.byFake[g].addr == w && g != f;
      assert Stale(s, w, g, now) && 0 <= Ahead(s, g) < |newcomers|;
      NewcomersTakeIt(s, w, g, newcomers, now);
      FakeIsHeld(s, f, w, till, evs);
      RunKeepsInv(s, evs);
      LostIsLost(Run(s, evs), w, f, now);
    }
  }

  lemma {:induction false} KnownIsNoNewcomer(s: State, w: Octets, newcomers: seq<Octets>)
    requires w in s.byReal && Unknown(s, newcomers)
    ensures w !in newcomers
  {
    hide Mappable;
  }

  lemma {:induction false} RunKeepsInv(s: State, evs: seq<Event>)
    requires Inv(s)
    ensures Inv(Run(s, evs))
    decreases |evs|
  {
    assert s.lo <= s.hi;
    hide Inv, MapStep;
    if evs != [] {
      MapKeepsInv(s, evs[0].v, evs[0].now);
      RunKeepsInv(MapStep(s, evs[0].v, evs[0].now).0, evs[1..]);
    }
  }

  /** Without its reverse entry a host is not given the fake that still leads to it. */
  lemma {:induction false} LostIsLost(s: State, w: Octets, f: nat, now: Time)
    requires Inv(s) && w !in s.byReal && LookupAt(s, f, now) == Some(w)
    ensures MapStep(s, w, now).1 != Some(f)
  {
    PickFinds(s.lo, s.hi, s.next, LiveAt(s, now));
    hide Pick, Mappable;
  }

  // ---------------------------------------------------------------- where it fails

  /** Pool of three, ttl 10: `a` was mapped at 0, let expire and mapped again at 20, `b` at 21. */
  function LeftBehind(a: Octets, b: Octets): State {
    State(0, 2, 10, 0, map[0 := Entry(a, 10), 1 := Entry(a, 30), 2 := Entry(b, 31)], map[a := 1, b := 2])
  }

  lemma {:induction false} MapFresh(s: State, v: Octets, now: Time, f: nat)
    requires s.lo <= s.hi && Mappable(v) && !InUse(s, v, now) && f !in s.byFake
    requires Pick(s.lo, s.hi, s.next, LiveAt(s, now)) == Search(Some(f), Succ(s.lo, s.hi, f))
    ensures MapStep(s, v, now) ==
            (s.(next := Succ(s.lo, s.hi, f), byFake := s.byFake[f := Entry(v, now + s.ttl)],
                byReal := s.byReal[v := f]), Some(f))
  {
    hide Pick;
  }

  lemma {:induction false} LeftBehindIsReached(a: Octets, b: Octets)
    requires Mappable(a) && Mappable(b) && a != b
    ensures Run(State(0, 2, 10, 0, map[], map[]), [Map(a, 0), Map(a, 20), Map(b, 21)]) == LeftBehind(a, b)
  {
    hide Mappable;
    var s0 := State(0, 2, 10, 0, map[], map[]);
    var s1 := State(0, 2, 10, 1, map[0 := Entry(a, 10)], map[a := 0]);
    var s2 := State(0, 2, 10, 2, map[0 := Entry(a, 10), 1 := Entry(a, 30)], map[a := 1]);
    assert LiveAt(s0, 0) == {} && LiveAt(s1, 20) == {} && LiveAt(s2, 21) == {1};
    assert Pick(0, 2, 0, {}) == Search(Some(0), 1) && Pick(0, 2, 1, {}) == Search(Some(1), 2);
    assert Pick(0, 2, 2, {1}) == Search(Some(2), 0);
    hide Pick, LiveAt;
    MapFresh(s0, a, 0, 0);
    MapFresh(s1, a, 20, 1);
    MapFresh(s2, b, 21, 2);
    hide MapStep;
    var evs := [Map(a, 0), Map(a, 20), Map(b, 21)];
    var r1, r2 := [Map(a, 20), Map(b, 21)], [Map(b, 21)];
    assert evs[1..] == r1 && r1[1..] == r2 && r2[1..] == [];
    assert MapStep(s0, a, 0).0 == s1 && MapStep(s1, a, 20).0 == s2 && MapStep(s2, b, 21).0 == LeftBehind(a, b);
    assert Run(s0, evs) == Run(s1, r1) == Run(s2, r2) == Run(LeftBehind(a, b), []);
  }

  /** One more host at 22, and `a`, whose fake 1 lives until 30, is refused at 23. */
  lemma {:induction false} LiveHostRefused(a: Octets, b: Octets, c: Octets)
    requires Mappable(a) && Mappable(b) && Mappable(c) && a != b && a != c && b != c
    ensures var t := MapStep(LeftBehind(a, b), c, 22).0;
            LookupAt(t, 1, 23) == Some(a) && MapStep(t, a, 23).1 == None
  {
    hide Mappable;
    ThirdHost(a, b, c);
    var t := AfterThird(a, b, c);
    assert LiveAt(t, 23) == {0, 1, 2};
    hide LiveAt, LeftBehind;
    assert Closed(0, 2);
    PickFinds(0, 2, 1, {0, 1, 2});
    hide Pick;
  }

  function AfterThird(a: Octets, b: Octets, c: Octets): State {
    State(0, 2, 10, 1, map[0 := Entry(c, 32), 1 := Entry(a, 30), 2 := Entry(b, 31)], map[b := 2, c := 0])
  }

  lemma {:induction false} ThirdHost(a: Octets, b: Octets, c: Octets)
    requires Mappable(c) && a != b && a != c && b != c
    ensures MapStep(LeftBehind(a, b), c, 22).0 == AfterThird(a, b, c)
  {
    hide Mappable;
    var s := LeftBehind(a, b);
    assert LiveAt(s, 22) == {1, 2} && Pick(0, 2, 0, {1, 2}) == Search(Some(0), 1);
    hide Pick, LiveAt;
    assert s.byReal - {a} == map[b := 2];
  }

  // ---------------------------------------------------------------- the table itself

  class Table {
    const lo: nat
    const hi: nat
    const ttl: int
    var next: nat
    var byFake: map<nat, Entry>
    var byReal: map<Octets, nat>

    function Snapshot(): State
      reads this
    {
      State(lo, hi, ttl, next, byFake, byReal)
    }

    /** The table over an IPv4 prefix, given by its first address; consistent unless the cursor can leave it. */
    constructor (first: nat, bits: nat, ttl: int)
      requires bits <= 32 && first + Pow2(32 - bits) <= WRAP
      ensures lo == first && hi - lo + 1 == Pow2(32 - bits) && (Inv(Snapshot()) <==> Closed(lo, hi))
      ensures byFake == map[] && next == lo && this.ttl == if ttl <= 0 then 3_600_000_000_000 else ttl
    {
      PowPositive(32 - bits);
      lo, hi, next := first, first + (Pow2(32 - bits) - 1), first;
      this.ttl := if ttl <= 0 then 3_600_000_000_000 else ttl;
      byFake, byReal := map[], map[];
    }

    method Map(v6: Octets, now: Time) returns (fake: Option<nat>)
      requires lo <= hi
      modifies this
      ensures (Snapshot(), fake) == MapStep(old(Snapshot()), v6, now)
      ensures old(Inv(Snapshot())) ==> Inv(Snapshot())
    {
      if Inv(Snapshot()) { MapKeepsInv(Snapshot(), v6, now); }
      hide Inv, Mappable;
      if !Mappable(v6) { return None; }
      if v6 in byReal {
        var f := byReal[v6];
        if f in byFake && now < byFake[f].expires {
          byFake := byFake[f := byFake[f].(expires := now + ttl)];
          return Some(f);
        }
      }
      fake := Alloc(now);
      if fake.None? { return; }
      byFake := byFake[fake.value := Entry(v6, now + ttl)];
      byReal := byReal[v6 := fake.value];
    }

    method Alloc(now: Time) returns (found: Option<nat>)
      requires lo <= hi
      modifies this
      ensures (Snapshot(), found) == Allocated(old(Snapshot()), now)
    {
      var size := hi - lo + 1;
      ghost var live := LiveAt(Snapshot(), now);
      var i := 0;
      while i < size
        invariant 0 <= i <= size
        invariant Snapshot() == old(Snapshot()).(next := next)
        invariant Pick(lo, hi, old(next), live) == Scan(lo, hi, next, live, size - i)
      {
        var cand := next;
        next := (next + 1) % WRAP;
        if next > hi { next := lo; }
        if cand !in byFake { return Some(cand); }
        var e := byFake[cand];
        if now > e.expires {
          byFake := byFake - {cand};
          byReal := byReal - {e.addr};
          return Some(cand);
        }
        i := i + 1;
      }
      return None;
    }

    method Lookup(fake: nat, now: Time) returns (v6: Option<Octets>)
      ensures v6 == LookupAt(Snapshot(), fake, now)
    {
      if fake !in byFake || now > byFake[fake].expires { return None; }
      return Some(byFake[fake].addr);
    }
  }
}
