/**
 The resolver's answer cache (internal/server/dns/cache.go): a linked list kept in
 order of use, and a map from key to list element.

 A pure recency sequence (most recent first) specifies the class; the theorems about
 whole histories are proved on the sequence and reach the class through its contracts.
 */
module DnsCache {
  import opened Basics

  type Bytes = seq<byte>

  datatype Entry = Entry(key: string, resp: Bytes, expires: Time)

  // ---------------------------------------------------------------- specification

  datatype Op =
    | Get(key: string)
    | Put(key: string, resp: Bytes, ttl: int)
    | FlushExpired
    | FlushAll

  /** An operation together with the clock reading it sees. */
  datatype Event = Event(op: Op, now: Time)

  function At(ev: Event): Time {
    ev.now
  }

  function Find(s: seq<Entry>, key: string): Option<Entry> {
    if s == [] then None else if s[0].key == key then Some(s[0]) else Find(s[1..], key)
  }

  function Remove(s: seq<Entry>, key: string): seq<Entry> {
    if s == [] then []
    else if s[0].key == key then Remove(s[1..], key)
    else [s[0]] + Remove(s[1..], key)
  }

  function Live(s: seq<Entry>, now: Time): seq<Entry> {
    if s == [] then []
    else if now > s[0].expires then Live(s[1..], now)
    else [s[0]] + Live(s[1..], now)
  }

  function Truncate(s: seq<Entry>, max: nat): seq<Entry> {
    if |s| <= max then s else s[..max]
  }

  /** The list after one event; `max` is the capacity. */
  function Step(max: nat, s: seq<Entry>, ev: Event): seq<Entry> {
    match ev.op
    case Get(key) =>
      var found := Find(s, key);
      if max == 0 || found.None? then s
      else if ev.now > found.value.expires then Remove(s, key)
      else [found.value] + Remove(s, key)
    case Put(key, resp, ttl) =>
      if max == 0 || ttl <= 0 then s
      else Truncate([Entry(key, resp, ev.now + ttl)] + Remove(s, key), max)
    case FlushExpired => Live(s, ev.now)
    case FlushAll => []
  }

  /** What a Get answers on list `s`. */
  function Answer(max: nat, s: seq<Entry>, key: string, now: Time): Option<Bytes> {
    var found := Find(s, key);
    if max == 0 || found.None? || now > found.value.expires then None
    else Some(found.value.resp)
  }

  /** The list after a whole history, oldest event first. */
  function Run(max: nat, h: seq<Event>): seq<Entry> {
    if h == [] then [] else Step(max, Run(max, h[..|h|-1]), h[|h|-1])
  }

  ghost predicate UniqueKeys(s: seq<Entry>) {
    s != [] ==> Find(s[1..], s[0].key).None? && UniqueKeys(s[1..])
  }

  ghost predicate Fits(max: nat, s: seq<Entry>) {
    UniqueKeys(s) && |s| <= max
  }

  // ------------------------------------------------------------- list lemmas

  lemma FindKey(s: seq<Entry>, key: string)
    ensures Find(s, key).Some? ==> Find(s, key).value.key == key
  {}

  lemma {:induction false} FindAt(s: seq<Entry>, i: nat)
    requires i < |s|
    ensures Find(s, s[i].key).Some?
  {
    if i > 0 { FindAt(s[1..], i - 1); }
  }

  lemma RemoveSize(s: seq<Entry>, key: string)
    ensures |Remove(s, key)| <= |s|
    ensures Find(s, key).Some? ==> |Remove(s, key)| < |s|
    ensures Find(s, key).None? ==> Remove(s, key) == s
  {}

  lemma {:induction false} Cons(e: Entry, s: seq<Entry>, x: string)
    ensures UniqueKeys([e] + s) <==> Find(s, e.key).None? && UniqueKeys(s)
    ensures Find([e] + s, x) == if e.key == x then Some(e) else Find(s, x)
    ensures Remove([e] + s, x) == if e.key == x then Remove(s, x) else [e] + Remove(s, x)
  {
    assert ([e] + s)[1..] == s;
  }

  lemma {:induction false} RemoveCommutes(s: seq<Entry>, a: string, b: string)
    ensures Remove(Remove(s, a), b) == Remove(Remove(s, b), a)
    ensures Remove(Remove(s, a), a) == Remove(s, a)
  {
    if s != [] {
      RemoveCommutes(s[1..], a, b);
      Cons(s[0], Remove(s[1..], a), b);
      Cons(s[0], Remove(s[1..], b), a);
      Cons(s[0], Remove(s[1..], a), a);
    }
  }

  lemma {:induction false} FindRemove(s: seq<Entry>, x: string, key: string)
    ensures Find(Remove(s, x), key) == if key == x then None else Find(s, key)
  {
    if s != [] {
      FindRemove(s[1..], x, key);
      Cons(s[0], Remove(s[1..], x), key);
    }
  }

  lemma {:induction false} RemoveUnique(s: seq<Entry>, key: string)
    requires UniqueKeys(s)
    ensures UniqueKeys(Remove(s, key))
    ensures Find(s, key).Some? ==> |Remove(s, key)| == |s| - 1
  {
    if s != [] {
      RemoveUnique(s[1..], key);
      RemoveSize(s[1..], key);
      FindRemove(s[1..], key, s[0].key);
      Cons(s[0], Remove(s[1..], key), key);
    }
  }

  /** Dropping the expired entries. */
  lemma {:induction false} LiveUnique(s: seq<Entry>, now: Time, key: string)
    requires UniqueKeys(s)
    ensures UniqueKeys(Live(s, now)) && |Live(s, now)| <= |s|
    ensures Find(Live(s, now), key) ==
            if Find(s, key).Some? && now <= Find(s, key).value.expires then Find(s, key) else None
  {
    if s != [] {
      LiveUnique(s[1..], now, key);
      LiveUnique(s[1..], now, s[0].key);
      Cons(s[0], Live(s[1..], now), key);
    }
  }

  lemma {:induction false} LiveRemove(s: seq<Entry>, x: string, now: Time)
    ensures Live(Remove(s, x), now) == Remove(Live(s, now), x)
  {
    if s != [] {
      LiveRemove(s[1..], x, now);
      Cons(s[0], Live(s[1..], now), x);
      assert ([s[0]] + Remove(s[1..], x))[1..] == Remove(s[1..], x);
    }
  }

  lemma {:induction false} RemoveAppend(a: seq<Entry>, b: seq<Entry>, x: string)
    ensures Remove(a + b, x) == Remove(a, x) + Remove(b, x)
  {
    if a == [] {
      assert a + b == b;
    } else {
      RemoveAppend(a[1..], b, x);
      assert (a + b)[1..] == a[1..] + b && (a + b)[0] == a[0];
      assert Remove(a, x) == if a[0].key == x then Remove(a[1..], x) else [a[0]] + Remove(a[1..], x);
    }
  }

  /** With unique keys, removing a key takes out one position. */
  lemma {:induction false} RemoveAt(s: seq<Entry>, i: nat)
    requires UniqueKeys(s) && i < |s|
    ensures Remove(s, s[i].key) == s[..i] + s[i+1..]
  {
    if i == 0 {
      RemoveSize(s[1..], s[0].key);
    } else {
      var t := s[1..];
      FindAt(t, i - 1);
      RemoveAt(t, i - 1);
      assert s[..i] == [s[0]] + t[..i-1] && s[i+1..] == t[i..];
      assert [s[0]] + (t[..i-1] + t[i..]) == [s[0]] + t[..i-1] + t[i..];
    }
  }

  lemma {:induction false} RemoveLast(s: seq<Entry>)
    requires UniqueKeys(s) && s != []
    ensures Remove(s, s[|s|-1].key) == s[..|s|-1]
  {
    RemoveAt(s, |s| - 1);
  }

  // ------------------------------------------------------------ size and uniqueness

  lemma {:induction false} FindTake(s: seq<Entry>, n: nat, key: string)
    requires Find(s, key).None? && n <= |s|
    ensures Find(s[..n], key).None?
  {
    if n > 0 {
      FindTake(s[1..], n - 1, key);
      assert s[..n][1..] == s[1..][..n-1];
    }
  }

  lemma {:induction false} UniqueTake(s: seq<Entry>, n: nat)
    requires UniqueKeys(s)
    ensures UniqueKeys(Truncate(s, n))
  {
    if 0 < n < |s| {
      UniqueTake(s[1..], n - 1);
      assert s[..n][1..] == s[1..][..n-1];
      FindTake(s[1..], n - 1, s[0].key);
    }
  }

  lemma {:induction false} StepFits(max: nat, s: seq<Entry>, ev: Event)
    requires Fits(max, s)
    ensures Fits(max, Step(max, s, ev))
  {
    assert UniqueKeys([]);
    hide Find, Remove, Live, UniqueKeys;
    match ev.op
    case Get(key) =>
      FindKey(s, key);
      RemoveSize(s, key);
      RemoveUnique(s, key);
      FindRemove(s, key, key);
      if Find(s, key).Some? { Cons(Find(s, key).value, Remove(s, key), key); }
    case Put(key, resp, ttl) =>
      var e, r := Entry(key, resp, ev.now + ttl), Remove(s, key);
      RemoveSize(s, key);
      RemoveUnique(s, key);
      FindRemove(s, key, key);
      Cons(e, r, key);
      UniqueTake([e] + r, max);
    case FlushExpired => LiveUnique(s, ev.now, "");
    case FlushAll =>
  }

  lemma {:induction false} RunFits(max: nat, h: seq<Event>)
    ensures Fits(max, Run(max, h))
  {
    if h != [] {
      RunFits(max, h[..|h|-1]);
      StepFits(max, Run(max, h[..|h|-1]), h[|h|-1]);
    }
  }

  // ------------------------------------------------ a bigger cache never hits less

  /** `small` is `big` with at most one entry taken out, order and bytes unchanged. */
  ghost predicate AtMostOneLess(small: seq<Entry>, big: seq<Entry>) {
    small == big || exists x :: small == Remove(big, x)
  }

  /** Pushing a new key in front of both lists, before anything is cut off. */
  lemma {:induction false} InclusionPush(small: seq<Entry>, big: seq<Entry>, e: Entry, x: string)
    requires small == Remove(big, x) && Find(big, e.key).None? && Find(big, x).Some?
    ensures [e] + small == Remove([e] + big, x)
  {
    FindKey(big, x);
    Cons(e, big, x);
  }

  /** Both lists full: each loses its last entry. */
  lemma {:induction false} InclusionCut(max: nat, small: seq<Entry>, big: seq<Entry>, e: Entry, x: string)
    requires max > 0 && UniqueKeys([e] + big) && |big| == max + 1 && |small| == max
    requires small == Remove(big, x) && e.key != x
    ensures AtMostOneLess(([e] + small)[..max], ([e] + big)[..max + 1])
  {
    var last := big[max];
    assert big == big[..max] + [last];
    assert ([e] + big)[..max + 1] == [e] + big[..max];
    Cons(e, big, x);
    if last.key == x {
      RemoveLast(big);
      RemoveUnique([e] + big, x);
      RemoveLast([e] + small);
    } else {
      RemoveAppend(big[..max], [last], x);
      Cons(e, big[..max], x);
      assert small == Remove(big[..max], x) + [last];
      assert ([e] + small)[..max] == [e] + Remove(big[..max], x);
    }
  }

  /** Inserting a new key in front, with `max` and `max + 1` entries of room. */
  lemma {:induction false} InclusionInsert(max: nat, small: seq<Entry>, big: seq<Entry>, e: Entry)
    requires max > 0 && Fits(max, small) && Fits(max + 1, big) && AtMostOneLess(small, big)
    requires Find(big, e.key).None?
    ensures AtMostOneLess(Truncate([e] + small, max), Truncate([e] + big, max + 1))
  {
    Cons(e, big, e.key);
    if small == big {
      if |small| == max { RemoveLast([e] + big); }
    } else {
      var x :| small == Remove(big, x);
      RemoveSize(big, x);
      RemoveUnique(big, x);
      InclusionPush(small, big, e, x);
      if |small| == max {
        FindKey(big, x);
        InclusionCut(max, small, big, e, x);
      }
    }
  }

  lemma {:induction false} InclusionStep(max: nat, small: seq<Entry>, big: seq<Entry>, ev: Event)
    requires Fits(max, small) && Fits(max + 1, big) && AtMostOneLess(small, big)
    ensures AtMostOneLess(Step(max, small, ev), Step(max + 1, big, ev))
  {
    var small', big' := Step(max, small, ev), Step(max + 1, big, ev);
    StepFits(max + 1, big, ev);
    if max == 0 {
      if big' != [] { RemoveLast(big'); }
    } else if ev.op.Put? && ev.op.ttl > 0 {
      var key := ev.op.key;
      RemoveSize(small, key);
      RemoveSize(big, key);
      RemoveUnique(small, key);
      RemoveUnique(big, key);
      FindRemove(big, key, key);
      if small != big {
        var x :| small == Remove(big, x);
        RemoveCommutes(big, x, key);
      }
      InclusionInsert(max, Remove(small, key), Remove(big, key),
                      Entry(key, ev.op.resp, ev.now + ev.op.ttl));
    } else if small != big {
      var x :| small == Remove(big, x);
      match ev.op
      case Get(key) =>
        FindKey(big, key);
        FindRemove(big, x, key);
        RemoveCommutes(big, x, key);
        if big' != big && big' != Remove(big, key) { assert big'[1..] == Remove(big, key); }
        assert small' == Remove(big', x);
      case Put(_, _, _) =>
      case FlushExpired => LiveRemove(big, x, ev.now);
      case FlushAll =>
    }
  }

  /** Same history, same clock: the lists differ by at most one entry of the bigger cache. */
  lemma {:induction false} Inclusion(max: nat, h: seq<Event>)
    ensures AtMostOneLess(Run(max, h), Run(max + 1, h))
  {
    if h != [] {
      var g := h[..|h|-1];
      Inclusion(max, g);
      RunFits(max, g);
      RunFits(max + 1, g);
      InclusionStep(max, Run(max, g), Run(max + 1, g), h[|h|-1]);
    }
  }

  /** Whatever a cache answers, every bigger cache with the same history answers too. */
  lemma {:induction false} BiggerNeverHitsLess(max: nat, bigger: nat, h: seq<Event>, key: string, now: Time)
    requires max <= bigger
    requires Answer(max, Run(max, h), key, now).Some?
    ensures Answer(bigger, Run(bigger, h), key, now) == Answer(max, Run(max, h), key, now)
    decreases bigger - max
  {
    if max < bigger {
      var small, big := Run(max, h), Run(max + 1, h);
      Inclusion(max, h);
      if small != big {
        var x :| small == Remove(big, x);
        FindRemove(big, x, key);
      }
      BiggerNeverHitsLess(max + 1, bigger, h, key, now);
    }
  }

  // --------------------------------------------------- what a hit means in the history

  /** Index of the last Put of `key` that stores anything, or -1. */
  function LatestPut(h: seq<Event>, key: string): (p: int)
    ensures -1 <= p < |h|
    ensures p >= 0 ==> h[p].op.Put? && h[p].op.key == key && h[p].op.ttl > 0
    ensures forall j :: p < j < |h| ==> !(h[j].op.Put? && h[j].op.key == key && h[j].op.ttl > 0)
  {
    if h == [] then -1
    else
      var last := h[|h|-1].op;
      if last.Put? && last.key == key && last.ttl > 0 then |h| - 1
      else LatestPut(h[..|h|-1], key)
  }

  /** Index of the last event that used `key`: a storing Put, or a Get that was answered. */
  function LastUse(max: nat, h: seq<Event>, key: string): (u: int)
    ensures -1 <= u < |h|
  {
    if h == [] then -1
    else
      var g, last := h[..|h|-1], h[|h|-1];
      if last.op.Put? && last.op.key == key && last.op.ttl > 0 then |h| - 1
      else if last.op.Get? && last.op.key == key && Answer(max, Run(max, g), key, last.now).Some?
      then |h| - 1
      else LastUse(max, g, key)
  }

  /** The entry that the Put at index `p` of `h` stores. */
  function Stored(h: seq<Event>, p: nat): Entry
    requires p < |h| && h[p].op.Put?
  {
    Entry(h[p].op.key, h[p].op.resp, h[p].now + h[p].op.ttl)
  }

  /** Event `j` is the Put of a new key into a full cache whose least recent entry is `key`. */
  ghost predicate Evicts(max: nat, h: seq<Event>, j: nat, key: string)
    requires j < |h|
  {
    var s := Run(max, h[..j]);
    max > 0 && h[j].op.Put? && h[j].op.ttl > 0 && Find(s, h[j].op.key).None? &&
    |s| == max && s[max-1].key == key
  }

  /** No event after `p` flushes everything or evicts `key`. */
  ghost predicate Undisturbed(max: nat, h: seq<Event>, p: nat, key: string) {
    forall j :: p < j < |h| ==> !h[j].op.FlushAll? && !Evicts(max, h, j, key)
  }

  lemma {:induction false} UndisturbedPrefix(max: nat, h: seq<Event>, p: nat, key: string)
    requires h != [] && p < |h| - 1
    ensures var g := h[..|h|-1];
            Undisturbed(max, h, p, key) <==>
            Undisturbed(max, g, p, key) && !h[|h|-1].op.FlushAll? && !Evicts(max, h, |h|-1, key)
  {
    var g := h[..|h|-1];
    forall j | 0 <= j < |g| ensures h[j] == g[j] && Evicts(max, h, j, key) == Evicts(max, g, j, key) {
      assert h[..j] == g[..j];
    }
  }

  /** Where a key is after a storing Put: in front, or where it was unless it was cut off. */
  lemma {:induction false} FindAfterPut(max: nat, s: seq<Entry>, e: Entry, key: string)
    requires max > 0 && Fits(max, s)
    ensures Find(Truncate([e] + Remove(s, e.key), max), key) ==
            if key == e.key then Some(e)
            else if Find(s, e.key).None? && |s| == max && s[max-1].key == key then None
            else Find(s, key)
  {
    var r := Remove(s, e.key);
    RemoveSize(s, e.key);
    RemoveUnique(s, e.key);
    FindRemove(s, e.key, key);
    Cons(e, r, key);
    if |r| == max {
      assert ([e] + r)[..max] == [e] + r[..max-1];
      FindAllButLast(r, key);
      Cons(e, r[..max-1], key);
    }
  }

  lemma {:induction false} FindAllButLast(s: seq<Entry>, key: string)
    requires UniqueKeys(s) && s != []
    ensures Find(s[..|s|-1], key) == if s[|s|-1].key == key then None else Find(s, key)
  {
    RemoveLast(s);
    FindRemove(s, s[|s|-1].key, key);
  }

  /** What one event does to one key, when it is not a storing Put of that key. */
  lemma {:induction false} StepOtherKey(max: nat, h: seq<Event>, key: string)
    requires h != []
    requires var last := h[|h|-1].op; !(last.Put? && last.key == key && last.ttl > 0)
    ensures var (s, last) := (Run(max, h[..|h|-1]), h[|h|-1]);
            var disturbed := last.op.FlushAll? || Evicts(max, h, |h|-1, key);
            var found := Find(Run(max, h), key);
            && (found.Some? ==> Find(s, key) == found && !disturbed)
            && (Find(s, key).Some? && last.now <= Find(s, key).value.expires && !disturbed ==>
                  found == Find(s, key))
  {
    var g, last := h[..|h|-1], h[|h|-1];
    var s := Run(max, g);
    RunFits(max, g);
    assert Find([], key) == None;
    hide Find, Remove, Live, UniqueKeys;
    match last.op
    case Get(k) =>
      FindKey(s, k);
      FindRemove(s, k, key);
      if Find(s, k).Some? { Cons(Find(s, k).value, Remove(s, k), key); }
    case Put(k, resp, ttl) =>
      if max > 0 && ttl > 0 { FindAfterPut(max, s, Entry(k, resp, last.now + ttl), key); }
    case FlushExpired => LiveUnique(s, last.now, key);
    case FlushAll =>
  }

  /** Every entry is its key's latest Put, undisturbed since. */
  lemma {:induction false} EntryIsLatestPut(max: nat, h: seq<Event>, key: string)
    requires Find(Run(max, h), key).Some?
    ensures var p := LatestPut(h, key);
            p >= 0 && Find(Run(max, h), key).value == Stored(h, p) && Undisturbed(max, h, p, key)
  {
    var g, last := h[..|h|-1], h[|h|-1];
    var s := Run(max, g);
    if last.op.Put? && last.op.key == key && last.op.ttl > 0 {
      if max > 0 {
        RunFits(max, g);
        FindAfterPut(max, s, Stored(h, |h|-1), key);
      } else {
        RunFits(max, h);
      }
    } else {
      StepOtherKey(max, h, key);
      EntryIsLatestPut(max, g, key);
      UndisturbedPrefix(max, h, LatestPut(g, key), key);
    }
  }

  /** Unexpired and undisturbed since its latest Put, a key is still there. */
  lemma {:induction false} UndisturbedStays(max: nat, h: seq<Event>, key: string, now: Time)
    requires max > 0 && ClockForward(h, At) && (h != [] ==> h[|h|-1].now <= now)
    requires var p := LatestPut(h, key);
             p >= 0 && now <= Stored(h, p).expires && Undisturbed(max, h, p, key)
    ensures Find(Run(max, h), key) == Some(Stored(h, LatestPut(h, key)))
  {
    var g, last := h[..|h|-1], h[|h|-1];
    var s, p := Run(max, g), LatestPut(h, key);
    if p == |h| - 1 {
      RunFits(max, g);
      FindAfterPut(max, s, Stored(h, p), key);
    } else {
      UndisturbedPrefix(max, h, p, key);
      assert ClockForward(g, At) && (g != [] ==> g[|g|-1].now <= now);
      UndisturbedStays(max, g, key, now);
      StepOtherKey(max, h, key);
    }
  }

  /**
   A Get is answered exactly when the key's latest Put has not expired and, since that Put,
   the cache was not flushed and the key was not evicted; the answer is that Put's bytes.
   */
  lemma {:induction false} HitIff(max: nat, h: seq<Event>, key: string, now: Time, resp: Bytes)
    requires ClockForward(h, At) && (h != [] ==> h[|h|-1].now <= now)
    ensures Answer(max, Run(max, h), key, now) == Some(resp) <==>
            (var p := LatestPut(h, key);
             max > 0 && p >= 0 && now <= Stored(h, p).expires &&
             resp == Stored(h, p).resp && Undisturbed(max, h, p, key))
  {
    var p := LatestPut(h, key);
    if Answer(max, Run(max, h), key, now) == Some(resp) {
      EntryIsLatestPut(max, h, key);
    } else if max > 0 && p >= 0 && now <= Stored(h, p).expires && Undisturbed(max, h, p, key) {
      UndisturbedStays(max, h, key, now);
    }
  }

  lemma FindMember(s: seq<Entry>, key: string)
    ensures Find(s, key).Some? ==> Find(s, key).value in s && Find(s, key).value.key == key
    ensures Find(s, key).None? <==> forall e :: e in s ==> e.key != key
  {}

  lemma {:induction false} RemoveMembers(s: seq<Entry>, key: string)
    ensures forall e :: e in Remove(s, key) <==> e in s && e.key != key
  {
    if s != [] {
      RemoveMembers(s[1..], key);
      assert s == [s[0]] + s[1..];
    }
  }

  lemma {:induction false} LiveMembers(s: seq<Entry>, now: Time)
    ensures forall e :: e in Live(s, now) <==> e in s && now <= e.expires
  {
    if s != [] {
      LiveMembers(s[1..], now);
      assert s == [s[0]] + s[1..];
    }
  }

  /** `s` runs from the most to the least recently used key of `h`. */
  ghost predicate ByLastUse(max: nat, h: seq<Event>, s: seq<Entry>) {
    s != [] ==>
      && LastUse(max, h, s[0].key) >= 0
      && (forall e :: e in s[1..] ==> LastUse(max, h, e.key) < LastUse(max, h, s[0].key))
      && ByLastUse(max, h, s[1..])
  }

  lemma {:induction false} ByLastUseRemove(max: nat, h: seq<Event>, s: seq<Entry>, key: string)
    requires ByLastUse(max, h, s)
    ensures ByLastUse(max, h, Remove(s, key))
  {
    if s != [] {
      ByLastUseRemove(max, h, s[1..], key);
      RemoveMembers(s[1..], key);
      assert ([s[0]] + Remove(s[1..], key))[1..] == Remove(s[1..], key);
    }
  }

  lemma {:induction false} ByLastUseLive(max: nat, h: seq<Event>, s: seq<Entry>, now: Time)
    requires ByLastUse(max, h, s)
    ensures ByLastUse(max, h, Live(s, now))
  {
    if s != [] {
      ByLastUseLive(max, h, s[1..], now);
      LiveMembers(s[1..], now);
      assert ([s[0]] + Live(s[1..], now))[1..] == Live(s[1..], now);
    }
  }

  lemma {:induction false} ByLastUseTake(max: nat, h: seq<Event>, s: seq<Entry>, n: nat)
    requires ByLastUse(max, h, s) && n <= |s|
    ensures ByLastUse(max, h, s[..n])
  {
    if n > 0 {
      ByLastUseTake(max, h, s[1..], n - 1);
      assert s[..n][1..] == s[1..][..n-1];
    }
  }

  /** The order carries over to a longer history that uses none of the keys in `s`. */
  lemma {:induction false} ByLastUseExtend(max: nat, g: seq<Event>, h: seq<Event>, s: seq<Entry>)
    requires ByLastUse(max, g, s)
    requires forall e :: e in s ==> LastUse(max, h, e.key) == LastUse(max, g, e.key)
    ensures ByLastUse(max, h, s)
  {
    if s != [] {
      assert s[0] in s && forall e :: e in s[1..] ==> e in s;
      ByLastUseExtend(max, g, h, s[1..]);
    }
  }

  /** The list is always in order of last use. */
  lemma {:induction false} RunByLastUse(max: nat, h: seq<Event>)
    ensures ByLastUse(max, h, Run(max, h))
  {
    if h != [] {
      var g, last := h[..|h|-1], h[|h|-1];
      var s, t := Run(max, g), Run(max, h);
      RunByLastUse(max, g);
      RunFits(max, g);
      match last.op
      case Get(key) => GetByLastUse(max, h, key);
      case Put(key, resp, ttl) =>
        if max > 0 && ttl > 0 { PutByLastUse(max, h, key); } else { ByLastUseExtend(max, g, h, s); }
      case FlushExpired =>
        ByLastUseLive(max, g, s, last.now);
        ByLastUseExtend(max, g, h, t);
      case FlushAll =>
    }
  }

  lemma {:induction false} GetByLastUse(max: nat, h: seq<Event>, key: string)
    requires h != [] && h[|h|-1].op == Get(key) && ByLastUse(max, h[..|h|-1], Run(max, h[..|h|-1]))
    ensures ByLastUse(max, h, Run(max, h))
  {
    var g, last := h[..|h|-1], h[|h|-1];
    var s := Run(max, g);
    var r := Remove(s, key);
    FindMember(s, key);
    RemoveMembers(s, key);
    ByLastUseRemove(max, g, s, key);
    ByLastUseExtend(max, g, h, r);
    if Answer(max, s, key, last.now).Some? {
      PushByLastUse(max, h, Find(s, key).value, r);
    } else {
      ByLastUseExtend(max, g, h, s);
    }
  }

  lemma {:induction false} PutByLastUse(max: nat, h: seq<Event>, key: string)
    requires max > 0 && h != [] && h[|h|-1].op.Put? && h[|h|-1].op.key == key && h[|h|-1].op.ttl > 0
    requires ByLastUse(max, h[..|h|-1], Run(max, h[..|h|-1]))
    ensures ByLastUse(max, h, Run(max, h))
  {
    hide Run, LastUse, ByLastUse, Remove, Truncate;
    var g, s := h[..|h|-1], Run(max, h[..|h|-1]);
    var e, r := Stored(h, |h|-1), Remove(s, key);
    RunPut(max, h, key);
    RemoveMembers(s, key);
    forall d | d in r ensures LastUse(max, h, d.key) == LastUse(max, g, d.key) { OthersUnused(max, h, d.key); }
    ByLastUseRemove(max, g, s, key);
    ByLastUseExtend(max, g, h, r);
    PushByLastUse(max, h, e, r);
    ByLastUseTake(max, h, [e] + r, |Run(max, h)|);
  }

  lemma {:induction false} RunPut(max: nat, h: seq<Event>, key: string)
    requires max > 0 && h != [] && h[|h|-1].op.Put? && h[|h|-1].op.key == key && h[|h|-1].op.ttl > 0
    ensures var t := [Stored(h, |h|-1)] + Remove(Run(max, h[..|h|-1]), key);
            |Run(max, h)| <= |t| && Run(max, h) == t[..|Run(max, h)|]
    ensures LastUse(max, h, key) == |h| - 1
  {}

  /** A Put leaves the last use of the other keys. */
  lemma {:induction false} OthersUnused(max: nat, h: seq<Event>, key: string)
    requires h != [] && h[|h|-1].op.Put? && h[|h|-1].op.key != key
    ensures LastUse(max, h, key) == LastUse(max, h[..|h|-1], key) < |h| - 1
  {}

  lemma {:induction false} PushByLastUse(max: nat, h: seq<Event>, e: Entry, s: seq<Entry>)
    requires h != [] && LastUse(max, h, e.key) == |h| - 1 && ByLastUse(max, h, s)
    requires forall d :: d in s ==> LastUse(max, h, d.key) < |h| - 1
    ensures ByLastUse(max, h, [e] + s)
  {
    assert ([e] + s)[1..] == s;
  }

  lemma {:induction false} LastIsLeastRecent(max: nat, h: seq<Event>, s: seq<Entry>)
    requires ByLastUse(max, h, s) && s != []
    ensures forall e :: e in s[..|s|-1] ==> LastUse(max, h, s[|s|-1].key) < LastUse(max, h, e.key)
  {
    if |s| > 1 {
      LastIsLeastRecent(max, h, s[1..]);
      assert s[..|s|-1] == [s[0]] + s[1..][..|s|-2];
      assert s[|s|-1] in s[1..];
    }
  }

  /** The evicted key is the one used longest ago, and the only one that goes. */
  lemma {:induction false} EvictsLeastRecentlyUsed(max: nat, h: seq<Event>, j: nat, victim: string, key: string)
    requires j < |h| && Evicts(max, h, j, victim)
    requires Find(Run(max, h[..j]), key).Some?
    ensures key != victim ==> LastUse(max, h[..j], victim) < LastUse(max, h[..j], key)
    ensures Find(Step(max, Run(max, h[..j]), h[j]), key).Some? <==> key != victim
  {
    hide Find, Remove, UniqueKeys, LastUse, ByLastUse;
    var s := Run(max, h[..j]);
    RunByLastUse(max, h[..j]);
    LastIsLeastRecent(max, h[..j], s);
    RunFits(max, h[..j]);
    FindMember(s, key);
    assert s == s[..max-1] + [s[max-1]];
    FindAfterPut(max, s, Entry(h[j].op.key, h[j].op.resp, h[j].now + h[j].op.ttl), key);
  }

  // ------------------------------------------------ what goes when

  /** A soft flush drops the expired entries, all of them and no other. */
  lemma {:induction false} FlushDropsTheExpired(max: nat, h: seq<Event>, now: Time, e: Entry)
    ensures e in Run(max, h + [Event(FlushExpired, now)]) <==> e in Run(max, h) && now <= e.expires
  {
    assert (h + [Event(FlushExpired, now)])[..|h|] == h;
    LiveMembers(Run(max, h), now);
    hide Live;
  }

  /** A Get drops the entry of its key when it is expired, and no entry otherwise. */
  lemma {:induction false} GetDropsTheExpired(max: nat, h: seq<Event>, key: string, now: Time, e: Entry)
    requires max > 0
    ensures e in Run(max, h + [Event(Op.Get(key), now)]) <==> e in Run(max, h) && !(e.key == key && now > e.expires)
  {
    var s := Run(max, h);
    assert (h + [Event(Op.Get(key), now)])[..|h|] == h;
    RunFits(max, h);
    FindMember(s, key);
    RemoveMembers(s, key);
    if e in s && e.key == key { OnlyEntryOf(s, e); }
    hide Find, Remove, UniqueKeys;
  }

  lemma {:induction false} OnlyEntryOf(s: seq<Entry>, e: Entry)
    requires UniqueKeys(s) && e in s
    ensures Find(s, e.key) == Some(e)
  {
    if s[0] != e {
      assert e in s[1..];
      OnlyEntryOf(s[1..], e);
    }
  }

  // ------------------------------------------------ how long a key is safe

  /** The key an event asks for or stores. */
  function KeyOf(ev: Event): Option<string> {
    match ev.op
    case Get(key) => Some(key)
    case Put(key, _, ttl) => if ttl > 0 then Some(key) else None
    case _ => None
  }

  /** The other keys asked for or stored after index `p`. */
  function Others(h: seq<Event>, p: int, key: string): set<string> {
    if |h| == 0 || |h| <= p + 1 then {}
    else
      var k := KeyOf(h[|h|-1]);
      Others(h[..|h|-1], p, key) + if k.Some? && k.value != key then {k.value} else {}
  }

  lemma {:induction false} MentionedIsOther(h: seq<Event>, p: int, key: string, i: nat)
    requires p < i < |h| && KeyOf(h[i]).Some? && KeyOf(h[i]).value != key
    ensures KeyOf(h[i]).value in Others(h, p, key)
  {
    hide KeyOf;
    if i < |h| - 1 { MentionedIsOther(h[..|h|-1], p, key, i); }
  }

  lemma {:induction false} FewerOthers(h: seq<Event>, n: nat, u: int, p: int, key: string)
    requires n <= |h| && p <= u
    ensures Others(h[..n], u, key) <= Others(h, p, key)
  {
    hide KeyOf;
    if n < |h| {
      FewerOthers(h[..|h|-1], n, u, p, key);
      assert h[..|h|-1][..n] == h[..n];
    } else if 0 < n {
      assert h[..n] == h;
      var g := h[..n-1];
      FewerOthers(g, n - 1, u, p, key);
      assert g[..n-1] == g;
    }
  }

  lemma {:induction false} LastUseMentions(max: nat, h: seq<Event>, key: string)
    requires LastUse(max, h, key) >= 0
    ensures KeyOf(h[LastUse(max, h, key)]) == Some(key)
  {
    hide Run, Answer;
    if LastUse(max, h, key) != |h| - 1 { LastUseMentions(max, h[..|h|-1], key); }
  }

  lemma {:induction false} PutIsUse(max: nat, h: seq<Event>, key: string)
    ensures LatestPut(h, key) <= LastUse(max, h, key)
  {
    hide Run, Answer;
    if h != [] { PutIsUse(max, h[..|h|-1], key); }
  }

  function KeysOf(s: seq<Entry>): (ks: set<string>)
    ensures forall k :: k in ks <==> exists e :: e in s && e.key == k
  {
    set e | e in s :: e.key
  }

  lemma {:induction false} ManyKeys(s: seq<Entry>)
    requires UniqueKeys(s)
    ensures |KeysOf(s)| == |s|
  {
    if s != [] {
      ManyKeys(s[1..]);
      FindMember(s[1..], s[0].key);
      assert s == [s[0]] + s[1..];
      assert KeysOf(s) == KeysOf(s[1..]) + {s[0].key};
      assert s[0].key !in KeysOf(s[1..]);
    }
  }

  lemma {:induction false} Smaller(a: set<string>, b: set<string>)
    requires a <= b
    ensures |a| <= |b|
  {
    assert b == a + (b - a);
  }

  /** Between its last use and its eviction a key sees at least `max` other keys go by. */
  lemma {:induction false} EvictionTakesOthers(max: nat, h: seq<Event>, j: nat, key: string)
    requires j < |h| && Evicts(max, h, j, key)
    ensures |Others(h[..j+1], LastUse(max, h[..j], key), key)| >= max
  {
    hide Find, LastUse, ByLastUse, UniqueKeys, Others, Run;
    var g, s := h[..j], Run(max, h[..j]);
    var u, newKey := LastUse(max, g, key), h[j].op.key;
    RunFits(max, g);
    UniqueTake(s, max - 1);
    ManyKeys(s[..max-1]);
    FindMember(s, newKey);
    assert s[max-1] in s;
    assert forall e :: e in s[..max-1] ==> e in s;
    var seen := KeysOf(s[..max-1]) + {newKey};
    assert newKey !in KeysOf(s[..max-1]);
    forall k | k in seen ensures k in Others(h[..j+1], u, key) {
      if k == newKey {
        assert h[..j+1][j] == h[j];
        MentionedIsOther(h[..j+1], u, key, j);
      } else {
        UsedSince(max, h, j, key, k);
      }
    }
    Smaller(seen, Others(h[..j+1], u, key));
  }

  lemma {:induction false} UsedSince(max: nat, h: seq<Event>, j: nat, key: string, k: string)
    requires j < |h| && Evicts(max, h, j, key) && k in KeysOf(Run(max, h[..j])[..max-1])
    ensures k in Others(h[..j+1], LastUse(max, h[..j], key), key)
  {
    hide Find, LastUse, ByLastUse, UniqueKeys, Others, Run;
    var g, s := h[..j], Run(max, h[..j]);
    var e :| e in s[..max-1] && e.key == k;
    RunByLastUse(max, g);
    LastIsLeastRecent(max, g, s);
    var u, i := LastUse(max, g, key), LastUse(max, g, k);
    assert s[..|s|-1] == s[..max-1] && u < i;
    LastUseMentions(max, g, k);
    assert h[..j+1][i] == g[i];
    MentionedIsOther(h[..j+1], u, key, i);
  }

  /**
   What a client can count on, from the history alone: an unexpired answer is still there while
   nobody flushed everything and fewer than `max` other keys were asked for or stored since.
   */
  lemma {:induction false} FewOthersLeaveIt(max: nat, h: seq<Event>, key: string, now: Time)
    requires ClockForward(h, At) && (h != [] ==> h[|h|-1].now <= now)
    requires var p := LatestPut(h, key);
             && p >= 0 && now <= Stored(h, p).expires && |Others(h, p, key)| < max
             && forall j :: p < j < |h| ==> !h[j].op.FlushAll?
    ensures Answer(max, Run(max, h), key, now) == Some(Stored(h, LatestPut(h, key)).resp)
  {
    var p := LatestPut(h, key);
    HitIff(max, h, key, now, Stored(h, p).resp);
    hide Run, Answer, LastUse, Others, LatestPut, Evicts;
    forall j | p < j < |h| ensures !Evicts(max, h, j, key) {
      TooFewToEvict(max, h, j, key);
    }
  }

  lemma {:induction false} TooFewToEvict(max: nat, h: seq<Event>, j: nat, key: string)
    requires 0 <= LatestPut(h, key) < j < |h| && |Others(h, LatestPut(h, key), key)| < max
    ensures !Evicts(max, h, j, key)
  {
    hide Run, LastUse, Others, LatestPut, Evicts;
    if Evicts(max, h, j, key) {
      var p, u := LatestPut(h, key), LastUse(max, h[..j], key);
      EvictionTakesOthers(max, h, j, key);
      LatestPutBefore(h, j, key);
      PutIsUse(max, h[..j], key);
      FewerOthers(h, j + 1, u, p, key);
      Smaller(Others(h[..j+1], u, key), Others(h, p, key));
      assert false;
    }
  }

  lemma {:induction false} LatestPutBefore(h: seq<Event>, n: nat, key: string)
    requires LatestPut(h, key) < n <= |h|
    ensures LatestPut(h[..n], key) == LatestPut(h, key)
  {
    if n < |h| {
      LatestPutBefore(h[..|h|-1], n, key);
      assert h[..|h|-1][..n] == h[..n];
    } else {
      assert h[..n] == h;
    }
  }

  // ------------------------------------------------------------- the cache itself

  /** A list element. Its key never changes; a Put of a known key overwrites the rest in place. */
  class Element {
    const key: string
    var resp: Bytes
    var expires: Time

    constructor (key: string, resp: Bytes, expires: Time)
      ensures this.key == key && this.resp == resp && this.expires == expires
    {
      this.key, this.resp, this.expires := key, resp, expires;
    }
  }

  function Entries(ll: seq<Element>): (s: seq<Entry>)
    reads ll
    ensures |s| == |ll|
    ensures forall i :: 0 <= i < |ll| ==> s[i] == Entry(ll[i].key, ll[i].resp, ll[i].expires)
  {
    if ll == [] then []
    else [Entry(ll[0].key, ll[0].resp, ll[0].expires)] + Entries(ll[1..])
  }

  ghost predicate Distinct(ll: seq<Element>) {
    ll != [] ==> (forall d :: d in ll[1..] ==> d.key != ll[0].key) && Distinct(ll[1..])
  }

  /** The list and the map hold the same elements, one per key. Keys are constant: no heap is read. */
  ghost predicate Coherent(ll: seq<Element>, m: map<string, Element>) {
    && Distinct(ll)
    && (forall el :: el in ll ==> el.key in m && m[el.key] == el)
    && (forall k :: k in m ==> m[k] in ll && m[k].key == k)
  }

  /** Takes `el` out of the chain. */
  function Unlink(ll: seq<Element>, el: Element): (r: seq<Element>)
    ensures forall d :: d in r ==> d in ll && d != el
    ensures forall d :: d in ll ==> d == el || d in r
  {
    if ll == [] then [] else if ll[0] == el then Unlink(ll[1..], el) else [ll[0]] + Unlink(ll[1..], el)
  }

  lemma {:induction false} UnlinkIsRemove(ll: seq<Element>, el: Element)
    requires Distinct(ll) && el in ll
    ensures Entries(Unlink(ll, el)) == Remove(Entries(ll), el.key)
    ensures |Unlink(ll, el)| == |ll| - 1 && Distinct(Unlink(ll, el))
  {
    var tail := ll[1..];
    if ll[0] == el {
      UnlinkAbsent(tail, el);
    } else {
      UnlinkIsRemove(tail, el);
      assert ([ll[0]] + Unlink(tail, el))[1..] == Unlink(tail, el);
    }
    Cons(Entry(ll[0].key, ll[0].resp, ll[0].expires), Entries(tail), el.key);
  }

  lemma {:induction false} UnlinkAbsent(ll: seq<Element>, el: Element)
    requires forall d :: d in ll ==> d.key != el.key
    ensures Unlink(ll, el) == ll && Remove(Entries(ll), el.key) == Entries(ll)
  {
    if ll != [] {
      UnlinkAbsent(ll[1..], el);
      Cons(Entry(ll[0].key, ll[0].resp, ll[0].expires), Entries(ll[1..]), el.key);
    }
  }

  lemma {:induction false} UnlinkCoherent(ll: seq<Element>, m: map<string, Element>, el: Element)
    requires Coherent(ll, m) && el in ll
    ensures Coherent(Unlink(ll, el), m - {el.key})
  {
    UnlinkIsRemove(ll, el);
  }

  lemma {:induction false} PushCoherent(ll: seq<Element>, m: map<string, Element>, el: Element)
    requires Coherent(ll, m) && el.key !in m
    ensures Coherent([el] + ll, m[el.key := el])
  {
    assert ([el] + ll)[1..] == ll;
  }

  lemma {:induction false} EntriesPush(ll: seq<Element>, el: Element)
    ensures Entries([el] + ll) == [Entry(el.key, el.resp, el.expires)] + Entries(ll)
  {
    assert ([el] + ll)[1..] == ll;
  }

  /** MoveToFront. */
  function MoveFront(ll: seq<Element>, el: Element): seq<Element> {
    [el] + Unlink(ll, el)
  }

  lemma {:induction false} MoveFrontCoherent(ll: seq<Element>, m: map<string, Element>, el: Element)
    requires Coherent(ll, m) && el in ll
    ensures Coherent(MoveFront(ll, el), m)
  {
    UnlinkCoherent(ll, m, el);
    PushCoherent(Unlink(ll, el), m - {el.key}, el);
    assert (m - {el.key})[el.key := el] == m;
  }

  lemma {:induction false} MoveFrontEntries(ll: seq<Element>, m: map<string, Element>, el: Element)
    requires Coherent(ll, m) && el in ll
    ensures |MoveFront(ll, el)| == |ll|
    ensures Entries(MoveFront(ll, el)) ==
            [Entry(el.key, el.resp, el.expires)] + Remove(Entries(ll), el.key)
  {
    UnlinkIsRemove(ll, el);
    assert MoveFront(ll, el)[1..] == Unlink(ll, el);
  }

  lemma {:induction false} FindInMap(ll: seq<Element>, m: map<string, Element>, key: string)
    requires Coherent(ll, m)
    ensures key !in m ==> Find(Entries(ll), key).None?
    ensures key in m ==> Find(Entries(ll), key) == Some(Entry(key, m[key].resp, m[key].expires))
    ensures UniqueKeys(Entries(ll))
  {
    UniqueEntries(ll);
    if key in m {
      FindElement(ll, m[key]);
    } else {
      KeyAbsent(ll, key);
    }
  }

  lemma {:induction false} KeyAbsent(ll: seq<Element>, key: string)
    requires forall d :: d in ll ==> d.key != key
    ensures Find(Entries(ll), key).None?
  {
    if ll != [] {
      KeyAbsent(ll[1..], key);
      Cons(Entry(ll[0].key, ll[0].resp, ll[0].expires), Entries(ll[1..]), key);
    }
  }

  lemma {:induction false} UniqueEntries(ll: seq<Element>)
    requires Distinct(ll)
    ensures UniqueKeys(Entries(ll))
  {
    if ll != [] {
      UniqueEntries(ll[1..]);
      Cons(Entry(ll[0].key, ll[0].resp, ll[0].expires), Entries(ll[1..]), "");
      KeyAbsent(ll[1..], ll[0].key);
    }
  }

  lemma {:induction false} FindElement(ll: seq<Element>, el: Element)
    requires Distinct(ll) && el in ll
    ensures Find(Entries(ll), el.key) == Some(Entry(el.key, el.resp, el.expires))
  {
    Cons(Entry(ll[0].key, ll[0].resp, ll[0].expires), Entries(ll[1..]), el.key);
    if ll[0] != el { FindElement(ll[1..], el); }
  }

  lemma {:induction false} PutStep(max: nat, s: seq<Entry>, key: string, resp: Bytes, ttl: int, now: Time)
    requires 0 < max && |s| <= max && ttl > 0
    ensures var e := Entry(key, resp, now + ttl);
            Step(max, s, Event(Op.Put(key, resp, ttl), now)) ==
            if Find(s, key).Some? then [e] + Remove(s, key) else Truncate([e] + s, max)
  {
    RemoveSize(s, key);
  }

  /** One turn of the backward walk: position `i` is looked at, the ones behind are done. */
  lemma {:induction false} FlushFromBack(s: seq<Entry>, c: seq<Entry>, i: nat, now: Time)
    requires UniqueKeys(c) && i < |s| && c == s[..i+1] + Live(s[i+1..], now)
    ensures c[i] == s[i]
    ensures (if now > s[i].expires then Remove(c, s[i].key) else c) == s[..i] + Live(s[i..], now)
  {
    RemoveAt(c, i);
    assert s[i..][1..] == s[i+1..];
    assert c[..i] == s[..i] && c[i+1..] == Live(s[i+1..], now);
    assert s[..i+1] == s[..i] + [s[i]];
  }

  lemma {:induction false} RemoveLastEntry(full: seq<Entry>, ll: seq<Element>, m: map<string, Element>)
    requires Coherent(ll, m) && 0 < |ll| <= |full| && Entries(ll) == full[..|ll|]
    ensures Remove(Entries(ll), ll[|ll|-1].key) == full[..|ll|-1]
  {
    hide Remove;
    var c := Entries(ll);
    FindInMap(ll, m, "");
    RemoveLast(c);
    assert full[..|ll|][..|ll|-1] == full[..|ll|-1];
  }

  class Cache {
    const max: nat
    var ll: seq<Element>           // most recently used first
    var m: map<string, Element>
    var hits: nat
    var misses: nat

    ghost predicate Valid()
      reads this
    {
      Coherent(ll, m) && |ll| <= max
    }

    function Contents(): seq<Entry>
      reads this, ll
    {
      Entries(ll)
    }

    constructor (max: nat)
      ensures Valid() && this.max == max && Contents() == [] && hits == misses == 0
    {
      this.max, ll, m, hits, misses := max, [], map[], 0, 0;
    }

    /** Answers from the cache, drops an expired entry, and moves a used one to the front. */
    method Get(key: string, now: Time) returns (resp: Option<Bytes>)
      requires Valid()
      modifies this
      ensures Valid() && forall el :: el in ll ==> el in old(ll)
      ensures Contents() == Step(max, old(Contents()), Event(Op.Get(key), now))
      ensures resp == Answer(max, old(Contents()), key, now)
      ensures max > 0 ==> hits == old(hits) + (if resp.Some? then 1 else 0)
      ensures max > 0 ==> misses == old(misses) + (if resp.Some? then 0 else 1)
    {
      hide Find, Remove, Live, Unlink, Entries, Distinct, UniqueKeys, MoveFront;
      if max == 0 { return None; }
      FindInMap(ll, m, key);
      if key !in m {
        misses := misses + 1;
        return None;
      }
      var el := m[key];
      if now > el.expires {
        RemoveElement(el);
        misses := misses + 1;
        return None;
      }
      ghost var s, front := Contents(), Entry(key, el.resp, el.expires);
      MoveFrontCoherent(ll, m, el);
      MoveFrontEntries(ll, m, el);
      ll := MoveFront(ll, el);
      hits := hits + 1;
      assert Contents() == [front] + Remove(s, key);
      return Some(el.resp);
    }

    /** Stores an answer for `ttl`, evicting from the back when there is no room. */
    method Put(key: string, resp: Bytes, ttl: int, now: Time)
      requires Valid()
      modifies this`ll, this`m, ll
      ensures Valid() && forall el :: el in ll ==> el in old(ll) || fresh(el)
      ensures Contents() == Step(max, old(Contents()), Event(Op.Put(key, resp, ttl), now))
    {
      hide Find, Remove, Live, Unlink, Entries, Distinct, UniqueKeys;
      if max == 0 || ttl <= 0 { return; }
      FindInMap(ll, m, key);
      PutStep(max, Contents(), key, resp, ttl, now);
      hide Step, Truncate;
      if key in m {
        UpdateInPlace(m[key], resp, now + ttl);
      } else {
        AddNew(key, resp, now + ttl);
      }
    }

    method AddNew(key: string, resp: Bytes, expires: Time)
      requires Valid() && key !in m
      modifies this`ll, this`m
      ensures Valid() && forall d :: d in ll ==> d in old(ll) || fresh(d)
      ensures Contents() == Truncate([Entry(key, resp, expires)] + old(Contents()), max)
    {
      hide Find, Remove, Live, Unlink, Entries, Distinct, UniqueKeys;
      var el := new Element(key, resp, expires);
      PushFront(el);
      EvictFromBack();
    }

    method PushFront(el: Element)
      requires Valid() && el.key !in m
      modifies this`ll, this`m
      ensures Coherent(ll, m) && ll == [el] + old(ll)
      ensures Contents() == [Entry(el.key, el.resp, el.expires)] + old(Contents())
    {
      PushCoherent(ll, m, el);
      EntriesPush(ll, el);
      ll := [el] + ll;
      m := m[el.key := el];
    }

    method EvictFromBack()
      requires Coherent(ll, m)
      modifies this`ll, this`m
      ensures Valid() && forall d :: d in ll ==> d in old(ll)
      ensures Contents() == Truncate(old(Contents()), max)
    {
      hide Find, Remove, Live, Unlink, Entries, Distinct, UniqueKeys, Coherent;
      ghost var full := Contents();
      while |ll| > max
        invariant Coherent(ll, m) && |ll| <= |full| && (|ll| < |full| ==> |ll| >= max)
        invariant forall d :: d in ll ==> d in old(ll)
        invariant Contents() == full[..|ll|]
      {
        RemoveBack(full);
      }
    }

    /** `full` is the list as it was before the first one went. */
    method RemoveBack(ghost full: seq<Entry>)
      requires Coherent(ll, m) && 0 < |ll| <= |full| && Contents() == full[..|ll|]
      modifies this`ll, this`m
      ensures Coherent(ll, m) && |ll| == |old(ll)| - 1 && Contents() == full[..|ll|]
      ensures forall d :: d in ll ==> d in old(ll)
    {
      hide Find, Remove, Live, Unlink, Entries, Distinct, UniqueKeys, Coherent;
      RemoveLastEntry(full, ll, m);
      RemoveElement(ll[|ll|-1]);
    }

    method UpdateInPlace(el: Element, resp: Bytes, expires: Time)
      requires Valid() && el in ll
      modifies this`ll, el
      ensures Valid() && forall d :: d in ll <==> d in old(ll)
      ensures Contents() == [Entry(el.key, resp, expires)] + Remove(old(Contents()), el.key)
    {
      hide Find, Remove, Live, Unlink, Distinct, UniqueKeys, Entries;
      MoveFrontCoherent(ll, m, el);
      UnlinkIsRemove(ll, el);
      ghost var rest := Unlink(ll, el);
      el.resp, el.expires := resp, expires;
      assert Entries(rest) == old(Entries(rest));
      EntriesPush(rest, el);
      ll := MoveFront(ll, el);
    }

    /** Drops what has expired; returns how many went. */
    method FlushExpired(now: Time) returns (n: nat)
      requires Valid()
      modifies this`ll, this`m
      ensures Valid() && forall el :: el in ll ==> el in old(ll)
      ensures Contents() == Step(max, old(Contents()), Event(Op.FlushExpired, now))
      ensures forall e :: e in Contents() <==> e in old(Contents()) && now <= e.expires
      ensures n == |old(Contents())| - |Contents()|
    {
      hide Find, Remove, Live, Unlink, Entries, Distinct, UniqueKeys, Coherent;
      LiveMembers(Contents(), now);
      n := WalkFromBack(now);
    }

    method WalkFromBack(now: Time) returns (n: nat)
      requires Coherent(ll, m)
      modifies this`ll, this`m
      ensures Coherent(ll, m) && forall el :: el in ll ==> el in old(ll)
      ensures Contents() == Live(old(Contents()), now) && n == |old(Contents())| - |Contents()|
    {
      ghost var s := Contents();
      n := 0;
      var i := |ll|;
      assert s[i..] == [] && Live(s[i..], now) == [];
      hide Find, Remove, Live, Unlink, Entries, Distinct, UniqueKeys, Coherent;
      while i > 0
        invariant 0 <= i <= |ll| && |ll| == |s| - n && i <= |s|
        invariant Coherent(ll, m) && forall el :: el in ll ==> el in old(ll)
        invariant Contents() == s[..i] + Live(s[i..], now)
      {
        i := i - 1;
        FindInMap(ll, m, ll[i].key);
        FlushFromBack(s, Contents(), i, now);
        if now > ll[i].expires {
          RemoveElement(ll[i]);
          n := n + 1;
        }
      }
    }

    /** Drops everything; returns how many went. */
    method FlushAll(now: Time) returns (n: nat)
      requires Valid()
      modifies this`ll, this`m
      ensures Valid() && Contents() == Step(max, old(Contents()), Event(Op.FlushAll, now)) && ll == []
      ensures n == |old(Contents())|
    {
      n := |ll|;
      ll, m := [], map[];
    }

    method RemoveElement(el: Element)
      requires Coherent(ll, m) && el in ll
      modifies this`ll, this`m
      ensures Coherent(ll, m) && ll == Unlink(old(ll), el) && |ll| == |old(ll)| - 1
      ensures Contents() == Remove(old(Contents()), el.key)
    {
      UnlinkIsRemove(ll, el);
      UnlinkCoherent(ll, m, el);
      ll := Unlink(ll, el);
      m := m - {el.key};
    }
  }
}
