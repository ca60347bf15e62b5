/**
 Tunnel addresses (internal/server/db/sqlite.go): every token gets one address of the pool and
 keeps it.

 The assignments table is a map from token to address, an address is its 32-bit number, and a
 call is one transaction.
 */
module AddressPool {
  import opened Basics
  import opened AddrBits

  const HIGHEST := 0xFFFF_FFFF

  datatype Pool = V4(addr: nat, bits: nat) | V6

  ghost predicate Proper(p: Pool) {
    p.V4? ==> p.addr <= HIGHEST && p.bits <= 32
  }

  datatype Answer = Assigned(addr: nat) | Exhausted | NotIPv4

  function Size(p: Pool): (n: nat)
    requires p.V4? && p.bits <= 32
    ensures n > 0
  {
    PowPositive(32 - p.bits);
    Pow2(32 - p.bits)
  }

  function AlignDown(a: nat, size: nat): (b: nat)
    requires size > 0
    ensures b <= a
  {
    a - a % size
  }

  /** The first address of the masked pool. */
  function Base(p: Pool): nat
    requires p.V4? && p.bits <= 32
  {
    AlignDown(p.addr, Size(p))
  }

  predicate Contains(p: Pool, a: nat)
    requires p.V4? && p.bits <= 32
  {
    Base(p) <= a < Base(p) + Size(p)
  }

  /** No address follows 255.255.255.255. */
  function Next(a: nat): Option<nat> {
    if a >= HIGHEST then None else Some(a + 1)
  }

  lemma {:induction false} PowSplit(a: nat, b: nat)
    ensures Pow2(a + b) == Pow2(a) * Pow2(b)
  {
    if b > 0 {
      PowSplit(a, b - 1);
      assert Pow2(a + b) == 2 * Pow2(a + (b - 1));
      assert Pow2(a) * Pow2(b) == 2 * (Pow2(a) * Pow2(b - 1));
    }
  }

  lemma {:induction false} MulLe(a: nat, b: nat, c: nat)
    ensures a <= b ==> a * c <= b * c
  {}

  lemma {:induction false} Aligned(a: nat, size: nat)
    requires size > 0
    ensures AlignDown(a, size) % size == 0 && a < AlignDown(a, size) + size
  {
    var k := a / size;
    assert AlignDown(a, size) == k * size;
    MultipleOf(k, size);
  }

  lemma {:induction false} MultipleOf(k: nat, size: nat)
    requires size > 0
    ensures k * size % size == 0
  {
    var d, r := k * size / size, k * size % size;
    assert k * size == d * size + r;
    assert (d + 1) * size == d * size + size;
    if d < k { MulLe(d + 1, k, size); } else { MulLe(k, d, size); }
  }

  lemma {:induction false} BlockFits(a: nat, size: nat, blocks: nat)
    requires size > 0 && a < size * blocks
    ensures AlignDown(a, size) + size <= size * blocks
  {
    var k := a / size;
    assert a == k * size + a % size;
    MulLe(blocks, k, size);
    MulLe(k + 1, blocks, size);
    assert (k + 1) * size == k * size + size;
  }

  lemma {:induction false} PowOne()
    ensures Pow2(1) == 2
  {}

  lemma {:induction false} AllOfIPv4()
    ensures Pow2(32) == HIGHEST + 1
  {
    hide Pow2;
    PowOne();
    PowSplit(1, 1);
    PowSplit(2, 2);
    PowSplit(4, 4);
    PowSplit(8, 8);
    PowSplit(16, 16);
  }

  /** The masked pool is the aligned block its address lies in, and ends where IPv4 does, or before. */
  lemma {:induction false} PoolFits(p: Pool)
    requires p.V4? && Proper(p)
    ensures Base(p) % Size(p) == 0 && Base(p) <= p.addr < Base(p) + Size(p) <= HIGHEST + 1
  {
    AllOfIPv4();
    PowSplit(32 - p.bits, p.bits);
    Aligned(p.addr, Size(p));
    hide Pow2, AlignDown;
    BlockFits(p.addr, Size(p), Pow2(p.bits));
  }

  // ---------------------------------------------------------------- the first free address

  /** An address clients may have: neither the network's own nor the node's. */
  predicate ForClients(p: Pool, a: nat)
    requires p.V4? && p.bits <= 32
  {
    Contains(p, a) && a >= Base(p) + 2
  }

  method FirstFree(p: Pool, taken: set<nat>) returns (r: Option<nat>)
    requires p.V4? && Proper(p)
    ensures r.Some? ==> ForClients(p, r.value) && r.value !in taken
                        && forall a: nat :: ForClients(p, a) && a < r.value ==> a in taken
    ensures r.None? ==> forall a: nat :: ForClients(p, a) ==> a in taken
  {
    PoolFits(p);
    var addr := Next(Base(p));
    addr := if addr.Some? then Next(addr.value) else None;
    while addr.Some? && Contains(p, addr.value)
      invariant addr.Some? ==> addr.value >= Base(p) + 2
      invariant forall a: nat :: ForClients(p, a) && (addr.None? || a < addr.value) ==> a in taken
      decreases if addr.Some? then HIGHEST + 1 - addr.value else 0
    {
      if addr.value !in taken { return addr; }
      addr := Next(addr.value);
    }
    return None;
  }

  // ---------------------------------------------------------------- the table

  type Rows = map<string, nat>

  /** takenAddrs. */
  function Taken(rows: Rows): set<nat> {
    rows.Values
  }

  /** The first address from `a` on that no row holds, among `left` of them. */
  function Lowest(taken: set<nat>, a: nat, left: nat): Option<nat>
    decreases left
  {
    if left == 0 then None else if a !in taken then Some(a) else Lowest(taken, a + 1, left - 1)
  }

  /** How many addresses there are for clients. */
  function Capacity(p: Pool): nat
    requires p.V4? && p.bits <= 32
  {
    if Size(p) < 2 then 0 else Size(p) - 2
  }

  function AllocateStep(rows: Rows, hash: string, p: Pool): (Rows, Answer)
    requires Proper(p)
  {
    if p.V6? then (rows, NotIPv4) else Granted(rows, hash, Base(p) + 2, Capacity(p))
  }

  /** The address of `hash`, or the lowest that is free of the `capacity` ones from `first` on. */
  function Granted(rows: Rows, hash: string, first: nat, capacity: nat): (Rows, Answer) {
    if hash in rows then (rows, Assigned(rows[hash]))
    else
      var free := Lowest(Taken(rows), first, capacity);
      if free.None? then (rows, Exhausted) else (rows[hash := free.value], Assigned(free.value))
  }

  lemma {:induction false} LowestIs(taken: set<nat>, a: nat, left: nat)
    ensures var r := Lowest(taken, a, left);
            && (r.Some? ==> a <= r.value < a + left && r.value !in taken && forall b :: a <= b < r.value ==> b in taken)
            && (r.None? ==> forall b :: a <= b < a + left ==> b in taken)
    decreases left
  {
    if left > 0 && a in taken { LowestIs(taken, a + 1, left - 1); }
  }

  class Assignments {
    var rows: Rows

    constructor ()
      ensures rows == map[]
    {
      rows := map[];
    }

    method Allocate(hash: string, p: Pool) returns (r: Answer)
      requires Proper(p)
      modifies this
      ensures (rows, r) == AllocateStep(old(rows), hash, p)
      ensures r == NotIPv4 <==> p.V6?
      ensures rows == if r.Assigned? then old(rows)[hash := r.addr] else old(rows)
    {
      if !p.V4? { return NotIPv4; }
      if hash in rows { return Assigned(rows[hash]); }
      var free := FirstFree(p, Taken(rows));
      LowestIs(Taken(rows), Base(p) + 2, Capacity(p));
      assert forall a: nat :: ForClients(p, a) <==> Base(p) + 2 <= a < Base(p) + 2 + Capacity(p);
      assert free == Lowest(Taken(rows), Base(p) + 2, Capacity(p)) by {
        hide Base, Capacity, Lowest;
        var low := Lowest(Taken(rows), Base(p) + 2, Capacity(p));
        assert low.Some? ==> ForClients(p, low.value);
        hide ForClients;
      }
      if free.None? { return Exhausted; }
      rows := rows[hash := free.value];
      return Assigned(free.value);
    }
  }

  // ---------------------------------------------------------------- every run

  datatype Call = Call(hash: string, pool: Pool)

  function Run(rows: Rows, calls: seq<Call>): Rows
    requires forall c :: c in calls ==> Proper(c.pool)
    decreases |calls|
  {
    if calls == [] then rows else Run(AllocateStep(rows, calls[0].hash, calls[0].pool).0, calls[1..])
  }

  ghost predicate Injective(rows: Rows) {
    forall h, k :: h in rows && k in rows && rows[h] == rows[k] ==> h == k
  }

  /** Whatever the pools: a token keeps its address, and no two tokens have the same. */
  lemma {:induction false} RunKeepsRows(rows: Rows, calls: seq<Call>)
    requires Injective(rows)
    requires forall c :: c in calls ==> Proper(c.pool)
    ensures Injective(Run(rows, calls))
    ensures forall h :: h in rows ==> h in Run(rows, calls) && Run(rows, calls)[h] == rows[h]
    decreases |calls|
  {
    if calls != [] {
      var c := calls[0];
      if c.pool.V4? { LowestIs(Taken(rows), Base(c.pool) + 2, Capacity(c.pool)); }
      hide Lowest, Base, Capacity;
      var t := AllocateStep(rows, c.hash, c.pool).0;
      assert Injective(t);
      RunKeepsRows(t, calls[1..]);
    }
  }

  /** The addresses in use are the first of the pool, as many as there are tokens. */
  ghost predicate Packed(rows: Rows, first: nat, capacity: nat) {
    Injective(rows) && |rows| <= capacity && Taken(rows) == Block(first, |rows|)
  }

  /** The `n` addresses from `from` on. */
  function Block(from: nat, n: nat): (s: set<nat>)
    ensures forall a: nat :: a in s <==> from <= a < from + n
  {
    if n == 0 then {} else Block(from, n - 1) + {from + n - 1}
  }

  lemma {:induction false} MoreValues(rows: Rows, hash: string, a: nat)
    requires hash !in rows
    ensures Taken(rows[hash := a]) == Taken(rows) + {a}
  {
    var t := rows[hash := a];
    forall b ensures b in Taken(t) <==> b in Taken(rows) + {a} {
      assert t[hash] == a;
      if b in Taken(rows) {
        var h :| h in rows && rows[h] == b;
        assert t[h] == b;
      }
    }
  }

  lemma {:induction false} StaysInjective(rows: Rows, hash: string, a: nat)
    requires a !in Taken(rows) && Injective(rows)
    ensures Injective(rows[hash := a])
  {
    assert forall h :: h in rows ==> rows[h] in Taken(rows);
  }

  lemma {:induction false} LowestBeyond(from: nat, n: nat, capacity: nat)
    requires n <= capacity
    ensures Lowest(Block(from, n), from, capacity) == if n < capacity then Some(from + n) else None
  {
    LowestIs(Block(from, n), from, capacity);
    hide Lowest;
    if n < capacity { assert from + n !in Block(from, n); }
  }

  lemma {:induction false} BlockGrows(from: nat, n: nat)
    ensures Block(from, n + 1) == Block(from, n) + {from + n}
    ensures from + n !in Block(from, n)
  {}

  lemma {:induction false} PackedGrows(rows: Rows, hash: string, first: nat, capacity: nat)
    requires Packed(rows, first, capacity) && hash !in rows && |rows| < capacity
    ensures Packed(rows[hash := first + |rows|], first, capacity)
  {
    hide Block, Injective, Taken;
    MoreValues(rows, hash, first + |rows|);
    StaysInjective(rows, hash, first + |rows|);
    BlockGrows(first, |rows|);
  }

  /** Once packed, every new token gets the next address until there is none. */
  lemma {:induction false} NextInLine(rows: Rows, hash: string, first: nat, capacity: nat)
    requires Packed(rows, first, capacity)
    ensures var (t, r) := Granted(rows, hash, first, capacity);
            && Packed(t, first, capacity) && |t| >= |rows|
            && r == if hash in rows then Assigned(rows[hash])
                    else if |rows| < capacity then Assigned(first + |rows|) else Exhausted
  {
    hide Lowest, Injective, Block, Taken;
    LowestBeyond(first, |rows|, capacity);
    assert |rows| <= capacity;
    assert Lowest(Taken(rows), first, capacity) == if |rows| < capacity then Some(first + |rows|) else None;
    hide Packed;
    if hash !in rows && |rows| < capacity { PackedGrows(rows, hash, first, capacity); }
  }

  lemma {:induction false} RunIsPacked(rows: Rows, calls: seq<Call>, p: Pool)
    requires p.V4? && Proper(p) && Packed(rows, Base(p) + 2, Capacity(p))
    requires forall c :: c in calls ==> c.pool == p
    ensures Packed(Run(rows, calls), Base(p) + 2, Capacity(p)) && |rows| <= |Run(rows, calls)|
    decreases |calls|
  {
    hide Base, Capacity, Packed;
    if calls != [] {
      assert calls[0] in calls;
      NextInLine(rows, calls[0].hash, Base(p) + 2, Capacity(p));
      RunIsPacked(AllocateStep(rows, calls[0].hash, p).0, calls[1..], p);
      hide Granted;
    }
  }

  lemma {:induction false} EmptyIsPacked(first: nat, capacity: nat)
    ensures Packed(map[], first, capacity)
  {
    assert Taken(map[]) == {};
  }

  /** Those are all the addresses clients may have. */
  lemma {:induction false} ClientsAre(p: Pool)
    requires p.V4? && Proper(p)
    ensures forall a: nat :: ForClients(p, a) <==> Base(p) + 2 <= a < Base(p) + 2 + Capacity(p)
  {
    hide Base, Size;
  }

  /**
   After any calls with one pool, from an empty table: the addresses in use are the first of the
   pool, a new token gets the next one, and is refused exactly when they are all in use.
   */
  lemma {:induction false} ServesItsCapacity(calls: seq<Call>, hash: string, p: Pool)
    requires p.V4? && Proper(p) && forall c :: c in calls ==> c.pool == p
    ensures var rows, first, capacity := Run(map[], calls), Base(p) + 2, Capacity(p);
            && Packed(rows, first, capacity)
            && AllocateStep(rows, hash, p).1 ==
               if hash in rows then Assigned(rows[hash])
               else if |rows| < capacity then Assigned(first + |rows|) else Exhausted
  {
    hide Base, Capacity, Run, Packed;
    EmptyIsPacked(Base(p) + 2, Capacity(p));
    RunIsPacked(map[], calls, p);
    NextInLine(Run(map[], calls), hash, Base(p) + 2, Capacity(p));
    hide Granted;
  }
}
