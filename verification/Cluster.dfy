/**
 Who is master: epochs issued by promotion and installation (internal/server/db/cluster.go),
 spread by heartbeat replies (internal/server/heartbeat.go) and by database snapshots
 (internal/server/replica.go).

 The stored row is a pair. A message once sent stays available for ever, so losing,
 delaying, repeating and reordering messages are all covered.
 */
module Cluster {
  import opened Basics

  type Id = string

  /** Row(0, "") is also how an empty table reads. */
  datatype Row = Row(epoch: nat, master: Id) {
    /** A node nobody was declared over is master by itself. */
    predicate IsMaster(self: Id) {
      master == "" || master == self
    }
  }

  // ---------------------------------------------------------------- one node's row

  function Promoted(row: Row, target: Id): Row {
    Row(row.epoch + 1, target)
  }

  function Adopted(row: Row, c: Row): Row {
    if c.epoch <= row.epoch then row else c
  }

  function Bootstrapped(row: Row, master: Id): Row {
    if row.epoch > 0 then row else Adopted(row, Row(1, master))
  }

  /** A heartbeat of `self`, which read `read` before asking and got `reply`. */
  function AfterBeat(row: Row, read: Row, self: Id, reply: Row): Row {
    if read.IsMaster(self) || reply.master == "" || reply.epoch <= read.epoch then row
    else Adopted(row, reply)
  }

  /** What a node answers: the header it read first, the database it copied afterwards. */
  datatype Snapshot = Snapshot(header: Row, body: Row)

  /** Does a pull that read `read` before asking apply the snapshot? */
  predicate Accepts(read: Row, self: Id, s: Snapshot) {
    !read.IsMaster(self) && s.header.epoch >= read.epoch
  }

  /** The snapshot header names the answering node when nobody was declared. */
  function HeaderOf(row: Row, self: Id): Row {
    Row(row.epoch, if row.master == "" then self else row.master)
  }

  /** A node's database, its heartbeat and its replicator, one call at a time. */
  class Node {
    const id: Id
    var row: Row

    constructor (id: Id)
      ensures this.id == id && row == Row(0, "")
    {
      this.id, row := id, Row(0, "");
    }

    method Promote(target: Id) returns (next: Row)
      modifies this
      ensures next == row == Row(old(row).epoch + 1, target) == Promoted(old(row), target)
    {
      var cur := row;
      next := Row(cur.epoch + 1, target);
      row := next;
    }

    /** Takes only a strictly higher epoch; false is ErrStaleEpoch. */
    method AdoptCluster(c: Row) returns (ok: bool)
      modifies this
      ensures row == (if c.epoch > old(row).epoch then c else old(row)) == Adopted(old(row), c)
      ensures ok <==> c.epoch > old(row).epoch
    {
      if c.epoch <= row.epoch { return false; }
      row := c;
      return true;
    }

    method BootstrapMaster(master: Id) returns (done: bool)
      modifies this
      ensures row == (if old(row).epoch == 0 then Row(1, master) else old(row)) == Bootstrapped(old(row), master)
      ensures done <==> old(row).epoch == 0
    {
      if row.epoch > 0 { return false; }
      done := AdoptCluster(Row(1, master));
    }

    /** The adopting end of one heartbeat; `read` is the state it started from. */
    method Beat(read: Row, reply: Row)
      modifies this
      ensures row == AfterBeat(old(row), read, id, reply)
      ensures row == if read.master != "" && read.master != id && reply.master != ""
                        && reply.epoch > read.epoch && reply.epoch > old(row).epoch
                     then reply else old(row)
    {
      if read.IsMaster(id) { return; }
      if reply.master != "" && reply.epoch > read.epoch {
        var _ := AdoptCluster(reply);
      }
    }

    /** The end of a pull: the epoch check against `read`, then the swap of the whole database. */
    method FinishPull(read: Row, s: Snapshot) returns (applied: bool)
      modifies this
      ensures applied <==> read.master != "" && read.master != id && s.header.epoch >= read.epoch
      ensures applied <==> Accepts(read, id, s)
      ensures row == if applied then s.body else old(row)
    {
      if read.IsMaster(id) { return false; }
      if s.header.epoch < read.epoch { return false; }
      row := s.body;
      return true;
    }
  }

  // ---------------------------------------------------------------- the network

  datatype Net = Net(
    rows: map<Id, Row>,          // every node's stored row
    started: map<Id, Row>,       // the row a node's pull under way started from
    beats: set<Row>,             // heartbeat replies ever sent
    headers: set<(Id, Row)>,      // snapshot headers read, the copy not yet taken
    snaps: set<Snapshot>)        // snapshots ever sent

  datatype Event =
    | Promote(n: Id, target: Id)
    | Bootstrap(n: Id, root: Id)
    | AnswerBeat(n: Id)
    | HearBeat(n: Id, read: Row, reply: Row)
    | OpenSnapshot(n: Id)
    | SendSnapshot(n: Id, header: Row)
    | StartPull(n: Id)
    | FinishPull(n: Id, s: Snapshot)

  ghost predicate Enabled(net: Net, ev: Event) {
    ev.n in net.rows &&
    match ev
    case HearBeat(_, _, reply) => reply in net.beats
    case SendSnapshot(n, header) => (n, header) in net.headers
    case FinishPull(n, s) => n in net.started && s in net.snaps
    case _ => true
  }

  function Apply(net: Net, ev: Event): Net
    requires Enabled(net, ev)
  {
    var row := net.rows[ev.n];
    match ev
    case Promote(n, target) => net.(rows := net.rows[n := Promoted(row, target)])
    case Bootstrap(n, root) => net.(rows := net.rows[n := Bootstrapped(row, root)])
    case AnswerBeat(n) => net.(beats := net.beats + {row})
    case HearBeat(n, read, reply) => net.(rows := net.rows[n := AfterBeat(row, read, n, reply)])
    case OpenSnapshot(n) => net.(headers := net.headers + {(n, row)})
    case SendSnapshot(n, header) => net.(snaps := net.snaps + {Snapshot(HeaderOf(header, n), row)})
    case StartPull(n) => net.(started := net.started[n := row])
    case FinishPull(n, s) =>
      net.(rows := net.rows[n := if Accepts(net.started[n], n, s) then s.body else row])
  }

  ghost predicate Legal(net: Net, evs: seq<Event>)
    decreases |evs|
  {
    evs == [] || (Enabled(net, evs[0]) && Legal(Apply(net, evs[0]), evs[1..]))
  }

  function After(net: Net, evs: seq<Event>): Net
    requires Legal(net, evs)
    decreases |evs|
  {
    if evs == [] then net else After(Apply(net, evs[0]), evs[1..])
  }

  function Fresh(ids: set<Id>): Net {
    Net(map n | n in ids :: Row(0, ""), map[], {}, {}, {})
  }

  /** Rows stored, replies, headers and snapshots sent: all the places an epoch is named. */
  ghost predicate Named(net: Net, f: Row) {
    || (exists n :: n in net.rows && net.rows[n] == f)
    || f in net.beats
    || (exists o :: o in net.headers && o.1 == f)
    || (exists s :: s in net.snaps && (s.header == f || s.body == f))
  }

  // ---------------------------------------------------------------- what reaches a node

  /** A pull takes the copy exactly when it started under another master, at no higher epoch than the header. */
  lemma {:induction false} PullTakesIff(net: Net, n: Id, s: Snapshot)
    requires Enabled(net, FinishPull(n, s))
    ensures var read := net.started[n];
            Apply(net, FinishPull(n, s)).rows ==
            net.rows[n := if read.master != "" && read.master != n && s.header.epoch >= read.epoch then s.body
                          else net.rows[n]]
  {}

  /** A heartbeat takes the reply exactly when it began under another master, and the reply is of a higher epoch. */
  lemma {:induction false} BeatTakesIff(net: Net, n: Id, read: Row, reply: Row)
    requires Enabled(net, HearBeat(n, read, reply))
    ensures Apply(net, HearBeat(n, read, reply)).rows ==
            net.rows[n := if read.master != "" && read.master != n && reply.master != ""
                             && reply.epoch > read.epoch && reply.epoch > net.rows[n].epoch
                          then reply else net.rows[n]]
  {}

  /** A snapshot's header is of the time it was asked for, its body of the time it is sent. */
  lemma {:induction false} CopyIsOfSending(net: Net, n: Id, target: Id)
    requires n in net.rows
    ensures var row := net.rows[n];
            var asked := Apply(net, OpenSnapshot(n));
            var later := Apply(asked, Promote(n, target));
            Enabled(later, SendSnapshot(n, row)) &&
            Apply(later, SendSnapshot(n, row)).snaps ==
            net.snaps +
            {Snapshot(Row(row.epoch, if row.master == "" then n else row.master), Row(row.epoch + 1, target))}
  {
    var later := Apply(Apply(net, OpenSnapshot(n)), Promote(n, target));
    assert later.rows[n] == Row(net.rows[n].epoch + 1, target);
  }

  // ---------------------------------------------------------------- epochs do not fall

  /** Nothing else changes a node's row between the start and the end of its pull. */
  ghost predicate PullUndisturbed(net: Net, ev: Event)
    requires Enabled(net, ev)
  {
    ev.FinishPull? ==> net.rows[ev.n] == net.started[ev.n]
  }

  /** A header is never above the row of its node, nor above the copy it goes out with. */
  ghost predicate HeadersFirst(net: Net) {
    && (forall o :: o in net.headers ==> o.0 in net.rows && o.1.epoch <= net.rows[o.0].epoch)
    && (forall s :: s in net.snaps ==> s.header.epoch <= s.body.epoch)
  }

  ghost predicate EpochsKept(a: Net, b: Net) {
    a.rows.Keys == b.rows.Keys && forall n :: n in a.rows ==> a.rows[n].epoch <= b.rows[n].epoch
  }

  /** Only a pull overtaken by another change can lower an epoch, and exactly when its copy is older. */
  lemma {:induction false} EpochFallsIff(net: Net, ev: Event)
    requires Enabled(net, ev)
    ensures EpochsKept(net, Apply(net, ev)) <==>
            !(ev.FinishPull? && Accepts(net.started[ev.n], ev.n, ev.s) && ev.s.body.epoch < net.rows[ev.n].epoch)
  {
    var b := Apply(net, ev);
    assert net.rows.Keys == b.rows.Keys;
    if ev.FinishPull? && Accepts(net.started[ev.n], ev.n, ev.s) { assert b.rows[ev.n] == ev.s.body; }
  }

  /** The row a pull of `n` leaves when it ends in `s`. */
  function Pulled(net: Net, n: Id, s: Snapshot): Row
    requires n in net.rows && n in net.started
  {
    if Accepts(net.started[n], n, s) then s.body else net.rows[n]
  }

  /**
   Before the snapshot arrives: no copy whatever, taken after its header was read, can lower the
   epoch of `n` exactly when `n` was master as the pull began, or its epoch has not risen since.
   */
  lemma {:induction false} SwapIsSafeIff(net: Net, n: Id)
    requires n in net.rows && n in net.started
    ensures (forall s: Snapshot :: s.header.epoch <= s.body.epoch ==>
               Pulled(net, n, s).epoch >= net.rows[n].epoch) <==>
            net.started[n].IsMaster(n) || net.rows[n].epoch <= net.started[n].epoch
  {
    var same := Snapshot(net.started[n], net.started[n]);
    assert same.header.epoch <= same.body.epoch;
    assert Pulled(net, n, same) == if net.started[n].IsMaster(n) then net.rows[n] else net.started[n];
  }

  lemma {:induction false} StepKeepsEpochs(net: Net, ev: Event)
    requires Enabled(net, ev) && HeadersFirst(net) && PullUndisturbed(net, ev)
    ensures EpochsKept(net, Apply(net, ev)) && HeadersFirst(Apply(net, ev))
  {
    EpochFallsIff(net, ev);
  }

  ghost predicate AllUndisturbed(net: Net, evs: seq<Event>)
    requires Legal(net, evs)
    decreases |evs|
  {
    evs == [] || (PullUndisturbed(net, evs[0]) && AllUndisturbed(Apply(net, evs[0]), evs[1..]))
  }

  /** Over any run in which pulls are not overtaken, no node's epoch ever falls. */
  lemma {:induction false} EpochsNeverFall(net: Net, evs: seq<Event>)
    requires HeadersFirst(net) && Legal(net, evs) && AllUndisturbed(net, evs)
    ensures EpochsKept(net, After(net, evs)) && HeadersFirst(After(net, evs))
    decreases |evs|
  {
    if evs != [] {
      StepKeepsEpochs(net, evs[0]);
      EpochsNeverFall(Apply(net, evs[0]), evs[1..]);
    }
  }

  // ---------------------------------------------------------------- one master per epoch

  ghost predicate Agree(net: Net) {
    forall f, g :: Named(net, f) && Named(net, g) && f.epoch == g.epoch > 0 ==> f.master == g.master
  }

  /** The epoch and master an event puts into the network from outside the facts already there. */
  function Names(net: Net, ev: Event): Option<Row>
    requires Enabled(net, ev)
  {
    match ev
    case Promote(n, target) => Some(Promoted(net.rows[n], target))
    case Bootstrap(n, root) => if net.rows[n].epoch == 0 then Some(Row(1, root)) else None
    case SendSnapshot(n, header) => Some(HeaderOf(header, n))
    case _ => None
  }

  /**
   Without any condition: one event keeps agreement exactly when the name it brings is not
   at odds with one the network already holds for that epoch.
   */
  lemma {:induction false} KeepsAgreementIff(net: Net, ev: Event)
    requires Enabled(net, ev) && Agree(net)
    ensures Agree(Apply(net, ev)) <==>
            forall f :: Named(net, f) && Names(net, ev).Some? && f.epoch == Names(net, ev).value.epoch > 0 ==>
                          f.master == Names(net, ev).value.master
  {
    var b, name := Apply(net, ev), Names(net, ev);
    hide Apply, Names, Named;
    forall f | Named(b, f) ensures Named(net, f) || (name.Some? && f == name.value) { ComesFrom(net, ev, f); }
    if name.Some? {
      AppearsIn(net, ev);
      forall f | Named(net, f) && f.epoch == name.value.epoch ensures Named(b, f) { StaysIn(net, ev, f); }
    }
  }

  /** What is named after an event was named before, or is what the event brings. */
  lemma {:induction false} ComesFrom(net: Net, ev: Event, f: Row)
    requires Enabled(net, ev) && Named(Apply(net, ev), f)
    ensures Named(net, f) || Names(net, ev) == Some(f)
  {
    var b := Apply(net, ev);
    if ev.SendSnapshot? && !Named(net, f) {
      var s :| s in b.snaps && (s.header == f || s.body == f);
      assert Named(net, net.rows[ev.n]);
    } else if !Named(net, f) {
      var n :| n in b.rows && b.rows[n] == f;
    }
  }

  lemma {:induction false} AppearsIn(net: Net, ev: Event)
    requires Enabled(net, ev) && Names(net, ev).Some?
    ensures Named(Apply(net, ev), Names(net, ev).value)
  {
    var b, name := Apply(net, ev), Names(net, ev).value;
    if ev.SendSnapshot? {
      assert Snapshot(name, net.rows[ev.n]) in b.snaps;
    } else {
      assert ev.n in b.rows && b.rows[ev.n] == name;
    }
  }

  /** Only the acting node's own row can disappear, and its epoch was another one. */
  lemma {:induction false} StaysIn(net: Net, ev: Event, f: Row)
    requires Enabled(net, ev) && Names(net, ev).Some? && Named(net, f) && f.epoch == Names(net, ev).value.epoch
    ensures Named(Apply(net, ev), f)
  {
    var b := Apply(net, ev);
    if n :| n in net.rows && net.rows[n] == f {
      assert n in b.rows && b.rows[n] == f;
    }
  }

  // ---------------------------------------------------------------- one master per epoch, over every run

  /**
   A promotion names somebody and happens where the highest epoch named anywhere is; epoch 1,
   promoted or installed, names `root`. Nothing is asked of heartbeats and pulls.
   */
  ghost predicate OnTop(net: Net, root: Id, ev: Event)
    requires Enabled(net, ev)
  {
    match ev
    case Promote(n, target) =>
      && target != ""
      && (forall f :: Named(net, f) ==> f.epoch <= net.rows[n].epoch)
      && (net.rows[n].epoch == 0 ==> target == root)
    case Bootstrap(n, r) => net.rows[n].epoch == 0 ==> r == root
    case _ => true
  }

  ghost predicate AllOnTop(net: Net, root: Id, evs: seq<Event>)
    requires Legal(net, evs)
    decreases |evs|
  {
    evs == [] || (OnTop(net, root, evs[0]) && AllOnTop(Apply(net, evs[0]), root, evs[1..]))
  }

  /** Every positive epoch names somebody, and epoch 1 names `root`. */
  ghost predicate Rooted(net: Net, root: Id) {
    forall f :: Named(net, f) && f.epoch > 0 ==> f.master != "" && (f.epoch == 1 ==> f.master == root)
  }

  lemma {:induction false} StepOnTop(net: Net, root: Id, ev: Event)
    requires root != "" && Enabled(net, ev) && OnTop(net, root, ev)
    requires Agree(net) && Rooted(net, root)
    ensures Agree(Apply(net, ev)) && Rooted(Apply(net, ev), root)
  {
    var b, name := Apply(net, ev), Names(net, ev);
    KeepsAgreementIff(net, ev);
    if ev.SendSnapshot? { HeaderNamed(net, ev); }
    RowNamed(net, ev.n);
    hide Named;
    assert name.Some? && name.value.epoch > 0 ==>
      name.value.master != "" && (name.value.epoch == 1 ==> name.value.master == root);
    hide Apply, Names;
    forall f | Named(b, f) && f.epoch > 0
      ensures f.master != "" && (f.epoch == 1 ==> f.master == root)
    {
      ComesFrom(net, ev, f);
    }
  }

  lemma {:induction false} RowNamed(net: Net, n: Id)
    requires n in net.rows
    ensures Named(net, net.rows[n])
  {}

  lemma {:induction false} HeaderNamed(net: Net, ev: Event)
    requires ev.SendSnapshot? && Enabled(net, ev)
    ensures Named(net, ev.header)
  {
    assert (ev.n, ev.header) in net.headers;
  }

  lemma {:induction false} RunOnTop(net: Net, root: Id, evs: seq<Event>)
    requires root != "" && Legal(net, evs) && AllOnTop(net, root, evs)
    requires Agree(net) && Rooted(net, root)
    ensures Agree(After(net, evs))
    decreases |evs|
  {
    if evs != [] {
      StepOnTop(net, root, evs[0]);
      hide Agree, Rooted;
      RunOnTop(Apply(net, evs[0]), root, evs[1..]);
    }
  }

  /**
   From a fresh network, over every run, whatever is lost, repeated, delayed or overtaken: any two
   rows, replies, headers or snapshots of one epoch name the same master, if promotions are on top.
   */
  lemma {:induction false} OneMasterPerEpoch(ids: set<Id>, root: Id, evs: seq<Event>)
    requires root != "" && Legal(Fresh(ids), evs) && AllOnTop(Fresh(ids), root, evs)
    ensures Agree(After(Fresh(ids), evs))
  {
    RunOnTop(Fresh(ids), root, evs);
  }

  // ---------------------------------------------------------------- promotions that look at rows alone

  /** A promotion happens where no row of the network has a higher epoch; the rest is as before. */
  ghost predicate HighestRow(net: Net, root: Id, ev: Event)
    requires Enabled(net, ev)
  {
    match ev
    case Promote(n, target) =>
      && target != ""
      && (forall m :: m in net.rows ==> net.rows[m].epoch <= net.rows[n].epoch)
      && (net.rows[n].epoch == 0 ==> target == root)
    case Bootstrap(n, r) => net.rows[n].epoch == 0 ==> r == root
    case _ => true
  }

  ghost predicate AllHighestRow(net: Net, root: Id, evs: seq<Event>)
    requires Legal(net, evs)
    decreases |evs|
  {
    evs == [] || (HighestRow(net, root, evs[0]) && AllHighestRow(Apply(net, evs[0]), root, evs[1..]))
  }

  /** `f` names its epoch the way it was issued. */
  ghost predicate AsIssued(issued: seq<Id>, f: Row) {
    f.epoch <= |issued| && (f.epoch > 0 ==> f.master == issued[f.epoch-1])
  }

  /** `issued[e-1]` is the master of epoch e; the highest epoch is still held by some node. */
  ghost predicate Ledger(net: Net, root: Id, issued: seq<Id>) {
    && HeadersFirst(net)
    && (forall n :: n in net.rows ==> AsIssued(issued, net.rows[n]))
    && (forall f :: f in net.beats ==> AsIssued(issued, f))
    && (forall o :: o in net.headers ==> AsIssued(issued, o.1))
    && (forall s :: s in net.snaps ==> AsIssued(issued, s.header) && AsIssued(issued, s.body))
    && (forall m :: m in issued ==> m != "")
    && (issued != [] ==> issued[0] == root && exists n :: n in net.rows && net.rows[n].epoch == |issued|)
  }

  lemma {:induction false} LedgerAgrees(net: Net, root: Id, issued: seq<Id>)
    requires Ledger(net, root, issued)
    ensures Agree(net)
  {
    forall f | Named(net, f) ensures AsIssued(issued, f) {}
  }

  /** What issuing one more epoch does to the entries already there. */
  lemma {:induction false} IssueKeeps(issued: seq<Id>, m: Id)
    ensures forall f :: AsIssued(issued, f) ==> AsIssued(issued + [m], f)
  {}

  lemma {:induction false} PromoteLedger(net: Net, root: Id, issued: seq<Id>, ev: Event)
    requires Enabled(net, ev) && ev.Promote? && HighestRow(net, root, ev) && Ledger(net, root, issued)
    ensures Ledger(Apply(net, ev), root, issued + [ev.target])
  {
    var b := Apply(net, ev);
    IssueKeeps(issued, ev.target);
    StepKeepsEpochs(net, ev);
    assert net.rows[ev.n].epoch == |issued|;
    assert b.rows[ev.n].epoch == |issued| + 1;
  }

  lemma {:induction false} BootstrapLedger(net: Net, root: Id, issued: seq<Id>, ev: Event)
    requires Enabled(net, ev) && ev.Bootstrap? && HighestRow(net, root, ev) && root != "" && Ledger(net, root, issued)
    ensures Ledger(Apply(net, ev), root, if issued == [] then [root] else issued)
  {
    var b := Apply(net, ev);
    IssueKeeps(issued, root);
    StepKeepsEpochs(net, ev);
    if issued == [] {
      assert b.rows[ev.n].epoch == 1;
    } else {
      HighestStays(net, b, issued);
    }
  }

  lemma {:induction false} HighestStays(a: Net, b: Net, issued: seq<Id>)
    requires EpochsKept(a, b) && issued != []
    requires exists n :: n in a.rows && a.rows[n].epoch == |issued|
    requires forall n :: n in b.rows ==> b.rows[n].epoch <= |issued|
    ensures exists n :: n in b.rows && b.rows[n].epoch == |issued|
  {
    var n :| n in a.rows && a.rows[n].epoch == |issued|;
    assert n in b.rows;
  }

  lemma {:induction false} SpreadLedger(net: Net, root: Id, issued: seq<Id>, ev: Event)
    requires Enabled(net, ev) && !ev.Promote? && !ev.Bootstrap?
    requires PullUndisturbed(net, ev) && Ledger(net, root, issued)
    ensures Ledger(Apply(net, ev), root, issued)
  {
    var b := Apply(net, ev);
    StepKeepsEpochs(net, ev);
    forall n | n in b.rows ensures AsIssued(issued, b.rows[n]) {}
    if ev.SendSnapshot? {
      assert (ev.n, ev.header) in net.headers;
      assert ev.header.epoch > 0 ==> ev.header.master in issued;
    }
    if issued != [] { HighestStays(net, b, issued); }
  }

  /** The masters issued after one more event. */
  function Issue(issued: seq<Id>, ev: Event): seq<Id> {
    if ev.Promote? then issued + [ev.target] else if ev.Bootstrap? && issued == [] then [ev.root] else issued
  }

  lemma {:induction false} LedgerStep(net: Net, root: Id, issued: seq<Id>, ev: Event)
    requires root != "" && Enabled(net, ev) && HighestRow(net, root, ev) && PullUndisturbed(net, ev)
    requires Ledger(net, root, issued)
    ensures Ledger(Apply(net, ev), root, Issue(issued, ev))
  {
    if ev.Promote? {
      PromoteLedger(net, root, issued, ev);
    } else if ev.Bootstrap? {
      BootstrapLedger(net, root, issued, ev);
      assert issued == [] ==> net.rows[ev.n].epoch == 0;
    } else {
      SpreadLedger(net, root, issued, ev);
    }
  }

  lemma {:induction false} HighestRowAgrees(net: Net, root: Id, issued: seq<Id>, evs: seq<Event>)
    requires root != "" && Ledger(net, root, issued) && Legal(net, evs)
    requires AllHighestRow(net, root, evs) && AllUndisturbed(net, evs)
    ensures Agree(After(net, evs))
    decreases |evs|
  {
    if evs == [] {
      LedgerAgrees(net, root, issued);
    } else {
      LedgerStep(net, root, issued, evs[0]);
      HighestRowAgrees(Apply(net, evs[0]), root, Issue(issued, evs[0]), evs[1..]);
    }
  }

  /**
   Looking at rows alone is enough for the promotion too, but only while no pull is overtaken:
   an overtaken one can take the highest epoch out of every row, while it is still on its way.
   */
  lemma {:induction false} OneMasterByRows(ids: set<Id>, root: Id, evs: seq<Event>)
    requires root != "" && Legal(Fresh(ids), evs)
    requires AllHighestRow(Fresh(ids), root, evs) && AllUndisturbed(Fresh(ids), evs)
    ensures Agree(After(Fresh(ids), evs))
  {
    HighestRowAgrees(Fresh(ids), root, [], evs);
  }

  // ---------------------------------------------------------------- what the conditions rule out

  /** One more event at the end of a run. */
  lemma {:induction false} Then(net: Net, evs: seq<Event>, ev: Event)
    requires Legal(net, evs) && Enabled(After(net, evs), ev)
    ensures Legal(net, evs + [ev]) && After(net, evs + [ev]) == Apply(After(net, evs), ev)
    decreases |evs|
  {
    if evs == [] {
      assert [] + [ev] == [ev] && [ev][1..] == [];
    } else {
      assert (evs + [ev])[1..] == evs[1..] + [ev];
      Then(Apply(net, evs[0]), evs[1..], ev);
    }
  }

  /** Promoting on a node that lags behind names two masters for one epoch. */
  lemma {:induction false} LaggingPromotionSplits()
    ensures var evs := [Promote("a", "a"), Promote("b", "b")];
            Legal(Fresh({"a", "b"}), evs) && !Agree(After(Fresh({"a", "b"}), evs))
  {
    var net := Fresh({"a", "b"});
    var e, f := Promote("a", "a"), Promote("b", "b");
    Then(net, [], e);
    Then(net, [] + [e], f);
    assert [] + [e] + [f] == [e, f];
    var b := After(net, [e, f]);
    assert b.rows["a"] == Row(1, "a") && b.rows["b"] == Row(1, "b");
    RowNamed(b, "a");
    RowNamed(b, "b");
  }

  /**
   Promoting only where the highest epoch is, and installing with one master, is not enough:
   the first promotion also has to name the master the installations name.
   */
  lemma {:induction false} FirstPromotionMustNameRoot()
    ensures var evs := [Promote("a", "x"), Bootstrap("b", "a")];
            && Legal(Fresh({"a", "b"}), evs)
            && (forall f :: Named(Fresh({"a", "b"}), f) ==> f.epoch == 0)
            && !Agree(After(Fresh({"a", "b"}), evs))
  {
    var net := Fresh({"a", "b"});
    var e, f := Promote("a", "x"), Bootstrap("b", "a");
    Then(net, [], e);
    Then(net, [] + [e], f);
    assert [] + [e] + [f] == [e, f];
    var b := After(net, [e, f]);
    assert b.rows["a"] == Row(1, "x") && b.rows["b"] == Row(1, "a");
    RowNamed(b, "a");
    RowNamed(b, "b");
  }

  /** Nor may a promotion name nobody: a snapshot's header then names the node that answers, its body nobody. */
  lemma {:induction false} NamelessPromotionSplits()
    ensures var evs := [Promote("a", ""), OpenSnapshot("a"), SendSnapshot("a", Row(1, ""))];
            Legal(Fresh({"a"}), evs) && !Agree(After(Fresh({"a"}), evs))
  {
    var net, row := Fresh({"a"}), Row(1, "");
    var e, f, g := Promote("a", ""), OpenSnapshot("a"), SendSnapshot("a", Row(1, ""));
    Then(net, [], e);
    Then(net, [] + [e], f);
    Then(net, [] + [e] + [f], g);
    assert [] + [e] + [f] + [g] == [e, f, g];
    var b := After(net, [e, f, g]);
    assert b.rows["a"] == row;
    assert Snapshot(Row(1, "a"), row) in b.snaps;
    assert Named(b, Row(1, "a")) && Named(b, row);
  }

  // ---------------------------------------------------------------- runs written out

  ghost predicate Reaches(net: Net, evs: seq<Event>, to: Net) {
    Legal(net, evs) && After(net, evs) == to
  }

  ghost predicate Stores(net: Net, n: Id, row: Row) {
    n in net.rows && net.rows[n] == row
  }

  lemma {:induction false} ThenReaches(net: Net, evs: seq<Event>, mid: Net, ev: Event, to: Net)
    requires Reaches(net, evs, mid) && Enabled(mid, ev) && Apply(mid, ev) == to
    ensures Reaches(net, evs + [ev], to)
  {
    Then(net, evs, ev);
  }

  lemma {:induction false} ThenOnTop(net: Net, root: Id, evs: seq<Event>, ev: Event)
    requires Legal(net, evs + [ev]) && Legal(net, evs) && Enabled(After(net, evs), ev)
    requires AllOnTop(net, root, evs) && OnTop(After(net, evs), root, ev)
    ensures AllOnTop(net, root, evs + [ev])
    decreases |evs|
  {
    hide OnTop;
    if evs == [] {
      assert [] + [ev] == [ev] && [ev][1..] == [];
    } else {
      assert (evs + [ev])[1..] == evs[1..] + [ev];
      ThenOnTop(Apply(net, evs[0]), root, evs[1..], ev);
    }
  }

  lemma {:induction false} ThenHighestRow(net: Net, root: Id, evs: seq<Event>, ev: Event)
    requires Legal(net, evs + [ev]) && Legal(net, evs) && Enabled(After(net, evs), ev)
    requires AllHighestRow(net, root, evs) && HighestRow(After(net, evs), root, ev)
    ensures AllHighestRow(net, root, evs + [ev])
    decreases |evs|
  {
    hide HighestRow;
    if evs == [] {
      assert [] + [ev] == [ev] && [ev][1..] == [];
    } else {
      assert (evs + [ev])[1..] == evs[1..] + [ev];
      ThenHighestRow(Apply(net, evs[0]), root, evs[1..], ev);
    }
  }

  // ---------------------------------------------------------------- two writers, for ever

  /** "b" is installed with master "a", never declared itself, and then promoted. */
  function Handover(a: Id, b: Id): seq<Event> {
    [Bootstrap(b, a), Promote(b, b)]
  }

  function HandedOver(ids: set<Id>, b: Id): Net {
    Net(map n | n in ids :: if n == b then Row(2, b) else Row(0, ""), map[], {}, {}, {})
  }

  /** One master per epoch, but not one writer: the handover is on top, and leaves both believing they are master. */
  lemma {:induction false} TwoWriters(ids: set<Id>, a: Id, b: Id)
    requires a in ids && b in ids && a != b && a != "" && b != ""
    ensures Legal(Fresh(ids), Handover(a, b)) && AllOnTop(Fresh(ids), a, Handover(a, b))
    ensures After(Fresh(ids), Handover(a, b)) == HandedOver(ids, b)
    ensures HandedOver(ids, b).rows[a].IsMaster(a) && HandedOver(ids, b).rows[b].IsMaster(b)
  {
    var net, e, f := Fresh(ids), Bootstrap(b, a), Promote(b, b);
    Then(net, [], e);
    ThenOnTop(net, a, [], e);
    var mid := After(net, [] + [e]);
    assert mid == net.(rows := net.rows[b := Row(1, a)]);
    Then(net, [] + [e], f);
    ThenOnTop(net, a, [] + [e], f);
    assert [] + [e] + [f] == Handover(a, b);
  }

  /**
   Nobody promotes on `n` or installs it anew, and a heartbeat of `n` starts from a row that
   makes it master. Nothing is asked of the other nodes, nor of the replies and snapshots sent to `n`.
   */
  ghost predicate LeftAlone(net: Net, n: Id, ev: Event)
    requires Enabled(net, ev)
  {
    ev.n == n ==>
      && !ev.Promote?
      && (ev.Bootstrap? ==> net.rows[n].epoch > 0)
      && (ev.HearBeat? ==> ev.read.IsMaster(n))
  }

  ghost predicate AllLeftAlone(net: Net, n: Id, evs: seq<Event>)
    requires Legal(net, evs)
    decreases |evs|
  {
    evs == [] || (LeftAlone(net, n, evs[0]) && AllLeftAlone(Apply(net, evs[0]), n, evs[1..]))
  }

  /** What spreads by heartbeat and snapshot never reaches a node that believes it is master, declared or not. */
  lemma {:induction false} MasterNeverHears(net: Net, n: Id, evs: seq<Event>)
    requires n in net.rows && net.rows[n].IsMaster(n)
    requires n in net.started ==> net.started[n].IsMaster(n)
    requires Legal(net, evs) && AllLeftAlone(net, n, evs)
    ensures Stores(After(net, evs), n, net.rows[n])
    decreases |evs|
  {
    if evs != [] {
      var next := Apply(net, evs[0]);
      assert next.rows[n] == net.rows[n];
      MasterNeverHears(next, n, evs[1..]);
    }
  }

  /** Over every run after the handover in which nobody steps in, both stay masters and go on writing. */
  lemma {:induction false} TwoWritersRemain(ids: set<Id>, a: Id, b: Id, later: seq<Event>)
    requires a in ids && b in ids && a != b && a != "" && b != ""
    requires Legal(HandedOver(ids, b), later)
    requires AllLeftAlone(HandedOver(ids, b), a, later) && AllLeftAlone(HandedOver(ids, b), b, later)
    ensures Reaches(Fresh(ids), Handover(a, b), HandedOver(ids, b))
    ensures var end := After(HandedOver(ids, b), later);
            Stores(end, a, Row(0, "")) && Stores(end, b, Row(2, b)) && Row(0, "").IsMaster(a) && Row(2, b).IsMaster(b)
  {
    TwoWriters(ids, a, b);
    MasterNeverHears(HandedOver(ids, b), a, later);
    MasterNeverHears(HandedOver(ids, b), b, later);
  }

  // ---------------------------------------------------------------- overtaken pulls

  const UNDECLARED := Row(0, "")
  const ONE := Row(1, "a")
  const TWO := Row(2, "a")
  const COPY := Snapshot(ONE, ONE)

  /** The networks of "a" and "b" with these two rows, and one copy on offer. */
  function Offering(a: Row, b: Row): Net {
    Net(map["a" := a, "b" := b], map[], {}, {("a", ONE)}, {COPY})
  }

  /** "a" is promoted and gives out a copy of its database. */
  function Offer(): seq<Event> {
    [] + [Promote("a", "a")] + [OpenSnapshot("a")] + [SendSnapshot("a", ONE)]
  }

  /** A run of the fresh nodes "a" and "b" with root "a", on top all along. */
  ghost predicate Leads(evs: seq<Event>, to: Net) {
    Reaches(Fresh({"a", "b"}), evs, to) && AllOnTop(Fresh({"a", "b"}), "a", evs)
  }

  ghost predicate Goes(mid: Net, ev: Event, to: Net) {
    Enabled(mid, ev) && OnTop(mid, "a", ev) && Apply(mid, ev) == to
  }

  lemma {:induction false} Lead(evs: seq<Event>, mid: Net, ev: Event, to: Net)
    requires Leads(evs, mid) && Goes(mid, ev, to)
    ensures Leads(evs + [ev], to)
  {
    ThenReaches(Fresh({"a", "b"}), evs, mid, ev, to);
    ThenOnTop(Fresh({"a", "b"}), "a", evs, ev);
  }

  lemma {:induction false} PromotionGoes(mid: Net, n: Id, target: Id, to: Net, top: nat)
    requires n in mid.rows && mid.rows[n].epoch == top && target != "" && (top == 0 ==> target == "a")
    requires to == mid.(rows := mid.rows[n := Row(top + 1, target)])
    requires forall m :: m in mid.rows ==> mid.rows[m].epoch <= top
    requires mid.beats == {}
    requires forall o :: o in mid.headers ==> o.1.epoch <= top
    requires forall s :: s in mid.snaps ==> s.header.epoch <= top && s.body.epoch <= top
    ensures Goes(mid, Promote(n, target), to)
  {}

  lemma {:induction false} OfferLeads()
    ensures Leads(Offer(), Offering(ONE, UNDECLARED))
  {
    var n0 := Net(map["a" := UNDECLARED, "b" := UNDECLARED], map[], {}, {}, {});
    assert Fresh({"a", "b"}) == n0;
    assert Leads([], n0);
    var n1 := n0.(rows := map["a" := ONE, "b" := UNDECLARED]);
    var n2 := n1.(headers := {("a", ONE)});
    PromotionGoes(n0, "a", "a", n1, 0);
    assert Goes(n1, OpenSnapshot("a"), n2);
    assert Goes(n2, SendSnapshot("a", ONE), Offering(ONE, UNDECLARED));
    hide Leads, Goes;
    Lead([], n0, Promote("a", "a"), n1);
    Lead([] + [Promote("a", "a")], n1, OpenSnapshot("a"), n2);
    Lead([] + [Promote("a", "a")] + [OpenSnapshot("a")], n2, SendSnapshot("a", ONE), Offering(ONE, UNDECLARED));
  }

  /** "a" is promoted again; "b", installed, starts to pull the old copy and hears of the second epoch meanwhile. */
  function HearsMeanwhile(): seq<Event> {
    Offer() + [Promote("a", "a")] + [AnswerBeat("a")]
    + [Bootstrap("b", "a")] + [StartPull("b")] + [HearBeat("b", ONE, TWO)]
  }

  function Heard(b: Row): Net {
    Offering(TWO, b).(beats := {TWO}, started := map["b" := ONE])
  }

  /** The networks on the way there. */
  function OnTheWay(): (Net, Net, Net) {
    (Offering(TWO, UNDECLARED), Offering(TWO, UNDECLARED).(beats := {TWO}), Offering(TWO, ONE).(beats := {TWO}))
  }

  lemma {:induction false} HearsGoes()
    ensures var (n1, n2, n3) := OnTheWay();
            && Goes(Offering(ONE, UNDECLARED), Promote("a", "a"), n1) && Goes(n1, AnswerBeat("a"), n2)
            && Goes(n2, Bootstrap("b", "a"), n3) && Goes(n3, StartPull("b"), Heard(ONE))
            && Goes(Heard(ONE), HearBeat("b", ONE, TWO), Heard(TWO))
  {
    PromotionGoes(Offering(ONE, UNDECLARED), "a", "a", Offering(TWO, UNDECLARED), 1);
  }

  lemma {:induction false} HearsLeads()
    ensures Leads(HearsMeanwhile(), Heard(TWO))
  {
    OfferLeads();
    HearsGoes();
    hide Leads, Goes, Offer, Heard, Offering, OnTheWay;
    var (n1, n2, n3) := OnTheWay();
    var evs := Offer() + [Promote("a", "a")];
    Lead(Offer(), Offering(ONE, UNDECLARED), Promote("a", "a"), n1);
    Lead(evs, n1, AnswerBeat("a"), n2);
    Lead(evs + [AnswerBeat("a")], n2, Bootstrap("b", "a"), n3);
    Lead(evs + [AnswerBeat("a")] + [Bootstrap("b", "a")], n3, StartPull("b"), Heard(ONE));
    Lead(evs + [AnswerBeat("a")] + [Bootstrap("b", "a")] + [StartPull("b")],
         Heard(ONE), HearBeat("b", ONE, TWO), Heard(TWO));
  }

  lemma {:induction false} SwapGoes()
    ensures Goes(Heard(TWO), FinishPull("b", COPY), Heard(ONE))
    ensures Stores(Heard(TWO), "b", TWO) && Stores(Heard(ONE), "b", ONE)
  {}

  /** With every promotion on top, the swap that follows lets the epoch of "b" fall from 2 to 1. */
  lemma {:induction false} OvertakenPullLowersEpoch()
    ensures Leads(HearsMeanwhile(), Heard(TWO)) && Stores(Heard(TWO), "b", TWO)
    ensures Leads(HearsMeanwhile() + [FinishPull("b", COPY)], Heard(ONE)) && Stores(Heard(ONE), "b", ONE)
  {
    hide Leads, Goes, HearsMeanwhile;
    HearsLeads();
    SwapGoes();
    Lead(HearsMeanwhile(), Heard(TWO), FinishPull("b", COPY), Heard(ONE));
  }

  // ---------------------------------------------------------------- rows alone are not enough

  lemma {:induction false} TopIsHighestRow(net: Net, root: Id, evs: seq<Event>)
    requires Legal(net, evs) && AllOnTop(net, root, evs)
    ensures AllHighestRow(net, root, evs)
    decreases |evs|
  {
    if evs != [] {
      forall m | m in net.rows ensures Named(net, net.rows[m]) {}
      TopIsHighestRow(Apply(net, evs[0]), root, evs[1..]);
    }
  }

  /** "b" is installed, starts to pull, is promoted itself and says so; then the pull puts the old copy back. */
  function PromotedMeanwhile(): seq<Event> {
    Offer() + [Bootstrap("b", "a")] + [StartPull("b")] + [Promote("b", "b")] + [AnswerBeat("b")]
    + [FinishPull("b", COPY)]
  }

  function Forgot(a: Row, b: Row): Net {
    Offering(a, b).(started := map["b" := ONE])
  }

  function Told(a: Row, b: Row): Net {
    Forgot(a, b).(beats := {Row(2, "b")})
  }

  lemma {:induction false} ForgotGoes()
    ensures Goes(Offering(ONE, UNDECLARED), Bootstrap("b", "a"), Offering(ONE, ONE))
    ensures Goes(Offering(ONE, ONE), StartPull("b"), Forgot(ONE, ONE))
    ensures Goes(Forgot(ONE, ONE), Promote("b", "b"), Forgot(ONE, Row(2, "b")))
    ensures Goes(Forgot(ONE, Row(2, "b")), AnswerBeat("b"), Told(ONE, Row(2, "b")))
    ensures Goes(Told(ONE, Row(2, "b")), FinishPull("b", COPY), Told(ONE, ONE))
  {
    PromotionGoes(Forgot(ONE, ONE), "b", "b", Forgot(ONE, Row(2, "b")), 1);
  }

  lemma {:induction false} PromotedLeads()
    ensures Leads(PromotedMeanwhile(), Told(ONE, ONE))
  {
    OfferLeads();
    ForgotGoes();
    hide Leads, Goes, Offer, Forgot, Told, Offering;
    var b2 := Row(2, "b");
    var evs := Offer() + [Bootstrap("b", "a")];
    Lead(Offer(), Offering(ONE, UNDECLARED), Bootstrap("b", "a"), Offering(ONE, ONE));
    Lead(evs, Offering(ONE, ONE), StartPull("b"), Forgot(ONE, ONE));
    Lead(evs + [StartPull("b")], Forgot(ONE, ONE), Promote("b", "b"), Forgot(ONE, b2));
    Lead(evs + [StartPull("b")] + [Promote("b", "b")], Forgot(ONE, b2), AnswerBeat("b"), Told(ONE, b2));
    Lead(evs + [StartPull("b")] + [Promote("b", "b")] + [AnswerBeat("b")],
         Told(ONE, b2), FinishPull("b", COPY), Told(ONE, ONE));
  }

  /** Then the highest row is at epoch 1, a promotion there looks proper, and epoch 2 has two masters. */
  lemma {:induction false} RowsAreNotEnough()
    ensures var (net, evs) := (Fresh({"a", "b"}), PromotedMeanwhile() + [Promote("a", "a")]);
            Legal(net, evs) && AllHighestRow(net, "a", evs) && !Agree(After(net, evs))
  {
    var net, evs, ev := Fresh({"a", "b"}), PromotedMeanwhile(), Promote("a", "a");
    hide PromotedMeanwhile, Told, Agree, HighestRow, Apply;
    PromotedLeads();
    LooksProper();
    TopIsHighestRow(net, "a", evs);
    Then(net, evs, ev);
    ThenHighestRow(net, "a", evs, ev);
  }

  lemma {:induction false} LooksProper()
    ensures var (mid, ev) := (Told(ONE, ONE), Promote("a", "a"));
            Enabled(mid, ev) && HighestRow(mid, "a", ev) && !Agree(Apply(mid, ev))
  {
    var last := Apply(Told(ONE, ONE), Promote("a", "a"));
    assert last == Told(TWO, ONE);
    hide Apply;
    assert Row(2, "b") in last.beats && "a" in last.rows && last.rows["a"] == TWO;
    assert Named(last, Row(2, "b")) && Named(last, TWO);
  }
}
