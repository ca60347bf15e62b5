/**
 How many masters write (internal/server/db/cluster.go, internal/server/admin_cluster.go): a
 declared master stops only by being promoted away from, so a handover is safe exactly when it is
 made at the master that hands over.
 */
module Writers {
  import opened Cluster

  /** A declared master; past epoch 0 that is the same as believing to be master. */
  ghost predicate Writer(net: Net, n: Id) {
    n in net.rows && net.rows[n].epoch > 0 && net.rows[n].master == n
  }

  ghost predicate OneWriter(net: Net) {
    forall m, n :: Writer(net, m) && Writer(net, n) ==> m == n
  }

  // ---------------------------------------------------------------- when a master stops

  /**
   A node that believes it is master stops believing it exactly when it is promoted away from,
   or installed, undeclared, with another master.
   */
  lemma {:induction false} StopsIff(net: Net, n: Id, ev: Event)
    requires n in net.rows && net.rows[n].IsMaster(n) && Enabled(net, ev)
    requires n in net.started ==> net.started[n].IsMaster(n)
    requires ev.HearBeat? && ev.n == n ==> ev.read.IsMaster(n)
    ensures n in Apply(net, ev).rows
    ensures !Apply(net, ev).rows[n].IsMaster(n) <==>
              (ev.Promote? && ev.n == n && ev.target != n && ev.target != "") ||
              (ev.Bootstrap? && ev.n == n && net.rows[n].epoch == 0 && ev.root != n && ev.root != "")
  {}

  // ---------------------------------------------------------------- one writer over every run

  /**
   A promotion happens where the highest row is and either at the master that row names, or to
   confirm that master; no pull is overtaken.
   */
  ghost predicate Handing(net: Net, root: Id, ev: Event)
    requires Enabled(net, ev)
  {
    && HighestRow(net, root, ev) && PullUndisturbed(net, ev)
    && (ev.Promote? && net.rows[ev.n].epoch > 0 ==> net.rows[ev.n].master == ev.n || net.rows[ev.n].master == ev.target)
  }

  ghost predicate AllHanding(net: Net, root: Id, evs: seq<Event>)
    requires Legal(net, evs)
    decreases |evs|
  {
    evs == [] || (Handing(net, root, evs[0]) && AllHanding(Apply(net, evs[0]), root, evs[1..]))
  }

  /** From entry `i` on, always the same master. */
  ghost predicate SameFrom(issued: seq<Id>, i: nat) {
    forall j :: i <= j < |issued| ==> issued[j] == issued[|issued|-1]
  }

  /** Every master but the last one stores an epoch above the one that made it master. */
  ghost predicate Succeeded(net: Net, issued: seq<Id>) {
    forall i: nat :: i < |issued| && issued[i] in net.rows ==>
                       net.rows[issued[i]].epoch > i + 1 || SameFrom(issued, i)
  }

  lemma {:induction false} WriterIsLast(net: Net, root: Id, issued: seq<Id>, n: Id)
    requires Ledger(net, root, issued) && Succeeded(net, issued) && Writer(net, n)
    ensures issued != [] && n == issued[|issued|-1]
  {
    var i: nat := net.rows[n].epoch - 1;
    assert issued[i] == n;
  }

  lemma {:induction false} SucceededStep(net: Net, root: Id, issued: seq<Id>, ev: Event)
    requires root != "" && Enabled(net, ev) && Handing(net, root, ev)
    requires Ledger(net, root, issued) && Succeeded(net, issued)
    ensures Ledger(Apply(net, ev), root, Issue(issued, ev)) && Succeeded(Apply(net, ev), Issue(issued, ev))
  {
    LedgerStep(net, root, issued, ev);
    StepKeepsEpochs(net, ev);
    var b, next := Apply(net, ev), Issue(issued, ev);
    assert ev.Promote? ==> net.rows[ev.n].epoch == |issued|;
    forall i: nat | i < |next| && next[i] in b.rows
      ensures b.rows[next[i]].epoch > i + 1 || SameFrom(next, i)
    {
      if i < |issued| {
        assert next[i] == issued[i];
        assert net.rows[issued[i]].epoch <= b.rows[issued[i]].epoch;
      }
    }
  }

  lemma {:induction false} HandingRun(net: Net, root: Id, issued: seq<Id>, evs: seq<Event>)
    requires root != "" && Legal(net, evs) && AllHanding(net, root, evs)
    requires Ledger(net, root, issued) && Succeeded(net, issued)
    ensures OneWriter(After(net, evs))
    decreases |evs|
  {
    if evs == [] {
      forall m, n | Writer(net, m) && Writer(net, n) ensures m == n {
        WriterIsLast(net, root, issued, m);
        WriterIsLast(net, root, issued, n);
      }
    } else {
      SucceededStep(net, root, issued, evs[0]);
      HandingRun(Apply(net, evs[0]), root, Issue(issued, evs[0]), evs[1..]);
    }
  }

  /** From fresh nodes, over every run, whatever is lost, repeated or delayed: never two declared masters. */
  lemma {:induction false} OneWriterOverRuns(ids: set<Id>, root: Id, evs: seq<Event>)
    requires root != "" && Legal(Fresh(ids), evs) && AllHanding(Fresh(ids), root, evs)
    ensures OneWriter(After(Fresh(ids), evs))
  {
    HandingRun(Fresh(ids), root, [], evs);
  }

  // ---------------------------------------------------------------- a rule the administrator can follow

  /** What can be seen at the node itself: it is the declared master, and hands over to somebody. */
  ghost predicate AtTheMaster(net: Net, root: Id, ev: Event)
    requires Enabled(net, ev)
  {
    && (ev.Promote? ==> Writer(net, ev.n) && ev.target != "")
    && (ev.Bootstrap? && net.rows[ev.n].epoch == 0 ==> ev.root == root)
    && PullUndisturbed(net, ev)
  }

  ghost predicate AllAtTheMaster(net: Net, root: Id, evs: seq<Event>)
    requires Legal(net, evs)
    decreases |evs|
  {
    evs == [] || (AtTheMaster(net, root, evs[0]) && AllAtTheMaster(Apply(net, evs[0]), root, evs[1..]))
  }

  /** Every master but that of the last epoch stores an epoch above its own. */
  ghost predicate Superseded(net: Net, issued: seq<Id>) {
    forall i: nat :: i + 1 < |issued| && issued[i] in net.rows ==> net.rows[issued[i]].epoch > i + 1
  }

  lemma {:induction false} MasterIsOnTop(net: Net, root: Id, issued: seq<Id>, ev: Event)
    requires Enabled(net, ev) && AtTheMaster(net, root, ev) && Ledger(net, root, issued) && Superseded(net, issued)
    ensures Handing(net, root, ev)
  {
    if ev.Promote? {
      var i: nat := net.rows[ev.n].epoch - 1;
      assert issued[i] == ev.n;
      assert net.rows[ev.n].epoch == |issued|;
    }
  }

  lemma {:induction false} SupersededStep(net: Net, root: Id, issued: seq<Id>, ev: Event)
    requires root != "" && Enabled(net, ev) && AtTheMaster(net, root, ev)
    requires issued != [] && Ledger(net, root, issued) && Superseded(net, issued)
    ensures Ledger(Apply(net, ev), root, Issue(issued, ev)) && Superseded(Apply(net, ev), Issue(issued, ev))
  {
    MasterIsOnTop(net, root, issued, ev);
    LedgerStep(net, root, issued, ev);
    StepKeepsEpochs(net, ev);
    var b, next := Apply(net, ev), Issue(issued, ev);
    forall i: nat | i + 1 < |next| && next[i] in b.rows ensures b.rows[next[i]].epoch > i + 1 {
      assert next[i] == issued[i];
      assert net.rows[issued[i]].epoch <= b.rows[issued[i]].epoch;
    }
  }

  lemma {:induction false} AtTheMasterRun(net: Net, root: Id, issued: seq<Id>, evs: seq<Event>)
    requires root != "" && Legal(net, evs) && AllAtTheMaster(net, root, evs)
    requires issued != [] && Ledger(net, root, issued) && Superseded(net, issued)
    ensures OneWriter(After(net, evs))
    decreases |evs|
  {
    if evs == [] {
      forall m, n | Writer(net, m) && Writer(net, n) ensures m == n {
        OnlyTheLast(net, root, issued, m);
        OnlyTheLast(net, root, issued, n);
      }
    } else {
      SupersededStep(net, root, issued, evs[0]);
      AtTheMasterRun(Apply(net, evs[0]), root, Issue(issued, evs[0]), evs[1..]);
    }
  }

  lemma {:induction false} OnlyTheLast(net: Net, root: Id, issued: seq<Id>, n: Id)
    requires issued != [] && Ledger(net, root, issued) && Superseded(net, issued) && Writer(net, n)
    ensures n == issued[|issued|-1]
  {
    var i: nat := net.rows[n].epoch - 1;
    assert issued[i] == n;
  }

  /**
   Once the first master has declared itself, promoting only at the declared master keeps it at
   one, over every run in which no pull is overtaken. Nobody has to know the other rows.
   */
  lemma {:induction false} PromotingAtTheMasterSuffices(ids: set<Id>, root: Id, evs: seq<Event>)
    requires root in ids && root != ""
    requires Legal(Apply(Fresh(ids), Promote(root, root)), evs)
    requires AllAtTheMaster(Apply(Fresh(ids), Promote(root, root)), root, evs)
    ensures OneWriter(After(Apply(Fresh(ids), Promote(root, root)), evs))
  {
    LedgerStep(Fresh(ids), root, [], Promote(root, root));
    AtTheMasterRun(Apply(Fresh(ids), Promote(root, root)), root, [root], evs);
  }

  // ---------------------------------------------------------------- and it takes that much

  /** The way to a second master: the promoted node hears of it. */
  function Telling(net: Net, n: Id, target: Id, root: Id): seq<Event>
    requires n in net.rows && target in net.rows
  {
    if target == n then []
    else if net.rows[target].IsMaster(target) then
      [Bootstrap(target, root), AnswerBeat(n), HearBeat(target, Row(1, root), net.rows[n])]
    else
      [AnswerBeat(n), HearBeat(target, net.rows[target], net.rows[n])]
  }

  lemma {:induction false} ToldBecomesWriter(net: Net, root: Id, n: Id, t: Id, w: Id)
    requires n in net.rows && t in net.rows && n != t && w != n && w != t && Writer(net, w)
    requires net.rows[n].master == t != "" && net.rows[t].epoch < net.rows[n].epoch && !net.rows[t].IsMaster(t)
    ensures var evs := [AnswerBeat(n), HearBeat(t, net.rows[t], net.rows[n])];
            Legal(net, evs) && AllHanding(net, root, evs) && Writer(After(net, evs), t) && Writer(After(net, evs), w)
  {
    var e, f := AnswerBeat(n), HearBeat(t, net.rows[t], net.rows[n]);
    assert [e, f][1..] == [f] && [f][1..] == [];
    var mid := Apply(net, e);
    assert Enabled(mid, f);
    var end := Apply(mid, f);
    assert After(net, [e, f]) == After(mid, [f]) == After(end, []) == end;
  }

  /** A node that believes it is master and is no writer was never declared, nor is it the root. */
  lemma {:induction false} UndeclaredBeliever(net: Net, root: Id, issued: seq<Id>, t: Id, w: Id)
    requires Ledger(net, root, issued) && Succeeded(net, issued) && Writer(net, w)
    requires t in net.rows && t != w && net.rows[t].IsMaster(t)
    ensures net.rows[t].epoch == 0 && t != root
  {
    WriterIsLast(net, root, issued, w);
    if net.rows[t].epoch > 0 {
      assert net.rows[t].master in issued;
      WriterIsLast(net, root, issued, t);
    }
    assert issued[0] == root && (root in net.rows ==> net.rows[root].epoch > 1 || SameFrom(issued, 0));
  }

  /** With a writer elsewhere, promoting a third node ends in two writers, and no further promotion is needed. */
  lemma {:induction false} StrangerSplits(net: Net, root: Id, issued: seq<Id>, w: Id, n: Id, t: Id)
    requires root != "" && Ledger(net, root, issued) && Succeeded(net, issued) && Writer(net, w)
    requires n in net.rows && t in net.rows && n != w && t != w && HighestRow(net, root, Promote(n, t))
    ensures var b := Apply(net, Promote(n, t));
            var evs := Telling(b, n, t, root);
            Legal(b, evs) && AllHanding(b, root, evs) && Writer(After(b, evs), t) && Writer(After(b, evs), w)
  {
    var b := Apply(net, Promote(n, t));
    assert Writer(b, w) && net.rows[w].epoch <= net.rows[n].epoch;
    if t != n {
      assert b.rows[t] == net.rows[t] && b.rows[t].epoch < b.rows[n].epoch;
      if b.rows[t].IsMaster(t) {
        UndeclaredBeliever(net, root, issued, t, w);
        InstalledThenTold(b, root, n, t, w);
      } else {
        ToldBecomesWriter(b, root, n, t, w);
      }
    }
  }

  lemma {:induction false} InstalledThenTold(net: Net, root: Id, n: Id, t: Id, w: Id)
    requires n in net.rows && t in net.rows && n != t && w != n && w != t && Writer(net, w)
    requires net.rows[n].master == t != "" && net.rows[n].epoch > 1 && net.rows[t].epoch == 0
    requires net.rows[t].IsMaster(t) && t != root && root != ""
    ensures var evs := Telling(net, n, t, root);
            Legal(net, evs) && AllHanding(net, root, evs) && Writer(After(net, evs), t) && Writer(After(net, evs), w)
  {
    var e, rest := Bootstrap(t, root), [AnswerBeat(n), HearBeat(t, Row(1, root), net.rows[n])];
    var mid := Apply(net, e);
    assert mid.rows[t] == Row(1, root) && mid.rows[n] == net.rows[n];
    ToldBecomesWriter(mid, root, n, t, w);
    assert Telling(net, n, t, root) == [e] + rest && ([e] + rest)[1..] == rest && ([e] + rest)[0] == e;
    assert Handing(net, root, e);
  }

  /** Whatever follows under the rules, there is one writer at most. */
  ghost predicate StaysOne(net: Net, root: Id) {
    forall evs :: Legal(net, evs) && AllHanding(net, root, evs) ==> OneWriter(After(net, evs))
  }

  lemma {:induction false} NotOne(net: Net, root: Id, evs: seq<Event>, t: Id, w: Id)
    requires Legal(net, evs) && AllHanding(net, root, evs)
    requires Writer(After(net, evs), t) && Writer(After(net, evs), w) && t != w
    ensures !StaysOne(net, root)
  {
    hide Legal, After, AllHanding, Writer;
    assert !OneWriter(After(net, evs));
  }

  /**
   The exact condition. While some node `w` is the declared master, a promotion made where the
   highest row is keeps the network at one writer, in everything that can follow, if and only if
   it is made at `w` or names `w`.
   */
  lemma {:induction false} OneWriterIff(net: Net, root: Id, issued: seq<Id>, w: Id, n: Id, t: Id)
    requires root != "" && Ledger(net, root, issued) && Succeeded(net, issued) && Writer(net, w)
    requires n in net.rows && t in net.rows && HighestRow(net, root, Promote(n, t))
    ensures var b := Apply(net, Promote(n, t));
            StaysOne(b, root) <==> n == w || t == w
  {
    hide Succeeded, Ledger, Legal, After, AllHanding, Writer, Handing, HighestRow, Telling;
    var b := Apply(net, Promote(n, t));
    if n == w || t == w {
      WriterIsLast(net, root, issued, w);
      AtLastIsHanding(net, root, issued, n, t);
      SucceededStep(net, root, issued, Promote(n, t));
      forall evs | Legal(b, evs) && AllHanding(b, root, evs) ensures OneWriter(After(b, evs)) {
        HandingRun(b, root, Issue(issued, Promote(n, t)), evs);
      }
    } else {
      StrangerSplits(net, root, issued, w, n, t);
      NotOne(b, root, Telling(b, n, t, root), t, w);
    }
  }

  lemma {:induction false} AtLastIsHanding(net: Net, root: Id, issued: seq<Id>, n: Id, t: Id)
    requires Ledger(net, root, issued) && issued != []
    requires n in net.rows && HighestRow(net, root, Promote(n, t))
    requires n == issued[|issued|-1] || t == issued[|issued|-1]
    ensures Handing(net, root, Promote(n, t))
  {
    assert net.rows[n].epoch == |issued|;
  }

  /** What every run under the rules keeps, so that the condition applies wherever such a run has come to. */
  lemma {:induction false} RulesReach(ids: set<Id>, root: Id, evs: seq<Event>) returns (issued: seq<Id>)
    requires root != "" && Legal(Fresh(ids), evs) && AllHanding(Fresh(ids), root, evs)
    ensures Ledger(After(Fresh(ids), evs), root, issued) && Succeeded(After(Fresh(ids), evs), issued)
  {
    issued := RulesReachFrom(Fresh(ids), root, [], evs);
  }

  lemma {:induction false} RulesReachFrom(net: Net, root: Id, was: seq<Id>, evs: seq<Event>) returns (issued: seq<Id>)
    requires root != "" && Legal(net, evs) && AllHanding(net, root, evs)
    requires Ledger(net, root, was) && Succeeded(net, was)
    ensures Ledger(After(net, evs), root, issued) && Succeeded(After(net, evs), issued)
    decreases |evs|
  {
    if evs == [] {
      issued := was;
    } else {
      SucceededStep(net, root, was, evs[0]);
      issued := RulesReachFrom(Apply(net, evs[0]), root, Issue(was, evs[0]), evs[1..]);
    }
  }

  /** So wherever a run under the rules has come to: the next promotion is safe exactly at the writer, or of it. */
  lemma {:induction false} OneWriterAfterRunIff(ids: set<Id>, root: Id, evs: seq<Event>, w: Id, n: Id, t: Id)
    requires root != "" && Legal(Fresh(ids), evs) && AllHanding(Fresh(ids), root, evs)
    requires var net := After(Fresh(ids), evs);
             Writer(net, w) && n in net.rows && t in net.rows && HighestRow(net, root, Promote(n, t))
    ensures StaysOne(Apply(After(Fresh(ids), evs), Promote(n, t)), root) <==> n == w || t == w
  {
    hide Legal, After, AllHanding, Handing, Writer, HighestRow, StaysOne, Ledger, Succeeded;
    var issued := RulesReach(ids, root, evs);
    OneWriterIff(After(Fresh(ids), evs), root, issued, w, n, t);
  }
}
