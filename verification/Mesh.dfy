/**
 Leading a flow from node to node: the hop limit (internal/server/chain/chain.go), one node's
 decision (internal/server/route_decide.go, internal/server/links.go) and the handler around
 it (internal/server/node.go, internal/server/connectudp.go).

 What a node knows and meets - its registry, its balancer, whether a link and a stream to the
 neighbour come up - is a parameter of every visit, so the results hold for all of it.
 */
module Mesh {
  import opened Basics
  import opened GoStrings
  import opened Routing
  import Balancer

  const DEFAULT_HOPS := 8

  // ---------------------------------------------------------------- one node

  /** An absent header is the empty string. */
  datatype Request = Request(hops: string, route: string)

  datatype Info = Info(enabled: bool, tags: seq<string>, category: string)

  /**
   What a node goes by on one visit: the network's rows at its last reload and the order in
   which it walks them, its balancer, and whether the link and the stream to the chosen
   neighbour come up.
   */
  datatype View = View(
    rows: map<string, Info>, walk: seq<string>,
    balance: Balancer.State, now: Time,
    linkUp: bool, streamOpens: bool)

  /** The limit a request brings, and whether it comes from a client. */
  function HopsOf(r: Request): (int, bool) {
    if r.hops == "" then (DEFAULT_HOPS, true)
    else
      var n := Atoi(r.hops);
      if n.None? || n.value < 0 then (0, false) else (n.value, false)
  }

  function Lower(c: char): char {
    if 'A' <= c <= 'Z' then c - 'A' + 'a' else c
  }

  predicate EqualFold(a: string, b: string) {
    |a| == |b| && forall i :: 0 <= i < |a| ==> Lower(a[i]) == Lower(b[i])
  }

  /** The registry a node keeps: every row but its own. */
  function Neighbours(v: View, self: string): map<string, Info> {
    v.rows - {self}
  }

  predicate Serves(i: Info, tag: string) {
    i.enabled && ((exists t :: t in i.tags && EqualFold(t, tag)) || i.category == tag)
  }

  function Candidates(nodes: map<string, Info>, walk: seq<string>, tag: string): seq<string> {
    if walk == [] then []
    else
      (if walk[0] in nodes && Serves(nodes[walk[0]], tag) then [walk[0]] else [])
      + Candidates(nodes, walk[1..], tag)
  }

  function PickNode(v: View, self: string, tag: string): string {
    Balancer.PickStep(v.balance, tag, Candidates(Neighbours(v, self), v.walk, tag), v.now).1
  }

  predicate HasLink(v: View, self: string, node: string) {
    && node != "" && node != self
    && node in Neighbours(v, self) && Neighbours(v, self)[node].enabled && v.linkUp
  }

  /** What a node does with a flow: lets it out, answers with a page or an error, or leads it on. */
  datatype Act = Exit | Refuse | Forward(next: string, req: Request)

  function ReadRoute(r: Request): Route {
    if Parse(r.route).Some? then Parse(r.route).value else DIRECT
  }

  function Target(self: string, r: Request, v: View): Option<string> {
    var route := ReadRoute(r);
    Decide(route, self, if route.auto then PickNode(v, self, route.tag) else "")
  }

  function Serve(self: string, r: Request, v: View): Act {
    var (hops, fromClient) := HopsOf(r);
    if !fromClient && hops <= 0 then Refuse
    else
      var next := Target(self, r, v);
      if next.None? || !HasLink(v, self, next.value) then Exit
      else if hops - 1 <= 0 || !v.streamOpens then Refuse
      else Forward(next.value, Request(Itoa(hops - 1), r.route))
  }

  // ---------------------------------------------------------------- hops only go down

  /** How many nodes the limit still allows, this one included. */
  function Budget(r: Request): nat {
    if HopsOf(r).0 <= 0 then 1 else HopsOf(r).0
  }

  lemma {:induction false} HopsBounded(r: Request)
    ensures 0 <= HopsOf(r).0 <= MAX_INT
  {}

  /** A node that leads a flow on spends one hop, says so in digits the next node reads, and keeps the label. */
  lemma {:induction false} ForwardSpendsAHop(self: string, r: Request, v: View)
    requires Serve(self, r, v).Forward?
    ensures var s := Serve(self, r, v).req;
            && HopsOf(s) == (HopsOf(r).0 - 1, false) && HopsOf(s).0 >= 1
            && s.hops == Itoa(HopsOf(r).0 - 1) && s.route == r.route && s.route != ""
    ensures ReadRoute(Serve(self, r, v).req) == ReadRoute(r) && Budget(Serve(self, r, v).req) == Budget(r) - 1
  {
    HopsBounded(r);
    ItoaRoundTrip(HopsOf(r).0 - 1);
    hide Itoa, Atoi, PickNode;
    assert Trim("") == "";
  }

  datatype Visit = Visit(node: string, req: Request, act: Act)

  /** The visits of one flow, from `self` on; visit k meets env(k). */
  function Flow(self: string, r: Request, env: nat -> View, k: nat): (visits: seq<Visit>)
    decreases Budget(r)
  {
    var act := Serve(self, r, env(k));
    [Visit(self, r, act)] +
    if act.Forward? then
      (ForwardSpendsAHop(self, r, env(k)); Flow(act.next, act.req, env, k + 1))
    else []
  }

  // ---------------------------------------------------------------- what one node does

  /** A flow without a tag is let out exactly where it asks for no other node, or that node cannot be reached. */
  lemma {:induction false} NamedExitIff(self: string, r: Request, v: View)
    requires !ReadRoute(r).auto && HopsOf(r).0 > 0
    ensures var x := ReadRoute(r).node;
            Serve(self, r, v) == Exit <==>
              x == "" || x == self || x !in v.rows || !v.rows[x].enabled || !v.linkUp
  {
    hide HopsOf, ReadRoute, Itoa;
  }

  /** No label, the label "direct" and a label that cannot be read all mean: let it out here. */
  lemma {:induction false} UnlabelledExits(self: string, r: Request, v: View)
    requires HopsOf(r).0 > 0 && (r.route == "" || r.route == "direct" || Parse(r.route).None?)
    ensures Serve(self, r, v) == Exit
  {
    hide HopsOf, Itoa;
    assert Trim("") == "";
    TrimIsIdentityIff("direct");
    NamedExitIff(self, r, v);
  }

  /** A loop, or a header that is no count, is refused; so is what would go on without a hop to spare or a stream. */
  lemma {:induction false} RefuseIff(self: string, r: Request, v: View)
    ensures var spent := r.hops != "" && (Atoi(r.hops).None? || Atoi(r.hops).value <= 0);
            Serve(self, r, v) == Refuse <==>
              spent || (Serve(self, r, v) != Exit && (HopsOf(r).0 == 1 || !v.streamOpens))
  {
    hide Target, HasLink, Itoa, Atoi;
  }

  /** A flow from a client has eight nodes to go through, any other what its header says. */
  lemma {:induction false} HopsAre(r: Request, n: nat)
    requires n <= MAX_INT
    ensures r.hops == "" ==> HopsOf(r) == (8, true)
    ensures r.hops == Itoa(n) ==> HopsOf(r) == (n, false)
  {
    hide Itoa, Atoi;
    ItoaRoundTrip(n);
  }

  /** The case of a tag's letters makes no difference, but for a category; a node switched off serves none. */
  lemma {:induction false} ServesInAnyCase(i: Info, tag: string, other: string)
    requires EqualFold(tag, other)
    ensures (exists t :: t in i.tags && EqualFold(t, tag)) <==> (exists t :: t in i.tags && EqualFold(t, other))
    ensures i.enabled && tag in i.tags ==> Serves(i, other)
    ensures i.enabled && tag == i.category ==> Serves(i, tag)
    ensures !i.enabled ==> !Serves(i, tag)
  {
    assert forall t :: EqualFold(t, tag) <==> EqualFold(t, other);
  }

  lemma {:induction false} FoldsCase()
    ensures EqualFold("De", "dE") && !EqualFold("de", "d") && !EqualFold("de", "fr")
  {
    assert "de"[0] == 'd' && "fr"[0] == 'f';
  }

  // ---------------------------------------------------------------- whole flows

  /** A flow ends once, at its last visit, and every visit before leads to the next. */
  lemma {:induction false} EndsOnce(self: string, r: Request, env: nat -> View, k: nat)
    ensures var f := Flow(self, r, env, k);
            && f != [] && !f[|f|-1].act.Forward?
            && forall i :: 0 <= i < |f| - 1 ==> f[i].act == Forward(f[i+1].node, f[i+1].req)
    decreases Budget(r)
  {
    hide Serve, Budget;
    var act := Serve(self, r, env(k));
    if act.Forward? {
      ForwardSpendsAHop(self, r, env(k));
      EndsOnce(act.next, act.req, env, k + 1);
    }
  }

  /** The limit a request brings bounds the nodes it visits, whatever they know and pick. */
  lemma {:induction false} VisitsBounded(self: string, r: Request, env: nat -> View, k: nat)
    ensures |Flow(self, r, env, k)| <= Budget(r)
    ensures r.hops == "" ==> |Flow(self, r, env, k)| <= DEFAULT_HOPS
    decreases Budget(r)
  {
    hide Serve;
    var act := Serve(self, r, env(k));
    if act.Forward? {
      ForwardSpendsAHop(self, r, env(k));
      VisitsBounded(act.next, act.req, env, k + 1);
    }
  }

  /** Every node sees the label the flow came with, and a hop count that is one lower each time and never zero. */
  lemma {:induction false} OnTheWay(self: string, r: Request, env: nat -> View, k: nat, i: nat)
    requires i < |Flow(self, r, env, k)|
    ensures var q := Flow(self, r, env, k)[i].req;
            && q.route == r.route
            && (i > 0 ==> HopsOf(q) == (HopsOf(r).0 - i, false) && q.hops == Itoa(HopsOf(r).0 - i) && HopsOf(q).0 > 0)
    decreases Budget(r)
  {
    hide Serve, HopsOf, Itoa, Budget, ReadRoute;
    var act := Serve(self, r, env(k));
    if act.Forward? {
      ForwardSpendsAHop(self, r, env(k));
      if i > 0 { OnTheWay(act.next, act.req, env, k + 1, i - 1); }
    }
  }

  /** A flow for a named node visits that node at most once, right after the entry, and is let out there. */
  lemma {:induction false} NamedFlow(self: string, r: Request, env: nat -> View, k: nat)
    requires !ReadRoute(r).auto
    ensures var (f, x) := (Flow(self, r, env, k), ReadRoute(r).node);
            && |f| <= 2
            && (|f| == 2 ==> f[1].node == x && f[1].act == Exit)
            && (HopsOf(r).0 > 1 && HasLink(env(k), self, x) && env(k).streamOpens ==> |f| == 2)
  {
    hide Itoa, Atoi, PickNode;
    var act := Serve(self, r, env(k));
    if act.Forward? {
      ForwardSpendsAHop(self, r, env(k));
      assert Serve(act.next, act.req, env(k + 1)) == Exit;
    }
  }

  // ---------------------------------------------------------------- flows for a tag

  /** Some node other than `self` is in the network's rows, switched on, and carries the tag. */
  ghost predicate Another(v: View, self: string, tag: string) {
    exists n :: n in v.rows && n != self && Serves(v.rows[n], tag)
  }

  ghost predicate Sane(v: View) {
    "" !in v.rows && forall n :: n in v.rows <==> n in v.walk
  }

  lemma {:induction false} CandidatesAre(nodes: map<string, Info>, walk: seq<string>, tag: string, n: string)
    ensures n in Candidates(nodes, walk, tag) <==> n in walk && n in nodes && Serves(nodes[n], tag)
  {
    hide Serves;
    if walk != [] { CandidatesAre(nodes, walk[1..], tag, n); }
  }

  /** What a node picks for a tag carries it, is switched on, and is another node. */
  lemma {:induction false} PickServes(v: View, self: string, tag: string)
    ensures var n := PickNode(v, self, tag);
            n != "" ==> n in v.rows && n != self && Serves(v.rows[n], tag)
    ensures Sane(v) ==> (PickNode(v, self, tag) != "" <==> Another(v, self, tag))
  {
    hide Serves;
    var nodes := Neighbours(v, self);
    var c := Candidates(nodes, v.walk, tag);
    if c != [] {
      Balancer.PickLeaves(v.balance, tag, c, v.now);
      CandidatesAre(nodes, v.walk, tag, PickNode(v, self, tag));
    }
    hide Balancer.PickStep;
    if Sane(v) && Another(v, self, tag) {
      var n :| n in v.rows && n != self && Serves(v.rows[n], tag);
      CandidatesAre(nodes, v.walk, tag, n);
    }
  }

  /**
   A node lets a tagged flow out exactly when no other node carries the tag or the link to the
   one picked is down. That the node carries the tag itself makes no difference.
   */
  lemma {:induction false} TaggedExitIff(self: string, r: Request, v: View)
    requires Sane(v) && ReadRoute(r).auto && HopsOf(r).0 > 0
    ensures Serve(self, r, v) == Exit <==> !Another(v, self, ReadRoute(r).tag) || !v.linkUp
  {
    PickServes(v, self, ReadRoute(r).tag);
    hide PickNode, HopsOf, Itoa, Parse;
  }

  /** Led on, it goes to another node that carries the tag. */
  lemma {:induction false} TaggedForward(self: string, r: Request, v: View)
    requires ReadRoute(r).auto && Serve(self, r, v).Forward?
    ensures var n := Serve(self, r, v).next;
            n in v.rows && n != self && Serves(v.rows[n], ReadRoute(r).tag)
  {
    PickServes(v, self, ReadRoute(r).tag);
    hide PickNode, HopsOf, Itoa, Parse, Serves;
  }

  /** Nothing is in the way: the registry is sane, links and streams come up. */
  ghost predicate Up(v: View) {
    Sane(v) && v.linkUp && v.streamOpens
  }

  predicate Carries(v: View, n: string, tag: string) {
    n in v.rows && Serves(v.rows[n], tag)
  }

  /** One visit of a tagged flow when nothing is in the way. */
  lemma {:induction false} TaggedVisit(self: string, r: Request, v: View)
    requires Up(v) && ReadRoute(r).auto && HopsOf(r).0 > 0
    ensures var act := Serve(self, r, v);
            if !Another(v, self, ReadRoute(r).tag) then act == Exit
            else if HopsOf(r).0 == 1 then act == Refuse
            else act.Forward? && act.next != self && Carries(v, act.next, ReadRoute(r).tag)
  {
    hide HopsOf, ReadRoute, Target, HasLink, Itoa, Another, Serves;
    TaggedExitIff(self, r, v);
    if Serve(self, r, v).Forward? { TaggedForward(self, r, v); }
  }

  /** From visit `k` on nothing is in the way, and both nodes carry the tag. */
  ghost predicate TwoCarriers(env: nat -> View, k: nat, a: string, b: string, tag: string) {
    a != b && forall i: nat :: i >= k ==> Up(env(i)) && Carries(env(i), a, tag) && Carries(env(i), b, tag)
  }

  lemma {:induction false} CarriedAt(self: string, env: nat -> View, k: nat, a: string, b: string, tag: string)
    requires TwoCarriers(env, k, a, b, tag)
    ensures Up(env(k)) && Another(env(k), self, tag) && TwoCarriers(env, k + 1, a, b, tag)
  {
    hide Up, Carries, Another;
    assert Carries(env(k), a, tag) && Carries(env(k), b, tag);
    EitherIsAnother(env(k), self, tag, a, b);
  }

  /** How many nodes a flow visits, and what the last of them does with it. */
  function Outcome(self: string, r: Request, env: nat -> View, k: nat): (nat, Act) {
    var f := Flow(self, r, env, k);
    EndsOnce(self, r, env, k);
    (|f|, f[|f|-1].act)
  }

  lemma {:induction false} OutcomeUnfolds(self: string, r: Request, env: nat -> View, k: nat)
    ensures var act := Serve(self, r, env(k));
            Outcome(self, r, env, k) ==
            if act.Forward? then
              var rest := Outcome(act.next, act.req, env, k + 1); (rest.0 + 1, rest.1)
            else (1, act)
  {
    hide Serve;
    EndsOnce(self, r, env, k);
  }

  /**
   So when two healthy nodes carry the tag, a flow for it never gets out: it is passed between
   such nodes until the hops run out, and is refused. Rows may change meanwhile.
   */
  lemma {:induction false} TwoCarriersRefuse(
    self: string, r: Request, env: nat -> View, k: nat, a: string, b: string, tag: string)
    requires ReadRoute(r) == Route("", tag, true) && HopsOf(r).0 > 0 && TwoCarriers(env, k, a, b, tag)
    ensures Outcome(self, r, env, k) == (HopsOf(r).0, Refuse)
    decreases Budget(r)
  {
    hide Serve, ReadRoute, HopsOf, Budget, Up, Carries, Another, Outcome, TwoCarriers;
    CarriedAt(self, env, k, a, b, tag);
    TaggedVisit(self, r, env(k));
    OutcomeUnfolds(self, r, env, k);
    var act := Serve(self, r, env(k));
    if act.Forward? {
      ForwardSpendsAHop(self, r, env(k));
      TwoCarriersRefuse(act.next, act.req, env, k + 1, a, b, tag);
    }
  }

  lemma {:induction false} EitherIsAnother(v: View, self: string, tag: string, a: string, b: string)
    requires a != b && Carries(v, a, tag) && Carries(v, b, tag)
    ensures Another(v, self, tag)
  {
    hide Serves;
    assert a != self || b != self;
  }

  /** With one carrier beside the entry the flow is let out at it. */
  lemma {:induction false} OneCarrierExits(self: string, r: Request, env: nat -> View, k: nat, a: string)
    requires a != self && ReadRoute(r).auto && HopsOf(r).0 > 1
    requires Up(env(k)) && Carries(env(k), a, ReadRoute(r).tag) && Sane(env(k + 1))
    requires !Another(env(k), a, ReadRoute(r).tag) && !Another(env(k + 1), a, ReadRoute(r).tag)
    ensures var f := Flow(self, r, env, k); |f| == 2 && f[1].node == a && f[1].act == Exit
  {
    TaggedVisit(self, r, env(k));
    var act := Serve(self, r, env(k));
    ForwardSpendsAHop(self, r, env(k));
    TaggedExitIff(act.next, act.req, env(k + 1));
    hide Serve, HopsOf, Parse, Serves;
  }

  /** At most one node carries the tag. */
  ghost predicate OneAtMost(v: View, tag: string) {
    forall a, b :: Carries(v, a, tag) && Carries(v, b, tag) ==> a == b
  }

  /**
   The exact condition, for whole flows: while the rows stay as they are and nothing is in the
   way, a tagged flow with hops to spare gets out if and only if no two nodes carry the tag.
   */
  lemma {:induction false} TaggedFlowExitsIff(self: string, r: Request, env: nat -> View, k: nat)
    requires ReadRoute(r).auto && HopsOf(r).0 > 1
    requires forall i: nat :: i >= k ==> Up(env(i)) && env(i).rows == env(k).rows
    ensures Outcome(self, r, env, k).1 == Exit <==> OneAtMost(env(k), ReadRoute(r).tag)
  {
    var tag := ReadRoute(r).tag;
    assert Up(env(k)) && Up(env(k + 1)) && env(k + 1).rows == env(k).rows;
    hide HopsOf, Serve, Up, Parse;
    if OneAtMost(env(k), tag) {
      TaggedVisit(self, r, env(k));
      OutcomeUnfolds(self, r, env, k);
      if Another(env(k), self, tag) { ExitsAtTheOne(self, r, env, k); }
    } else {
      var a, b :| Carries(env(k), a, tag) && Carries(env(k), b, tag) && a != b;
      TwoCarriersStay(env, k, a, b, tag);
      ParsedTag(r);
      TwoCarriersRefuse(self, r, env, k, a, b, tag);
    }
  }

  lemma {:induction false} ParsedTag(r: Request)
    requires ReadRoute(r).auto
    ensures ReadRoute(r) == Route("", ReadRoute(r).tag, true)
  {
    hide Trim;
  }

  lemma {:induction false} TwoCarriersStay(env: nat -> View, k: nat, a: string, b: string, tag: string)
    requires a != b && Carries(env(k), a, tag) && Carries(env(k), b, tag)
    requires forall i: nat :: i >= k ==> Up(env(i)) && env(i).rows == env(k).rows
    ensures TwoCarriers(env, k, a, b, tag)
  {
    hide Up, Serves;
  }

  lemma {:induction false} ExitsAtTheOne(self: string, r: Request, env: nat -> View, k: nat)
    requires ReadRoute(r).auto && HopsOf(r).0 > 1 && Up(env(k)) && Up(env(k + 1))
    requires env(k + 1).rows == env(k).rows && OneAtMost(env(k), ReadRoute(r).tag)
    requires Another(env(k), self, ReadRoute(r).tag)
    ensures Outcome(self, r, env, k).1 == Exit
  {
    hide HopsOf, ReadRoute, Serve, Serves;
    var tag := ReadRoute(r).tag;
    var a :| a in env(k).rows && a != self && Serves(env(k).rows[a], tag);
    assert Carries(env(k), a, tag);
    forall b | b in env(k).rows && Serves(env(k).rows[b], tag) ensures b == a { assert Carries(env(k), b, tag); }
    OneCarrierExits(self, r, env, k, a);
  }
}
