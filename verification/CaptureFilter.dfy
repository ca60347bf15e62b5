/**
 The capture filter (internal/packet/windivert/filter.go): a configuration is compiled to a
 filter expression, the driver parses the text and applies it to every packet.

 Here the text is tokens, one per word, sign or literal; module FilterText spells them out in
 characters. The driver's language is the grammar of the parser below ("and" binds tighter
 than "or"), and a test of a field of another family or protocol is false.
 */
module CaptureFilter {
  import opened Basics
  import opened AddrBits

  // ---------------------------------------------------------------- packets and configuration

  datatype Transport = Tcp(port: nat) | Udp(port: nat) | Other

  datatype Packet = Packet(outbound: bool, dst: Octets, transport: Transport) {
    predicate Valid() {
      IsAddr(dst)
    }
  }

  datatype CaptureConfig = CaptureConfig(
    v4: bool, v6: bool, tcp: bool, udp: bool, ports: seq<nat>, bypass: seq<Prefix>)
  {
    predicate Valid() {
      forall p :: p in bypass ==> p.Valid()
    }
  }

  /** What the configuration asks for. Neither flag of a pair set means both. */
  ghost predicate Wanted(cfg: CaptureConfig, pkt: Packet)
    requires cfg.Valid()
  {
    && pkt.outbound
    && (if |pkt.dst| == 4 then cfg.v4 || !cfg.v6 else cfg.v6 || !cfg.v4)
    && (cfg.tcp || cfg.udp ==> (cfg.tcp && pkt.transport.Tcp?) || (cfg.udp && pkt.transport.Udp?))
    && (cfg.ports != [] ==> !pkt.transport.Other? && pkt.transport.port in cfg.ports)
    && (forall p :: p in cfg.bypass ==> !p.Contains(pkt.dst))
  }

  // ---------------------------------------------------------------- the filter language

  datatype Flag = Outbound | IsTcp | IsUdp | IsIp | IsIpv6

  datatype Field = IpDst | Ipv6Dst | TcpDstPort | UdpDstPort

  datatype Cmp = Eq | Ne | Lt | Gt

  datatype Literal = PortLit(n: nat) | AddrLit(a: Octets)

  datatype Token =
    | And | Or | Open | Close
    | FlagT(flag: Flag)
    | FieldT(field: Field)
    | CmpT(cmp: Cmp)
    | LitT(lit: Literal)

  type Text = seq<Token>

  datatype Expr =
    | FlagE(flag: Flag)
    | Test(field: Field, cmp: Cmp, lit: Literal)
    | AndE(l: Expr, r: Expr)
    | OrE(l: Expr, r: Expr)

  /** An expression read from the front of a text, and what is left. */
  datatype Parsed = Fail | Parsed(e: Expr, rest: Text)

  function ParseOr(ts: Text): (r: Parsed)
    ensures r.Parsed? ==> |r.rest| < |ts|
    decreases |ts|, 2
  {
    var l := ParseAnd(ts);
    if l.Fail? || l.rest == [] || l.rest[0] != Or then l
    else
      var r := ParseOr(l.rest[1..]);
      if r.Fail? then Fail else Parsed(OrE(l.e, r.e), r.rest)
  }

  function ParseAnd(ts: Text): (r: Parsed)
    ensures r.Parsed? ==> |r.rest| < |ts|
    decreases |ts|, 1
  {
    var l := ParseFactor(ts);
    if l.Fail? || l.rest == [] || l.rest[0] != And then l
    else
      var r := ParseAnd(l.rest[1..]);
      if r.Fail? then Fail else Parsed(AndE(l.e, r.e), r.rest)
  }

  function ParseFactor(ts: Text): (r: Parsed)
    ensures r.Parsed? ==> |r.rest| < |ts|
    decreases |ts|, 0
  {
    if ts == [] then Fail
    else match ts[0]
      case FlagT(flag) => Parsed(FlagE(flag), ts[1..])
      case FieldT(field) =>
        if |ts| >= 3 && ts[1].CmpT? && ts[2].LitT? then Parsed(Test(field, ts[1].cmp, ts[2].lit), ts[3..])
        else Fail
      case Open =>
        var inner := ParseOr(ts[1..]);
        if inner.Fail? || inner.rest == [] || inner.rest[0] != Close then Fail
        else Parsed(inner.e, inner.rest[1..])
      case _ => Fail
  }

  /** The whole text must be one expression. */
  function Parse(ts: Text): Option<Expr> {
    var r := ParseOr(ts);
    if r.Parsed? && r.rest == [] then Some(r.e) else None
  }

  predicate HasFlag(flag: Flag, pkt: Packet) {
    match flag
    case Outbound => pkt.outbound
    case IsTcp => pkt.transport.Tcp?
    case IsUdp => pkt.transport.Udp?
    case IsIp => |pkt.dst| == 4
    case IsIpv6 => |pkt.dst| == 16
  }

  predicate Compare(x: nat, cmp: Cmp, y: nat) {
    match cmp
    case Eq => x == y
    case Ne => x != y
    case Lt => x < y
    case Gt => x > y
  }

  predicate Eval(e: Expr, pkt: Packet) {
    match e
    case FlagE(flag) => HasFlag(flag, pkt)
    case AndE(l, r) => Eval(l, pkt) && Eval(r, pkt)
    case OrE(l, r) => Eval(l, pkt) || Eval(r, pkt)
    case Test(TcpDstPort, cmp, PortLit(n)) => pkt.transport.Tcp? && Compare(pkt.transport.port, cmp, n)
    case Test(UdpDstPort, cmp, PortLit(n)) => pkt.transport.Udp? && Compare(pkt.transport.port, cmp, n)
    case Test(IpDst, cmp, AddrLit(a)) => |pkt.dst| == 4 && Compare(Number(pkt.dst), cmp, Number(a))
    case Test(Ipv6Dst, cmp, AddrLit(a)) => |pkt.dst| == 16 && Compare(Number(pkt.dst), cmp, Number(a))
    case _ => false
  }

  /** What the driver does with a filter text. */
  predicate Captures(ts: Text, pkt: Packet) {
    Parse(ts).Some? && Eval(Parse(ts).value, pkt)
  }

  // ---------------------------------------------------------------- texts that parse wherever they stand

  predicate Stops(rest: Text, stops: set<Token>) {
    rest == [] || rest[0] !in stops
  }

  /** `ts` reads as the factor `e`, whatever follows. */
  ghost predicate IsFactor(ts: Text, e: Expr) {
    forall rest: Text :: ParseFactor(ts + rest) == Parsed(e, rest)
  }

  /** `ts` reads as the conjunction `e`, unless the text goes on with "and". */
  ghost predicate IsTerm(ts: Text, e: Expr) {
    forall rest: Text :: Stops(rest, {And}) ==> ParseAnd(ts + rest) == Parsed(e, rest)
  }

  ghost predicate IsExpr(ts: Text, e: Expr) {
    forall rest: Text :: Stops(rest, {And, Or}) ==> ParseOr(ts + rest) == Parsed(e, rest)
  }

  lemma {:induction false} FlagFactor(flag: Flag)
    ensures IsFactor([FlagT(flag)], FlagE(flag))
  {
    forall rest: Text ensures ParseFactor([FlagT(flag)] + rest) == Parsed(FlagE(flag), rest) {
      assert ([FlagT(flag)] + rest)[1..] == rest;
    }
  }

  function TestText(field: Field, cmp: Cmp, lit: Literal): Text {
    [FieldT(field), CmpT(cmp), LitT(lit)]
  }

  lemma {:induction false} TestFactor(field: Field, cmp: Cmp, lit: Literal)
    ensures IsFactor(TestText(field, cmp, lit), Test(field, cmp, lit))
  {
    forall rest: Text ensures ParseFactor(TestText(field, cmp, lit) + rest) == Parsed(Test(field, cmp, lit), rest) {
      assert (TestText(field, cmp, lit) + rest)[3..] == rest;
    }
  }

  lemma {:induction false} FactorIsTerm(ts: Text, e: Expr)
    requires IsFactor(ts, e)
    ensures IsTerm(ts, e)
  {}

  lemma {:induction false} TermIsExpr(ts: Text, e: Expr)
    requires IsTerm(ts, e)
    ensures IsExpr(ts, e)
  {}

  lemma {:induction false} AndTerm(a: Text, x: Expr, b: Text, y: Expr)
    requires IsFactor(a, x) && IsTerm(b, y)
    ensures IsTerm(a + [And] + b, AndE(x, y))
  {
    hide ParseFactor, ParseOr;
    forall rest: Text | Stops(rest, {And}) ensures ParseAnd(a + [And] + b + rest) == Parsed(AndE(x, y), rest) {
      assert a + [And] + b + rest == a + ([And] + b + rest);
      assert ([And] + b + rest)[1..] == b + rest;
    }
  }

  lemma {:induction false} OrExpr(a: Text, x: Expr, b: Text, y: Expr)
    requires IsTerm(a, x) && IsExpr(b, y)
    ensures IsExpr(a + [Or] + b, OrE(x, y))
  {
    hide ParseFactor, ParseAnd;
    forall rest: Text | Stops(rest, {And, Or}) ensures ParseOr(a + [Or] + b + rest) == Parsed(OrE(x, y), rest) {
      assert a + [Or] + b + rest == a + ([Or] + b + rest);
      assert ([Or] + b + rest)[1..] == b + rest;
    }
  }

  lemma {:induction false} ParenFactor(ts: Text, e: Expr)
    requires IsExpr(ts, e)
    ensures IsFactor([Open] + ts + [Close], e)
  {
    forall rest: Text ensures ParseFactor([Open] + ts + [Close] + rest) == Parsed(e, rest) {
      var all := [Open] + ts + [Close] + rest;
      assert all[1..] == ts + ([Close] + rest);
      assert ([Close] + rest)[1..] == rest;
    }
  }

  lemma {:induction false} ExprParses(ts: Text, e: Expr)
    requires IsExpr(ts, e)
    ensures Parse(ts) == Some(e)
  {
    assert ts + [] == ts;
  }

  // ---------------------------------------------------------------- clauses and what they mean

  /** The factor a clause text reads as. */
  function ExprOf(ts: Text): Expr {
    var r := ParseFactor(ts);
    if r.Parsed? then r.e else FlagE(Outbound)
  }

  /** Every address literal of the text is an address. */
  predicate Spellable(ts: Text) {
    forall i :: 0 <= i < |ts| && ts[i].LitT? && ts[i].lit.AddrLit? ==> IsAddr(ts[i].lit.a)
  }

  /** A clause: a text that reads as one factor wherever it stands. */
  ghost predicate Good(ts: Text) {
    IsFactor(ts, ExprOf(ts)) && Spellable(ts)
  }

  predicate Holds(ts: Text, pkt: Packet) {
    Eval(ExprOf(ts), pkt)
  }

  ghost predicate AllGood(parts: seq<Text>) {
    forall c :: c in parts ==> Good(c)
  }

  predicate AllHold(parts: seq<Text>, pkt: Packet) {
    forall c :: c in parts ==> Holds(c, pkt)
  }

  predicate SomeHolds(parts: seq<Text>, pkt: Packet) {
    exists c :: c in parts && Holds(c, pkt)
  }

  lemma {:induction false} FactorIsGood(ts: Text, e: Expr)
    requires IsFactor(ts, e) && Spellable(ts)
    ensures Good(ts) && ExprOf(ts) == e
  {
    assert ts + [] == ts;
    assert ParseFactor(ts + []) == Parsed(e, []);
  }

  function Join(parts: seq<Text>, sep: Token): Text {
    if parts == [] then []
    else if |parts| == 1 then parts[0]
    else parts[0] + [sep] + Join(parts[1..], sep)
  }

  lemma {:induction false} JoinSpellable(parts: seq<Text>, sep: Token)
    requires AllGood(parts) && (sep == And || sep == Or)
    ensures Spellable(Join(parts, sep)) && Spellable(Parens(Join(parts, sep)))
  {
    hide IsFactor, ExprOf;
    if parts != [] {
      assert Good(parts[0]);
      if |parts| > 1 { JoinSpellable(parts[1..], sep); }
    }
  }

  function AndAll(parts: seq<Text>): Expr
    requires parts != []
  {
    if |parts| == 1 then ExprOf(parts[0]) else AndE(ExprOf(parts[0]), AndAll(parts[1..]))
  }

  function OrAll(parts: seq<Text>): Expr
    requires parts != []
  {
    if |parts| == 1 then ExprOf(parts[0]) else OrE(ExprOf(parts[0]), OrAll(parts[1..]))
  }

  lemma {:induction false} JoinAnd(parts: seq<Text>)
    requires parts != [] && AllGood(parts)
    ensures IsTerm(Join(parts, And), AndAll(parts))
  {
    hide ParseFactor, ParseAnd, IsFactor, IsTerm, ExprOf;
    assert parts[0] in parts;
    if |parts| == 1 {
      FactorIsTerm(parts[0], ExprOf(parts[0]));
    } else {
      JoinAnd(parts[1..]);
      AndTerm(parts[0], ExprOf(parts[0]), Join(parts[1..], And), AndAll(parts[1..]));
    }
  }

  lemma {:induction false} JoinOr(parts: seq<Text>)
    requires parts != [] && AllGood(parts)
    ensures IsExpr(Join(parts, Or), OrAll(parts))
  {
    hide ParseFactor, ParseAnd, ParseOr, IsFactor, IsTerm, IsExpr, ExprOf;
    assert parts[0] in parts;
    FactorIsTerm(parts[0], ExprOf(parts[0]));
    if |parts| == 1 {
      TermIsExpr(parts[0], ExprOf(parts[0]));
    } else {
      JoinOr(parts[1..]);
      OrExpr(parts[0], ExprOf(parts[0]), Join(parts[1..], Or), OrAll(parts[1..]));
    }
  }

  lemma {:induction false} AllHoldAppend(a: seq<Text>, b: seq<Text>, pkt: Packet)
    ensures AllHold(a + b, pkt) <==> AllHold(a, pkt) && AllHold(b, pkt)
    ensures |a| == 1 ==> (AllHold(a, pkt) <==> Holds(a[0], pkt))
  {
    hide Holds;
  }

  lemma {:induction false} SomeHoldsAppend(a: seq<Text>, b: seq<Text>, pkt: Packet)
    ensures SomeHolds(a + b, pkt) <==> SomeHolds(a, pkt) || SomeHolds(b, pkt)
    ensures |a| == 1 ==> (SomeHolds(a, pkt) <==> Holds(a[0], pkt))
  {
    hide Holds;
    assert |a| == 1 ==> a[0] in a;
    forall c | c in a + b ensures c in a || c in b {}
    forall c | c in a || c in b ensures c in a + b {}
  }

  lemma {:induction false} EvalAndAll(parts: seq<Text>, pkt: Packet)
    requires parts != []
    ensures Eval(AndAll(parts), pkt) <==> AllHold(parts, pkt)
  {
    hide ExprOf;
    assert parts == [parts[0]] + parts[1..];
    AllHoldAppend([parts[0]], parts[1..], pkt);
    if |parts| > 1 { EvalAndAll(parts[1..], pkt); }
  }

  lemma {:induction false} EvalOrAll(parts: seq<Text>, pkt: Packet)
    requires parts != []
    ensures Eval(OrAll(parts), pkt) <==> SomeHolds(parts, pkt)
  {
    hide ExprOf;
    assert parts == [parts[0]] + parts[1..];
    SomeHoldsAppend([parts[0]], parts[1..], pkt);
    if |parts| > 1 { EvalOrAll(parts[1..], pkt); }
  }

  function Parens(ts: Text): Text {
    [Open] + ts + [Close]
  }

  /** "(a and b and ...)" is a clause that holds when all its parts do. */
  lemma {:induction false} AndClause(parts: seq<Text>)
    requires parts != [] && AllGood(parts)
    ensures Good(Parens(Join(parts, And)))
    ensures forall pkt :: Holds(Parens(Join(parts, And)), pkt) <==> AllHold(parts, pkt)
  {
    hide ParseFactor, ParseAnd, ParseOr, IsFactor, IsTerm, IsExpr, Good, AllHold;
    var ts, e := Join(parts, And), AndAll(parts);
    JoinAnd(parts);
    TermIsExpr(ts, e);
    ParenFactor(ts, e);
    JoinSpellable(parts, And);
    FactorIsGood(Parens(ts), e);
    hide ExprOf;
    forall pkt ensures Holds(Parens(ts), pkt) <==> AllHold(parts, pkt) { EvalAndAll(parts, pkt); }
  }

  lemma {:induction false} OrClause(parts: seq<Text>)
    requires parts != [] && AllGood(parts)
    ensures Good(Parens(Join(parts, Or)))
    ensures forall pkt :: Holds(Parens(Join(parts, Or)), pkt) <==> SomeHolds(parts, pkt)
  {
    hide ParseFactor, ParseAnd, ParseOr, IsFactor, IsTerm, IsExpr, Good, SomeHolds;
    var ts, e := Join(parts, Or), OrAll(parts);
    JoinOr(parts);
    ParenFactor(ts, e);
    JoinSpellable(parts, Or);
    FactorIsGood(Parens(ts), e);
    hide ExprOf;
    forall pkt ensures Holds(Parens(ts), pkt) <==> SomeHolds(parts, pkt) { EvalOrAll(parts, pkt); }
  }

  /** A whole filter: its clauses joined by "and". */
  lemma {:induction false} FilterCaptures(parts: seq<Text>)
    requires parts != [] && AllGood(parts)
    ensures Spellable(Join(parts, And))
    ensures forall pkt :: Captures(Join(parts, And), pkt) <==> AllHold(parts, pkt)
  {
    JoinSpellable(parts, And);
    hide ParseFactor, ParseAnd, ParseOr, IsFactor, IsTerm, IsExpr, Parse, AllHold, ExprOf;
    var ts, e := Join(parts, And), AndAll(parts);
    JoinAnd(parts);
    TermIsExpr(ts, e);
    ExprParses(ts, e);
    forall pkt ensures Captures(ts, pkt) <==> AllHold(parts, pkt) { EvalAndAll(parts, pkt); }
  }

  lemma {:induction false} FlagClause(flag: Flag)
    ensures Good([FlagT(flag)])
    ensures forall pkt :: Holds([FlagT(flag)], pkt) <==> HasFlag(flag, pkt)
  {
    FlagFactor(flag);
    FactorIsGood([FlagT(flag)], FlagE(flag));
  }

  lemma {:induction false} TestClause(field: Field, cmp: Cmp, lit: Literal)
    requires lit.AddrLit? ==> IsAddr(lit.a)
    ensures Good(TestText(field, cmp, lit))
    ensures ExprOf(TestText(field, cmp, lit)) == Test(field, cmp, lit)
  {
    TestFactor(field, cmp, lit);
    FactorIsGood(TestText(field, cmp, lit), Test(field, cmp, lit));
  }

  // ---------------------------------------------------------------- the compiler

  function DstField(p: Prefix): Field {
    if |p.addr| == 16 then Ipv6Dst else IpDst
  }

  /** `c` keeps exactly the packets of the prefix's family that lie outside the prefix. */
  ghost predicate KeepsOut(c: Text, p: Prefix)
    requires p.Valid()
  {
    forall pkt: Packet :: |pkt.dst| == |p.addr| ==> (Holds(c, pkt) <==> !p.Contains(pkt.dst))
  }

  /** "addr != x" for a single address, "(addr < lo or addr > hi)" otherwise. */
  method NotIn(p: Prefix) returns (c: Text)
    requires p.Valid()
    ensures Good(c) && KeepsOut(c, p)
  {
    hide ParseFactor, ParseAnd, ParseOr, IsFactor, Number, Bits;
    var field := DstField(p);
    if p.IsSingleIP() {
      c := TestText(field, Ne, AddrLit(p.addr));
      TestClause(field, Ne, AddrLit(p.addr));
      hide ExprOf;
      forall pkt: Packet | |pkt.dst| == |p.addr| ensures Holds(c, pkt) <==> !p.Contains(pkt.dst) {
        SingleContains(p, pkt.dst);
      }
      return;
    }
    var lo, hi := PrefixRange(p);
    var below, above := TestText(field, Lt, AddrLit(lo)), TestText(field, Gt, AddrLit(hi));
    TestClause(field, Lt, AddrLit(lo));
    TestClause(field, Gt, AddrLit(hi));
    var parts := [below, above];
    c := Parens(Join(parts, Or));
    OrClause(parts);
    hide ExprOf;
    forall pkt: Packet | |pkt.dst| == |p.addr| ensures Holds(c, pkt) <==> !p.Contains(pkt.dst) {
      RangeIsPrefix(p, lo, hi, pkt.dst);
      assert SomeHolds(parts, pkt) <==> Holds(parts[0], pkt) || Holds(parts[1], pkt);
    }
  }

  lemma {:induction false} SingleContains(p: Prefix, a: Octets)
    requires p.Valid() && p.IsSingleIP() && |a| == |p.addr|
    ensures p.Contains(a) <==> Number(a) == Number(p.addr)
  {
    NumberInjective(a, p.addr);
    assert Bits(a)[..p.bits] == Bits(a) && Bits(p.addr)[..p.bits] == Bits(p.addr);
  }

  function Family(fam: Flag, clauses: seq<Text>): Text {
    if clauses == [] then [FlagT(fam)] else Parens([FlagT(fam)] + [And] + Join(clauses, And))
  }

  lemma {:induction false} FamilyClause(fam: Flag, clauses: seq<Text>)
    requires AllGood(clauses)
    ensures Good(Family(fam, clauses))
    ensures forall pkt :: Holds(Family(fam, clauses), pkt) <==> HasFlag(fam, pkt) && AllHold(clauses, pkt)
  {
    hide ParseFactor, ParseAnd, ParseOr, IsFactor, ExprOf, Good, Holds, HasFlag;
    FlagClause(fam);
    if clauses != [] {
      var parts := [[FlagT(fam)]] + clauses;
      assert parts[1..] == clauses && parts[0] == [FlagT(fam)];
      AndClause(parts);
      forall pkt ensures AllHold(parts, pkt) <==> Holds(parts[0], pkt) && AllHold(clauses, pkt) {}
    }
  }

  function ProtoClause(cfg: CaptureConfig): Option<Text> {
    if cfg.tcp && cfg.udp then Some(Parens(Join([[FlagT(IsTcp)], [FlagT(IsUdp)]], Or)))
    else if cfg.tcp then Some([FlagT(IsTcp)])
    else if cfg.udp then Some([FlagT(IsUdp)])
    else None
  }

  lemma {:induction false} ProtoClauseMeans(cfg: CaptureConfig)
    requires ProtoClause(cfg).Some?
    ensures Good(ProtoClause(cfg).value)
    ensures forall pkt :: Holds(ProtoClause(cfg).value, pkt) <==>
                          (cfg.tcp && pkt.transport.Tcp?) || (cfg.udp && pkt.transport.Udp?)
  {
    hide ParseFactor, ParseAnd, ParseOr, IsFactor, ExprOf, Good, Holds;
    FlagClause(IsTcp);
    FlagClause(IsUdp);
    if cfg.tcp && cfg.udp {
      var parts := [[FlagT(IsTcp)], [FlagT(IsUdp)]];
      OrClause(parts);
      forall pkt ensures SomeHolds(parts, pkt) <==> Holds(parts[0], pkt) || Holds(parts[1], pkt) {}
    }
  }

  /** Some port of `ports` is the packet's, of a protocol that counts. */
  predicate PortAmong(tcp: bool, udp: bool, ports: seq<nat>, pkt: Packet) {
    || (tcp && pkt.transport.Tcp? && pkt.transport.port in ports)
    || (udp && pkt.transport.Udp? && pkt.transport.port in ports)
  }

  ghost predicate PortClauses(cl: seq<Text>, tcp: bool, udp: bool, ports: seq<nat>) {
    AllGood(cl) && forall pkt :: SomeHolds(cl, pkt) <==> PortAmong(tcp, udp, ports, pkt)
  }

  lemma {:induction false} AddPort(cl: seq<Text>, tcp: bool, udp: bool, ports: seq<nat>, n: nat, more: seq<Text>)
    requires PortClauses(cl, tcp, udp, ports)
    requires more == (if tcp then [TestText(TcpDstPort, Eq, PortLit(n))] else [])
                     + (if udp then [TestText(UdpDstPort, Eq, PortLit(n))] else [])
    ensures PortClauses(cl + more, tcp, udp, ports + [n])
  {
    hide ParseFactor, ParseAnd, ParseOr, IsFactor, Good;
    TestClause(TcpDstPort, Eq, PortLit(n));
    TestClause(UdpDstPort, Eq, PortLit(n));
    hide ExprOf;
    forall pkt ensures SomeHolds(cl + more, pkt) <==> PortAmong(tcp, udp, ports + [n], pkt) {
      assert SomeHolds(cl + more, pkt) <==> SomeHolds(cl, pkt) || SomeHolds(more, pkt);
      assert tcp ==> more[0] in more;
      assert udp ==> more[|more|-1] in more;
      assert SomeHolds(more, pkt) <==>
             (tcp && Holds(TestText(TcpDstPort, Eq, PortLit(n)), pkt)) ||
             (udp && Holds(TestText(UdpDstPort, Eq, PortLit(n)), pkt));
    }
  }

  /** "(tcp.DstPort == a or udp.DstPort == a or ...)". */
  method PortClause(cfg: CaptureConfig) returns (c: Text)
    requires cfg.ports != []
    ensures Good(c)
    ensures forall pkt :: Holds(c, pkt) <==>
                          PortAmong(cfg.tcp || !cfg.udp, cfg.udp || !cfg.tcp, cfg.ports, pkt)
  {
    hide ParseFactor, ParseAnd, ParseOr, IsFactor, ExprOf, Good, Holds;
    var tcp := cfg.tcp || (!cfg.tcp && !cfg.udp);
    var udp := cfg.udp || (!cfg.tcp && !cfg.udp);
    var cl: seq<Text> := [];
    var i := 0;
    assert PortClauses(cl, tcp, udp, cfg.ports[..0]);
    while i < |cfg.ports|
      invariant 0 <= i <= |cfg.ports|
      invariant PortClauses(cl, tcp, udp, cfg.ports[..i])
      invariant i > 0 ==> cl != []
    {
      var n := cfg.ports[i];
      ghost var was := cl;
      if tcp { cl := cl + [TestText(TcpDstPort, Eq, PortLit(n))]; }
      if udp { cl := cl + [TestText(UdpDstPort, Eq, PortLit(n))]; }
      ghost var more := (if tcp then [TestText(TcpDstPort, Eq, PortLit(n))] else [])
                        + (if udp then [TestText(UdpDstPort, Eq, PortLit(n))] else []);
      assert cl == was + more;
      AddPort(was, tcp, udp, cfg.ports[..i], n, more);
      assert cfg.ports[..i+1] == cfg.ports[..i] + [n];
      i := i + 1;
    }
    assert cfg.ports[..i] == cfg.ports;
    c := Parens(Join(cl, Or));
    OrClause(cl);
  }

  /** `ex` keeps out exactly the `width`-octet destinations inside some prefix of `ps`. */
  ghost predicate Excludes(ex: seq<Text>, ps: seq<Prefix>, width: nat) {
    && AllGood(ex)
    && (forall p :: p in ps ==> p.Valid())
    && (forall pkt: Packet :: |pkt.dst| == width ==>
          (AllHold(ex, pkt) <==> forall p :: p in ps ==> !p.Contains(pkt.dst)))
  }

  lemma {:induction false} ExcludesMore(ex: seq<Text>, ps: seq<Prefix>, width: nat, c: Text, p: Prefix)
    requires Excludes(ex, ps, width) && p.Valid() && |p.addr| == width && Good(c) && KeepsOut(c, p)
    ensures Excludes(ex + [c], ps + [p], width)
  {
    hide ExprOf, IsFactor, Good, Holds;
    forall pkt: Packet | |pkt.dst| == width
      ensures AllHold(ex + [c], pkt) <==> forall q :: q in ps + [p] ==> !q.Contains(pkt.dst)
    {
      assert AllHold(ex + [c], pkt) <==> AllHold(ex, pkt) && Holds(c, pkt);
    }
  }

  lemma {:induction false} ExcludesForeign(ex: seq<Text>, ps: seq<Prefix>, width: nat, p: Prefix)
    requires Excludes(ex, ps, width) && p.Valid() && |p.addr| != width
    ensures Excludes(ex, ps + [p], width)
  {
    forall pkt: Packet | |pkt.dst| == width
      ensures AllHold(ex, pkt) <==> forall q :: q in ps + [p] ==> !q.Contains(pkt.dst)
    {}
  }

  lemma {:induction false} ExcludesReordered(ex: seq<Text>, sorted: seq<Text>, ps: seq<Prefix>, width: nat)
    requires Excludes(ex, ps, width) && multiset(sorted) == multiset(ex)
    ensures Excludes(sorted, ps, width)
  {
    hide ExprOf, Good, Holds;
    forall c ensures c in sorted <==> c in ex {
      assert c in multiset(sorted) <==> c in multiset(ex);
    }
    forall pkt: Packet ensures AllHold(sorted, pkt) <==> AllHold(ex, pkt) {}
  }

  ghost predicate TotalOrder(le: (Text, Text) -> bool) {
    && (forall a, b :: le(a, b) || le(b, a))
    && (forall a, b, c :: le(a, b) && le(b, c) ==> le(a, c))
  }

  ghost predicate InOrder(s: seq<Text>, le: (Text, Text) -> bool) {
    forall i, j :: 0 <= i < j < |s| ==> le(s[i], s[j])
  }

  lemma {:induction false} InsertInOrder(s: seq<Text>, x: Text, n: nat, le: (Text, Text) -> bool)
    requires TotalOrder(le) && InOrder(s, le) && n <= |s|
    requires (forall k :: 0 <= k < n ==> le(s[k], x)) && (n < |s| ==> !le(s[n], x))
    ensures InOrder(s[..n] + [x] + s[n..], le)
  {
    forall k | n <= k < |s| ensures le(x, s[k]) {
      assert le(x, s[n]) && (k > n ==> le(s[n], s[k]));
    }
  }

  /** sort.Strings, for whatever order `le` the rendered clauses have. */
  method SortStrings(xs: seq<Text>, le: (Text, Text) -> bool) returns (ys: seq<Text>)
    ensures multiset(ys) == multiset(xs) && (TotalOrder(le) ==> InOrder(ys, le))
  {
    hide TotalOrder, InOrder;
    ys := [];
    NoneInOrder(le);
    var i := 0;
    while i < |xs|
      invariant 0 <= i <= |xs| && multiset(ys) == multiset(xs[..i])
      invariant TotalOrder(le) ==> InOrder(ys, le)
    {
      var j := 0;
      while j < |ys| && le(ys[j], xs[i])
        invariant 0 <= j <= |ys| && forall k :: 0 <= k < j ==> le(ys[k], xs[i])
      {
        j := j + 1;
      }
      if TotalOrder(le) { InsertInOrder(ys, xs[i], j, le); }
      assert ys == ys[..j] + ys[j..];
      assert xs[..i+1] == xs[..i] + [xs[i]];
      ys := ys[..j] + [xs[i]] + ys[j..];
      i := i + 1;
    }
    assert xs[..i] == xs;
  }

  lemma {:induction false} NoneInOrder(le: (Text, Text) -> bool)
    ensures InOrder([], le)
  {}

  /** The exclusions of one family each, in the order of the bypass list. */
  method Exclusions(bypass: seq<Prefix>) returns (v4ex: seq<Text>, v6ex: seq<Text>)
    requires forall p :: p in bypass ==> p.Valid()
    ensures Excludes(v4ex, bypass, 4) && Excludes(v6ex, bypass, 16)
  {
    hide ExprOf, Good, Holds;
    v4ex, v6ex := [], [];
    var i := 0;
    while i < |bypass|
      invariant 0 <= i <= |bypass|
      invariant Excludes(v4ex, bypass[..i], 4) && Excludes(v6ex, bypass[..i], 16)
    {
      var p := bypass[i];
      var c := NotIn(p);
      hide Excludes;
      assert bypass[..i+1] == bypass[..i] + [p];
      if |p.addr| == 16 {
        ExcludesMore(v6ex, bypass[..i], 16, c, p);
        ExcludesForeign(v4ex, bypass[..i], 4, p);
        v6ex := v6ex + [c];
      } else {
        ExcludesMore(v4ex, bypass[..i], 4, c, p);
        ExcludesForeign(v6ex, bypass[..i], 16, p);
        v4ex := v4ex + [c];
      }
      i := i + 1;
    }
    assert bypass[..i] == bypass;
  }

  /** The family part of the filter: the packets of an enabled family outside its exclusions. */
  method FamilyPart(v4: bool, v6: bool, v4ex: seq<Text>, v6ex: seq<Text>) returns (c: Text)
    requires (v4 || v6) && AllGood(v4ex) && AllGood(v6ex)
    ensures Good(c)
    ensures forall pkt :: Holds(c, pkt) <==>
                          (v4 && |pkt.dst| == 4 && AllHold(v4ex, pkt)) || (v6 && |pkt.dst| == 16 && AllHold(v6ex, pkt))
  {
    hide ParseFactor, ParseAnd, ParseOr, IsFactor, ExprOf, Good, Holds, AllHold;
    FamilyClause(IsIp, v4ex);
    FamilyClause(IsIpv6, v6ex);
    var fams: seq<Text> := [];
    if v4 { fams := fams + [Family(IsIp, v4ex)]; }
    if v6 { fams := fams + [Family(IsIpv6, v6ex)]; }
    c := Join(fams, Or);
    if |fams| > 1 {
      assert fams == [Family(IsIp, v4ex), Family(IsIpv6, v6ex)];
      OrClause(fams);
      c := Parens(c);
      forall pkt ensures SomeHolds(fams, pkt) <==> Holds(fams[0], pkt) || Holds(fams[1], pkt) {}
    }
  }

  /**
   For every configuration and every packet: the text, as the driver parses it, captures
   exactly the packets the configuration asks for, in whatever order the clauses are sorted.
   */
  method BuildFilter(cfg: CaptureConfig, le: (Text, Text) -> bool) returns (ts: Text)
    requires cfg.Valid()
    ensures Spellable(ts)
    ensures forall pkt: Packet :: pkt.Valid() ==> (Captures(ts, pkt) <==> Wanted(cfg, pkt))
  {
    hide ParseFactor, ParseAnd, ParseOr, IsFactor, ExprOf, Good, Holds, Captures;
    var v4, v6 := cfg.v4, cfg.v6;
    if !v4 && !v6 { v4, v6 := true, true; }
    var v4ex, v6ex := Exclusions(cfg.bypass);
    var s4 := SortStrings(v4ex, le);
    var s6 := SortStrings(v6ex, le);
    ExcludesReordered(v4ex, s4, cfg.bypass, 4);
    ExcludesReordered(v6ex, s6, cfg.bypass, 16);
    var fam := FamilyPart(v4, v6, s4, s6);
    FlagClause(Outbound);
    var protoParts, portParts: seq<Text> := [], [];
    var proto := ProtoClause(cfg);
    if proto.Some? {
      ProtoClauseMeans(cfg);
      protoParts := [proto.value];
    }
    if |cfg.ports| > 0 {
      var pc := PortClause(cfg);
      portParts := [pc];
    }
    var out := [FlagT(Outbound)];
    var parts := [out] + protoParts + portParts + [fam];
    ts := Join(parts, And);
    FilterCaptures(parts);
    forall pkt: Packet | pkt.Valid() ensures Captures(ts, pkt) <==> Wanted(cfg, pkt) {
      AllHoldAppend([out] + protoParts + portParts, [fam], pkt);
      AllHoldAppend([fam], [], pkt);
      AllHoldAppend([out] + protoParts, portParts, pkt);
      AllHoldAppend([out], protoParts, pkt);
      AllHoldAppend(protoParts, [], pkt);
      AllHoldAppend(portParts, [], pkt);
      hide AllHold;
      assert AllHold(protoParts, pkt) <==>
             (cfg.tcp || cfg.udp ==> (cfg.tcp && pkt.transport.Tcp?) || (cfg.udp && pkt.transport.Udp?));
    }
  }
}
