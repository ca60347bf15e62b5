/**
 The filter as characters: how the tokens of a filter are spelled in the text that
 internal/packet/windivert/filter.go hands to the driver, and how the driver reads them back.

 How an address is written is a parameter: anything that can be read back, of digits, hexadecimal
 letters, dots and colons.
 */
module FilterText {
  import opened Basics
  import opened GoStrings
  import opened AddrBits
  import opened CaptureFilter

  datatype Format = Format(show: Octets -> string, read: string -> Option<Octets>)

  predicate AddrChar(c: char) {
    '0' <= c <= '9' || 'a' <= c <= 'f' || c == '.' || c == ':'
  }

  /** What an address may look like: never like a word of the language, nor like a number. */
  ghost predicate LooksLikeAddr(s: string) {
    (forall i :: 0 <= i < |s| ==> AddrChar(s[i])) && exists i :: 0 <= i < |s| && (s[i] == '.' || s[i] == ':')
  }

  /** Addresses are written so that they can be read back. */
  ghost predicate Proper(f: Format) {
    forall a: Octets :: IsAddr(a) ==> LooksLikeAddr(f.show(a)) && f.read(f.show(a)) == Some(a)
  }

  // ---------------------------------------------------------------- spelling

  function FlagWord(flag: Flag): string {
    match flag
    case Outbound => "outbound"
    case IsTcp => "tcp"
    case IsUdp => "udp"
    case IsIp => "ip"
    case IsIpv6 => "ipv6"
  }

  function FieldWord(field: Field): string {
    match field
    case IpDst => "ip.DstAddr"
    case Ipv6Dst => "ipv6.DstAddr"
    case TcpDstPort => "tcp.DstPort"
    case UdpDstPort => "udp.DstPort"
  }

  function CmpWord(cmp: Cmp): string {
    match cmp
    case Eq => "=="
    case Ne => "!="
    case Lt => "<"
    case Gt => ">"
  }

  function Word(f: Format, t: Token): string {
    match t
    case And => "and"
    case Or => "or"
    case Open => "("
    case Close => ")"
    case FlagT(flag) => FlagWord(flag)
    case FieldT(field) => FieldWord(field)
    case CmpT(cmp) => CmpWord(cmp)
    case LitT(PortLit(n)) => Itoa(n)
    case LitT(AddrLit(a)) => f.show(a)
  }

  /** One space between words, none inside a parenthesis. */
  function Gap(x: Token, y: Token): string {
    if x == Open || y == Close then "" else " "
  }

  function Spell(f: Format, ts: Text): string {
    if ts == [] then ""
    else if |ts| == 1 then Word(f, ts[0])
    else Word(f, ts[0]) + Gap(ts[0], ts[1]) + Spell(f, ts[1..])
  }

  // ---------------------------------------------------------------- reading

  predicate IsBreak(c: char) {
    c == ' ' || c == '(' || c == ')'
  }

  function Keyword(w: string): Option<Token> {
    if w == "and" then Some(And)
    else if w == "or" then Some(Or)
    else if w == "outbound" then Some(FlagT(Outbound))
    else if w == "tcp" then Some(FlagT(IsTcp))
    else if w == "udp" then Some(FlagT(IsUdp))
    else if w == "ip" then Some(FlagT(IsIp))
    else if w == "ipv6" then Some(FlagT(IsIpv6))
    else if w == "ip.DstAddr" then Some(FieldT(IpDst))
    else if w == "ipv6.DstAddr" then Some(FieldT(Ipv6Dst))
    else if w == "tcp.DstPort" then Some(FieldT(TcpDstPort))
    else if w == "udp.DstPort" then Some(FieldT(UdpDstPort))
    else if w == "==" then Some(CmpT(Eq))
    else if w == "!=" then Some(CmpT(Ne))
    else if w == "<" then Some(CmpT(Lt))
    else if w == ">" then Some(CmpT(Gt))
    else None
  }

  function TokenOf(f: Format, w: string): Option<Token> {
    if Keyword(w).Some? then Keyword(w)
    else if IsDigits(w) then Some(LitT(PortLit(Digits(w))))
    else if f.read(w).Some? then Some(LitT(AddrLit(f.read(w).value)))
    else None
  }

  function WordLen(s: string): (n: nat)
    ensures n <= |s|
  {
    if s == "" || IsBreak(s[0]) then 0 else 1 + WordLen(s[1..])
  }

  function Cons(t: Option<Token>, rest: Option<Text>): Option<Text> {
    if t.None? || rest.None? then None else Some([t.value] + rest.value)
  }

  function Lex(f: Format, s: string): Option<Text>
    decreases |s|
  {
    if s == "" then Some([])
    else if s[0] == ' ' then Lex(f, s[1..])
    else if s[0] == '(' then Cons(Some(Open), Lex(f, s[1..]))
    else if s[0] == ')' then Cons(Some(Close), Lex(f, s[1..]))
    else
      var n := WordLen(s);
      assert n > 0;
      Cons(TokenOf(f, s[..n]), Lex(f, s[n..]))
  }

  /** What the driver does with a filter given as characters. */
  predicate TextCaptures(f: Format, s: string, pkt: Packet) {
    Lex(f, s).Some? && Captures(Lex(f, s).value, pkt)
  }

  // ---------------------------------------------------------------- words are read back

  predicate Solid(w: string) {
    w != "" && forall i :: 0 <= i < |w| ==> !IsBreak(w[i])
  }

  /** A keyword holds a letter or a sign that no number and no address holds. */
  lemma {:induction false} NoKeyword(w: string)
    requires forall i :: 0 <= i < |w| ==> AddrChar(w[i])
    ensures Keyword(w).None?
  {
    assert forall i :: 0 <= i < |w| ==> w[i] !in "nroutpvDst=!<>";
    assert "and"[1] == 'n' && "or"[0] == 'o' && "outbound"[0] == 'o' && "tcp"[0] == 't' && "udp"[0] == 'u';
    assert "ip"[1] == 'p' && "ipv6"[1] == 'p' && "ip.DstAddr"[1] == 'p' && "ipv6.DstAddr"[1] == 'p';
    assert "tcp.DstPort"[0] == 't' && "udp.DstPort"[0] == 'u';
    assert "=="[0] == '=' && "!="[0] == '!' && "<"[0] == '<' && ">"[0] == '>';
  }

  predicate Bracket(t: Token) {
    t == Open || t == Close
  }

  lemma {:induction false} FixedWord(f: Format, t: Token)
    requires !t.LitT? && !Bracket(t)
    ensures Solid(Word(f, t)) && Keyword(Word(f, t)) == Some(t)
  {}

  /** The lexer reads every word back as its token. */
  lemma {:induction false} WordReads(f: Format, t: Token)
    requires Proper(f) && Spellable([t]) && !Bracket(t)
    ensures Solid(Word(f, t)) && TokenOf(f, Word(f, t)) == Some(t)
  {
    hide Keyword, Itoa, Digits;
    match t
    case LitT(PortLit(n)) =>
      DigitsOfItoa(n);
      NoKeyword(Itoa(n));
    case LitT(AddrLit(a)) =>
      assert [t][0] == t;
      NoKeyword(f.show(a));
    case _ => FixedWord(f, t);
  }

  lemma {:induction false} WordEnds(w: string, rest: string)
    requires Solid(w) && (rest == "" || IsBreak(rest[0]))
    ensures WordLen(w + rest) == |w|
  {
    assert (w + rest)[1..] == w[1..] + rest;
    if |w| > 1 { WordEnds(w[1..], rest); } else { assert w[1..] + rest == rest; }
  }

  lemma {:induction false} LexWord(f: Format, t: Token, rest: string)
    requires Proper(f) && Spellable([t])
    requires Bracket(t) || rest == "" || IsBreak(rest[0])
    ensures Lex(f, Word(f, t) + rest) == Cons(Some(t), Lex(f, rest))
  {
    var w := Word(f, t);
    if Bracket(t) {
      assert (w + rest)[1..] == rest;
    } else {
      WordReads(f, t);
      WordEnds(w, rest);
      assert (w + rest)[..|w|] == w && (w + rest)[|w|..] == rest && (w + rest)[0] == w[0];
      hide TokenOf, Word;
    }
  }

  /** What is spelled is read back, token by token. */
  lemma {:induction false} LexSpell(f: Format, ts: Text)
    requires Proper(f) && Spellable(ts)
    ensures Lex(f, Spell(f, ts)) == Some(ts)
  {
    hide Proper, Lex, Spell, Word;
    LexNothing(f);
    if ts != [] {
      var t, rest := ts[0], ts[1..];
      assert ts == [t] + rest && Spellable([t]) && Spellable(rest);
      LexSpell(f, rest);
      SpellOne(f, t);
      if rest == [] {
        assert Word(f, t) + "" == Word(f, t) && [t] + [] == [t];
        LexWord(f, t, "");
      } else {
        FirstOf(f, rest);
        SpellTwo(f, [t], rest);
        var gap := Gap(t, rest[0]);
        assert Word(f, t) + gap + Spell(f, rest) == Word(f, t) + (gap + Spell(f, rest));
        LexWord(f, t, gap + Spell(f, rest));
        LexGap(f, gap, Spell(f, rest));
      }
    }
  }

  lemma {:induction false} LexNothing(f: Format)
    ensures Lex(f, "") == Some([]) && Spell(f, []) == ""
  {}

  lemma {:induction false} LexGap(f: Format, gap: string, s: string)
    requires gap == "" || gap == " "
    ensures Lex(f, gap + s) == Lex(f, s)
  {
    if gap == "" { assert gap + s == s; } else { assert (gap + s)[1..] == s; }
  }

  lemma {:induction false} FirstOf(f: Format, ts: Text)
    requires ts != []
    ensures ts[0] == Close ==> Spell(f, ts) != "" && Spell(f, ts)[0] == ')'
  {}

  // ---------------------------------------------------------------- the spelling is that of the source

  lemma {:induction false} SpellTwo(f: Format, a: Text, b: Text)
    requires a != [] && b != []
    ensures Spell(f, a + b) == Spell(f, a) + Gap(a[|a|-1], b[0]) + Spell(f, b)
    decreases |a|
  {
    hide Word, Gap;
    if |a| == 1 {
      assert (a + b)[1..] == b;
    } else {
      var rest := a[1..];
      assert (a + b)[1..] == rest + b && (a + b)[1] == a[1] == rest[0];
      SpellTwo(f, rest, b);
      var x, g := Word(f, a[0]) + Gap(a[0], a[1]), Gap(a[|a|-1], b[0]);
      assert x + Spell(f, rest) + g + Spell(f, b) == x + (Spell(f, rest) + g + Spell(f, b));
    }
  }

  /** `field + " " + sign + " " + literal`. */
  lemma {:induction false} SpellTest(f: Format, field: Field, cmp: Cmp, lit: Literal)
    ensures Spell(f, TestText(field, cmp, lit)) ==
            FieldWord(field) + " " + CmpWord(cmp) + " " + Word(f, LitT(lit))
  {
    var ts := TestText(field, cmp, lit);
    assert ts == [FieldT(field)] + [CmpT(cmp)] + [LitT(lit)];
    SpellTwo(f, [FieldT(field)] + [CmpT(cmp)], [LitT(lit)]);
    SpellTwo(f, [FieldT(field)], [CmpT(cmp)]);
  }

  lemma {:induction false} SpellOne(f: Format, t: Token)
    ensures Spell(f, [t]) == Word(f, t)
  {}

  /** `a + " and " + b`, `a + " or " + b`. */
  lemma {:induction false} SpellJoined(f: Format, a: Text, sep: Token, b: Text)
    requires a != [] && b != [] && a[|a|-1] != Open && b[0] != Close && (sep == And || sep == Or)
    ensures Spell(f, a + [sep] + b) == Spell(f, a) + " " + (if sep == And then "and" else "or") + " " + Spell(f, b)
  {
    hide Spell;
    SpellTwo(f, a + [sep], b);
    SpellTwo(f, a, [sep]);
    SpellOne(f, sep);
  }

  /** `"(" + ts + ")"`. */
  lemma {:induction false} SpellParens(f: Format, ts: Text)
    requires ts != []
    ensures Spell(f, Parens(ts)) == "(" + Spell(f, ts) + ")"
  {
    SpellTwo(f, [Open] + ts, [Close]);
    SpellTwo(f, [Open], ts);
  }

  /** A range kept out: "(ip.DstAddr < lo or ip.DstAddr > hi)". */
  function OutOf(lo: Octets, hi: Octets): Text {
    Parens(TestText(IpDst, Lt, AddrLit(lo)) + [Or] + TestText(IpDst, Gt, AddrLit(hi)))
  }

  lemma {:induction false} RangeSpelledOut(f: Format, lo: Octets, hi: Octets)
    ensures Spell(f, OutOf(lo, hi)) == "(ip.DstAddr < " + f.show(lo) + " or ip.DstAddr > " + f.show(hi) + ")"
  {
    hide Spell;
    var below, above := TestText(IpDst, Lt, AddrLit(lo)), TestText(IpDst, Gt, AddrLit(hi));
    SpellTest(f, IpDst, Lt, AddrLit(lo));
    SpellTest(f, IpDst, Gt, AddrLit(hi));
    SpellJoined(f, below, Or, above);
    SpellParens(f, below + [Or] + above);
    assert Spell(f, below) == "ip.DstAddr < " + f.show(lo) && Spell(f, above) == "ip.DstAddr > " + f.show(hi);
    Spaced(f.show(lo), f.show(hi));
  }

  lemma {:induction false} Spaced(lo: string, hi: string)
    ensures "(" + (("ip.DstAddr < " + lo) + " " + "or" + " " + ("ip.DstAddr > " + hi)) + ")" ==
            "(ip.DstAddr < " + lo + " or ip.DstAddr > " + hi + ")"
  {}

  lemma {:induction false} ProtosSpelledOut(f: Format)
    ensures Spell(f, Parens([FlagT(IsTcp)] + [Or] + [FlagT(IsUdp)])) == "(tcp or udp)"
  {
    hide Spell;
    SpellOne(f, FlagT(IsTcp));
    SpellOne(f, FlagT(IsUdp));
    SpellJoined(f, [FlagT(IsTcp)], Or, [FlagT(IsUdp)]);
    SpellParens(f, [FlagT(IsTcp)] + [Or] + [FlagT(IsUdp)]);
  }

  lemma {:induction false} FamiliesSpelledOut(f: Format, ex: Text)
    requires ex != [] && ex[0] != Close
    ensures Spell(f, Parens(Parens([FlagT(IsIp)] + [And] + ex) + [Or] + [FlagT(IsIpv6)])) ==
            "((ip and " + Spell(f, ex) + ") or ipv6)"
  {
    hide Spell;
    SpellOne(f, FlagT(IsIp));
    SpellJoined(f, [FlagT(IsIp)], And, ex);
    SpellParens(f, [FlagT(IsIp)] + [And] + ex);
    var ip := Parens([FlagT(IsIp)] + [And] + ex);
    SpellOne(f, FlagT(IsIpv6));
    SpellJoined(f, ip, Or, [FlagT(IsIpv6)]);
    SpellParens(f, ip + [Or] + [FlagT(IsIpv6)]);
  }

  /** A whole filter to the letter: both transports, both families, something kept out of IPv4. */
  lemma {:induction false} SpelledOut(f: Format, ex: Text)
    requires ex != [] && ex[0] != Close
    ensures var protos := Parens([FlagT(IsTcp)] + [Or] + [FlagT(IsUdp)]);
            var families := Parens(Parens([FlagT(IsIp)] + [And] + ex) + [Or] + [FlagT(IsIpv6)]);
            Spell(f, [FlagT(Outbound)] + [And] + (protos + [And] + families)) ==
            "outbound and (tcp or udp) and ((ip and " + Spell(f, ex) + ") or ipv6)"
  {
    hide Spell;
    var protos := Parens([FlagT(IsTcp)] + [Or] + [FlagT(IsUdp)]);
    var families := Parens(Parens([FlagT(IsIp)] + [And] + ex) + [Or] + [FlagT(IsIpv6)]);
    ProtosSpelledOut(f);
    FamiliesSpelledOut(f, ex);
    SpellJoined(f, protos, And, families);
    SpellOne(f, FlagT(Outbound));
    SpellJoined(f, [FlagT(Outbound)], And, protos + [And] + families);
    Associates(
      "outbound" + " " + "and" + " ", "(tcp or udp)" + " " + "and" + " ", "((ip and ", Spell(f, ex), ") or ipv6)");
    HeadOf();
  }

  lemma {:induction false} HeadOf()
    ensures "outbound" + " " + "and" + " " + ("(tcp or udp)" + " " + "and" + " ") + "((ip and " ==
            "outbound and (tcp or udp) and ((ip and "
  {}

  lemma {:induction false} Associates(a: string, b: string, c: string, s: string, d: string)
    ensures a + (b + (c + s + d)) == (a + b + c) + s + d
  {}

  // ---------------------------------------------------------------- the text that goes to the driver

  /** The clauses in the order of sort.Strings. */
  function ByText(f: Format): (Text, Text) -> bool {
    (a, b) => StrLe(Spell(f, a), Spell(f, b))
  }

  lemma {:induction false} ByTextIsOrder(f: Format)
    ensures TotalOrder(ByText(f))
  {
    forall a, b ensures ByText(f)(a, b) || ByText(f)(b, a) { StrLeTotal(Spell(f, a), Spell(f, b)); }
    forall a, b, c | ByText(f)(a, b) && ByText(f)(b, c) ensures ByText(f)(a, c) {
      StrLeTrans(Spell(f, a), Spell(f, b), Spell(f, c));
    }
  }

  /**
   For every configuration and packet: the string, split into words and parsed by the driver,
   captures exactly the packets the configuration asks for.
   */
  method BuildFilterText(cfg: CaptureConfig, f: Format) returns (s: string)
    requires cfg.Valid() && Proper(f)
    ensures forall pkt: Packet :: pkt.Valid() ==> (TextCaptures(f, s, pkt) <==> Wanted(cfg, pkt))
  {
    hide Spellable, Captures, Wanted, Spell, Lex;
    var ts := BuildFilter(cfg, ByText(f));
    s := Spell(f, ts);
    LexSpell(f, ts);
  }

  // ---------------------------------------------------------------- there is such a notation

  function HexChar(d: int): (c: char)
    requires 0 <= d < 16
    ensures AddrChar(c) && HexVal(c) == d
  {
    if d < 10 then '0' + d as char else 'a' + (d - 10) as char
  }

  function HexVal(c: char): int {
    if '0' <= c <= '9' then c as int - '0' as int else c as int - 'a' as int + 10
  }

  /** Two hexadecimal digits and a colon. */
  function Pair(b: bv8): (s: string)
    ensures |s| == 3 && s[2] == ':' && Clean(s)
  {
    [HexChar(b as int / 16), HexChar(b as int % 16), ':']
  }

  function UnPair(x: char, y: char): Option<bv8> {
    var n := 16 * HexVal(x) + HexVal(y);
    if 0 <= n < 256 then Some(n as bv8) else None
  }

  lemma {:induction false} PairReads(b: bv8)
    ensures UnPair(Pair(b)[0], Pair(b)[1]) == Some(b)
  {
    hide HexChar, HexVal;
  }

  function Hex(a: Octets): string {
    if a == [] then "" else Pair(a[0]) + Hex(a[1..])
  }

  function UnHex(s: string): Option<Octets> {
    if s == "" then Some([])
    else if |s| < 3 || UnPair(s[0], s[1]).None? || UnHex(s[3..]).None? then None
    else Some([UnPair(s[0], s[1]).value] + UnHex(s[3..]).value)
  }

  predicate Clean(s: string) {
    forall i :: 0 <= i < |s| ==> AddrChar(s[i])
  }

  lemma {:induction false} CleanAppend(a: string, b: string)
    requires Clean(a) && Clean(b)
    ensures Clean(a + b)
  {}

  lemma {:induction false} NothingIsClean()
    ensures Clean("")
  {}

  lemma {:induction false} HexReads(a: Octets)
    ensures UnHex(Hex(a)) == Some(a) && Clean(Hex(a))
    ensures a != [] ==> |Hex(a)| >= 3 && Hex(a)[2] == ':'
  {
    hide UnPair, Clean, Pair;
    if a != [] {
      PairReads(a[0]);
      HexReads(a[1..]);
      var s, rest := Pair(a[0]), Hex(a[1..]);
      CleanAppend(s, rest);
      assert (s + rest)[3..] == rest && (s + rest)[0] == s[0] && (s + rest)[1] == s[1];
      assert [a[0]] + a[1..] == a;
    } else {
      assert Clean("") by { NothingIsClean(); }
    }
  }

  lemma {:induction false} HexIsProper()
    ensures Proper(Format(Hex, UnHex))
  {
    forall a: Octets | IsAddr(a) ensures LooksLikeAddr(Hex(a)) && UnHex(Hex(a)) == Some(a) {
      HexReads(a);
      assert Hex(a)[2] == ':';
    }
  }
}
