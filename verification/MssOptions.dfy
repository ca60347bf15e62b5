/**
 What clampMSS (internal/engine/connectip/engine.go) does to the options a segment carries, stated
 on the list of options of section 3.2 of RFC 9293 and not on octet positions: the list is written
 into the option area, the packet is clamped, and the area is read back.
 */
module MssOptions {
  import opened Basics
  import opened Checksum
  import opened Nat
  import opened ClampMss

  /** An option of another kind, or one of kind 2 that is not a maximum segment size, has its data kept apart. */
  datatype TcpOption = Nop | Mss(value: int) | Other(kind: byte, data: seq<byte>)

  predicate Proper(o: TcpOption) {
    match o
    case Nop => true
    case Mss(value) => 0 <= value <= 0xFFFF
    case Other(kind, data) => kind >= 2 && |data| <= 253 && !(kind == 2 && |data| == 2)
  }

  function Written(o: TcpOption): (s: seq<byte>)
    requires Proper(o)
    ensures s != []
  {
    match o
    case Nop => [1]
    case Mss(value) => [2, 4, value / 256, value % 256]
    case Other(kind, data) => [kind, |data| + 2] + data
  }

  ghost predicate AllProper(os: seq<TcpOption>) {
    forall o :: o in os ==> Proper(o)
  }

  function WrittenAll(os: seq<TcpOption>): seq<byte>
    requires AllProper(os)
  {
    if os == [] then [] else Written(os[0]) + WrittenAll(os[1..])
  }

  /** Where no option begins: the end, the end-of-options octet, or one cut short or with a bad length. */
  predicate Over(tail: seq<byte>) {
    |tail| < 2 || tail[0] == 0 || (tail[0] != 1 && (tail[1] < 2 || |tail| < tail[1]))
  }

  /** A segment size above 1200 becomes 1200; every other option stays. */
  function Lower(o: TcpOption): (r: TcpOption)
    ensures Proper(o) ==> Proper(r) && |Written(r)| == |Written(o)|
  {
    if o.Mss? && o.value > 1200 then Mss(1200) else o
  }

  function LowerAll(os: seq<TcpOption>): (rs: seq<TcpOption>)
    ensures |rs| == |os| && forall i :: 0 <= i < |os| ==> rs[i] == Lower(os[i])
    ensures AllProper(os) ==> AllProper(rs)
  {
    if os == [] then [] else [Lower(os[0])] + LowerAll(os[1..])
  }

  // ---------------------------------------------------------------- reading

  lemma {:induction false} FirstReads(area: seq<byte>) returns (o: TcpOption, n: nat)
    requires !Over(area)
    ensures Proper(o) && 0 < n <= |area| && area[..n] == Written(o)
  {
    if area[0] == 1 {
      o, n := Nop, 1;
    } else if area[0] == 2 && area[1] == 4 {
      o, n := Mss(Word(area, 2)), 4;
      assert area[..4] == [area[0], area[1], area[2], area[3]];
    } else {
      n := area[1];
      o := Other(area[0], area[2..n]);
    }
  }

  /** Every option area is the writing of one list of options and of a tail where none begins. */
  lemma {:induction false} AreaReads(area: seq<byte>) returns (os: seq<TcpOption>, tail: seq<byte>)
    ensures AllProper(os) && area == WrittenAll(os) + tail && Over(tail)
  {
    if Over(area) {
      os, tail := [], area;
    } else {
      hide Over, Written, Proper;
      var o, n := FirstReads(area);
      var rest;
      rest, tail := AreaReads(area[n..]);
      os := [o] + rest;
      assert os[1..] == rest;
      assert area == area[..n] + area[n..];
    }
  }

  /** The area of `p` between `k` and `end` carries the options `os`. */
  ghost predicate Carries(p: Packet, end: nat, k: nat, os: seq<TcpOption>, tail: seq<byte>) {
    && k <= end <= |p| && AllProper(os) && Over(tail)
    && p[k..end] == WrittenAll(os) + tail
  }

  lemma {:induction false} FirstCarried(p: Packet, end: nat, k: nat, os: seq<TcpOption>, tail: seq<byte>)
    requires Carries(p, end, k, os, tail) && os != []
    ensures Proper(os[0])
    ensures var n := k + |Written(os[0])|;
            n <= end && p[k..n] == Written(os[0]) && Carries(p, end, n, os[1..], tail)
  {
    hide Over, Proper, Written;
    assert os[0] in os;
    var area, w := p[k..end], Written(os[0]);
    var n, rest := k + |w|, WrittenAll(os[1..]) + tail;
    assert area == w + rest;
    assert area[..|w|] == w && area[|w|..] == rest && n <= end;
    assert p[k..n] == area[..|w|];
    assert p[n..end] == area[|w|..];
  }

  /** The scan goes from one option to the next, except that it need not look at a last octet. */
  lemma {:induction false} NextIsAfter(p: Packet, end: nat, k: nat, o: TcpOption)
    requires Proper(o)
    requires var n := k + |Written(o)|; n <= end <= |p| && p[k..n] == Written(o)
    ensures var n := k + |Written(o)|;
            && (Next(p, end, k) == Some(n) || (Next(p, end, k).None? && o == Nop && n == end))
            && (Next(p, end, k).Some? ==> (AtMss(p, end, k) <==> o.Mss?))
  {
    var w := p[k..k+|Written(o)|];
    assert p[k] == w[0];
    if o != Nop { assert p[k+1] == w[1]; }
  }

  lemma {:induction false} NoneCarried(p: Packet, end: nat, k: nat, tail: seq<byte>)
    requires Carries(p, end, k, [], tail)
    ensures Next(p, end, k).None? && p[k..end] == WrittenAll(LowerAll([])) + tail
  {
    assert p[k..end] == tail;
    if |tail| >= 2 { assert p[k] == tail[0] && p[k+1] == tail[1]; }
  }

  /** When the last octet is a Nop the scan does not look at, nothing was left to lower. */
  lemma {:induction false} LastNop(p: Packet, k: nat, os: seq<TcpOption>, tail: seq<byte>)
    requires Carries(p, k + 1, k, os, tail) && os != [] && os[0] == Nop
    ensures p[k..k+1] == WrittenAll(LowerAll(os)) + tail
  {
    FirstCarried(p, k + 1, k, os, tail);
    assert WrittenAll(os[1..]) + tail == p[k+1..k+1] == [];
    assert tail == [] && WrittenAll(os[1..]) == [];
    assert os[1..] == [];
    assert os == [Nop] && LowerAll(os) == os;
  }

  /** The scan writes the checksum and the octets ahead of it, no others. */
  lemma {:induction false} ScanStaysInside(p: Packet, csum: nat, end: nat, k: nat)
    requires csum + 1 < k && end <= |p|
    ensures forall j :: 0 <= j < |p| && j != csum && j != csum + 1 && !(k <= j < end) ==>
              Scan(p, csum, end, k)[j] == p[j]
  {
    hide Scan, Reached;
    ScanOnlyValues(p, csum, end, k);
    ReachedInside(p, end, k);
    var ks := Reached(p, end, k);
    assert forall i :: 0 <= i < |ks| ==> ks[i] in ks;
  }

  /** The packet once the scan has dealt with option `o`. */
  function AfterOne(p: Packet, csum: nat, k: nat, o: TcpOption): (m: Packet)
    requires csum + 1 < k && (o.Mss? ==> k + 4 <= |p|)
    ensures |m| == |p|
  {
    if o.Mss? then ClampOne(p, csum, k) else p
  }

  lemma {:induction false} ClampWrites(p: Packet, csum: nat, k: nat, o: TcpOption)
    requires csum + 1 < k && k + 4 <= |p| && Proper(o) && o.Mss? && p[k..k+4] == Written(o)
    ensures var m := ClampOne(p, csum, k);
            && m[k..k+4] == Written(Lower(o))
            && forall j :: k + 4 <= j < |p| ==> m[j] == p[j]
  {
    hide Updated;
    var s := p[k..k+4];
    assert s[0] == p[k] && s[1] == p[k+1] && s[2] == p[k+2] && s[3] == p[k+3];
  }

  lemma {:induction false} OneWrites(
    p: Packet, csum: nat, end: nat, k: nat, os: seq<TcpOption>, tail: seq<byte>)
    requires csum + 1 < k && Carries(p, end, k, os, tail) && os != []
    ensures Proper(os[0]) && k + |Written(os[0])| <= end && (os[0].Mss? ==> k + 4 <= |p|)
    ensures var (n, m) := (k + |Written(os[0])|, AfterOne(p, csum, k, os[0]));
            m[k..n] == Written(Lower(os[0])) && Carries(m, end, n, os[1..], tail)
  {
    hide ClampOne, WrittenAll, Over;
    FirstCarried(p, end, k, os, tail);
    if os[0].Mss? {
      ClampWrites(p, csum, k, os[0]);
      assert ClampOne(p, csum, k)[k+4..end] == p[k+4..end];
    }
  }

  /** Behind the scan's position nothing moves, so the option written there is still in front of the rest. */
  lemma {:induction false} Prepended(
    m: Packet, csum: nat, end: nat, k: nat, os: seq<TcpOption>, tail: seq<byte>)
    requires AllProper(os) && os != [] && csum + 1 < k
    requires var n := k + |Written(os[0])|;
             && n <= end <= |m| && m[k..n] == Written(Lower(os[0]))
             && Scan(m, csum, end, n)[n..end] == WrittenAll(LowerAll(os[1..])) + tail
    ensures Scan(m, csum, end, k + |Written(os[0])|)[k..end] == WrittenAll(LowerAll(os)) + tail
  {
    hide Scan, Written, Over;
    var n := k + |Written(os[0])|;
    var q := Scan(m, csum, end, n);
    ScanStaysInside(m, csum, end, n);
    assert q[k..n] == m[k..n];
    assert q[k..end] == q[k..n] + q[n..end];
    assert LowerAll(os)[1..] == LowerAll(os[1..]);
  }

  lemma {:induction false} ScanLowersAll(
    p: Packet, csum: nat, end: nat, k: nat, os: seq<TcpOption>, tail: seq<byte>)
    requires csum + 1 < k && Carries(p, end, k, os, tail)
    ensures Scan(p, csum, end, k)[k..end] == WrittenAll(LowerAll(os)) + tail
    decreases |os|
  {
    hide ClampOne, Next, Over, WrittenAll, Written, LowerAll, Proper;
    if os == [] {
      NoneCarried(p, end, k, tail);
    } else {
      OneWrites(p, csum, end, k, os, tail);
      FirstCarried(p, end, k, os, tail);
      NextIsAfter(p, end, k, os[0]);
      var n := k + |Written(os[0])|;
      if Next(p, end, k).Some? {
        ScanLowersAll(AfterOne(p, csum, k, os[0]), csum, end, n, os[1..], tail);
        Prepended(AfterOne(p, csum, k, os[0]), csum, end, k, os, tail);
      } else {
        WrittenNop(os[0]);
        LastNop(p, k, os, tail);
      }
    }
  }

  lemma {:induction false} WrittenNop(o: TcpOption)
    requires o == Nop
    ensures Proper(o) && |Written(o)| == 1
  {}

  // ---------------------------------------------------------------- the whole clamp

  /** An IPv4 TCP packet with SYN set, a SYN-ACK too, in the octets of its headers, options inside. */
  ghost predicate CarriesSyn(p: Packet, words: nat, flags: nat, dataOff: nat) {
    && |p| >= 20 && p[0] == 0x40 + words && words < 16 && p[9] == 6 && |p| >= 4 * words + 20
    && p[4*words+13] == flags && flags % 4 >= 2
    && 4 * (p[4*words+12] / 16) == dataOff && 20 <= dataOff <= |p| - 4 * words
  }

  /**
   The clamp of such a packet: of the list of its options each segment size above 1200 becomes 1200,
   and nothing else of the packet changes but the checksum.
   */
  lemma {:induction false} ClampLowersTheOptions(
    p: Packet, words: nat, flags: nat, dataOff: nat, os: seq<TcpOption>, tail: seq<byte>)
    requires CarriesSyn(p, words, flags, dataOff)
    requires Carries(p, 4 * words + dataOff, 4 * words + 20, os, tail)
    ensures var (at, end, q) := (4 * words + 20, 4 * words + dataOff, Clamped(p));
            && |q| == |p| && q[at..end] == WrittenAll(LowerAll(os)) + tail
            && forall j :: (0 <= j < at || end <= j < |p|) && j != at - 4 && j != at - 3 ==> q[j] == p[j]
  {
    hide Scan, Carries, Over, WrittenAll;
    ScanLowersAll(p, 4 * words + 16, 4 * words + dataOff, 4 * words + 20, os, tail);
    ScanStaysInside(p, 4 * words + 16, 4 * words + dataOff, 4 * words + 20);
  }

  /** Every other packet is left alone. */
  lemma {:induction false} OthersPass(p: Packet)
    requires Clamped(p) != p
    ensures exists words, flags, dataOff :: CarriesSyn(p, words, flags, dataOff)
  {
    hide Scan;
    var ihl := HeaderLen(p);
    assert CarriesSyn(p, ihl / 4, p[ihl+13], OptionsEnd(p) - ihl);
  }
}
