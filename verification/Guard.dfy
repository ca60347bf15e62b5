/**
 The guard (internal/guard/guard.go), second line behind the capture filter: which
 destinations must not go through the tunnel.
 */
module Guard {
  import opened AddrBits
  import opened CaptureFilter
  import opened FilterText

  function V6(head: seq<bv8>): (o: Octets)
    requires |head| <= 16
    ensures |o| == 16 && o[..|head|] == head
  {
    head + seq(16 - |head|, _ => 0)
  }

  const DEFAULT_BYPASS: seq<Prefix> := [
    Prefix([0, 0, 0, 0], 8),          // "this host"
    Prefix([10, 0, 0, 0], 8),
    Prefix([100, 64, 0, 0], 10),      // carrier-grade NAT
    Prefix([127, 0, 0, 0], 8),        // loopback
    Prefix([169, 254, 0, 0], 16),     // link-local
    Prefix([172, 16, 0, 0], 12),
    Prefix([192, 168, 0, 0], 16),
    Prefix([224, 0, 0, 0], 4),        // multicast
    Prefix([255, 255, 255, 255], 32),
    Prefix([0, 0, 0, 0, 0, 0, 0, 0, 0, 0, 0, 0, 0, 0, 0, 1], 128),
    Prefix(V6([0xFC]), 7),
    Prefix(V6([0xFE, 0x80]), 10),
    Prefix(V6([0xFF]), 8)
  ]

  class Guard {
    var prefixes: seq<Prefix>
    var servers: set<Octets>

    ghost predicate Valid()
      reads this
    {
      forall p :: p in prefixes ==> p.Valid()
    }

    constructor (serverIPs: seq<Octets>)
      ensures Valid() && prefixes == DEFAULT_BYPASS
      ensures forall ip :: ip in servers <==> ip in serverIPs
    {
      prefixes := DEFAULT_BYPASS;
      servers := set ip | ip in serverIPs;
    }

    predicate Bypassed(dst: Octets)
      requires Valid()
      reads this
    {
      dst in servers || exists p :: p in prefixes && p.Contains(dst)
    }

    method Bypass(dst: Octets) returns (b: bool)
      requires Valid()
      ensures b == Bypassed(dst)
    {
      if dst in servers { return true; }
      for i := 0 to |prefixes|
        invariant forall j :: 0 <= j < i ==> !prefixes[j].Contains(dst)
      {
        if prefixes[i].Contains(dst) { return true; }
      }
      return false;
    }

    method AddServer(ip: Octets)
      requires Valid()
      modifies this`servers
      ensures Valid() && servers == old(servers) + {ip}
    {
      servers := servers + {ip};
    }

    method AddBypass(p: Prefix)
      requires Valid() && p.Valid()
      modifies this`prefixes
      ensures Valid() && prefixes == old(prefixes) + [p]
    {
      prefixes := prefixes + [p];
    }

    /** The list the client hands to the filter: the guard's prefixes and every node address. */
    method FilterBypass(serverIPs: seq<Octets>) returns (bypass: seq<Prefix>)
      requires Valid() && forall ip :: ip in serverIPs ==> IsAddr(ip)
      ensures forall p :: p in bypass ==> p.Valid()
      ensures forall p :: p in prefixes ==> p in bypass
      ensures forall ip :: ip in serverIPs ==> Prefix(ip, 8 * |ip|) in bypass
      ensures forall p :: p in bypass ==> p in prefixes || (p.IsSingleIP() && p.addr in serverIPs)
    {
      bypass := prefixes;
      for i := 0 to |serverIPs|
        invariant forall p :: p in bypass ==> p.Valid()
        invariant forall p :: p in prefixes ==> p in bypass
        invariant forall j :: 0 <= j < i ==> Prefix(serverIPs[j], 8 * |serverIPs[j]|) in bypass
        invariant forall p :: p in bypass ==> p in prefixes || (p.IsSingleIP() && p.addr in serverIPs)
      {
        var ip := serverIPs[i];
        bypass := bypass + [Prefix(ip, 8 * |ip|)];
      }
    }

    /** A filter list made of the guard's prefixes and of single addresses, its servers among them. */
    ghost predicate ListedIn(bypass: seq<Prefix>)
      reads this
    {
      && (forall p :: p in prefixes ==> p in bypass)
      && (forall ip :: ip in servers ==> Prefix(ip, 8 * |ip|) in bypass)
      && (forall p :: p in bypass ==> p in prefixes || (p.Valid() && p.IsSingleIP() && p.addr in servers))
    }

    /** Both lines draw the boundary at the same destinations. */
    lemma {:induction false} LinesAgree(bypass: seq<Prefix>, dst: Octets)
      requires Valid() && ListedIn(bypass) && IsAddr(dst)
      requires forall p :: p in bypass ==> p.Valid()
      ensures Bypassed(dst) <==> exists p :: p in bypass && p.Contains(dst)
    {
      hide Bits;
      if dst in servers {
        var p := Prefix(dst, 8 * |dst|);
        assert p in bypass && p.Contains(dst);
      }
      if p :| p in bypass && p.Contains(dst) {
        if p !in prefixes {
          SingleContains(p, dst);
          SameBits(dst, p.addr);
        }
      }
    }

    /** Whatever the filter captures, the guard would not have let by. */
    lemma {:induction false} FirstLineSuffices(cfg: CaptureConfig, pkt: Packet)
      requires Valid() && cfg.Valid() && pkt.Valid()
      requires forall p :: p in prefixes ==> p in cfg.bypass
      requires forall ip :: ip in servers ==> Prefix(ip, 8 * |ip|) in cfg.bypass
      ensures Wanted(cfg, pkt) ==> !Bypassed(pkt.dst)
    {
      assert pkt.dst in servers ==> Prefix(pkt.dst, 8 * |pkt.dst|).Contains(pkt.dst);
    }

    /**
     The client's own assembly: with every node address in the guard, the captured packets are
     exactly the outbound TCP and UDP ones this guard does not let by.
     */
    method ClientFilter(serverIPs: seq<Octets>, f: Format) returns (text: string)
      requires Valid() && Proper(f) && (forall ip :: ip in serverIPs ==> IsAddr(ip))
      requires forall ip :: ip in servers <==> ip in serverIPs
      ensures forall pkt: Packet :: pkt.Valid() ==>
                (TextCaptures(f, text, pkt) <==> pkt.outbound && !pkt.transport.Other? && !Bypassed(pkt.dst))
    {
      hide TextCaptures, Proper;
      var bypass := FilterBypass(serverIPs);
      var cfg := CaptureConfig(false, false, true, true, [], bypass);
      text := BuildFilterText(cfg, f);
      assert ListedIn(bypass);
      forall pkt: Packet | pkt.Valid()
        ensures TextCaptures(f, text, pkt) <==> pkt.outbound && !pkt.transport.Other? && !Bypassed(pkt.dst)
      {
        LinesAgree(bypass, pkt.dst);
        assert TextCaptures(f, text, pkt) <==> Wanted(cfg, pkt);
      }
    }
  }

  /** Octets are determined by their bits. */
  lemma {:induction false} SameBits(a: Octets, b: Octets)
    requires |a| == |b| && Bits(a) == Bits(b)
    ensures a == b
  {
    forall q | 0 <= q < |a| ensures a[q] == b[q] {
      forall j | 0 <= j < 8 ensures Has(a[q], j) == Has(b[q], j) {
        assert (8 * q + j) / 8 == q && (8 * q + j) % 8 == j;
        assert Bits(a)[8 * q + j] == Bits(b)[8 * q + j];
      }
      SameOctet(a[q], b[q]);
    }
  }

  lemma {:induction false} SameOctet(x: bv8, y: bv8)
    requires forall j :: 0 <= j < 8 ==> Has(x, j) == Has(y, j)
    ensures x == y
  {
    assert Has(x, 0) == Has(y, 0) && Has(x, 1) == Has(y, 1) && Has(x, 2) == Has(y, 2) && Has(x, 3) == Has(y, 3);
    assert Has(x, 4) == Has(y, 4) && Has(x, 5) == Has(y, 5) && Has(x, 6) == Has(y, 6) && Has(x, 7) == Has(y, 7);
  }
}
