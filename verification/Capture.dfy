/**
 The nftables ruleset of transparent capture (internal/capture/nft.go) as a
 chain program, and what it does to every packet.
 */
module Capture {
  import opened Wrappers
  import opened Addr
  import opened Nft
  import opened TunScope
  import Rules

  const BYPASS_MARK: bv32 := 0x80000
  const BYPASS_MASK: bv32 := 0xff0000
  const ROUTE_MARK: bv32 := 0x2000

  const SCOPE_SELECTIVE := "selective"
  const SCOPE_ALL := "all"

  const DEFAULT_EXCLUDE: seq<Prefix> := [
    Prefix(V4(0), 8), Prefix(V4(0x0a00_0000), 8), Prefix(V4(0x7f00_0000), 8), Prefix(V4(0xa9fe_0000), 16),
    Prefix(V4(0xac10_0000), 12), Prefix(V4(0xc0a8_0000), 16), Prefix(V4(0xe000_0000), 4), Prefix(V4(0xf000_0000), 4),
    Prefix(V4(0x6440_0000), 10),
    Prefix(V6(1), 128), Prefix(V6(0xfe80_0000_0000_0000_0000_0000_0000_0000), 10),
    Prefix(V6(0xff00_0000_0000_0000_0000_0000_0000_0000), 8), Prefix(V6(0xfc00_0000_0000_0000_0000_0000_0000_0000), 7),
    Prefix(V6(0xfd7a_115c_a1e0_0000_0000_0000_0000_0000), 48)]

  const LOOPBACK4 := Prefix(V4(0x7f00_0000), 8)
  const LOOPBACK6 := Prefix(V6(1), 128)

  datatype Options = Options(
    scope: string,
    tproxyPort: u16,
    dnsPort: u16,
    hijackLANDNS: bool,
    route: seq<Prefix>,
    udp: bool,
    exclude: seq<Prefix>,
    dohAddrs: seq<Addr>,
    blockDoTDoQ: bool)
  {
    /** The protocols TPROXY takes. */
    function Protos(): set<Proto> { if udp then {TCP, UDP} else {TCP} }

    predicate Blocks() { dohAddrs != [] || blockDoTDoQ }
  }

  datatype OptionsError = NoPort | UnknownScope

  // ------------------------------------------------------ address sets

  /** The IPv4 prefixes of a list, masked. */
  function Split4(ps: seq<Prefix>): set<Prefix>
  {
    set p | p in ps && p.base.V4? :: p.Masked()
  }

  /** The other prefixes of a list, masked. */
  function Split6(ps: seq<Prefix>): set<Prefix>
  {
    set p | p in ps && !p.base.V4? :: p.Masked()
  }

  /** split keeps the first occurrence of every masked prefix, by family. */
  method Split(ps: seq<Prefix>) returns (v4: seq<Prefix>, v6: seq<Prefix>)
    ensures (set p | p in v4) == Split4(ps) && (set p | p in v6) == Split6(ps)
    ensures forall i, j :: 0 <= i < j < |v4| ==> v4[i] != v4[j]
    ensures forall i, j :: 0 <= i < j < |v6| ==> v6[i] != v6[j]
  {
    v4, v6 := [], [];
    var seen: set<Prefix> := {};
    for i := 0 to |ps|
      invariant forall p :: p in v4 <==> exists j :: 0 <= j < i && ps[j].base.V4? && ps[j].Masked() == p
      invariant forall p :: p in v6 <==> exists j :: 0 <= j < i && !ps[j].base.V4? && ps[j].Masked() == p
      invariant forall p :: p in seen <==> p in v4 || p in v6
      invariant forall j, k :: 0 <= j < k < |v4| ==> v4[j] != v4[k]
      invariant forall j, k :: 0 <= j < k < |v6| ==> v6[j] != v6[k]
    {
      var p := ps[i].Masked();
      MaskedFamily(ps[i]);
      if p in seen {
        assert forall j :: 0 <= j < i && ps[j].Masked() == p ==> ps[j].base.V4? == ps[i].base.V4? by {
          forall j | 0 <= j < i && ps[j].Masked() == p ensures ps[j].base.V4? == ps[i].base.V4? {
            MaskedFamily(ps[j]);
          }
        }
      } else {
        seen := seen + {p};
        if p.base.V4? { v4 := v4 + [p]; } else { v6 := v6 + [p]; }
      }
    }
  }

  lemma MaskedFamily(p: Prefix)
    ensures p.Masked().base.V4? == p.base.V4?
  {
  }

  /** An address set of either family holds exactly the list's addresses of that family. */
  lemma SplitHolds(ps: seq<Prefix>, a: Addr)
    ensures InSet(Split4(ps), a) <==> a.V4? && InAny(ps, a)
    ensures a.V6? ==> (InSet(Split6(ps), a) <==> InAny(ps, a))
    ensures a.V4? ==> !InSet(Split6(ps), a)
  {
    forall p: Prefix ensures p.Masked().Contains(a) == p.Contains(a) {
      MaskedContains(p, a);
    }
    if p :| p in Split6(ps) && p.Contains(a) {
      var q :| q in ps && !q.base.V4? && q.Masked() == p;
      MaskedFamily(q);
    }
    if p :| p in Split4(ps) && p.Contains(a) {
      var q :| q in ps && q.base.V4? && q.Masked() == p;
      MaskedFamily(q);
      assert q.Contains(a);
    }
    if InAny(ps, a) {
      var q :| q in ps && q.Contains(a);
      assert q.Masked().Contains(a);
      if a.V4? {
        assert q.Masked() in Split4(ps);
      } else {
        assert q.Masked() in Split6(ps);
      }
    }
  }

  function AddrSet(addrs: seq<Addr>, v4: bool): set<Prefix>
  {
    set a | a in addrs && a.V4? == v4 :: Prefix(a, a.Width())
  }

  function SetsOf(o: Options, def: seq<Prefix>): map<string, set<Prefix>>
  {
    map[
      "exclude4" := Split4(o.exclude), "exclude6" := Split6(o.exclude),
      "route4" := Split4(o.route), "route6" := Split6(o.route),
      "local4" := Split4(def), "local6" := Split6(def),
      "doh4" := AddrSet(o.dohAddrs, true), "doh6" := AddrSet(o.dohAddrs, false),
      "lo4" := {LOOPBACK4}, "lo6" := {LOOPBACK6}]
  }

  // ------------------------------------------------------------ chains

  function On(cond: Cond, verdict: Verdict): Rule { Rule(cond, None, None, verdict) }

  function Marking(cond: Cond, verdict: Verdict): Rule { Rule(cond, None, Some(ROUTE_MARK), verdict) }

  function RouteMarked(): Cond { If(MarkIs(ROUTE_MARK, ROUTE_MARK)) }

  function BypassMarked(): Cond { If(MarkIs(BYPASS_MASK, BYPASS_MARK)) }

  /** What both mangle chains let go at once: other protocols and UDP DNS. */
  function NotOurs(o: Options, next: Chain): Chain
  {
    Then(On(If(ProtoNotIn(o.Protos())), Return),
         if o.udp then Then(On(If2(ProtoIn({UDP}), DportIs(53)), Return), next) else next)
  }

  /** Forwarded traffic the block chains refuse must not be diverted. */
  function SkipBlocked(o: Options, next: Chain): Chain
  {
    var dot := if o.blockDoTDoQ then Then(On(If(DportIs(853)), Return), next) else next;
    if o.dohAddrs != [] then
      Then(On(If2(DaddrIn4("doh4"), DportIs(443)), Return),
           Then(On(If2(DaddrIn6("doh6"), DportIs(443)), Return), dot))
    else dot
  }

  function Prerouting(o: Options): Chain
  {
    NotOurs(o, Then(On(If(FibLocal), Return), SkipBlocked(o, PreroutingTail())))
  }

  function PreroutingTail(): Chain
  {
    Then(Marking(If2(ProtoIn({TCP}), SocketTransparent), Accept),
         Then(On(RouteMarked(), Goto("divert")),
              Then(On(If(Always), Jump("decide_pre")), End)))
  }

  /** The decision both hooks share: excluded, routed, and in scope all the rest but local. */
  function Decide(o: Options, take: Rule): Chain
  {
    Then(On(If(DaddrIn4("exclude4")), Return),
         Then(On(If(DaddrIn6("exclude6")), Return),
              Then(take.(cond := If(DaddrIn4("route4"))),
                   Then(take.(cond := If(DaddrIn6("route6"))),
                        AllScope(o, take)))))
  }

  function AllScope(o: Options, take: Rule): Chain
  {
    var last := Then(On(If(Always), Return), End);
    if o.scope != SCOPE_ALL then last
    else
      Then(On(If(DaddrIn4("local4")), Return),
           Then(On(If(DaddrIn6("local6")), Return),
                Then(take.(cond := If(Always)), last)))
  }

  function DivertRule(): Rule { On(If(Always), Goto("divert")) }

  function MarkRule(): Rule { Marking(If(Always), Return) }

  function Divert(o: Options): Chain
  {
    Then(Rule(If2(IPv4, ProtoIn(o.Protos())), Some(o.tproxyPort), Some(ROUTE_MARK), Accept),
         Then(Rule(If2(IPv6, ProtoIn(o.Protos())), Some(o.tproxyPort), Some(ROUTE_MARK), Accept), End))
  }

  function Output(o: Options): Chain
  {
    NotOurs(o, Then(On(BypassMarked(), Return),
                    Then(On(If(FibLocal), Return),
                         Then(On(If(Always), Jump("mark_out")), End))))
  }

  function BlockDoT(o: Options): Chain
  {
    if o.blockDoTDoQ then
      Then(On(If2(ProtoIn({TCP}), DportIs(853)), Reject),
           Then(On(If2(ProtoIn({UDP}), DportIs(853)), Reject), End))
    else End
  }

  function BlockDoH(o: Options, next: Chain): Chain
  {
    if o.dohAddrs != [] then
      Then(On(Cond(DaddrIn4("doh4"), ProtoIn({TCP}), DportIs(443)), Reject),
           Then(On(Cond(DaddrIn6("doh6"), ProtoIn({TCP}), DportIs(443)), Reject),
                Then(On(Cond(DaddrIn4("doh4"), ProtoIn({UDP}), DportIs(443)), Reject),
                     Then(On(Cond(DaddrIn6("doh6"), ProtoIn({UDP}), DportIs(443)), Reject), next))))
    else next
  }

  function Block(o: Options): Chain
  {
    Then(On(BypassMarked(), Return), BlockDoH(o, BlockDoT(o)))
  }

  function DNSRule(o: Options): Rule { On(If2(ProtoIn({TCP, UDP}), DportIs(53)), Redirect(o.dnsPort)) }

  function DNSOut(o: Options): Chain
  {
    Then(On(BypassMarked(), Return),
         Then(On(If(DaddrIn4("lo4")), Return),
              Then(On(If(DaddrIn6("lo6")), Return),
                   Then(DNSRule(o), End))))
  }

  function ChainsOf(o: Options): map<string, Chain>
  {
    map["prerouting" := Prerouting(o),
        "decide_pre" := Decide(o, DivertRule()),
        "divert" := Divert(o),
        "output" := Output(o),
        "mark_out" := Decide(o, MarkRule())]
    + (if o.Blocks() then map["block_output" := Block(o), "block_forward" := Block(o)] else map[])
    + (if o.dnsPort != 0 then map["dns_out" := DNSOut(o)] else map[])
    + (if o.dnsPort != 0 && o.hijackLANDNS then map["dns_pre" := Then(DNSRule(o), End)] else map[])
  }

  function TableOf(o: Options, def: seq<Prefix>): Table
  {
    Table(SetsOf(o, def), ChainsOf(o))
  }

  /** The DoH resolvers of each family, as prefixes of one address. */
  method DoHSets(addrs: seq<Addr>) returns (v4: set<Prefix>, v6: set<Prefix>)
    ensures v4 == AddrSet(addrs, true) && v6 == AddrSet(addrs, false)
  {
    v4, v6 := {}, {};
    for i := 0 to |addrs|
      invariant v4 == AddrSet(addrs[..i], true) && v6 == AddrSet(addrs[..i], false)
    {
      var a := addrs[i];
      assert addrs[..i + 1] == addrs[..i] + [a];
      if a.V4? { v4 := v4 + {Prefix(a, a.Width())}; } else { v6 := v6 + {Prefix(a, a.Width())}; }
    }
    assert addrs[..|addrs|] == addrs;
  }

  /** Ruleset refuses a missing port and an unknown scope; otherwise it builds the table. */
  method Ruleset(o: Options) returns (r: Result<Table, OptionsError>)
    ensures o.tproxyPort == 0 ==> r == Err(NoPort)
    ensures o.tproxyPort != 0 && o.scope !in {"selective", "all"} ==> r == Err(UnknownScope)
    ensures o.tproxyPort != 0 && o.scope in {"selective", "all"} ==> r == Ok(TableOf(o, DEFAULT_EXCLUDE))
  {
    if o.tproxyPort == 0 {
      return Err(NoPort);
    }
    if o.scope != SCOPE_SELECTIVE && o.scope != SCOPE_ALL {
      return Err(UnknownScope);
    }
    var ex4, ex6 := Split(o.exclude);
    var rt4, rt6 := Split(o.route);
    var def4, def6 := Split(DEFAULT_EXCLUDE);
    var d4, d6 := DoHSets(o.dohAddrs);
    var sets := map["exclude4" := set p | p in ex4, "exclude6" := set p | p in ex6,
                    "route4" := set p | p in rt4, "route6" := set p | p in rt6,
                    "local4" := set p | p in def4, "local6" := set p | p in def6,
                    "doh4" := d4, "doh6" := d6, "lo4" := {LOOPBACK4}, "lo6" := {LOOPBACK6}];
    return Ok(Table(sets, ChainsOf(o)));
  }
}
