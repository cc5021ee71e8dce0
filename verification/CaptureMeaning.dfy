/**
 What the generated chains decide, for any packet and any options, and how that
 compares with the TUN mode's decision and the rule engine's.
 */
module CaptureMeaning {
  import opened Wrappers
  import opened Addr
  import opened Nft
  import opened TunScope
  import opened Capture
  import Rules
  import opened Names
  import Ranges

  /** The packet belongs to a protocol capture takes, and is not UDP DNS. */
  predicate Ours(o: Options, p: Packet)
  {
    p.proto in o.Protos() && !(p.proto == UDP && p.dport == 53)
  }

  /** A public DoH address on 443, or DoT / DoQ. */
  predicate Blocked(o: Options, p: Packet)
  {
    p.HasPorts() && ((p.daddr in o.dohAddrs && p.dport == 443) || (o.blockDoTDoQ && p.dport == 853))
  }

  /** The address is captured: never when excluded, always when routed, else by scope. */
  predicate Captures(o: Options, def: seq<Prefix>, a: Addr)
  {
    !InAny(o.exclude, a) && (InAny(o.route, a) || (o.scope == "all" && !InAny(def, a)))
  }

  predicate IsRouteMarked(p: Packet) { p.mark & 0x2000 == 0x2000 }

  predicate IsBypassMarked(p: Packet) { p.mark & 0xff0000 == 0x80000 }

  function Diverted(o: Options, p: Packet): Packet
  {
    p.(tproxy := Some(o.tproxyPort), mark := ROUTE_MARK)
  }

  /** The addresses DNS redirection leaves alone. */
  predicate IsLoopbackNet(a: Addr)
  {
    LOOPBACK4.Contains(a) || LOOPBACK6.Contains(a)
  }

  predicate IsDNS(p: Packet) { p.HasPorts() && p.dport == 53 }

  // ------------------------------------------------- one chain at a time

  predicate In(t: Table, name4: string, name6: string, a: Addr)
  {
    (a.V4? && name4 in t.sets && InSet(t.sets[name4], a)) || (a.V6? && name6 in t.sets && InSet(t.sets[name6], a))
  }

  /** What the table's address sets say about one address. */
  ghost predicate SetsSay(t: Table, o: Options, def: seq<Prefix>, a: Addr)
  {
    && a.IsValid()
    && (In(t, "exclude4", "exclude6", a) <==> InAny(o.exclude, a))
    && (In(t, "route4", "route6", a) <==> InAny(o.route, a))
    && (In(t, "local4", "local6", a) <==> InAny(def, a))
    && (In(t, "doh4", "doh6", a) <==> a in o.dohAddrs)
    && (In(t, "lo4", "lo6", a) <==> IsLoopbackNet(a))
  }

  lemma InSplit(t: Table, name4: string, name6: string, ps: seq<Prefix>, a: Addr)
    requires a.IsValid() && name4 in t.sets && name6 in t.sets
    requires t.sets[name4] == Split4(ps) && t.sets[name6] == Split6(ps)
    ensures In(t, name4, name6, a) <==> InAny(ps, a)
  {
    SplitHolds(ps, a);
  }

  lemma InLoopback(t: Table, a: Addr)
    requires "lo4" in t.sets && t.sets["lo4"] == {LOOPBACK4} && "lo6" in t.sets && t.sets["lo6"] == {LOOPBACK6}
    ensures In(t, "lo4", "lo6", a) <==> IsLoopbackNet(a)
  {
    assert InSet({LOOPBACK4}, a) == LOOPBACK4.Contains(a);
    assert InSet({LOOPBACK6}, a) == LOOPBACK6.Contains(a);
  }

  lemma SetNames(o: Options, def: seq<Prefix>)
    ensures var s := SetsOf(o, def);
            && s.Keys == {"exclude4", "exclude6", "route4", "route6", "local4", "local6", "doh4", "doh6", "lo4", "lo6"}
            && s["exclude4"] == Split4(o.exclude) && s["exclude6"] == Split6(o.exclude)
            && s["route4"] == Split4(o.route) && s["route6"] == Split6(o.route)
            && s["local4"] == Split4(def) && s["local6"] == Split6(def)
            && s["doh4"] == AddrSet(o.dohAddrs, true) && s["doh6"] == AddrSet(o.dohAddrs, false)
            && s["lo4"] == {LOOPBACK4} && s["lo6"] == {LOOPBACK6}
  {
  }

  lemma SetsAreFaithful(o: Options, def: seq<Prefix>, a: Addr)
    requires a.IsValid()
    requires forall x :: x in o.dohAddrs ==> x.IsValid()
    ensures SetsSay(TableOf(o, def), o, def, a)
  {
    SetNames(o, def);
    FaithfulSets(TableOf(o, def), o, def, a);
  }

  lemma FaithfulSets(t: Table, o: Options, def: seq<Prefix>, a: Addr)
    requires a.IsValid()
    requires forall x :: x in o.dohAddrs ==> x.IsValid()
    requires t.sets.Keys == {"exclude4", "exclude6", "route4", "route6", "local4", "local6", "doh4", "doh6", "lo4", "lo6"}
    requires t.sets["exclude4"] == Split4(o.exclude) && t.sets["exclude6"] == Split6(o.exclude)
    requires t.sets["route4"] == Split4(o.route) && t.sets["route6"] == Split6(o.route)
    requires t.sets["local4"] == Split4(def) && t.sets["local6"] == Split6(def)
    requires t.sets["doh4"] == AddrSet(o.dohAddrs, true) && t.sets["doh6"] == AddrSet(o.dohAddrs, false)
    requires t.sets["lo4"] == {LOOPBACK4} && t.sets["lo6"] == {LOOPBACK6}
    ensures SetsSay(t, o, def, a)
  {
    InSplit(t, "exclude4", "exclude6", o.exclude, a);
    InSplit(t, "route4", "route6", o.route, a);
    InSplit(t, "local4", "local6", def, a);
    DoHMembership(o, a);
    InLoopback(t, a);
  }

  lemma FullPrefix(a: Addr, b: Addr)
    requires b.IsValid()
    ensures Prefix(b, b.Width()).Contains(a) <==> a == b
  {
    assert Prefix(b, b.Width()).Span() == Pow2(0);
  }

  lemma DoHMembership(o: Options, a: Addr)
    requires a.IsValid()
    requires forall x :: x in o.dohAddrs ==> x.IsValid()
    ensures InSet(AddrSet(o.dohAddrs, true), a) <==> a.V4? && a in o.dohAddrs
    ensures InSet(AddrSet(o.dohAddrs, false), a) <==> a.V6? && a in o.dohAddrs
  {
    forall b: Addr | b in o.dohAddrs ensures Prefix(b, b.Width()).Contains(a) <==> a == b {
      FullPrefix(a, b);
    }
    if a in o.dohAddrs {
      assert Prefix(a, a.Width()) in AddrSet(o.dohAddrs, a.V4?);
    }
  }

  /** One rule: its verdict when it applies, the rest of the chain when it does not. */
  lemma Step(t: Table, r: Rule, next: Chain, p: Packet, depth: nat)
    ensures !Holds(t, r.cond, p) ==> Run(t, Then(r, next), p, depth) == Run(t, next, p, depth)
    ensures Holds(t, r.cond, p) && r.verdict == Return ==> Run(t, Then(r, next), p, depth) == Outcome(Touch(r, p), Fell)
    ensures Holds(t, r.cond, p) && r.verdict == Accept ==> Run(t, Then(r, next), p, depth) == Outcome(Touch(r, p), Accepted)
    ensures Holds(t, r.cond, p) && r.verdict == Reject ==> Run(t, Then(r, next), p, depth) == Outcome(Touch(r, p), Rejected)
  {
  }

  /** Taking a packet: running just the action of a decision rule. */
  function Taken(t: Table, take: Rule, p: Packet, depth: nat): Outcome
  {
    Run(t, Then(take, End), p, depth)
  }

  lemma TakeStep(t: Table, take: Rule, next: Chain, p: Packet, depth: nat)
    requires take.verdict == Return || take.verdict.Goto?
    requires Holds(t, take.cond, p)
    ensures Run(t, Then(take, next), p, depth) == Taken(t, take.(cond := If(Always)), p, depth)
  {
  }

  lemma AllScopeRun(t: Table, o: Options, def: seq<Prefix>, take: Rule, p: Packet, depth: nat)
    requires take.verdict == Return || take.verdict.Goto?
    requires SetsSay(t, o, def, p.daddr)
    ensures Run(t, AllScope(o, take), p, depth)
         == if o.scope == SCOPE_ALL && !InAny(def, p.daddr) then Taken(t, take.(cond := If(Always)), p, depth)
            else Outcome(p, Fell)
  {
    var last := Then(On(If(Always), Return), End);
    Step(t, On(If(Always), Return), End, p, depth);
    var act := Then(take.(cond := If(Always)), last);
    TakeStep(t, take.(cond := If(Always)), last, p, depth);
    var l6 := Then(On(If(DaddrIn6("local6")), Return), act);
    Step(t, On(If(DaddrIn6("local6")), Return), act, p, depth);
    Step(t, On(If(DaddrIn4("local4")), Return), l6, p, depth);
  }

  lemma DecideRun(t: Table, o: Options, def: seq<Prefix>, take: Rule, p: Packet, depth: nat)
    requires take.verdict == Return || take.verdict.Goto?
    requires SetsSay(t, o, def, p.daddr)
    ensures Run(t, Decide(o, take), p, depth)
         == if Captures(o, def, p.daddr) then Taken(t, take.(cond := If(Always)), p, depth) else Outcome(p, Fell)
  {
    var all := AllScope(o, take);
    AllScopeRun(t, o, def, take, p, depth);
    var t6, t4 := take.(cond := If(DaddrIn6("route6"))), take.(cond := If(DaddrIn4("route4")));
    Step(t, t6, all, p, depth);
    if Holds(t, t6.cond, p) { TakeStep(t, t6, all, p, depth); }
    var r6 := Then(t6, all);
    Step(t, t4, r6, p, depth);
    if Holds(t, t4.cond, p) { TakeStep(t, t4, r6, p, depth); }
    var r4 := Then(t4, r6);
    Step(t, On(If(DaddrIn6("exclude6")), Return), r4, p, depth);
    Step(t, On(If(DaddrIn4("exclude4")), Return), Then(On(If(DaddrIn6("exclude6")), Return), r4), p, depth);
  }

  lemma DivertRun(t: Table, o: Options, p: Packet, depth: nat)
    requires p.daddr.IsValid() && p.proto in o.Protos()
    ensures Run(t, Divert(o), p, depth) == Outcome(Diverted(o, p), Accepted)
  {
    var r4 := Rule(If2(IPv4, ProtoIn(o.Protos())), Some(o.tproxyPort), Some(ROUTE_MARK), Accept);
    var r6 := Rule(If2(IPv6, ProtoIn(o.Protos())), Some(o.tproxyPort), Some(ROUTE_MARK), Accept);
    Step(t, r6, End, p, depth);
    Step(t, r4, Then(r6, End), p, depth);
  }

  function PreroutingMeaning(o: Options, def: seq<Prefix>, p: Packet): Outcome
  {
    if !Ours(o, p) || p.local || Blocked(o, p) then Outcome(p, Fell)
    else if p.proto == TCP && p.transparent then Outcome(p.(mark := ROUTE_MARK), Accepted)
    else if IsRouteMarked(p) || Captures(o, def, p.daddr) then Outcome(Diverted(o, p), Accepted)
    else Outcome(p, Fell)
  }

  /** The chains a table must have for the prerouting chain to make sense. */
  ghost predicate HasPre(t: Table, o: Options)
  {
    "decide_pre" in t.chains && t.chains["decide_pre"] == Decide(o, DivertRule())
    && "divert" in t.chains && t.chains["divert"] == Divert(o)
  }

  lemma GotoDivert(t: Table, o: Options, cond: Cond, next: Chain, p: Packet, depth: nat)
    requires HasPre(t, o) && depth >= 1
    requires p.daddr.IsValid() && p.proto in o.Protos() && Holds(t, cond, p)
    ensures Run(t, Then(On(cond, Goto("divert")), next), p, depth) == Outcome(Diverted(o, p), Accepted)
  {
    DivertRun(t, o, p, depth - 1);
    assert Touch(On(cond, Goto("divert")), p) == p;
  }

  lemma JumpDecide(t: Table, o: Options, def: seq<Prefix>, p: Packet, depth: nat)
    requires HasPre(t, o) && SetsSay(t, o, def, p.daddr) && p.proto in o.Protos() && depth >= 2
    ensures Run(t, Then(On(If(Always), Jump("decide_pre")), End), p, depth)
         == if Captures(o, def, p.daddr) then Outcome(Diverted(o, p), Accepted) else Outcome(p, Fell)
  {
    DecideRun(t, o, def, DivertRule(), p, depth - 1);
    GotoDivert(t, o, If(Always), End, p, depth - 1);
    assert Touch(On(If(Always), Jump("decide_pre")), p) == p;
  }

  lemma PreroutingTailRun(t: Table, o: Options, def: seq<Prefix>, p: Packet, depth: nat)
    requires HasPre(t, o) && SetsSay(t, o, def, p.daddr) && p.proto in o.Protos() && depth >= 2
    ensures Run(t, PreroutingTail(), p, depth)
         == if p.proto == TCP && p.transparent then Outcome(p.(mark := ROUTE_MARK), Accepted)
            else if IsRouteMarked(p) || Captures(o, def, p.daddr) then Outcome(Diverted(o, p), Accepted)
            else Outcome(p, Fell)
  {
    var jump := Then(On(If(Always), Jump("decide_pre")), End);
    MarkedOrDecided(t, o, def, p, depth, jump);
    Step(t, Marking(If2(ProtoIn({TCP}), SocketTransparent), Accept), Then(On(RouteMarked(), Goto("divert")), jump), p, depth);
  }

  /** Packets already marked are diverted, the others by the decision. */
  lemma MarkedOrDecided(t: Table, o: Options, def: seq<Prefix>, p: Packet, depth: nat, jump: Chain)
    requires HasPre(t, o) && SetsSay(t, o, def, p.daddr) && p.proto in o.Protos() && depth >= 2
    requires jump == Then(On(If(Always), Jump("decide_pre")), End)
    ensures Run(t, Then(On(RouteMarked(), Goto("divert")), jump), p, depth)
         == if IsRouteMarked(p) || Captures(o, def, p.daddr) then Outcome(Diverted(o, p), Accepted) else Outcome(p, Fell)
  {
    JumpDecide(t, o, def, p, depth);
    if IsRouteMarked(p) {
      GotoDivert(t, o, RouteMarked(), jump, p, depth);
    } else {
      Step(t, On(RouteMarked(), Goto("divert")), jump, p, depth);
    }
  }

  lemma SkipBlockedRun(t: Table, o: Options, def: seq<Prefix>, next: Chain, p: Packet, depth: nat)
    requires SetsSay(t, o, def, p.daddr)
    ensures Run(t, SkipBlocked(o, next), p, depth)
         == if Blocked(o, p) then Outcome(p, Fell) else Run(t, next, p, depth)
  {
    var dot := if o.blockDoTDoQ then Then(On(If(DportIs(853)), Return), next) else next;
    Step(t, On(If(DportIs(853)), Return), next, p, depth);
    SkipDoHRun(t, o, def, dot, p, depth);
  }

  lemma SkipDoHRun(t: Table, o: Options, def: seq<Prefix>, next: Chain, p: Packet, depth: nat)
    requires SetsSay(t, o, def, p.daddr)
    ensures var doh6 := On(If2(DaddrIn6("doh6"), DportIs(443)), Return);
            Run(t, Then(On(If2(DaddrIn4("doh4"), DportIs(443)), Return), Then(doh6, next)), p, depth)
            == if p.HasPorts() && p.dport == 443 && p.daddr in o.dohAddrs then Outcome(p, Fell) else Run(t, next, p, depth)
  {
    var doh6 := On(If2(DaddrIn6("doh6"), DportIs(443)), Return);
    Step(t, doh6, next, p, depth);
    Step(t, On(If2(DaddrIn4("doh4"), DportIs(443)), Return), Then(doh6, next), p, depth);
  }

  lemma NotOursRun(t: Table, o: Options, next: Chain, p: Packet, depth: nat)
    ensures Run(t, NotOurs(o, next), p, depth) == if Ours(o, p) then Run(t, next, p, depth) else Outcome(p, Fell)
  {
    var dns := On(If2(ProtoIn({UDP}), DportIs(53)), Return);
    Step(t, dns, next, p, depth);
    Step(t, On(If(ProtoNotIn(o.Protos())), Return), if o.udp then Then(dns, next) else next, p, depth);
  }

  lemma PreroutingRun(t: Table, o: Options, def: seq<Prefix>, p: Packet, depth: nat)
    requires HasPre(t, o) && SetsSay(t, o, def, p.daddr) && depth >= 2
    ensures Run(t, Prerouting(o), p, depth) == PreroutingMeaning(o, def, p)
  {
    var skip := SkipBlocked(o, PreroutingTail());
    NotOursRun(t, o, Then(On(If(FibLocal), Return), skip), p, depth);
    Step(t, On(If(FibLocal), Return), skip, p, depth);
    SkipBlockedRun(t, o, def, PreroutingTail(), p, depth);
    if p.proto in o.Protos() {
      PreroutingTailRun(t, o, def, p, depth);
    }
  }

  function OutputMeaning(o: Options, def: seq<Prefix>, p: Packet): Packet
  {
    if Ours(o, p) && !IsBypassMarked(p) && !p.local && Captures(o, def, p.daddr)
    then p.(mark := ROUTE_MARK) else p
  }

  lemma JumpMark(t: Table, o: Options, def: seq<Prefix>, p: Packet, depth: nat)
    requires "mark_out" in t.chains && t.chains["mark_out"] == Decide(o, MarkRule())
    requires SetsSay(t, o, def, p.daddr) && depth >= 1
    ensures Run(t, Then(On(If(Always), Jump("mark_out")), End), p, depth)
         == Outcome(if Captures(o, def, p.daddr) then p.(mark := ROUTE_MARK) else p, Fell)
  {
    DecideRun(t, o, def, MarkRule(), p, depth - 1);
    Step(t, MarkRule(), End, p, depth - 1);
    assert Touch(On(If(Always), Jump("mark_out")), p) == p;
  }

  /** What is ours and not tailproxy's own is marked if captured. */
  lemma OutputTailRun(t: Table, o: Options, def: seq<Prefix>, p: Packet, depth: nat, jump: Chain)
    requires "mark_out" in t.chains && t.chains["mark_out"] == Decide(o, MarkRule())
    requires SetsSay(t, o, def, p.daddr) && depth >= 1 && jump == Then(On(If(Always), Jump("mark_out")), End)
    ensures Run(t, Then(On(BypassMarked(), Return), Then(On(If(FibLocal), Return), jump)), p, depth)
         == Outcome(if !IsBypassMarked(p) && !p.local && Captures(o, def, p.daddr) then p.(mark := ROUTE_MARK) else p, Fell)
  {
    JumpMark(t, o, def, p, depth);
    Step(t, On(If(FibLocal), Return), jump, p, depth);
    Step(t, On(BypassMarked(), Return), Then(On(If(FibLocal), Return), jump), p, depth);
  }

  lemma OutputRun(t: Table, o: Options, def: seq<Prefix>, p: Packet, depth: nat)
    requires "mark_out" in t.chains && t.chains["mark_out"] == Decide(o, MarkRule())
    requires SetsSay(t, o, def, p.daddr) && depth >= 1
    ensures Run(t, Output(o), p, depth) == Outcome(OutputMeaning(o, def, p), Fell)
  {
    var jump := Then(On(If(Always), Jump("mark_out")), End);
    OutputTailRun(t, o, def, p, depth, jump);
    NotOursRun(t, o, Then(On(BypassMarked(), Return), Then(On(If(FibLocal), Return), jump)), p, depth);
  }

  lemma BlockDoTRun(t: Table, o: Options, p: Packet, depth: nat)
    ensures Run(t, BlockDoT(o), p, depth)
         == Outcome(p, if o.blockDoTDoQ && p.HasPorts() && p.dport == 853 then Rejected else Fell)
  {
    var u := On(If2(ProtoIn({UDP}), DportIs(853)), Reject);
    Step(t, u, End, p, depth);
    Step(t, On(If2(ProtoIn({TCP}), DportIs(853)), Reject), Then(u, End), p, depth);
  }

  lemma BlockDoHRun(t: Table, o: Options, next: Chain, p: Packet, depth: nat)
    requires p.daddr.IsValid() && (In(t, "doh4", "doh6", p.daddr) <==> p.daddr in o.dohAddrs)
    ensures Run(t, BlockDoH(o, next), p, depth)
         == if p.HasPorts() && p.daddr in o.dohAddrs && p.dport == 443 then Outcome(p, Rejected) else Run(t, next, p, depth)
  {
    var r4 := On(Cond(DaddrIn6("doh6"), ProtoIn({UDP}), DportIs(443)), Reject);
    var r3 := On(Cond(DaddrIn4("doh4"), ProtoIn({UDP}), DportIs(443)), Reject);
    var r2 := On(Cond(DaddrIn6("doh6"), ProtoIn({TCP}), DportIs(443)), Reject);
    var r1 := On(Cond(DaddrIn4("doh4"), ProtoIn({TCP}), DportIs(443)), Reject);
    var c4 := Then(r4, next);
    var c3 := Then(r3, c4);
    var c2 := Then(r2, c3);
    Step(t, r4, next, p, depth);
    Step(t, r3, c4, p, depth);
    Step(t, r2, c3, p, depth);
    Step(t, r1, c2, p, depth);
  }

  lemma BlockAnyRun(t: Table, o: Options, def: seq<Prefix>, p: Packet, depth: nat)
    requires SetsSay(t, o, def, p.daddr)
    ensures Run(t, BlockDoH(o, BlockDoT(o)), p, depth) == Outcome(p, if Blocked(o, p) then Rejected else Fell)
  {
    BlockDoTRun(t, o, p, depth);
    BlockDoHRun(t, o, BlockDoT(o), p, depth);
  }

  lemma BlockRun(t: Table, o: Options, def: seq<Prefix>, p: Packet, depth: nat)
    requires SetsSay(t, o, def, p.daddr)
    ensures Run(t, Block(o), p, depth) == Outcome(p, if Blocked(o, p) && !IsBypassMarked(p) then Rejected else Fell)
  {
    BlockAnyRun(t, o, def, p, depth);
    Step(t, On(BypassMarked(), Return), BlockDoH(o, BlockDoT(o)), p, depth);
  }

  function Redirected(o: Options, p: Packet): Packet
  {
    p.(redirect := Some(o.dnsPort), dport := o.dnsPort, local := true)
  }

  lemma DNSRuleRun(t: Table, o: Options, p: Packet, depth: nat)
    ensures Run(t, Then(DNSRule(o), End), p, depth)
         == if IsDNS(p) then Outcome(Redirected(o, p), Accepted) else Outcome(p, Fell)
  {
    Step(t, DNSRule(o), End, p, depth);
  }

  lemma DNSOutRun(t: Table, o: Options, def: seq<Prefix>, p: Packet, depth: nat)
    requires SetsSay(t, o, def, p.daddr)
    ensures Run(t, DNSOut(o), p, depth)
         == if IsDNS(p) && !IsBypassMarked(p) && !IsLoopbackNet(p.daddr) then Outcome(Redirected(o, p), Accepted)
            else Outcome(p, Fell)
  {
    var last := Then(DNSRule(o), End);
    DNSRuleRun(t, o, p, depth);
    var l6 := Then(On(If(DaddrIn6("lo6")), Return), last);
    Step(t, On(If(DaddrIn6("lo6")), Return), last, p, depth);
    Step(t, On(If(DaddrIn4("lo4")), Return), l6, p, depth);
    Step(t, On(BypassMarked(), Return), Then(On(If(DaddrIn4("lo4")), Return), l6), p, depth);
  }

  // ------------------------------------------------------- whole hooks

  const OUTPUT_HOOK := ["output", "dns_out", "block_output"]
  const PREROUTING_HOOK := ["prerouting", "dns_pre"]
  const FORWARD_HOOK := ["block_forward"]

  /** The chains one step of a hook: what is left after its first name. */
  lemma HookStep(t: Table, name: string, rest: seq<string>, p: Packet)
    ensures RunHook(t, [name] + rest, p)
         == if name !in t.chains then RunHook(t, rest, p)
            else
              var o := Run(t, t.chains[name], p, JUMP_LIMIT);
              if o.end == Rejected || o.end == Dropped then o else RunHook(t, rest, o.packet)
  {
    assert ([name] + rest)[1..] == rest;
  }

  predicate ValidOptions(o: Options)
  {
    o.tproxyPort != 0 && o.scope in {SCOPE_SELECTIVE, SCOPE_ALL} && forall x :: x in o.dohAddrs ==> x.IsValid()
  }

  /** The chains and sets of a generated table. */
  lemma ChainFacts(o: Options, def: seq<Prefix>, a: Addr)
    requires ValidOptions(o) && a.IsValid()
    ensures var t := TableOf(o, def);
            && SetsSay(t, o, def, a) && HasPre(t, o)
            && "mark_out" in t.chains && t.chains["mark_out"] == Decide(o, MarkRule())
            && "prerouting" in t.chains && t.chains["prerouting"] == Prerouting(o)
            && "output" in t.chains && t.chains["output"] == Output(o)
            && ("dns_out" in t.chains <==> o.dnsPort != 0)
            && ("dns_out" in t.chains ==> t.chains["dns_out"] == DNSOut(o))
            && ("dns_pre" in t.chains <==> o.dnsPort != 0 && o.hijackLANDNS)
            && ("dns_pre" in t.chains ==> t.chains["dns_pre"] == Then(DNSRule(o), End))
            && ("block_output" in t.chains <==> o.Blocks())
            && ("block_output" in t.chains ==> t.chains["block_output"] == Block(o))
            && ("block_forward" in t.chains <==> o.Blocks())
            && ("block_forward" in t.chains ==> t.chains["block_forward"] == Block(o))
  {
    SetsAreFaithful(o, def, a);
    assert TableOf(o, def).chains == ChainsOf(o);
    SharedChains(o);
    MangleChains(o);
    OptionalChains(o);
  }

  lemma SharedChains(o: Options)
    ensures var cs := ChainsOf(o);
            && "decide_pre" in cs && cs["decide_pre"] == Decide(o, DivertRule())
            && "divert" in cs && cs["divert"] == Divert(o)
            && "mark_out" in cs && cs["mark_out"] == Decide(o, MarkRule())
  {
  }

  lemma MangleChains(o: Options)
    ensures var cs := ChainsOf(o);
            && "prerouting" in cs && cs["prerouting"] == Prerouting(o)
            && "output" in cs && cs["output"] == Output(o)
  {
  }

  lemma OptionalChains(o: Options)
    ensures var cs := ChainsOf(o);
            && ("dns_out" in cs <==> o.dnsPort != 0)
            && ("dns_out" in cs ==> cs["dns_out"] == DNSOut(o))
            && ("dns_pre" in cs <==> o.dnsPort != 0 && o.hijackLANDNS)
            && ("dns_pre" in cs ==> cs["dns_pre"] == Then(DNSRule(o), End))
            && ("block_output" in cs <==> o.Blocks())
            && ("block_output" in cs ==> cs["block_output"] == Block(o))
            && ("block_forward" in cs <==> o.Blocks())
            && ("block_forward" in cs ==> cs["block_forward"] == Block(o))
  {
  }

  function OutputResult(o: Options, def: seq<Prefix>, p: Packet): Outcome
  {
    var q := OutputMeaning(o, def, p);
    var r := if o.dnsPort != 0 && IsDNS(q) && !IsBypassMarked(q) && !IsLoopbackNet(q.daddr) then Redirected(o, q) else q;
    Outcome(r, if Blocked(o, r) && !IsBypassMarked(r) then Rejected else Accepted)
  }

  /** Everything the output hook does to a locally generated packet. */
  lemma OutputHook(t: Table, o: Options, def: seq<Prefix>, p: Packet)
    requires ValidOptions(o) && p.daddr.IsValid() && t == TableOf(o, def)
    ensures RunHook(t, OUTPUT_HOOK, p) == OutputResult(o, def, p)
  {
    ChainFacts(o, def, p.daddr);
    OutputHookOf(t, o, def, p);
  }

  lemma OutputHookOf(t: Table, o: Options, def: seq<Prefix>, p: Packet)
    requires SetsSay(t, o, def, p.daddr)
    requires "mark_out" in t.chains && t.chains["mark_out"] == Decide(o, MarkRule())
    requires "output" in t.chains && t.chains["output"] == Output(o)
    requires "dns_out" in t.chains <==> o.dnsPort != 0
    requires "dns_out" in t.chains ==> t.chains["dns_out"] == DNSOut(o)
    requires "block_output" in t.chains <==> o.Blocks()
    requires "block_output" in t.chains ==> t.chains["block_output"] == Block(o)
    ensures RunHook(t, OUTPUT_HOOK, p) == OutputResult(o, def, p)
  {
    OutputRun(t, o, def, p, JUMP_LIMIT);
    var q := OutputMeaning(o, def, p);
    DNSOutRun(t, o, def, q, JUMP_LIMIT);
    var r := OutputResult(o, def, p).packet;
    BlockRun(t, o, def, r, JUMP_LIMIT);
    HookStep(t, "output", ["dns_out", "block_output"], p);
    HookStep(t, "dns_out", ["block_output"], q);
    HookStep(t, "block_output", [], r);
    assert OUTPUT_HOOK == ["output"] + ["dns_out", "block_output"];
    assert ["dns_out", "block_output"] == ["dns_out"] + ["block_output"];
    assert ["block_output"] == ["block_output"] + [];
    assert !o.Blocks() ==> !Blocked(o, r);
  }

  /** tailproxy's own traffic is left alone: never marked, redirected or rejected. */
  lemma BypassIsUntouched(o: Options, def: seq<Prefix>, p: Packet)
    requires ValidOptions(o) && p.daddr.IsValid() && IsBypassMarked(p)
    ensures RunHook(TableOf(o, def), OUTPUT_HOOK, p) == Outcome(p, Accepted)
  {
    OutputHook(TableOf(o, def), o, def, p);
  }

  function PreroutingResult(o: Options, def: seq<Prefix>, p: Packet): Packet
  {
    var q := PreroutingMeaning(o, def, p).packet;
    if o.dnsPort != 0 && o.hijackLANDNS && IsDNS(q) then Redirected(o, q) else q
  }

  /** Everything the prerouting hook does. */
  lemma PreroutingHook(t: Table, o: Options, def: seq<Prefix>, p: Packet)
    requires ValidOptions(o) && p.daddr.IsValid() && t == TableOf(o, def)
    ensures RunHook(t, PREROUTING_HOOK, p) == Outcome(PreroutingResult(o, def, p), Accepted)
  {
    ChainFacts(o, def, p.daddr);
    PreroutingHookOf(t, o, def, p);
  }

  lemma PreroutingHookOf(t: Table, o: Options, def: seq<Prefix>, p: Packet)
    requires SetsSay(t, o, def, p.daddr) && HasPre(t, o)
    requires "prerouting" in t.chains && t.chains["prerouting"] == Prerouting(o)
    requires "dns_pre" in t.chains <==> o.dnsPort != 0 && o.hijackLANDNS
    requires "dns_pre" in t.chains ==> t.chains["dns_pre"] == Then(DNSRule(o), End)
    ensures RunHook(t, PREROUTING_HOOK, p) == Outcome(PreroutingResult(o, def, p), Accepted)
  {
    PreroutingRun(t, o, def, p, JUMP_LIMIT);
    var q := PreroutingMeaning(o, def, p).packet;
    DNSRuleRun(t, o, q, JUMP_LIMIT);
    HookStep(t, "prerouting", ["dns_pre"], p);
    HookStep(t, "dns_pre", [], q);
    assert PREROUTING_HOOK == ["prerouting"] + ["dns_pre"];
    assert ["dns_pre"] == ["dns_pre"] + [];
  }

  /** The forward hook only refuses. */
  lemma ForwardHook(t: Table, o: Options, def: seq<Prefix>, p: Packet)
    requires ValidOptions(o) && p.daddr.IsValid() && t == TableOf(o, def)
    ensures RunHook(t, FORWARD_HOOK, p) == Outcome(p, if Blocked(o, p) && !IsBypassMarked(p) then Rejected else Accepted)
  {
    ChainFacts(o, def, p.daddr);
    BlockRun(t, o, def, p, JUMP_LIMIT);
    HookStep(t, "block_forward", [], p);
    assert FORWARD_HOOK == ["block_forward"] + [];
  }

  /**
   A forwarded packet to a blocked DoH, DoT or DoQ destination leaves
   prerouting untouched (so it really is forwarded) and is then rejected.
   */
  lemma BlockedForwardIsRejected(o: Options, def: seq<Prefix>, p: Packet)
    requires ValidOptions(o) && p.daddr.IsValid() && Blocked(o, p) && !IsBypassMarked(p)
    ensures RunHook(TableOf(o, def), PREROUTING_HOOK, p) == Outcome(p, Accepted)
    ensures RunHook(TableOf(o, def), FORWARD_HOOK, p) == Outcome(p, Rejected)
  {
    PreroutingHook(TableOf(o, def), o, def, p);
    ForwardHook(TableOf(o, def), o, def, p);
  }

  /** The life of a forwarded packet: taken by TPROXY, rejected, or passed on. */
  datatype Fate = Proxied(port: u16) | Refused | Direct

  function ForwardFate(o: Options, def: seq<Prefix>, p: Packet): Fate
  {
    var t := TableOf(o, def);
    var q := RunHook(t, PREROUTING_HOOK, p).packet;
    if q.tproxy.Some? then Proxied(q.tproxy.value)
    else if RunHook(t, FORWARD_HOOK, q).end == Rejected then Refused
    else Direct
  }

  /**
   A locally generated packet: output first; when it was marked, policy routing
   sends it back in through the loopback device and prerouting.
   */
  function LocalFate(o: Options, def: seq<Prefix>, p: Packet): Fate
  {
    var t := TableOf(o, def);
    var out := RunHook(t, OUTPUT_HOOK, p);
    if out.end == Rejected then Refused
    else if IsRouteMarked(out.packet) then
      var q := RunHook(t, PREROUTING_HOOK, out.packet).packet;
      if q.tproxy.Some? then Proxied(q.tproxy.value) else Direct
    else Direct
  }

  /** An ordinary packet: unmarked, not to this host, no transparent socket, not DNS. */
  predicate Ordinary(o: Options, p: Packet)
  {
    && p.daddr.IsValid() && p.mark == 0 && !p.local && !p.transparent && p.tproxy == None && p.redirect == None
    && p.proto in o.Protos() && p.dport != 53
  }

  lemma MarkFacts(p: Packet)
    ensures p.mark == 0 ==> !IsBypassMarked(p) && !IsRouteMarked(p)
    ensures p.mark == ROUTE_MARK ==> !IsBypassMarked(p) && IsRouteMarked(p)
  {
  }

  /** Forwarded and local traffic are captured alike: exactly the captured addresses, minus what is refused. */
  lemma OrdinaryFate(o: Options, def: seq<Prefix>, p: Packet)
    requires ValidOptions(o) && Ordinary(o, p)
    ensures ForwardFate(o, def, p)
         == if Blocked(o, p) then Refused
            else if Captures(o, def, p.daddr) then Proxied(o.tproxyPort) else Direct
    ensures LocalFate(o, def, p) == ForwardFate(o, def, p)
  {
    var t := TableOf(o, def);
    MarkFacts(p);
    PreroutingHook(t, o, def, p);
    ForwardHook(t, o, def, p);
    OutputHook(t, o, def, p);
    var q := OutputMeaning(o, def, p);
    MarkFacts(q);
    PreroutingHook(t, o, def, q);
  }

  /**
   In scope all the ruleset and TUN mode agree: an ordinary packet that is not
   refused is captured exactly when TUN mode finds no reason to bypass it. The
   destination must not be an IPv4-mapped IPv6 address.
   */
  lemma AllScopeAgreesWithTUN(o: Options, def: seq<Prefix>, p: Packet)
    requires ValidOptions(o) && o.scope == "all" && Ordinary(o, p) && !Blocked(o, p)
    requires p.daddr.Unmap() == p.daddr
    ensures ForwardFate(o, def, p).Proxied? <==> ReasonFor(o.exclude, def, Some(o.route), p.daddr) == Routed
    ensures LocalFate(o, def, p).Proxied? <==> ReasonFor(o.exclude, def, Some(o.route), p.daddr) == Routed
  {
    OrdinaryFate(o, def, p);
  }

  /** An IPv4-mapped IPv6 address. */
  predicate IsMapped(a: Addr) { a.V6? && a.Unmap() != a }

  /** No default exclude covers a mapped address. */
  lemma MappedNotDefault(a: Addr)
    requires IsMapped(a)
    ensures !InAny(DEFAULT_EXCLUDE, a)
  {
    Ranges.DefaultExcludeMeaning(a);
    assert a.a6 == 0xffff * 0x1_0000_0000 + a.a6 % 0x1_0000_0000;
  }

  /**
   An IPv4-mapped destination u in scope all. The ruleset sees IPv6 and proxies it
   unless an IPv6 exclude covers it; TUN mode looks at u. So where no such exclude
   covers it they agree exactly when u is not excluded, and routed if it is a default
   exclude; where one does, exactly when u is bypassed too.
   */
  lemma MappedAgreesIff(o: Options, p: Packet)
    requires ValidOptions(o) && o.scope == "all" && Ordinary(o, p) && !Blocked(o, p) && IsMapped(p.daddr)
    ensures ForwardFate(o, DEFAULT_EXCLUDE, p) == if InAny(o.exclude, p.daddr) then Direct else Proxied(o.tproxyPort)
    ensures LocalFate(o, DEFAULT_EXCLUDE, p) == ForwardFate(o, DEFAULT_EXCLUDE, p)
    ensures var u := p.daddr.Unmap();
            var agree := ForwardFate(o, DEFAULT_EXCLUDE, p).Proxied? <==> ReasonFor(o.exclude, DEFAULT_EXCLUDE, Some(o.route), p.daddr) == Routed;
            && (!InAny(o.exclude, p.daddr) ==>
                  (agree <==> !InAny(o.exclude, u) && (InAny(DEFAULT_EXCLUDE, u) ==> InAny(o.route, u))))
            && (InAny(o.exclude, p.daddr) ==>
                  (agree <==> InAny(o.exclude, u) || (InAny(DEFAULT_EXCLUDE, u) && !InAny(o.route, u))))
  {
    MappedNotDefault(p.daddr);
    OrdinaryFate(o, DEFAULT_EXCLUDE, p);
  }

  /**
   ::ffff:10.0.0.1 is such an address: with nothing excluded or routed by the user the
   ruleset proxies a packet to it, while TUN mode sees 10.0.0.1 and bypasses it.
   */
  lemma MappedDisagrees(o: Options, p: Packet)
    requires ValidOptions(o) && o.scope == "all" && o.exclude == [] && o.route == []
    requires Ordinary(o, p) && !Blocked(o, p) && p.daddr == V6(0xffff_0a00_0001)
    ensures ForwardFate(o, DEFAULT_EXCLUDE, p) == Proxied(o.tproxyPort)
    ensures ReasonFor(o.exclude, DEFAULT_EXCLUDE, Some(o.route), p.daddr) == BypassDefault
  {
    MappedAgreesIff(o, p);
    Ranges.DefaultExcludeMeaning(p.daddr.Unmap());
  }

  lemma TenContains(ten: Prefix, a: Addr, k: nat)
    requires ten == Prefix(V4(0x0a00_0000), 8) && a == V4(0x0a00_0001) && k == 16
    ensures ten.Contains(a)
  {
    Ranges.Powers(k);
    assert ten.Span() == Pow2(k + 8);
    ContainsRange(ten, a, 0x0a00_0000, 0x100_0000);
  }

  /**
   A local DNS query to any outside server ends at the DNS front end. The block
   chain then sees the rewritten port, so it refuses the query exactly when the
   front end itself listens on a blocked port.
   */
  lemma LocalDNSIsRedirected(o: Options, def: seq<Prefix>, p: Packet)
    requires ValidOptions(o) && p.daddr.IsValid() && o.dnsPort != 0
    requires IsDNS(p) && !IsBypassMarked(p) && !IsLoopbackNet(p.daddr)
    ensures var r := RunHook(TableOf(o, def), OUTPUT_HOOK, p);
            && r.packet.redirect == Some(o.dnsPort) && r.packet.dport == o.dnsPort
            && (r.end == Rejected <==> (o.blockDoTDoQ && o.dnsPort == 853) || (p.daddr in o.dohAddrs && o.dnsPort == 443))
  {
    OutputHook(TableOf(o, def), o, def, p);
    RedirectedResult(o, def, p);
  }

  lemma RedirectedResult(o: Options, def: seq<Prefix>, p: Packet)
    requires o.dnsPort != 0 && IsDNS(p) && !IsBypassMarked(p) && !IsLoopbackNet(p.daddr)
    ensures var r := OutputResult(o, def, p);
            && r.packet.redirect == Some(o.dnsPort) && r.packet.dport == o.dnsPort
            && (r.end == Rejected <==> (o.blockDoTDoQ && o.dnsPort == 853) || (p.daddr in o.dohAddrs && o.dnsPort == 443))
  {
    MarkFacts(OutputMeaning(o, def, p));
  }

  // ------------------------------------------ capture and the rule engine

  /**
   Selective scope, end to end: when the captured prefixes contain the rules' routed
   prefixes, an ordinary packet that capture lets through, that no exclude forced and
   whose name was not to get a FakeIP, goes to a name and address the rules send direct,
   unless its destination is an IPv4-mapped address. For those the rules look at the
   IPv4 address, the ruleset at the IPv6 one; so they send it elsewhere exactly when a
   rule's prefix holds the IPv4 address on this port and no earlier rule takes it.
   */
  lemma UncapturedMeansDirect(o: Options, def: seq<Prefix>, p: Packet, rules: seq<Rules.Compiled>, domain: string)
    requires ValidOptions(o) && Ordinary(o, p)
    requires forall x :: x in Rules.RoutedOf(rules) ==> x in o.route
    requires ForwardFate(o, def, p) == Direct || LocalFate(o, def, p) == Direct
    requires !InAny(o.exclude, p.daddr) && !Rules.DomainMayRoute(rules, domain)
    ensures var target := Rules.Match(rules, Rules.Query(domain, p.daddr, p.dport, "")).target;
            && (target != Rules.DIRECT ==> IsMapped(p.daddr) && InAny(Rules.RoutedOf(rules), p.daddr.Unmap()))
            && (target != Rules.DIRECT <==>
                  exists j :: Rules.RoutesAddress(rules, 0, j, NormalizeDomain(domain), p.daddr.Unmap(), p.dport))
  {
    OrdinaryFate(o, def, p);
    assert !InAny(o.route, p.daddr);
    assert InAny(Rules.RoutedOf(rules), p.daddr) ==> InAny(o.route, p.daddr);
    assert NormalizeDomain("") == "";
    Rules.RoutedByAddressIff(rules, 0, NormalizeDomain(domain), p.daddr.Unmap(), p.dport);
    if Rules.Match(rules, Rules.Query(domain, p.daddr, p.dport, "")).target != Rules.DIRECT {
      Rules.SelectiveLosesNothing(rules, domain, p.daddr, p.dport);
    }
  }

  /** One rule for a prefix: its prefix is the routed one, no name may route, and it takes the prefix's addresses. */
  lemma OneRule(ten: Prefix, u: Addr, port: u16)
    requires ten.Contains(u)
    ensures var rules := [Rules.Compiled({}, [], [], [ten], [], {}, "us", false)];
            && (forall x :: x in Rules.RoutedOf(rules) <==> x == ten) && !Rules.DomainMayRoute(rules, "")
            && Rules.MatchFrom(rules, 0, "", "", u, port).target == "us"
  {
    var rules := [Rules.Compiled({}, [], [], [ten], [], {}, "us", false)];
    Rules.RoutedOfMembers(rules);
    assert rules[0] in rules;
    assert NormalizeDomain("") == "";
    assert !Rules.MayRouteFrom(rules, 1, "");
    assert ten in rules[0].prefixes && Rules.MatchDest(rules[0], "", u);
  }

  /**
   ::ffff:10.0.0.1 is such an address: with one rule that sends 10.0.0.0/8 to an exit,
   and that prefix captured, capture lets a packet to it through although the rule takes it.
   */
  lemma MappedIsLost(o: Options, p: Packet, ten: Prefix)
    requires ten == Prefix(V4(0x0a00_0000), 8)
    requires ValidOptions(o) && o.scope == "selective" && o.exclude == [] && o.route == [ten]
    requires Ordinary(o, p) && !Blocked(o, p) && p.daddr == V6(0xffff_0a00_0001)
    ensures var rules := [Rules.Compiled({}, [], [], o.route, [], {}, "us", false)];
            && (forall x :: x in Rules.RoutedOf(rules) <==> x in o.route) && !Rules.DomainMayRoute(rules, "")
            && ForwardFate(o, DEFAULT_EXCLUDE, p) == LocalFate(o, DEFAULT_EXCLUDE, p) == Direct
            && Rules.Match(rules, Rules.Query("", p.daddr, p.dport, "")).target == "us"
  {
    var u := p.daddr.Unmap();
    TenContains(ten, u, 16);
    OneRule(ten, u, p.dport);
    assert NormalizeDomain("") == "";
    OtherFamily(o, p, ten);
  }

  /** Capture of one IPv4 prefix in selective scope lets IPv6 packets through. */
  lemma OtherFamily(o: Options, p: Packet, p4: Prefix)
    requires ValidOptions(o) && o.scope == "selective" && o.route == [p4] && p4.base.V4?
    requires Ordinary(o, p) && !Blocked(o, p) && p.daddr.V6?
    ensures ForwardFate(o, DEFAULT_EXCLUDE, p) == LocalFate(o, DEFAULT_EXCLUDE, p) == Direct
  {
    OrdinaryFate(o, DEFAULT_EXCLUDE, p);
    assert !InAny(o.route, p.daddr);
  }
}
