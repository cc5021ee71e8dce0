/**
 A name from its DNS answer to the dial (internal/dnsserver/server.go,
 internal/proxy/transparent.go, internal/proxy/router.go): which names get a FakeIP,
 what a captured connection is matched on, and what is dialed.
 */
module EndToEnd {
  import opened Wrappers
  import opened Addr
  import opened Names
  import opened Rules
  import opened FakeIP
  import T = Tracker

  // ------------------------------------------------------------------ routing

  /** Where a connection goes, as far as the inbound knows. */
  datatype Dest = Dest(domain: string, ip: Addr, port: u16, ech: bool, outerSNI: string, transparent: bool, bypass: string)

  /** What is dialed: a name for someone to resolve, or an address. */
  datatype Host = Name(name: string) | Literal(addr: Addr)

  datatype Network = TCP | UDP

  datatype Call =
    | Refused
    | DialDirect(host: Host, port: u16)
    | DialTailnet(host: Host, port: u16)
    | DialEgress(target: string, host: Host, port: u16)
    | DialUDP(target: string, host: Host, port: u16)

  /** "egress:<name>" names an egress. */
  function EgressNamed(policy: string): Option<string>
  {
    if |policy| >= 7 && policy[..7] == "egress:" then Some(policy[7..]) else None
  }

  /** What the rules, or the reason to bypass them, say of a destination. */
  function Matched(rules: seq<Compiled>, d: Dest): MatchResult
  {
    if d.bypass != "" then MatchResult(-1, DIRECT, false, false)
    else Match(rules, Query(d.domain, d.ip, d.port, d.outerSNI))
  }

  /** Whether the policy for captured connections without a name applies at all. */
  predicate PolicyApplies(rules: seq<Compiled>, d: Dest)
  {
    d.transparent && d.domain == "" && d.bypass == "" && !Matched(rules, d).byOuterSNI
  }

  function TargetOf(rules: seq<Compiled>, unknown: string, d: Dest): string
  {
    var res := Matched(rules, d);
    if PolicyApplies(rules, d) && unknown == REJECT then REJECT
    else if PolicyApplies(rules, d) && EgressNamed(unknown).Some? && res.ruleIndex < 0 then EgressNamed(unknown).value
    else res.target
  }

  function HostOf(d: Dest, target: string): Host
  {
    if d.ip.IsValid() && (target == DIRECT || target == TAILNET || d.domain == "") then Literal(d.ip)
    else if d.domain == "" then Literal(NoAddr)
    else Name(d.domain)
  }

  function CallOf(rules: seq<Compiled>, unknown: string, d: Dest, network: Network): Call
  {
    var target := TargetOf(rules, unknown, d);
    var host := HostOf(d, target);
    if target == REJECT then Refused
    else if target == DIRECT then DialDirect(host, d.port)
    else if network.UDP? then DialUDP(target, host, d.port)
    else if target == TAILNET then DialTailnet(host, d.port)
    else DialEgress(target, host, d.port)
  }

  /** Router.connect up to the dial. */
  method Connect(rules: seq<Compiled>, unknown: string, d: Dest, network: Network) returns (call: Call)
    ensures call == CallOf(rules, unknown, d, network)
  {
    var res := MatchResult(-1, DIRECT, false, false);
    if d.bypass == "" {
      res := Match(rules, Query(d.domain, d.ip, d.port, d.outerSNI));
    }
    if d.transparent && d.domain == "" && !res.byOuterSNI && d.bypass == "" {
      if unknown == REJECT {
        res := MatchResult(-1, REJECT, false, false);
      } else if EgressNamed(unknown).Some? && res.ruleIndex < 0 {
        res := MatchResult(-1, EgressNamed(unknown).value, false, false);
      }
    }
    var host := Name(d.domain);
    if d.domain == "" {
      host := Literal(d.ip);
    }
    var dialHost := host;
    if d.ip.IsValid() && (res.target == DIRECT || res.target == TAILNET) {
      dialHost := Literal(d.ip);
    }
    if res.target == REJECT {
      return Refused;
    }
    if res.target == DIRECT {
      return DialDirect(dialHost, d.port);
    }
    if network.UDP? {
      return DialUDP(res.target, dialHost, d.port);
    }
    if res.target == TAILNET {
      return DialTailnet(dialHost, d.port);
    }
    return DialEgress(res.target, dialHost, d.port);
  }

  /** The tracker after connecting: one record more, finished as failed unless the dial works. */
  function Recorded(l: T.Log, open: bool): T.Log
  {
    if open then T.AddAll(l) else T.FinishAll(T.AddAll(l), l.next + 1, true)
  }

  /** The record is active as long as the connection is. */
  ghost predicate Tracked(tr: T.Tracker, c: T.Conn, id: nat, open: bool)
    reads tr, c
  {
    c.id == id && if open then c.id in tr.active && tr.active[c.id] == c && !c.ended else c.ended && c.err != ""
  }

  /** A record added and at once finished as failed. */
  method Refuse(tr: T.Tracker, err: string)
    requires tr.Valid() && err != ""
    modifies tr
    ensures tr.Valid() && tr.log == Recorded(old(tr.log), false)
  {
    var c := new T.Conn();
    tr.Add(c);
    tr.Finish(c, err);
  }

  /** The rest of Router.connect: a record that is finished at once unless the dial works. */
  method Record(tr: T.Tracker, call: Call, dialed: bool) returns (c: T.Conn)
    requires tr.Valid()
    modifies tr
    ensures tr.Valid() && fresh(c)
    ensures var open := !call.Refused? && dialed;
            tr.log == Recorded(old(tr.log), open) && Tracked(tr, c, old(tr.log).next + 1, open)
  {
    c := new T.Conn();
    tr.Add(c);
    if call.Refused? || !dialed {
      tr.Finish(c, "rejected or not reached");
    }
  }

  /** Router.Connect: what an explicit proxy client asks for. literal is the parsed host, if it is an address. */
  function Asked(host: string, literal: Option<Addr>, port: u16): Dest
  {
    if literal.Some? then Dest("", literal.value.Unmap(), port, false, "", false, "")
    else Dest(host, NoAddr, port, false, "", false, "")
  }

  /** What such a client asks for goes where the rules say, whatever the policy for unknown names. */
  lemma ExplicitMeaning(rules: seq<Compiled>, unknown: string, host: string, literal: Option<Addr>, port: u16)
    ensures var res := if literal.Some? then Match(rules, Query("", literal.value.Unmap(), port, "")) else Match(rules, Query(host, NoAddr, port, ""));
            TargetOf(rules, unknown, Asked(host, literal, port)) == res.target
  {
  }

  /**
   The policy for unknown names, in full: it changes the target only of captured,
   nameless, not bypassed connections; reject overrides all but an outer_sni rule,
   an egress only where no rule matched.
   */
  lemma UnknownDomainPolicy(rules: seq<Compiled>, unknown: string, d: Dest)
    ensures var res := Matched(rules, d);
            var target := TargetOf(rules, unknown, d);
            && (d.domain != "" || d.bypass != "" || !d.transparent || res.byOuterSNI ==> target == res.target)
            && (res.ruleIndex >= 0 && unknown != REJECT ==> target == res.target)
            && (target != res.target ==> unknown == REJECT || (EgressNamed(unknown).Some? && res.implicit))
  {
    if Matched(rules, d).ruleIndex < 0 && d.bypass == "" {
      ImplicitIsLast(rules, 0, NormalizeDomain(d.domain), NormalizeDomain(d.outerSNI), d.ip.Unmap(), d.port);
    }
  }

  /**
   And it does change it: reject refuses every captured nameless connection that neither
   a bypass nor an outer name decided, also where a rule matched; "egress:e" sends those
   no rule matched to e. Anything else goes where the rules, or the bypass, say.
   */
  lemma UnknownDomainDecides(rules: seq<Compiled>, unknown: string, d: Dest, network: Network, e: string)
    ensures var res := Matched(rules, d);
            var nameless := d.transparent && d.domain == "" && d.bypass == "" && !res.byOuterSNI;
            && (nameless && unknown == "reject" ==> TargetOf(rules, unknown, d) == "reject" && CallOf(rules, unknown, d, network) == Refused)
            && (nameless && res.implicit && unknown == "egress:" + e ==> TargetOf(rules, unknown, d) == e)
            && (!nameless || (unknown != "reject" && (!res.implicit || !("egress:" <= unknown))) ==> TargetOf(rules, unknown, d) == res.target)
    ensures d.bypass != "" ==> TargetOf(rules, unknown, d) == "direct"
    ensures d.bypass == "" ==> Matched(rules, d) == Match(rules, Query(d.domain, d.ip, d.port, d.outerSNI))
  {
    if d.bypass == "" {
      ImplicitIsLast(rules, 0, NormalizeDomain(d.domain), NormalizeDomain(d.outerSNI), d.ip.Unmap(), d.port);
    }
    if unknown == "egress:" + e {
      assert unknown[..7] == "egress:" && unknown[7..] == e;
    }
  }

  /**
   Exits resolve names themselves, so they are handed the name whenever there is one,
   over TCP and UDP alike; direct and tailnet connections keep the address the client
   chose, and use the name only where there is no real address. The call is to the
   target decided on, or refused; tailnet UDP goes by the general UDP dial.
   */
  lemma WhatIsDialed(rules: seq<Compiled>, unknown: string, d: Dest, network: Network)
    ensures var call := CallOf(rules, unknown, d, network);
            var target := TargetOf(rules, unknown, d);
            var toName := if d.domain != "" then Name(d.domain) else Literal(d.ip);
            var toAddr := if d.ip.IsValid() then Literal(d.ip) else toName;
            && (call.Refused? <==> target == "reject")
            && (target == "direct" ==> call == DialDirect(toAddr, d.port))
            && (target == "tailnet" ==> call == if network.TCP? then DialTailnet(toAddr, d.port) else DialUDP("tailnet", toAddr, d.port))
            && (target !in {"reject", "direct", "tailnet"} ==>
                  call == if network.TCP? then DialEgress(target, toName, d.port) else DialUDP(target, toName, d.port))
  {
  }

  lemma {:induction false} ImplicitIsLast(rules: seq<Compiled>, i: nat, domain: string, outer: string, ip: Addr, port: u16)
    requires i <= |rules|
    ensures var r := MatchFrom(rules, i, domain, outer, ip, port); r.ruleIndex < 0 <==> r.implicit
    ensures var r := MatchFrom(rules, i, domain, outer, ip, port); r.byOuterSNI ==> outer != ""
    decreases |rules| - i
  {
    if i < |rules| {
      ImplicitIsLast(rules, i + 1, domain, outer, ip, port);
    }
  }

  // ------------------------------------------------------------- captured TCP and UDP

  /** What peeking at the client's first bytes, or its first QUIC datagrams, found. */
  datatype Sniffed = Sniffed(host: string, ech: bool)

  datatype Outcome =
    | Ignored
    | UnknownFakeIP
    | Blocked(domain: string)
    | Called(dest: Dest, call: Call)

  /** The inbound's settings. A nil callback is one that never says yes. */
  datatype Inbound = Inbound(
    listenPort: u16,
    block: string -> bool,
    learned: Addr -> Option<string>,
    bypass: Addr -> string,
    rules: seq<Compiled>,
    unknown: string)

  /** Sniffing, and then the learned name of the address, for a destination without a name. */
  function Named(t: Inbound, d: Dest, ip: Addr, sniffed: Sniffed): Dest
  {
    if d.domain != "" || d.bypass != "" then d
    else
      var found := if sniffed.ech then "" else sniffed.host;
      var outer := if sniffed.ech then sniffed.host else d.outerSNI;
      var domain := if found == "" && t.learned(ip).Some? then t.learned(ip).value else found;
      d.(domain := domain, ech := sniffed.ech, outerSNI := outer)
  }

  /** A connection to a real address carries it; one to a pool address carries the name instead. */
  function RealDest(t: Inbound, ip: Addr, port: u16, sniffed: Sniffed): Dest
  {
    Named(t, Dest("", ip, port, false, "", true, t.bypass(ip)), ip, sniffed)
  }

  /** TCP sniffs for a name the pool held empty, UDP does not. */
  function FakeDest(network: Network, t: Inbound, name: string, ip: Addr, port: u16, sniffed: Sniffed): Dest
  {
    var d := Dest(name, NoAddr, port, false, "", true, "");
    if network.TCP? then Named(t, d, ip, sniffed) else d
  }

  /** What there is to connect to: a TCP connection to the inbound itself, a pool address without a name, or this. */
  datatype Found = Itself | NoName | Goes(d: Dest)

  function Finish(network: Network, t: Inbound, f: Found): Outcome
  {
    match f
    case Itself => Ignored
    case NoName => UnknownFakeIP
    case Goes(d) => if d.domain != "" && t.block(d.domain) then Blocked(d.domain) else Called(d, CallOf(t.rules, t.unknown, d, network))
  }

  ghost predicate InPool(p4: Table, p6: Option<Table>, a: Addr)
  {
    p4.prefix.Contains(a.Unmap()) || (p6.Some? && p6.value.prefix.Contains(a.Unmap()))
  }

  ghost predicate PoolTables(p4: Table, p6: Option<Table>)
  {
    ValidTable(p4) && p4.prefix.base.V4? && (p6.Some? ==> ValidTable(p6.value) && p6.value.prefix.base.V6? && Unmapped(p6.value.prefix.base))
  }

  /** A TCP connection to the inbound's own port. */
  predicate ToItself(network: Network, t: Inbound, ip: Addr, port: u16)
  {
    network.TCP? && IsLoopback(ip) && port == t.listenPort
  }

  /** What a captured connection or flow is to without a pool. */
  function FoundUnpooled(network: Network, t: Inbound, ip: Addr, port: u16, sniffed: Sniffed): Found
  {
    if ToItself(network, t, ip, port) then Itself else Goes(RealDest(t, ip, port, sniffed))
  }

  /** The same with a pool in this state. */
  ghost function FoundPooled(network: Network, t: Inbound, p4: Table, p6: Option<Table>, ip: Addr, port: u16, sniffed: Sniffed): Found
    requires PoolTables(p4, p6)
  {
    if !ToItself(network, t, ip, port) && InPool(p4, p6, ip) then
      var name := PoolLookup(p4, p6, ip);
      if name.None? then NoName else Goes(FakeDest(network, t, name.value, ip, port, sniffed))
    else FoundUnpooled(network, t, ip, port, sniffed)
  }

  /** What a captured connection or flow comes to. */
  ghost function Handled(network: Network, t: Inbound, p4: Table, p6: Option<Table>, addr: Addr, port: u16, sniffed: Sniffed): Outcome
    requires PoolTables(p4, p6)
  {
    Finish(network, t, FoundPooled(network, t, p4, p6, addr.Unmap(), port, sniffed))
  }

  ghost function Unpooled(network: Network, t: Inbound, addr: Addr, port: u16, sniffed: Sniffed): Outcome
  {
    Finish(network, t, FoundUnpooled(network, t, addr.Unmap(), port, sniffed))
  }

  /**
   What a connection or flow to a real address comes to. A reason to bypass is taken
   before any sniffing, and goes direct. Otherwise the sniffed name is used, but the
   name of an ECH hello only as the outer one; without a name the learned one is. A
   public DoH name is refused.
   */
  lemma RealAddressMeaning(network: Network, t: Inbound, p4: Table, p6: Option<Table>, a: Addr, port: u16, sniffed: Sniffed)
    requires PoolTables(p4, p6) && !InPool(p4, p6, a)
    requires !(network.TCP? && IsLoopback(a.Unmap()) && port == t.listenPort)
    ensures var ip := a.Unmap();
            var why, learned := t.bypass(ip), if t.learned(ip).Some? then t.learned(ip).value else "";
            var name := if why != "" then "" else if !sniffed.ech && sniffed.host != "" then sniffed.host else learned;
            var d := if why != "" then Dest("", ip, port, false, "", true, why)
                     else Dest(name, ip, port, sniffed.ech, if sniffed.ech then sniffed.host else "", true, "");
            var out := Handled(network, t, p4, p6, a, port, sniffed);
            && out == Unpooled(network, t, a, port, sniffed)
            && out == (if name != "" && t.block(name) then Blocked(name) else Called(d, CallOf(t.rules, t.unknown, d, network)))
            && (why != "" && ip.IsValid() ==> out == Called(d, DialDirect(Literal(ip), port)))
  {
    UnmapTwice(a);
  }

  /**
   What one to an address of the pool comes to: nothing without a name, else the name in
   place of the address; a public DoH name is refused. Nothing is learned or sniffed.
   */
  lemma PoolAddressMeaning(network: Network, t: Inbound, p4: Table, p6: Option<Table>, a: Addr, port: u16, sniffed: Sniffed)
    requires PoolTables(p4, p6) && InPool(p4, p6, a)
    requires !(network.TCP? && IsLoopback(a.Unmap()) && port == t.listenPort)
    ensures var out := Handled(network, t, p4, p6, a, port, sniffed);
            match PoolLookup(p4, p6, a)
            case None => out == UnknownFakeIP
            case Some(name) =>
              var d := Dest(name, NoAddr, port, false, "", true, "");
              name != "" ==> out == if t.block(name) then Blocked(name) else Called(d, CallOf(t.rules, t.unknown, d, network))
  {
    UnmapTwice(a);
  }

  /** A TCP connection to the inbound's own port is closed. */
  lemma OwnPortIgnored(t: Inbound, p4: Table, p6: Option<Table>, a: Addr, sniffed: Sniffed)
    requires PoolTables(p4, p6) && IsLoopback(a.Unmap())
    ensures Handled(TCP, t, p4, p6, a, t.listenPort, sniffed) == Ignored
    ensures Handled(UDP, t, p4, p6, a, t.listenPort, sniffed) != Ignored
  {
  }

  ghost function SixOf(pool: Pool): Option<Table>
    reads pool, pool.v6
  {
    if pool.v6 == null then None else Some(pool.v6.State())
  }

  /** What the connection's record comes to: none if ignored, finished at once if refused, blocked or not reached. */
  function Logged(l: T.Log, out: Outcome, reached: bool): T.Log
  {
    if out.Ignored? then l else Recorded(l, out.Called? && !out.call.Refused? && reached)
  }

  /**
   In the tracker's terms: nothing happens for a connection closed at once; one that is
   reached is counted and active; any other is counted, failed and finished.
   */
  lemma LoggedMeaning(l: T.Log, out: Outcome, reached: bool)
    requires T.Consistent(l)
    ensures var g, id, open := Logged(l, out, reached), l.next + 1, reached && out.Called? && out.call != Refused;
            && (out == Ignored ==> g == l)
            && (out != Ignored ==> g.next == id && g.total == l.total + 1 && id !in l.active && id !in l.finished)
            && (out != Ignored && open ==> g.active == l.active + {id} && g.finished == l.finished && g.recent == l.recent && g.failed == l.failed)
            && (out != Ignored && !open ==> g.active == l.active && g.finished == l.finished + [id] && g.failed == l.failed + 1)
  {
    assert l.next + 1 !in l.counted;
    assert l.next + 1 !in T.Elems(l.finished);
    assert l.active + {l.next + 1} - {l.next + 1} == l.active;
  }

  /** The name found by sniffing or learned, for a destination without one. */
  method FindName(t: Inbound, d0: Dest, ip: Addr, sniffed: Sniffed) returns (d: Dest)
    ensures d == Named(t, d0, ip, sniffed)
  {
    d := d0;
    if d.domain == "" && d.bypass == "" {
      d := d.(ech := sniffed.ech);
      if sniffed.ech {
        d := d.(outerSNI := sniffed.host);
      } else if sniffed.host != "" {
        d := d.(domain := sniffed.host);
      }
      if d.domain == "" {
        var name := t.learned(ip);
        if name.Some? {
          d := d.(domain := name.value);
        }
      }
    }
  }

  /** The name a pool address leads to; NotInPool for any other address. */
  datatype PoolAnswer = NotInPool | Nameless | Leads(name: string)

  method LookUp(pool: Pool?, ip: Addr) returns (h: PoolAnswer)
    requires pool != null ==> pool.Valid()
    ensures h.NotInPool? <==> pool == null || !InPool(pool.v4.State(), SixOf(pool), ip)
    ensures !h.NotInPool? ==>
              PoolLookup(pool.v4.State(), SixOf(pool), ip) == if h.Leads? then Some(h.name) else None
  {
    if pool == null || !pool.Contains(ip) {
      return NotInPool;
    }
    var name := pool.Lookup(ip);
    return if name.Some? then Leads(name.value) else Nameless;
  }

  /** What Transparent.handle finds. */
  method FindTCP(t: Inbound, pool: Pool?, ip: Addr, port: u16, sniffed: Sniffed) returns (f: Found)
    requires pool != null ==> pool.Valid()
    ensures f == if pool == null then FoundUnpooled(TCP, t, ip, port, sniffed)
                 else FoundPooled(TCP, t, pool.v4.State(), SixOf(pool), ip, port, sniffed)
  {
    if IsLoopback(ip) && port == t.listenPort {
      return Itself;
    }
    var d := Dest("", NoAddr, port, false, "", true, "");
    var h := LookUp(pool, ip);
    match h {
      case Nameless => return NoName;
      case Leads(name) => d := d.(domain := name);
      case NotInPool => d := d.(ip := ip, bypass := t.bypass(ip));
    }
    d := FindName(t, d, ip, sniffed);
    return Goes(d);
  }

  /** What TransparentUDP.setup finds: it does not sniff for a name the pool held empty. */
  method FindUDP(t: Inbound, pool: Pool?, ip: Addr, port: u16, sniffed: Sniffed) returns (f: Found)
    requires pool != null ==> pool.Valid()
    ensures f == if pool == null then FoundUnpooled(UDP, t, ip, port, sniffed)
                 else FoundPooled(UDP, t, pool.v4.State(), SixOf(pool), ip, port, sniffed)
  {
    var d := Dest("", NoAddr, port, false, "", true, "");
    var h := LookUp(pool, ip);
    match h {
      case Nameless => return NoName;
      case Leads(name) => d := d.(domain := name);
      case NotInPool =>
        d := d.(ip := ip);
        if t.bypass(ip) != "" {
          d := d.(bypass := t.bypass(ip));
        } else {
          d := FindName(t, d, ip, sniffed);
        }
    }
    return Goes(d);
  }

  /** Nameless pool addresses and public DoH names are refused, anything else is connected. */
  method Decide(network: Network, t: Inbound, f: Found) returns (out: Outcome)
    ensures out == Finish(network, t, f)
  {
    if f.Itself? {
      return Ignored;
    }
    if f.NoName? {
      return UnknownFakeIP;
    }
    if f.d.domain != "" && t.block(f.d.domain) {
      return Blocked(f.d.domain);
    }
    var call := Connect(t.rules, t.unknown, f.d, network);
    return Called(f.d, call);
  }

  /** The record of what was decided. */
  method Settle(tr: T.Tracker, out: Outcome, dialed: bool) returns (c: T.Conn?)
    requires tr.Valid()
    modifies tr
    ensures tr.Valid() && tr.log == Logged(old(tr.log), out, dialed)
    ensures out.Called? <==> c != null
    ensures c != null ==> fresh(c) && Tracked(tr, c, old(tr.log).next + 1, !out.call.Refused? && dialed)
  {
    if out.Called? {
      c := Record(tr, out.call, dialed);
    } else {
      c := null;
      if !out.Ignored? {
        Refuse(tr, "no name, or a public DoH endpoint");
      }
    }
  }

  /** Transparent.handle, up to the relay. */
  method Handle(t: Inbound, pool: Pool?, tr: T.Tracker, addr: Addr, port: u16, sniffed: Sniffed, dialed: bool)
    returns (out: Outcome, c: T.Conn?)
    requires (pool != null ==> pool.Valid()) && tr.Valid()
    modifies tr
    ensures out == if pool == null then Unpooled(TCP, t, addr, port, sniffed)
                   else Handled(TCP, t, pool.v4.State(), SixOf(pool), addr, port, sniffed)
    ensures tr.Valid() && tr.log == Logged(old(tr.log), out, dialed)
    ensures c != null <==> out.Called?
    ensures c != null ==> Tracked(tr, c, old(tr.log).next + 1, !out.call.Refused? && dialed)
  {
    var f := FindTCP(t, pool, addr.Unmap(), port, sniffed);
    out := Decide(TCP, t, f);
    c := Settle(tr, out, dialed);
  }

  /** TransparentUDP.setup: a reply socket that fails finishes the record as a failed dial does. */
  method SetupFlow(t: Inbound, pool: Pool?, tr: T.Tracker, addr: Addr, port: u16, sniffed: Sniffed, dialed: bool, replies: bool)
    returns (out: Outcome, ok: bool)
    requires (pool != null ==> pool.Valid()) && tr.Valid()
    modifies tr
    ensures out == if pool == null then Unpooled(UDP, t, addr, port, sniffed)
                   else Handled(UDP, t, pool.v4.State(), SixOf(pool), addr, port, sniffed)
    ensures ok == (out.Called? && !out.call.Refused? && dialed && replies)
    ensures tr.Valid() && tr.log == Logged(old(tr.log), out, dialed && replies)
  {
    var f := FindUDP(t, pool, addr.Unmap(), port, sniffed);
    out := Decide(UDP, t, f);
    ok := SettleFlow(tr, out, dialed, replies);
  }

  method SettleFlow(tr: T.Tracker, out: Outcome, dialed: bool, replies: bool) returns (ok: bool)
    requires tr.Valid()
    modifies tr
    ensures ok == (out.Called? && !out.call.Refused? && dialed && replies)
    ensures tr.Valid() && tr.log == Logged(old(tr.log), out, dialed && replies)
  {
    var c := Settle(tr, out, dialed);
    ok := out.Called? && !out.call.Refused? && dialed && replies;
    if out.Called? && !out.call.Refused? && dialed && !replies {
      tr.Finish(c, "reply socket");
    }
  }

  // ----------------------------------------------------------------- DNS answers

  datatype QType = TypeA | TypeAAAA | TypeHTTPS | TypeSVCB | OtherType

  datatype Question = Question(name: string, inet: bool, qtype: QType)

  /** A parsed query: no header or a response; a header without a question; a question. */
  datatype Message = Malformed | NoQuestion | Asks(question: Question)

  datatype Reply = Dropped | FormatError | NameError | Faked(answers: seq<Addr>) | Forwarded | ServerFailure

  datatype Counters = Counters(queries: nat, canaryHits: nat, blocked: nat, faked: nat, failed: nat, forwarded: nat)

  const CANARY_DOMAIN := "use-application-dns.net"

  datatype Settings = Settings(canary: bool, block: string -> bool, rules: seq<Compiled>)

  predicate Fakeable(q: QType) { !q.OtherType? }

  /** Whether a question is answered from the pool. */
  predicate GetsFake(s: Settings, q: Question)
  {
    var name := NormalizeName(q.name);
    && !(s.canary && name == CANARY_DOMAIN) && !s.block(name)
    && q.inet && DomainMayRoute(s.rules, name) && Fakeable(q.qtype)
  }

  /** The pool's key for a queried name: both the server and the pool normalise. */
  function Key(name: string): string { NormalizeName(NormalizeName(name)) }

  class Server {
    const pool: Pool?
    var counters: Counters

    constructor (pool: Pool?)
      ensures this.pool == pool && counters == Counters(0, 0, 0, 0, 0, 0)
    {
      this.pool, counters := pool, Counters(0, 0, 0, 0, 0, 0);
    }

    /** The addresses of a fake answer; HTTPS and SVCB get none, so no hint leads around the pool. */
    method FakeAnswer(pool: Pool, q: Question) returns (answers: seq<Addr>)
      requires pool.Valid()
      modifies pool.v4, pool.v6
      ensures pool.Valid()
      ensures pool.v4.State() == if q.qtype.TypeA? then GetTable(old(pool.v4.State()), Key(q.name)) else old(pool.v4.State())
      ensures pool.v6 != null ==>
                pool.v6.State() == if q.qtype.TypeAAAA? then GetTable(old(pool.v6.State()), Key(q.name)) else old(pool.v6.State())
      ensures answers == if q.qtype.TypeA? then [AnswerOf(old(pool.v4.State()), Key(q.name))]
                         else if q.qtype.TypeAAAA? && pool.v6 != null then [AnswerOf(old(pool.v6.State()), Key(q.name))]
                         else []
    {
      answers := [];
      if q.qtype.TypeA? {
        var a := pool.V4(NormalizeName(q.name));
        return [a];
      }
      if q.qtype.TypeAAAA? {
        var a := pool.V6(NormalizeName(q.name));
        if a.Some? {
          return [a.value];
        }
      }
    }

    /**
     handle. A question the rules may route never reaches an upstream: it is answered
     from the pool, whatever the upstream would do. Each query bumps at most one of
     the outcome counters.
     */
    method Handle(s: Settings, m: Message, upstreamOK: bool) returns (r: Reply)
      requires pool != null ==> pool.Valid()
      modifies this
      modifies if pool == null then {} else {pool.v4}
      modifies if pool == null || pool.v6 == null then {} else {pool.v6}
      ensures pool != null ==> pool.Valid()
      ensures m.Asks? && pool != null ==> (r.Faked? <==> GetsFake(s, m.question))
      ensures r.Dropped? <==> m.Malformed?
      ensures r.FormatError? <==> m.NoQuestion?
      ensures r.NameError? <==> m.Asks? && (var name := NormalizeName(m.question.name);
                                            (s.canary && name == "use-application-dns.net") || s.block(name))
      ensures r.Faked? <==> m.Asks? && pool != null && m.question.inet && !m.question.qtype.OtherType?
                            && (var name := NormalizeName(m.question.name);
                                !(s.canary && name == "use-application-dns.net") && !s.block(name) && DomainMayRoute(s.rules, name))
      ensures r.ServerFailure? ==> !upstreamOK
      ensures r.Faked? ==> m.Asks? && pool != null && |r.answers| <= 1
      ensures r.Forwarded? ==> m.Asks? && upstreamOK
      ensures r.Faked? && m.question.qtype.TypeA? ==>
                && r.answers == [AnswerOf(old(pool.v4.State()), Key(m.question.name))]
                && pool.v4.State() == GetTable(old(pool.v4.State()), Key(m.question.name))
      ensures r.Faked? && m.question.qtype.TypeAAAA? && pool.v6 != null ==>
                && r.answers == [AnswerOf(old(pool.v6.State()), Key(m.question.name))]
                && pool.v6.State() == GetTable(old(pool.v6.State()), Key(m.question.name))
      ensures pool != null && !(r.Faked? && m.question.qtype.TypeA?) ==> pool.v4.State() == old(pool.v4.State())
      ensures pool != null && pool.v6 != null && !(r.Faked? && m.question.qtype.TypeAAAA?) ==> pool.v6.State() == old(pool.v6.State())
      ensures counters.queries == old(counters).queries + 1
      ensures counters.faked == old(counters).faked + (if r.Faked? then 1 else 0)
      ensures counters.forwarded == old(counters).forwarded + (if r.Forwarded? then 1 else 0)
      ensures counters.failed == old(counters).failed + (if r.ServerFailure? then 1 else 0)
      ensures counters.canaryHits + counters.blocked == old(counters).canaryHits + old(counters).blocked + (if r.NameError? then 1 else 0)
    {
      counters := counters.(queries := counters.queries + 1);
      if m.Malformed? {
        return Dropped;
      }
      if m.NoQuestion? {
        return FormatError;
      }
      var q := m.question;
      var name := NormalizeName(q.name);
      if s.canary && name == CANARY_DOMAIN {
        counters := counters.(canaryHits := counters.canaryHits + 1);
        return NameError;
      }
      if s.block(name) {
        counters := counters.(blocked := counters.blocked + 1);
        return NameError;
      }
      if pool != null && q.inet && DomainMayRoute(s.rules, name) && Fakeable(q.qtype) {
        counters := counters.(faked := counters.faked + 1);
        var answers := FakeAnswer(pool, q);
        return Faked(answers);
      }
      if !upstreamOK {
        counters := counters.(failed := counters.failed + 1);
        return ServerFailure;
      }
      counters := counters.(forwarded := counters.forwarded + 1);
      return Forwarded;
    }
  }

  // ------------------------------------------------------------------ end to end

  /** How many new addresses were handed out since this one. */
  function Age(t: Table, off: nat): nat
    requires t.size > 0 && off < t.size
  {
    (t.next + t.size - 1 - off) % t.size
  }

  lemma HeldSince(t: Table, name: string, off: nat)
    requires name in t.byName && t.byName[name] == off && off < t.size && t.next < t.size
    ensures HeldFor(t, name, off, Age(t, off))
  {
    AgeIs(t.next, t.size, off);
  }

  lemma AgeHolds(t: Table, name: string)
    requires ValidTable(t) && name in t.byName
    ensures t.byName[name] < t.size && HeldFor(t, name, t.byName[name], Age(t, t.byName[name]))
  {
    assert t.byName[name] in t.byOff;
    HeldSince(t, name, t.byName[name]);
  }

  lemma AgeIs(next: nat, size: nat, off: nat)
    requires off < size && next < size
    ensures var age := (next + size - 1 - off) % size; age < size && next == (off + 1 + age) % size
  {
    var x := next + size - 1 - off;
    Wrap(x, size);
    Wrap(off + 1 + x % size, size);
  }

  /**
   An answer, new or repeated, leads back to its name as long as the address is
   younger than the pool is large. A repeated answer does not make it younger.
   */
  lemma AnswerLeadsBack(t: Table, name: string, later: seq<string>)
    requires ValidTable(t)
    ensures var u := GetTable(t, name);
            && ValidTable(u) && name in u.byName && u.byName[name] < u.size && ValidTable(Run(u, later))
            && (name !in t.byName ==> Age(u, u.byName[name]) == 0)
            && (name in t.byName ==> u == t)
            && (Age(u, u.byName[name]) + Allocations(u, later) < t.size ==>
                  LookupTable(Run(u, later), AnswerOf(t, name)) == Some(name))
            && u.prefix.Contains(AnswerOf(t, name))
  {
    GetKeeps(t, name);
    var u := GetTable(t, name);
    HeldLeadsBack(u, name, later);
    if name !in t.byName {
      FreshAge(t.size, t.next);
    }
  }

  /** The same for a name the table holds. */
  lemma HeldLeadsBack(u: Table, name: string, later: seq<string>)
    requires ValidTable(u) && name in u.byName
    ensures u.byName[name] < u.size && ValidTable(Run(u, later))
    ensures u.prefix.Contains(AddrAt(u.prefix, u.byName[name]))
    ensures Age(u, u.byName[name]) + Allocations(u, later) < u.size ==>
              LookupTable(Run(u, later), AddrAt(u.prefix, u.byName[name])) == Some(name)
  {
    var off := u.byName[name];
    AgeHolds(u, name);
    RunKeeps(u, later);
    AddressRoundTrip(u.prefix, off);
    var age := Age(u, off);
    if age + Allocations(u, later) < u.size {
      KeepsOffset(u, name, off, age, later);
      assert Run(u, later).byOff[off] == name;
    }
  }

  lemma FreshAge(size: nat, off: nat)
    requires off < size
    ensures ((off + 1) % size + size - 1 - off) % size == 0
  {
    Wrap(off + 1, size);
    Wrap((off + 1) % size + size - 1 - off, size);
  }

  /** A name the pool's normalisation does not change any more. */
  predicate Settled(name: string)
  {
    name != "" && NormalizeName(name) == name
  }

  /** A captured connection or flow to a pool address that leads to a name is matched on that name alone. */
  lemma MappedIsMatchedByName(network: Network, t: Inbound, p4: Table, p6: Option<Table>, a: Addr, port: u16, sniffed: Sniffed, name: string)
    requires PoolTables(p4, p6) && InPool(p4, p6, a) && name != "" && PoolLookup(p4, p6, a) == Some(name)
    requires Unmapped(a) && !ToItself(network, t, a, port)
    ensures Handled(network, t, p4, p6, a, port, sniffed) == Finish(network, t, Goes(Dest(name, NoAddr, port, false, "", true, "")))
  {
  }

  /** The pool's table of one family. */
  ghost function TableOf(p4: Table, p6: Option<Table>, six: bool): Table
    requires six ==> p6.Some?
  {
    if six then p6.value else p4
  }

  /** Fewer than size new addresses were handed out from the one answered for the name to the end of the run. */
  ghost predicate YoungEnough(p: Table, name: string, later: seq<string>)
    requires p.size > 0
  {
    var u := GetTable(p, name);
    ValidTable(u) && name in u.byName && u.byName[name] < u.size
    && Age(u, u.byName[name]) + Allocations(u, later) < p.size
  }

  /** The address answered for a name is not IPv4-mapped. */
  lemma AnswerUnmapped(p: Table, name: string)
    requires ValidTable(p) && Unmapped(p.prefix.base)
    ensures Unmapped(AnswerOf(p, name))
  {
    GetKeeps(p, name);
    HandedOutUnmapped(p.prefix, GetTable(p, name).byName[name]);
  }

  /**
   FakeIP end to end, over TCP and UDP. The address answered for a name out of table p,
   used while it is young enough, reaches the rules as that name without an address, and
   is dialed as an explicit proxy client asking for the name would be.
   */
  lemma FakeIPEndToEnd(network: Network, t: Inbound, p: Table, qname: string, later: seq<string>, q4: Table, q6: Option<Table>,
                       six: bool, port: u16, sniffed: Sniffed)
    requires ValidTable(p) && PoolTables(q4, q6) && (six ==> q6.Some?)
    requires TableOf(q4, q6, six) == Run(GetTable(p, Key(qname)), later)
    requires var n := Key(qname); n != "" && !t.block(n) && YoungEnough(p, n, later)
    requires !ToItself(network, t, AnswerOf(p, Key(qname)), port)
    ensures var n := Key(qname);
            Handled(network, t, q4, q6, AnswerOf(p, n), port, sniffed)
            == Called(Dest(n, NoAddr, port, false, "", true, ""), CallOf(t.rules, t.unknown, Asked(n, None, port), network))
  {
    var n := Key(qname);
    AnswerLeadsBack(p, n, later);
    RunKeeps(GetTable(p, n), later);
    AnswerUnmapped(p, n);
    MappedIsMatchedByName(network, t, q4, q6, AnswerOf(p, n), port, sniffed, n);
    NameDecides(t.rules, t.unknown, n, port, network);
  }

  /** With a name, being captured makes no difference to the call. */
  lemma NameDecides(rules: seq<Compiled>, unknown: string, n: string, port: u16, network: Network)
    requires n != ""
    ensures CallOf(rules, unknown, Dest(n, NoAddr, port, false, "", true, ""), network)
            == CallOf(rules, unknown, Asked(n, None, port), network)
  {
  }

  /**
   Selective capture end to end: when the rules send a name anywhere but direct on some
   port, its A or AAAA query is answered from the pool, and a connection or flow to that
   address and port is refused, or handed to exactly that target with the name to resolve there.
   */
  lemma RoutedNameReachesItsTarget(network: Network, s: Settings, t: Inbound, q: Question, p: Table, later: seq<string>, q4: Table,
                                   q6: Option<Table>, port: u16, sniffed: Sniffed)
    requires ValidTable(p) && PoolTables(q4, q6) && (q.qtype.TypeAAAA? ==> q6.Some?)
    requires s.rules == t.rules && q.inet && (q.qtype.TypeA? || q.qtype.TypeAAAA?)
    requires var n := NormalizeName(q.name);
             Settled(n) && !s.block(n) && !(s.canary && n == CANARY_DOMAIN) && !t.block(n)
    requires Match(t.rules, Query(NormalizeName(q.name), NoAddr, port, "")).target != DIRECT
    requires YoungEnough(p, Key(q.name), later)
    requires TableOf(q4, q6, q.qtype.TypeAAAA?) == Run(GetTable(p, Key(q.name)), later)
    requires !ToItself(network, t, AnswerOf(p, Key(q.name)), port)
    ensures GetsFake(s, q)
    ensures var n := NormalizeName(q.name);
            var target := Match(t.rules, Query(n, NoAddr, port, "")).target;
            var out := Handled(network, t, q4, q6, AnswerOf(p, n), port, sniffed);
            && out.Called?
            && out.call == if target == REJECT then Refused
                           else if network.UDP? then DialUDP(target, Name(n), port)
                           else if target == TAILNET then DialTailnet(Name(n), port)
                           else DialEgress(target, Name(n), port)
  {
    var n := NormalizeName(q.name);
    SelectiveLosesNothing(t.rules, n, NoAddr, port);
    assert DomainMayRoute(t.rules, n) by {
      assert forall p: Prefix :: !p.Contains(NoAddr);
    }
    FakeIPEndToEnd(network, t, p, q.name, later, q4, q6, q.qtype.TypeAAAA?, port, sniffed);
  }

  /** The host a call dials, if it dials one. */
  function Dialed(call: Call): Option<Host>
  {
    if call.Refused? then None else Some(call.host)
  }

  /** What is dialed for an address of the pool is its name, and nothing is if it has none. */
  lemma PooledDialsName(network: Network, t: Inbound, p4: Table, p6: Option<Table>, a: Addr, port: u16, sniffed: Sniffed)
    requires PoolTables(p4, p6) && InPool(p4, p6, a)
    ensures var out := Handled(network, t, p4, p6, a, port, sniffed);
            && (PoolLookup(p4, p6, a) == None && !out.Ignored? ==> out == UnknownFakeIP)
            && (out.Called? ==> out.dest.ip == NoAddr && (Dialed(out.call).Some? ==> Dialed(out.call) == Some(HostOf(out.dest, ""))))
  {
    UnmapTwice(a);
  }

  /** Nothing captured dials an address of the pool, whatever the pool's state; an unmapped one dials nothing. */
  lemma PoolIsNeverDialed(network: Network, t: Inbound, p4: Table, p6: Option<Table>, a: Addr, port: u16, sniffed: Sniffed)
    requires PoolTables(p4, p6)
    ensures var out := Handled(network, t, p4, p6, a, port, sniffed);
            && (InPool(p4, p6, a) && PoolLookup(p4, p6, a) == None && !out.Ignored? ==> out == UnknownFakeIP)
            && (out.Called? && InPool(p4, p6, a) ==>
                  out.dest.ip == NoAddr && (Dialed(out.call).Some? ==> Dialed(out.call) == Some(HostOf(out.dest, ""))))
            && (out.Called? && Dialed(out.call).Some? && Dialed(out.call).value.Literal? ==>
                  !InPool(p4, p6, Dialed(out.call).value.addr))
  {
    if InPool(p4, p6, a) {
      PooledDialsName(network, t, p4, p6, a, port, sniffed);
    } else {
      UnmapTwice(a);
    }
  }

  lemma UnmapTwice(a: Addr)
    ensures a.Unmap().Unmap() == a.Unmap()
  {
  }
}
