/**
 A small nftables: the statements and verdicts the generated ruleset uses, and
 an interpreter with nft's jump, goto and return semantics.
 */
module Nft {
  import opened Wrappers
  import opened Addr

  datatype Proto = TCP | UDP | OtherProto

  /**
   A packet as the chains see it. local is what "fib daddr type local" answers,
   transparent what "socket transparent 1" answers; tproxy and redirect record
   where a chain sent it.
   */
  datatype Packet = Packet(
    proto: Proto,
    daddr: Addr,
    dport: u16,
    mark: bv32,
    local: bool,
    transparent: bool,
    tproxy: Option<u16>,
    redirect: Option<u16>)
  {
    predicate HasPorts() { proto != OtherProto }
  }

  /** One match expression of a rule. */
  datatype Test =
    | Always
    | ProtoNotIn(protos: set<Proto>)
    | ProtoIn(protos: set<Proto>)
    | DaddrIn4(name: string)
    | DaddrIn6(name: string)
    | IPv4
    | IPv6
    | DportIs(port: u16)
    | MarkIs(mask: bv32, value: bv32)
    | FibLocal
    | SocketTransparent

  /** The match expressions of a rule, all of which must hold; no rule here has more than three. */
  datatype Cond = Cond(first: Test, second: Test, third: Test)

  function If(a: Test): Cond { Cond(a, Always, Always) }

  function If2(a: Test, b: Test): Cond { Cond(a, b, Always) }

  /** The verdict ends the rule; Redirect is a nat verdict, Reject a filter one. */
  datatype Verdict = Return | Accept | Reject | Redirect(to: u16) | Jump(chain: string) | Goto(chain: string)

  /** A rule: its conditions, an optional tproxy, an optional mark, a verdict. */
  datatype Rule = Rule(cond: Cond, tproxy: Option<u16>, setMark: Option<bv32>, verdict: Verdict)

  datatype Chain = End | Then(rule: Rule, next: Chain)

  /** The table: named address sets, named chains. */
  datatype Table = Table(sets: map<string, set<Prefix>>, chains: map<string, Chain>)

  /** How a chain run ended: Fell off its end (or returned), or with a verdict. */
  datatype Ending = Fell | Accepted | Rejected | Dropped

  datatype Outcome = Outcome(packet: Packet, end: Ending)

  predicate InSet(s: set<Prefix>, a: Addr)
  {
    exists p | p in s :: p.Contains(a)
  }

  predicate Passes(t: Table, c: Test, p: Packet)
  {
    match c
    case Always => true
    case ProtoNotIn(ps) => p.proto !in ps
    case ProtoIn(ps) => p.proto in ps
    case DaddrIn4(name) => p.daddr.V4? && name in t.sets && InSet(t.sets[name], p.daddr)
    case DaddrIn6(name) => p.daddr.V6? && name in t.sets && InSet(t.sets[name], p.daddr)
    case IPv4 => p.daddr.V4?
    case IPv6 => p.daddr.V6?
    case DportIs(port) => p.HasPorts() && p.dport == port
    case MarkIs(mask, value) => p.mark & mask == value
    case FibLocal => p.local
    case SocketTransparent => p.transparent
  }

  predicate Holds(t: Table, c: Cond, p: Packet)
  {
    Passes(t, c.first, p) && Passes(t, c.second, p) && Passes(t, c.third, p)
  }

  function Touch(r: Rule, p: Packet): Packet
  {
    var q := if r.tproxy.Some? then p.(tproxy := r.tproxy) else p;
    if r.setMark.Some? then q.(mark := r.setMark.value) else q
  }

  /**
   Runs a chain. A jump comes back to the next rule when its chain falls; a goto
   does not. depth is the kernel's limit on nested calls.
   */
  function Run(t: Table, c: Chain, p: Packet, depth: nat): Outcome
    decreases depth, c
  {
    match c
    case End => Outcome(p, Fell)
    case Then(r, next) =>
      if !Holds(t, r.cond, p) then Run(t, next, p, depth)
      else
        var q := Touch(r, p);
        match r.verdict
        case Return => Outcome(q, Fell)
        case Accept => Outcome(q, Accepted)
        case Reject => Outcome(q, Rejected)
        case Redirect(port) => Outcome(q.(redirect := Some(port), dport := port, local := true), Accepted)
        case Jump(name) =>
          if depth == 0 || name !in t.chains then Outcome(q, Dropped)
          else
            var o := Run(t, t.chains[name], q, depth - 1);
            if o.end == Fell then Run(t, next, o.packet, depth) else o
        case Goto(name) =>
          if depth == 0 || name !in t.chains then Outcome(q, Dropped)
          else Run(t, t.chains[name], q, depth - 1)
  }

  const JUMP_LIMIT: nat := 16

  /**
   Runs the base chains of one hook in priority order. Accepting in one base
   chain still runs the later ones; every base chain's policy is accept.
   */
  function RunHook(t: Table, names: seq<string>, p: Packet): Outcome
  {
    if names == [] then Outcome(p, Accepted)
    else if names[0] !in t.chains then RunHook(t, names[1..], p)
    else
      var o := Run(t, t.chains[names[0]], p, JUMP_LIMIT);
      if o.end == Rejected || o.end == Dropped then o else RunHook(t, names[1..], o.packet)
  }
}
