/**
 The first-match rule engine (internal/rule/rule.go) and the two static
 summaries selective capture relies on.
 */
module Rules {
  import opened Wrappers
  import opened Addr
  import opened Names
  import opened NameMeaning

  const DIRECT := "direct"
  const REJECT := "reject"
  const TAILNET := "tailnet"

  /** One rule as written in the configuration file. */
  datatype ConfigRule = ConfigRule(
    domain: seq<string>,
    domainSuffix: seq<string>,
    domainKeyword: seq<string>,
    ipCIDR: seq<string>,
    outerSNI: seq<string>,
    port: seq<u16>,
    egress: string,
    final: string)
  {
    function Target(): string { if final != "" then final else egress }
  }

  /**
   One rule as the engine keeps it. The nil maps of the source are the empty
   sets here: neither map is ever non-nil and empty.
   */
  datatype Compiled = Compiled(
    exact: set<string>,
    suffixes: seq<string>,
    keywords: seq<string>,
    prefixes: seq<Prefix>,
    outerSNI: seq<string>,
    ports: set<u16>,
    target: string,
    final: bool)
  {
    predicate HasDomainCond() { exact != {} || suffixes != [] || keywords != [] }

    predicate HasDest() { HasDomainCond() || prefixes != [] || outerSNI != [] }

    predicate HasCondition() { HasDest() || ports != {} }

    predicate PortOK(port: u16) { ports == {} || port in ports }
  }

  datatype Query = Query(domain: string, ip: Addr, port: u16, outerSNI: string)

  /** RuleIndex is -1 when the implicit final direct applied. */
  datatype MatchResult = MatchResult(ruleIndex: int, target: string, implicit: bool, byOuterSNI: bool)

  // ------------------------------------------------------------ matching

  predicate SuffixMatches(s: string, name: string)
  {
    name == s || HasSuffix(name, "." + s)
  }

  predicate MatchDest(r: Compiled, domain: string, ip: Addr)
  {
    if !r.HasDest() then true
    else if domain != "" &&
            (domain in r.exact
             || (exists s | s in r.suffixes :: SuffixMatches(s, domain))
             || (exists k | k in r.keywords :: ContainsText(domain, k))) then true
    else ip.IsValid() && exists p | p in r.prefixes :: p.Contains(ip)
  }

  predicate MatchOuterSNI(r: Compiled, outer: string)
  {
    outer != "" && exists s | s in r.outerSNI :: SuffixMatches(s, outer)
  }

  function MatchFrom(rules: seq<Compiled>, i: nat, domain: string, outer: string, ip: Addr, port: u16): MatchResult
    requires i <= |rules|
    decreases |rules| - i
  {
    if i == |rules| then MatchResult(-1, DIRECT, true, false)
    else
      var r := rules[i];
      if r.final then MatchResult(i, r.target, false, false)
      else if !r.PortOK(port) then MatchFrom(rules, i + 1, domain, outer, ip, port)
      else if MatchDest(r, domain, ip) then MatchResult(i, r.target, false, false)
      else if MatchOuterSNI(r, outer) then MatchResult(i, r.target, false, true)
      else MatchFrom(rules, i + 1, domain, outer, ip, port)
  }

  function Match(rules: seq<Compiled>, q: Query): MatchResult
  {
    MatchFrom(rules, 0, NormalizeDomain(q.domain), NormalizeDomain(q.outerSNI), q.ip.Unmap(), q.port)
  }

  predicate MayRouteFrom(rules: seq<Compiled>, i: nat, domain: string)
    requires i <= |rules|
    decreases |rules| - i
  {
    if i == |rules| then false
    else
      var r := rules[i];
      if r.final then r.target != DIRECT
      else if !r.HasDomainCond() then
        if r.prefixes == [] && r.outerSNI == [] && r.target != DIRECT then true
        else MayRouteFrom(rules, i + 1, domain)
      else if !MatchDest(r, domain, NoAddr) then MayRouteFrom(rules, i + 1, domain)
      else if r.target != DIRECT then true
      else if r.ports == {} then false
      else MayRouteFrom(rules, i + 1, domain)
  }

  predicate DomainMayRoute(rules: seq<Compiled>, domain: string)
  {
    MayRouteFrom(rules, 0, NormalizeDomain(domain))
  }

  function RoutedOf(rules: seq<Compiled>): seq<Prefix>
  {
    if rules == [] then []
    else
      var last := rules[|rules| - 1];
      RoutedOf(rules[..|rules| - 1]) + (if last.target != DIRECT then last.prefixes else [])
  }

  method RoutedPrefixes(rules: seq<Compiled>) returns (out: seq<Prefix>)
    ensures out == RoutedOf(rules)
    ensures forall p :: p in out <==> exists r :: r in rules && r.target != DIRECT && p in r.prefixes
  {
    out := [];
    for i := 0 to |rules|
      invariant out == RoutedOf(rules[..i])
    {
      assert rules[..i + 1][..i] == rules[..i];
      if rules[i].target != DIRECT {
        out := out + rules[i].prefixes;
      }
    }
    assert rules[..|rules|] == rules;
    RoutedOfMembers(rules);
  }

  lemma {:induction false} RoutedOfMembers(rules: seq<Compiled>)
    ensures forall p :: p in RoutedOf(rules) <==> exists r :: r in rules && r.target != DIRECT && p in r.prefixes
  {
    if rules != [] {
      var init, last := rules[..|rules| - 1], rules[|rules| - 1];
      RoutedOfMembers(init);
      assert rules == init + [last];
      forall p
        ensures p in RoutedOf(rules) <==> exists r :: r in rules && r.target != DIRECT && p in r.prefixes
      {
        if p in RoutedOf(init) {
          var r :| r in init && r.target != DIRECT && p in r.prefixes;
          assert r in rules;
        }
      }
    }
  }

  // -------------------------------------- what the summaries leave out

  /** A connection the rules may send anywhere but direct is captured. */
  lemma {:induction false} SelectiveFrom(rules: seq<Compiled>, i: nat, domain: string, ip: Addr, port: u16)
    requires i <= |rules|
    requires MatchFrom(rules, i, domain, "", ip, port).target != DIRECT
    ensures MayRouteFrom(rules, i, domain)
            || exists j, p :: i <= j < |rules| && rules[j].target != DIRECT && p in rules[j].prefixes && p.Contains(ip)
    decreases |rules| - i
  {
    if i < |rules| {
      var r := rules[i];
      if !r.final && !(r.PortOK(port) && MatchDest(r, domain, ip)) {
        SelectiveFrom(rules, i + 1, domain, ip, port);
      }
    }
  }

  /** A compiled rule takes the query. */
  predicate Takes(c: Compiled, name: string, outer: string, ip: Addr, port: u16)
  {
    c.final || (c.PortOK(port) && (MatchDest(c, name, ip) || MatchOuterSNI(c, outer)))
  }

  /** Rule j routes the address and port away from direct by a prefix, and no earlier rule takes the query. */
  ghost predicate RoutesAddress(rules: seq<Compiled>, i: nat, j: int, name: string, ip: Addr, port: u16)
  {
    && i <= j < |rules|
    && rules[j].target != DIRECT && rules[j].PortOK(port) && InAny(rules[j].prefixes, ip)
    && forall k :: i <= k < j ==> !Takes(rules[k], name, "", ip, port)
  }

  /** A query whose name may not route leaves direct exactly when a rule's prefix routes its address. */
  lemma {:induction false} RoutedByAddressIff(rules: seq<Compiled>, i: nat, name: string, ip: Addr, port: u16)
    requires i <= |rules| && !MayRouteFrom(rules, i, name)
    ensures MatchFrom(rules, i, name, "", ip, port).target != DIRECT
            <==> exists j :: RoutesAddress(rules, i, j, name, ip, port)
    decreases |rules| - i
  {
    if i < |rules| {
      var n := i + 1;
      if Takes(rules[i], name, "", ip, port) {
        if rules[i].target != DIRECT {
          assert RoutesAddress(rules, i, i, name, ip, port);
        }
      } else {
        RoutedByAddressIff(rules, n, name, ip, port);
        if j :| RoutesAddress(rules, i, j, name, ip, port) {
          assert RoutesAddress(rules, n, j, name, ip, port);
        }
        if j :| RoutesAddress(rules, n, j, name, ip, port) {
          assert RoutesAddress(rules, i, j, name, ip, port);
        }
      }
    }
  }

  /**
   Selective capture loses nothing: without an outer name, a query the rules
   send anywhere but direct either gets a FakeIP (its name may route) or has
   its address in the routed prefixes.
   */
  lemma SelectiveLosesNothing(rules: seq<Compiled>, domain: string, ip: Addr, port: u16)
    requires Match(rules, Query(domain, ip, port, "")).target != DIRECT
    ensures DomainMayRoute(rules, domain) || InAny(RoutedOf(rules), ip.Unmap())
  {
    assert NormalizeDomain("") == "";
    var d, a := NormalizeDomain(domain), ip.Unmap();
    SelectiveFrom(rules, 0, d, a, port);
    RoutedOfMembers(rules);
    if !MayRouteFrom(rules, 0, d) {
      var j, p :| 0 <= j < |rules| && rules[j].target != DIRECT && p in rules[j].prefixes && p.Contains(a);
      assert rules[j] in rules;
      assert p in RoutedOf(rules);
    }
  }

  /** The rule catches every connection to the bare name on the port. */
  predicate Catches(r: Compiled, domain: string, port: u16)
  {
    r.final || (r.PortOK(port) && MatchDest(r, domain, NoAddr))
  }

  /** Rule j routes port away from direct and no earlier direct rule shadows it. */
  ghost predicate Unshadowed(rules: seq<Compiled>, i: nat, j: int, domain: string, port: u16)
  {
    && i <= j < |rules|
    && rules[j].target != DIRECT
    && Catches(rules[j], domain, port)
    && forall k :: i <= k < j && rules[k].target == DIRECT ==> !Catches(rules[k], domain, port)
  }

  /** First match, seen from the outside: the name leaves direct on the port iff some rule is unshadowed. */
  lemma {:induction false} RoutedIffUnshadowed(rules: seq<Compiled>, i: nat, domain: string, port: u16)
    requires i <= |rules|
    ensures MatchFrom(rules, i, domain, "", NoAddr, port).target != DIRECT
            <==> exists j :: Unshadowed(rules, i, j, domain, port)
    decreases |rules| - i
  {
    if i < |rules| {
      var n := i + 1;
      RoutedIffUnshadowed(rules, n, domain, port);
      if Catches(rules[i], domain, port) {
        if rules[i].target != DIRECT {
          assert Unshadowed(rules, i, i, domain, port);
        }
      } else if exists j :: Unshadowed(rules, i, j, domain, port) {
        var j :| Unshadowed(rules, i, j, domain, port);
        assert Unshadowed(rules, n, j, domain, port);
      } else if exists j :: Unshadowed(rules, n, j, domain, port) {
        var j :| Unshadowed(rules, n, j, domain, port);
        assert Unshadowed(rules, i, j, domain, port);
      }
    }
  }

  /** Some port of the bare name leaves direct. */
  ghost predicate SomePortRouted(rules: seq<Compiled>, domain: string)
  {
    exists port: u16 :: Match(rules, Query(domain, NoAddr, port, "")).target != DIRECT
  }

  // ------------------------------------ the name summary, and when it is exact

  /** The rule catches the bare name on some port. */
  predicate MatchesName(r: Compiled, domain: string)
  {
    r.final || MatchDest(r, domain, NoAddr)
  }

  /** The scan of DomainMayRoute says no at this rule: a final one, or a direct one for the name on every port. */
  predicate EndsScan(r: Compiled, domain: string)
  {
    r.final || (r.target == DIRECT && r.ports == {} && r.HasDomainCond() && MatchDest(r, domain, NoAddr))
  }

  /** Rule j routes the name away from direct, and no earlier rule ends the scan. */
  ghost predicate Accepting(rules: seq<Compiled>, i: nat, j: int, domain: string)
  {
    && i <= j < |rules|
    && rules[j].target != DIRECT && MatchesName(rules[j], domain)
    && forall k :: i <= k < j ==> !EndsScan(rules[k], domain)
  }

  lemma {:induction false} MayRouteIffAccepting(rules: seq<Compiled>, i: nat, domain: string)
    requires i <= |rules|
    ensures MayRouteFrom(rules, i, domain) <==> exists j :: Accepting(rules, i, j, domain)
    decreases |rules| - i
  {
    if i < |rules| {
      var n := i + 1;
      MayRouteIffAccepting(rules, n, domain);
      if rules[i].target != DIRECT && MatchesName(rules[i], domain) {
        assert Accepting(rules, i, i, domain);
      } else if !EndsScan(rules[i], domain) {
        if exists j :: Accepting(rules, i, j, domain) {
          var j :| Accepting(rules, i, j, domain);
          assert Accepting(rules, n, j, domain);
        }
        if exists j :: Accepting(rules, n, j, domain) {
          var j :| Accepting(rules, n, j, domain);
          assert Accepting(rules, i, j, domain);
        }
      }
    }
  }

  /** The ports the first n rules send direct for the name. */
  function DirectPorts(rules: seq<Compiled>, n: nat, domain: string): set<u16>
    requires n <= |rules|
  {
    if n == 0 then {}
    else
      var r := rules[n - 1];
      DirectPorts(rules, n - 1, domain) + if r.target == DIRECT && MatchesName(r, domain) then r.ports else {}
  }

  /** One of the first n rules sends the name direct on every port. */
  predicate AllDirect(rules: seq<Compiled>, n: nat, domain: string)
    requires n <= |rules|
  {
    exists k | 0 <= k < n :: rules[k].target == DIRECT && MatchesName(rules[k], domain) && (rules[k].final || rules[k].ports == {})
  }

  /** Rule j routes the name on some port that the direct rules before it leave. */
  ghost predicate RoutesBeyond(rules: seq<Compiled>, j: int, domain: string)
  {
    && 0 <= j < |rules| && rules[j].target != DIRECT && MatchesName(rules[j], domain)
    && !AllDirect(rules, j, domain)
    && if rules[j].final || rules[j].ports == {} then exists port: u16 :: port !in DirectPorts(rules, j, domain)
       else !(rules[j].ports <= DirectPorts(rules, j, domain))
  }

  lemma {:induction false} DirectPortsAre(rules: seq<Compiled>, n: nat, domain: string, port: u16)
    requires n <= |rules|
    ensures port in DirectPorts(rules, n, domain)
            <==> exists k :: 0 <= k < n && rules[k].target == DIRECT && MatchesName(rules[k], domain) && port in rules[k].ports
  {
    if n > 0 {
      var last := n - 1;
      DirectPortsAre(rules, last, domain, port);
      assert rules[last] == rules[n - 1];
    }
  }

  lemma UnshadowedIffBeyond(rules: seq<Compiled>, j: int, domain: string)
    ensures (exists port: u16 :: Unshadowed(rules, 0, j, domain, port)) <==> RoutesBeyond(rules, j, domain)
  {
    if exists port: u16 :: Unshadowed(rules, 0, j, domain, port) {
      var port: u16 :| Unshadowed(rules, 0, j, domain, port);
      DirectPortsAre(rules, j, domain, port);
    }
    if RoutesBeyond(rules, j, domain) {
      var port: u16 :| port !in DirectPorts(rules, j, domain) && (rules[j].final || rules[j].PortOK(port));
      DirectPortsAre(rules, j, domain, port);
      assert Unshadowed(rules, 0, j, domain, port);
    }
  }

  /**
   DomainMayRoute never misses a name. It is exact unless some rule accepts the name
   while each rule that routes it does so only on ports that earlier direct rules take.
   */
  lemma DomainMayRouteExactIff(rules: seq<Compiled>, domain: string)
    ensures SomePortRouted(rules, domain) ==> DomainMayRoute(rules, domain)
    ensures var d := NormalizeDomain(domain);
            (DomainMayRoute(rules, domain) <==> SomePortRouted(rules, domain))
            <==> ((exists j :: Accepting(rules, 0, j, d)) ==> exists j :: RoutesBeyond(rules, j, d))
  {
    var d := NormalizeDomain(domain);
    assert NormalizeDomain("") == "";
    MayRouteIffAccepting(rules, 0, d);
    if SomePortRouted(rules, domain) {
      var port: u16 :| Match(rules, Query(domain, NoAddr, port, "")).target != DIRECT;
      SelectiveFrom(rules, 0, d, NoAddr, port);
      RoutedIffUnshadowed(rules, 0, d, port);
      var j :| Unshadowed(rules, 0, j, d, port);
      UnshadowedIffBeyond(rules, j, d);
    }
    if j :| RoutesBeyond(rules, j, d) {
      UnshadowedIffBeyond(rules, j, d);
      var port: u16 :| Unshadowed(rules, 0, j, d, port);
      RoutedIffUnshadowed(rules, 0, d, port);
      assert Match(rules, Query(domain, NoAddr, port, "")).target != DIRECT;
    }
  }

  /** No direct rule has ports, and only the final rule is unconditional. */
  predicate PlainDirects(rules: seq<Compiled>)
  {
    forall r :: r in rules && !r.final ==> r.HasCondition() && (r.target == DIRECT ==> r.ports == {})
  }

  lemma {:induction false} MayRouteHasPort(rules: seq<Compiled>, i: nat, domain: string) returns (port: u16)
    requires i <= |rules|
    requires PlainDirects(rules)
    requires MayRouteFrom(rules, i, domain)
    ensures MatchFrom(rules, i, domain, "", NoAddr, port).target != DIRECT
    decreases |rules| - i
  {
    var r := rules[i];
    assert r in rules;
    if r.final {
      port := 0;
    } else if r.target != DIRECT && MatchDest(r, domain, NoAddr) {
      if r.ports == {} { port := 0; } else { port :| port in r.ports; }
    } else {
      port := MayRouteHasPort(rules, i + 1, domain);
    }
  }

  /** Under that shape DomainMayRoute is exact. */
  lemma DomainMayRouteExact(rules: seq<Compiled>, domain: string)
    requires PlainDirects(rules)
    ensures DomainMayRoute(rules, domain) <==> SomePortRouted(rules, domain)
  {
    DomainMayRouteExactIff(rules, domain);
    if DomainMayRoute(rules, domain) {
      assert NormalizeDomain("") == "";
      var port := MayRouteHasPort(rules, 0, NormalizeDomain(domain));
      assert Match(rules, Query(domain, NoAddr, port, "")).target != DIRECT;
    }
  }

  /** A host name rule with the given ports and target. */
  function HostRule(domain: string, ports: set<u16>, target: string): Compiled
  {
    Compiled({domain}, [], [], [], [], ports, target, false)
  }

  lemma HostRuleTakes(domain: string, ports: set<u16>, target: string)
    requires domain != ""
    ensures MatchDest(HostRule(domain, ports, target), domain, NoAddr)
  {
    assert domain in HostRule(domain, ports, target).exact;
  }

  /**
   Both halves of PlainDirects are needed. A direct rule with a port can shadow
   the only routed port of a name ...
   */
  lemma PortedDirectMakesItInexact(domain: string, port: u16, target: string)
    requires domain != "" && target != DIRECT
    ensures var rules := [HostRule(domain, {port}, DIRECT), HostRule(domain, {port}, target)];
            MayRouteFrom(rules, 0, domain)
            && forall p: u16 :: MatchFrom(rules, 0, domain, "", NoAddr, p).target == DIRECT
  {
    var rules := [HostRule(domain, {port}, DIRECT), HostRule(domain, {port}, target)];
    HostRuleTakes(domain, {port}, DIRECT);
    HostRuleTakes(domain, {port}, target);
    assert MayRouteFrom(rules, 1, domain);
    forall p: u16 ensures MatchFrom(rules, 0, domain, "", NoAddr, p).target == DIRECT {
      assert MatchFrom(rules, 2, domain, "", NoAddr, p).target == DIRECT;
      assert p != port ==> MatchFrom(rules, 1, domain, "", NoAddr, p).target == DIRECT;
    }
  }

  /** ... and a direct rule left without conditions shadows everything. */
  lemma BareDirectMakesItInexact(domain: string, target: string)
    requires target != DIRECT
    ensures var rules := [Compiled({}, [], [], [], [], {}, DIRECT, false), Compiled({}, [], [], [], [], {}, target, true)];
            MayRouteFrom(rules, 0, domain)
            && forall p: u16 :: MatchFrom(rules, 0, domain, "", NoAddr, p).target == DIRECT
  {
    var rules := [Compiled({}, [], [], [], [], {}, DIRECT, false), Compiled({}, [], [], [], [], {}, target, true)];
    assert MayRouteFrom(rules, 1, domain);
    assert MatchDest(rules[0], domain, NoAddr);
  }

  // --------------------------------------------------------- compilation

  function CompileName(v: string): string { DropLeadingDot(NormalizeDomain(v)) }

  /** The non-empty compiled names, in order. */
  function NamesOf(vals: seq<string>, compile: string -> string): seq<string>
  {
    if vals == [] then []
    else
      var n := compile(vals[|vals| - 1]);
      NamesOf(vals[..|vals| - 1], compile) + (if n != "" then [n] else [])
  }

  method CollectNames(vals: seq<string>, compile: string -> string) returns (out: seq<string>)
    ensures out == NamesOf(vals, compile)
  {
    out := [];
    for i := 0 to |vals|
      invariant out == NamesOf(vals[..i], compile)
    {
      assert vals[..i + 1][..i] == vals[..i];
      var n := compile(vals[i]);
      if n != "" {
        out := out + [n];
      }
    }
    assert vals[..|vals|] == vals;
  }

  /** The prefixes of a rule, or None when one does not parse. */
  function PrefixesOf(parse: string -> Option<Prefix>, vals: seq<string>): Option<seq<Prefix>>
  {
    if vals == [] then Some([])
    else
      match (PrefixesOf(parse, vals[..|vals| - 1]), parse(vals[|vals| - 1]))
      case (Some(ps), Some(p)) => Some(ps + [p])
      case _ => None
  }

  method CollectPrefixes(parse: string -> Option<Prefix>, vals: seq<string>) returns (out: Option<seq<Prefix>>)
    ensures out == PrefixesOf(parse, vals)
  {
    var ps := [];
    for i := 0 to |vals|
      invariant PrefixesOf(parse, vals[..i]) == Some(ps)
    {
      assert vals[..i + 1][..i] == vals[..i];
      var p := parse(vals[i]);
      if p.None? {
        BadPrefixStays(parse, vals, i + 1);
        return None;
      }
      ps := ps + [p.value];
    }
    assert vals[..|vals|] == vals;
    return Some(ps);
  }

  lemma {:induction false} BadPrefixStays(parse: string -> Option<Prefix>, vals: seq<string>, i: nat)
    requires i <= |vals|
    requires PrefixesOf(parse, vals[..i]) == None
    ensures PrefixesOf(parse, vals) == None
    decreases |vals| - i
  {
    if i == |vals| {
      assert vals[..i] == vals;
    } else {
      assert vals[..i + 1][..i] == vals[..i];
      BadPrefixStays(parse, vals, i + 1);
    }
  }

  function ExactOf(vals: seq<string>, compile: string -> string): (r: set<string>)
    ensures vals != [] <==> r != {}
    ensures forall n :: n in r <==> exists v :: v in vals && compile(v) == n
  {
    if vals == [] then {}
    else
      var r := set v | v in vals :: compile(v);
      assert compile(vals[0]) in r;
      r
  }

  method CollectExact(vals: seq<string>, compile: string -> string) returns (out: set<string>)
    ensures out == ExactOf(vals, compile)
  {
    out := {};
    for i := 0 to |vals|
      invariant forall n :: n in out <==> exists j :: 0 <= j < i && compile(vals[j]) == n
    {
      out := out + {compile(vals[i])};
    }
  }

  function PortsOf(vals: seq<u16>): (r: set<u16>)
    ensures vals != [] <==> r != {}
    ensures forall p :: p in r <==> p in vals
  {
    if vals == [] then {}
    else
      var r := set p | p in vals;
      assert vals[0] in r;
      r
  }

  method CollectPorts(vals: seq<u16>) returns (out: set<u16>)
    ensures out == PortsOf(vals)
  {
    out := {};
    for i := 0 to |vals|
      invariant out == PortsOf(vals[..i])
    {
      out := out + {vals[i]};
    }
    assert vals[..|vals|] == vals;
  }

  function CompileRule(parse: string -> Option<Prefix>, r: ConfigRule): Option<Compiled>
  {
    match PrefixesOf(parse, r.ipCIDR)
    case None => None
    case Some(ps) =>
      Some(Compiled(
        ExactOf(r.domain, NormalizeDomain),
        NamesOf(r.domainSuffix, CompileName),
        NamesOf(r.domainKeyword, NormalizeDomain),
        ps,
        NamesOf(r.outerSNI, CompileName),
        PortsOf(r.port),
        r.Target(),
        r.final != ""))
  }

  /** Compile fails with the index of the first rule whose prefix does not parse. */
  method Compile(parse: string -> Option<Prefix>, rules: seq<ConfigRule>) returns (r: Result<seq<Compiled>, nat>)
    ensures r.Ok? ==> |r.value| == |rules|
                      && forall i :: 0 <= i < |rules| ==> CompileRule(parse, rules[i]) == Some(r.value[i])
    ensures r.Err? ==> r.error < |rules| && CompileRule(parse, rules[r.error]) == None
                       && forall i :: 0 <= i < r.error ==> CompileRule(parse, rules[i]).Some?
  {
    var out: seq<Compiled> := [];
    for i := 0 to |rules|
      invariant |out| == i
      invariant forall j :: 0 <= j < i ==> CompileRule(parse, rules[j]) == Some(out[j])
    {
      var c := rules[i];
      var exact := CollectExact(c.domain, NormalizeDomain);
      var suffixes := CollectNames(c.domainSuffix, CompileName);
      var keywords := CollectNames(c.domainKeyword, NormalizeDomain);
      var ps := CollectPrefixes(parse, c.ipCIDR);
      if ps.None? {
        return Err(i);
      }
      var outer := CollectNames(c.outerSNI, CompileName);
      var ports := CollectPorts(c.port);
      out := out + [Compiled(exact, suffixes, keywords, ps.value, outer, ports, c.Target(), c.final != "")];
    }
    return Ok(out);
  }

  // ------------------------------------- what a configured rule means

  /** Some value of the field compiles to a name the subject lies under. */
  predicate AnySuffix(vals: seq<string>, name: string)
  {
    name != "" && exists v | v in vals :: CompileName(v) != "" && Below(name, CompileName(v))
  }

  /** The field's destination conditions all compile to nothing. */
  predicate NoDestLeft(r: ConfigRule)
  {
    && r.domain == [] && r.ipCIDR == []
    && (forall v :: v in r.domainSuffix + r.outerSNI ==> CompileName(v) == "")
    && (forall v :: v in r.domainKeyword ==> NormalizeDomain(v) == "")
  }

  /**
   The meaning of a configured rule: destination conditions are alternatives,
   ports restrict, and a rule whose destination conditions compiled to nothing
   takes every destination.
   */
  predicate Applies(parse: string -> Option<Prefix>, r: ConfigRule, q: Query)
  {
    AppliesTo(parse, r, NormalizeDomain(q.domain), NormalizeDomain(q.outerSNI), q.ip.Unmap(), q.port)
  }

  predicate AppliesTo(parse: string -> Option<Prefix>, r: ConfigRule, name: string, outer: string, ip: Addr, port: u16)
  {
    r.final != ""
    || ((r.port == [] || port in r.port) && (DestApplies(parse, r, name, ip) || AnySuffix(r.outerSNI, outer)))
  }

  /** The destination conditions, without the outer name. */
  predicate DestApplies(parse: string -> Option<Prefix>, r: ConfigRule, name: string, ip: Addr)
  {
    || NoDestLeft(r)
    || (name != "" && exists d | d in r.domain :: NormalizeDomain(d) == name)
    || AnySuffix(r.domainSuffix, name)
    || (name != "" && exists k | k in r.domainKeyword :: NormalizeDomain(k) != "" && Within(NormalizeDomain(k), name))
    || (ip.IsValid() && exists t | t in r.ipCIDR :: parse(t).Some? && parse(t).value.Contains(ip))
  }

  lemma {:induction false} NamesOfMembers(vals: seq<string>, compile: string -> string)
    ensures forall n :: n in NamesOf(vals, compile) <==> n != "" && exists v :: v in vals && compile(v) == n
  {
    if vals != [] {
      var init, last := vals[..|vals| - 1], vals[|vals| - 1];
      NamesOfMembers(init, compile);
      assert vals == init + [last];
      forall n ensures n in NamesOf(vals, compile) <==> n != "" && exists v :: v in vals && compile(v) == n {
        if n in NamesOf(init, compile) {
          var v :| v in init && compile(v) == n;
          assert v in vals;
        }
        if n != "" && exists v :: v in vals && compile(v) == n {
          var v :| v in vals && compile(v) == n;
          assert v in init || v == last;
        }
      }
    }
  }

  lemma {:induction false} PrefixesOfMembers(parse: string -> Option<Prefix>, vals: seq<string>)
    requires PrefixesOf(parse, vals).Some?
    ensures |PrefixesOf(parse, vals).value| == |vals|
    ensures forall i :: 0 <= i < |vals| ==> parse(vals[i]) == Some(PrefixesOf(parse, vals).value[i])
  {
    if vals != [] {
      PrefixesOfMembers(parse, vals[..|vals| - 1]);
    }
  }

  lemma SuffixesMeaning(vals: seq<string>, name: string)
    ensures AnySuffix(vals, name)
            <==> name != "" && exists s | s in NamesOf(vals, CompileName) :: SuffixMatches(s, name)
  {
    NamesOfMembers(vals, CompileName);
    forall s ensures SuffixMatches(s, name) <==> Below(name, s) {
      SuffixIsBelow(s, name);
    }
  }

  lemma KeywordsMeaning(vals: seq<string>, name: string)
    ensures (exists k | k in vals :: NormalizeDomain(k) != "" && Within(NormalizeDomain(k), name))
            <==> exists k | k in NamesOf(vals, NormalizeDomain) :: ContainsText(name, k)
  {
    NamesOfMembers(vals, NormalizeDomain);
    forall k ensures ContainsText(name, k) <==> Within(k, name) {
      ContainsIsWithin(name, k);
    }
  }

  lemma PrefixesMeaning(parse: string -> Option<Prefix>, vals: seq<string>, ip: Addr)
    requires PrefixesOf(parse, vals).Some?
    ensures (exists t | t in vals :: parse(t).Some? && parse(t).value.Contains(ip))
            <==> exists p | p in PrefixesOf(parse, vals).value :: p.Contains(ip)
    ensures PrefixesOf(parse, vals).value == [] <==> vals == []
  {
    PrefixesOfMembers(parse, vals);
    var ps := PrefixesOf(parse, vals).value;
    if p :| p in ps && p.Contains(ip) {
      var i :| 0 <= i < |ps| && ps[i] == p;
      assert vals[i] in vals;
    }
  }

  /** A value survives compilation in none of the field's entries. */
  lemma NothingLeft(vals: seq<string>, compile: string -> string)
    ensures NamesOf(vals, compile) == [] <==> forall v :: v in vals ==> compile(v) == ""
  {
    NamesOfMembers(vals, compile);
    if NamesOf(vals, compile) != [] {
      assert NamesOf(vals, compile)[0] in NamesOf(vals, compile);
    }
  }

  lemma NoDestMeaning(parse: string -> Option<Prefix>, r: ConfigRule, c: Compiled)
    requires CompileRule(parse, r) == Some(c)
    ensures NoDestLeft(r) <==> !c.HasDest()
  {
    NothingLeft(r.domainSuffix, CompileName);
    NothingLeft(r.domainKeyword, NormalizeDomain);
    NothingLeft(r.outerSNI, CompileName);
    PrefixesMeaning(parse, r.ipCIDR, NoAddr);
    assert (forall v :: v in r.domainSuffix + r.outerSNI ==> CompileName(v) == "")
        <==> (forall v :: v in r.domainSuffix ==> CompileName(v) == "") && (forall v :: v in r.outerSNI ==> CompileName(v) == "") by {
      assert forall v :: v in r.domainSuffix + r.outerSNI <==> v in r.domainSuffix || v in r.outerSNI;
    }
  }

  lemma DestMeaning(parse: string -> Option<Prefix>, r: ConfigRule, c: Compiled, name: string, ip: Addr)
    requires CompileRule(parse, r) == Some(c)
    ensures DestApplies(parse, r, name, ip) <==> MatchDest(c, name, ip)
  {
    SuffixesMeaning(r.domainSuffix, name);
    KeywordsMeaning(r.domainKeyword, name);
    PrefixesMeaning(parse, r.ipCIDR, ip);
    NoDestMeaning(parse, r, c);
  }

  /** A compiled rule takes exactly the queries its configured form describes. */
  lemma CompiledMeaning(parse: string -> Option<Prefix>, r: ConfigRule, c: Compiled, name: string, outer: string, ip: Addr, port: u16)
    requires CompileRule(parse, r) == Some(c)
    ensures AppliesTo(parse, r, name, outer, ip, port) <==> Takes(c, name, outer, ip, port)
  {
    DestMeaning(parse, r, c, name, ip);
    SuffixesMeaning(r.outerSNI, outer);
  }

  /** First match over compiled rules. */
  lemma {:induction false} FirstTaken(cs: seq<Compiled>, i: nat, name: string, outer: string, ip: Addr, port: u16)
    requires i <= |cs|
    ensures var m := MatchFrom(cs, i, name, outer, ip, port);
            if m.ruleIndex == -1 then
              m == MatchResult(-1, DIRECT, true, false) && forall j :: i <= j < |cs| ==> !Takes(cs[j], name, outer, ip, port)
            else
              && i <= m.ruleIndex < |cs| && !m.implicit
              && m.target == cs[m.ruleIndex].target
              && Takes(cs[m.ruleIndex], name, outer, ip, port)
              && (m.byOuterSNI <==> !cs[m.ruleIndex].final && !MatchDest(cs[m.ruleIndex], name, ip) && MatchOuterSNI(cs[m.ruleIndex], outer))
              && forall j :: i <= j < m.ruleIndex ==> !Takes(cs[j], name, outer, ip, port)
    decreases |cs| - i
  {
    if i < |cs| && !Takes(cs[i], name, outer, ip, port) {
      FirstTaken(cs, i + 1, name, outer, ip, port);
    }
  }

  /**
   The answer names the first configured rule that applies, or none of them does. It is
   by the outer name exactly when that rule would not apply without one.
   */
  lemma FirstMatch(parse: string -> Option<Prefix>, rules: seq<ConfigRule>, cs: seq<Compiled>, q: Query)
    requires |cs| == |rules|
    requires forall j :: 0 <= j < |rules| ==> CompileRule(parse, rules[j]) == Some(cs[j])
    ensures var m := Match(cs, q);
            if m.ruleIndex == -1 then
              m.target == "direct" && m.implicit && forall j :: 0 <= j < |rules| ==> !Applies(parse, rules[j], q)
            else
              && 0 <= m.ruleIndex < |rules| && !m.implicit
              && m.target == (if rules[m.ruleIndex].final == "" then rules[m.ruleIndex].egress else rules[m.ruleIndex].final)
              && Applies(parse, rules[m.ruleIndex], q)
              && (m.byOuterSNI <==> !Applies(parse, rules[m.ruleIndex], q.(outerSNI := "")))
              && forall j :: 0 <= j < m.ruleIndex ==> !Applies(parse, rules[j], q)
  {
    var name, outer, ip := NormalizeDomain(q.domain), NormalizeDomain(q.outerSNI), q.ip.Unmap();
    FirstTaken(cs, 0, name, outer, ip, q.port);
    forall j | 0 <= j < |rules| ensures Applies(parse, rules[j], q) <==> Takes(cs[j], name, outer, ip, q.port) {
      CompiledMeaning(parse, rules[j], cs[j], name, outer, ip, q.port);
    }
    var i := Match(cs, q).ruleIndex;
    if i != -1 {
      assert NormalizeDomain("") == "";
      CompiledMeaning(parse, rules[i], cs[i], name, "", ip, q.port);
    }
  }

  /** The checks config.Validate makes of a single rule's conditions. */
  predicate ValidConditions(r: ConfigRule)
  {
    && (r.egress != "") != (r.final != "")
    && (r.final == "" <==> r.domain != [] || r.domainSuffix != [] || r.domainKeyword != [] || r.ipCIDR != [] || r.outerSNI != [] || r.port != [])
    && forall v :: v in r.domain + r.domainSuffix + r.domainKeyword + r.outerSNI ==> TrimSpace(v) != "" && TrimSpace(v) != "."
  }

  lemma DroppedIff(v: string)
    requires TrimSpace(v) != "" && TrimSpace(v) != "."
    ensures CompileName(v) == "" <==> TrimSpace(v) == ".."
    ensures NormalizeDomain(v) != ""
  {
    var t := TrimSpace(v);
    var l := Lower(t);
    if |t| == 1 {
      assert t == [t[0]];
      assert l[0] == LowerChar(t[0]) && t[0] != '.';
    } else if |t| == 2 {
      assert t == [t[0], t[1]];
      assert l[0] == LowerChar(t[0]) && l[1] == LowerChar(t[1]);
    }
  }

  /**
   A validated rule ends up without any condition (and then takes every
   connection) exactly when its only conditions are suffixes and outer names
   written as two dots.
   */
  lemma UnconditionalIff(parse: string -> Option<Prefix>, r: ConfigRule, c: Compiled)
    requires ValidConditions(r) && r.final == ""
    requires CompileRule(parse, r) == Some(c)
    ensures !c.HasCondition()
            <==> r.domain == [] && r.domainKeyword == [] && r.ipCIDR == [] && r.port == []
                 && forall v :: v in r.domainSuffix + r.outerSNI ==> TrimSpace(v) == ".."
  {
    NoDestMeaning(parse, r, c);
    forall v | v in r.domain + r.domainSuffix + r.domainKeyword + r.outerSNI
      ensures (CompileName(v) == "" <==> TrimSpace(v) == "..") && NormalizeDomain(v) != ""
    {
      DroppedIff(v);
    }
    assert forall v :: v in r.domainSuffix + r.outerSNI ==> v in r.domain + r.domainSuffix + r.domainKeyword + r.outerSNI;
    if r.domainKeyword != [] {
      assert r.domainKeyword[0] in r.domain + r.domainSuffix + r.domainKeyword + r.outerSNI;
      assert r.domainKeyword[0] in r.domainKeyword;
    }
  }

  lemma TwoDots()
    ensures TrimSpace("..") == ".."
  {
    TrimClean("..");
  }

  /** Such a rule exists and passes validation: the suffix "..", which then catches every connection. */
  lemma TwoDotsCatchEverything(parse: string -> Option<Prefix>, name: string, outer: string, ip: Addr, port: u16)
    ensures var r := ConfigRule([], [".."], [], [], [], [], "jp", "");
            ValidConditions(r) && AppliesTo(parse, r, name, outer, ip, port)
  {
    var r := ConfigRule([], [".."], [], [], [], [], "jp", "");
    TwoDots();
    DroppedIff("..");
    assert r.domain + r.domainSuffix + r.domainKeyword + r.outerSNI == [".."];
    assert r.domainSuffix + r.outerSNI == [".."];
  }
}
