/**
 Egress reconciliation (internal/egress/manager.go) and the cross-references of the
 configuration it relies on (internal/config/config.go).
 */
module Egress {
  import opened Wrappers
  import Rules

  datatype HealthCheck = HealthCheck(interval: Option<nat>, url: string)

  /** One egress entry; a duration is in nanoseconds, None if it does not parse. */
  datatype Exit = Exit(
    name: string,
    exitNode: string,
    kind: string,
    members: seq<string>,
    health: Option<HealthCheck>,
    doh: string,
    relay: string,
    relayTokenEnv: string)
  {
    predicate IsGroup() { kind != "" }

    predicate IsRelay() { kind == "" && relay != "" }

    predicate IsSlot() { kind == "" && relay == "" }
  }

  const MIN_INTERVAL: nat := 5_000_000_000

  predicate IsReserved(name: string)
  {
    name == Rules.DIRECT || name == Rules.TAILNET || name == Rules.REJECT
  }

  predicate NameChar(c: char) { 'a' <= c <= 'z' || '0' <= c <= '9' || c == '-' }

  predicate ValidName(n: string)
  {
    0 < |n| <= 40 && n[0] != '-' && forall c :: c in n ==> NameChar(c)
  }

  predicate HealthOK(h: HealthCheck)
  {
    h.interval.Some? && h.interval.value >= MIN_INTERVAL && h.url != ""
  }

  // ----------------------------------------------------------------- validation

  /** What an entry must satisfy by itself. */
  predicate EntryOK(e: Exit, relayOK: string -> bool)
  {
    && ValidName(e.name) && !IsReserved(e.name)
    && (e.kind == "" || e.kind == "fallback" || e.kind == "latency")
    && (e.kind == "" ==>
          && (e.relay != "" ==> e.exitNode == "" && relayOK(e.relay) && e.doh == "")
          && (e.relay == "" ==> e.exitNode != "")
          && (e.relayTokenEnv != "" ==> e.relay != ""))
    && (e.kind != "" ==>
          && e.doh == "" && e.exitNode == "" && e.relay == "" && e.members != []
          && (e.health.Some? ==> HealthOK(e.health.value)))
  }

  ghost predicate Distinct(es: seq<Exit>)
  {
    forall i, j :: 0 <= i < j < |es| ==> es[i].name != es[j].name
  }

  ghost function Names(es: seq<Exit>): set<string> { set e | e in es :: e.name }

  ghost function SlotNames(es: seq<Exit>): set<string> { set e | e in es && e.IsSlot() :: e.name }

  ghost function RelayNames(es: seq<Exit>): set<string> { set e | e in es && e.IsRelay() :: e.name }

  ghost function GroupNames(es: seq<Exit>): set<string> { set e | e in es && e.IsGroup() :: e.name }

  /** A member is a slot or a relay of the same file. */
  ghost predicate MembersDefined(es: seq<Exit>)
  {
    forall e, m :: e in es && m in e.members ==> m in SlotNames(es) + RelayNames(es)
  }

  ghost predicate RuleOK(r: Rules.ConfigRule, names: set<string>)
  {
    (r.egress == "") != (r.final == "") && (IsReserved(r.Target()) || r.Target() in names)
  }

  /** The cross-references of a configuration. */
  ghost predicate Validated(es: seq<Exit>, rules: seq<Rules.ConfigRule>, relayOK: string -> bool)
  {
    && (forall e :: e in es ==> EntryOK(e, relayOK)) && Distinct(es) && MembersDefined(es)
    && forall r :: r in rules ==> RuleOK(r, Names(es))
  }

  /** A name for a device's host name: 1 to 40 characters of a-z, 0-9 and '-', not starting with '-'. */
  lemma ValidNameMeaning(n: string)
    ensures ValidName(n) <==>
              && 1 <= |n| <= 40 && n[0] != '-'
              && forall i :: 0 <= i < |n| ==> n[i] in "abcdefghijklmnopqrstuvwxyz0123456789-"
  {
    forall c ensures NameChar(c) <==> c in "abcdefghijklmnopqrstuvwxyz0123456789-" {
      Letters(c);
    }
  }

  lemma Letters(c: char)
    ensures NameChar(c) <==> c in "abcdefghijklmnopqrstuvwxyz0123456789-"
  {
    var all := "abcdefghijklmnopqrstuvwxyz" + "0123456789" + "-";
    assert all == "abcdefghijklmnopqrstuvwxyz0123456789-";
    assert c in all <==> c in "abcdefghijklmnopqrstuvwxyz" || c in "0123456789" || c in "-";
    Alphabet(c);
    Digits(c);
  }

  lemma Alphabet(c: char)
    ensures 'a' <= c <= 'z' <==> c in "abcdefghijklmnopqrstuvwxyz"
  {
    var s := "abcdefghijklmnopqrstuvwxyz";
    if 'a' <= c <= 'z' {
      assert s[c as int - 97] == c;
    }
  }

  lemma Digits(c: char)
    ensures '0' <= c <= '9' <==> c in "0123456789"
  {
    var s := "0123456789";
    if '0' <= c <= '9' {
      assert s[c as int - 48] == c;
    }
  }

  /** A slot has an exit node; a relay an address and no exit node or resolver; a group members and a sound health check. */
  lemma EntryMeaning(e: Exit, relayOK: string -> bool)
    ensures EntryOK(e, relayOK) <==>
              && ValidName(e.name) && e.name !in {"direct", "tailnet", "reject"}
              && (|| (e.kind == "" && e.relay == "" && e.exitNode != "" && e.relayTokenEnv == "")
                  || (e.kind == "" && e.relay != "" && e.exitNode == "" && e.doh == "" && relayOK(e.relay))
                  || (e.kind in {"fallback", "latency"} && e.members != [] && e.doh == "" && e.exitNode == "" && e.relay == ""
                      && (e.health.Some? ==>
                            e.health.value.interval.Some? && e.health.value.interval.value >= 5_000_000_000 && e.health.value.url != "")))
  {
  }

  /** Members are entries of the file that are no groups; a rule has one target, reserved or an entry's name. */
  lemma ValidatedMeaning(es: seq<Exit>, rules: seq<Rules.ConfigRule>, relayOK: string -> bool)
    ensures Validated(es, rules, relayOK) <==>
              && (forall e :: e in es ==> EntryOK(e, relayOK))
              && (forall i, j :: 0 <= i < j < |es| ==> es[i].name != es[j].name)
              && (forall e, m :: e in es && m in e.members ==> exists f :: f in es && f.name == m && f.kind == "")
              && (forall r :: r in rules ==> RuleMeaning(es, r))
  {
    if forall e, m :: e in es && m in e.members ==> exists f :: f in es && f.name == m && f.kind == "" {
      forall e, m | e in es && m in e.members ensures m in SlotNames(es) + RelayNames(es) {
        var f :| f in es && f.name == m && f.kind == "";
        assert f.IsSlot() || f.IsRelay();
      }
    }
    if Validated(es, rules, relayOK) {
      forall e, m | e in es && m in e.members ensures exists f :: f in es && f.name == m && f.kind == "" {
        assert m in SlotNames(es) + RelayNames(es);
        var f :| f in es && f.name == m && (f.IsSlot() || f.IsRelay());
      }
    }
    forall r ensures RuleOK(r, Names(es)) <==> RuleMeaning(es, r) {
      assert forall n :: n in Names(es) <==> exists e :: e in es && e.name == n;
    }
  }

  ghost predicate RuleMeaning(es: seq<Exit>, r: Rules.ConfigRule)
  {
    || (r.egress == "" && r.final != "" && (r.final in {"direct", "tailnet", "reject"} || exists e :: e in es && e.name == r.final))
    || (r.final == "" && r.egress != "" && (r.egress in {"direct", "tailnet", "reject"} || exists e :: e in es && e.name == r.egress))
  }

  /** The checks of one entry's type. */
  method CheckKind(e: Exit, relayOK: string -> bool) returns (errs: nat)
    ensures ValidName(e.name) && !IsReserved(e.name) ==> (errs == 0 <==> EntryOK(e, relayOK))
  {
    errs := 0;
    if e.kind == "" {
      if e.relay != "" && e.exitNode != "" {
        errs := errs + 1;
      } else if e.relay != "" {
        if !relayOK(e.relay) {
          errs := errs + 1;
        }
        if e.doh != "" {
          errs := errs + 1;
        }
      } else if e.exitNode == "" {
        errs := errs + 1;
      }
      if e.relayTokenEnv != "" && e.relay == "" {
        errs := errs + 1;
      }
    } else if e.kind == "fallback" || e.kind == "latency" {
      if e.doh != "" {
        errs := errs + 1;
      }
      if e.exitNode != "" || e.relay != "" {
        errs := errs + 1;
      }
      if e.members == [] {
        errs := errs + 1;
      }
      if e.health.Some? {
        var hc := e.health.value;
        if hc.interval.None? || hc.interval.value < MIN_INTERVAL {
          errs := errs + 1;
        }
        if hc.url == "" {
          errs := errs + 1;
        }
      }
    } else {
      errs := errs + 1;
    }
  }

  method CheckEntries(es: seq<Exit>, relayOK: string -> bool) returns (errs: nat, names: set<string>, slots: set<string>)
    ensures errs == 0 <==> (forall e :: e in es ==> EntryOK(e, relayOK)) && Distinct(es)
    ensures errs == 0 ==> names == Names(es) && slots == SlotNames(es) + RelayNames(es)
  {
    errs, names, slots := 0, {}, {};
    for i := 0 to |es|
      invariant errs == 0 <==> (forall e :: e in es[..i] ==> EntryOK(e, relayOK)) && Distinct(es[..i])
      invariant errs == 0 ==> names == Names(es[..i]) && slots == SlotNames(es[..i]) + RelayNames(es[..i])
    {
      var e := es[i];
      EntryStep(es, i, relayOK);
      if e.name == "" {
        errs := errs + 1;
        continue;
      }
      if IsReserved(e.name) || !ValidName(e.name) || e.name in names {
        errs := errs + 1;
      }
      names := names + {e.name};
      var more := CheckKind(e, relayOK);
      errs := errs + more;
      if e.kind == "" {
        slots := slots + {e.name};
      }
    }
    assert es[..|es|] == es;
  }

  lemma EntryStep(es: seq<Exit>, i: nat, relayOK: string -> bool)
    requires i < |es|
    ensures var s, t := es[..i], es[..i + 1];
            && ((forall e :: e in t ==> EntryOK(e, relayOK)) <==> (forall e :: e in s ==> EntryOK(e, relayOK)) && EntryOK(es[i], relayOK))
            && (Distinct(t) <==> Distinct(s) && es[i].name !in Names(s))
            && Names(t) == Names(s) + {es[i].name}
            && SlotNames(t) + RelayNames(t) == SlotNames(s) + RelayNames(s) + (if es[i].kind == "" then {es[i].name} else {})
  {
    var s, t := es[..i], es[..i + 1];
    assert t == s + [es[i]];
    if Distinct(s) && es[i].name !in Names(s) {
      forall j | 0 <= j < i ensures es[j].name != es[i].name {
        assert s[j] in s;
      }
    }
    if Distinct(t) {
      forall e | e in s ensures e.name != es[i].name {
        var j :| 0 <= j < i && s[j] == e;
        assert t[j].name != t[i].name;
      }
    }
  }

  /** The cross-reference checks of Config.Validate: no error exactly when everything named is defined. */
  method Validate(es: seq<Exit>, rules: seq<Rules.ConfigRule>, relayOK: string -> bool) returns (errs: nat)
    ensures errs == 0 <==> Validated(es, rules, relayOK)
  {
    var names, slots;
    errs, names, slots := CheckEntries(es, relayOK);
    ghost var entries := errs;
    for i := 0 to |es|
      invariant errs >= entries
      invariant errs == entries <==> forall e, m :: e in es[..i] && m in e.members ==> m in slots
    {
      var e := es[i];
      assert es[..i + 1] == es[..i] + [e];
      ghost var before := errs;
      for j := 0 to |e.members|
        invariant errs >= before
        invariant errs == before <==> forall m :: m in e.members[..j] ==> m in slots
      {
        assert e.members[..j + 1] == e.members[..j] + [e.members[j]];
        if e.members[j] !in slots {
          errs := errs + 1;
        }
      }
      assert e.members[..|e.members|] == e.members;
    }
    assert es[..|es|] == es;
    ghost var exits := errs;
    for i := 0 to |rules|
      invariant errs >= exits
      invariant errs == exits <==> forall r :: r in rules[..i] ==> RuleOK(r, names)
    {
      var r := rules[i];
      assert rules[..i + 1] == rules[..i] + [r];
      assert r in rules[..i + 1];
      if (r.egress == "") == (r.final == "") {
        errs := errs + 1;
        continue;
      }
      if !IsReserved(r.Target()) && r.Target() !in names {
        errs := errs + 1;
      }
    }
    assert rules[..|rules|] == rules;
  }

  // -------------------------------------------------------------------- objects

  class Slot {
    const name: string
    var spec: string
    var doh: string

    constructor (name: string, spec: string, doh: string)
      ensures this.name == name && this.spec == spec && this.doh == doh
    {
      this.name, this.spec, this.doh := name, spec, doh;
    }
  }

  class Relay {
    const name: string
    var addr: string
    var tokenEnv: string

    constructor (name: string, addr: string, tokenEnv: string)
      ensures this.name == name && this.addr == addr && this.tokenEnv == tokenEnv
    {
      this.name, this.addr, this.tokenEnv := name, addr, tokenEnv;
    }
  }

  /** A group member: an object of the manager. */
  datatype Member = OfSlot(slot: Slot) | OfRelay(relay: Relay)

  datatype Group = Group(name: string, kind: string, members: seq<Member>, every: Option<nat>)

  function IntervalOf(e: Exit): Option<nat> { if e.health.Some? then e.health.value.interval else None }

  function DoHOf(e: Exit, dflt: string): string { if e.doh != "" then e.doh else dflt }

  /** The object a member name stands for. */
  function Resolve(slots: map<string, Slot>, relays: map<string, Relay>, name: string): Option<Member>
  {
    if name in slots then Some(OfSlot(slots[name]))
    else if name in relays then Some(OfRelay(relays[name]))
    else None
  }

  /** The objects of a list of member names; names without one are passed over. */
  function ResolveAll(slots: map<string, Slot>, relays: map<string, Relay>, names: seq<string>): seq<Member>
  {
    if names == [] then []
    else
      var last := Resolve(slots, relays, names[|names| - 1]);
      ResolveAll(slots, relays, names[..|names| - 1]) + (if last.Some? then [last.value] else [])
  }

  lemma {:induction false} ResolveAllDefined(slots: map<string, Slot>, relays: map<string, Relay>, names: seq<string>)
    requires forall n :: n in names ==> n in slots || n in relays
    ensures var ms := ResolveAll(slots, relays, names);
            |ms| == |names| && forall i :: 0 <= i < |names| ==> Some(ms[i]) == Resolve(slots, relays, names[i])
  {
    if names != [] {
      var n := |names| - 1;
      assert forall m :: m in names[..n] ==> m in names;
      assert names[n] in names;
      ResolveAllDefined(slots, relays, names[..n]);
    }
  }

  /** now is the part of was under the kept names. */
  ghost predicate KeptOf<T>(was: map<string, T>, now: map<string, T>, keep: set<string>)
  {
    (forall n :: n in now <==> n in was && n in keep) && forall n :: n in now ==> now[n] == was[n]
  }

  /** gone is what was filed under the other names. */
  ghost predicate DroppedOf<T>(was: map<string, T>, keep: set<string>, gone: set<T>)
  {
    && (forall x :: x in gone ==> exists n :: n in was && n !in keep && was[n] == x)
    && forall n :: n in was && n !in keep ==> was[n] in gone
  }

  /** What extends a map of objects and is then cut down to its wanted names. */
  lemma GrownThenKept<T>(was: map<string, T>, grown: map<string, T>, now: map<string, T>, want: set<string>, gone: set<T>)
    requires grown.Keys == was.Keys + want && forall n :: n in was ==> grown[n] == was[n]
    requires KeptOf(grown, now, want) && DroppedOf(grown, want, gone)
    ensures now.Keys == want && DroppedOf(was, want, gone)
    ensures forall n :: n in was && n in want ==> n in now && now[n] == was[n]
    ensures forall n :: n in now ==> n in grown && now[n] == grown[n]
  {
    forall x | x in gone ensures exists n :: n in was && n !in want && was[n] == x {
      var n :| n in grown && n !in want && grown[n] == x;
      assert n in was && was[n] == x;
    }
    forall n | n in was && n !in want ensures was[n] in gone {
      assert n in grown && grown[n] == was[n];
    }
  }

  datatype ApplyError = BadHealthCheck(name: string) | MkdirFailed

  class Manager {
    var slots: map<string, Slot>
    var relays: map<string, Relay>
    var groups: map<string, Group>
    var order: seq<string>

    constructor ()
      ensures Valid() && slots == map[] && relays == map[] && groups == map[] && order == []
    {
      slots, relays, groups, order := map[], map[], map[], [];
    }

    /** Every object is filed under its own name. */
    ghost predicate Valid()
      reads this`slots, this`relays, slots.Values, relays.Values
    {
      && (forall n :: n in slots ==> slots[n].name == n)
      && (forall n :: n in relays ==> relays[n].name == n)
    }

    /** The object of the entry runs as it says. */
    ghost predicate Runs(e: Exit, dflt: string)
      reads this`slots, this`relays, slots.Values, relays.Values
    {
      && (e.IsSlot() ==> e.name in slots && slots[e.name].spec == e.exitNode && slots[e.name].doh == (if e.doh == "" then dflt else e.doh))
      && (e.IsRelay() ==> e.name in relays && relays[e.name].addr == e.relay && relays[e.name].tokenEnv == e.relayTokenEnv)
    }

    /** The first n entries run. */
    ghost predicate Configured(es: seq<Exit>, n: nat, dflt: string)
      requires n <= |es|
      reads this`slots, this`relays, slots.Values, relays.Values
    {
      forall j :: 0 <= j < n ==> Runs(es[j], dflt)
    }

    /** Health checks are read first: a bad one stops Apply before it has changed anything. */
    method BuildGroups(es: seq<Exit>) returns (r: Result<map<string, Group>, ApplyError>)
      requires Distinct(es)
      ensures r.Ok? <==> forall e :: e in es && e.IsGroup() && e.health.Some? ==> HealthOK(e.health.value)
      ensures r.Ok? ==> r.value.Keys == GroupNames(es)
      ensures r.Ok? ==> forall i :: 0 <= i < |es| && es[i].IsGroup() ==>
                es[i].name in r.value && r.value[es[i].name] == Group(es[i].name, es[i].kind, [], IntervalOf(es[i]))
    {
      var groups: map<string, Group> := map[];
      for i := 0 to |es|
        invariant forall e :: e in es[..i] && e.IsGroup() && e.health.Some? ==> HealthOK(e.health.value)
        invariant groups.Keys == GroupNames(es[..i])
        invariant forall j :: 0 <= j < i && es[j].IsGroup() ==>
                    es[j].name in groups && groups[es[j].name] == Group(es[j].name, es[j].kind, [], IntervalOf(es[j]))
      {
        var e := es[i];
        assert es[..i + 1] == es[..i] + [e];
        EntryStep(es, i, _ => true);
        DistinctPrefix(es, i + 1);
        if e.IsGroup() {
          if e.health.Some? && !HealthOK(e.health.value) {
            assert e in es;
            return Err(BadHealthCheck(e.name));
          }
          groups := groups[e.name := Group(e.name, e.kind, [], IntervalOf(e))];
        }
      }
      assert es[..|es|] == es;
      return Ok(groups);
    }

    /**
     One slot or relay entry: the object of a known name is switched in place, a new
     name gets a new object, and nothing else changes. A slot whose directory cannot
     be made is not added.
     */
    method ApplyOne(e: Exit, dflt: string, mkdirOK: string -> bool) returns (ok: bool)
      requires Valid() && !e.IsGroup()
      modifies this`slots, this`relays
      modifies if e.name in slots then {slots[e.name]} else {}
      modifies if e.name in relays then {relays[e.name]} else {}
      ensures Valid()
      ensures forall n :: n in old(slots) && n != e.name ==> n in slots && slots[n].spec == old(slots[n].spec) && slots[n].doh == old(slots[n].doh)
      ensures forall n :: n in old(relays) && n != e.name ==> n in relays && relays[n].addr == old(relays[n].addr) && relays[n].tokenEnv == old(relays[n].tokenEnv)
      ensures ok <==> !(e.IsSlot() && e.name !in old(slots) && !mkdirOK(e.name))
      ensures !ok || e.IsRelay() ==> slots == old(slots) && forall s :: s in slots.Values ==> s.spec == old(s.spec) && s.doh == old(s.doh)
      ensures !ok || e.IsSlot() ==> relays == old(relays) && forall r :: r in relays.Values ==> r.addr == old(r.addr) && r.tokenEnv == old(r.tokenEnv)
      ensures ok && e.IsSlot() ==>
                && slots.Keys == old(slots).Keys + {e.name}
                && (forall n :: n in old(slots) ==> slots[n] == old(slots)[n])
                && (e.name !in old(slots) ==> fresh(slots[e.name]))
                && slots[e.name].spec == e.exitNode && slots[e.name].doh == DoHOf(e, dflt)
      ensures e.IsRelay() ==>
                && relays.Keys == old(relays).Keys + {e.name}
                && (forall n :: n in old(relays) ==> relays[n] == old(relays)[n])
                && (e.name !in old(relays) ==> fresh(relays[e.name]))
                && relays[e.name].addr == e.relay && relays[e.name].tokenEnv == e.relayTokenEnv
    {
      if e.IsRelay() {
        ApplyRelay(e);
        return true;
      }
      ok := ApplySlot(e, dflt, mkdirOK);
    }

    method ApplyRelay(e: Exit)
      requires Valid() && e.IsRelay()
      modifies this`relays
      modifies if e.name in relays then {relays[e.name]} else {}
      ensures Valid()
      ensures relays.Keys == old(relays).Keys + {e.name}
      ensures forall n :: n in old(relays) ==> relays[n] == old(relays)[n]
      ensures e.name !in old(relays) ==> fresh(relays[e.name])
      ensures relays[e.name].addr == e.relay && relays[e.name].tokenEnv == e.relayTokenEnv
    {
      if e.name in relays {
        var r := relays[e.name];
        r.addr, r.tokenEnv := e.relay, e.relayTokenEnv;
        return;
      }
      var r := new Relay(e.name, e.relay, e.relayTokenEnv);
      relays := relays[e.name := r];
    }

    method ApplySlot(e: Exit, dflt: string, mkdirOK: string -> bool) returns (ok: bool)
      requires Valid() && e.IsSlot()
      modifies this`slots
      modifies if e.name in slots then {slots[e.name]} else {}
      ensures Valid()
      ensures ok <==> e.name in old(slots) || mkdirOK(e.name)
      ensures !ok ==> slots == old(slots) && forall s :: s in slots.Values ==> s.spec == old(s.spec) && s.doh == old(s.doh)
      ensures ok ==>
                && slots.Keys == old(slots).Keys + {e.name}
                && (forall n :: n in old(slots) ==> slots[n] == old(slots)[n])
                && (e.name !in old(slots) ==> fresh(slots[e.name]))
                && slots[e.name].spec == e.exitNode && slots[e.name].doh == DoHOf(e, dflt)
    {
      var doh := dflt;
      if e.doh != "" {
        doh := e.doh;
      }
      if e.name in slots {
        var s := slots[e.name];
        s.spec, s.doh := e.exitNode, doh;
        return true;
      }
      if !mkdirOK(e.name) {
        return false;
      }
      var s := new Slot(e.name, e.exitNode, doh);
      slots := slots[e.name := s];
      return true;
    }

    /** Entry i, when the ones before it are in place. */
    method ApplyNext(es: seq<Exit>, i: nat, dflt: string, mkdirOK: string -> bool) returns (ok: bool)
      requires Valid() && Distinct(es) && i < |es| && Configured(es, i, dflt)
      modifies this`slots, this`relays
      modifies if es[i].name in slots then {slots[es[i].name]} else {}
      modifies if es[i].name in relays then {relays[es[i].name]} else {}
      ensures Valid() && (ok <==> !Blocked(es[i], old(slots).Keys, mkdirOK))
      ensures ok ==> Configured(es, i + 1, dflt)
      ensures ok ==> slots.Keys == old(slots).Keys + if es[i].IsSlot() then {es[i].name} else {}
      ensures ok ==> relays.Keys == old(relays).Keys + if es[i].IsRelay() then {es[i].name} else {}
      ensures !ok ==> slots == old(slots) && relays == old(relays)
      ensures forall n :: n in old(slots) ==> n in slots && slots[n] == old(slots)[n]
      ensures forall n :: n in old(relays) ==> n in relays && relays[n] == old(relays)[n]
      ensures forall n :: n in slots && n !in old(slots) ==> fresh(slots[n])
      ensures forall n :: n in relays && n !in old(relays) ==> fresh(relays[n])
    {
      var e := es[i];
      ok := true;
      if !e.IsGroup() {
        ok := ApplyOne(e, dflt, mkdirOK);
      }
      if ok {
        forall j | 0 <= j < i ensures Runs(es[j], dflt) {
          assert es[j].name != e.name;
        }
      }
    }

    /** The same, counted against the names Apply began with. */
    method ApplyCounted(es: seq<Exit>, i: nat, dflt: string, mkdirOK: string -> bool, ghost slots0: set<string>, ghost relays0: set<string>)
      returns (ok: bool)
      requires Valid() && Distinct(es) && i < |es| && Configured(es, i, dflt)
      requires slots.Keys == slots0 + SlotNames(es[..i]) && relays.Keys == relays0 + RelayNames(es[..i])
      modifies this`slots, this`relays
      modifies if es[i].name in slots then {slots[es[i].name]} else {}
      modifies if es[i].name in relays then {relays[es[i].name]} else {}
      ensures Valid() && (ok <==> !Blocked(es[i], slots0, mkdirOK))
      ensures ok ==> Configured(es, i + 1, dflt)
      ensures ok ==> slots.Keys == slots0 + SlotNames(es[..i + 1]) && relays.Keys == relays0 + RelayNames(es[..i + 1])
      ensures forall n :: n in old(slots) ==> n in slots && slots[n] == old(slots)[n]
      ensures forall n :: n in old(relays) ==> n in relays && relays[n] == old(relays)[n]
      ensures forall n :: n in slots && n !in old(slots) ==> fresh(slots[n])
      ensures forall n :: n in relays && n !in old(relays) ==> fresh(relays[n])
    {
      NewName(es, i);
      KnownBefore(slots0, SlotNames(es[..i]), es[i], mkdirOK);
      ok := ApplyNext(es, i, dflt, mkdirOK);
      NamesStep(es, i);
      UnionAssoc(slots0, SlotNames(es[..i]), if es[i].IsSlot() then {es[i].name} else {});
      UnionAssoc(relays0, RelayNames(es[..i]), if es[i].IsRelay() then {es[i].name} else {});
    }

    /** All slot and relay entries in order. On a failed directory the rest is not looked at. */
    method AddWanted(es: seq<Exit>, dflt: string, mkdirOK: string -> bool) returns (failed: bool)
      requires Valid() && Distinct(es)
      modifies this`slots, this`relays, slots.Values, relays.Values
      ensures Valid()
      ensures forall n :: n in old(slots) ==> n in slots && slots[n] == old(slots)[n]
      ensures forall n :: n in old(relays) ==> n in relays && relays[n] == old(relays)[n]
      ensures forall n :: n in slots && n !in old(slots) ==> fresh(slots[n])
      ensures forall n :: n in relays && n !in old(relays) ==> fresh(relays[n])
      ensures failed <==> NeedsDirectory(es, old(slots).Keys, mkdirOK)
      ensures !failed ==> slots.Keys == old(slots).Keys + SlotNames(es) && relays.Keys == old(relays).Keys + RelayNames(es)
      ensures !failed ==> Configured(es, |es|, dflt)
    {
      ghost var slots0, relays0 := slots.Keys, relays.Keys;
      for i := 0 to |es|
        invariant Valid()
        invariant forall n :: n in old(slots) ==> n in slots && slots[n] == old(slots)[n]
        invariant forall n :: n in old(relays) ==> n in relays && relays[n] == old(relays)[n]
        invariant forall n :: n in slots && n !in old(slots) ==> fresh(slots[n])
        invariant forall n :: n in relays && n !in old(relays) ==> fresh(relays[n])
        invariant slots.Keys == slots0 + SlotNames(es[..i])
        invariant relays.Keys == relays0 + RelayNames(es[..i])
        invariant forall j :: 0 <= j < i ==> !Blocked(es[j], slots0, mkdirOK)
        invariant Configured(es, i, dflt)
      {
        var ok := ApplyCounted(es, i, dflt, mkdirOK, slots0, relays0);
        if !ok {
          return true;
        }
      }
      assert es[..|es|] == es;
      return false;
    }

    method WantedNames(es: seq<Exit>) returns (want: set<string>, wantRelay: set<string>)
      ensures want == SlotNames(es) && wantRelay == RelayNames(es)
    {
      want, wantRelay := {}, {};
      for i := 0 to |es|
        invariant want == SlotNames(es[..i]) && wantRelay == RelayNames(es[..i])
      {
        NamesStep(es, i);
        if es[i].IsRelay() {
          wantRelay := wantRelay + {es[i].name};
        } else if es[i].IsSlot() {
          want := want + {es[i].name};
        }
      }
      assert es[..|es|] == es;
    }

    /** Forgets the objects of names no longer wanted, and says which. */
    method RemoveOthers(want: set<string>, wantRelay: set<string>) returns (removed: set<Slot>, removedRelays: set<Relay>)
      modifies this`slots, this`relays
      ensures KeptOf(old(slots), slots, want) && KeptOf(old(relays), relays, wantRelay)
      ensures DroppedOf(old(slots), want, removed) && DroppedOf(old(relays), wantRelay, removedRelays)
    {
      removed, removedRelays := {}, {};
      var todo := slots.Keys;
      while todo != {}
        invariant todo <= old(slots).Keys && KeptOf(old(slots), slots, want + todo)
        invariant DroppedOf(old(slots), want + todo, removed)
        invariant relays == old(relays)
        decreases todo
      {
        var n :| n in todo;
        assert n in slots;
        if n !in want {
          removed := removed + {slots[n]};
          slots := slots - {n};
          assert want + (todo - {n}) == want + todo - {n};
        } else {
          assert want + (todo - {n}) == want + todo;
        }
        todo := todo - {n};
      }
      assert want + todo == want;
      var left := relays.Keys;
      while left != {}
        invariant left <= old(relays).Keys && KeptOf(old(relays), relays, wantRelay + left)
        invariant DroppedOf(old(relays), wantRelay + left, removedRelays)
        invariant KeptOf(old(slots), slots, want)
        decreases left
      {
        var n :| n in left;
        assert n in relays;
        if n !in wantRelay {
          removedRelays := removedRelays + {relays[n]};
          relays := relays - {n};
          assert wantRelay + (left - {n}) == wantRelay + left - {n};
        } else {
          assert wantRelay + (left - {n}) == wantRelay + left;
        }
        left := left - {n};
      }
      assert wantRelay + left == wantRelay;
    }

    /** The member list of one group. */
    method MembersOf(names: seq<string>) returns (members: seq<Member>)
      ensures members == ResolveAll(slots, relays, names)
    {
      members := [];
      for i := 0 to |names|
        invariant members == ResolveAll(slots, relays, names[..i])
      {
        assert names[..i + 1][..i] == names[..i];
        if names[i] in slots {
          members := members + [OfSlot(slots[names[i]])];
        } else if names[i] in relays {
          members := members + [OfRelay(relays[names[i]])];
        }
      }
      assert names[..|names|] == names;
    }

    /** Fills in the members of freshly built groups. */
    method FillGroups(es: seq<Exit>, built: map<string, Group>) returns (filled: map<string, Group>)
      requires Distinct(es) && built.Keys == GroupNames(es)
      requires forall i :: 0 <= i < |es| && es[i].IsGroup() ==> es[i].name in built && built[es[i].name].members == []
      ensures filled.Keys == GroupNames(es)
      ensures forall i :: 0 <= i < |es| && es[i].IsGroup() ==> es[i].name in filled && Filled(es[i], built, filled)
    {
      filled := built;
      for i := 0 to |es|
        invariant filled.Keys == built.Keys
        invariant forall j :: 0 <= j < i && es[j].IsGroup() ==> Filled(es[j], built, filled)
        invariant forall j :: i <= j < |es| && es[j].IsGroup() ==> filled[es[j].name] == built[es[j].name]
      {
        var e := es[i];
        if e.IsGroup() {
          var members := MembersOf(e.members);
          var before := filled[e.name].members;
          assert before + members == members;
          filled := filled[e.name := filled[e.name].(members := before + members)];
        }
      }
    }

    ghost predicate Filled(e: Exit, built: map<string, Group>, filled: map<string, Group>)
      requires e.name in built && e.name in filled
      reads this`slots, this`relays
    {
      filled[e.name] == built[e.name].(members := ResolveAll(slots, relays, e.members))
    }

    /** The maps after Apply: exactly the names of the file, each group's members in the order written. */
    ghost predicate Applied(es: seq<Exit>)
      reads this
    {
      && slots.Keys == SlotNames(es) && relays.Keys == RelayNames(es) && groups.Keys == GroupNames(es)
      && order == seq(|es|, i requires 0 <= i < |es| => es[i].name)
      && forall i :: 0 <= i < |es| && es[i].IsGroup() ==>
           groups[es[i].name]
           == Group(es[i].name, es[i].kind, ResolveAll(slots, relays, es[i].members),
                    if es[i].health.Some? then es[i].health.value.interval else None)
    }

    /** Slots and relays: additions and changes in place, then removals. */
    method Reconcile(es: seq<Exit>, dflt: string, mkdirOK: string -> bool) returns (failed: bool, removed: set<Slot>, removedRelays: set<Relay>)
      requires Valid() && Distinct(es)
      modifies this`slots, this`relays, slots.Values, relays.Values
      ensures Valid() && (failed <==> NeedsDirectory(es, old(slots).Keys, mkdirOK))
      ensures forall n :: n in old(slots) && (failed || n in SlotNames(es)) ==> n in slots && slots[n] == old(slots)[n]
      ensures forall n :: n in old(relays) && (failed || n in RelayNames(es)) ==> n in relays && relays[n] == old(relays)[n]
      ensures forall n :: n in slots && n !in old(slots) ==> fresh(slots[n])
      ensures forall n :: n in relays && n !in old(relays) ==> fresh(relays[n])
      ensures !failed ==> slots.Keys == SlotNames(es) && relays.Keys == RelayNames(es) && Configured(es, |es|, dflt)
      ensures !failed ==> DroppedOf(old(slots), SlotNames(es), removed) && DroppedOf(old(relays), RelayNames(es), removedRelays)
    {
      removed, removedRelays := {}, {};
      failed := AddWanted(es, dflt, mkdirOK);
      if failed {
        return;
      }
      var want, wantRelay := WantedNames(es);
      ghost var slots1, relays1 := slots, relays;
      removed, removedRelays := RemoveOthers(want, wantRelay);
      GrownThenKept(old(slots), slots1, slots, want, removed);
      GrownThenKept(old(relays), relays1, relays, wantRelay, removedRelays);
      forall j | 0 <= j < |es| ensures Runs(es[j], dflt) {
        assert es[j] in es;
      }
    }

    /**
     Apply. On success the manager holds exactly the named slots, relays and groups; a
     name that was there keeps its object, a new name gets a new one, and what is handed
     back for logging out is exactly what was dropped. A bad health check changes
     nothing; a failed directory leaves the groups and the order as they were, and
     drops no object.
     */
    method Apply(es: seq<Exit>, dflt: string, mkdirOK: string -> bool)
      returns (r: Option<ApplyError>, removed: set<Slot>, removedRelays: set<Relay>)
      requires Valid() && Distinct(es)
      modifies this, slots.Values, relays.Values
      ensures Valid()
      ensures r.None? <==> (forall e :: e in es && e.IsGroup() && e.health.Some? ==> HealthOK(e.health.value))
                           && !NeedsDirectory(es, old(slots).Keys, mkdirOK)
      ensures r.None? ==> Applied(es) && Configured(es, |es|, dflt)
      ensures forall n :: n in slots && n in old(slots) ==> slots[n] == old(slots)[n]
      ensures forall n :: n in relays && n in old(relays) ==> relays[n] == old(relays)[n]
      ensures forall n :: n in slots && n !in old(slots) ==> fresh(slots[n])
      ensures forall n :: n in relays && n !in old(relays) ==> fresh(relays[n])
      ensures r.None? ==> DroppedOf(old(slots), SlotNames(es), removed) && DroppedOf(old(relays), RelayNames(es), removedRelays)
      ensures r.Some? ==> groups == old(groups) && order == old(order) && old(slots).Keys <= slots.Keys && old(relays).Keys <= relays.Keys
      ensures r.Some? && r.value.BadHealthCheck? ==> slots == old(slots) && relays == old(relays)
    {
      removed, removedRelays := {}, {};
      var built := BuildGroups(es);
      if built.Err? {
        return Some(built.error), removed, removedRelays;
      }
      var failed;
      failed, removed, removedRelays := Reconcile(es, dflt, mkdirOK);
      if failed {
        return Some(MkdirFailed), removed, removedRelays;
      }
      Install(es, built.value);
      return None, removed, removedRelays;
    }

    /** The new groups and the order replace the old. */
    method Install(es: seq<Exit>, built: map<string, Group>)
      requires Valid() && Distinct(es) && slots.Keys == SlotNames(es) && relays.Keys == RelayNames(es)
      requires built.Keys == GroupNames(es)
      requires forall i :: 0 <= i < |es| && es[i].IsGroup() ==>
                 es[i].name in built && built[es[i].name] == Group(es[i].name, es[i].kind, [], IntervalOf(es[i]))
      modifies this`groups, this`order
      ensures Applied(es)
    {
      var filled := FillGroups(es, built);
      order := OrderOf(es);
      groups := filled;
      forall i | 0 <= i < |es| && es[i].IsGroup()
        ensures groups[es[i].name] == Group(es[i].name, es[i].kind, ResolveAll(slots, relays, es[i].members), IntervalOf(es[i]))
      {
        assert Filled(es[i], built, filled);
      }
    }

    /** What carries a dial to the target. probe says how a member is doing at the moment. */
    method Dial(target: string, probe: Member -> Probe) returns (r: Dialed)
      requires Valid() && forall m :: WellProbed(probe(m))
      ensures r.UnknownEgress? <==> target !in slots && target !in relays && target !in groups
      ensures target in slots ==> r == Through(OfSlot(slots[target]))
      ensures target !in slots && target in relays ==> r == Through(OfRelay(relays[target]))
      ensures target !in slots && target !in relays && target in groups ==>
                && (r.NotReady? <==> forall m :: m in groups[target].members ==> !(probe(m).ready && probe(m).ok))
                && (r.Through? ==> exists i :: 0 <= i < |groups[target].members| && r.via == groups[target].members[i]
                                               && Chosen(groups[target].kind, Probes(groups[target].members, probe), i))
    {
      if target in slots {
        return Through(OfSlot(slots[target]));
      }
      if target in relays {
        return Through(OfRelay(relays[target]));
      }
      if target !in groups {
        return UnknownEgress;
      }
      var g := groups[target];
      var probes := Probes(g.members, probe);
      var best := Pick(g.kind, probes);
      if best.None? {
        forall m | m in g.members ensures !Eligible(probe(m)) {
          var i :| 0 <= i < |g.members| && g.members[i] == m;
          assert !Eligible(probes[i]);
        }
        return NotReady;
      }
      return Through(g.members[best.value]);
    }
  }

  /** How a member is doing. An unmeasured one reports no round-trip time. */
  datatype Probe = Probe(ready: bool, ok: bool, rtt: nat, measured: bool)

  datatype Dialed = UnknownEgress | NotReady | Through(via: Member)

  function Probes(members: seq<Member>, probe: Member -> Probe): (r: seq<Probe>)
    ensures |r| == |members| && forall i :: 0 <= i < |members| ==> r[i] == probe(members[i])
  {
    seq(|members|, i requires 0 <= i < |members| => probe(members[i]))
  }

  /** Member i is the group's choice: the first eligible one, or the fastest measured one up to a forgotten zero. */
  ghost predicate Chosen(kind: string, ps: seq<Probe>, i: nat)
  {
    && i < |ps| && ps[i].ready && ps[i].ok
    && (kind == "fallback" || (forall j :: 0 <= j < |ps| ==> !Measured(ps[j])) ==> forall j :: 0 <= j < i ==> !(ps[j].ready && ps[j].ok))
    && (kind != "fallback" && (exists j :: 0 <= j < |ps| && Measured(ps[j])) ==>
          Measured(ps[i]) && (Lowest(ps, i) <==> !ZeroForgotten(ps)))
  }

  predicate WellProbed(p: Probe) { !p.measured ==> p.rtt == 0 }

  predicate Eligible(p: Probe) { p.ready && p.ok }

  predicate Measured(p: Probe) { Eligible(p) && p.measured }

  ghost predicate FirstEligible(ps: seq<Probe>, i: nat)
  {
    i < |ps| && Eligible(ps[i]) && forall j :: 0 <= j < i ==> !Eligible(ps[j])
  }

  /** No measured member answers faster. */
  ghost predicate Lowest(ps: seq<Probe>, i: nat)
  {
    i < |ps| && Measured(ps[i]) && forall j :: 0 <= j < |ps| && Measured(ps[j]) ==> ps[i].rtt <= ps[j].rtt
  }

  /** A measured time of zero is mistaken for none, and the members behind it all took longer. */
  ghost predicate ZeroForgotten(ps: seq<Probe>)
  {
    exists j, k :: 0 <= j < k < |ps| && Measured(ps[j]) && ps[j].rtt == 0 && Measured(ps[k])
                   && forall l :: j < l < |ps| && Measured(ps[l]) ==> ps[l].rtt > 0
  }

  /** The loop of pick: from is behind the last measured time of zero. */
  ghost predicate Scanned(ps: seq<Probe>, n: nat, from: nat, best: Option<nat>)
    requires n <= |ps|
  {
    && from <= n
    && (best.None? ==> forall j :: 0 <= j < n ==> !Eligible(ps[j]))
    && (best.Some? ==> best.value < n && Eligible(ps[best.value]))
    && (from > 0 ==> Measured(ps[from - 1]) && ps[from - 1].rtt == 0)
    && (forall j :: from <= j < n && Measured(ps[j]) ==>
          ps[j].rtt > 0 && best.Some? && Measured(ps[best.value]) && from <= best.value && ps[best.value].rtt <= ps[j].rtt)
    && ((forall j :: from <= j < n ==> !Measured(ps[j])) && from > 0 ==> best == Some(from - 1))
    && ((forall j :: 0 <= j < n ==> !Measured(ps[j])) && best.Some? ==> FirstEligible(ps, best.value))
  }

  lemma ScannedDecides(ps: seq<Probe>, from: nat, best: nat)
    requires Scanned(ps, |ps|, from, Some(best))
    requires exists j :: 0 <= j < |ps| && Measured(ps[j])
    ensures Measured(ps[best]) && (Lowest(ps, best) <==> !ZeroForgotten(ps))
  {
    if exists j :: from <= j < |ps| && Measured(ps[j]) {
      var k :| from <= k < |ps| && Measured(ps[k]);
      if from > 0 {
        assert ps[from - 1].rtt == 0 && from - 1 < k;
        assert ZeroForgotten(ps);
        assert !Lowest(ps, best);
      } else {
        assert Lowest(ps, best);
      }
    } else {
      assert from > 0;
    }
  }

  /**
   group.pick. A fallback group takes its first eligible member. A latency group takes
   a measured one if there is any, and it is the fastest exactly when no measured time
   of zero was forgotten; with nothing measured it takes the first eligible.
   */
  method Pick(kind: string, ps: seq<Probe>) returns (best: Option<nat>)
    requires forall p :: p in ps ==> WellProbed(p)
    ensures best.None? <==> forall i :: 0 <= i < |ps| ==> !(ps[i].ready && ps[i].ok)
    ensures best.Some? ==> Chosen(kind, ps, best.value)
  {
    best := None;
    var bestRTT := 0;
    ghost var from: nat := 0;
    for n := 0 to |ps|
      invariant kind == "fallback" ==> best.None? && forall j :: 0 <= j < n ==> !Eligible(ps[j])
      invariant kind != "fallback" ==> Scanned(ps, n, from, best)
      invariant kind != "fallback" ==> bestRTT == if best.Some? then ps[best.value].rtt else 0
    {
      var p := ps[n];
      if !p.ready || !p.ok {
        continue;
      }
      if kind == "fallback" {
        return Some(n);
      }
      assert p in ps && (best.Some? ==> ps[best.value] in ps);
      if best.None? || (p.measured && (bestRTT == 0 || p.rtt < bestRTT)) {
        best, bestRTT := Some(n), p.rtt;
      }
      if p.measured && p.rtt == 0 {
        from := n + 1;
      }
    }
    if best.Some? && exists i :: 0 <= i < |ps| && Measured(ps[i]) {
      ScannedDecides(ps, from, best.value);
    }
  }

  /** Two members measured at zero and five: a latency group picks the slower one. */
  method ZeroIsForgotten() returns (best: Option<nat>)
    ensures best == Some(1)
  {
    var ps := [Probe(true, true, 0, true), Probe(true, true, 5, true)];
    best := Pick("latency", ps);
    assert Measured(ps[0]) && Measured(ps[1]);
    assert ZeroForgotten(ps) && Lowest(ps, 0);
  }

  // -------------------------------------------------------------- what it all gives

  lemma SameIndex(es: seq<Exit>, i: nat, j: nat)
    requires Distinct(es) && i < |es| && j < |es| && es[i].name == es[j].name
    ensures i == j
  {
  }

  /** The three kinds of name are disjoint and make up the file's. */
  lemma KindsPartition(es: seq<Exit>)
    requires Distinct(es)
    ensures Names(es) == SlotNames(es) + RelayNames(es) + GroupNames(es)
    ensures SlotNames(es) !! RelayNames(es) && SlotNames(es) !! GroupNames(es) && RelayNames(es) !! GroupNames(es)
  {
    forall e, f | e in es && f in es && e.name == f.name ensures e == f {
      var i, j :| 0 <= i < |es| && 0 <= j < |es| && es[i] == e && es[j] == f;
      SameIndex(es, i, j);
    }
  }

  /**
   After Apply of a validated file every target a rule names is served: it is reserved,
   or it is exactly one of a slot, a relay and a group, and every member a group lists
   is there, in its place.
   */
  lemma TargetsAreServed(m: Manager, es: seq<Exit>, rules: seq<Rules.ConfigRule>, relayOK: string -> bool)
    requires Validated(es, rules, relayOK) && m.Applied(es)
    ensures forall r :: r in rules && !IsReserved(r.Target()) ==>
              r.Target() in m.slots.Keys + m.relays.Keys + m.groups.Keys
    ensures m.slots.Keys !! m.relays.Keys && m.slots.Keys !! m.groups.Keys && m.relays.Keys !! m.groups.Keys
    ensures m.slots.Keys + m.relays.Keys + m.groups.Keys == Names(es)
    ensures forall i :: 0 <= i < |es| && es[i].IsGroup() ==>
              var ms := m.groups[es[i].name].members;
              |ms| == |es[i].members| && |ms| > 0
              && forall k :: 0 <= k < |ms| ==> Some(ms[k]) == Resolve(m.slots, m.relays, es[i].members[k])
  {
    KindsPartition(es);
    forall i | 0 <= i < |es| && es[i].IsGroup()
      ensures var ms := m.groups[es[i].name].members;
              |ms| == |es[i].members| && |ms| > 0
              && forall k :: 0 <= k < |ms| ==> Some(ms[k]) == Resolve(m.slots, m.relays, es[i].members[k])
    {
      assert es[i] in es;
      assert EntryOK(es[i], relayOK);
      forall n | n in es[i].members ensures n in m.slots || n in m.relays {
      }
      ResolveAllDefined(m.slots, m.relays, es[i].members);
    }
  }

  method OrderOf(es: seq<Exit>) returns (order: seq<string>)
    ensures order == seq(|es|, i requires 0 <= i < |es| => es[i].name)
  {
    order := [];
    for i := 0 to |es|
      invariant |order| == i && forall j :: 0 <= j < i ==> order[j] == es[j].name
    {
      order := order + [es[i].name];
    }
  }

  /** Some new slot cannot have its directory made. */
  ghost predicate NeedsDirectory(es: seq<Exit>, known: set<string>, mkdirOK: string -> bool)
  {
    exists i :: 0 <= i < |es| && Blocked(es[i], known, mkdirOK)
  }

  ghost predicate Blocked(e: Exit, known: set<string>, mkdirOK: string -> bool)
  {
    e.IsSlot() && e.name !in known && !mkdirOK(e.name)
  }

  lemma KnownBefore(slots0: set<string>, before: set<string>, e: Exit, mkdirOK: string -> bool)
    requires e.name !in before
    ensures Blocked(e, slots0 + before, mkdirOK) <==> Blocked(e, slots0, mkdirOK)
  {
  }

  lemma UnionAssoc(a: set<string>, b: set<string>, c: set<string>)
    ensures a + b + c == a + (b + c)
  {
  }

  lemma NewName(es: seq<Exit>, i: nat)
    requires i < |es| && Distinct(es)
    ensures es[i].name !in SlotNames(es[..i]) + RelayNames(es[..i])
  {
    forall e | e in es[..i] ensures e.name != es[i].name {
      var j :| 0 <= j < i && es[..i][j] == e;
    }
  }

  lemma NamesStep(es: seq<Exit>, i: nat)
    requires i < |es|
    ensures SlotNames(es[..i + 1]) == SlotNames(es[..i]) + if es[i].IsSlot() then {es[i].name} else {}
    ensures RelayNames(es[..i + 1]) == RelayNames(es[..i]) + if es[i].IsRelay() then {es[i].name} else {}
    ensures forall e :: e in es[..i + 1] <==> e in es[..i] || e == es[i]
    ensures SlotNames(es[..i + 1]) <= SlotNames(es) && RelayNames(es[..i + 1]) <= RelayNames(es)
  {
    assert es[..i + 1] == es[..i] + [es[i]];
  }

  lemma DistinctPrefix(es: seq<Exit>, i: nat)
    requires Distinct(es) && i <= |es|
    ensures Distinct(es[..i])
  {
  }
}
