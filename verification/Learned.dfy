/**
 Learned names (internal/iplearn/table.go) and the route set the capture keeps for
 them (cmd/tailproxy/capture.go): a bounded cache over an unbounded history of
 DNS answers, with a generation counter.
 */
module Learned {
  import opened Wrappers
  import opened Addr
  import Names

  const MAX_ENTRIES: nat := 65536
  const SECOND: nat := 1_000_000_000
  const MIN_TTL: nat := 60 * SECOND
  const MAX_TTL: nat := 3600 * SECOND
  const THROTTLE: nat := 10 * SECOND

  /** One address of one answer, at the time it was added. */
  datatype Answer = Answer(addr: Addr, name: string, at: nat, expires: nat)

  datatype Entry = Entry(name: string, expires: nat)

  // ------------------------------------- what the history alone says is stored

  /** The last answer for a, unless it met a table full of live entries. */
  ghost function Stored(h: seq<Answer>, a: Addr): Option<Entry>
    decreases |h|, 0
  {
    if h == [] then None
    else
      var e := h[|h| - 1];
      var past := h[..|h| - 1];
      if e.addr != a then Stored(past, a)
      else if Taken(past, a, e.at) then Some(Entry(e.name, e.expires))
      else None
  }

  ghost predicate Live(h: seq<Answer>, a: Addr, now: nat)
    decreases |h|, 1
  {
    Stored(h, a).Some? && now <= Stored(h, a).value.expires
  }

  ghost function LiveAddrs(h: seq<Answer>, now: nat): set<Addr>
    decreases |h|, 2
  {
    set e | e in h && Live(h, e.addr, now) :: e.addr
  }

  /** Whether an answer for a at this time has a place. */
  ghost predicate Taken(h: seq<Answer>, a: Addr, at: nat)
    decreases |h|, 3
  {
    Live(h, a, at) || |LiveAddrs(h, at)| < MAX_ENTRIES
  }

  /** The name a resolves back to. */
  ghost function Fresh(h: seq<Answer>, a: Addr, now: nat): Option<string>
  {
    if Live(h, a, now) then Some(Stored(h, a).value.name) else None
  }

  /** Position i holds the most recent answer for a. */
  ghost predicate LastFor(h: seq<Answer>, a: Addr, i: nat)
  {
    i < |h| && h[i].addr == a && forall j :: i < j < |h| ==> h[j].addr != a
  }

  lemma {:induction false} StoredIsLast(h: seq<Answer>, a: Addr, i: nat)
    requires LastFor(h, a, i)
    ensures Stored(h, a) == if Taken(h[..i], a, h[i].at) then Some(Entry(h[i].name, h[i].expires)) else None
    decreases |h|
  {
    if i < |h| - 1 {
      var past := h[..|h| - 1];
      assert past[..i] == h[..i];
      StoredIsLast(past, a, i);
    }
  }

  lemma {:induction false} StoredHasLast(h: seq<Answer>, a: Addr)
    requires Stored(h, a).Some?
    ensures exists i: nat :: LastFor(h, a, i)
    decreases |h|
  {
    var n := |h| - 1;
    if h[n].addr == a {
      assert LastFor(h, a, n);
    } else {
      StoredHasLast(h[..n], a);
      var i: nat :| LastFor(h[..n], a, i);
      assert LastFor(h, a, i);
    }
  }

  /**
   A name comes back exactly when the most recent answer for the address gave it,
   has not expired, and was not turned away by a table full of live entries.
   */
  lemma FreshestOrNothing(h: seq<Answer>, a: Addr, now: nat, name: string)
    ensures Fresh(h, a, now) == Some(name) <==>
              exists i: nat :: LastFor(h, a, i) && h[i].name == name && now <= h[i].expires && Taken(h[..i], a, h[i].at)
  {
    if Fresh(h, a, now) == Some(name) {
      StoredHasLast(h, a);
      var i: nat :| LastFor(h, a, i);
      StoredIsLast(h, a, i);
    }
    forall i: nat | LastFor(h, a, i) && h[i].name == name && now <= h[i].expires && Taken(h[..i], a, h[i].at)
      ensures Fresh(h, a, now) == Some(name)
    {
      StoredIsLast(h, a, i);
    }
  }

  // --------------------------------------------------------- the cache against it

  /** The cache holds nothing but what the history stores, and everything of it that is live. */
  ghost predicate Agrees(m: map<Addr, Entry>, h: seq<Answer>, clock: nat)
  {
    && (forall a :: a in m ==> Stored(h, a) == Some(m[a]))
    && (forall a :: Live(h, a, clock) ==> a in m)
  }

  lemma AgreesLater(m: map<Addr, Entry>, h: seq<Answer>, clock: nat, now: nat)
    requires Agrees(m, h, clock) && clock <= now
    ensures Agrees(m, h, now)
  {
    forall a | Live(h, a, now) ensures a in m {
      assert Live(h, a, clock);
    }
  }

  lemma LiveIsListed(h: seq<Answer>, a: Addr, now: nat)
    ensures a in LiveAddrs(h, now) <==> Live(h, a, now)
  {
    if Live(h, a, now) {
      StoredHasLast(h, a);
      var i: nat :| LastFor(h, a, i);
      assert h[i] in h;
    }
  }

  function Unexpired(m: map<Addr, Entry>, now: nat): map<Addr, Entry>
  {
    map a | a in m && now <= m[a].expires :: m[a]
  }

  /** Evicting leaves exactly the live addresses. */
  lemma EvictedIsLive(m: map<Addr, Entry>, h: seq<Answer>, now: nat)
    requires Agrees(m, h, now)
    ensures Agrees(Unexpired(m, now), h, now)
    ensures Unexpired(m, now).Keys == LiveAddrs(h, now) <= m.Keys
  {
    forall a ensures a in Unexpired(m, now) <==> a in LiveAddrs(h, now) {
      LiveIsListed(h, a, now);
    }
  }

  lemma SubsetCard<T>(a: set<T>, b: set<T>)
    requires a <= b
    ensures |a| <= |b|
    ensures a != b ==> |a| < |b|
  {
    assert b == a + (b - a);
    if b - a == {} {
      assert a == b;
    }
  }

  /** A known address always has a place, and so has any while the cache is not full. */
  lemma KnownIsTaken(m: map<Addr, Entry>, h: seq<Answer>, a: Addr, now: nat)
    requires Agrees(m, h, now) && |m| <= MAX_ENTRIES
    requires a in m || |m| < MAX_ENTRIES
    ensures Taken(h, a, now)
  {
    EvictedIsLive(m, h, now);
    SubsetCard(LiveAddrs(h, now), m.Keys);
    LiveIsListed(h, a, now);
  }

  /** A full cache turns an unknown address away exactly when every entry is live. */
  lemma FullIsTaken(m: map<Addr, Entry>, h: seq<Answer>, a: Addr, now: nat)
    requires Agrees(m, h, now) && a !in m
    ensures Taken(h, a, now) <==> |Unexpired(m, now)| < 65536
  {
    EvictedIsLive(m, h, now);
    assert |Unexpired(m, now)| == |Unexpired(m, now).Keys|;
  }

  lemma PushStored(h: seq<Answer>, e: Answer, a: Addr)
    ensures a != e.addr ==> Stored(h + [e], a) == Stored(h, a)
    ensures Stored(h + [e], e.addr) == if Taken(h, e.addr, e.at) then Some(Entry(e.name, e.expires)) else None
  {
    assert (h + [e])[..|h|] == h;
  }

  lemma PushAgrees(m: map<Addr, Entry>, h: seq<Answer>, e: Answer)
    requires Agrees(m, h, e.at)
    ensures Taken(h, e.addr, e.at) ==> Agrees(m[e.addr := Entry(e.name, e.expires)], h + [e], e.at)
    ensures !Taken(h, e.addr, e.at) && e.addr !in m ==> Agrees(m, h + [e], e.at)
  {
    forall a ensures (a != e.addr ==> Stored(h + [e], a) == Stored(h, a) && Live(h + [e], a, e.at) == Live(h, a, e.at)) {
      PushStored(h, e, a);
    }
    PushStored(h, e, e.addr);
  }

  // ----------------------------------------------------------------- the object

  /** Every binding of m is one of n. */
  ghost predicate Within(m: map<Addr, Entry>, n: map<Addr, Entry>)
  {
    forall a :: a in m ==> a in n && n[a].name == m[a].name
  }

  predicate IsUnspecified(a: Addr) { a == V4(0) || a == V6(0) }

  predicate Learnable(a: Addr) { a.IsValid() && !IsUnspecified(a) && !IsLoopback(a) }

  /** What is never learned: the unspecified addresses, 127.0.0.0/8 and ::1. */
  lemma LearnableMeaning(a: Addr)
    ensures Learnable(a) <==>
              || (a.V4? && a.a4 != 0 && !(0x7f00_0000 <= a.a4 < 0x8000_0000))
              || (a.V6? && a.a6 > 1)
  {
  }

  /** The answers one Add makes. */
  ghost function Answers(name: string, addrs: seq<Addr>, at: nat, expires: nat): seq<Answer>
  {
    if addrs == [] then []
    else
      var n := |addrs| - 1;
      var a := addrs[n].Unmap();
      Answers(name, addrs[..n], at, expires) + if Learnable(a) then [Answer(a, name, at, expires)] else []
  }

  lemma AnswersStep(name: string, addrs: seq<Addr>, i: nat, at: nat, expires: nat)
    requires i < |addrs|
    ensures Answers(name, addrs[..i + 1], at, expires)
            == Answers(name, addrs[..i], at, expires)
               + if Learnable(addrs[i].Unmap()) then [Answer(addrs[i].Unmap(), name, at, expires)] else []
  {
    assert addrs[..i + 1][..i] == addrs[..i];
  }

  function ClampTTL(ttl: int): (r: nat)
    ensures 60_000_000_000 <= r <= 3_600_000_000_000 && (ttl < 60_000_000_000 ==> r == 60_000_000_000)
    ensures 60_000_000_000 <= ttl <= 3_600_000_000_000 ==> r == ttl
    ensures ttl > 3_600_000_000_000 ==> r == 3_600_000_000_000
  {
    if ttl < MIN_TTL then MIN_TTL else if ttl > MAX_TTL then MAX_TTL else ttl
  }

  class NameTable {
    var m: map<Addr, Entry>
    var gen: nat
    ghost var history: seq<Answer>
    ghost var clock: nat

    ghost predicate Valid()
      reads this
    {
      |m| <= MAX_ENTRIES && Agrees(m, history, clock)
    }

    constructor ()
      ensures Valid() && m == map[] && history == [] && gen == 0 && clock == 0
    {
      m, gen, history, clock := map[], 0, [], 0;
    }

    method EvictExpired(now: nat)
      requires Valid() && clock <= now
      modifies this`m, this`clock
      ensures Valid() && clock == now
      ensures m == Unexpired(old(m), now) && m.Keys == LiveAddrs(history, now)
    {
      AgreesLater(m, history, clock, now);
      var todo := m.Keys;
      while todo != {}
        invariant todo <= m.Keys <= old(m).Keys
        invariant forall a :: a in old(m) && (a in todo || now <= old(m)[a].expires) ==> a in m
        invariant forall a :: a in m ==> m[a] == old(m)[a] && (a in todo || now <= m[a].expires)
        decreases todo
      {
        var a :| a in todo;
        todo := todo - {a};
        if now > m[a].expires {
          m := m - {a};
        }
      }
      assert m == Unexpired(old(m), now);
      EvictedIsLive(old(m), history, now);
      SubsetCard(m.Keys, old(m).Keys);
      clock := now;
    }

    /** One address of Add: the new history decides what is kept, the cache follows it. */
    method AddOne(name: string, a: Addr, now: nat, expires: nat)
      requires Valid() && clock == now
      modifies this
      ensures Valid() && clock == now
      ensures history == old(history) + [Answer(a, name, now, expires)]
      ensures gen >= old(gen) && (gen == old(gen) ==> Within(m, old(m)))
    {
      ghost var e := Answer(a, name, now, expires);
      var known := a in m;
      var previous := if known then m[a].name else "";
      ghost var h := history;
      if !known && |m| >= MAX_ENTRIES {
        FullIsTaken(m, h, a, now);
        EvictExpired(now);
        if |m| >= MAX_ENTRIES {
          PushAgrees(m, h, e);
          history := h + [e];
          return;
        }
      } else {
        KnownIsTaken(m, h, a, now);
      }
      PushAgrees(m, h, e);
      if !known || previous != name {
        gen := gen + 1;
      }
      m := m[a := Entry(name, expires)];
      history := h + [e];
    }

    method Add(name: string, addrs: seq<Addr>, ttl: int, now: nat)
      requires Valid() && clock <= now
      modifies this
      ensures Valid() && clock == now
      ensures history == old(history) +
                if Names.NormalizeName(name) == "" then []
                else Answers(Names.NormalizeName(name), addrs, now, now + ClampTTL(ttl))
      ensures gen >= old(gen) && (gen == old(gen) ==> Within(m, old(m)))
    {
      AgreesLater(m, history, clock, now);
      clock := now;
      var n := Names.NormalizeName(name);
      if n == "" {
        return;
      }
      var expires := now + ClampTTL(ttl);
      for i := 0 to |addrs|
        invariant Valid() && clock == now
        invariant history == old(history) + Answers(n, addrs[..i], now, expires)
        invariant gen >= old(gen) && (gen == old(gen) ==> Within(m, old(m)))
      {
        AnswersStep(n, addrs, i, now, expires);
        var a := addrs[i].Unmap();
        if Learnable(a) {
          AddOne(n, a, now, expires);
        }
      }
      assert addrs[..|addrs|] == addrs;
    }

    method Lookup(a: Addr, now: nat) returns (r: Option<string>)
      requires Valid() && clock <= now
      ensures r == Fresh(history, a.Unmap(), now)
    {
      AgreesLater(m, history, clock, now);
      var u := a.Unmap();
      if u !in m || now > m[u].expires {
        return None;
      }
      return Some(m[u].name);
    }

    /** The live addresses whose name is kept, sorted, and the generation. */
    method Addrs(keep: string -> bool, now: nat) returns (out: seq<Addr>, g: nat)
      requires Valid() && clock <= now
      modifies this`m, this`clock
      ensures Valid() && clock == now && g == gen && Within(m, old(m)) && m.Keys == LiveAddrs(history, now)
      ensures forall a :: a in out <==> Fresh(history, a, now).Some? && keep(Fresh(history, a, now).value)
      ensures forall a :: a in out <==> a in m && keep(m[a].name)
      ensures Rising(out)
    {
      EvictExpired(now);
      forall a ensures a in m <==> Live(history, a, now) {
        LiveIsListed(history, a, now);
      }
      var kept: set<Addr> := {};
      var todo := m.Keys;
      while todo != {}
        invariant todo <= m.Keys
        invariant forall a :: a in kept <==> a in m && a !in todo && keep(m[a].name)
        decreases todo
      {
        var a :| a in todo;
        todo := todo - {a};
        if keep(m[a].name) {
          kept := kept + {a};
        }
      }
      out := Sorted(kept);
      g := gen;
    }
  }

  /**
   The part of the capture that follows the table: the learned addresses it routes,
   and the generation they were read at.
   */
  class Capture {
    const table: NameTable
    var keep: string -> bool
    var routed: seq<Addr>
    var learnGen: nat
    var learnApplied: nat

    /** While the generation stands still, every kept binding the cache holds is routed. */
    ghost predicate Valid()
      reads this, table
    {
      && table.Valid() && learnGen <= table.gen && learnApplied <= table.clock
      && (table.gen == learnGen ==> forall a :: a in table.m && keep(table.m[a].name) ==> a in routed)
    }

    constructor (table: NameTable, keep: string -> bool, now: nat)
      requires table.Valid() && table.clock <= now
      modifies table
      ensures Valid() && this.table == table && this.keep == keep
      ensures learnGen == table.gen && learnApplied == now
    {
      var addrs, g := table.Addrs(keep, now);
      this.table, this.keep := table, keep;
      routed, learnGen, learnApplied := addrs, g, now;
    }

    /** Installs the routes for the addresses the rules of the moment keep. */
    method Apply(keep: string -> bool, now: nat)
      requires Valid() && table.clock <= now
      modifies this, table
      ensures Valid() && this.keep == keep && learnApplied == now && learnGen == table.gen
      ensures forall a :: a in routed <==>
                Fresh(table.history, a, now).Some? && keep(Fresh(table.history, a, now).value)
    {
      this.keep := keep;
      routed, learnGen := table.Addrs(keep, now);
      learnApplied := now;
    }

    /** The resolver learns an answer between two looks of the capture. */
    method Learn(name: string, addrs: seq<Addr>, ttl: int, now: nat)
      requires Valid() && table.clock <= now
      modifies table
      ensures Valid() && table.clock == now
      ensures table.history == old(table.history) +
                if Names.NormalizeName(name) == "" then []
                else Answers(Names.NormalizeName(name), addrs, now, now + ClampTTL(ttl))
    {
      table.Add(name, addrs, ttl, now);
    }

    /**
     Whether to apply again. If not, and the throttle has passed, every address that
     would be captured by its learned name now is among the routes installed then.
     */
    method LearnChanged(now: nat) returns (changed: bool)
      requires Valid() && table.clock <= now
      modifies table
      ensures Valid() && table.clock == now
      ensures !changed && now - learnApplied >= 10_000_000_000 ==>
                forall a :: Fresh(table.history, a, now).Some? && keep(Fresh(table.history, a, now).value) ==> a in routed
    {
      var none, g := table.Addrs((name: string) => false, now);
      forall a ensures a in table.m <==> Live(table.history, a, now) {
        LiveIsListed(table.history, a, now);
      }
      changed := g != learnGen && now - learnApplied >= THROTTLE;
    }
  }
}
