/**
 The FakeIP pool (internal/fakeip/pool.go): names get addresses of a reserved
 prefix round-robin, and an address leads back to its name.
 */
module FakeIP {
  import opened Wrappers
  import opened Addr
  import opened Names

  const MAX_ENTRIES: nat := 0x1_0000

  /** One address family's table. */
  datatype Table = Table(prefix: Prefix, size: nat, next: nat, byName: map<string, nat>, byOff: map<nat, string>)

  function HostBits(p: Prefix): int { p.base.Width() - p.bits }

  function UsableSize(p: Prefix): nat
    requires p.IsValid() && HostBits(p) >= 2
  {
    if HostBits(p) < 17 then Pow2Big(HostBits(p)); Pow2(HostBits(p)) - 2 else MAX_ENTRIES
  }

  lemma Pow2Big(n: nat)
    ensures n >= 2 ==> Pow2(n) >= 4
    ensures n >= 17 ==> Pow2(n) >= 0x2_0000
  {
    if n > 17 {
      Pow2Big(n - 1);
    } else {
      assert Pow2(2) == 4;
      if n > 2 {
        Pow2Big(n - 1);
      }
      Pow2Seventeen();
    }
  }

  /** A pool prefix: masked, with room for at least two addresses besides the ends. */
  ghost predicate PoolPrefix(p: Prefix)
  {
    p.IsValid() && HostBits(p) >= 2 && p == p.Masked()
  }

  /** byName and byOff are inverse. */
  ghost predicate Inverse(byName: map<string, nat>, byOff: map<nat, string>)
  {
    && (forall n :: n in byName ==> byName[n] in byOff && byOff[byName[n]] == n)
    && (forall o :: o in byOff ==> byOff[o] in byName && byName[byOff[o]] == o)
  }

  ghost predicate ValidTable(t: Table)
  {
    && PoolPrefix(t.prefix) && t.size == UsableSize(t.prefix) && t.next < t.size
    && Inverse(t.byName, t.byOff)
    && forall o :: o in t.byOff ==> o < t.size
  }

  // ------------------------------------------------------------- addresses

  lemma SizeFits(p: Prefix)
    requires p.IsValid() && HostBits(p) >= 2
    ensures 2 <= UsableSize(p) <= p.Span() - 2
  {
    Pow2Big(HostBits(p));
  }

  lemma NextMultiple(v: nat, s: nat, k: nat, n: nat)
    requires v == s * k && v < s * n
    ensures v + s <= s * n
  {
    if k >= n {
      MulMono(s, n, k);
    } else {
      MulMono(s, k + 1, n);
      assert s * (k + 1) == s * k + s;
    }
  }

  lemma MultipleFits(v: nat, s: nat, n: nat)
    requires s >= 1 && v % s == 0 && v < s * n
    ensures v + s <= s * n
  {
    NextMultiple(v, s, v / s, n);
  }

  /** A masked base is a multiple of the span, so the whole prefix fits the family. */
  lemma SpanFits(p: Prefix)
    requires PoolPrefix(p)
    ensures p.base.Value() % p.Span() == 0
    ensures p.base.Value() + p.Span() <= Pow2(p.base.Width())
  {
    var v, s := p.base.Value(), p.Span();
    ModBelow(v, s);
    assert v - v % s == v;
    var hosts: nat, bits: nat := p.base.Width() - p.bits, p.bits;
    Pow2Split(hosts, bits);
    FamilyLimit(p.base);
    MultipleFits(v, s, Pow2(bits));
  }

  lemma FamilyLimit(a: Addr)
    ensures a.IsValid() ==> a.Value() < Pow2(a.Width())
    ensures a.V4? ==> Pow2(a.Width()) == 0x1_0000_0000
    ensures a.V6? ==> Pow2(a.Width()) == 0x1_0000_0000_0000_0000_0000_0000_0000_0000
  {
    if a.V4? {
      FamilyLimits(a.Width(), 128);
    } else if a.V6? {
      FamilyLimits(32, a.Width());
    }
  }

  /** The address at an offset; offset 0 is the one after the base. */
  function AddrAt(p: Prefix, off: nat): (a: Addr)
    requires PoolPrefix(p) && off < UsableSize(p)
    ensures a.SameFamily(p.base) && a.Value() == p.base.Value() + off + 1
  {
    SizeFits(p);
    SpanFits(p);
    FamilyLimit(p.base);
    var v := p.base.Value() + off + 1;
    if p.base.V4? then V4(v) else V6(v)
  }

  /** The offset of an address, or None outside the usable range. */
  function OffsetOf(p: Prefix, a: Addr): (r: Option<nat>)
    requires p.IsValid() && HostBits(p) >= 2
    ensures r.Some? ==> r.value < UsableSize(p)
  {
    if !p.Contains(a) then None
    else
      var d := a.Value() - p.base.Value() - 1;
      if d < 0 || d >= UsableSize(p) then None else Some(d)
  }

  /** Offsets and addresses correspond, and every address is strictly inside the prefix. */
  lemma AddressRoundTrip(p: Prefix, off: nat)
    requires PoolPrefix(p) && off < UsableSize(p)
    ensures OffsetOf(p, AddrAt(p, off)) == Some(off)
    ensures p.Contains(AddrAt(p, off))
    ensures p.base.Value() < AddrAt(p, off).Value() < p.base.Value() + p.Span() - 1
  {
    SizeFits(p);
    SpanFits(p);
    var s, v := p.Span(), p.base.Value();
    var k := v / s;
    assert v == s * k;
    DivIs(v + off + 1, s, k);
  }

  lemma OffsetRoundTrip(p: Prefix, a: Addr)
    requires PoolPrefix(p) && OffsetOf(p, a).Some?
    ensures AddrAt(p, OffsetOf(p, a).value) == a
  {
  }

  /**
   The addresses a pool uses: all of the prefix but its first and last when there are
   fewer than 17 host bits, and else the 65536 behind the first.
   */
  lemma UsableMeaning(p: Prefix, a: Addr)
    requires PoolPrefix(p) && p.Contains(a)
    ensures OffsetOf(p, a).Some?
            <==> p.base.Value() < a.Value() && if HostBits(p) < 17 then a.Value() < p.base.Value() + p.Span() - 1
                                               else a.Value() <= p.base.Value() + 65536
  {
  }

  // ------------------------------------------------------- no mapped addresses

  /** The addresses of one block of 2 to the 32 are all mapped, or none is. */
  const BLOCK: nat := 0x1_0000_0000

  predicate Unmapped(a: Addr) { a.Unmap() == a }

  /** A span of at most a block divides it, a longer one is an even number of blocks. */
  lemma SpanAndBlock(span: nat, hosts: nat) returns (m: nat)
    requires span == Pow2(hosts)
    ensures hosts <= 32 ==> m >= 1 && BLOCK == span * m
    ensures hosts > 32 ==> span == (BLOCK + BLOCK) * m
  {
    var w: nat := 32;
    FamilyLimits(w, 128);
    if hosts <= w {
      Pow2Split(hosts, w - hosts);
      m := Pow2(w - hosts);
    } else {
      Pow2Split(w + 1, hosts - w - 1);
      m := Pow2(hosts - w - 1);
    }
  }

  /** Numbers of one span are of one block, if the span is no longer; a multiple of a longer span starts an even block. */
  lemma BlockOf(v: nat, w: nat, span: nat, hosts: nat)
    requires span == Pow2(hosts) && v % span == 0
    ensures hosts <= 32 && v / span == w / span ==> v / BLOCK == w / BLOCK
    ensures hosts > 32 ==> v % BLOCK == 0 && (v / BLOCK) % 2 == 0
  {
    var m := SpanAndBlock(span, hosts);
    if hosts <= 32 {
      DivTwice(v, span, m);
      DivTwice(w, span, m);
    } else {
      var k := v / span;
      assert v == span * k;
      EvenBlocks(v, m * k);
    }
  }

  lemma EvenBlocks(v: nat, n: nat)
    requires v == (BLOCK + BLOCK) * n
    ensures v % BLOCK == 0 && (v / BLOCK) % 2 == 0
  {
    DivIs(v, BLOCK, 2 * n);
  }

  /** New refuses an IPv4-mapped pool, and masking does not make one. */
  lemma MaskedUnmapped(p: Prefix)
    requires p.IsValid() && Unmapped(p.base)
    ensures Unmapped(p.Masked().base)
  {
    if p.base.V6? {
      var v, s, hosts: nat := p.base.Value(), p.Span(), HostBits(p);
      ModBelow(v, s);
      BlockOf(v - v % s, v, s, hosts);
    }
  }

  /** A number less than a span above a multiple of it, and not far above, is of the same block. */
  lemma BlockAbove(v: nat, x: nat, span: nat, hosts: nat)
    requires span == Pow2(hosts) && v % span == 0 && x < span && (hosts > 32 ==> x < BLOCK)
    ensures (v + x) / BLOCK == v / BLOCK
  {
    var k := v / span;
    DivIs(v + x, span, k);
    BlockOf(v, v + x, span, hosts);
    if hosts > 32 {
      var j := v / BLOCK;
      DivIs(v + x, BLOCK, j);
    }
  }

  /** No address handed out is IPv4-mapped, not even out of a pool as wide as ::/64. */
  lemma HandedOutUnmapped(p: Prefix, off: nat)
    requires PoolPrefix(p) && Unmapped(p.base) && off < UsableSize(p)
    ensures Unmapped(AddrAt(p, off))
  {
    if p.base.V6? {
      SizeFits(p);
      SpanFits(p);
      BlockAbove(p.base.Value(), off + 1, p.Span(), HostBits(p));
    }
  }

  // ------------------------------------------------------------ allocation

  /** The table after a request, and the offset answered. */
  function GetTable(t: Table, name: string): Table
    requires t.size > 0
  {
    if name in t.byName then t
    else
      var off := t.next;
      var names := if off in t.byOff then t.byName - {t.byOff[off]} else t.byName;
      t.(next := (t.next + 1) % t.size, byName := names[name := off], byOff := t.byOff[off := name])
  }

  lemma GetKeeps(t: Table, name: string)
    requires ValidTable(t)
    ensures ValidTable(GetTable(t, name))
    ensures name in GetTable(t, name).byName && GetTable(t, name).byName[name] < t.size
  {
    if name !in t.byName {
      var u := GetTable(t, name);
      forall n | n in u.byName ensures u.byName[n] in u.byOff && u.byOff[u.byName[n]] == n {
        if n != name {
          assert n in t.byName && t.byName[n] != t.next;
        }
      }
      forall o | o in u.byOff ensures u.byOff[o] in u.byName && u.byName[u.byOff[o]] == o {
      }
    }
  }

  /** The table after a run of requests. */
  function Run(t: Table, names: seq<string>): (u: Table)
    requires t.size > 0
    ensures u.size == t.size
    decreases |names|
  {
    if names == [] then t else Run(GetTable(t, names[0]), names[1..])
  }

  /** How many requests of the run allocate a new address. */
  function Allocations(t: Table, names: seq<string>): nat
    requires t.size > 0
    decreases |names|
  {
    if names == [] then 0
    else (if names[0] in t.byName then 0 else 1) + Allocations(GetTable(t, names[0]), names[1..])
  }

  lemma {:induction false} RunKeeps(t: Table, names: seq<string>)
    requires ValidTable(t)
    ensures ValidTable(Run(t, names)) && Run(t, names).prefix == t.prefix
    decreases |names|
  {
    if names != [] {
      GetKeeps(t, names[0]);
      RunKeeps(GetTable(t, names[0]), names[1..]);
    }
  }

  /** The name holds off, and age new addresses were handed out since. */
  ghost predicate HeldFor(t: Table, name: string, off: nat, age: nat)
  {
    name in t.byName && t.byName[name] == off && age < t.size && t.next == (off + 1 + age) % t.size
  }

  lemma NextIsOther(off: nat, age: nat, size: nat)
    requires off < size && age < size
    ensures (off + 1 + age) % size == off <==> age == size - 1
    ensures ((off + 1 + age) % size + 1) % size == (off + 1 + (age + 1)) % size
  {
    var x := off + 1 + age;
    Wrap(x, size);
    Wrap(x % size + 1, size);
    Wrap(x + 1, size);
  }

  /** While fewer than size new names came after it, a name keeps its offset. */
  lemma {:induction false} KeepsOffset(t: Table, name: string, off: nat, age: nat, names: seq<string>)
    requires ValidTable(t) && HeldFor(t, name, off, age)
    requires age + Allocations(t, names) < t.size
    ensures HeldFor(Run(t, names), name, off, age + Allocations(t, names))
    decreases |names|
  {
    if names != [] {
      var u := GetTable(t, names[0]);
      GetKeeps(t, names[0]);
      if names[0] in t.byName {
        KeepsOffset(u, name, off, age, names[1..]);
      } else {
        NextIsOther(off, age, t.size);
        assert t.byOff[off] == name;
        KeepsOffset(u, name, off, age + 1, names[1..]);
      }
    }
  }

  /** The next new name after that takes the offset over. */
  lemma LosesOffset(t: Table, name: string, off: nat, newcomer: string)
    requires ValidTable(t) && HeldFor(t, name, off, t.size - 1) && newcomer !in t.byName
    ensures var u := GetTable(t, newcomer); u.byOff[off] == newcomer && name !in u.byName
  {
    NextIsOther(off, t.size - 1, t.size);
    assert t.byOff[off] == name;
  }

  /** The name an address was handed out for. */
  function LookupTable(t: Table, a: Addr): Option<string>
    requires t.prefix.IsValid() && HostBits(t.prefix) >= 2
  {
    match OffsetOf(t.prefix, a)
    case None => None
    case Some(off) => if off in t.byOff then Some(t.byOff[off]) else None
  }

  /** The address a request is answered with. */
  function AnswerOf(t: Table, name: string): Addr
    requires ValidTable(t)
  {
    GetKeeps(t, name);
    AddrAt(t.prefix, GetTable(t, name).byName[name])
  }

  /**
   A name newly allocated gets an address that leads back to it, and both hold
   through the next size-1 new names, whatever else is asked in between. The
   new name after those takes the address over.
   */
  lemma AddressIsStable(t: Table, name: string, names: seq<string>, newcomer: string)
    requires ValidTable(t) && name !in t.byName
    requires Allocations(GetTable(t, name), names) < t.size
    ensures ValidTable(GetTable(t, name)) && ValidTable(Run(GetTable(t, name), names))
    ensures var u := Run(GetTable(t, name), names);
            && AnswerOf(u, name) == AnswerOf(t, name)
            && LookupTable(u, AnswerOf(t, name)) == Some(name)
    ensures var u := Run(GetTable(t, name), names);
            Allocations(GetTable(t, name), names) == t.size - 1 && newcomer !in u.byName ==>
              AnswerOf(u, newcomer) == AnswerOf(t, name) && LookupTable(GetTable(u, newcomer), AnswerOf(t, name)) == Some(newcomer)
  {
    var v, off := GetTable(t, name), t.next;
    GetKeeps(t, name);
    assert HeldFor(v, name, off, 0);
    KeepsOffset(v, name, off, 0, names);
    RunKeeps(v, names);
    var u := Run(v, names);
    AddressRoundTrip(t.prefix, off);
    assert u.byOff[off] == name;
    if Allocations(v, names) == t.size - 1 && newcomer !in u.byName {
      LosesOffset(u, name, off, newcomer);
      GetKeeps(u, newcomer);
    }
  }

  // ------------------------------------------------------------ save and load

  /** What Save writes of one family; the prefix stands for its text. */
  datatype Snapshot = Snapshot(prefix: Prefix, next: int, names: map<string, int>)

  function SnapshotOf(t: Table): Snapshot
  {
    Snapshot(t.prefix, t.next, map n | n in t.byName :: t.byName[n])
  }

  predicate InRange(x: int, size: nat) { 0 <= x < size }

  /** The entries of a snapshot that fit the pool. */
  function Fitting(s: Snapshot, size: nat): map<string, nat>
  {
    map n | n in s.names && InRange(s.names[n], size) :: s.names[n]
  }

  /** Each offset leads to some name with that offset. */
  ghost predicate SomeName(byName: map<string, nat>, byOff: map<nat, string>)
  {
    && (forall n :: n in byName ==> byName[n] in byOff)
    && (forall o :: o in byOff ==> byOff[o] in byName && byName[byOff[o]] == o)
  }

  ghost predicate DistinctOffsets(byName: map<string, nat>)
  {
    forall m, n :: m in byName && n in byName && byName[m] == byName[n] ==> m == n
  }

  /** Loading into an empty pool gives inverse tables exactly when the offsets are distinct. */
  lemma LoadIsInverseIff(byName: map<string, nat>, byOff: map<nat, string>)
    requires SomeName(byName, byOff)
    ensures Inverse(byName, byOff) <==> DistinctOffsets(byName)
  {
    if DistinctOffsets(byName) {
      forall n | n in byName ensures byOff[byName[n]] == n {
        var o := byName[n];
        assert byName[byOff[o]] == o;
      }
    }
    if Inverse(byName, byOff) {
      forall m, n | m in byName && n in byName && byName[m] == byName[n] ensures m == n {
        assert byOff[byName[m]] == m && byOff[byName[n]] == n;
      }
    }
  }

  /** A table that came from Save is restored. */
  lemma LoadOfSave(t: Table, byOff: map<nat, string>)
    requires ValidTable(t)
    requires SomeName(Fitting(SnapshotOf(t), t.size), byOff)
    ensures Fitting(SnapshotOf(t), t.size) == t.byName && byOff == t.byOff
  {
    var f := Fitting(SnapshotOf(t), t.size);
    forall n | n in t.byName ensures n in f && f[n] == t.byName[n] {
      assert t.byName[n] in t.byOff;
    }
    assert f == t.byName;
    assert DistinctOffsets(t.byName) by {
      forall m, n | m in t.byName && n in t.byName && t.byName[m] == t.byName[n] ensures m == n {
        assert t.byOff[t.byName[m]] == m && t.byOff[t.byName[n]] == n;
      }
    }
    LoadIsInverseIff(f, byOff);
    forall o | o in byOff ensures o in t.byOff && t.byOff[o] == byOff[o] {
      assert t.byName[byOff[o]] == o;
    }
    forall o | o in t.byOff ensures o in byOff {
      assert t.byName[t.byOff[o]] == o;
    }
  }

  class Family {
    const prefix: Prefix
    const size: nat
    var next: nat
    var byName: map<string, nat>
    var byOff: map<nat, string>

    ghost function State(): Table
      reads this
    {
      Table(prefix, size, next, byName, byOff)
    }

    ghost predicate Valid()
      reads this
    {
      ValidTable(State())
    }

    constructor (p: Prefix)
      requires p.IsValid() && HostBits(p) >= 2
      ensures Valid() && State() == Table(p.Masked(), UsableSize(p), 0, map[], map[])
    {
      MaskedTwice(p);
      SizeFits(p.Masked());
      prefix := p.Masked();
      size := UsableSize(p);
      next, byName, byOff := 0, map[], map[];
    }

    method Get(name: string) returns (a: Addr)
      requires Valid()
      modifies this
      ensures Valid() && State() == GetTable(old(State()), name)
      ensures a == AnswerOf(old(State()), name)
    {
      GetKeeps(State(), name);
      if name in byName {
        return AddrAt(prefix, byName[name]);
      }
      var off := next;
      next := (next + 1) % size;
      if off in byOff {
        var previous := byOff[off];
        byName := byName - {previous};
      }
      byName, byOff := byName[name := off], byOff[off := name];
      return AddrAt(prefix, off);
    }

    method Save() returns (s: Snapshot)
      requires Valid()
      ensures s == SnapshotOf(State())
    {
      s := Snapshot(prefix, next, map n | n in byName :: byName[n]);
    }

    /** Enters the fitting names in any order. */
    method Fill(names: map<string, int>)
      requires byName == map[] && byOff == map[]
      modifies this`byName, this`byOff
      ensures byName == (map n | n in names && InRange(names[n], size) :: names[n]) && SomeName(byName, byOff)
    {
      var todo := names.Keys;
      while todo != {}
        invariant todo <= names.Keys
        invariant byName == map n | n in names && n !in todo && InRange(names[n], size) :: names[n]
        invariant SomeName(byName, byOff)
        decreases todo
      {
        var name :| name in todo;
        var off := names[name];
        if 0 <= off && off < size {
          byName, byOff := byName[name := off], byOff[off := name];
        }
        todo := todo - {name};
      }
    }

    /**
     Restores entries in any order. A snapshot of another prefix is ignored.
     The tables come out inverse when the fitting offsets are distinct.
     */
    method Load(s: Snapshot)
      requires Valid() && byName == map[] && byOff == map[]
      modifies this
      ensures s.prefix != prefix ==> State() == old(State())
      ensures s.prefix == prefix ==>
                && byName == Fitting(s, size) && SomeName(byName, byOff)
                && next == (if InRange(s.next, size) then s.next else old(next))
      ensures Valid() <==> s.prefix != prefix || DistinctOffsets(Fitting(s, size))
      ensures forall t :: ValidTable(t) && t.prefix == prefix && s == SnapshotOf(t) ==> State() == t
    {
      if s.prefix != prefix {
        return;
      }
      Fill(s.names);
      assert byName == Fitting(s, size);
      if 0 <= s.next && s.next < size {
        next := s.next;
      }
      LoadIsInverseIff(byName, byOff);
      forall t | ValidTable(t) && t.prefix == prefix && s == SnapshotOf(t) ensures State() == t {
        LoadOfSave(t, byOff);
      }
    }
  }

  /** A snapshot that gives two names one offset loads into tables that are not inverse. */
  method LoadOfTwins(p: Prefix) returns (f: Family)
    requires p.IsValid() && HostBits(p) >= 2
    ensures f.byName == map["a" := 0, "b" := 0] && !Inverse(f.byName, f.byOff) && !f.Valid()
  {
    f := new Family(p);
    var s := Snapshot(f.prefix, 0, map["a" := 0, "b" := 0]);
    SizeFits(f.prefix);
    MaskedTwice(p);
    f.Load(s);
    assert f.byName == map["a" := 0, "b" := 0];
    assert "a" in f.byName && "b" in f.byName && "a" != "b";
    LoadIsInverseIff(f.byName, f.byOff);
  }

  lemma MaskedTwice(p: Prefix)
    requires p.IsValid()
    ensures p.Masked().Masked() == p.Masked()
  {
    ModBelow(p.base.Value(), p.Span());
  }

  /** The pools of both families; v6 may be missing. */
  class Pool {
    const v4: Family
    const v6: Family?

    ghost predicate Valid()
      reads this, v4, v6
    {
      && v4.Valid() && v4.prefix.base.V4?
      && (v6 != null ==> v6 != v4 && v6.Valid() && v6.prefix.base.V6? && Unmapped(v6.prefix.base))
    }

    constructor (v4: Family, v6: Family?)
      requires v4.Valid() && v4.prefix.base.V4?
      requires v6 != null ==> v6 != v4 && v6.Valid() && v6.prefix.base.V6? && Unmapped(v6.prefix.base)
      ensures Valid() && this.v4 == v4 && this.v6 == v6
    {
      this.v4, this.v6 := v4, v6;
    }

    method V4(name: string) returns (a: Addr)
      requires Valid()
      modifies v4
      ensures Valid() && v4.State() == GetTable(old(v4.State()), NormalizeName(name))
      ensures a == AnswerOf(old(v4.State()), NormalizeName(name))
      ensures v6 != null ==> v6.State() == old(v6.State())
    {
      a := v4.Get(NormalizeName(name));
    }

    method V6(name: string) returns (a: Option<Addr>)
      requires Valid()
      modifies v6
      ensures Valid() && v4.State() == old(v4.State())
      ensures v6 == null ==> a == None
      ensures v6 != null ==>
                && v6.State() == GetTable(old(v6.State()), NormalizeName(name))
                && a == Some(AnswerOf(old(v6.State()), NormalizeName(name)))
    {
      if v6 == null {
        return None;
      }
      var x := v6.Get(NormalizeName(name));
      return Some(x);
    }

    predicate Contains(a: Addr)
      reads this, v4, v6
    {
      v4.prefix.Contains(a.Unmap()) || (v6 != null && v6.prefix.Contains(a.Unmap()))
    }

    /** The first family whose range holds the address decides; at most one does. */
    method Lookup(addr: Addr) returns (r: Option<string>)
      requires Valid()
      ensures r == PoolLookup(v4.State(), if v6 == null then None else Some(v6.State()), addr)
    {
      var a := addr.Unmap();
      var off := OffsetOf(v4.prefix, a);
      if off.Some? {
        return if off.value in v4.byOff then Some(v4.byOff[off.value]) else None;
      }
      if v6 != null {
        off := OffsetOf(v6.prefix, a);
        if off.Some? {
          return if off.value in v6.byOff then Some(v6.byOff[off.value]) else None;
        }
      }
      return None;
    }
  }

  datatype PoolError = NoInet4 | NotInet6 | TooSmall

  /**
   New makes the pool of an IPv4 prefix and, unless it is invalid, an IPv6 one; it is
   refused exactly when a prefix is of the wrong kind or leaves fewer than two host bits.
   */
  method NewPool(inet4: Prefix, inet6: Prefix) returns (r: Result<Pool, PoolError>)
    ensures r.Ok? <==> && inet4.IsValid() && inet4.base.V4? && HostBits(inet4) >= 2
                       && (inet6.IsValid() ==> inet6.base.V6? && Unmapped(inet6.base) && HostBits(inet6) >= 2)
    ensures r.Ok? ==>
              && fresh(r.value) && fresh(r.value.v4) && r.value.Valid()
              && r.value.v4.State() == Table(inet4.Masked(), UsableSize(inet4), 0, map[], map[])
              && (r.value.v6 == null <==> !inet6.IsValid())
              && (inet6.IsValid() ==> fresh(r.value.v6) && r.value.v6.State() == Table(inet6.Masked(), UsableSize(inet6), 0, map[], map[]))
    ensures r.Err? ==> r.error == if !inet4.IsValid() || !inet4.base.V4? then NoInet4
                                  else if HostBits(inet4) >= 2 && (!inet6.base.V6? || !Unmapped(inet6.base)) then NotInet6
                                  else TooSmall
  {
    if !inet4.IsValid() || !inet4.base.V4? {
      return Err(NoInet4);
    }
    if HostBits(inet4) < 2 {
      return Err(TooSmall);
    }
    var v4 := new Family(inet4);
    var v6: Family? := null;
    if inet6.IsValid() {
      if !inet6.base.V6? || inet6.base.Unmap() != inet6.base {
        return Err(NotInet6);
      }
      if HostBits(inet6) < 2 {
        return Err(TooSmall);
      }
      MaskedUnmapped(inet6);
      v6 := new Family(inet6);
    }
    var pool := new Pool(v4, v6);
    return Ok(pool);
  }

  /** Lookup over both tables: an address of one family never meets the other's. */
  function PoolLookup(t4: Table, t6: Option<Table>, a: Addr): Option<string>
    requires t4.prefix.IsValid() && HostBits(t4.prefix) >= 2
    requires t6.Some? ==> t6.value.prefix.IsValid() && HostBits(t6.value.prefix) >= 2
  {
    var u := a.Unmap();
    if t4.prefix.base.SameFamily(u) || t6.None? then LookupTable(t4, u) else LookupTable(t6.value, u)
  }
}
