/**
 Host route injection with a persisted state file (internal/kernel/bacarra/route.go
 and state.go): Apply, Close and TeardownStale against a host in which any driver
 or file call may fail and the process may crash between any two of them.
 */
module Routes {
  import opened Wrappers
  import opened Addr

  /** The state file: absent, unreadable, or a saved set of routes. */
  datatype File = Missing | Corrupt | Saved(routes: set<Prefix>)

  /** The injected routes left by a crash in this state and a working teardown. */
  function Leftover(table: set<Prefix>, file: File): set<Prefix>
  {
    if file.Saved? then table - file.routes else table
  }

  /**
   The routing table and the file, with the numbers of calls made. exposed
   collects, over every state a crash could have left, what teardown would miss;
   undeleted the routes whose delete failed.
   */
  datatype Host = Host(
    table: set<Prefix>,
    file: File,
    calls: nat,
    driverCalls: nat,
    exposed: set<Prefix>,
    undeleted: set<Prefix>)

  /** A crash now could leave this too. */
  ghost function Expose(h: Host): (r: Host)
    ensures h.exposed <= r.exposed && Leftover(h.table, h.file) <= r.exposed
  {
    h.(exposed := h.exposed + Leftover(h.table, h.file))
  }

  ghost function Added(h: Host, p: Prefix, ok: bool): Host
  {
    Expose(h.(calls := h.calls + 1, driverCalls := h.driverCalls + 1, table := if ok then h.table + {p} else h.table))
  }

  ghost function Deleted(h: Host, p: Prefix, ok: bool): Host
  {
    Expose(h.(calls := h.calls + 1, driverCalls := h.driverCalls + 1,
              table := if ok then h.table - {p} else h.table,
              undeleted := if ok then h.undeleted else h.undeleted + {p}))
  }

  ghost function Filed(h: Host, file: File): Host
  {
    Expose(h.(calls := h.calls + 1, file := file))
  }

  /** The host; call number k fails when bad(k). */
  class World {
    const bad: nat -> bool
    var table: set<Prefix>
    var file: File
    var calls: nat
    var driverCalls: nat
    ghost var host: Host

    ghost predicate Valid()
      reads this
    {
      host.table == table && host.file == file && host.calls == calls && host.driverCalls == driverCalls
    }

    constructor (bad: nat -> bool, table: set<Prefix>, file: File)
      ensures Valid() && this.bad == bad
      ensures host == Host(table, file, 0, 0, Leftover(table, file), {})
    {
      this.bad, this.table, this.file := bad, table, file;
      calls, driverCalls := 0, 0;
      host := Host(table, file, 0, 0, Leftover(table, file), {});
    }

    method AddRoute(p: Prefix) returns (ok: bool)
      requires Valid()
      modifies this
      ensures Valid() && ok == !bad(old(calls)) && host == Added(old(host), p, ok)
    {
      ok := !bad(calls);
      calls, driverCalls := calls + 1, driverCalls + 1;
      if ok {
        table := table + {p};
      }
      host := Added(host, p, ok);
    }

    method DeleteRoute(p: Prefix) returns (ok: bool)
      requires Valid()
      modifies this
      ensures Valid() && ok == !bad(old(calls)) && host == Deleted(old(host), p, ok)
    {
      ok := !bad(calls);
      calls, driverCalls := calls + 1, driverCalls + 1;
      if ok {
        table := table - {p};
      }
      host := Deleted(host, p, ok);
    }

    /** One file call that leaves the file as given when it works. */
    method FileCall(after: File) returns (ok: bool)
      requires Valid()
      modifies this
      ensures Valid() && ok == !bad(old(calls)) && host == Filed(old(host), if ok then after else old(file))
    {
      ok := !bad(calls);
      calls := calls + 1;
      if ok {
        file := after;
      }
      host := Filed(host, file);
    }

    /**
     Writes a temporary file and renames it over the old one. A failing rename is
     retried after removing the target, whose own failure is ignored.
     */
    method SaveRouteState(routes: set<Prefix>) returns (ok: bool)
      requires Valid()
      modifies this
      ensures Valid() && host == SavedHost(old(host), bad, routes)
      ensures ok == Saves(bad, old(calls)) && calls == SaveEnd(bad, old(calls))
      ensures file == SavedFile(bad, old(calls), old(file), routes)
    {
      ok := FileCall(file);
      if !ok {
        return;
      }
      ok := FileCall(Saved(routes));
      if ok {
        return;
      }
      var _ := FileCall(Missing);
      ok := FileCall(Saved(routes));
    }

    method RemoveRouteState() returns (ok: bool)
      requires Valid()
      modifies this
      ensures Valid() && ok == !bad(old(calls)) && host == Filed(old(host), if ok then Missing else old(file))
    {
      ok := FileCall(Missing);
    }
  }

  ghost function SavedHost(h: Host, bad: nat -> bool, routes: set<Prefix>): Host
  {
    var w := Filed(h, h.file);
    if bad(h.calls) then w
    else if !bad(h.calls + 1) then Filed(w, Saved(routes))
    else
      var failed := Filed(w, w.file);
      var d := Filed(failed, if bad(failed.calls) then failed.file else Missing);
      Filed(d, if bad(d.calls) then d.file else Saved(routes))
  }

  /** A save that starts with call k works: the write does, and one of the renames. */
  predicate Saves(bad: nat -> bool, k: nat) { !bad(k) && (!bad(k + 1) || !bad(k + 3)) }

  /** The first rename fails and removing the target works. */
  predicate Drops(bad: nat -> bool, k: nat) { !bad(k) && bad(k + 1) && !bad(k + 2) }

  /** The file a save leaves: lost exactly when both renames fail around a working removal. */
  function SavedFile(bad: nat -> bool, k: nat, before: File, routes: set<Prefix>): File
  {
    if Saves(bad, k) then Saved(routes) else if Drops(bad, k) then Missing else before
  }

  /** The number of the call behind a save. */
  function SaveEnd(bad: nat -> bool, k: nat): nat
  {
    if bad(k) then k + 1 else if !bad(k + 1) then k + 2 else k + 4
  }

  /** The four calls of a save: write, rename, remove, rename again; later ones are made only as far as needed. */
  lemma SaveMeaning(bad: nat -> bool, k: nat, before: File, routes: set<Prefix>)
    ensures var write, first, remove, second := !bad(k), !bad(k + 1), !bad(k + 2), !bad(k + 3);
            && SavedFile(bad, k, before, routes)
               == (if write && (first || second) then Saved(routes) else if write && remove then Missing else before)
            && SaveEnd(bad, k) == (if !write then k + 1 else if first then k + 2 else k + 4)
            && (Saves(bad, k) <==> write && (first || second))
  {
  }

  /** Every call from number from on worked. */
  ghost predicate Clean(bad: nat -> bool, from: nat, to: nat)
  {
    forall i :: from <= i < to ==> !bad(i)
  }

  /** The number of failing calls. */
  function Fails(bad: nat -> bool, from: nat, to: nat): nat
    requires from <= to
  {
    if from == to then 0 else Fails(bad, from, to - 1) + if bad(to - 1) then 1 else 0
  }

  lemma {:induction false} CleanIsNoFailure(bad: nat -> bool, from: nat, to: nat)
    requires from <= to
    ensures Clean(bad, from, to) <==> Fails(bad, from, to) == 0
  {
    if from < to {
      CleanIsNoFailure(bad, from, to - 1);
      assert Clean(bad, from, to) <==> Clean(bad, from, to - 1) && !bad(to - 1);
    }
  }

  lemma FailsNext(bad: nat -> bool, from: nat, c: nat)
    requires from <= c
    ensures Fails(bad, from, c + 1) == Fails(bad, from, c) + if bad(c) then 1 else 0
  {
  }

  lemma {:induction false} FailsSplit(bad: nat -> bool, a: nat, b: nat, c: nat)
    requires a <= b <= c
    ensures Fails(bad, a, c) == Fails(bad, a, b) + Fails(bad, b, c)
  {
    if b < c {
      FailsSplit(bad, a, b, c - 1);
    }
  }

  // ------------------------------------------------------ the phases, on values

  /** done of the wanted routes were visited by the adding loop. */
  ghost predicate Adding(bad: nat -> bool, h0: Host, a0: set<Prefix>, want: set<Prefix>, done: set<Prefix>, h: Host, a: set<Prefix>)
  {
    && a0 <= a <= a0 + done && done <= want
    && h.table == h0.table + a && h.file == h0.file && h.undeleted == h0.undeleted
    && h.calls == h0.calls + |done - a0| && h.driverCalls == h0.driverCalls + |done - a0|
    && |done - a| == Fails(bad, h0.calls, h.calls)
    && h.exposed <= h0.exposed + Leftover(h0.table + (want - a0), h0.file)
  }

  /** The sets of one add: p is visited, and applied too if ok. */
  lemma AddedSets<T>(a0: set<T>, a: set<T>, done: set<T>, p: T)
    requires a0 <= a <= a0 + done && p !in done
    ensures p in a ==> (done + {p}) - a0 == done - a0 && (done + {p}) - a == done - a
    ensures p !in a ==> |(done + {p}) - a0| == |done - a0| + 1 && |(done + {p}) - a| == |done - a| + 1
    ensures p !in a ==> (done + {p}) - (a + {p}) == done - a
  {
    if p !in a {
      assert (done + {p}) - a0 == (done - a0) + {p};
      assert (done + {p}) - a == (done - a) + {p};
    }
  }

  lemma TodoShrinks<T>(want: set<T>, done: set<T>, todo: set<T>, p: T)
    requires todo == want - done && p in todo
    ensures p in want && p !in done && todo - {p} == want - (done + {p})
  {
  }

  lemma Drained<T>(want: set<T>, done: set<T>)
    requires want - done == {} && done <= want
    ensures done == want
  {
    assert forall p :: p in want ==> p in done || p in want - done;
  }

  lemma AddingStarts(bad: nat -> bool, h0: Host, a0: set<Prefix>, want: set<Prefix>)
    requires a0 <= h0.table
    ensures Adding(bad, h0, a0, want, {}, h0, a0)
  {
    assert {} - a0 == {};
  }

  lemma LeftoverMono(t: set<Prefix>, u: set<Prefix>, f: File)
    requires t <= u
    ensures Leftover(t, f) <= Leftover(u, f)
  {
  }

  /** Another state with no larger table exposes no more. */
  lemma StillBounded(e0: set<Prefix>, e: set<Prefix>, t: set<Prefix>, u: set<Prefix>, f: File)
    requires e <= e0 + Leftover(u, f) && t <= u
    ensures e + Leftover(t, f) <= e0 + Leftover(u, f)
  {
  }

  lemma AddingStep(bad: nat -> bool, h0: Host, a0: set<Prefix>, want: set<Prefix>, done: set<Prefix>, h: Host, a: set<Prefix>, p: Prefix)
    requires a0 <= h0.table && Adding(bad, h0, a0, want, done, h, a) && p in want && p !in done
    ensures var ok := !bad(h.calls);
            Adding(bad, h0, a0, want, done + {p}, if p in a then h else Added(h, p, ok), if p !in a && ok then a + {p} else a)
  {
    AddedSets(a0, a, done, p);
    if p !in a {
      var g := Added(h, p, !bad(h.calls));
      assert g.table <= h0.table + (want - a0);
      FailsNext(bad, h0.calls, h.calls);
      StillBounded(h0.exposed, h.exposed, g.table, h0.table + (want - a0), h0.file);
    }
  }

  /** gone of the applied routes were removed. */
  ghost predicate Removing(bad: nat -> bool, h0: Host, a0: set<Prefix>, want: set<Prefix>, todo: set<Prefix>, gone: set<Prefix>, h: Host, a: set<Prefix>)
  {
    && todo <= a0 && gone == (a0 - todo) - want && a == a0 - gone
    && h.file == h0.file && h.table <= h0.table && h0.table - h.table <= gone
    && h.undeleted == h0.undeleted + h.table * gone
    && h.calls == h0.calls + |gone| && h.driverCalls == h0.driverCalls + |gone|
    && |h.table * gone| == Fails(bad, h0.calls, h.calls)
    && h.exposed <= h0.exposed + Leftover(h0.table, h0.file)
  }

  /** The sets of one removal: p leaves the applied ones, and the table too if ok. */
  lemma RemovedSets<T>(a0: set<T>, want: set<T>, todo: set<T>, gone: set<T>, table: set<T>, p: T)
    requires todo <= a0 && gone == (a0 - todo) - want && a0 - gone <= table && p in todo && p !in want
    ensures p !in gone && p in table
    ensures (a0 - (todo - {p})) - want == gone + {p} && (a0 - gone) - {p} == a0 - (gone + {p})
    ensures |gone + {p}| == |gone| + 1
    ensures (table - {p}) * (gone + {p}) == table * gone
    ensures table * (gone + {p}) == table * gone + {p} && |table * gone + {p}| == |table * gone| + 1
  {
  }

  lemma RemovingStep(bad: nat -> bool, h0: Host, a0: set<Prefix>, want: set<Prefix>, todo: set<Prefix>, gone: set<Prefix>, h: Host, a: set<Prefix>, p: Prefix)
    requires a0 <= h0.table && Removing(bad, h0, a0, want, todo, gone, h, a) && p in todo
    ensures p in want ==> Removing(bad, h0, a0, want, todo - {p}, gone, h, a)
    ensures p !in want ==> Removing(bad, h0, a0, want, todo - {p}, gone + {p}, Deleted(h, p, !bad(h.calls)), a - {p})
  {
    if p in want {
      assert (a0 - (todo - {p})) - want == (a0 - todo) - want;
    } else {
      RemovedStep(bad, h0, a0, want, todo, gone, h, a, p);
    }
  }

  lemma RemovedStep(bad: nat -> bool, h0: Host, a0: set<Prefix>, want: set<Prefix>, todo: set<Prefix>, gone: set<Prefix>, h: Host, a: set<Prefix>, p: Prefix)
    requires a0 <= h0.table && Removing(bad, h0, a0, want, todo, gone, h, a) && p in todo && p !in want
    ensures Removing(bad, h0, a0, want, todo - {p}, gone + {p}, Deleted(h, p, !bad(h.calls)), a - {p})
  {
    RemovedSets(a0, want, todo, gone, h.table, p);
    FailsNext(bad, h0.calls, h.calls);
    StillBounded(h0.exposed, h.exposed, Deleted(h, p, !bad(h.calls)).table, h0.table, h0.file);
  }

  lemma RemovingStarts(bad: nat -> bool, h0: Host, a0: set<Prefix>, want: set<Prefix>)
    requires a0 <= h0.table
    ensures Removing(bad, h0, a0, want, a0, {}, h0, a0)
  {
    assert a0 - a0 - want == {} && h0.table * {} == {};
  }

  lemma RemovingEnds<T>(a0: set<T>, want: set<T>, gone: set<T>)
    requires gone == (a0 - {}) - want
    ensures gone == a0 - want
  {
    assert a0 - {} == a0;
  }

  /** The valid prefixes of a request, masked. */
  function Wanted(prefixes: seq<Prefix>): set<Prefix>
  {
    set p | p in prefixes && p.IsValid() :: p.Masked()
  }

  /** The wanted routes are on prefix boundaries, and take exactly the addresses of the request's prefixes. */
  lemma WantedCovers(prefixes: seq<Prefix>, a: Addr)
    ensures (exists p :: p in Wanted(prefixes) && p.Contains(a)) <==> exists q :: q in prefixes && q.Contains(a)
    ensures forall p :: p in Wanted(prefixes) ==> p.IsValid() && p.base.Value() % p.Span() == 0
    ensures forall p :: p in Wanted(prefixes) ==> exists q :: q in prefixes && q.bits == p.bits && q.base.SameFamily(p.base)
  {
    if q :| q in prefixes && q.Contains(a) {
      MaskedContains(q, a);
      assert q.Masked() in Wanted(prefixes);
    }
    if p :| p in Wanted(prefixes) && p.Contains(a) {
      var q :| q in prefixes && q.IsValid() && q.Masked() == p;
      MaskedContains(q, a);
    }
    forall p | p in Wanted(prefixes) ensures p.base.Value() % p.Span() == 0 {
      var q :| q in prefixes && q.IsValid() && q.Masked() == p;
      MaskedBoundary(q);
    }
  }

  method WantedSet(prefixes: seq<Prefix>) returns (want: set<Prefix>)
    ensures want == Wanted(prefixes)
  {
    want := {};
    for i := 0 to |prefixes|
      invariant want == Wanted(prefixes[..i])
    {
      assert prefixes[..i + 1] == prefixes[..i] + [prefixes[i]];
      if prefixes[i].IsValid() {
        want := want + {prefixes[i].Masked()};
      }
    }
    assert prefixes[..|prefixes|] == prefixes;
  }

  /** The routes forgotten though their delete failed. */
  function Stuck(table: set<Prefix>, a0: set<Prefix>, want: set<Prefix>): set<Prefix> { table * (a0 - want) }

  /**
   What the two driver phases leave: wanted routes that are in the table, all of them
   that were there before, failed deletes, and the rest of the table.
   */
  ghost predicate Reconciled(h0: Host, a0: set<Prefix>, want: set<Prefix>, h: Host, a: set<Prefix>)
  {
    && a <= want && (forall p :: p in a0 && p in want ==> p in a)
    && (forall p :: (p in a0 && p !in want) || (p in h.table <==> p in h0.table || p in a))
    && (forall p :: p in h.undeleted <==> p in h0.undeleted || p in Stuck(h.table, a0, want))
  }

  /** A call for each route, the adds first; each that fails keeps one route out or in the table. */
  ghost predicate Counted(bad: nat -> bool, h0: Host, a0: set<Prefix>, want: set<Prefix>, k: nat, h: Host, a: set<Prefix>)
  {
    var adds, deletes := |want - a0|, |a0 - want|;
    && k == h0.calls + adds + deletes && h.driverCalls == h0.driverCalls + adds + deletes
    && |want - a| == Fails(bad, h0.calls, h0.calls + adds)
    && |Stuck(h.table, a0, want)| == Fails(bad, h0.calls + adds, k)
  }

  /** A crash so far leaves what one before would have, or an added route. */
  ghost predicate PhasesExpose(h0: Host, a0: set<Prefix>, want: set<Prefix>, h: Host)
  {
    forall p :: p in h.exposed ==> p in h0.exposed || p in Leftover(h0.table, h0.file) || (p in want && p !in a0)
  }

  /** After both loops the manager and the table differ by the failed calls only. */
  lemma PhasesMeet(bad: nat -> bool, h0: Host, a0: set<Prefix>, want: set<Prefix>, h1: Host, a1: set<Prefix>, h2: Host, a2: set<Prefix>)
    requires a0 <= h0.table
    requires Adding(bad, h0, a0, want, want, h1, a1)
    requires Removing(bad, h1, a1, want, {}, a1 - want, h2, a2)
    ensures Reconciled(h0, a0, want, h2, a2) && Counted(bad, h0, a0, want, h2.calls, h2, a2) && h2.file == h0.file
    ensures PhasesExpose(h0, a0, want, h2)
  {
    assert a1 - want == a0 - want && want - a2 == want - a1;
  }

  /** What the manager does not know of is what it never knew of, or a failed delete. */
  lemma Unknown(h0: Host, a0: set<Prefix>, want: set<Prefix>, h: Host, a: set<Prefix>)
    requires a0 <= h0.table && Reconciled(h0, a0, want, h, a)
    ensures forall p :: p in h.table && p !in a ==> (p in h0.table && p !in a0) || p in Stuck(h.table, a0, want)
    ensures forall p :: p in h.table ==> p in h0.table || p in a
  {
  }

  lemma NoneMissing<T>(a: set<T>, want: set<T>)
    requires a <= want && |want - a| == 0
    ensures a == want
  {
    assert want - a == {};
  }

  /** Without failures the manager knows the wanted set, and no more is forgotten. */
  lemma CleanPhases(bad: nat -> bool, h0: Host, a0: set<Prefix>, want: set<Prefix>, k: nat, h: Host, a: set<Prefix>)
    requires a <= want && Counted(bad, h0, a0, want, k, h, a) && Clean(bad, h0.calls, k)
    ensures a == want && Stuck(h.table, a0, want) == {} && Fails(bad, h0.calls, k) == 0
  {
    var adds := h0.calls + |want - a0|;
    CleanIsNoFailure(bad, h0.calls, adds);
    CleanIsNoFailure(bad, adds, k);
    CleanIsNoFailure(bad, h0.calls, k);
    NoneMissing(a, want);
  }

  /** Saving exposes what the old and the new file miss, or everything when the target is removed. */
  lemma SaveExposes(h: Host, bad: nat -> bool, routes: set<Prefix>)
    ensures var s := SavedHost(h, bad, routes);
            && s == h.(calls := SaveEnd(bad, h.calls), file := SavedFile(bad, h.calls, h.file, routes), exposed := s.exposed)
            && s.exposed <= h.exposed + Leftover(h.table, h.file) + if Drops(bad, h.calls) then h.table else h.table - routes
  {
  }

  // ------------------------------------------------------------ over whole runs

  /**
   What holds between the calls of a manager, however its calls failed so far. The
   table holds what it held at first, what is applied and failed deletes. A crash
   and a working teardown leave what was there at first, failed deletes, and what
   was wanted since the last save that worked.
   */
  ghost predicate Bounded(h: Host, foreign: set<Prefix>, applied: set<Prefix>, unsaved: set<Prefix>)
  {
    && applied <= h.table
    && (forall p :: p in h.table ==> p in foreign || p in applied || p in h.undeleted)
    && (forall p :: p in Leftover(h.table, h.file) ==> p in foreign || p in h.undeleted || p in unsaved)
  }

  /** What is not saved after an Apply that found old unsaved and wanted new routes. */
  function UnsavedAfter(unsaved: set<Prefix>, added: set<Prefix>, applied: set<Prefix>, saves: bool, drops: bool): set<Prefix>
  {
    if saves then {} else if drops then applied else unsaved + added
  }

  /** The bounds after an Apply that leaves this file, if what it misses is unsaved. */
  lemma ApplyBounded(h0: Host, a0: set<Prefix>, want: set<Prefix>, h: Host, a: set<Prefix>, foreign: set<Prefix>, unsaved: set<Prefix>, saves: bool, drops: bool)
    requires Bounded(h0, foreign, a0, unsaved) && Reconciled(h0, a0, want, h, a)
    requires h.file == if saves then Saved(a) else if drops then Missing else h0.file
    ensures Bounded(h, foreign, a, UnsavedAfter(unsaved, want - a0, a, saves, drops))
  {
  }

  /** What a crash during an Apply could have left; with drops the file was removed on the way. */
  ghost predicate CrashBound(h0: Host, a0: set<Prefix>, want: set<Prefix>, h: Host, a: set<Prefix>, drops: bool)
  {
    forall p :: p in h.exposed ==>
      || p in h0.exposed || p in Leftover(h0.table, h0.file) || (p in want && p !in a0)
      || (p in h.table && (drops || p !in a))
  }

  /** The save of an Apply exposes what the manager does not know of, or all when the file goes. */
  lemma ApplyCrash(bad: nat -> bool, h0: Host, a0: set<Prefix>, want: set<Prefix>, h2: Host, a: set<Prefix>, saves: bool)
    requires a0 <= h0.table && Reconciled(h0, a0, want, h2, a) && PhasesExpose(h0, a0, want, h2) && h2.file == h0.file
    ensures CrashBound(h0, a0, want, if saves then SavedHost(h2, bad, a) else h2, a, saves && Drops(bad, h2.calls))
  {
    if saves {
      SaveExposes(h2, bad, a);
    }
  }

  /** Over a whole run: what was there at first, failed deletes, what was wanted since the last save. */
  ghost predicate RunBound(h0: Host, a0: set<Prefix>, want: set<Prefix>, h: Host, foreign: set<Prefix>, unsaved: set<Prefix>)
  {
    forall p :: p in h.exposed ==>
      p in h0.exposed || p in foreign || p in h.undeleted || p in unsaved || (p in want && p !in a0)
  }

  lemma CrashInRun(h0: Host, a0: set<Prefix>, want: set<Prefix>, h: Host, a: set<Prefix>, foreign: set<Prefix>, unsaved: set<Prefix>)
    requires Bounded(h0, foreign, a0, unsaved) && Reconciled(h0, a0, want, h, a) && CrashBound(h0, a0, want, h, a, false)
    ensures RunBound(h0, a0, want, h, foreign, unsaved)
  {
  }

  /** Apply when all its calls work, from a table the manager knows. */
  lemma ApplyClean(bad: nat -> bool, h0: Host, a0: set<Prefix>, want: set<Prefix>, k: nat, h: Host, a: set<Prefix>)
    requires Reconciled(h0, a0, want, h, a) && Counted(bad, h0, a0, want, k, h, a)
    requires a0 == h0.table && Clean(bad, h0.calls, k)
    ensures h.table == a == want && h.undeleted == h0.undeleted && Fails(bad, h0.calls, k) == 0
  {
    CleanPhases(bad, h0, a0, want, k, h, a);
    assert forall p :: p in a0 && p !in want ==> p !in h.table by {
      assert forall p :: p !in Stuck(h.table, a0, want);
    }
  }

  lemma SaveClean(bad: nat -> bool, k: nat)
    requires Clean(bad, k, SaveEnd(bad, k))
    ensures Saves(bad, k)
  {
    assert !bad(k);
    assert !bad(k + 1);
  }

  /** Apply from a table the manager knows: at rest it misses the failed deletes and nothing else. */
  lemma ApplyFromKnown(h0: Host, a0: set<Prefix>, want: set<Prefix>, h: Host, a: set<Prefix>)
    requires Reconciled(h0, a0, want, h, a) && h0.table == a0 && h0.undeleted == {}
    ensures h.table - a == h.undeleted && (h.file == Saved(a) ==> Leftover(h.table, h.file) == h.undeleted)
  {
  }

  /** What Apply leaves from a table the manager knows: without failures, and at rest. */
  lemma ApplyRests(bad: nat -> bool, h0: Host, a0: set<Prefix>, want: set<Prefix>, k: nat, h: Host, a: set<Prefix>, saves: bool)
    requires Reconciled(h0, a0, want, h, a) && Counted(bad, h0, a0, want, k, h, a)
    requires h.calls == if saves then SaveEnd(bad, k) else k
    ensures h0.table == a0 && Clean(bad, h0.calls, h.calls) ==>
              && h.table == a == want && h.undeleted == h0.undeleted && Fails(bad, h0.calls, k) == 0 && (saves ==> Saves(bad, k))
    ensures h0.table == a0 && h0.undeleted == {} ==>
              h.table - a == h.undeleted && (h.file == Saved(a) ==> Leftover(h.table, h.file) == h.undeleted)
  {
    if h0.table == a0 && Clean(bad, h0.calls, h.calls) {
      ApplyClean(bad, h0, a0, want, k, h, a);
      if saves {
        SaveClean(bad, k);
      }
    }
    if h0.table == a0 && h0.undeleted == {} {
      ApplyFromKnown(h0, a0, want, h, a);
    }
  }

  /** From a state where table, manager and file agree, a crash exposes new routes and failed deletes. */
  lemma CrashFromAgreement(h0: Host, a0: set<Prefix>, want: set<Prefix>, h: Host, a: set<Prefix>)
    requires Reconciled(h0, a0, want, h, a) && CrashBound(h0, a0, want, h, a, false)
    requires h0.table == a0 && h0.file == Saved(a0)
    ensures h.exposed <= h0.exposed + (want - a0) + h.undeleted
  {
    Unknown(h0, a0, want, h, a);
  }

  class RouteManager {
    const world: World
    const hasStateDir: bool
    var applied: set<Prefix>
    // The table at the start, and what was wanted since the last save that worked.
    ghost const foreign: set<Prefix>
    ghost var unsaved: set<Prefix>

    constructor (world: World, hasStateDir: bool)
      requires world.Valid()
      ensures Valid() && applied == {} && this.world == world && this.hasStateDir == hasStateDir
      ensures foreign == world.table && unsaved == {}
    {
      this.world, this.hasStateDir, applied := world, hasStateDir, {};
      foreign, unsaved := world.table, {};
    }

    /** The manager knows only routes that are in the table. */
    ghost predicate Knows()
      reads this, world
    {
      world.Valid() && applied <= world.table
    }

    /** What every call keeps. */
    ghost predicate Valid()
      reads this, world
    {
      world.Valid() && Bounded(world.host, foreign, applied, unsaved)
    }

    /** The number of the call that starts the save of an Apply. */
    ghost function SaveAt(want: set<Prefix>): nat
      reads this, world
    {
      world.calls + |want - applied| + |applied - want|
    }

    /** One round of the first phase. */
    method AddOne(p: Prefix, ghost h0: Host, ghost a0: set<Prefix>, ghost want: set<Prefix>, ghost done: set<Prefix>)
      returns (ok: bool)
      requires Knows() && a0 <= h0.table && p in want && p !in done
      requires Adding(world.bad, h0, a0, want, done, world.host, applied)
      modifies this`applied, world
      ensures Knows() && Adding(world.bad, h0, a0, want, done + {p}, world.host, applied)
      ensures h0.calls <= old(world.calls) <= world.calls
      ensures Fails(world.bad, h0.calls, world.calls) == Fails(world.bad, h0.calls, old(world.calls)) + if ok then 0 else 1
    {
      ok := true;
      AddingStep(world.bad, h0, a0, want, done, world.host, applied, p);
      FailsNext(world.bad, h0.calls, world.calls);
      if p !in applied {
        ok := world.AddRoute(p);
        if ok {
          applied := applied + {p};
        }
      }
    }

    /** First phase: new routes, in any order. errs counts the failures. */
    method AddWanted(want: set<Prefix>) returns (errs: nat)
      requires Knows()
      modifies this`applied, world
      ensures Knows() && Adding(world.bad, old(world.host), old(applied), want, want, world.host, applied)
      ensures errs == Fails(world.bad, old(world.calls), world.calls)
    {
      errs := 0;
      ghost var h0, a0 := world.host, applied;
      var todo := want;
      ghost var done: set<Prefix> := {};
      AddingStarts(world.bad, h0, a0, want);
      while todo != {}
        invariant Knows() && todo == want - done
        invariant Adding(world.bad, h0, a0, want, done, world.host, applied)
        invariant errs == Fails(world.bad, h0.calls, world.calls)
        decreases todo
      {
        var p :| p in todo;
        TodoShrinks(want, done, todo, p);
        var ok := AddOne(p, h0, a0, want, done);
        if !ok {
          errs := errs + 1;
        }
        todo := todo - {p};
        done := done + {p};
      }
      Drained(want, done);
    }

    /** One round of the second phase. */
    method RemoveOne(p: Prefix, ghost h0: Host, ghost a0: set<Prefix>, want: set<Prefix>, ghost todo: set<Prefix>, ghost gone: set<Prefix>)
      returns (ok: bool, ghost now: set<Prefix>)
      requires Knows() && a0 <= h0.table && p in todo
      requires Removing(world.bad, h0, a0, want, todo, gone, world.host, applied)
      modifies this`applied, world
      ensures Knows()
      ensures Removing(world.bad, h0, a0, want, todo - {p}, now, world.host, applied)
      ensures h0.calls <= old(world.calls) <= world.calls
      ensures Fails(world.bad, h0.calls, world.calls) == Fails(world.bad, h0.calls, old(world.calls)) + if ok then 0 else 1
    {
      ok, now := true, gone;
      RemovingStep(world.bad, h0, a0, want, todo, gone, world.host, applied, p);
      FailsNext(world.bad, h0.calls, world.calls);
      if p !in want {
        now := gone + {p};
        ok := world.DeleteRoute(p);
        applied := applied - {p};
      }
    }

    /** Second phase: routes no longer wanted. A route whose delete failed is forgotten all the same. */
    method RemoveUnwanted(want: set<Prefix>) returns (errs: nat)
      requires Knows()
      modifies this`applied, world
      ensures Knows()
      ensures Removing(world.bad, old(world.host), old(applied), want, {}, old(applied) - want, world.host, applied)
      ensures errs == Fails(world.bad, old(world.calls), world.calls)
    {
      errs := 0;
      ghost var h0, a0 := world.host, applied;
      var todo := applied;
      ghost var gone: set<Prefix> := {};
      RemovingStarts(world.bad, h0, a0, want);
      while todo != {}
        invariant Knows()
        invariant Removing(world.bad, h0, a0, want, todo, gone, world.host, applied)
        invariant errs == Fails(world.bad, h0.calls, world.calls)
        decreases todo
      {
        var p :| p in todo;
        var ok;
        ok, gone := RemoveOne(p, h0, a0, want, todo, gone);
        if !ok {
          errs := errs + 1;
        }
        todo := todo - {p};
      }
      RemovingEnds(a0, want, gone);
    }

    /** Both driver phases. */
    method Reconcile(want: set<Prefix>) returns (errs: nat)
      requires Knows()
      modifies this`applied, world
      ensures Knows() && Reconciled(old(world.host), old(applied), want, world.host, applied)
      ensures Counted(world.bad, old(world.host), old(applied), want, world.calls, world.host, applied)
      ensures world.file == old(world.file) && errs == Fails(world.bad, old(world.calls), world.calls)
      ensures PhasesExpose(old(world.host), old(applied), want, world.host)
    {
      errs := AddWanted(want);
      ghost var h1, a1 := world.host, applied;
      var more := RemoveUnwanted(want);
      errs := errs + more;
      PhasesMeet(world.bad, old(world.host), old(applied), want, h1, a1, world.host, applied);
      FailsSplit(world.bad, old(world.calls), h1.calls, world.calls);
    }

    /** The three phases. errs counts the failures, and the file is the one its calls decide. */
    method ApplyWant(want: set<Prefix>) returns (errs: nat)
      requires Knows()
      modifies this`applied, world
      ensures world.Valid()
      ensures Reconciled(old(world.host), old(applied), want, world.host, applied)
      ensures Counted(world.bad, old(world.host), old(applied), want, old(SaveAt(want)), world.host, applied)
      ensures errs == Fails(world.bad, old(world.calls), old(SaveAt(want))) + if hasStateDir && !Saves(world.bad, old(SaveAt(want))) then 1 else 0
      ensures world.calls == if hasStateDir then SaveEnd(world.bad, old(SaveAt(want))) else old(SaveAt(want))
      ensures world.file == if hasStateDir then SavedFile(world.bad, old(SaveAt(want)), old(world.file), applied) else old(world.file)
      ensures CrashBound(old(world.host), old(applied), want, world.host, applied, hasStateDir && Drops(world.bad, old(SaveAt(want))))
    {
      errs := Reconcile(want);
      ApplyCrash(world.bad, old(world.host), old(applied), want, world.host, applied, hasStateDir);
      if hasStateDir {
        var ok := world.SaveRouteState(applied);
        if !ok {
          errs := errs + 1;
        }
      }
    }

    /**
     Applies a set of routes. errs is the exact number of failures, each failed add
     leaves a wanted route out, each failed delete a forgotten route in the table,
     and the file is the one its calls decide. A crash at any point exposes only what
     a crash before would have, routes this call newly wants, and routes the manager
     does not know of, unless the file was removed for a second rename; over a whole
     run, only what was there at first, failed deletes, and what was wanted since the
     last save that worked. From a table the manager knows, a crash at rest leaves
     exactly the failed deletes once the file is written.
     */
    method Apply(prefixes: seq<Prefix>) returns (errs: nat)
      requires Valid()
      modifies this`applied, this`unsaved, world
      ensures Valid()
      ensures Reconciled(old(world.host), old(applied), Wanted(prefixes), world.host, applied)
      ensures Counted(world.bad, old(world.host), old(applied), Wanted(prefixes), old(SaveAt(Wanted(prefixes))), world.host, applied)
      ensures var bad, k := world.bad, old(SaveAt(Wanted(prefixes)));
              && errs == Fails(bad, old(world.calls), k) + (if hasStateDir && !Saves(bad, k) then 1 else 0)
              && world.calls == (if hasStateDir then SaveEnd(bad, k) else k)
              && world.file == (if hasStateDir then SavedFile(bad, k, old(world.file), applied) else old(world.file))
              && CrashBound(old(world.host), old(applied), Wanted(prefixes), world.host, applied, hasStateDir && Drops(bad, k))
              && (!(hasStateDir && Drops(bad, k)) ==> RunBound(old(world.host), old(applied), Wanted(prefixes), world.host, foreign, old(unsaved)))
              && unsaved == UnsavedAfter(old(unsaved), Wanted(prefixes) - old(applied), applied,
                                         hasStateDir && Saves(bad, k), hasStateDir && Drops(bad, k))
      ensures Clean(world.bad, old(world.calls), world.calls) && old(world.table) == old(applied) ==>
                && errs == 0 && world.table == applied == Wanted(prefixes) && world.host.undeleted == old(world.host.undeleted)
                && (hasStateDir ==> world.file == Saved(applied))
      ensures old(applied) == Wanted(prefixes) ==> world.driverCalls == old(world.driverCalls)
      ensures old(world.table) == old(applied) && old(world.host.undeleted) == {} ==>
                && world.table - applied == world.host.undeleted
                && (world.file == Saved(applied) ==> Leftover(world.table, world.file) == world.host.undeleted)
    {
      var want := WantedSet(prefixes);
      ghost var h0, a0, k := world.host, applied, SaveAt(want);
      errs := ApplyWant(want);
      ghost var saves, drops := hasStateDir && Saves(world.bad, k), hasStateDir && Drops(world.bad, k);
      unsaved := UnsavedAfter(unsaved, want - a0, applied, saves, drops);
      ApplyBounded(h0, a0, want, world.host, applied, foreign, old(unsaved), saves, drops);
      if !drops {
        CrashInRun(h0, a0, want, world.host, applied, foreign, old(unsaved));
      }
      ApplyRests(world.bad, h0, a0, want, k, world.host, applied, hasStateDir);
    }

    /**
     Removes every applied route and the file. Afterwards only what was in the table
     at first and failed deletes are there, and a crash on the way exposes no more
     than a crash before.
     */
    method Close() returns (errs: nat)
      requires Valid()
      modifies this`applied, this`unsaved, world
      ensures Valid() && applied == {} && unsaved == {}
      ensures old(world.table) - world.table <= old(applied) && world.table <= old(world.table)
      ensures var k := old(world.calls) + |old(applied)|;
              && |world.table * old(applied)| == Fails(world.bad, old(world.calls), k)
              && world.host.undeleted == old(world.host.undeleted) + world.table * old(applied)
              && errs == Fails(world.bad, old(world.calls), k) + (if hasStateDir && world.bad(k) then 1 else 0)
              && world.file == (if hasStateDir && !world.bad(k) then Missing else old(world.file))
      ensures world.host.exposed <= old(world.host.exposed) + Leftover(old(world.table), old(world.file)) + world.table
      ensures Clean(world.bad, old(world.calls), world.calls) ==>
                errs == 0 && world.table !! old(applied) && (hasStateDir ==> world.file == Missing)
    {
      errs := RemoveUnwanted({});
      assert old(applied) - {} == old(applied);
      ghost var k := world.calls;
      CleanIsNoFailure(world.bad, old(world.calls), k);
      LeftoverMono(world.table, old(world.table), world.file);
      if hasStateDir {
        var ok := world.RemoveRouteState();
        if !ok {
          errs := errs + 1;
        }
      }
      unsaved := {};
    }
  }

  /** Some of the routes were deleted, but for the failed ones. */
  ghost predicate Deleting(bad: nat -> bool, h0: Host, done: set<Prefix>, failed: set<Prefix>, h: Host)
  {
    && failed <= done && h.file == h0.file
    && h.table == h0.table - (done - failed) && h.undeleted == h0.undeleted + failed
    && h.calls == h0.calls + |done| && |failed| == Fails(bad, h0.calls, h.calls)
  }

  lemma DeletingStep(bad: nat -> bool, h0: Host, done: set<Prefix>, failed: set<Prefix>, h: Host, p: Prefix)
    requires Deleting(bad, h0, done, failed, h) && p !in done
    ensures bad(h.calls) ==> Deleting(bad, h0, done + {p}, failed + {p}, Deleted(h, p, false))
    ensures !bad(h.calls) ==> Deleting(bad, h0, done + {p}, failed, Deleted(h, p, true))
  {
    assert |done + {p}| == |done| + 1 && |failed + {p}| == |failed| + 1;
    assert (done + {p}) - (failed + {p}) == done - failed;
    assert (done + {p}) - failed == (done - failed) + {p};
  }

  /** Deletes routes one by one, and gives those whose delete failed. */
  method DeleteAll(world: World, routes: set<Prefix>) returns (failed: set<Prefix>)
    requires world.Valid()
    modifies world
    ensures world.Valid() && Deleting(world.bad, old(world.host), routes, failed, world.host)
  {
    failed := {};
    var todo := routes;
    ghost var done: set<Prefix> := {};
    while todo != {}
      invariant world.Valid() && todo == routes - done && done <= routes
      invariant Deleting(world.bad, old(world.host), done, failed, world.host)
      decreases todo
    {
      var p :| p in todo;
      DeletingStep(world.bad, old(world.host), done, failed, world.host, p);
      var ok := world.DeleteRoute(p);
      if !ok {
        failed := failed + {p};
      }
      todo := todo - {p};
      done := done + {p};
    }
    Drained(routes, done);
  }

  /**
   Run at the next start: removes the routes the file names and the file itself.
   failed are the routes whose delete fails. Nothing outside the file is deleted,
   and what stays is Leftover and the failed deletes; as the file goes all the same,
   nothing names these any more. A corrupt file is removed and its routes stay.
   */
  method TeardownStale(world: World, driverReady: bool) returns (errs: nat, failed: set<Prefix>)
    requires world.Valid()
    modifies world
    ensures world.Valid()
    ensures old(world.file) == Missing ==> errs == 0 && world.host == old(world.host)
    ensures old(world.file) == Corrupt ==> errs > 0
    ensures !driverReady || !old(world.file).Saved? ==> world.table == old(world.table) && failed == {}
    ensures driverReady && old(world.file).Saved? ==>
              && failed <= old(world.file).routes
              && |failed| == Fails(world.bad, old(world.calls), old(world.calls) + |old(world.file).routes|)
              && world.table == Leftover(old(world.table), old(world.file)) + old(world.table) * failed
    ensures world.host.undeleted == old(world.host.undeleted) + failed
    ensures world.file != Missing ==> world.file == old(world.file) && errs > |failed|
    ensures world.file == Missing && old(world.file).Saved? ==> errs == |failed|
    ensures Clean(world.bad, old(world.calls), world.calls) ==> world.file == Missing
    ensures driverReady && Clean(world.bad, old(world.calls), world.calls) ==>
              world.table == Leftover(old(world.table), old(world.file)) && world.file == Missing
  {
    errs, failed := 0, {};
    if world.file == Missing {
      return;
    }
    if world.file == Corrupt {
      var _ := world.RemoveRouteState();
      return 1, {};
    }
    failed := DeleteAll(world, if driverReady then world.file.routes else {});
    errs := |failed|;
    CleanIsNoFailure(world.bad, old(world.calls), world.calls);
    var ok := world.RemoveRouteState();
    if !ok {
      errs := errs + 1;
    }
  }

  // ------------------------------------------------------------------ two runs

  lemma WantedOne(p: Prefix)
    requires p.IsValid()
    ensures Wanted([p]) == {p.Masked()}
  {
    assert p in [p];
  }

  /** A manager on an empty table that applied one route, its first three calls working. */
  method AfterOne(bad: nat -> bool, p: Prefix) returns (manager: RouteManager)
    requires p.IsValid() && Clean(bad, 0, 3)
    ensures fresh(manager) && fresh(manager.world) && manager.Valid() && manager.hasStateDir && manager.world.bad == bad
    ensures manager.world.table == manager.applied == {p.Masked()} && manager.world.file == Saved({p.Masked()})
    ensures manager.world.calls == 3 && manager.world.host.undeleted == {}
  {
    var world := new World(bad, {}, Missing);
    manager := new RouteManager(world, true);
    WantedOne(p);
    assert {p.Masked()} - {} == {p.Masked()} && {} - {p.Masked()} == {};
    assert manager.SaveAt({p.Masked()}) == 1 && SaveEnd(bad, 1) == 3;
    var errs := manager.Apply([p]);
  }

  /**
   A route whose delete failed is in the table and in no file: the second Apply wants
   nothing, counts the failed delete, and saves the empty set.
   */
  method FailedDeleteStays(p: Prefix) returns (table: set<Prefix>, file: File, errs: nat)
    requires p.IsValid()
    ensures file == Saved({}) && errs == 1 && Leftover(table, file) == {p.Masked()}
  {
    var bad := (k: nat) => k == 3;
    var manager := AfterOne(bad, p);
    var m := p.Masked();
    assert Wanted([]) == {} && {} - {m} == {} && {m} - {} == {m};
    assert manager.SaveAt({}) == 4;
    OneFailure(bad, 3);
    errs := manager.Apply([]);
    table, file := manager.world.table, manager.world.file;
    OneStuck(table, m);
  }

  lemma OneFailure(bad: nat -> bool, k: nat)
    ensures Fails(bad, k, k) == 0 && Fails(bad, k, k + 1) == if bad(k) then 1 else 0
  {
    assert Fails(bad, k, k) == 0;
  }

  lemma OneStuck(table: set<Prefix>, m: Prefix)
    requires |Stuck(table, {m}, {})| == 1
    ensures m in table
  {
    assert m !in table ==> Stuck(table, {m}, {}) == {};
  }

  /**
   Applying the same routes again, with both renames failing, removes the file that
   was right: the applied route is then named by no file.
   */
  method SecondApplyLosesFile(p: Prefix) returns (before: File, file: File, table: set<Prefix>)
    requires p.IsValid()
    ensures before == Saved({p.Masked()}) && file == Missing && Leftover(table, file) == {p.Masked()}
  {
    var manager := AfterOne(k => k == 4 || k == 6, p);
    before := manager.world.file;
    var m := p.Masked();
    WantedOne(p);
    assert {m} - {m} == {};
    assert manager.SaveAt({m}) == 3;
    ghost var h0, a0 := manager.world.host, manager.applied;
    var errs := manager.Apply([p]);
    SameAgain(h0, a0, manager.world.host, manager.applied);
    file, table := manager.world.file, manager.world.table;
  }

  /** Wanting what is applied leaves the table as it is. */
  lemma SameAgain(h0: Host, a0: set<Prefix>, h: Host, a: set<Prefix>)
    requires Reconciled(h0, a0, a0, h, a) && h0.table == a0
    ensures h.table == a == a0
  {
  }
}
