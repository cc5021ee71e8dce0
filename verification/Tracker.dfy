/**
 The connection tracker (internal/proxy/tracker.go): the atomic steps of adding
 and finishing a record, and the object that runs them.
 */
module Tracker {
  const RECENT_MAX: nat := 200

  /** The tracker by record id. counted and finished are history: every id ever counted, and finishes in order. */
  datatype Log = Log(
    next: nat,
    total: nat,
    failed: nat,
    active: set<nat>,
    recent: seq<nat>,
    counted: set<nat>,
    finished: seq<nat>)

  const EMPTY := Log(0, 0, 0, {}, [], {}, [])

  function Last(s: seq<nat>, n: nat): seq<nat>
  {
    if |s| > n then s[|s| - n..] else s
  }

  /** add, step one: the record's id comes from the next counter. */
  function Assign(t: Log): Log { t.(next := t.next + 1) }

  /** add, step two: the total counter. */
  function Count(t: Log, id: nat): Log { t.(total := t.total + 1, counted := t.counted + {id}) }

  /** add, step three, under the lock. */
  function Activate(t: Log, id: nat): Log { t.(active := t.active + {id}) }

  /** finish, step one: the failed counter. */
  function CountFailed(t: Log): Log { t.(failed := t.failed + 1) }

  /** finish, step two, under the lock. */
  function Retire(t: Log, id: nat): Log
  {
    t.(active := t.active - {id}, recent := Last(t.recent + [id], RECENT_MAX), finished := t.finished + [id])
  }

  function AddAll(t: Log): Log
  {
    var id := t.next + 1;
    Activate(Count(Assign(t), id), id)
  }

  function FinishAll(t: Log, id: nat, failed: bool): Log
  {
    Retire(if failed then CountFailed(t) else t, id)
  }

  /** recent is always the tail of the history. */
  lemma RetireRecent(t: Log, id: nat)
    requires t.recent == Last(t.finished, RECENT_MAX)
    ensures Retire(t, id).recent == Last(t.finished + [id], RECENT_MAX)
  {
    var f := t.finished + [id];
    var a, b := Last(t.recent + [id], RECENT_MAX), Last(f, RECENT_MAX);
    assert |a| == |b|;
    forall i | 0 <= i < |a| ensures a[i] == b[i] {
    }
  }

  ghost function Elems(s: seq<nat>): set<nat> { set x | x in s }

  /** No id twice. */
  ghost predicate Distinct(s: seq<nat>)
  {
    forall i, j :: 0 <= i < j < |s| ==> s[i] != s[j]
  }

  /** recent lists the last finishes. */
  ghost predicate RecentTail(t: Log)
  {
    t.recent == Last(t.finished, RECENT_MAX)
  }

  /** Every counted record is either active or finished, once. */
  ghost predicate Accounts(t: Log)
  {
    && t.total == t.next && |t.counted| == t.next
    && t.counted == t.active + Elems(t.finished)
    && t.active !! Elems(t.finished)
    && Distinct(t.finished)
    && forall x :: x in t.counted ==> 0 < x <= t.next
  }

  ghost predicate Consistent(t: Log) { RecentTail(t) && Accounts(t) }

  lemma AddAccounts(t: Log)
    requires Accounts(t)
    ensures Accounts(AddAll(t))
  {
    assert t.next + 1 !in t.counted;
    assert t.next + 1 !in Elems(t.finished);
  }

  lemma AddKeeps(t: Log)
    requires Consistent(t)
    ensures Consistent(AddAll(t))
  {
    AddAccounts(t);
  }

  lemma ElemsPush(s: seq<nat>, x: nat)
    ensures Elems(s + [x]) == Elems(s) + {x}
    ensures Distinct(s) && x !in Elems(s) ==> Distinct(s + [x])
  {
    if Distinct(s) && x !in Elems(s) {
      forall i, j | 0 <= i < j < |s + [x]| ensures (s + [x])[i] != (s + [x])[j] {
        assert s[i] in Elems(s);
      }
    }
  }

  lemma FinishAccounts(t: Log, id: nat)
    requires Accounts(t) && id in t.active
    ensures Accounts(t.(active := t.active - {id}, finished := t.finished + [id]))
  {
    ElemsPush(t.finished, id);
  }

  lemma FinishKeeps(t: Log, id: nat, failed: bool)
    requires Consistent(t) && id in t.active
    ensures Consistent(FinishAll(t, id, failed))
  {
    RetireRecent(t, id);
    FinishAccounts(t, id);
  }

  lemma {:induction false} DistinctCard(s: seq<nat>)
    requires Distinct(s)
    ensures |Elems(s)| == |s|
  {
    if s != [] {
      var init, last := s[..|s| - 1], s[|s| - 1];
      DistinctCard(init);
      assert s == init + [last];
      assert Elems(s) == Elems(init) + {last};
      assert last !in init;
    }
  }

  /** The total is what is active plus what finished, and at most 200 finishes are listed. */
  lemma TotalsAddUp(t: Log)
    requires Consistent(t)
    ensures t.total == |t.active| + |t.finished|
    ensures |t.recent| == if |t.finished| < 200 then |t.finished| else 200
  {
    DistinctCard(t.finished);
  }

  /** One proxied connection; the record's other fields do not concern the tracker. */
  class Conn {
    var id: nat
    var ended: bool
    var err: string

    constructor ()
      ensures id == 0 && !ended && err == ""
    {
      id, ended, err := 0, false, "";
    }
  }

  class Tracker {
    var next: nat
    var total: nat
    var failed: nat
    var active: map<nat, Conn>
    var recent: seq<Conn>
    ghost var log: Log

    /** The fields say what the log says. */
    ghost predicate Linked()
      reads this, recent, active.Values
    {
      && next == log.next && total == log.total && failed == log.failed && active.Keys == log.active
      && |recent| == |log.recent| && (forall i :: 0 <= i < |recent| ==> recent[i].id == log.recent[i])
      && forall id :: id in active ==> active[id].id == id
    }

    ghost predicate Valid()
      reads this, recent, active.Values
    {
      Linked() && Consistent(log)
    }

    constructor ()
      ensures Valid() && log == EMPTY
    {
      next, total, failed := 0, 0, 0;
      active, recent := map[], [];
      log := EMPTY;
    }

    method Add(c: Conn)
      requires Valid() && c.id == 0
      modifies this, c
      ensures Valid() && log == AddAll(old(log))
      ensures c.id == old(next) + 1 && c.id in active && active[c.id] == c
      ensures c.ended == old(c.ended) && c.err == old(c.err)
    {
      AddKeeps(log);
      RecentPositive(log);
      Register(c);
    }

    /** The three steps of add. */
    method Register(c: Conn)
      requires Linked() && c.id == 0
      requires 0 !in log.recent && 0 !in log.active
      modifies this, c
      ensures Linked() && log == AddAll(old(log))
      ensures c.id == old(next) + 1 && c.id in active && active[c.id] == c
      ensures c.ended == old(c.ended) && c.err == old(c.err)
    {
      next := next + 1;
      c.id := next;
      total := total + 1;
      active := active[c.id := c];
      log := AddAll(log);
    }

    /** finish needs an active record: a second finish would list it twice. */
    method Finish(c: Conn, err: string)
      requires Valid()
      requires c.id in active && active[c.id] == c
      modifies this, c
      ensures Valid() && log == FinishAll(old(log), c.id, err != "")
      ensures c.id == old(c.id) && c.ended && c.err == err
    {
      FinishKeeps(log, c.id, err != "");
      Release(c, err);
    }

    /** The steps of finish. */
    method Release(c: Conn, err: string)
      requires Linked()
      modifies this, c
      ensures Linked() && log == FinishAll(old(log), c.id, err != "")
      ensures c.id == old(c.id) && c.ended && c.err == err
    {
      c.ended, c.err := true, err;
      if err != "" {
        failed := failed + 1;
      }
      active := active - {c.id};
      recent := Push(recent, log.recent, c);
      log := FinishAll(log, c.id, err != "");
    }

    /** The ring: newest last, trimmed from the front. */
    static method Push(cs: seq<Conn>, ghost ids: seq<nat>, c: Conn) returns (r: seq<Conn>)
      requires |cs| == |ids| && forall i :: 0 <= i < |cs| ==> cs[i].id == ids[i]
      ensures |r| == |Last(ids + [c.id], RECENT_MAX)|
      ensures forall i :: 0 <= i < |r| ==> r[i].id == Last(ids + [c.id], RECENT_MAX)[i]
    {
      r := cs + [c];
      ghost var all := ids + [c.id];
      assert forall i :: 0 <= i < |r| ==> r[i].id == all[i];
      if |r| > RECENT_MAX {
        r := r[|r| - RECENT_MAX..];
      }
    }
  }

  lemma RecentPositive(t: Log)
    requires Consistent(t)
    ensures 0 !in t.recent && 0 !in t.active
  {
    forall x | x in t.recent ensures x != 0 {
      assert x in t.finished;
      assert x in Elems(t.finished);
    }
  }
}
