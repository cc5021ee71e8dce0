/**
 All flows together: the flow table under its lock, the listeners, shutdown and
 the tracker, and what holds in every reachable state of every interleaving.
 */
module UdpRuns {
  import opened UdpFlows
  import T = Tracker

  /** A dispatched datagram: its key and size. */
  datatype Sent = Sent(key: Key, size: nat)

  /** A packet a listener has looked the flow up for and not yet queued. */
  datatype InFlight = InFlight(flow: nat, p: Packet)

  /**
   flows lists every flow ever made; table is the locked map. A listener whose
   Serve returned is in closers, with the flows it still has to close; snapshot
   remembers the flows it found.
   */
  datatype State = State(
    flows: seq<Flow>,
    table: map<Key, nat>,
    sent: seq<Sent>,
    inflight: map<nat, InFlight>,
    closers: map<nat, set<nat>>,
    snapshot: map<nat, set<nat>>,
    log: T.Log)

  const INITIAL := State([], map[], [], map[], map[], map[], T.EMPTY)

  datatype Step =
    | Arrive(k: Key, size: nat)          // dispatch, under the lock
    | Enqueue(listener: nat)             // dispatch, the channel send
    | ServeReturns(listener: nat)        // closeAll, under the lock
    | CloseFlow(listener: nat, id: nat)  // closeAll, one close
    | Act(id: nat, a: Action)

  predicate Enabled(s: State, st: Step)
  {
    match st
    case Arrive(k, _) => k.listener !in s.inflight && k.listener !in s.closers
    case Enqueue(l) => l in s.inflight && s.inflight[l].flow < |s.flows|
    case ServeReturns(l) => l !in s.inflight && l !in s.closers
    case CloseFlow(l, id) => l in s.closers && id in s.closers[l] && id < |s.flows|
    case Act(id, a) =>
      && id < |s.flows| && Allowed(s.flows[id], a)
      && (a.Record? && a.r.AssignId? ==> a.r.id == s.log.next + 1)
  }

  /** The tracker's side of a record step. */
  function LogStep(t: T.Log, f: Flow, r: RecordStep): T.Log
    requires AllowedRecord(f, r)
  {
    match r
    case AssignId(_) => T.Assign(t)
    case CountTotal => T.Count(t, f.rec)
    case Insert => T.Activate(t, f.rec)
    case CountFailed => if f.pc.errored then T.CountFailed(t) else t
    case Retire => T.Retire(t, f.rec)
  }

  /** Removal happens only when the table still holds this flow. */
  function TableStep(table: map<Key, nat>, f: Flow, id: nat, a: Action): map<Key, nat>
  {
    if a == Loop(Remove) && f.key in table && table[f.key] == id then table - {f.key} else table
  }

  function Do(s: State, st: Step): State
    requires Enabled(s, st)
  {
    match st
    case Arrive(k, size) =>
      var p := Packet(|s.sent|, size);
      var s1 := s.(sent := s.sent + [Sent(k, size)]);
      if k in s.table then s1.(inflight := s.inflight[k.listener := InFlight(s.table[k], p)])
      else if |s.table| >= MAX_FLOWS then s1
      else
        s1.(flows := s.flows + [NewFlow(k)], table := s.table[k := |s.flows|],
            inflight := s.inflight[k.listener := InFlight(|s.flows|, p)])
    case Enqueue(l) =>
      var id, p := s.inflight[l].flow, s.inflight[l].p;
      var f := s.flows[id];
      var s1 := s.(inflight := s.inflight - {l});
      if |f.queue| < FLOW_QUEUE then s1.(flows := s.flows[id := f.(queue := f.queue + [p])]) else s1
    case ServeReturns(l) => s.(closers := s.closers[l := s.table.Values], snapshot := s.snapshot[l := s.table.Values])
    case CloseFlow(l, id) =>
      s.(closers := s.closers[l := s.closers[l] - {id}], flows := s.flows[id := s.flows[id].(done := true)])
    case Act(id, a) =>
      var f := s.flows[id];
      s.(flows := s.flows[id := Local(f, a)], table := TableStep(s.table, f, id, a),
         log := if a.Record? then LogStep(s.log, f, a.r) else s.log)
  }

  /** s is reached from the initial state by the steps. */
  ghost predicate Reaches(steps: seq<Step>, s: State)
  {
    if steps == [] then s == INITIAL
    else
      var init, last := steps[..|steps| - 1], steps[|steps| - 1];
      exists before :: Reaches(init, before) && StepTo(before, last, s)
  }

  ghost predicate StepTo(before: State, st: Step, after: State)
  {
    Enabled(before, st) && Do(before, st) == after
  }

  // ------------------------------------------------------------ invariants

  /** The table holds exactly the flows whose goroutine has not returned. */
  ghost predicate TableOK(s: State)
  {
    && |s.table| <= MAX_FLOWS
    && (forall k :: k in s.table ==> s.table[k] < |s.flows| && s.flows[s.table[k]].key == k && s.flows[s.table[k]].pc != Dead)
    && (forall id :: 0 <= id < |s.flows| && s.flows[id].pc != Dead ==>
          s.flows[id].key in s.table && s.table[s.flows[id].key] == id)
  }

  ghost predicate FlowsOK(s: State)
  {
    forall id :: 0 <= id < |s.flows| ==> Shape(s.flows[id]) && Counts(s.flows[id])
  }

  /** The packet is the one dispatched under its number, for this key. */
  ghost predicate Recorded(sent: seq<Sent>, k: Key, p: Packet)
  {
    p.seqno < |sent| && sent[p.seqno] == Sent(k, p.size)
  }

  ghost predicate PipeOK(sent: seq<Sent>, f: Flow)
  {
    Increasing(Pipe(f)) && forall p :: p in Pipe(f) ==> Recorded(sent, f.key, p)
  }

  /** A packet in flight is of its flow's listener and key, and newer than all the flow holds. */
  ghost predicate InFlightOK(s: State, l: nat)
    requires l in s.inflight
  {
    var x := s.inflight[l];
    && x.flow < |s.flows| && s.flows[x.flow].key.listener == l
    && Recorded(s.sent, s.flows[x.flow].key, x.p)
    && forall p :: p in Pipe(s.flows[x.flow]) ==> p.seqno < x.p.seqno
  }

  ghost predicate OrderOK(s: State)
  {
    && (forall id :: 0 <= id < |s.flows| ==> PipeOK(s.sent, s.flows[id]))
    && (forall l :: l in s.inflight ==> InFlightOK(s, l))
  }

  /** The record has been counted; it is active; it is finished. */
  predicate IsCounted(pc: PC) { IsActive(pc) || IsFinished(pc) || pc.AddActive? }

  predicate IsActive(pc: PC)
  {
    pc == Dialing || pc == Replying || pc.FinishCount? || pc.FinishList? || pc == Flushing || pc.FlushCounting? || Running(pc)
  }

  predicate IsFinished(pc: PC) { pc == FailedWait || pc == Removing || pc == Dead }

  /** Where one flow's record is in the tracker. */
  ghost predicate RecordOK(t: T.Log, f: Flow)
  {
    f.rec != 0 ==>
      && f.rec <= t.next
      && (f.rec in t.counted <==> IsCounted(f.pc))
      && (f.rec in t.active <==> IsActive(f.pc))
      && (f.rec in t.finished <==> IsFinished(f.pc))
  }

  ghost predicate Owned(flows: seq<Flow>, rec: nat)
  {
    exists id :: 0 <= id < |flows| && flows[id].rec == rec
  }

  ghost predicate LogOK(t: T.Log)
  {
    && t.total == |t.counted| && t.recent == T.Last(t.finished, T.RECENT_MAX) && T.Distinct(t.finished)
    && t.active <= t.counted && T.Elems(t.finished) <= t.counted && t.active !! T.Elems(t.finished)
    && forall x :: x in t.counted ==> 0 < x <= t.next
  }

  ghost predicate RecordsOK(s: State)
  {
    && LogOK(s.log)
    && (forall id :: 0 <= id < |s.flows| ==> RecordOK(s.log, s.flows[id]))
    && (forall i, j :: 0 <= i < j < |s.flows| && s.flows[i].rec != 0 ==> s.flows[i].rec != s.flows[j].rec)
    && (forall x :: x in s.log.counted ==> Owned(s.flows, x))
  }

  /** The returning listener l found flow id live. */
  ghost predicate Found(s: State, l: nat, id: nat)
  {
    l in s.snapshot && id in s.snapshot[l]
  }

  /** Such a flow is closed, or that listener is about to close it. */
  ghost predicate Handled(s: State, l: nat, id: nat)
  {
    (l in s.closers && id in s.closers[l]) || (id < |s.flows| && s.flows[id].done)
  }

  ghost predicate ShutdownOK(s: State)
  {
    forall l, id :: Found(s, l, id) ==> Handled(s, l, id)
  }

  ghost predicate Inv(s: State) { TableOK(s) && FlowsOK(s) && OrderOK(s) && RecordsOK(s) && ShutdownOK(s) && s.closers.Keys == s.snapshot.Keys }

  // ------------------------------------------------------- preservation

  lemma TableKept(s: State, st: Step)
    requires TableOK(s) && FlowsOK(s) && Enabled(s, st)
    ensures TableOK(Do(s, st))
  {
    match st {
      case Arrive(k, size) => TableKeptArrive(s, k, size);
      case Enqueue(l) => TableKeptEnqueue(s, l);
      case CloseFlow(l, id) => TableKeptClose(s, l, id);
      case Act(id, a) => TableKeptAct(s, id, a);
      case ServeReturns(_) =>
    }
  }

  lemma TableKeptEnqueue(s: State, l: nat)
    requires TableOK(s) && Enabled(s, Enqueue(l))
    ensures TableOK(Do(s, Enqueue(l)))
  {
    var x := s.inflight[l];
    if |s.flows[x.flow].queue| < FLOW_QUEUE {
      TableKeptLive(s, Do(s, Enqueue(l)), x.flow);
    }
  }

  lemma TableKeptClose(s: State, l: nat, id: nat)
    requires TableOK(s) && Enabled(s, CloseFlow(l, id))
    ensures TableOK(Do(s, CloseFlow(l, id)))
  {
    TableKeptLive(s, Do(s, CloseFlow(l, id)), id);
  }

  /** A new flow under a key the table does not hold. */
  lemma TableKeptNew(s: State, u: State, k: Key)
    requires TableOK(s) && k !in s.table && |s.table| < MAX_FLOWS
    requires u.flows == s.flows + [NewFlow(k)] && u.table == s.table[k := |s.flows|]
    ensures TableOK(u)
  {
    assert |u.table| == |s.table| + 1;
    forall id | 0 <= id < |u.flows| && u.flows[id].pc != Dead
      ensures u.flows[id].key in u.table && u.table[u.flows[id].key] == id
    {
      assert id < |s.flows| ==> u.flows[id] == s.flows[id];
    }
  }

  lemma TableKeptArrive(s: State, k: Key, size: nat)
    requires TableOK(s) && Enabled(s, Arrive(k, size))
    ensures TableOK(Do(s, Arrive(k, size)))
  {
    if k !in s.table && |s.table| < MAX_FLOWS {
      TableKeptNew(s, Do(s, Arrive(k, size)), k);
    }
  }

  lemma SetupKills(f: Flow, s: SetupStep)
    requires AllowedSetup(f, s)
    ensures var g := LocalSetup(f, s); g.pc != Dead && f.pc != Dead && g.key == f.key
  {
  }

  lemma RecordKills(f: Flow, r: RecordStep)
    requires AllowedRecord(f, r)
    ensures var g := LocalRecord(f, r); g.pc != Dead && f.pc != Dead && g.key == f.key
  {
  }

  lemma LoopKills(f: Flow, l: LoopStep)
    requires AllowedLoop(f, l)
    ensures var g := LocalLoop(f, l); (g.pc == Dead <==> l == Remove) && f.pc != Dead && g.key == f.key
  {
  }

  /** The pumps leave the goroutine, the record and the held datagrams where they are. */
  ghost predicate SamePlace(f: Flow, g: Flow)
  {
    g.pc == f.pc && g.key == f.key && g.rec == f.rec && g.pending == f.pending && g.sniffed == f.sniffed
  }

  lemma OutKeepsPlace(f: Flow, x: OutStep)
    requires AllowedOut(f, x)
    ensures SamePlace(f, LocalOut(f, x))
  {
  }

  lemma ReplyKeepsPlace(f: Flow, x: CopyStep)
    requires Allowed(f, Reply(x))
    ensures SamePlace(f, LocalReply(f, x))
  {
  }

  lemma BackKeepsPlace(f: Flow, x: CopyStep)
    requires Allowed(f, Back(x))
    ensures SamePlace(f, LocalBack(f, x))
  {
  }

  lemma PumpsKeepPlace(f: Flow, a: Action)
    requires Allowed(f, a) && (a.Out? || a.Reply? || a.Back?)
    ensures SamePlace(f, Local(f, a))
  {
    match a {
      case Out(x) => OutKeepsPlace(f, x);
      case Reply(x) => ReplyKeepsPlace(f, x);
      case Back(x) => BackKeepsPlace(f, x);
    }
  }

  lemma OnlyRemoveKills(f: Flow, a: Action)
    requires Allowed(f, a)
    ensures Local(f, a).pc == Dead <==> a == Loop(Remove) || f.pc == Dead
    ensures Local(f, a).key == f.key
  {
    match a {
      case Setup(x) => SetupKills(f, x);
      case Record(x) => RecordKills(f, x);
      case Loop(x) => LoopKills(f, x);
      case _ => PumpsKeepPlace(f, a);
    }
  }

  lemma TableKeptAct(s: State, id: nat, a: Action)
    requires TableOK(s) && Enabled(s, Act(id, a))
    ensures TableOK(Do(s, Act(id, a)))
  {
    var f := s.flows[id];
    OnlyRemoveKills(f, a);
    if a == Loop(Remove) {
      TableKeptRemove(s, id);
    } else {
      var u := Do(s, Act(id, a));
      assert u.table == s.table;
      TableKeptLive(s, u, id);
    }
  }

  lemma TableKeptLive(s: State, u: State, id: nat)
    requires TableOK(s) && u.table == s.table && id < |s.flows| && |u.flows| == |s.flows|
    requires forall i :: 0 <= i < |s.flows| && i != id ==> u.flows[i] == s.flows[i]
    requires u.flows[id].key == s.flows[id].key && (u.flows[id].pc == Dead <==> s.flows[id].pc == Dead)
    ensures TableOK(u)
  {
    forall i | 0 <= i < |u.flows| && u.flows[i].pc != Dead
      ensures u.flows[i].key in u.table && u.table[u.flows[i].key] == i
    {
      assert s.flows[i].pc != Dead;
    }
  }

  lemma KeyGone<K, V>(m: map<K, V>, k: K)
    ensures |m - {k}| <= |m|
  {
    assert (m - {k}).Keys == m.Keys - {k};
  }

  /** The removed flow leaves the table with its key. */
  lemma TableKeptGone(s: State, u: State, id: nat, g: Flow)
    requires TableOK(s) && id < |s.flows| && s.flows[id].pc != Dead && g.pc == Dead
    requires u.flows == s.flows[id := g] && u.table == s.table - {s.flows[id].key}
    ensures TableOK(u)
  {
    KeyGone(s.table, s.flows[id].key);
    forall i | 0 <= i < |u.flows| && u.flows[i].pc != Dead
      ensures u.flows[i].key in u.table && u.table[u.flows[i].key] == i
    {
      assert i != id && u.flows[i] == s.flows[i];
    }
  }

  lemma TableKeptRemove(s: State, id: nat)
    requires TableOK(s) && Enabled(s, Act(id, Loop(Remove)))
    ensures TableOK(Do(s, Act(id, Loop(Remove))))
  {
    var f := s.flows[id];
    assert f.pc != Dead;
    assert f.key in s.table && s.table[f.key] == id;
    TableKeptGone(s, Do(s, Act(id, Loop(Remove))), id, LocalLoop(f, Remove));
  }

  lemma QueuedOK(f: Flow, p: Packet)
    requires Shape(f) && Counts(f) && |f.queue| < FLOW_QUEUE
    ensures Shape(f.(queue := f.queue + [p])) && Counts(f.(queue := f.queue + [p]))
  {
  }

  lemma ClosedOK(f: Flow)
    requires Shape(f) && Counts(f)
    ensures Shape(f.(done := true)) && Counts(f.(done := true))
  {
  }

  lemma NewOK(k: Key)
    ensures Shape(NewFlow(k)) && Counts(NewFlow(k))
  {
  }

  lemma FlowsKeptOne(s: State, u: State, id: nat, g: Flow)
    requires FlowsOK(s) && id < |s.flows| && u.flows == s.flows[id := g]
    requires Shape(g) && Counts(g)
    ensures FlowsOK(u)
  {
  }

  lemma FlowsKeptArrive(s: State, k: Key, size: nat)
    requires FlowsOK(s) && Enabled(s, Arrive(k, size))
    ensures FlowsOK(Do(s, Arrive(k, size)))
  {
    NewOK(k);
  }

  lemma FlowsKeptEnqueue(s: State, l: nat)
    requires FlowsOK(s) && Enabled(s, Enqueue(l))
    ensures FlowsOK(Do(s, Enqueue(l)))
  {
    var x := s.inflight[l];
    var f := s.flows[x.flow];
    if |f.queue| < FLOW_QUEUE {
      QueuedOK(f, x.p);
      FlowsKeptOne(s, Do(s, Enqueue(l)), x.flow, f.(queue := f.queue + [x.p]));
    }
  }

  lemma FlowsKeptAct(s: State, id: nat, a: Action)
    requires FlowsOK(s) && Enabled(s, Act(id, a))
    ensures FlowsOK(Do(s, Act(id, a)))
  {
    ShapeKept(s.flows[id], a);
    CountsKept(s.flows[id], a);
    FlowsKeptOne(s, Do(s, Act(id, a)), id, Local(s.flows[id], a));
  }

  lemma FlowsKept(s: State, st: Step)
    requires FlowsOK(s) && Enabled(s, st)
    ensures FlowsOK(Do(s, st))
  {
    match st {
      case Arrive(k, size) => FlowsKeptArrive(s, k, size);
      case Enqueue(l) => FlowsKeptEnqueue(s, l);
      case CloseFlow(l, id) =>
        ClosedOK(s.flows[id]);
        FlowsKeptOne(s, Do(s, st), id, s.flows[id].(done := true));
      case Act(id, a) => FlowsKeptAct(s, id, a);
      case ServeReturns(_) =>
    }
  }

  /** One flow taken to g, whose pipe is what f's was with some packets dropped. */
  lemma OrderKeptChange(s: State, u: State, id: nat, f: Flow, g: Flow)
    requires OrderOK(s) && id < |s.flows| && f == s.flows[id]
    requires u.sent == s.sent && u.inflight == s.inflight && u.flows == s.flows[id := g] && g.key == f.key
    requires Increasing(Pipe(f)) ==> Increasing(Pipe(g))
    requires forall p :: p in Pipe(g) ==> p in Pipe(f)
    ensures OrderOK(u)
  {
    forall i | 0 <= i < |u.flows| ensures PipeOK(u.sent, u.flows[i]) {
      assert PipeOK(s.sent, s.flows[i]);
    }
    forall l | l in u.inflight ensures InFlightOK(u, l) {
      assert InFlightOK(s, l);
    }
  }

  lemma OrderKeptAct(s: State, id: nat, a: Action)
    requires FlowsOK(s) && OrderOK(s) && Enabled(s, Act(id, a))
    ensures OrderOK(Do(s, Act(id, a)))
  {
    var f := s.flows[id];
    var g := Local(f, a);
    OnlyRemoveKills(f, a);
    PipeKept(f, a);
    LosesKeeps(Pipe(f), Pipe(g), LostBy(f, a));
    OrderKeptChange(s, Do(s, Act(id, a)), id, f, g);
  }

  lemma RecordedMore(sent: seq<Sent>, x: Sent, k: Key, p: Packet)
    requires Recorded(sent, k, p)
    ensures Recorded(sent + [x], k, p)
  {
  }

  lemma PipeMore(sent: seq<Sent>, x: Sent, f: Flow)
    requires PipeOK(sent, f)
    ensures PipeOK(sent + [x], f)
  {
    forall p | p in Pipe(f) ensures Recorded(sent + [x], f.key, p) {
      RecordedMore(sent, x, f.key, p);
    }
  }

  lemma PipeNew(sent: seq<Sent>, k: Key)
    ensures PipeOK(sent, NewFlow(k)) && Pipe(NewFlow(k)) == []
  {
  }

  /** The packet just dispatched is newer than everything its flow holds. */
  lemma NewestPacket(sent: seq<Sent>, f: Flow, size: nat)
    requires PipeOK(sent, f)
    ensures Recorded(sent + [Sent(f.key, size)], f.key, Packet(|sent|, size))
    ensures forall p :: p in Pipe(f) ==> p.seqno < |sent|
  {
    forall p | p in Pipe(f) ensures p.seqno < |sent| {
      assert Recorded(sent, f.key, p);
    }
  }

  /** An older packet in flight stays in order when the log and the list of flows grow. */
  lemma InFlightGrows(s: State, u: State, m: nat, x: Sent)
    requires m in s.inflight && m in u.inflight && u.inflight[m] == s.inflight[m] && u.sent == s.sent + [x]
    requires InFlightOK(s, m) && s.flows <= u.flows
    ensures InFlightOK(u, m)
  {
    var y := s.inflight[m];
    assert u.flows[y.flow] == s.flows[y.flow];
    RecordedMore(s.sent, x, s.flows[y.flow].key, y.p);
  }

  lemma PipeArrive(s: State, u: State, k: Key, x: Sent, i: nat)
    requires OrderOK(s) && u.sent == s.sent + [x] && i < |u.flows|
    requires u.flows == s.flows || u.flows == s.flows + [NewFlow(k)]
    ensures PipeOK(u.sent, u.flows[i])
  {
    if i < |s.flows| {
      assert u.flows[i] == s.flows[i] && PipeOK(s.sent, s.flows[i]);
      PipeMore(s.sent, x, s.flows[i]);
    } else {
      PipeNew(u.sent, k);
    }
  }

  lemma OrderKeptArrive(s: State, k: Key, size: nat)
    requires TableOK(s) && OrderOK(s) && Enabled(s, Arrive(k, size))
    ensures OrderOK(Do(s, Arrive(k, size)))
  {
    var u := Do(s, Arrive(k, size));
    forall i | 0 <= i < |u.flows| ensures PipeOK(u.sent, u.flows[i]) {
      PipeArrive(s, u, k, Sent(k, size), i);
    }
    forall m | m in u.inflight ensures InFlightOK(u, m) {
      ArriveInFlight(s, k, size, m);
    }
  }

  lemma ArriveInFlight(s: State, k: Key, size: nat, m: nat)
    requires TableOK(s) && OrderOK(s) && Enabled(s, Arrive(k, size)) && m in Do(s, Arrive(k, size)).inflight
    ensures InFlightOK(Do(s, Arrive(k, size)), m)
  {
    var u := Do(s, Arrive(k, size));
    if m in s.inflight {
      assert m != k.listener && s.flows <= u.flows;
      InFlightGrows(s, u, m, Sent(k, size));
    } else if k in s.table {
      ArriveOld(s, k, size);
    } else {
      ArriveNew(s, k, size);
    }
  }

  lemma ArriveOld(s: State, k: Key, size: nat)
    requires TableOK(s) && OrderOK(s) && Enabled(s, Arrive(k, size)) && k in s.table
    ensures var u := Do(s, Arrive(k, size)); k.listener in u.inflight && InFlightOK(u, k.listener)
  {
    NewestPacket(s.sent, s.flows[s.table[k]], size);
  }

  lemma ArriveNew(s: State, k: Key, size: nat)
    requires Enabled(s, Arrive(k, size)) && k !in s.table && |s.table| < MAX_FLOWS
    ensures var u := Do(s, Arrive(k, size)); k.listener in u.inflight && InFlightOK(u, k.listener)
  {
    PipeNew(s.sent + [Sent(k, size)], k);
  }

  lemma PipeQueued(f: Flow, p: Packet)
    ensures Pipe(f.(queue := f.queue + [p])) == Pipe(f) + [p]
  {
  }

  lemma PipeExtended(sent: seq<Sent>, f: Flow, p: Packet)
    requires PipeOK(sent, f) && Recorded(sent, f.key, p)
    requires forall q :: q in Pipe(f) ==> q.seqno < p.seqno
    ensures PipeOK(sent, f.(queue := f.queue + [p]))
  {
    PipeQueued(f, p);
    var a := Pipe(f);
    forall i, j | 0 <= i < j < |a + [p]| ensures (a + [p])[i].seqno < (a + [p])[j].seqno {
      assert a[i] in a;
    }
  }

  /** A packet in flight does not mind what happens to other flows. */
  lemma InFlightElsewhere(s: State, u: State, m: nat)
    requires m in s.inflight && m in u.inflight && u.inflight[m] == s.inflight[m] && u.sent == s.sent
    requires |u.flows| == |s.flows| && InFlightOK(s, m)
    requires u.flows[s.inflight[m].flow] == s.flows[s.inflight[m].flow]
    ensures InFlightOK(u, m)
  {
  }

  /** A queued packet leaves those of the other listeners in order. */
  lemma OthersInFlight(s: State, u: State, l: nat, m: nat, g: Flow)
    requires l in s.inflight && m in s.inflight && m != l && InFlightOK(s, l) && InFlightOK(s, m)
    requires u.sent == s.sent && u.inflight == s.inflight - {l} && u.flows == s.flows[s.inflight[l].flow := g]
    ensures m in u.inflight && InFlightOK(u, m)
  {
    assert s.inflight[m].flow != s.inflight[l].flow;
    InFlightElsewhere(s, u, m);
  }

  lemma PipesWith(s: State, u: State, id: nat, g: Flow)
    requires OrderOK(s) && id < |s.flows| && u.sent == s.sent && u.flows == s.flows[id := g] && PipeOK(s.sent, g)
    ensures forall i :: 0 <= i < |u.flows| ==> PipeOK(u.sent, u.flows[i])
  {
  }

  lemma OrderKeptQueued(s: State, u: State, l: nat, g: Flow)
    requires OrderOK(s) && l in s.inflight && s.inflight[l].flow < |s.flows| && PipeOK(s.sent, g)
    requires u.sent == s.sent && u.inflight == s.inflight - {l} && u.flows == s.flows[s.inflight[l].flow := g]
    ensures OrderOK(u)
  {
    PipesWith(s, u, s.inflight[l].flow, g);
    forall m | m in u.inflight ensures InFlightOK(u, m) {
      OthersInFlight(s, u, l, m, g);
    }
  }

  lemma OrderKeptEnqueue(s: State, l: nat)
    requires OrderOK(s) && Enabled(s, Enqueue(l))
    ensures OrderOK(Do(s, Enqueue(l)))
  {
    var u := Do(s, Enqueue(l));
    var x := s.inflight[l];
    var f := s.flows[x.flow];
    assert InFlightOK(s, l);
    if |f.queue| < FLOW_QUEUE {
      PipeExtended(s.sent, f, x.p);
      OrderKeptQueued(s, u, l, f.(queue := f.queue + [x.p]));
    } else {
      assert u.flows == s.flows[x.flow := f];
      OrderKeptQueued(s, u, l, f);
    }
  }

  lemma PipeClosed(f: Flow)
    ensures Pipe(f.(done := true)) == Pipe(f)
  {
  }

  lemma OrderKeptClose(s: State, l: nat, id: nat)
    requires OrderOK(s) && Enabled(s, CloseFlow(l, id))
    ensures OrderOK(Do(s, CloseFlow(l, id)))
  {
    var f := s.flows[id];
    PipeClosed(f);
    OrderKeptChange(s, Do(s, CloseFlow(l, id)), id, f, f.(done := true));
  }

  lemma OrderKeptReturn(s: State, l: nat)
    requires OrderOK(s) && Enabled(s, ServeReturns(l))
    ensures OrderOK(Do(s, ServeReturns(l)))
  {
    var u := Do(s, ServeReturns(l));
    forall m | m in u.inflight ensures InFlightOK(u, m) {
      assert InFlightOK(s, m);
    }
  }

  lemma OrderKept(s: State, st: Step)
    requires TableOK(s) && FlowsOK(s) && OrderOK(s) && Enabled(s, st)
    ensures OrderOK(Do(s, st))
  {
    match st {
      case Arrive(k, size) => OrderKeptArrive(s, k, size);
      case Enqueue(l) => OrderKeptEnqueue(s, l);
      case ServeReturns(l) => OrderKeptReturn(s, l);
      case CloseFlow(l, id) => OrderKeptClose(s, l, id);
      case Act(id, a) => OrderKeptAct(s, id, a);
    }
  }

  // ---- records

  ghost predicate SamePhase(f: Flow, g: Flow)
  {
    && g.rec == f.rec
    && (f.rec != 0 ==> IsCounted(g.pc) == IsCounted(f.pc) && IsActive(g.pc) == IsActive(f.pc) && IsFinished(g.pc) == IsFinished(f.pc))
  }

  lemma SetupKeepsRecord(f: Flow, s: SetupStep)
    requires Shape(f) && AllowedSetup(f, s)
    ensures SamePhase(f, LocalSetup(f, s))
  {
  }

  predicate Closes(l: LoopStep) { l == ShutUp || l == ShutDown || l == PumpsDone || l == Remove }

  lemma ClosingKeepsRecord(f: Flow, l: LoopStep)
    requires Shape(f) && AllowedLoop(f, l) && Closes(l)
    ensures SamePhase(f, LocalLoop(f, l))
  {
  }

  lemma FlushKeepsRecord(f: Flow, l: LoopStep)
    requires Shape(f) && AllowedLoop(f, l) && !Closes(l)
    ensures SamePhase(f, LocalLoop(f, l))
  {
  }

  lemma LoopKeepsRecord(f: Flow, l: LoopStep)
    requires Shape(f) && AllowedLoop(f, l)
    ensures SamePhase(f, LocalLoop(f, l))
  {
    if Closes(l) {
      ClosingKeepsRecord(f, l);
    } else {
      FlushKeepsRecord(f, l);
    }
  }

  /** Steps outside the tracker leave a record where it is. */
  lemma OtherStepsKeepRecord(f: Flow, a: Action)
    requires Shape(f) && Allowed(f, a) && !a.Record?
    ensures SamePhase(f, Local(f, a))
  {
    match a {
      case Setup(x) => SetupKeepsRecord(f, x);
      case Loop(x) => LoopKeepsRecord(f, x);
      case _ => PumpsKeepPlace(f, a);
    }
  }

  lemma RecordStepPhase(f: Flow, r: RecordStep)
    requires Shape(f) && AllowedRecord(f, r)
    ensures var g := LocalRecord(f, r);
            match r
            case AssignId(id) => f.rec == 0 && g.rec == id && !IsCounted(g.pc) && !IsActive(g.pc) && !IsFinished(g.pc)
            case CountTotal => g.rec == f.rec != 0 && !IsCounted(f.pc) && IsCounted(g.pc) && !IsActive(g.pc) && !IsFinished(g.pc) && !IsActive(f.pc) && !IsFinished(f.pc)
            case Insert => g.rec == f.rec != 0 && IsCounted(f.pc) && IsActive(g.pc) && !IsFinished(g.pc) && !IsActive(f.pc) && !IsFinished(f.pc)
            case CountFailed => g.rec == f.rec != 0 && IsActive(f.pc) && IsActive(g.pc) && !IsFinished(f.pc) && !IsFinished(g.pc)
            case Retire => g.rec == f.rec != 0 && IsActive(f.pc) && !IsFinished(f.pc) && IsFinished(g.pc) && !IsActive(g.pc)
  {
  }

  lemma LogKept(t: T.Log, f: Flow, r: RecordStep)
    requires LogOK(t) && RecordOK(t, f) && Shape(f) && AllowedRecord(f, r)
    ensures LogOK(LogStep(t, f, r))
  {
    RecordStepPhase(f, r);
    match r {
      case AssignId(_) =>
      case CountTotal =>
      case Insert => assert f.rec !in T.Elems(t.finished);
      case CountFailed =>
      case Retire =>
        T.RetireRecent(t, f.rec);
        assert f.rec !in T.Elems(t.finished);
        T.ElemsPush(t.finished, f.rec);
    }
  }

  /** Another flow's record does not move. */
  lemma OthersKept(t: T.Log, f: Flow, r: RecordStep, g: Flow)
    requires RecordOK(t, f) && Shape(f) && AllowedRecord(f, r) && RecordOK(t, g)
    requires g.rec != 0 ==> g.rec != f.rec
    ensures RecordOK(LogStep(t, f, r), g)
  {
    RecordStepPhase(f, r);
    assert r.Retire? ==> (g.rec in t.finished + [f.rec] <==> g.rec in t.finished || g.rec == f.rec);
  }

  lemma OwnKept(t: T.Log, f: Flow, r: RecordStep)
    requires LogOK(t) && RecordOK(t, f) && Shape(f) && AllowedRecord(f, r)
    requires r.AssignId? ==> r.id == t.next + 1 && r.id !in t.counted
    ensures RecordOK(LogStep(t, f, r), LocalRecord(f, r))
  {
    RecordStepPhase(f, r);
    if r.AssignId? {
      assert r.id in T.Elems(t.finished) <==> r.id in t.finished;
    }
  }

  /** The records of all flows after one of them took its step. */
  lemma EachRecordKept(s: State, id: nat, r: RecordStep, i: nat)
    requires FlowsOK(s) && RecordsOK(s) && Enabled(s, Act(id, Record(r))) && i < |s.flows|
    ensures RecordOK(LogStep(s.log, s.flows[id], r), if i == id then LocalRecord(s.flows[id], r) else s.flows[i])
  {
    var f := s.flows[id];
    assert RecordOK(s.log, f) && RecordOK(s.log, s.flows[i]);
    if i == id {
      OwnKept(s.log, f, r);
    } else {
      OthersKept(s.log, f, r, s.flows[i]);
    }
  }

  lemma OwnedStill(flows: seq<Flow>, id: nat, g: Flow, x: nat)
    requires id < |flows| && Owned(flows, x) && (flows[id].rec == x ==> g.rec == x)
    ensures Owned(flows[id := g], x)
  {
    var i :| 0 <= i < |flows| && flows[i].rec == x;
    assert flows[id := g][i].rec == x;
  }

  lemma EachCountedOwned(s: State, id: nat, r: RecordStep, x: nat)
    requires FlowsOK(s) && RecordsOK(s) && Enabled(s, Act(id, Record(r)))
    requires x in LogStep(s.log, s.flows[id], r).counted
    ensures Owned(s.flows[id := LocalRecord(s.flows[id], r)], x)
  {
    var g := LocalRecord(s.flows[id], r);
    RecordStepPhase(s.flows[id], r);
    if x in s.log.counted {
      OwnedStill(s.flows, id, g, x);
    } else {
      assert s.flows[id := g][id].rec == x;
    }
  }

  /** Record numbers stay distinct: a new one is larger than all there are. */
  lemma DistinctKept(s: State, id: nat, r: RecordStep)
    requires FlowsOK(s) && RecordsOK(s) && Enabled(s, Act(id, Record(r)))
    ensures var flows := s.flows[id := LocalRecord(s.flows[id], r)];
            forall i, j :: 0 <= i < j < |flows| && flows[i].rec != 0 ==> flows[i].rec != flows[j].rec
  {
    RecordStepPhase(s.flows[id], r);
    assert forall i :: 0 <= i < |s.flows| ==> RecordOK(s.log, s.flows[i]);
  }

  lemma RecordsKeptRecord(s: State, id: nat, r: RecordStep)
    requires FlowsOK(s) && RecordsOK(s) && Enabled(s, Act(id, Record(r)))
    ensures RecordsOK(Do(s, Act(id, Record(r))))
  {
    var u := Do(s, Act(id, Record(r)));
    LogKept(s.log, s.flows[id], r);
    forall i | 0 <= i < |u.flows| ensures RecordOK(u.log, u.flows[i]) {
      EachRecordKept(s, id, r, i);
    }
    DistinctKept(s, id, r);
    forall x | x in u.log.counted ensures Owned(u.flows, x) {
      EachCountedOwned(s, id, r, x);
    }
  }

  lemma RecordsKeptOther(s: State, u: State)
    requires RecordsOK(s) && u.log == s.log && |u.flows| >= |s.flows|
    requires forall i :: 0 <= i < |s.flows| ==> RecordOK(s.log, u.flows[i]) && u.flows[i].rec == s.flows[i].rec
    requires forall i :: |s.flows| <= i < |u.flows| ==> u.flows[i].rec == 0
    ensures RecordsOK(u)
  {
    forall i | 0 <= i < |u.flows| ensures RecordOK(u.log, u.flows[i]) {
    }
    forall i, j | 0 <= i < j < |u.flows| && u.flows[i].rec != 0 ensures u.flows[i].rec != u.flows[j].rec {
      assert j < |s.flows| ==> s.flows[i].rec != s.flows[j].rec;
    }
    forall x | x in u.log.counted ensures Owned(u.flows, x) {
      var i :| 0 <= i < |s.flows| && s.flows[i].rec == x;
      assert u.flows[i].rec == x;
    }
  }

  /** A step of one flow that leaves its record where it is. */
  lemma RecordsKeptOne(s: State, u: State, id: nat, g: Flow)
    requires RecordsOK(s) && id < |s.flows| && u.log == s.log && u.flows == s.flows[id := g]
    requires SamePhase(s.flows[id], g)
    ensures RecordsOK(u)
  {
    forall i | 0 <= i < |s.flows| ensures RecordOK(s.log, u.flows[i]) && u.flows[i].rec == s.flows[i].rec {
      assert RecordOK(s.log, s.flows[i]);
    }
    RecordsKeptOther(s, u);
  }

  lemma RecordsKeptArrive(s: State, k: Key, size: nat)
    requires RecordsOK(s) && Enabled(s, Arrive(k, size))
    ensures RecordsOK(Do(s, Arrive(k, size)))
  {
    var u := Do(s, Arrive(k, size));
    assert s.flows <= u.flows && |u.flows| <= |s.flows| + 1;
    forall i | 0 <= i < |s.flows| ensures RecordOK(s.log, u.flows[i]) && u.flows[i].rec == s.flows[i].rec {
      assert RecordOK(s.log, s.flows[i]) && u.flows[i] == s.flows[i];
    }
    RecordsKeptOther(s, u);
  }

  lemma RecordsKeptEnqueue(s: State, l: nat)
    requires RecordsOK(s) && Enabled(s, Enqueue(l))
    ensures RecordsOK(Do(s, Enqueue(l)))
  {
    var x := s.inflight[l];
    var f := s.flows[x.flow];
    if |f.queue| < FLOW_QUEUE {
      RecordsKeptOne(s, Do(s, Enqueue(l)), x.flow, f.(queue := f.queue + [x.p]));
    }
  }

  lemma RecordsKeptAct(s: State, id: nat, a: Action)
    requires FlowsOK(s) && RecordsOK(s) && Enabled(s, Act(id, a)) && !a.Record?
    ensures RecordsOK(Do(s, Act(id, a)))
  {
    OtherStepsKeepRecord(s.flows[id], a);
    RecordsKeptOne(s, Do(s, Act(id, a)), id, Local(s.flows[id], a));
  }

  lemma RecordsKept(s: State, st: Step)
    requires FlowsOK(s) && RecordsOK(s) && Enabled(s, st)
    ensures RecordsOK(Do(s, st))
  {
    match st {
      case Arrive(k, size) => RecordsKeptArrive(s, k, size);
      case Enqueue(l) => RecordsKeptEnqueue(s, l);
      case CloseFlow(_, id) => RecordsKeptOne(s, Do(s, st), id, s.flows[id].(done := true));
      case Act(id, a) => if a.Record? { RecordsKeptRecord(s, id, a.r); } else { RecordsKeptAct(s, id, a); }
      case ServeReturns(_) =>
    }
  }

  lemma DoneStaysSetup(f: Flow, a: Action)
    requires Allowed(f, a) && f.done && (a.Setup? || a.Record? || a.Loop?)
    ensures Local(f, a).done
  {
  }

  lemma DoneStays(f: Flow, a: Action)
    requires Allowed(f, a) && f.done
    ensures Local(f, a).done
  {
    if a.Setup? || a.Record? || a.Loop? {
      DoneStaysSetup(f, a);
    }
  }

  lemma HandledKept(s: State, st: Step, l: nat, id: nat)
    requires Enabled(s, st) && Found(Do(s, st), l, id)
    requires Found(s, l, id) ==> Handled(s, l, id)
    requires s.closers.Keys == s.snapshot.Keys
    ensures Handled(Do(s, st), l, id)
  {
    if st.Act? {
      HandledKeptAct(s, st.id, st.a, l, id);
    }
  }

  lemma HandledKeptAct(s: State, i: nat, a: Action, l: nat, id: nat)
    requires Enabled(s, Act(i, a)) && Found(Do(s, Act(i, a)), l, id)
    requires Found(s, l, id) ==> Handled(s, l, id)
    requires s.closers.Keys == s.snapshot.Keys
    ensures Handled(Do(s, Act(i, a)), l, id)
  {
    if i == id && s.flows[id].done {
      DoneStays(s.flows[id], a);
    }
  }

  lemma ShutdownKept(s: State, st: Step)
    requires ShutdownOK(s) && s.closers.Keys == s.snapshot.Keys && Enabled(s, st)
    ensures ShutdownOK(Do(s, st))
  {
    forall l, id | Found(Do(s, st), l, id) ensures Handled(Do(s, st), l, id) {
      HandledKept(s, st, l, id);
    }
  }

  lemma SnapshotKept(s: State, st: Step)
    requires s.closers.Keys == s.snapshot.Keys && Enabled(s, st)
    ensures Do(s, st).closers.Keys == Do(s, st).snapshot.Keys
  {
  }

  lemma InvKept(s: State, st: Step)
    requires Inv(s) && Enabled(s, st)
    ensures Inv(Do(s, st))
  {
    TableKept(s, st);
    FlowsKept(s, st);
    OrderKept(s, st);
    RecordsKept(s, st);
    ShutdownKept(s, st);
    SnapshotKept(s, st);
  }

  /** The invariants hold in every reachable state. */
  lemma {:induction false} ReachableInv(steps: seq<Step>, s: State)
    requires Reaches(steps, s)
    ensures Inv(s)
  {
    if steps != [] {
      var before :| Reaches(steps[..|steps| - 1], before) && StepTo(before, steps[|steps| - 1], s);
      ReachableInv(steps[..|steps| - 1], before);
      InvKept(before, steps[|steps| - 1]);
    }
  }

  /** The single invariants, for the theorems that need only one. */
  lemma ReachableTable(steps: seq<Step>, s: State)
    requires Reaches(steps, s)
    ensures TableOK(s)
  {
    ReachableInv(steps, s);
  }

  lemma ReachableFlow(steps: seq<Step>, s: State, id: nat)
    requires Reaches(steps, s) && id < |s.flows|
    ensures Shape(s.flows[id]) && Counts(s.flows[id]) && PipeOK(s.sent, s.flows[id])
  {
    ReachableInv(steps, s);
  }

  lemma ReachableRecords(steps: seq<Step>, s: State)
    requires Reaches(steps, s)
    ensures RecordsOK(s)
  {
    ReachableInv(steps, s);
  }

  lemma ReachableShutdown(steps: seq<Step>, s: State)
    requires Reaches(steps, s)
    ensures ShutdownOK(s)
  {
    ReachableInv(steps, s);
  }

  // -------------------------------------------------------------- theorems

  /** At most 8192 flows, and one live flow per client and destination. */
  lemma BoundedAndUnique(steps: seq<Step>, s: State, i: nat, j: nat)
    requires Reaches(steps, s)
    requires i < |s.flows| && j < |s.flows| && s.flows[i].pc != Dead && s.flows[j].pc != Dead
    ensures |s.table| <= MAX_FLOWS
    ensures s.flows[i].key == s.flows[j].key ==> i == j
    ensures s.flows[i].key in s.table && s.table[s.flows[i].key] == i
  {
    ReachableTable(steps, s);
  }

  /** The records counted but not yet in the active list. */
  ghost function Midway(s: State): set<nat>
  {
    s.log.counted - s.log.active - T.Elems(s.log.finished)
  }

  /**
   Every record is added once and finished once by the time its goroutine
   returns. The total is active plus finished plus the adds under way, and
   recent lists the last 200 finishes.
   */
  lemma RecordsAddUp(steps: seq<Step>, s: State)
    requires Reaches(steps, s)
    ensures s.log.total == |s.log.active| + |s.log.finished| + |Midway(s)|
    ensures T.Distinct(s.log.finished) && s.log.recent == T.Last(s.log.finished, 200)
    ensures forall x :: x in Midway(s) ==> exists id :: 0 <= id < |s.flows| && s.flows[id].rec == x && s.flows[id].pc.AddActive?
    ensures forall id :: 0 <= id < |s.flows| && s.flows[id].pc == Dead ==>
              s.flows[id].rec in s.log.finished && s.flows[id].rec !in s.log.active
    ensures forall i, j :: 0 <= i < j < |s.flows| && s.flows[i].rec != 0 ==> s.flows[i].rec != s.flows[j].rec
  {
    ReachableRecords(steps, s);
    var t := s.log;
    T.DistinctCard(t.finished);
    assert t.counted == t.active + T.Elems(t.finished) + Midway(s);
    forall x | x in Midway(s) ensures exists id :: 0 <= id < |s.flows| && s.flows[id].rec == x && s.flows[id].pc.AddActive? {
      var id :| 0 <= id < |s.flows| && s.flows[id].rec == x;
      assert RecordOK(t, s.flows[id]);
      assert x !in t.finished by { assert x !in T.Elems(t.finished); }
    }
    forall id | 0 <= id < |s.flows| && s.flows[id].pc == Dead
      ensures s.flows[id].rec in t.finished && s.flows[id].rec !in t.active
    {
      ReachableFlow(steps, s, id);
      assert RecordOK(t, s.flows[id]);
    }
  }

  lemma {:induction false} QueueOnly(ws: seq<Write>)
    requires forall w :: w in ws ==> w.FromQueue?
    ensures |QueueWrites(ws)| == |ws|
    ensures forall i :: 0 <= i < |ws| ==> ws[i] == FromQueue(QueueWrites(ws)[i])
  {
    if ws != [] {
      QueueOnly(ws[..|ws| - 1]);
    }
  }

  /**
   The datagrams written upstream from the queue are dispatched datagrams of this
   flow, in order and none twice; when the reply socket yielded nothing they are
   all that was written.
   */
  lemma WrittenInOrder(steps: seq<Step>, s: State, id: nat)
    requires Reaches(steps, s) && id < |s.flows|
    ensures Increasing(QueueWrites(s.flows[id].written))
    ensures forall p :: p in QueueWrites(s.flows[id].written) ==> Recorded(s.sent, s.flows[id].key, p)
    ensures (forall w :: w in s.flows[id].written ==> w.FromQueue?) ==>
              |QueueWrites(s.flows[id].written)| == |s.flows[id].written|
              && forall i :: 0 <= i < |s.flows[id].written| ==> s.flows[id].written[i] == FromQueue(QueueWrites(s.flows[id].written)[i])
  {
    ReachableFlow(steps, s, id);
    var f := s.flows[id];
    WrittenPrefix(s.sent, f);
    if forall x :: x in f.written ==> x.FromQueue? {
      QueueOnly(f.written);
    }
  }

  lemma WrittenPrefix(sent: seq<Sent>, f: Flow)
    requires PipeOK(sent, f)
    ensures Increasing(QueueWrites(f.written))
    ensures forall p :: p in QueueWrites(f.written) ==> Recorded(sent, f.key, p)
  {
    var w, a := QueueWrites(f.written), Pipe(f);
    PipeStarts(w, Held(f), f.pending, f.queue);
    assert forall i :: 0 <= i < |w| ==> a[i] == w[i];
    forall p | p in w ensures Recorded(sent, f.key, p) {
      var i :| 0 <= i < |w| && w[i] == p;
      assert a[i] in a;
    }
  }

  lemma PipeStarts(w: seq<Packet>, h: seq<Packet>, n: seq<Packet>, q: seq<Packet>)
    ensures |w + h + n + q| >= |w| && (w + h + n + q)[..|w|] == w
  {
  }

  /** Once the goroutine has reached its finish, the counters are exact and both sockets are closed. */
  lemma CountersExact(steps: seq<Step>, s: State, id: nat)
    requires Reaches(steps, s) && id < |s.flows|
    ensures s.flows[id].upBytes <= SumSizes(s.flows[id].written) && s.flows[id].downBytes <= s.flows[id].returned
    ensures !InSetup(s.flows[id].pc) && !Running(s.flows[id].pc) ==>
              && s.flows[id].upBytes == SumSizes(s.flows[id].written)
              && s.flows[id].downBytes == s.flows[id].returned
              && !s.flows[id].upOpen && !s.flows[id].downOpen
  {
    ReachableFlow(steps, s, id);
  }

  /** When closeAll is through, every flow its listener found live is closed. */
  lemma ClosedAll(steps: seq<Step>, s: State, l: nat, id: nat)
    requires Reaches(steps, s)
    requires l in s.closers && s.closers[l] == {} && Found(s, l, id)
    ensures id < |s.flows| && s.flows[id].done
  {
    ReachableShutdown(steps, s);
    assert Handled(s, l, id);
  }

  // ------------------------------------------------------------- progress

  /** A step the flow can take by itself: a timer, the context's end or a failing call allows each. */
  function NextMove(f: Flow, next: nat): Action
    requires f.pc != Dead
  {
    match f.pc
    case Start => Setup(Named)
    case Sniffing => Setup(SniffEnd)
    case Resolved => Setup(Connect)
    case AddId(_) => Record(AssignId(next + 1))
    case AddTotal(_) => Record(CountTotal)
    case AddActive(_) => Record(Insert)
    case Dialing => Setup(Dial(false))
    case Replying => Setup(OpenReply(false))
    case FinishCount(_, _) => Record(CountFailed)
    case FinishList(_) => Record(Retire)
    case FailedWait => Setup(GiveUp)
    case Flushing => if f.pending != [] then Loop(Flush(false)) else Loop(StartPumps)
    case FlushCounting(_) => Loop(FlushCount)
    case Pumping => if f.done then Loop(LoopDone) else Loop(LoopClose)
    case CloseUp => Loop(ShutUp)
    case CloseDown => Loop(ShutDown)
    case Waiting => PumpMove(f)
    case Removing => Loop(Remove)
    case Dead => Loop(Remove)
  }

  /** With the sockets closed every pump winds down. */
  function PumpMove(f: Flow): Action
  {
    match f.out
    case QIdle => Out(OutStop)
    case QHolding(_) => Out(OutWrite(false))
    case QCounting(_) => Out(OutCount)
    case _ =>
      match f.reply
      case CReading => Reply(ReadFail)
      case CGot(_) => Reply(CopyWrite(false))
      case CCounting(_) => Reply(CopyCount)
      case _ =>
        match f.back
        case CReading => Back(ReadFail)
        case CGot(_) => Back(CopyWrite(false))
        case CCounting(_) => Back(CopyCount)
        case _ => Loop(PumpsDone)
  }

  function Rank(pc: PC): nat
  {
    match pc
    case Start => 22
    case Sniffing => 21
    case Resolved => 20
    case AddId(_) => 19
    case AddTotal(_) => 18
    case AddActive(_) => 17
    case Dialing => 16
    case Replying => 15
    case Flushing => 13
    case FlushCounting(_) => 14
    case Pumping => 12
    case CloseUp => 11
    case CloseDown => 10
    case Waiting => 9
    case FinishCount(_, inSetup) => if inSetup then 6 else 5
    case FinishList(inSetup) => if inSetup then 4 else 3
    case FailedWait => 2
    case Removing => 1
    case Dead => 0
  }

  function CopyRank(c: CopyPump): nat { match c case CCounting(_) => 3 case CReading => 2 case CGot(_) => 1 case _ => 0 }

  function OutRank(o: QueuePump): nat { match o case QCounting(_) => 3 case QIdle => 2 case QHolding(_) => 1 case _ => 0 }

  /** How far a flow is from its end. */
  function Distance(f: Flow): (nat, nat, nat)
  {
    (Rank(f.pc), |f.pending| + if f.pc == Pumping && !f.done then 1 else 0, OutRank(f.out) + CopyRank(f.reply) + CopyRank(f.back))
  }

  predicate Closer(a: (nat, nat, nat), b: (nat, nat, nat))
  {
    a.0 < b.0 || (a.0 == b.0 && (a.1 < b.1 || (a.1 == b.1 && a.2 < b.2)))
  }

  /** No flow ever gets stuck: each live one has a step that brings it nearer its end. */
  lemma NoFlowStuck(steps: seq<Step>, s: State, id: nat)
    requires Reaches(steps, s) && id < |s.flows| && s.flows[id].pc != Dead
    ensures var a := NextMove(s.flows[id], s.log.next);
            Enabled(s, Act(id, a)) && Closer(Distance(Local(s.flows[id], a)), Distance(s.flows[id]))
  {
    ReachableFlow(steps, s, id);
    MoveCloser(s.flows[id], s.log.next);
  }

  lemma MoveCloser(f: Flow, next: nat)
    requires Shape(f) && f.pc != Dead
    ensures Allowed(f, NextMove(f, next)) && Closer(Distance(Local(f, NextMove(f, next))), Distance(f))
  {
    if f.pc == Waiting {
      MoveCloserWaiting(f);
    } else if InSetup(f.pc) {
      MoveCloserSetup(f, next);
    } else {
      MoveCloserLoop(f, next);
    }
  }

  lemma MoveCloserWaiting(f: Flow)
    requires Shape(f) && f.pc == Waiting
    ensures Allowed(f, PumpMove(f)) && Closer(Distance(Local(f, PumpMove(f))), Distance(f))
  {
    assert f.done;
  }

  lemma MoveCloserSetup(f: Flow, next: nat)
    requires Shape(f) && f.pc != Dead && f.pc != Waiting && InSetup(f.pc)
    ensures Allowed(f, NextMove(f, next)) && Closer(Distance(Local(f, NextMove(f, next))), Distance(f))
  {
  }

  lemma MoveCloserLoop(f: Flow, next: nat)
    requires Shape(f) && f.pc != Dead && f.pc != Waiting && !InSetup(f.pc)
    ensures Allowed(f, NextMove(f, next)) && Closer(Distance(Local(f, NextMove(f, next))), Distance(f))
  {
  }

  // -------------------------------------------- progress under every schedule

  /** The main goroutine's steps, but for waiting: dropping a failed flow's packets, closing again. */
  predicate IsTurn(a: Action)
  {
    match a
    case Setup(x) => x != Drain
    case Record(_) => true
    case Loop(x) => x != LoopClose
    case _ => false
  }

  /** The steps the main goroutine can still take: two for each datagram it holds, three for each it may sniff. */
  function Work(f: Flow): int
  {
    Rank(f.pc) + 2 * |f.pending| + 3 * (MAX_SNIFFED - f.sniffed)
  }

  const ALL_WORK: nat := 70

  /** Every turn uses up work, whatever the outside answers, and no other step makes any. */
  lemma WorkFalls(f: Flow, a: Action)
    requires Shape(f) && Allowed(f, a)
    ensures Work(Local(f, a)) <= Work(f) - if IsTurn(a) then 1 else 0
  {
    match a {
      case Setup(x) => WorkFallsSetup(f, x);
      case Record(x) => WorkFallsRecord(f, x);
      case Loop(x) => WorkFallsLoop(f, x);
      case _ => PumpsKeepPlace(f, a);
    }
  }

  lemma WorkFallsRecord(f: Flow, x: RecordStep)
    requires AllowedRecord(f, x)
    ensures Work(LocalRecord(f, x)) <= Work(f) - 1
  {
  }

  lemma WorkFallsSetup(f: Flow, x: SetupStep)
    requires Shape(f) && AllowedSetup(f, x)
    ensures Work(LocalSetup(f, x)) <= Work(f) - if x == Drain then 0 else 1
  {
  }

  lemma WorkFallsLoop(f: Flow, x: LoopStep)
    requires Shape(f) && AllowedLoop(f, x)
    ensures Work(LocalLoop(f, x)) <= Work(f) - if x == LoopClose then 0 else 1
  {
  }

  function PumpWork(f: Flow): nat { OutRank(f.out) + CopyRank(f.reply) + CopyRank(f.back) }

  /** Behind the closed sockets every step is one nearer the end, the pumps' too. */
  lemma ClosingEnds(f: Flow, a: Action)
    requires Shape(f) && Allowed(f, a) && f.pc == Waiting
    ensures var g := Local(f, a);
            Work(g) < Work(f) || (g.pc == Waiting && Work(g) == Work(f) && PumpWork(g) < PumpWork(f))
  {
  }

  /** The turn a step is for flow id. */
  function TurnOf(st: Step, id: nat): nat { if st.Act? && st.id == id && IsTurn(st.a) then 1 else 0 }

  /** The turns of a flow's main goroutine in a run. */
  function Turns(steps: seq<Step>, id: nat): nat
  {
    if steps == [] then 0 else Turns(steps[..|steps| - 1], id) + TurnOf(steps[|steps| - 1], id)
  }

  /** A flow's work, all of it while it is not there. */
  function WorkAt(s: State, id: nat): int { if id < |s.flows| then Work(s.flows[id]) else ALL_WORK }

  lemma WorkStepAct(before: State, i: nat, a: Action, id: nat)
    requires Enabled(before, Act(i, a)) && (id < |before.flows| ==> Shape(before.flows[id]))
    ensures WorkAt(Do(before, Act(i, a)), id) + TurnOf(Act(i, a), id) <= WorkAt(before, id)
  {
    if i == id {
      WorkFalls(before.flows[id], a);
    }
  }

  lemma WorkStep(before: State, last: Step, id: nat)
    requires Enabled(before, last) && (id < |before.flows| ==> Shape(before.flows[id]))
    ensures WorkAt(Do(before, last), id) + TurnOf(last, id) <= WorkAt(before, id)
  {
    if last.Act? {
      WorkStepAct(before, last.id, last.a, id);
    }
  }

  lemma LastStep(steps: seq<Step>, s: State, id: nat) returns (before: State)
    requires Reaches(steps, s) && steps != []
    ensures Reaches(steps[..|steps| - 1], before)
    ensures WorkAt(s, id) + TurnOf(steps[|steps| - 1], id) <= WorkAt(before, id)
  {
    var init, last := steps[..|steps| - 1], steps[|steps| - 1];
    before :| Reaches(init, before) && StepTo(before, last, s);
    if id < |before.flows| {
      ReachableFlow(init, before, id);
    }
    WorkStep(before, last, id);
  }

  /** What a flow's goroutine took and can still take never adds up to more than at its start. */
  lemma {:induction false} WorkConserved(steps: seq<Step>, s: State, id: nat)
    requires Reaches(steps, s)
    ensures Turns(steps, id) + WorkAt(s, id) <= ALL_WORK
    decreases |steps|
  {
    if steps != [] {
      var before := LastStep(steps, s, id);
      WorkConserved(steps[..|steps| - 1], before, id);
    }
  }

  /** In every run, under every schedule and whatever the calls answer, at most 70 turns, the last one the end. */
  lemma TurnsBounded(steps: seq<Step>, s: State, id: nat)
    requires Reaches(steps, s) && id < |s.flows|
    ensures Turns(steps, id) <= ALL_WORK
    ensures Turns(steps, id) == ALL_WORK ==> s.flows[id].pc == Dead
  {
    WorkConserved(steps, s, id);
    ReachableFlow(steps, s, id);
  }
}
