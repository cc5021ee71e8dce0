/** Which flows count as failed: the tracker's counter against the flows of a run. */
module UdpFailures {
  import opened UdpFlows
  import opened UdpRuns
  import T = Tracker

  /** A pump's call that fails although its socket is open. */
  predicate BrokenCall(f: Flow, a: Action)
  {
    match a
    case Out(o) => o == OutWrite(false) && f.upOpen
    case Reply(c) => (c == ReadFail && f.downOpen) || (c == CopyWrite(false) && f.upOpen)
    case Back(c) => (c == ReadFail && f.upOpen) || (c == CopyWrite(false) && f.downOpen)
    case _ => false
  }

  lemma ErrSetup(f: Flow, x: SetupStep) requires AllowedSetup(f, x) ensures LocalSetup(f, x).err == f.err {}

  lemma ErrRecord(f: Flow, x: RecordStep) requires AllowedRecord(f, x) ensures LocalRecord(f, x).err == f.err {}

  lemma ErrLoop(f: Flow, x: LoopStep) requires AllowedLoop(f, x) ensures LocalLoop(f, x).err == f.err {}

  lemma ErrOut(f: Flow, x: OutStep)
    requires AllowedOut(f, x)
    ensures LocalOut(f, x).err == (f.err || BrokenCall(f, Out(x)))
  {
  }

  lemma ErrReply(f: Flow, x: CopyStep)
    requires Allowed(f, Reply(x))
    ensures LocalReply(f, x).err == (f.err || BrokenCall(f, Reply(x)))
  {
  }

  lemma ErrBack(f: Flow, x: CopyStep)
    requires Allowed(f, Back(x))
    ensures LocalBack(f, x).err == (f.err || BrokenCall(f, Back(x)))
  {
  }

  /** An error is kept exactly when a pump's call fails on an open socket; closing the sockets makes none. */
  lemma ErrMeaning(f: Flow, a: Action)
    requires Allowed(f, a)
    ensures Local(f, a).err == (f.err || BrokenCall(f, a))
  {
    match a {
      case Setup(x) => ErrSetup(f, x);
      case Record(x) => ErrRecord(f, x);
      case Loop(x) => ErrLoop(f, x);
      case Out(x) => ErrOut(f, x);
      case Reply(x) => ErrReply(f, x);
      case Back(x) => ErrBack(f, x);
    }
  }

  // ------------------------------------------------------------ the counter

  /** Its setup failed, so that no pump ever ran, or a pump broke. */
  predicate Broke(f: Flow) { PumpsOff(f) || f.err }

  /** The flow's record has been finished as failed, or is about to be retired as such. */
  predicate Failed(f: Flow) { (f.pc.FinishList? || IsFinished(f.pc)) && Broke(f) }

  /** The finish knows whether the flow broke. */
  predicate FinishOK(f: Flow) { f.pc.FinishCount? ==> f.pc.errored == Broke(f) }

  ghost function FailedCount(flows: seq<Flow>): nat
  {
    if flows == [] then 0 else FailedCount(flows[..|flows| - 1]) + if Failed(flows[|flows| - 1]) then 1 else 0
  }

  lemma {:induction false} CountWith(flows: seq<Flow>, id: nat, g: Flow)
    requires id < |flows|
    ensures FailedCount(flows[id := g]) + (if Failed(flows[id]) then 1 else 0) == FailedCount(flows) + if Failed(g) then 1 else 0
  {
    var n, u := |flows| - 1, flows[id := g];
    if id < n {
      assert u[..n] == flows[..n][id := g];
      CountWith(flows[..n], id, g);
    } else {
      assert u[..n] == flows[..n];
    }
  }

  lemma CountMore(flows: seq<Flow>, f: Flow)
    ensures FailedCount(flows + [f]) == FailedCount(flows) + if Failed(f) then 1 else 0
  {
    assert (flows + [f])[..|flows|] == flows;
  }

  ghost predicate FailuresOK(s: State)
  {
    s.log.failed == FailedCount(s.flows) && forall id :: 0 <= id < |s.flows| ==> FinishOK(s.flows[id])
  }

  /** The step that counts a failure. */
  predicate Counts1(f: Flow, a: Action)
    requires Allowed(f, a)
  {
    a == Record(CountFailed) && f.pc.errored
  }

  lemma SetupFailures(f: Flow, x: SetupStep)
    requires Shape(f) && AllowedSetup(f, x)
    ensures FinishOK(LocalSetup(f, x)) && Failed(LocalSetup(f, x)) == Failed(f)
  {
  }

  lemma RecordFailures(f: Flow, x: RecordStep)
    requires Shape(f) && FinishOK(f) && AllowedRecord(f, x)
    ensures FinishOK(LocalRecord(f, x)) && Failed(LocalRecord(f, x)) == (Failed(f) || Counts1(f, Record(x)))
    ensures Counts1(f, Record(x)) ==> !Failed(f)
  {
  }

  lemma LoopFailures(f: Flow, x: LoopStep)
    requires Shape(f) && AllowedLoop(f, x)
    ensures FinishOK(LocalLoop(f, x)) && Failed(LocalLoop(f, x)) == Failed(f)
  {
  }

  lemma PumpFailures(f: Flow, a: Action)
    requires Shape(f) && Allowed(f, a) && (a.Out? || a.Reply? || a.Back?)
    ensures FinishOK(Local(f, a)) && Failed(Local(f, a)) == Failed(f)
  {
    PumpsKeepPlace(f, a);
    assert Running(f.pc) || PumpsOff(f) || AllStopped(f);
    assert !PumpsOff(f) && !AllStopped(f) by {
      match a {
        case Out(x) => assert f.out != QOff && f.out != QStopped;
        case Reply(x) => assert f.reply != COff && f.reply != CStopped;
        case Back(x) => assert f.back != COff && f.back != CStopped;
      }
    }
  }

  lemma ActFailures(f: Flow, a: Action)
    requires Shape(f) && FinishOK(f) && Allowed(f, a)
    ensures FinishOK(Local(f, a)) && Failed(Local(f, a)) == (Failed(f) || Counts1(f, a))
    ensures Counts1(f, a) ==> !Failed(f)
  {
    match a {
      case Setup(x) => SetupFailures(f, x);
      case Record(x) => RecordFailures(f, x);
      case Loop(x) => LoopFailures(f, x);
      case _ => PumpFailures(f, a);
    }
  }

  lemma LogFailures(t: T.Log, f: Flow, r: RecordStep)
    requires AllowedRecord(f, r)
    ensures LogStep(t, f, r).failed == t.failed + if Counts1(f, Record(r)) then 1 else 0
  {
  }

  lemma FailuresWith(s: State, u: State, id: nat, g: Flow)
    requires FailuresOK(s) && id < |s.flows| && u.flows == s.flows[id := g] && FinishOK(g)
    requires u.log.failed == s.log.failed + (if Failed(g) then 1 else 0) - (if Failed(s.flows[id]) then 1 else 0)
    ensures FailuresOK(u)
  {
    CountWith(s.flows, id, g);
  }

  lemma FailuresKeptAct(s: State, id: nat, a: Action)
    requires FlowsOK(s) && FailuresOK(s) && Enabled(s, Act(id, a))
    ensures FailuresOK(Do(s, Act(id, a)))
  {
    var f := s.flows[id];
    ActFailures(f, a);
    if a.Record? {
      LogFailures(s.log, f, a.r);
    }
    FailuresWith(s, Do(s, Act(id, a)), id, Local(f, a));
  }

  lemma FailuresKeptEnqueue(s: State, l: nat)
    requires FailuresOK(s) && Enabled(s, Enqueue(l))
    ensures FailuresOK(Do(s, Enqueue(l)))
  {
    var x := s.inflight[l];
    var f := s.flows[x.flow];
    if |f.queue| < FLOW_QUEUE {
      FailuresWith(s, Do(s, Enqueue(l)), x.flow, f.(queue := f.queue + [x.p]));
    }
  }

  lemma FailuresKeptArrive(s: State, k: Key, size: nat)
    requires FailuresOK(s) && Enabled(s, Arrive(k, size))
    ensures FailuresOK(Do(s, Arrive(k, size)))
  {
    CountMore(s.flows, NewFlow(k));
  }

  lemma FailuresKept(s: State, st: Step)
    requires FlowsOK(s) && FailuresOK(s) && Enabled(s, st)
    ensures FailuresOK(Do(s, st))
  {
    match st {
      case Arrive(k, size) => FailuresKeptArrive(s, k, size);
      case Enqueue(l) => FailuresKeptEnqueue(s, l);
      case CloseFlow(_, id) => FailuresWith(s, Do(s, st), id, s.flows[id].(done := true));
      case Act(id, a) => FailuresKeptAct(s, id, a);
      case ServeReturns(_) =>
    }
  }

  /** In every run the tracker has counted as failed exactly the finished flows that broke. */
  lemma {:induction false} FailuresExact(steps: seq<Step>, s: State)
    requires Reaches(steps, s)
    ensures FailuresOK(s)
    decreases |steps|
  {
    if steps != [] {
      var init, last := steps[..|steps| - 1], steps[|steps| - 1];
      var before :| Reaches(init, before) && StepTo(before, last, s);
      FailuresExact(init, before);
      ReachableInv(init, before);
      FailuresKept(before, last);
    }
  }
}
