/**
 What transparent UDP is for: a flow that is set up forwards what it holds, in order and
 counted, and its pumps run until it is closed.
 */
module UdpService {
  import opened UdpFlows
  import opened UdpRuns

  // -------------------------------------------------------- one flow's steps

  /** The steps, one after the other, lead from x to y. */
  ghost predicate Path<X(!new), A(!new)>(moves: (X, A, X) -> bool, x: X, steps: seq<A>, y: X)
    decreases |steps|
  {
    if steps == [] then y == x else exists z :: moves(x, steps[0], z) && Path(moves, z, steps[1..], y)
  }

  lemma {:induction false} PathOn<X(!new), A(!new)>(moves: (X, A, X) -> bool, x: X, a: seq<A>, y: X, b: seq<A>, z: X)
    requires Path(moves, x, a, y) && Path(moves, y, b, z)
    ensures Path(moves, x, a + b, z)
    decreases |a|
  {
    if a == [] {
      assert a + b == b;
    } else {
      var w :| moves(x, a[0], w) && Path(moves, w, a[1..], y);
      PathOn(moves, w, a[1..], y, b, z);
      assert (a + b)[0] == a[0] && (a + b)[1..] == a[1..] + b;
    }
  }

  const MOVES := (f: Flow, a: Action, g: Flow) => Allowed(f, a) && Local(f, a) == g

  /** These steps of a flow, one after the other, take f to g. */
  ghost predicate Plays(f: Flow, steps: seq<Action>, g: Flow) { Path(MOVES, f, steps, g) }

  lemma PlaysOn(f: Flow, a: seq<Action>, g: Flow, b: seq<Action>, h: Flow)
    requires Plays(f, a, g) && Plays(g, b, h)
    ensures Plays(f, a + b, h)
  {
    PathOn(MOVES, f, a, g, b, h);
  }

  lemma PlaysOne(f: Flow, a: Action)
    requires Allowed(f, a)
    ensures Plays(f, [a], Local(f, a))
  {
    assert [a][1..] == [];
    assert MOVES(f, [a][0], Local(f, a)) && Path(MOVES, Local(f, a), [], Local(f, a));
  }

  lemma PlaysThree(f: Flow, a: Action, b: Action, c: Action, g: Flow, h: Flow, end: Flow)
    requires Allowed(f, a) && g == Local(f, a) && Allowed(g, b) && h == Local(g, b) && Allowed(h, c) && end == Local(h, c)
    ensures Plays(f, [a, b, c], end)
  {
    PlaysOne(f, a);
    PlaysOne(g, b);
    PlaysOne(h, c);
    PlaysOn(g, [b], h, [c], end);
    PlaysOn(f, [a], g, [b] + [c], end);
    assert [a] + ([b] + [c]) == [a, b, c];
  }

  function Writes(q: seq<Packet>): (r: seq<Write>)
    ensures |r| == |q| && forall i :: 0 <= i < |q| ==> r[i] == FromQueue(q[i])
  {
    seq(|q|, i requires 0 <= i < |q| => FromQueue(q[i]))
  }

  function Bytes(q: seq<Packet>): nat { if q == [] then 0 else q[0].size + Bytes(q[1..]) }

  lemma {:induction false} BytesPlus(q: seq<Packet>, r: seq<Packet>)
    ensures Bytes(q + r) == Bytes(q) + Bytes(r)
  {
    if q == [] {
      assert q + r == r;
    } else {
      BytesPlus(q[1..], r);
      assert (q + r)[0] == q[0] && (q + r)[1..] == q[1..] + r;
    }
  }

  // ------------------------------------------------------------- the pumps

  /** f, once it has written these datagrams and counted them. */
  function Forwarded(f: Flow, q: seq<Packet>): Flow
  {
    f.(written := f.written + Writes(q), upBytes := f.upBytes + Bytes(q))
  }

  lemma ForwardedMore(f: Flow, q: seq<Packet>)
    requires q != []
    ensures Forwarded(f.(written := f.written + [FromQueue(q[0])], upBytes := f.upBytes + q[0].size), q[1..]) == Forwarded(f, q)
  {
    assert Writes(q) == [FromQueue(q[0])] + Writes(q[1..]);
    assert f.written + Writes(q) == f.written + [FromQueue(q[0])] + Writes(q[1..]);
  }

  lemma ForwardedNone(f: Flow)
    ensures Forwarded(f, []) == f
  {
    assert f.written + [] == f.written;
  }

  /** One round of the pump from the queue. */
  lemma OneForwarded(f: Flow)
    requires f.out == QIdle && f.upOpen && f.queue != []
    ensures var p := f.queue[0];
            Plays(f, [Out(OutTake), Out(OutWrite(true)), Out(OutCount)],
                  f.(queue := f.queue[1..], written := f.written + [FromQueue(p)], upBytes := f.upBytes + p.size))
  {
    var p := f.queue[0];
    var took := f.(out := QHolding(p), queue := f.queue[1..]);
    var wrote := took.(written := f.written + [FromQueue(p)], out := QCounting(p.size));
    PlaysThree(f, Out(OutTake), Out(OutWrite(true)), Out(OutCount), took, wrote,
               f.(queue := f.queue[1..], written := f.written + [FromQueue(p)], upBytes := f.upBytes + p.size));
  }

  /** While its calls succeed, the pump from the queue writes all of it, in order, and counts the bytes. */
  lemma {:induction false} QueueForwarded(f: Flow) returns (steps: seq<Action>)
    requires f.out == QIdle && f.upOpen
    ensures Plays(f, steps, Forwarded(f.(queue := []), f.queue))
    decreases |f.queue|
  {
    if f.queue == [] {
      ForwardedNone(f);
      assert f.(queue := []) == f;
      steps := [];
    } else {
      var p := f.queue[0];
      var g := f.(queue := f.queue[1..], written := f.written + [FromQueue(p)], upBytes := f.upBytes + p.size);
      OneForwarded(f);
      var more := QueueForwarded(g);
      assert Forwarded(g.(queue := []), g.queue) == Forwarded(f.(queue := []), f.queue) by {
        ForwardedMore(f.(queue := []), f.queue);
      }
      steps := [Out(OutTake), Out(OutWrite(true)), Out(OutCount)];
      PlaysOn(f, steps, g, more, Forwarded(f.(queue := []), f.queue));
      steps := steps + more;
    }
  }

  /** The reply socket's packets go upstream as well. */
  lemma ReplyForwarded(f: Flow, n: nat)
    requires f.upOpen && f.downOpen && f.reply == CReading
    ensures Plays(f, [Reply(Read(n)), Reply(CopyWrite(true)), Reply(CopyCount)],
                  f.(written := f.written + [FromReply(n)], upBytes := f.upBytes + n))
  {
    PlaysThree(f, Reply(Read(n)), Reply(CopyWrite(true)), Reply(CopyCount),
               f.(reply := CGot(n)), f.(written := f.written + [FromReply(n)], reply := CCounting(n)),
               f.(written := f.written + [FromReply(n)], upBytes := f.upBytes + n));
  }

  /** The destination's packets go to the client. */
  lemma BackForwarded(f: Flow, n: nat)
    requires f.upOpen && f.downOpen && f.back == CReading
    ensures Plays(f, [Back(Read(n)), Back(CopyWrite(true)), Back(CopyCount)],
                  f.(returned := f.returned + n, downBytes := f.downBytes + n))
  {
    PlaysThree(f, Back(Read(n)), Back(CopyWrite(true)), Back(CopyCount),
               f.(back := CGot(n)), f.(returned := f.returned + n, back := CCounting(n)),
               f.(returned := f.returned + n, downBytes := f.downBytes + n));
  }

  // ---------------------------------------------------------------- setup

  /** The pumps start. */
  function Pumps(f: Flow): Flow { f.(pc := Pumping, out := QIdle, reply := CReading, back := CReading) }

  /** One held datagram goes out. */
  lemma OneFlushed(f: Flow)
    requires f.pc == Flushing && f.pending != []
    ensures var p := f.pending[0];
            Plays(f, [Loop(Flush(true))] + [Loop(FlushCount)],
                  f.(pending := f.pending[1..], written := f.written + [FromQueue(p)], upBytes := f.upBytes + p.size))
  {
    var p := f.pending[0];
    var h := f.(pending := f.pending[1..], written := f.written + [FromQueue(p)], pc := FlushCounting(p.size));
    PlaysOne(f, Loop(Flush(true)));
    PlaysOne(h, Loop(FlushCount));
    PlaysOn(f, [Loop(Flush(true))], h, [Loop(FlushCount)],
            f.(pending := f.pending[1..], written := f.written + [FromQueue(p)], upBytes := f.upBytes + p.size));
  }

  /** What setup held goes out before the pumps start. */
  lemma {:induction false} HeldForwarded(f: Flow) returns (steps: seq<Action>)
    requires f.pc == Flushing
    ensures Plays(f, steps, Pumps(Forwarded(f.(pending := []), f.pending)))
    decreases |f.pending|
  {
    if f.pending == [] {
      ForwardedNone(f);
      assert f.(pending := []) == f;
      steps := [Loop(StartPumps)];
      PlaysOne(f, Loop(StartPumps));
    } else {
      var p := f.pending[0];
      var g := f.(pending := f.pending[1..], written := f.written + [FromQueue(p)], upBytes := f.upBytes + p.size);
      OneFlushed(f);
      var more := HeldForwarded(g);
      assert Forwarded(g.(pending := []), g.pending) == Forwarded(f.(pending := []), f.pending) by {
        ForwardedMore(f.(pending := []), f.pending);
      }
      steps := [Loop(Flush(true))] + [Loop(FlushCount)];
      PlaysOn(f, steps, g, more, Pumps(Forwarded(f.(pending := []), f.pending)));
      steps := steps + more;
    }
  }

  /** f with its sniffing over, and the first n queued datagrams held back. */
  function HeldBack(f: Flow, n: nat): Flow
    requires n <= |f.queue|
  {
    f.(pending := f.pending + f.queue[..n], queue := f.queue[n..], sniffed := f.sniffed + n, pc := Resolved)
  }

  /** f with one more held back. */
  function OneHeld(f: Flow): Flow
    requires f.queue != []
  {
    f.(pending := f.pending + [f.queue[0]], queue := f.queue[1..], sniffed := f.sniffed + 1)
  }

  lemma HeldBackOne(f: Flow, n: nat)
    requires 0 < n <= |f.queue|
    ensures HeldBack(OneHeld(f), n - 1) == HeldBack(f, n) && (n == 1 ==> HeldBack(f, n) == OneHeld(f).(pc := Resolved))
  {
    TakeOne(f.pending, f.queue, n);
    var g, x, y := OneHeld(f), HeldBack(OneHeld(f), n - 1), HeldBack(f, n);
    assert x.pending == y.pending && x.queue == y.queue && x.sniffed == y.sniffed;
    if n == 1 {
      assert y.pending == g.pending && y.queue == g.queue;
    }
  }

  lemma TakeOne<T>(pending: seq<T>, queue: seq<T>, n: nat)
    requires 0 < n <= |queue|
    ensures pending + [queue[0]] + queue[1..][..n - 1] == pending + queue[..n]
    ensures queue[1..][n - 1..] == queue[n..]
    ensures n == 1 ==> pending + queue[..n] == pending + [queue[0]]
  {
  }

  /** Sniffing may end at any moment. */
  lemma HeldNone(f: Flow)
    requires f.pc == Sniffing
    ensures Plays(f, [Setup(SniffEnd)], HeldBack(f, 0))
  {
    PlaysOne(f, Setup(SniffEnd));
    assert f.pending + f.queue[..0] == f.pending;
  }

  /** It is over when the datagrams seen are enough, and with the sixteenth. */
  lemma HeldTake(f: Flow, enough: bool)
    requires f.pc == Sniffing && f.queue != [] && f.sniffed < 16
    ensures Plays(f, [Setup(SniffTake(enough))], if enough || f.sniffed == 15 then OneHeld(f).(pc := Resolved) else OneHeld(f))
  {
    PlaysOne(f, Setup(SniffTake(enough)));
  }

  /** Sniffing holds the first datagrams back, in order, until it has seen enough: at the latest with the sixteenth. */
  lemma {:induction false} Held(f: Flow, n: nat) returns (steps: seq<Action>)
    requires f.pc == Sniffing && n <= |f.queue| && f.sniffed + n <= 16 && f.sniffed < 16
    ensures Plays(f, steps, HeldBack(f, n))
    decreases n
  {
    if n == 0 {
      steps := [Setup(SniffEnd)];
      HeldNone(f);
    } else {
      steps := [Setup(SniffTake(false))];
      HeldBackOne(f, n);
      HeldTake(f, false);
      if f.sniffed != 15 {
        var more := Held(OneHeld(f), n - 1);
        PlaysOn(f, steps, OneHeld(f), more, HeldBack(f, n));
        steps := steps + more;
      }
    }
  }

  /** The record is added under its id, the destination dialed and the reply socket opened. */
  lemma SetUp(f: Flow, id: nat) returns (steps: seq<Action>)
    requires f.pc == Resolved && id > 0
    ensures Plays(f, steps, f.(pc := Flushing, rec := id, upOpen := true, downOpen := true))
  {
    var g := f.(pc := AddTotal(ToDial), rec := id);
    var h := f.(pc := Dialing, rec := id);
    var end := f.(pc := Flushing, rec := id, upOpen := true, downOpen := true);
    var a := [Setup(Connect)] + [Record(AssignId(id))];
    PlaysOne(f, Setup(Connect));
    PlaysOne(f.(pc := AddId(ToDial)), Record(AssignId(id)));
    PlaysOn(f, [Setup(Connect)], f.(pc := AddId(ToDial)), [Record(AssignId(id))], g);
    PlaysOne(g, Record(CountTotal));
    PlaysOne(g.(pc := AddActive(ToDial)), Record(Insert));
    PlaysOn(g, [Record(CountTotal)], g.(pc := AddActive(ToDial)), [Record(Insert)], h);
    PlaysOne(h, Setup(Dial(true)));
    PlaysOne(h.(pc := Replying, upOpen := true), Setup(OpenReply(true)));
    PlaysOn(h, [Setup(Dial(true))], h.(pc := Replying, upOpen := true), [Setup(OpenReply(true))], end);
    var b := [Record(CountTotal)] + [Record(Insert)];
    var c := [Setup(Dial(true))] + [Setup(OpenReply(true))];
    PlaysOn(g, b, h, c, end);
    PlaysOn(f, a, g, b + c, end);
    steps := a + (b + c);
  }

  /** A flow that names its destination outright (a pool address, a bypass) or after sniffing n datagrams. */
  lemma Resolves(f: Flow, sniffs: bool, n: nat) returns (steps: seq<Action>)
    requires f.pc == Start && f.sniffed == 0 && f.pending == [] && n <= |f.queue| && n <= 16 && (!sniffs ==> n == 0)
    ensures Plays(f, steps, f.(pending := f.queue[..n], queue := f.queue[n..], sniffed := n, pc := Resolved))
  {
    assert f.pending + f.queue[..n] == f.queue[..n];
    if sniffs {
      var g := f.(pc := Sniffing);
      PlaysOne(f, Setup(Sniff));
      var more := Held(g, n);
      steps := [Setup(Sniff)] + more;
      PlaysOn(f, [Setup(Sniff)], g, more, f.(pending := f.queue[..n], queue := f.queue[n..], sniffed := n, pc := Resolved));
    } else {
      PlaysOne(f, Setup(Named));
      steps := [Setup(Named)];
    }
  }

  lemma SplitAt(q: seq<Packet>, n: nat)
    requires n <= |q|
    ensures Writes(q[..n]) + Writes(q[n..]) == Writes(q)
  {
    var a, b := Writes(q[..n]), Writes(q[n..]);
    forall i | 0 <= i < |q| ensures (a + b)[i] == Writes(q)[i] {
      if i >= n {
        assert q[n..][i - n] == q[i] && b[i - n] == FromQueue(q[n..][i - n]);
      } else {
        assert a[i] == FromQueue(q[..n][i]);
      }
    }
  }

  lemma WritesSplit(q: seq<Packet>, n: nat)
    requires n <= |q|
    ensures Writes(q[..n]) + Writes(q[n..]) == Writes(q) && Bytes(q[..n]) + Bytes(q[n..]) == Bytes(q)
  {
    assert Writes(q[..n]) + Writes(q[n..]) == Writes(q) by {
      SplitAt(q, n);
    }
    assert q[..n] + q[n..] == q;
    BytesPlus(q[..n], q[n..]);
  }

  /** A new flow with its queue, once it is set up and has forwarded everything. */
  function Served(k: Key, q: seq<Packet>, n: nat, id: nat): Flow
  {
    Flow(k, Pumping, [], false, [], n, QIdle, CReading, CReading, id, Writes(q), Bytes(q), 0, 0, true, true, false)
  }

  /**
   Whatever a new flow has queued, and however many of these datagrams its sniffing holds
   back (up to sixteen), when dialing and the reply socket succeed all of them are written
   in order and counted, and the pumps are running.
   */
  lemma FlowServes(k: Key, q: seq<Packet>, sniffs: bool, n: nat, id: nat) returns (steps: seq<Action>)
    requires n <= |q| && n <= 16 && (!sniffs ==> n == 0) && id > 0
    ensures Plays(NewFlow(k).(queue := q), steps, Served(k, q, n, id))
  {
    var f := NewFlow(k).(queue := q);
    var g := f.(pending := q[..n], queue := q[n..], sniffed := n, pc := Resolved);
    var h := g.(pc := Flushing, rec := id, upOpen := true, downOpen := true);
    var i := Pumps(Forwarded(h.(pending := []), q[..n]));
    var a := Resolves(f, sniffs, n);
    var b := SetUp(g, id);
    var c := HeldForwarded(h);
    var d := QueueForwarded(i);
    ServedIs(k, q, n, id, i);
    FourPlay(f, a, g, b, h, c, i, d, Served(k, q, n, id));
    steps := a + (b + (c + d));
  }

  lemma FourPlay(f: Flow, a: seq<Action>, g: Flow, b: seq<Action>, h: Flow, c: seq<Action>, i: Flow, d: seq<Action>, end: Flow)
    requires Plays(f, a, g) && Plays(g, b, h) && Plays(h, c, i) && Plays(i, d, end)
    ensures Plays(f, a + (b + (c + d)), end)
  {
    PlaysOn(h, c, i, d, end);
    PlaysOn(g, b, h, c + d, end);
    PlaysOn(f, a, g, b + (c + d), end);
  }

  lemma ServedIs(k: Key, q: seq<Packet>, n: nat, id: nat, i: Flow)
    requires n <= |q|
    requires i == NewFlow(k).(pc := Pumping, queue := q[n..], sniffed := n, out := QIdle, reply := CReading, back := CReading, rec := id,
                              written := [] + Writes(q[..n]), upBytes := Bytes(q[..n]), upOpen := true, downOpen := true)
    ensures Forwarded(i.(queue := []), i.queue) == Served(k, q, n, id)
  {
    WritesSplit(q, n);
    var w := Writes(q[..n]);
    assert [] + w == w;
    assert i.written + Writes(i.queue) == Writes(q) && i.upBytes + Bytes(i.queue) == Bytes(q);
    assert NewFlow(k).key == k;
  }

  // -------------------------------------------------------------- refusals

  /** Its setup has been refused, by the policy, a block or a failed call: its record is or will be finished as failed. */
  ghost predicate Refused(f: Flow)
  {
    && PumpsOff(f) && !f.upOpen && !f.downOpen
    && match f.pc
       case AddId(goal) => goal == ToRefuse
       case AddTotal(goal) => goal == ToRefuse
       case AddActive(goal) => goal == ToRefuse
       case FinishCount(errored, inSetup) => errored && inSetup
       case FinishList(inSetup) => inSetup
       case FailedWait => true
       case Removing => true
       case Dead => true
       case _ => false
  }

  /** An unknown pool address, a blocked name, a failed dial or reply socket refuses the flow. */
  lemma Refusal(f: Flow, x: SetupStep)
    requires Shape(f) && AllowedSetup(f, x)
    ensures !Refused(f) ==> (Refused(LocalSetup(f, x)) <==> x in {Refuse, Block, Dial(false), OpenReply(false)})
  {
  }

  lemma RefusedStep(f: Flow, a: Action)
    requires Refused(f) && Allowed(f, a)
    ensures var g := Local(f, a); Refused(g) && g.written == f.written && g.upBytes == f.upBytes && g.downBytes == f.downBytes
  {
    match a {
      case Setup(x) =>
      case Record(x) =>
      case Loop(x) =>
      case _ =>
    }
  }

  /** A refused flow is never dialed, and nothing of it is written. */
  lemma {:induction false} RefusedForever(f: Flow, steps: seq<Action>, g: Flow)
    requires Refused(f) && Plays(f, steps, g)
    ensures Refused(g) && g.written == f.written && g.upBytes == f.upBytes && g.downBytes == f.downBytes
    decreases |steps|
  {
    if steps != [] {
      var h :| MOVES(f, steps[0], h) && Path(MOVES, h, steps[1..], g);
      RefusedStep(f, steps[0]);
      RefusedForever(h, steps[1..], g);
    }
  }

  // ---------------------------------------------------------- over whole runs

  /** Past setup, an open flow has all three pumps running. */
  ghost predicate PumpsOn(f: Flow)
  {
    Running(f.pc) && !f.done ==> f.out != QOff && f.out != QStopped && f.reply != COff && f.reply != CStopped && f.back != COff && f.back != CStopped
  }

  lemma LoopPumps(f: Flow, x: LoopStep)
    requires PumpsOn(f) && AllowedLoop(f, x)
    ensures PumpsOn(LocalLoop(f, x))
  {
  }

  lemma SetupPumps(f: Flow, x: SetupStep)
    requires PumpsOn(f) && AllowedSetup(f, x)
    ensures PumpsOn(LocalSetup(f, x))
  {
  }

  lemma RecordPumps(f: Flow, x: RecordStep)
    requires PumpsOn(f) && AllowedRecord(f, x)
    ensures PumpsOn(LocalRecord(f, x))
  {
  }

  lemma OutPumps(f: Flow, x: OutStep)
    requires PumpsOn(f) && AllowedOut(f, x)
    ensures PumpsOn(LocalOut(f, x))
  {
  }

  lemma ReplyPumps(f: Flow, x: CopyStep)
    requires PumpsOn(f) && Allowed(f, Reply(x))
    ensures PumpsOn(LocalReply(f, x))
  {
  }

  lemma BackPumps(f: Flow, x: CopyStep)
    requires PumpsOn(f) && Allowed(f, Back(x))
    ensures PumpsOn(LocalBack(f, x))
  {
  }

  lemma ActPumps(f: Flow, a: Action)
    requires PumpsOn(f) && Allowed(f, a)
    ensures PumpsOn(Local(f, a))
  {
    match a {
      case Setup(x) => SetupPumps(f, x);
      case Record(x) => RecordPumps(f, x);
      case Loop(x) => LoopPumps(f, x);
      case Out(x) => OutPumps(f, x);
      case Reply(x) => ReplyPumps(f, x);
      case Back(x) => BackPumps(f, x);
    }
  }

  ghost predicate AllPumpsOn(s: State) { forall id :: 0 <= id < |s.flows| ==> PumpsOn(s.flows[id]) }

  lemma StepPumps(s: State, st: Step)
    requires AllPumpsOn(s) && Enabled(s, st)
    ensures AllPumpsOn(Do(s, st))
  {
    if st.Act? {
      ActPumps(s.flows[st.id], st.a);
    }
  }

  lemma {:induction false} RunPumps(steps: seq<Step>, s: State)
    requires Reaches(steps, s)
    ensures AllPumpsOn(s)
    decreases |steps|
  {
    if steps != [] {
      var init, last := steps[..|steps| - 1], steps[|steps| - 1];
      var before :| Reaches(init, before) && StepTo(before, last, s);
      RunPumps(init, before);
      StepPumps(before, last);
    }
  }

  /** In every reachable state a flow that is past setup and not closed has its sockets open and all three pumps running. */
  lemma PumpsRun(steps: seq<Step>, s: State, id: nat)
    requires Reaches(steps, s) && id < |s.flows|
    ensures var f := s.flows[id];
            Running(f.pc) && !f.done ==>
              && f.upOpen && f.downOpen
              && f.out != QOff && f.out != QStopped && f.reply != COff && f.reply != CStopped && f.back != COff && f.back != CStopped
  {
    RunPumps(steps, s);
    ReachableInv(steps, s);
    assert Shape(s.flows[id]) && PumpsOn(s.flows[id]);
  }

  /** What a returning listener still has to close exists. */
  ghost predicate ClosersOK(s: State)
  {
    forall l, id :: l in s.closers && id in s.closers[l] ==> id < |s.flows|
  }

  lemma {:induction false} RunClosers(steps: seq<Step>, s: State)
    requires Reaches(steps, s)
    ensures ClosersOK(s)
    decreases |steps|
  {
    if steps != [] {
      var init, last := steps[..|steps| - 1], steps[|steps| - 1];
      var before :| Reaches(init, before) && StepTo(before, last, s);
      RunClosers(init, before);
      ReachableInv(init, before);
      StepClosers(before, last);
    }
  }

  lemma StepClosers(s: State, st: Step)
    requires ClosersOK(s) && TableOK(s) && Enabled(s, st)
    ensures ClosersOK(Do(s, st))
  {
    match st {
      case Arrive(k, size) => assert |Do(s, st).flows| >= |s.flows|;
      case ServeReturns(l) =>
        forall id | id in s.table.Values ensures id < |s.flows| {
          var k :| k in s.table && s.table[k] == id;
        }
      case _ =>
    }
  }

  /**
   In every reachable state each listener can go on: it sends the datagram in its hand, and
   else takes any next one of its family, or returns; once it returned it can close each flow it
   found and still has to close.
   */
  lemma ListenersGoOn(steps: seq<Step>, s: State, k: Key, size: nat)
    requires Reaches(steps, s)
    ensures k.listener in s.inflight ==> Enabled(s, Enqueue(k.listener))
    ensures k.listener !in s.inflight && k.listener !in s.closers ==> Enabled(s, Arrive(k, size)) && Enabled(s, ServeReturns(k.listener))
    ensures k.listener in s.closers ==> forall id :: id in s.closers[k.listener] ==> Enabled(s, CloseFlow(k.listener, id))
  {
    ReachableInv(steps, s);
    RunClosers(steps, s);
    if k.listener in s.inflight {
      assert InFlightOK(s, k.listener);
    }
  }
}
