/**
 Where the datagrams of transparent UDP are, and where they can be lost: every one
 dispatched is in one place, until one of four things happens to it.
 */
module UdpLoss {
  import opened Wrappers
  import opened UdpFlows
  import opened UdpRuns

  // ---------------------------------------------------------- the listeners' steps

  /** The channel send: the datagram goes behind all the flow holds if fewer than 32 are queued, and else is dropped. */
  lemma EnqueueMeaning(s: State, l: nat)
    requires Enabled(s, Enqueue(l))
    ensures var u, id, p := Do(s, Enqueue(l)), s.inflight[l].flow, s.inflight[l].p;
            && |u.flows| == |s.flows| && u.inflight == s.inflight - {l} && u.sent == s.sent
            && Pipe(u.flows[id]) == Pipe(s.flows[id]) + (if |s.flows[id].queue| < 32 then [p] else [])
            && forall i :: 0 <= i < |s.flows| && i != id ==> u.flows[i] == s.flows[i]
  {
    PipeQueued(s.flows[s.inflight[l].flow], s.inflight[l].p);
  }

  /**
   Dispatch: the datagram is on its way to the live flow of its key, or to a new one,
   unless the key has no flow and 8192 are live.
   */
  lemma ArriveMeaning(s: State, k: Key, size: nat)
    requires TableOK(s) && Enabled(s, Arrive(k, size))
    ensures var u, p := Do(s, Arrive(k, size)), Packet(|s.sent|, size);
            && u.sent == s.sent + [Sent(k, size)] && s.flows <= u.flows
            && (if k !in s.table && |s.table| >= 8192 then u.inflight == s.inflight && u.flows == s.flows
                else
                  && k.listener in u.inflight && u.inflight == s.inflight[k.listener := InFlight(u.inflight[k.listener].flow, p)]
                  && u.inflight[k.listener].flow < |u.flows|
                  && var f := u.flows[u.inflight[k.listener].flow]; f.key == k && f.pc != Dead)
            && (k in s.table || |s.table| >= 8192 ==> u.flows == s.flows)
            && (k !in s.table && |s.table| < 8192 ==> u.flows == s.flows + [NewFlow(k)])
  {
    if k in s.table {
      ArriveAtLive(s, k, size);
    } else if |s.table| < 8192 {
      ArriveAtNew(s, k, size);
    }
  }

  lemma ArriveAtLive(s: State, k: Key, size: nat)
    requires TableOK(s) && Enabled(s, Arrive(k, size)) && k in s.table
    ensures var u, id := Do(s, Arrive(k, size)), s.table[k];
            && u.sent == s.sent + [Sent(k, size)] && u.flows == s.flows
            && u.inflight == s.inflight[k.listener := InFlight(id, Packet(|s.sent|, size))]
            && id < |s.flows| && s.flows[id].key == k && s.flows[id].pc != Dead
  {
  }

  lemma ArriveAtNew(s: State, k: Key, size: nat)
    requires Enabled(s, Arrive(k, size)) && k !in s.table && |s.table| < 8192
    ensures var u := Do(s, Arrive(k, size));
            && u.sent == s.sent + [Sent(k, size)] && u.flows == s.flows + [NewFlow(k)]
            && u.inflight == s.inflight[k.listener := InFlight(|s.flows|, Packet(|s.sent|, size))]
  {
  }

  // ------------------------------------------------------------------ places

  /** With a flow: written, in a pump's hand, sniffed or queued; or on its way from a listener. */
  datatype Place = InFlow(id: nat) | OnWay(listener: nat)

  ghost function Numbers(ps: seq<Packet>): set<nat> { set p | p in ps :: p.seqno }

  /** Datagram n is at this place. */
  ghost predicate HoldsAt(s: State, pl: Place, n: nat)
  {
    match pl
    case InFlow(id) => id < |s.flows| && n in Numbers(Pipe(s.flows[id]))
    case OnWay(l) => l in s.inflight && s.inflight[l].p.seqno == n
  }

  /** No datagram is at two places. */
  ghost predicate Single(s: State)
  {
    forall pl, ql, n :: HoldsAt(s, pl, n) && HoldsAt(s, ql, n) ==> pl == ql
  }

  ghost predicate Somewhere(s: State, n: nat) { exists pl :: HoldsAt(s, pl, n) }

  /**
   The datagram a step loses: dispatched for a new flow when 8192 are live, sent to a
   flow with 32 queued, failing to be written upstream, or dropped with a failed flow.
   */
  ghost function LossOf(s: State, st: Step): Option<nat>
    requires Enabled(s, st)
  {
    match st
    case Arrive(k, _) => if k !in s.table && |s.table| >= 8192 then Some(|s.sent|) else None
    case Enqueue(l) => if |s.flows[s.inflight[l].flow].queue| >= 32 then Some(s.inflight[l].p.seqno) else None
    case Act(id, a) => (match LostBy(s.flows[id], a) case None => None case Some(p) => Some(p.seqno))
    case _ => None
  }

  /** What is held was dispatched. */
  lemma HeldIsSent(s: State, pl: Place, n: nat)
    requires OrderOK(s) && HoldsAt(s, pl, n)
    ensures n < |s.sent|
    ensures pl.InFlow? ==> s.sent[n].key == s.flows[pl.id].key
    ensures pl.OnWay? ==> s.sent[n].key.listener == pl.listener
  {
    match pl {
      case InFlow(id) =>
        assert PipeOK(s.sent, s.flows[id]);
        var p :| p in Pipe(s.flows[id]) && p.seqno == n;
        assert Recorded(s.sent, s.flows[id].key, p);
      case OnWay(l) => assert InFlightOK(s, l);
    }
  }

  // ------------------------------------------- what a step does to the places

  lemma ArrivePlaces(s: State, k: Key, size: nat, pl: Place, n: nat)
    requires TableOK(s) && Enabled(s, Arrive(k, size))
    ensures HoldsAt(Do(s, Arrive(k, size)), pl, n)
            <==> HoldsAt(s, pl, n) || (LossOf(s, Arrive(k, size)) == None && pl == OnWay(k.listener) && n == |s.sent|)
  {
    ArriveMeaning(s, k, size);
    PipeNew(s.sent, k);
    var u := Do(s, Arrive(k, size));
    match pl {
      case InFlow(id) => assert id < |s.flows| ==> u.flows[id] == s.flows[id];
      case OnWay(l) => assert l != k.listener ==> (l in u.inflight <==> l in s.inflight);
    }
  }

  lemma NumbersPlus(a: seq<Packet>, p: Packet)
    ensures Numbers(a + [p]) == Numbers(a) + {p.seqno}
  {
    assert forall q :: q in a + [p] <==> q in a || q == p;
  }

  lemma EnqueuePlaces(s: State, l: nat, pl: Place, n: nat)
    requires Enabled(s, Enqueue(l))
    ensures HoldsAt(Do(s, Enqueue(l)), pl, n)
            <==> (pl != OnWay(l) && HoldsAt(s, pl, n))
                 || (LossOf(s, Enqueue(l)) == None && pl == InFlow(s.inflight[l].flow) && n == s.inflight[l].p.seqno)
  {
    EnqueueMeaning(s, l);
    var x := s.inflight[l];
    NumbersPlus(Pipe(s.flows[x.flow]), x.p);
    assert Pipe(s.flows[x.flow]) + [] == Pipe(s.flows[x.flow]);
  }

  lemma NumbersWithout(a: seq<Packet>, b: seq<Packet>, lost: Option<Packet>)
    requires Loses(a, b, lost) && Increasing(a)
    ensures Numbers(b) == Numbers(a) - match lost case None => {} case Some(p) => {p.seqno}
    ensures lost.Some? ==> lost.value.seqno in Numbers(a)
  {
    LosesKeeps(a, b, lost);
    forall n | n in Numbers(a) && (lost.Some? ==> n != lost.value.seqno) ensures n in Numbers(b) {
      var p :| p in a && p.seqno == n;
      assert p in b;
    }
  }

  lemma ActNumbers(sent: seq<Sent>, f: Flow, a: Action)
    requires Shape(f) && PipeOK(sent, f) && Allowed(f, a)
    ensures var lost := LostBy(f, a);
            && Numbers(Pipe(Local(f, a))) == Numbers(Pipe(f)) - (match lost case None => {} case Some(p) => {p.seqno})
            && (lost.Some? ==> lost.value.seqno in Numbers(Pipe(f)))
  {
    PipeKept(f, a);
    NumbersWithout(Pipe(f), Pipe(Local(f, a)), LostBy(f, a));
  }

  lemma ActPlaces(s: State, id: nat, a: Action, pl: Place, n: nat)
    requires FlowsOK(s) && OrderOK(s) && Enabled(s, Act(id, a))
    ensures HoldsAt(Do(s, Act(id, a)), pl, n)
            <==> HoldsAt(s, pl, n) && !(pl == InFlow(id) && LossOf(s, Act(id, a)) == Some(n))
    ensures LossOf(s, Act(id, a)).Some? ==> HoldsAt(s, InFlow(id), LossOf(s, Act(id, a)).value)
  {
    ActNumbers(s.sent, s.flows[id], a);
    OneChanged(s, Do(s, Act(id, a)), id, Local(s.flows[id], a), pl, n);
  }

  /** With one flow changed, only its own datagrams can be elsewhere. */
  lemma OneChanged(s: State, u: State, id: nat, g: Flow, pl: Place, n: nat)
    requires id < |s.flows| && u.flows == s.flows[id := g] && u.inflight == s.inflight
    ensures pl != InFlow(id) ==> (HoldsAt(u, pl, n) <==> HoldsAt(s, pl, n))
    ensures HoldsAt(u, InFlow(id), n) <==> n in Numbers(Pipe(g))
  {
  }

  lemma ClosePlaces(s: State, l: nat, id: nat, pl: Place, n: nat)
    requires Enabled(s, CloseFlow(l, id))
    ensures HoldsAt(Do(s, CloseFlow(l, id)), pl, n) <==> HoldsAt(s, pl, n)
  {
    PipeClosed(s.flows[id]);
  }

  /** A step moves, adds or loses one datagram; all others stay where they are. */
  lemma StepPlaces(s: State, st: Step, n: nat)
    requires TableOK(s) && FlowsOK(s) && OrderOK(s) && Single(s) && Enabled(s, st)
    ensures LossOf(s, st) == Some(n) ==> !Somewhere(Do(s, st), n) && (Somewhere(s, n) || (st.Arrive? && n == |s.sent|))
    ensures LossOf(s, st) != Some(n) && !(st.Arrive? && n == |s.sent|) ==> (Somewhere(Do(s, st), n) <==> Somewhere(s, n))
    ensures LossOf(s, st) != Some(n) && st.Arrive? && n == |s.sent| ==> Somewhere(Do(s, st), n)
  {
    match st {
      case Arrive(k, size) => ArriveMoves(s, k, size, n);
      case Enqueue(l) => EnqueueMoves(s, l, n);
      case CloseFlow(l, id) =>
        forall pl ensures HoldsAt(Do(s, st), pl, n) <==> HoldsAt(s, pl, n) {
          ClosePlaces(s, l, id, pl, n);
        }
        SamePlaces(s, Do(s, st), n);
      case Act(id, a) => ActMoves(s, id, a, n);
      case ServeReturns(l) =>
        forall pl ensures HoldsAt(Do(s, st), pl, n) <==> HoldsAt(s, pl, n) {
        }
        SamePlaces(s, Do(s, st), n);
    }
  }

  lemma SamePlaces(s: State, u: State, n: nat)
    requires forall pl :: HoldsAt(u, pl, n) <==> HoldsAt(s, pl, n)
    ensures Somewhere(u, n) <==> Somewhere(s, n)
  {
    if pl :| HoldsAt(s, pl, n) {
      assert HoldsAt(u, pl, n);
    }
    if pl :| HoldsAt(u, pl, n) {
      assert HoldsAt(s, pl, n);
    }
  }

  lemma ArriveMoves(s: State, k: Key, size: nat, n: nat)
    requires TableOK(s) && OrderOK(s) && Enabled(s, Arrive(k, size))
    ensures var u, loss := Do(s, Arrive(k, size)), LossOf(s, Arrive(k, size));
            && (n != |s.sent| ==> (Somewhere(u, n) <==> Somewhere(s, n)))
            && (n == |s.sent| ==> (Somewhere(u, n) <==> loss == None))
  {
    var u := Do(s, Arrive(k, size));
    forall pl ensures HoldsAt(u, pl, n)
      <==> HoldsAt(s, pl, n) || (LossOf(s, Arrive(k, size)) == None && pl == OnWay(k.listener) && n == |s.sent|)
    {
      ArrivePlaces(s, k, size, pl, n);
    }
    if n == |s.sent| {
      NotYetSent(s, n);
      if LossOf(s, Arrive(k, size)) == None {
        assert HoldsAt(u, OnWay(k.listener), n);
      }
    } else {
      SamePlaces(s, u, n);
    }
  }

  lemma NotYetSent(s: State, n: nat)
    requires OrderOK(s) && n >= |s.sent|
    ensures !Somewhere(s, n)
  {
    if pl :| HoldsAt(s, pl, n) {
      HeldIsSent(s, pl, n);
    }
  }

  lemma EnqueueMoves(s: State, l: nat, n: nat)
    requires Single(s) && Enabled(s, Enqueue(l))
    ensures var u, loss := Do(s, Enqueue(l)), LossOf(s, Enqueue(l));
            && (loss != Some(n) ==> (Somewhere(u, n) <==> Somewhere(s, n)))
            && (loss == Some(n) ==> !Somewhere(u, n) && Somewhere(s, n))
  {
    var u, x := Do(s, Enqueue(l)), s.inflight[l];
    forall pl ensures HoldsAt(u, pl, n)
      <==> (pl != OnWay(l) && HoldsAt(s, pl, n)) || (LossOf(s, Enqueue(l)) == None && pl == InFlow(x.flow) && n == x.p.seqno)
    {
      EnqueuePlaces(s, l, pl, n);
    }
    if n == x.p.seqno {
      assert HoldsAt(s, OnWay(l), n);
      if LossOf(s, Enqueue(l)) == None {
        assert HoldsAt(u, InFlow(x.flow), n);
      }
    } else {
      SamePlaces(s, u, n);
    }
  }

  lemma ActMoves(s: State, id: nat, a: Action, n: nat)
    requires FlowsOK(s) && OrderOK(s) && Single(s) && Enabled(s, Act(id, a))
    ensures var u, loss := Do(s, Act(id, a)), LossOf(s, Act(id, a));
            && (loss != Some(n) ==> (Somewhere(u, n) <==> Somewhere(s, n)))
            && (loss == Some(n) ==> !Somewhere(u, n) && Somewhere(s, n))
  {
    var u := Do(s, Act(id, a));
    forall pl ensures HoldsAt(u, pl, n) <==> HoldsAt(s, pl, n) && !(pl == InFlow(id) && LossOf(s, Act(id, a)) == Some(n)) {
      ActPlaces(s, id, a, pl, n);
    }
    if LossOf(s, Act(id, a)) == Some(n) {
      ActPlaces(s, id, a, InFlow(id), n);
      assert HoldsAt(s, InFlow(id), n);
    } else {
      SamePlaces(s, u, n);
    }
  }

  // ----------------------------------------------------------- over whole runs

  /** A datagram stays at one place. */
  lemma SingleKept(s: State, st: Step)
    requires TableOK(s) && FlowsOK(s) && OrderOK(s) && Single(s) && Enabled(s, st)
    ensures Single(Do(s, st))
  {
    forall pl, ql, n | HoldsAt(Do(s, st), pl, n) && HoldsAt(Do(s, st), ql, n) ensures pl == ql {
      CameFrom(s, st, pl, n);
      CameFrom(s, st, ql, n);
      if st.Arrive? && n == |s.sent| {
        NotYetSent(s, n);
        assert !HoldsAt(s, pl, n) && !HoldsAt(s, ql, n);
      }
    }
  }

  /** Where a datagram was before the step. */
  lemma CameFrom(s: State, st: Step, pl: Place, n: nat)
    requires TableOK(s) && FlowsOK(s) && OrderOK(s) && Enabled(s, st) && HoldsAt(Do(s, st), pl, n)
    ensures || (HoldsAt(s, pl, n) && !(st.Enqueue? && pl == OnWay(st.listener)))
            || (st.Arrive? && pl == OnWay(st.k.listener) && n == |s.sent|)
            || (st.Enqueue? && HoldsAt(s, OnWay(st.listener), n) && pl == InFlow(s.inflight[st.listener].flow))
  {
    match st {
      case Arrive(k, size) => ArrivePlaces(s, k, size, pl, n);
      case Enqueue(l) => EnqueuePlaces(s, l, pl, n);
      case CloseFlow(l, id) => ClosePlaces(s, l, id, pl, n);
      case Act(id, a) => ActPlaces(s, id, a, pl, n);
      case ServeReturns(l) =>
    }
  }

  /** Some step of the run lost datagram n. */
  ghost predicate LostIn(steps: seq<Step>, n: nat)
  {
    exists i, before :: LostAt(steps, i, before, n)
  }

  ghost predicate LostAt(steps: seq<Step>, i: int, before: State, n: nat)
  {
    0 <= i < |steps| && Reaches(steps[..i], before) && Enabled(before, steps[i]) && LossOf(before, steps[i]) == Some(n)
  }

  lemma {:induction false} OneState(steps: seq<Step>, s: State, t: State)
    requires Reaches(steps, s) && Reaches(steps, t)
    ensures s == t
    decreases |steps|
  {
    if steps != [] {
      var init, last := steps[..|steps| - 1], steps[|steps| - 1];
      var a :| Reaches(init, a) && StepTo(a, last, s);
      var b :| Reaches(init, b) && StepTo(b, last, t);
      OneState(init, a, b);
    }
  }

  lemma LostEarlier(steps: seq<Step>, i: int, b: State, n: nat)
    requires steps != [] && LostAt(steps[..|steps| - 1], i, b, n)
    ensures LostIn(steps, n)
  {
    assert steps[..|steps| - 1][..i] == steps[..i];
    assert LostAt(steps, i, b, n);
  }

  lemma LostBefore(steps: seq<Step>, i: int, b: State, n: nat)
    requires steps != [] && LostAt(steps, i, b, n) && i < |steps| - 1
    ensures LostIn(steps[..|steps| - 1], n)
  {
    assert steps[..|steps| - 1][..i] == steps[..i];
    assert LostAt(steps[..|steps| - 1], i, b, n);
  }

  lemma LostLast(steps: seq<Step>, before: State, n: nat)
    requires steps != [] && LostAt(steps, |steps| - 1, before, n)
    ensures LostIn(steps, n)
  {
  }

  /** What a longer run has lost: what the run before had, and what its last step loses. */
  lemma LostMore(steps: seq<Step>, before: State, n: nat)
    requires steps != [] && Reaches(steps[..|steps| - 1], before) && Enabled(before, steps[|steps| - 1])
    ensures LostIn(steps, n) <==> LostIn(steps[..|steps| - 1], n) || LostAt(steps, |steps| - 1, before, n)
  {
    if LostIn(steps, n) {
      var i, b :| LostAt(steps, i, b, n);
      if i == |steps| - 1 {
        OneState(steps[..i], before, b);
      } else {
        LostBefore(steps, i, b, n);
      }
    }
    if LostIn(steps[..|steps| - 1], n) {
      var i, b :| LostAt(steps[..|steps| - 1], i, b, n);
      LostEarlier(steps, i, b, n);
    }
    if LostAt(steps, |steps| - 1, before, n) {
      LostLast(steps, before, n);
    }
  }

  /** Of every dispatched datagram: it is somewhere, or some step lost it; and only these. */
  ghost predicate Accounted(steps: seq<Step>, s: State, n: nat)
  {
    (Somewhere(s, n) <==> n < |s.sent| && !LostIn(steps, n)) && (LostIn(steps, n) ==> n < |s.sent|)
  }

  lemma Tally(was: bool, now: bool, lostBefore: bool, lost: bool, loss: bool, arrives: bool, n: nat, sent: nat, sentNow: nat)
    requires (was <==> n < sent && !lostBefore) && (lostBefore ==> n < sent)
    requires sentNow == (sent + if arrives then 1 else 0) && (lost <==> lostBefore || loss)
    requires loss ==> !now && (was || (arrives && n == sent))
    requires !loss && !(arrives && n == sent) ==> (now <==> was)
    requires !loss && arrives && n == sent ==> now
    ensures (now <==> n < sentNow && !lost) && (lost ==> n < sentNow)
  {
  }

  lemma AccountedStep(steps: seq<Step>, before: State, s: State, n: nat)
    requires steps != [] && Reaches(steps[..|steps| - 1], before) && StepTo(before, steps[|steps| - 1], s)
    requires Inv(before) && Single(before) && Accounted(steps[..|steps| - 1], before, n)
    ensures Accounted(steps, s, n)
  {
    var init, st := steps[..|steps| - 1], steps[|steps| - 1];
    LostMore(steps, before, n);
    StepPlaces(before, st, n);
    SentGrows(before, st);
    Tally(Somewhere(before, n), Somewhere(s, n), LostIn(init, n), LostIn(steps, n), LossOf(before, st) == Some(n), st.Arrive?,
          n, |before.sent|, |s.sent|);
  }

  lemma SentGrows(s: State, st: Step)
    requires Enabled(s, st)
    ensures |Do(s, st).sent| == |s.sent| + if st.Arrive? then 1 else 0
  {
  }

  /**
   Every datagram dispatched in a run is at exactly one place, with a flow of its key or on
   its way to one, unless a step of the run lost it; what is lost comes back nowhere.
   */
  lemma {:induction false} WhereItIs(steps: seq<Step>, s: State, n: nat)
    requires Reaches(steps, s)
    ensures Single(s) && Accounted(steps, s, n)
    ensures forall pl :: HoldsAt(s, pl, n) && pl.InFlow? ==> s.sent[n].key == s.flows[pl.id].key
    decreases |steps|
  {
    ReachableInv(steps, s);
    if steps == [] {
      assert forall pl :: !HoldsAt(s, pl, n);
    } else {
      var init, last := steps[..|steps| - 1], steps[|steps| - 1];
      var before :| Reaches(init, before) && StepTo(before, last, s);
      WhereItIs(init, before, n);
      ReachableInv(init, before);
      SingleKept(before, last);
      AccountedStep(steps, before, s, n);
    }
    forall pl | HoldsAt(s, pl, n) && pl.InFlow? ensures s.sent[n].key == s.flows[pl.id].key {
      HeldIsSent(s, pl, n);
    }
  }
}
