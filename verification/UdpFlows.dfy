/**
 The transparent UDP inbound (internal/proxy/udp.go) as interleaved steps: one
 step per lock, channel operation, atomic counter or socket call of the
 listeners, the goroutine of each flow and its three pumps.
 */
module UdpFlows {
  import opened Wrappers
  import T = Tracker

  const MAX_FLOWS: nat := 8192
  const FLOW_QUEUE: nat := 32
  const MAX_SNIFFED: nat := 16

  /** A flow's key. Each original destination belongs to the listener of its family. */
  datatype Key = Key(listener: nat, client: nat, orig: nat)

  /** A datagram, named by its place in the order of dispatch. */
  datatype Packet = Packet(seqno: nat, size: nat)

  /** A datagram written upstream: from the flow's queue, or read off the reply socket. */
  datatype Write = FromQueue(p: Packet) | FromReply(size: nat)

  datatype AfterAdd = ToDial | ToRefuse

  /** Where the flow's goroutine is. The finish steps know whether setup failed. */
  datatype PC =
    | Start | Sniffing | Resolved
    | AddId(goal: AfterAdd) | AddTotal(goal: AfterAdd) | AddActive(goal: AfterAdd)
    | Dialing | Replying
    | FinishCount(errored: bool, inSetup: bool) | FinishList(inSetup: bool)
    | FailedWait
    | Flushing | FlushCounting(size: nat)
    | Pumping | CloseUp | CloseDown | Waiting
    | Removing | Dead

  /** The pump from the queue to the destination. */
  datatype QueuePump = QOff | QIdle | QHolding(p: Packet) | QCounting(size: nat) | QStopped

  /** A pump between two sockets. */
  datatype CopyPump = COff | CReading | CGot(size: nat) | CCounting(size: nat) | CStopped

  datatype Flow = Flow(
    key: Key,
    pc: PC,
    queue: seq<Packet>,
    done: bool,
    pending: seq<Packet>,
    sniffed: nat,
    out: QueuePump,
    reply: CopyPump,
    back: CopyPump,
    rec: nat,
    written: seq<Write>,
    upBytes: nat,
    returned: nat,
    downBytes: nat,
    upOpen: bool,
    downOpen: bool,
    err: bool)

  function NewFlow(k: Key): Flow
  {
    Flow(k, Start, [], false, [], 0, QOff, COff, COff, 0, [], 0, 0, 0, false, false, false)
  }

  /** Steps of setup and of the failed flow's wait; the flags are what the outside answers. */
  datatype SetupStep =
    | Refuse | Named | Sniff | SniffTake(enough: bool) | SniffEnd | Block | Connect
    | Dial(ok: bool) | OpenReply(ok: bool) | Drain | GiveUp

  /** Steps of the tracker calls. */
  datatype RecordStep = AssignId(id: nat) | CountTotal | Insert | CountFailed | Retire

  /** Steps of the main loop: forwarding what setup held, then waiting, closing and removing. */
  datatype LoopStep =
    | Flush(ok: bool) | FlushCount | StartPumps
    | LoopClose | LoopDone | ShutUp | ShutDown | PumpsDone | Remove

  /** Steps of the pump from the queue. */
  datatype OutStep = OutTake | OutWrite(ok: bool) | OutCount | OutStop

  /** Steps of a pump between two sockets. */
  datatype CopyStep = Read(size: nat) | ReadFail | CopyWrite(ok: bool) | CopyCount

  /** One step of a flow's own goroutines. */
  datatype Action =
    | Setup(s: SetupStep) | Record(r: RecordStep) | Loop(l: LoopStep)
    | Out(o: OutStep) | Reply(c: CopyStep) | Back(b: CopyStep)

  predicate AllStopped(f: Flow) { f.out == QStopped && f.reply == CStopped && f.back == CStopped }

  predicate Allowed(f: Flow, a: Action)
  {
    match a
    case Setup(s) => AllowedSetup(f, s)
    case Record(r) => AllowedRecord(f, r)
    case Loop(l) => AllowedLoop(f, l)
    case Out(o) => AllowedOut(f, o)
    case Reply(c) => AllowedCopy(f.reply, c, f.downOpen, f.upOpen)
    case Back(b) => AllowedCopy(f.back, b, f.upOpen, f.downOpen)
  }

  predicate AllowedSetup(f: Flow, s: SetupStep)
  {
    match s
    case Refuse => f.pc == Start
    case Named => f.pc == Start
    case Sniff => f.pc == Start
    case SniffTake(_) => f.pc == Sniffing && f.queue != []
    case SniffEnd => f.pc == Sniffing
    case Block => f.pc == Resolved
    case Connect => f.pc == Resolved
    case Dial(_) => f.pc == Dialing
    case OpenReply(_) => f.pc == Replying
    case Drain => f.pc == FailedWait && f.queue != []
    case GiveUp => f.pc == FailedWait
  }

  predicate AllowedRecord(f: Flow, r: RecordStep)
  {
    match r
    case AssignId(id) => f.pc.AddId? && id > 0
    case CountTotal => f.pc.AddTotal?
    case Insert => f.pc.AddActive?
    case CountFailed => f.pc.FinishCount?
    case Retire => f.pc.FinishList?
  }

  predicate AllowedLoop(f: Flow, l: LoopStep)
  {
    match l
    case Flush(_) => f.pc == Flushing && f.pending != []
    case FlushCount => f.pc.FlushCounting?
    case StartPumps => f.pc == Flushing && f.pending == []
    case LoopClose => f.pc == Pumping
    case LoopDone => f.pc == Pumping && f.done
    case ShutUp => f.pc == CloseUp
    case ShutDown => f.pc == CloseDown
    case PumpsDone => f.pc == Waiting && AllStopped(f)
    case Remove => f.pc == Removing
  }

  /** A write succeeds only on an open socket; it may fail on either. */
  predicate AllowedOut(f: Flow, o: OutStep)
  {
    match o
    case OutTake => f.out == QIdle && f.queue != []
    case OutWrite(ok) => f.out.QHolding? && (ok ==> f.upOpen)
    case OutCount => f.out.QCounting?
    case OutStop => f.out == QIdle && f.done
  }

  predicate AllowedCopy(p: CopyPump, c: CopyStep, fromOpen: bool, toOpen: bool)
  {
    match c
    case Read(_) => p == CReading && fromOpen
    case ReadFail => p == CReading
    case CopyWrite(ok) => p.CGot? && (ok ==> toOpen)
    case CopyCount => p.CCounting?
  }

  /** What a step does to its flow. */
  function Local(f: Flow, a: Action): Flow
    requires Allowed(f, a)
  {
    match a
    case Setup(s) => LocalSetup(f, s)
    case Record(r) => LocalRecord(f, r)
    case Loop(l) => LocalLoop(f, l)
    case Out(o) => LocalOut(f, o)
    case Reply(c) => LocalReply(f, c)
    case Back(b) => LocalBack(f, b)
  }

  function LocalSetup(f: Flow, s: SetupStep): Flow
    requires AllowedSetup(f, s)
  {
    match s
    case Refuse => f.(pc := AddId(ToRefuse))
    case Named => f.(pc := Resolved)
    case Sniff => f.(pc := Sniffing)
    case SniffTake(enough) =>
      f.(pending := f.pending + [f.queue[0]], queue := f.queue[1..], sniffed := f.sniffed + 1,
         pc := if enough || f.sniffed + 1 >= MAX_SNIFFED then Resolved else Sniffing)
    case SniffEnd => f.(pc := Resolved)
    case Block => f.(pc := AddId(ToRefuse))
    case Connect => f.(pc := AddId(ToDial))
    case Dial(ok) => if ok then f.(pc := Replying, upOpen := true) else f.(pc := FinishCount(true, true))
    case OpenReply(ok) =>
      if ok then f.(pc := Flushing, downOpen := true) else f.(pc := FinishCount(true, true), upOpen := false)
    case Drain => f.(queue := f.queue[1..])
    case GiveUp => f.(pc := Removing)
  }

  function LocalRecord(f: Flow, r: RecordStep): Flow
    requires AllowedRecord(f, r)
  {
    match r
    case AssignId(id) => f.(pc := AddTotal(f.pc.goal), rec := id)
    case CountTotal => f.(pc := AddActive(f.pc.goal))
    case Insert => f.(pc := if f.pc.goal == ToDial then Dialing else FinishCount(true, true))
    case CountFailed => f.(pc := FinishList(f.pc.inSetup))
    case Retire => f.(pc := if f.pc.inSetup then FailedWait else Removing)
  }

  function LocalLoop(f: Flow, l: LoopStep): Flow
    requires AllowedLoop(f, l)
  {
    match l
    case Flush(ok) =>
      if ok then f.(pending := f.pending[1..], written := f.written + [FromQueue(f.pending[0])], pc := FlushCounting(f.pending[0].size))
      else f.(pending := f.pending[1..])
    case FlushCount => f.(upBytes := f.upBytes + f.pc.size, pc := Flushing)
    case StartPumps => f.(pc := Pumping, out := QIdle, reply := CReading, back := CReading)
    case LoopClose => f.(done := true)
    case LoopDone => f.(pc := CloseUp)
    case ShutUp => f.(pc := CloseDown, upOpen := false)
    case ShutDown => f.(pc := Waiting, downOpen := false)
    case PumpsDone => f.(pc := FinishCount(f.err, false))
    case Remove => f.(pc := Dead)
  }

  /** A failing pump closes the flow; only an error on an open socket is kept. */
  function LocalOut(f: Flow, o: OutStep): Flow
    requires AllowedOut(f, o)
  {
    match o
    case OutTake => f.(out := QHolding(f.queue[0]), queue := f.queue[1..])
    case OutWrite(ok) =>
      if ok then f.(written := f.written + [FromQueue(f.out.p)], out := QCounting(f.out.p.size))
      else f.(out := QStopped, done := true, err := f.err || f.upOpen)
    case OutCount => f.(upBytes := f.upBytes + f.out.size, out := QIdle)
    case OutStop => f.(out := QStopped)
  }

  /** Packets the kernel delivered to the connected reply socket go upstream too. */
  function LocalReply(f: Flow, c: CopyStep): Flow
    requires AllowedCopy(f.reply, c, f.downOpen, f.upOpen)
  {
    match c
    case Read(size) => f.(reply := CGot(size))
    case ReadFail => f.(reply := CStopped, done := true, err := f.err || f.downOpen)
    case CopyWrite(ok) =>
      if ok then f.(written := f.written + [FromReply(f.reply.size)], reply := CCounting(f.reply.size))
      else f.(reply := CStopped, done := true, err := f.err || f.upOpen)
    case CopyCount => f.(upBytes := f.upBytes + f.reply.size, reply := CReading)
  }

  /** The destination's packets go back to the client. */
  function LocalBack(f: Flow, b: CopyStep): Flow
    requires AllowedCopy(f.back, b, f.upOpen, f.downOpen)
  {
    match b
    case Read(size) => f.(back := CGot(size))
    case ReadFail => f.(back := CStopped, done := true, err := f.err || f.upOpen)
    case CopyWrite(ok) =>
      if ok then f.(returned := f.returned + f.back.size, back := CCounting(f.back.size))
      else f.(back := CStopped, done := true, err := f.err || f.downOpen)
    case CopyCount => f.(downBytes := f.downBytes + f.back.size, back := CReading)
  }

  // ------------------------------------------------- invariants of one flow

  /** The goroutine is before, during or after the pumps. */
  predicate InSetup(pc: PC)
  {
    match pc
    case FinishCount(_, inSetup) => inSetup
    case FinishList(inSetup) => inSetup
    case Pumping => false
    case CloseUp => false
    case CloseDown => false
    case Waiting => false
    case Removing => false
    case Dead => false
    case _ => true
  }

  predicate Running(pc: PC) { pc == Pumping || pc == CloseUp || pc == CloseDown || pc == Waiting }

  predicate PumpsOff(f: Flow) { f.out == QOff && f.reply == COff && f.back == COff }

  /** Queue bound, pump phases, sockets, close flag and record id, by position. */
  ghost predicate Shape(f: Flow)
  {
    && |f.queue| <= FLOW_QUEUE
    && |f.pending| <= f.sniffed <= MAX_SNIFFED && (f.pc == Sniffing ==> f.sniffed < MAX_SNIFFED)
    && (f.pc == Start ==> f.sniffed == 0)
    && (InSetup(f.pc) ==> PumpsOff(f))
    && (Running(f.pc) ==> f.out != QOff && f.reply != COff && f.back != COff && f.pending == [])
    && (!InSetup(f.pc) && !Running(f.pc) ==> AllStopped(f) || PumpsOff(f))
    && (f.pc.FinishCount? || f.pc.FinishList? ==> InSetup(f.pc) || AllStopped(f))
    && (!InSetup(f.pc) && AllStopped(f) ==> f.pending == [])
    && (f.upOpen <==> f.pc == Replying || f.pc == Flushing || f.pc.FlushCounting? || f.pc == Pumping || f.pc == CloseUp)
    && (f.downOpen <==> f.pc == Flushing || f.pc.FlushCounting? || f.pc == Pumping || f.pc == CloseUp || f.pc == CloseDown)
    && (f.pc == CloseUp || f.pc == CloseDown || f.pc == Waiting ==> f.done)
    && (f.rec == 0 <==> f.pc == Start || f.pc == Sniffing || f.pc == Resolved || f.pc.AddId?)
  }

  function Size(w: Write): nat { if w.FromQueue? then w.p.size else w.size }

  function SumSizes(ws: seq<Write>): nat
  {
    if ws == [] then 0 else SumSizes(ws[..|ws| - 1]) + Size(ws[|ws| - 1])
  }

  lemma SumPush(ws: seq<Write>, w: Write)
    ensures SumSizes(ws + [w]) == SumSizes(ws) + Size(w)
  {
    assert (ws + [w])[..|ws|] == ws;
  }

  /** Bytes written but not yet counted. */
  function Uncounted(f: Flow): nat
  {
    (if f.pc.FlushCounting? then f.pc.size else 0)
    + (if f.out.QCounting? then f.out.size else 0)
    + (if f.reply.CCounting? then f.reply.size else 0)
  }

  /** The up counter and what is about to be added to it. */
  function UpTotal(f: Flow): nat { f.upBytes + Uncounted(f) }

  /** The same for the other direction. */
  function DownTotal(f: Flow): nat { f.downBytes + if f.back.CCounting? then f.back.size else 0 }

  /** The counters are the bytes successfully written, up to writes being counted. */
  ghost predicate Counts(f: Flow)
  {
    SumSizes(f.written) == UpTotal(f) && f.returned == DownTotal(f)
  }

  /** The datagrams written from the queue, in order. */
  function QueueWrites(ws: seq<Write>): seq<Packet>
  {
    if ws == [] then []
    else
      QueueWrites(ws[..|ws| - 1]) + (if ws[|ws| - 1].FromQueue? then [ws[|ws| - 1].p] else [])
  }

  lemma QueueWritesPush(ws: seq<Write>, w: Write)
    ensures QueueWrites(ws + [w]) == QueueWrites(ws) + (if w.FromQueue? then [w.p] else [])
  {
    assert (ws + [w])[..|ws|] == ws;
  }

  function Held(f: Flow): seq<Packet> { if f.out.QHolding? then [f.out.p] else [] }

  /** Every datagram of the flow still known: written, in a pump's hand, pending, queued. */
  function Pipe(f: Flow): seq<Packet>
  {
    QueueWrites(f.written) + Held(f) + f.pending + f.queue
  }

  ghost predicate Increasing(ps: seq<Packet>)
  {
    forall i, j :: 0 <= i < j < |ps| ==> ps[i].seqno < ps[j].seqno
  }

  /** b is a without the lost datagram, which a held; without one it is a. */
  ghost predicate Loses(a: seq<Packet>, b: seq<Packet>, lost: Option<Packet>)
  {
    match lost
    case None => b == a
    case Some(p) => exists i :: 0 <= i < |a| && a[i] == p && b == a[..i] + a[i + 1..]
  }

  lemma WithoutAt<T>(a: seq<T>, b: seq<T>, i: nat, j: nat)
    requires i < |a| && b == a[..i] + a[i + 1..] && j < |b|
    ensures b[j] == a[if j < i then j else j + 1]
  {
  }

  lemma StillAt<T>(a: seq<T>, b: seq<T>, i: nat, j: nat)
    requires i < |a| && b == a[..i] + a[i + 1..] && j < |a| && j != i
    ensures |b| == |a| - 1 && a[j] == b[if j < i then j else j - 1]
  {
  }

  lemma OrderWithout(a: seq<Packet>, b: seq<Packet>, i: nat)
    requires i < |a| && b == a[..i] + a[i + 1..] && Increasing(a)
    ensures Increasing(b) && forall p :: p in b ==> p.seqno != a[i].seqno
  {
    forall j, k | 0 <= j < k < |b| ensures b[j].seqno < b[k].seqno {
      WithoutAt(a, b, i, j);
      WithoutAt(a, b, i, k);
    }
    forall p | p in b ensures p.seqno != a[i].seqno {
      var j :| 0 <= j < |b| && b[j] == p;
      WithoutAt(a, b, i, j);
    }
  }

  lemma MembersWithout(a: seq<Packet>, b: seq<Packet>, i: nat)
    requires i < |a| && b == a[..i] + a[i + 1..]
    ensures forall p :: p in b ==> p in a
    ensures forall p :: p in a && p != a[i] ==> p in b
  {
    forall p | p in a && p != a[i] ensures p in b {
      var j :| 0 <= j < |a| && a[j] == p;
      StillAt(a, b, i, j);
    }
  }

  lemma LosesKeeps(a: seq<Packet>, b: seq<Packet>, lost: Option<Packet>)
    requires Loses(a, b, lost)
    ensures Increasing(a) ==> Increasing(b)
    ensures forall p :: p in b ==> p in a
    ensures lost.Some? ==> lost.value in a
    ensures forall p :: p in a && Some(p) != lost ==> p in b
    ensures Increasing(a) && lost.Some? ==> forall p :: p in b ==> p.seqno != lost.value.seqno
  {
    if lost.Some? {
      var i :| 0 <= i < |a| && a[i] == lost.value && b == a[..i] + a[i + 1..];
      MembersWithout(a, b, i);
      if Increasing(a) {
        OrderWithout(a, b, i);
      }
    }
  }

  lemma LoseMiddle(x: seq<Packet>, p: Packet, y: seq<Packet>)
    ensures Loses(x + [p] + y, x + y, Some(p))
  {
    var a := x + [p] + y;
    assert a[|x|] == p && x + y == a[..|x|] + a[|x| + 1..];
  }

  predicate OpensSockets(s: SetupStep) { s.Dial? || s.OpenReply? || s == Drain || s == GiveUp }

  lemma ShapeKeptNaming(f: Flow, s: SetupStep)
    requires Shape(f) && AllowedSetup(f, s) && !OpensSockets(s)
    ensures Shape(LocalSetup(f, s))
  {
  }

  lemma ShapeKeptOpening(f: Flow, s: SetupStep)
    requires Shape(f) && AllowedSetup(f, s) && OpensSockets(s)
    ensures Shape(LocalSetup(f, s))
  {
  }

  lemma ShapeKeptSetup(f: Flow, s: SetupStep)
    requires Shape(f) && AllowedSetup(f, s)
    ensures Shape(LocalSetup(f, s))
  {
    if OpensSockets(s) {
      ShapeKeptOpening(f, s);
    } else {
      ShapeKeptNaming(f, s);
    }
  }

  lemma ShapeKeptRecord(f: Flow, r: RecordStep)
    requires Shape(f) && AllowedRecord(f, r)
    ensures Shape(LocalRecord(f, r))
  {
  }

  lemma ShapeKeptFlush(f: Flow, l: LoopStep)
    requires Shape(f) && AllowedLoop(f, l) && (l.Flush? || l == FlushCount || l == StartPumps)
    ensures Shape(LocalLoop(f, l))
  {
  }

  lemma ShapeKeptClosing(f: Flow, l: LoopStep)
    requires Shape(f) && AllowedLoop(f, l) && !l.Flush? && l != FlushCount && l != StartPumps
    ensures Shape(LocalLoop(f, l))
  {
  }

  lemma ShapeKeptLoop(f: Flow, l: LoopStep)
    requires Shape(f) && AllowedLoop(f, l)
    ensures Shape(LocalLoop(f, l))
  {
    if l.Flush? || l == FlushCount || l == StartPumps {
      ShapeKeptFlush(f, l);
    } else {
      ShapeKeptClosing(f, l);
    }
  }

  lemma ShapeKeptOut(f: Flow, o: OutStep)
    requires Shape(f) && AllowedOut(f, o)
    ensures Shape(Local(f, Out(o)))
  {
  }

  lemma ShapeKeptReply(f: Flow, c: CopyStep)
    requires Shape(f) && Allowed(f, Reply(c))
    ensures Shape(Local(f, Reply(c)))
  {
  }

  lemma ShapeKeptBack(f: Flow, b: CopyStep)
    requires Shape(f) && Allowed(f, Back(b))
    ensures Shape(Local(f, Back(b)))
  {
  }

  lemma ShapeKept(f: Flow, a: Action)
    requires Shape(f) && Allowed(f, a)
    ensures Shape(Local(f, a))
  {
    match a {
      case Setup(s) => ShapeKeptSetup(f, s);
      case Record(r) => ShapeKeptRecord(f, r);
      case Loop(l) => ShapeKeptLoop(f, l);
      case Out(o) => ShapeKeptOut(f, o);
      case Reply(c) => ShapeKeptReply(f, c);
      case Back(b) => ShapeKeptBack(f, b);
    }
  }

  /** What a step adds to the written log. */
  function Writes(f: Flow, a: Action): seq<Write>
    requires Allowed(f, a)
  {
    match a
    case Loop(l) => if l.Flush? && l.ok then [FromQueue(f.pending[0])] else []
    case Out(o) => if o.OutWrite? && o.ok then [FromQueue(f.out.p)] else []
    case Reply(c) => if c.CopyWrite? && c.ok then [FromReply(f.reply.size)] else []
    case _ => []
  }

  lemma SetupWrites(f: Flow, x: SetupStep)
    requires AllowedSetup(f, x)
    ensures LocalSetup(f, x).written == f.written
  {
  }

  lemma RecordWrites(f: Flow, x: RecordStep)
    requires AllowedRecord(f, x)
    ensures LocalRecord(f, x).written == f.written
  {
  }

  lemma LoopWrites(f: Flow, x: LoopStep)
    requires AllowedLoop(f, x)
    ensures LocalLoop(f, x).written == f.written + Writes(f, Loop(x))
  {
  }

  lemma OutWrites(f: Flow, x: OutStep)
    requires AllowedOut(f, x)
    ensures LocalOut(f, x).written == f.written + Writes(f, Out(x))
  {
  }

  lemma ReplyWrites(f: Flow, x: CopyStep)
    requires Allowed(f, Reply(x))
    ensures LocalReply(f, x).written == f.written + Writes(f, Reply(x))
  {
  }

  lemma BackWrites(f: Flow, x: CopyStep)
    requires Allowed(f, Back(x))
    ensures LocalBack(f, x).written == f.written
  {
  }

  lemma WritesAppended(f: Flow, a: Action)
    requires Allowed(f, a)
    ensures Local(f, a).written == f.written + Writes(f, a)
  {
    match a {
      case Setup(x) => SetupWrites(f, x);
      case Record(x) => RecordWrites(f, x);
      case Loop(x) => LoopWrites(f, x);
      case Out(x) => OutWrites(f, x);
      case Reply(x) => ReplyWrites(f, x);
      case Back(x) => BackWrites(f, x);
    }
  }

  lemma WritesOne(f: Flow, a: Action)
    requires Allowed(f, a)
    ensures |Writes(f, a)| <= 1
  {
  }

  function Added(ws: seq<Write>): nat { if ws == [] then 0 else Size(ws[0]) }

  lemma SumAdded(written: seq<Write>, ws: seq<Write>)
    requires |ws| <= 1
    ensures SumSizes(written + ws) == SumSizes(written) + Added(ws)
  {
    if ws == [] {
      assert written + ws == written;
    } else {
      assert ws == [ws[0]];
      SumPush(written, ws[0]);
    }
  }

  lemma SumWrites(f: Flow, a: Action)
    requires Allowed(f, a)
    ensures SumSizes(Local(f, a).written) == SumSizes(f.written) + Added(Writes(f, a))
  {
    WritesAppended(f, a);
    WritesOne(f, a);
    SumAdded(f.written, Writes(f, a));
  }

  lemma UpTotalSetup(f: Flow, x: SetupStep)
    requires AllowedSetup(f, x)
    ensures var g := LocalSetup(f, x); UpTotal(g) == UpTotal(f) && DownTotal(g) == DownTotal(f) && g.returned == f.returned
  {
  }

  lemma UpTotalRecord(f: Flow, x: RecordStep)
    requires AllowedRecord(f, x)
    ensures var g := LocalRecord(f, x); UpTotal(g) == UpTotal(f) && DownTotal(g) == DownTotal(f) && g.returned == f.returned
  {
  }

  lemma UpTotalLoop(f: Flow, l: LoopStep)
    requires Shape(f) && AllowedLoop(f, l)
    ensures UpTotal(LocalLoop(f, l)) == UpTotal(f) + Added(Writes(f, Loop(l)))
    ensures DownTotal(LocalLoop(f, l)) == DownTotal(f) && LocalLoop(f, l).returned == f.returned
  {
  }

  lemma UpTotalOut(f: Flow, o: OutStep)
    requires Shape(f) && AllowedOut(f, o)
    ensures UpTotal(LocalOut(f, o)) == UpTotal(f) + Added(Writes(f, Out(o)))
    ensures DownTotal(LocalOut(f, o)) == DownTotal(f) && LocalOut(f, o).returned == f.returned
  {
  }

  lemma UpTotalReply(f: Flow, c: CopyStep)
    requires Shape(f) && Allowed(f, Reply(c))
    ensures UpTotal(LocalReply(f, c)) == UpTotal(f) + Added(Writes(f, Reply(c)))
    ensures DownTotal(LocalReply(f, c)) == DownTotal(f) && LocalReply(f, c).returned == f.returned
  {
  }

  lemma UpTotalBack(f: Flow, b: CopyStep)
    requires Shape(f) && Allowed(f, Back(b))
    ensures UpTotal(LocalBack(f, b)) == UpTotal(f)
    ensures LocalBack(f, b).returned - DownTotal(LocalBack(f, b)) == f.returned - DownTotal(f)
  {
  }

  lemma TotalsKept(f: Flow, a: Action)
    requires Shape(f) && Allowed(f, a)
    ensures UpTotal(Local(f, a)) == UpTotal(f) + Added(Writes(f, a))
    ensures Local(f, a).returned - DownTotal(Local(f, a)) == f.returned - DownTotal(f)
  {
    match a {
      case Setup(x) => UpTotalSetup(f, x);
      case Record(x) => UpTotalRecord(f, x);
      case Loop(l) => UpTotalLoop(f, l);
      case Out(o) => UpTotalOut(f, o);
      case Reply(c) => UpTotalReply(f, c);
      case Back(b) => UpTotalBack(f, b);
    }
  }

  lemma CountsKept(f: Flow, a: Action)
    requires Shape(f) && Counts(f) && Allowed(f, a)
    ensures Counts(Local(f, a))
  {
    SumWrites(f, a);
    TotalsKept(f, a);
  }

  /** The parts of a pipe, handing a datagram from one to the next, and losing the front of one. */
  lemma Handover(w: seq<Packet>, h: seq<Packet>, n: seq<Packet>, p: Packet, q: seq<Packet>)
    ensures w + h + (n + [p]) + q == w + h + n + ([p] + q)
    ensures w + [p] + [] + q == w + [] + [] + ([p] + q)
    ensures w + [] + ([p] + n) + q == (w + [p]) + [] + n + q
    ensures w + [p] + n + q == (w + [p]) + [] + n + q
    ensures Loses(w + h + n + ([p] + q), w + h + n + q, Some(p))
    ensures Loses(w + [] + ([p] + n) + q, w + [] + n + q, Some(p))
    ensures Loses(w + [p] + n + q, w + [] + n + q, Some(p))
  {
    LoseMiddle(w + h + n, p, q);
    assert w + h + n + [p] + q == w + h + n + ([p] + q);
    LoseMiddle(w, p, n + q);
    assert w + [p] + (n + q) == w + [] + ([p] + n) + q;
    assert w + (n + q) == w + [] + n + q;
    assert w + [p] + (n + q) == w + [p] + n + q;
  }

  /**
   The datagram a step loses: a failed flow's queue is emptied, and a write upstream
   fails, of a datagram that was sniffed or of one from the queue. No other step loses any.
   */
  function LostBy(f: Flow, a: Action): Option<Packet>
    requires Allowed(f, a)
  {
    match a
    case Setup(s) => if s == Drain then Some(f.queue[0]) else None
    case Loop(l) => if l == Flush(false) then Some(f.pending[0]) else None
    case Out(o) => if o == OutWrite(false) then Some(f.out.p) else None
    case _ => None
  }

  lemma SameParts(f: Flow, g: Flow)
    requires QueueWrites(g.written) == QueueWrites(f.written)
    requires Held(g) == Held(f) && g.pending == f.pending && g.queue == f.queue
    ensures Pipe(g) == Pipe(f)
  {
  }

  /** The front of the queue taken into the sniffed ones, or dropped. */
  lemma PipeKeptTake(f: Flow, s: SetupStep)
    requires Shape(f) && AllowedSetup(f, s) && (s.SniffTake? || s.Drain?)
    ensures Loses(Pipe(f), Pipe(LocalSetup(f, s)), if s == Drain then Some(f.queue[0]) else None)
  {
    assert f.queue == [f.queue[0]] + f.queue[1..];
    Handover(QueueWrites(f.written), Held(f), f.pending, f.queue[0], f.queue[1..]);
  }

  lemma PipeKeptSetup(f: Flow, s: SetupStep)
    requires Shape(f) && AllowedSetup(f, s)
    ensures Loses(Pipe(f), Pipe(LocalSetup(f, s)), if s == Drain then Some(f.queue[0]) else None)
  {
    if s.SniffTake? || s.Drain? {
      PipeKeptTake(f, s);
    } else {
      SetupWrites(f, s);
      SameParts(f, LocalSetup(f, s));
    }
  }

  lemma PipeKeptFlush(f: Flow, ok: bool)
    requires Shape(f) && AllowedLoop(f, Flush(ok))
    ensures Loses(Pipe(f), Pipe(LocalLoop(f, Flush(ok))), if ok then None else Some(f.pending[0]))
  {
    var p, n := f.pending[0], f.pending[1..];
    assert f.pending == [p] + n;
    Handover(QueueWrites(f.written), [], n, p, f.queue);
    QueueWritesPush(f.written, FromQueue(p));
  }

  lemma PipeKeptLoop(f: Flow, l: LoopStep)
    requires Shape(f) && AllowedLoop(f, l)
    ensures Loses(Pipe(f), Pipe(LocalLoop(f, l)), if l == Flush(false) then Some(f.pending[0]) else None)
  {
    if l.Flush? {
      PipeKeptFlush(f, l.ok);
    } else {
      SameParts(f, LocalLoop(f, l));
    }
  }

  lemma PipeKeptPull(f: Flow)
    requires Shape(f) && AllowedOut(f, OutTake)
    ensures Pipe(LocalOut(f, OutTake)) == Pipe(f)
  {
    Handover(QueueWrites(f.written), [], [], f.queue[0], f.queue[1..]);
    assert f.queue == [f.queue[0]] + f.queue[1..];
    assert f.pending == [];
  }

  lemma PipeKeptWrite(f: Flow, ok: bool)
    requires Shape(f) && AllowedOut(f, OutWrite(ok))
    ensures Loses(Pipe(f), Pipe(LocalOut(f, OutWrite(ok))), if ok then None else Some(f.out.p))
  {
    Handover(QueueWrites(f.written), [], f.pending, f.out.p, f.queue);
    QueueWritesPush(f.written, FromQueue(f.out.p));
  }

  lemma PipeKeptOut(f: Flow, o: OutStep)
    requires Shape(f) && AllowedOut(f, o)
    ensures Loses(Pipe(f), Pipe(LocalOut(f, o)), if o == OutWrite(false) then Some(f.out.p) else None)
  {
    match o {
      case OutTake => PipeKeptPull(f);
      case OutWrite(ok) => PipeKeptWrite(f, ok);
      case _ => SameParts(f, LocalOut(f, o));
    }
  }

  lemma PipeKeptReply(f: Flow, c: CopyStep)
    requires Shape(f) && Allowed(f, Reply(c))
    ensures Pipe(LocalReply(f, c)) == Pipe(f)
  {
    if c.CopyWrite? {
      QueueWritesPush(f.written, FromReply(f.reply.size));
    }
    SameParts(f, LocalReply(f, c));
  }

  /** No step reorders or duplicates a datagram, and only the steps of LostBy lose one, that one. */
  lemma PipeKept(f: Flow, a: Action)
    requires Shape(f) && Allowed(f, a)
    ensures Loses(Pipe(f), Pipe(Local(f, a)), LostBy(f, a))
  {
    match a {
      case Setup(s) => PipeKeptSetup(f, s);
      case Record(r) => SameParts(f, LocalRecord(f, r));
      case Loop(l) => PipeKeptLoop(f, l);
      case Out(o) => PipeKeptOut(f, o);
      case Reply(c) => PipeKeptReply(f, c);
      case Back(b) => SameParts(f, LocalBack(f, b));
    }
  }
}
