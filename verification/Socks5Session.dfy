/**
 A SOCKS5 client and server joined by two byte queues, stepping in any order.
 Their steps commute, so one schedule that ends shows that every schedule ends,
 after as many steps and in the same state.
 */
module Socks5Session {
  import opened Wrappers
  import opened Wire
  import opened Addr
  import opened Socks5
  import opened Confluence

  /** Both configurations, and the reply the relay gives an accepted request. */
  datatype Setup = Setup(cc: ClientConfig, sc: ServerConfig, code: byte, bound: Addr, boundPort: u16)

  /** The server is in its handshake, or has sent the final reply. */
  datatype Side = Shaking(s: Server) | Replied(r: Result<Request, ServerError>)

  datatype Sys = Sys(c: Client, s: Side, toServer: bytes, toClient: bytes)

  const START := Sys(CGreet, Shaking(SHead), [], [])

  predicate ServerClosed(s: Side) { s.Replied? || (s.s.SDone? && s.s.r.Err?) }

  predicate ClientClosed(c: Client) { c.CDone? }

  /** One call's effect: the next state, bytes taken from the own queue, bytes sent to the other. */
  datatype ClientMove = ClientMove(next: Client, take: nat, send: bytes)

  datatype ServerMove = ServerMove(next: Side, take: nat, send: bytes)

  /** The client's next call; None when it has to wait. A short read fails once the peer has closed. */
  function NextClient(u: Setup, x: Sys): (r: Option<ClientMove>)
    ensures r.Some? ==> r.value.take <= |x.toClient|
  {
    match ClientWant(u.cc, x.c)
    case Halt => None
    case Write(data) => Some(ClientMove(ClientNext(u.cc, x.c, []), 0, data))
    case Read(n) =>
      if |x.toClient| >= n then Some(ClientMove(ClientNext(u.cc, x.c, x.toClient[..n]), n, []))
      else if ServerClosed(x.s) then Some(ClientMove(CDone(ClientEof), |x.toClient|, []))
      else None
  }

  /** The server's next call; after its handshake the relay writes the reply. */
  function NextServer(u: Setup, x: Sys): (r: Option<ServerMove>)
    ensures r.Some? ==> r.value.take <= |x.toServer|
  {
    match x.s
    case Replied(_) => None
    case Shaking(st) =>
      if st.SDone? then
        if st.r.Ok? then Some(ServerMove(Replied(st.r), 0, ReplyBytes(u.code, u.bound, u.boundPort))) else None
      else
        match ServerWant(u.sc, st)
        case Halt => None
        case Write(data) => Some(ServerMove(Shaking(ServerNext(u.sc, st, [])), 0, data))
        case Read(n) =>
          if |x.toServer| >= n then Some(ServerMove(Shaking(ServerNext(u.sc, st, x.toServer[..n])), n, []))
          else if ClientClosed(x.c) then Some(ServerMove(Shaking(SDone(Err(Eof))), |x.toServer|, []))
          else None
  }

  function Do(u: Setup, x: Sys, who: Who): Option<Sys>
  {
    if who == ByClient then
      match NextClient(u, x)
      case None => None
      case Some(m) => Some(Sys(m.next, x.s, x.toServer + m.send, x.toClient[m.take..]))
    else
      match NextServer(u, x)
      case None => None
      case Some(m) => Some(Sys(x.c, m.next, x.toServer[m.take..], x.toClient + m.send))
  }

  function Steps(u: Setup): StepFn<Sys>
  {
    (x: Sys, who: Who) => Do(u, x, who)
  }

  // ---------------------------------------------------- order does not matter

  lemma TakeFromLonger(q: bytes, d: bytes, n: nat)
    requires n <= |q|
    ensures (q + d)[..n] == q[..n] && (q + d)[n..] == q[n..] + d
  {
  }

  /** What the server does leaves the client's next call as it is. */
  lemma ClientUndisturbed(u: Setup, x: Sys)
    requires NextClient(u, x).Some? && NextServer(u, x).Some?
    ensures NextClient(u, Do(u, x, ByServer).value) == NextClient(u, x)
  {
    var want := ClientWant(u.cc, x.c);
    if want.Read? {
      TakeFromLonger(x.toClient, NextServer(u, x).value.send, want.n);
    }
  }

  lemma ServerUndisturbed(u: Setup, x: Sys)
    requires NextClient(u, x).Some? && NextServer(u, x).Some?
    ensures NextServer(u, Do(u, x, ByClient).value) == NextServer(u, x)
  {
    if x.s.Shaking? && !x.s.s.SDone? {
      var want := ServerWant(u.sc, x.s.s);
      if want.Read? {
        TakeFromLonger(x.toServer, NextClient(u, x).value.send, want.n);
      }
    }
  }

  /** Two enabled calls commute. */
  lemma Commute(u: Setup, x: Sys)
    requires Do(u, x, ByClient).Some? && Do(u, x, ByServer).Some?
    ensures Do(u, Do(u, x, ByClient).value, ByServer).Some?
    ensures Do(u, Do(u, x, ByServer).value, ByClient) == Do(u, Do(u, x, ByClient).value, ByServer)
  {
    ClientUndisturbed(u, x);
    ServerUndisturbed(u, x);
    var c, s := NextClient(u, x).value, NextServer(u, x).value;
    TakeFromLonger(x.toServer, c.send, s.take);
    TakeFromLonger(x.toClient, s.send, c.take);
  }

  lemma SessionDiamond(u: Setup)
    ensures Diamond(Steps(u))
  {
    var step := Steps(u);
    forall x: Sys, who: Who | step(x, who).Some? && step(x, Other(who)).Some?
      ensures step(step(x, who).value, Other(who)).Some?
              && step(step(x, who).value, Other(who)) == step(step(x, Other(who)).value, who)
    {
      assert Do(u, x, ByClient).Some? && Do(u, x, ByServer).Some?;
      Commute(u, x);
    }
  }

  // ------------------------------------------------------- one whole session

  ghost predicate Goes(u: Setup, x: Sys, y: Sys) { exists k: nat :: Reaches(Steps(u), x, k, y) }

  lemma GoesTrans(u: Setup, x: Sys, y: Sys, z: Sys)
    requires Goes(u, x, y) && Goes(u, y, z)
    ensures Goes(u, x, z)
  {
    var i: nat :| Reaches(Steps(u), x, i, y);
    var j: nat :| Reaches(Steps(u), y, j, z);
    ReachesTrans(Steps(u), x, i, y, j, z);
  }

  lemma GoesOne(u: Setup, x: Sys, who: Who, y: Sys)
    requires Do(u, x, who) == Some(y)
    ensures Goes(u, x, y)
  {
    var step := Steps(u);
    assert step(x, who) == Some(y);
    assert Reaches(step, y, 0, y);
    assert Reaches(step, x, 1, y);
  }

  /** The server reads the front of its queue. */
  lemma ServerReads(u: Setup, c: Client, s: Server, got: bytes, rest: bytes, back: bytes)
    requires ServerWant(u.sc, s) == Read(|got|)
    ensures Goes(u, Sys(c, Shaking(s), got + rest, back), Sys(c, Shaking(ServerNext(u.sc, s, got)), rest, back))
  {
    assert (got + rest)[..|got|] == got && (got + rest)[|got|..] == rest;
    var x := Sys(c, Shaking(s), got + rest, back);
    assert back + [] == back;
    GoesOne(u, x, ByServer, Sys(c, Shaking(ServerNext(u.sc, s, got)), rest, back));
  }

  lemma ClientReads(u: Setup, c: Client, s: Side, got: bytes, rest: bytes, forth: bytes)
    requires ClientWant(u.cc, c) == Read(|got|)
    ensures Goes(u, Sys(c, s, forth, got + rest), Sys(ClientNext(u.cc, c, got), s, forth, rest))
  {
    assert (got + rest)[..|got|] == got && (got + rest)[|got|..] == rest;
    var x := Sys(c, s, forth, got + rest);
    assert forth + [] == forth;
    GoesOne(u, x, ByClient, Sys(ClientNext(u.cc, c, got), s, forth, rest));
  }

  lemma ServerWrites(u: Setup, c: Client, s: Server)
    requires ServerWant(u.sc, s).Write?
    ensures Goes(u, Sys(c, Shaking(s), [], []), Sys(c, Shaking(ServerNext(u.sc, s, [])), [], ServerWant(u.sc, s).data))
  {
    var data := ServerWant(u.sc, s).data;
    var none: bytes := [];
    assert none + data == data && none[0..] == none;
    GoesOne(u, Sys(c, Shaking(s), [], []), ByServer, Sys(c, Shaking(ServerNext(u.sc, s, [])), [], ServerWant(u.sc, s).data));
  }

  lemma ClientWrites(u: Setup, c: Client, s: Side)
    requires ClientWant(u.cc, c).Write?
    ensures Goes(u, Sys(c, s, [], []), Sys(ClientNext(u.cc, c, []), s, ClientWant(u.cc, c).data, []))
  {
    var data := ClientWant(u.cc, c).data;
    var none: bytes := [];
    assert none + data == data && none[0..] == none;
    GoesOne(u, Sys(c, s, [], []), ByClient, Sys(ClientNext(u.cc, c, []), s, ClientWant(u.cc, c).data, []));
  }

  /** A client that gives up without sending leaves the server at the end of its input. */
  lemma ClientGivesUp(u: Setup, c: Client, s: Server, r: ClientResult)
    requires ClientWant(u.cc, c) == Read(0) && ClientNext(u.cc, c, []) == CDone(r)
    requires ServerWant(u.sc, s).Read? && ServerWant(u.sc, s).n > 0
    ensures Goes(u, Sys(c, Shaking(s), [], []), Sys(CDone(r), Shaking(SDone(Err(Eof))), [], []))
  {
    ClientStops(u, c, s, r);
    ServerEnds(u, s, r);
    GoesTrans(u, Sys(c, Shaking(s), [], []), Sys(CDone(r), Shaking(s), [], []), Sys(CDone(r), Shaking(SDone(Err(Eof))), [], []));
  }

  lemma ClientStops(u: Setup, c: Client, s: Server, r: ClientResult)
    requires ClientWant(u.cc, c) == Read(0) && ClientNext(u.cc, c, []) == CDone(r)
    ensures Goes(u, Sys(c, Shaking(s), [], []), Sys(CDone(r), Shaking(s), [], []))
  {
    var none: bytes := [];
    assert none[..0] == none && none[0..] == none && none + none == none;
    GoesOne(u, Sys(c, Shaking(s), [], []), ByClient, Sys(CDone(r), Shaking(s), [], []));
  }

  lemma EndOfInput(u: Setup, s: Server, r: ClientResult)
    requires ServerWant(u.sc, s).Read? && ServerWant(u.sc, s).n > 0
    ensures NextServer(u, Sys(CDone(r), Shaking(s), [], [])) == Some(ServerMove(Shaking(SDone(Err(Eof))), 0, []))
  {
  }

  lemma ServerEnds(u: Setup, s: Server, r: ClientResult)
    requires ServerWant(u.sc, s).Read? && ServerWant(u.sc, s).n > 0
    ensures Goes(u, Sys(CDone(r), Shaking(s), [], []), Sys(CDone(r), Shaking(SDone(Err(Eof))), [], []))
  {
    var none: bytes := [];
    assert none[0..] == none && none + none == none;
    EndOfInput(u, s, r);
    GoesOne(u, Sys(CDone(r), Shaking(s), [], []), ByServer, Sys(CDone(r), Shaking(SDone(Err(Eof))), [], []));
  }

  predicate SameMethod(u: Setup) { u.cc.creds.Some? == u.sc.creds.Some? }

  /** Greeting and method choice. */
  lemma Greeting(u: Setup)
    ensures Goes(u, START,
                 if SameMethod(u) then Sys(if u.cc.creds.Some? then CAuth else CRequest, Shaking(if u.sc.creds.Some? then SAuthHead else SReqHead), [], [])
                 else Sys(CDone(Refused), Shaking(SDone(Err(NotOffered))), [], []))
  {
    var m := ClientMethod(u.cc);
    var x1 := Sys(CMethod, Shaking(SHead), [VERSION, 1, m], []);
    ClientWrites(u, CGreet, Shaking(SHead));
    var x2 := Sys(CMethod, Shaking(SMethods(1)), [m], []);
    assert [VERSION, 1, m] == [VERSION, 1] + [m];
    ServerReads(u, CMethod, SHead, [VERSION, 1], [m], []);
    var ok := SameMethod(u);
    assert (ServerMethod(u.sc) in [m]) == ok;
    var x3 := Sys(CMethod, Shaking(SSelect(ok)), [], []);
    assert [m] + [] == [m];
    ServerReads(u, CMethod, SMethods(1), [m], [], []);
    ServerWrites(u, CMethod, SSelect(ok));
    var reply: bytes := [VERSION, if ok then ServerMethod(u.sc) else NO_METHOD];
    var s4 := ServerNext(u.sc, SSelect(ok), []);
    assert reply + [] == reply;
    ClientReads(u, CMethod, Shaking(s4), reply, [], []);
    GoesTrans(u, START, x1, x2);
    GoesTrans(u, START, x2, x3);
    GoesTrans(u, START, x3, Sys(CMethod, Shaking(s4), [], reply));
    GoesTrans(u, START, Sys(CMethod, Shaking(s4), [], reply), Sys(ClientNext(u.cc, CMethod, reply), Shaking(s4), [], []));
  }

  /** The server reads a credentials message. */
  lemma CredsRead(u: Setup, c: Creds)
    requires u.cc.creds == Some(c) && CredsFit(c) && u.sc.creds.Some?
    ensures Goes(u, Sys(CAuthReply, Shaking(SAuthHead), AuthBytes(c), []),
                 Sys(CAuthReply, Shaking(SAuthReply(u.sc.creds == Some(c))), [], []))
  {
    var head: bytes, len: bytes := [AUTH_VERSION, |c.user|], [|c.password|];
    var x0 := Sys(CAuthReply, Shaking(SAuthHead), AuthBytes(c), []);
    assert AuthBytes(c) == head + (c.user + (len + (c.password + [])));
    ServerReads(u, CAuthReply, SAuthHead, head, c.user + (len + (c.password + [])), []);
    var x1 := Sys(CAuthReply, Shaking(SAuthUser(|c.user|)), c.user + (len + (c.password + [])), []);
    ServerReads(u, CAuthReply, SAuthUser(|c.user|), c.user, len + (c.password + []), []);
    var x2 := Sys(CAuthReply, Shaking(SAuthLen(c.user)), len + (c.password + []), []);
    ServerReads(u, CAuthReply, SAuthLen(c.user), len, c.password + [], []);
    var x3 := Sys(CAuthReply, Shaking(SAuthPass(c.user, |c.password|)), c.password + [], []);
    ServerReads(u, CAuthReply, SAuthPass(c.user, |c.password|), c.password, [], []);
    GoesTrans(u, x0, x1, x2);
    GoesTrans(u, x0, x2, x3);
    GoesTrans(u, x0, x3, Sys(CAuthReply, Shaking(SAuthReply(u.sc.creds == Some(c))), [], []));
  }

  /** Authentication: both sides agree on its outcome. */
  lemma Authentication(u: Setup)
    requires u.cc.creds.Some? && u.sc.creds.Some?
    ensures Goes(u, Sys(CAuth, Shaking(SAuthHead), [], []),
                 if !CredsFit(u.cc.creds.value) then Sys(CDone(CredsTooLong), Shaking(SDone(Err(Eof))), [], [])
                 else if u.cc.creds != u.sc.creds then Sys(CDone(CredsRejected), Shaking(SDone(Err(AuthFailed))), [], [])
                 else Sys(CRequest, Shaking(SReqHead), [], []))
  {
    var c := u.cc.creds.value;
    var x0 := Sys(CAuth, Shaking(SAuthHead), [], []);
    if !CredsFit(c) {
      ClientGivesUp(u, CAuth, SAuthHead, CredsTooLong);
    } else {
      ClientWrites(u, CAuth, Shaking(SAuthHead));
      CredsRead(u, c);
      var ok := u.sc.creds == Some(c);
      ServerWrites(u, CAuthReply, SAuthReply(ok));
      var reply: bytes := [AUTH_VERSION, if ok then 0 else 1];
      var s := ServerNext(u.sc, SAuthReply(ok), []);
      assert reply + [] == reply;
      ClientReads(u, CAuthReply, Shaking(s), reply, [], []);
      GoesTrans(u, x0, Sys(CAuthReply, Shaking(SAuthHead), AuthBytes(c), []), Sys(CAuthReply, Shaking(SAuthReply(ok)), [], []));
      GoesTrans(u, x0, Sys(CAuthReply, Shaking(SAuthReply(ok)), [], []), Sys(CAuthReply, Shaking(s), [], reply));
      GoesTrans(u, x0, Sys(CAuthReply, Shaking(s), [], reply), Sys(ClientNext(u.cc, CAuthReply, reply), Shaking(s), [], []));
    }
  }

  lemma Bytes4Back(a: u32)
    ensures FromBytes(Bytes4(a)) == V4(a)
  {
    PowLimits();
    BigEndianOf(a, 4);
  }

  lemma Bytes16Back(a: u128)
    ensures FromBytes(Bytes16(a)) == V6(a).Unmap()
  {
    PowLimits();
    BigEndianOf(a, 16);
  }

  /** Both sides of a session use one parser. */
  ghost predicate SameText(u: Setup) { u.cc.text == u.sc.text && ParsesValid(u.cc.text) }

  /** The server reads the address field of a request. */
  lemma AddressRead(u: Setup, c: Client, rest: bytes)
    requires SameText(u) && HostFits(u.cc)
    ensures Goes(u, Sys(c, Shaking(SAddr(CONNECT, AddrField(u.cc.text, u.cc.host)[0])), AddrField(u.cc.text, u.cc.host)[1..] + rest, []),
                 Sys(c, Shaking(SPort(CONNECT, Canonical(u.cc.text, u.cc.host))), rest, []))
  {
    var t, host := u.cc.text, u.cc.host;
    var f := AddrField(t, host);
    var atyp := f[0];
    var x := Sys(c, Shaking(SAddr(CONNECT, atyp)), f[1..] + rest, []);
    if t.parse(host).Some? {
      var ip := t.parse(host).value.Unmap();
      if ip.V4? {
        assert f[1..] == Bytes4(ip.a4);
        Bytes4Back(ip.a4);
        ServerReads(u, c, SAddr(CONNECT, atyp), Bytes4(ip.a4), rest, []);
      } else {
        assert f[1..] == Bytes16(ip.a6);
        Bytes16Back(ip.a6);
        ServerReads(u, c, SAddr(CONNECT, atyp), Bytes16(ip.a6), rest, []);
      }
    } else {
      var len: bytes := [|host|];
      assert f[1..] == len + host;
      assert f[1..] + rest == len + (host + rest);
      ServerReads(u, c, SAddr(CONNECT, atyp), len, host + rest, []);
      var y := Sys(c, Shaking(SDomain(CONNECT, |host|)), host + rest, []);
      ServerReads(u, c, SDomain(CONNECT, |host|), host, rest, []);
      GoesTrans(u, x, y, Sys(c, Shaking(SPort(CONNECT, host)), rest, []));
    }
  }

  /** What the server makes of a whole request. */
  function Verdict(u: Setup): Server
  {
    if CONNECT !in u.sc.cmds then SRefuse(REP_COMMAND, BadCommand)
    else if Canonical(u.cc.text, u.cc.host) == [] then SRefuse(REP_GENERAL_FAILURE, EmptyHost)
    else SDone(Ok(Request(CONNECT, Canonical(u.cc.text, u.cc.host), u.cc.port)))
  }

  lemma FieldType(t: Text, host: bytes)
    ensures AddrLength(AddrField(t, host)[0]).Some?
  {
  }

  lemma RequestHeadRead(u: Setup, atyp: byte, rest: bytes)
    requires AddrLength(atyp).Some?
    ensures Goes(u, Sys(CHead, Shaking(SReqHead), [VERSION, CONNECT, 0, atyp] + rest, []), Sys(CHead, Shaking(SAddr(CONNECT, atyp)), rest, []))
  {
    ServerReads(u, CHead, SReqHead, [VERSION, CONNECT, 0, atyp], rest, []);
  }

  lemma RequestPortRead(u: Setup)
    ensures Goes(u, Sys(CHead, Shaking(SPort(CONNECT, Canonical(u.cc.text, u.cc.host))), PutU16(u.cc.port) + [], []),
                 Sys(CHead, Shaking(Verdict(u)), [], []))
  {
    var h, p := Canonical(u.cc.text, u.cc.host), PutU16(u.cc.port);
    ServerReads(u, CHead, SPort(CONNECT, h), p, [], []);
  }

  lemma RequestSplit(u: Setup)
    ensures var f := AddrField(u.cc.text, u.cc.host);
            RequestBytes(u.cc) == [VERSION, CONNECT, 0, f[0]] + (f[1..] + (PutU16(u.cc.port) + []))
  {
    var f := AddrField(u.cc.text, u.cc.host);
    assert f == [f[0]] + f[1..];
  }

  lemma RequestRead(u: Setup)
    requires SameText(u) && HostFits(u.cc)
    ensures Goes(u, Sys(CHead, Shaking(SReqHead), RequestBytes(u.cc), []), Sys(CHead, Shaking(Verdict(u)), [], []))
  {
    var f, rest := AddrField(u.cc.text, u.cc.host), PutU16(u.cc.port) + [];
    FieldType(u.cc.text, u.cc.host);
    RequestSplit(u);
    RequestHeadRead(u, f[0], f[1..] + rest);
    AddressRead(u, CHead, rest);
    RequestPortRead(u);
    var x0 := Sys(CHead, Shaking(SReqHead), RequestBytes(u.cc), []);
    var x1 := Sys(CHead, Shaking(SAddr(CONNECT, f[0])), f[1..] + rest, []);
    var x2 := Sys(CHead, Shaking(SPort(CONNECT, Canonical(u.cc.text, u.cc.host))), rest, []);
    GoesTrans(u, x0, x1, x2);
    GoesTrans(u, x0, x2, Sys(CHead, Shaking(Verdict(u)), [], []));
  }

  /** The client reads a whole reply. */
  lemma ReplyTailRead(u: Setup, s: Side, code: byte, atyp: byte, addr: bytes, p: bytes)
    requires AddrLength(atyp) == Some(|addr|) && |p| == 2 && ClientWant(u.cc, CAddr(code, atyp)) == Read(|addr|)
    requires ClientNext(u.cc, CAddr(code, atyp), addr) == CPort(code)
    ensures Goes(u, Sys(CAddr(code, atyp), s, [], addr + (p + [])),
                 Sys(CDone(if code == REP_SUCCEEDED then Connected else ReplyError(code)), s, [], []))
  {
    ClientReads(u, CAddr(code, atyp), s, addr, p + [], []);
    ClientReads(u, CPort(code), s, p, [], []);
    GoesTrans(u, Sys(CAddr(code, atyp), s, [], addr + (p + [])), Sys(CPort(code), s, [], p + []),
              Sys(ClientNext(u.cc, CPort(code), p), s, [], []));
  }

  lemma ReplyRead(u: Setup, s: Side, code: byte, bound: Addr, port: u16)
    ensures Goes(u, Sys(CHead, s, [], ReplyBytes(code, bound, port)),
                 Sys(CDone(if code == REP_SUCCEEDED then Connected else ReplyError(code)), s, [], []))
  {
    var b := bound.Unmap();
    var atyp: byte := if b.V6? then ATYP_IPV6 else ATYP_IPV4;
    var addr: bytes := match b case V4(a) => Bytes4(a) case V6(a) => Bytes16(a) case NoAddr => [0, 0, 0, 0];
    var p := PutU16(port);
    var head: bytes := [VERSION, code, 0, atyp];
    assert ReplyBytes(code, bound, port) == head + (addr + (p + []));
    ClientReads(u, CHead, s, head, addr + (p + []), []);
    ReplyTailRead(u, s, code, atyp, addr, p);
    GoesTrans(u, Sys(CHead, s, [], ReplyBytes(code, bound, port)), Sys(CAddr(code, atyp), s, [], addr + (p + [])),
              Sys(CDone(if code == REP_SUCCEEDED then Connected else ReplyError(code)), s, [], []));
  }

  /** Where a session ends. */
  function Outcome(u: Setup): Sys
  {
    if !SameMethod(u) then Sys(CDone(Refused), Shaking(SDone(Err(NotOffered))), [], [])
    else if u.cc.creds.Some? && !CredsFit(u.cc.creds.value) then Sys(CDone(CredsTooLong), Shaking(SDone(Err(Eof))), [], [])
    else if u.cc.creds != u.sc.creds then Sys(CDone(CredsRejected), Shaking(SDone(Err(AuthFailed))), [], [])
    else if !HostFits(u.cc) then Sys(CDone(HostTooLong), Shaking(SDone(Err(Eof))), [], [])
    else
      match Verdict(u)
      case SRefuse(code, err) => Sys(CDone(ReplyError(code)), Shaking(SDone(Err(err))), [], [])
      case SDone(r) => Sys(CDone(if u.code == REP_SUCCEEDED then Connected else ReplyError(u.code)), Replied(r), [], [])
  }

  /** From the request on. */
  lemma RequestPhase(u: Setup)
    requires SameText(u)
    requires SameMethod(u) && u.cc.creds == u.sc.creds && (u.cc.creds.Some? ==> CredsFit(u.cc.creds.value))
    ensures Goes(u, Sys(CRequest, Shaking(SReqHead), [], []), Outcome(u))
  {
    var x0 := Sys(CRequest, Shaking(SReqHead), [], []);
    if !HostFits(u.cc) {
      ClientGivesUp(u, CRequest, SReqHead, HostTooLong);
    } else {
      ClientWrites(u, CRequest, Shaking(SReqHead));
      RequestRead(u);
      var x1 := Sys(CHead, Shaking(Verdict(u)), [], []);
      GoesTrans(u, x0, Sys(CHead, Shaking(SReqHead), RequestBytes(u.cc), []), x1);
      VerdictPhase(u);
      GoesTrans(u, x0, x1, Outcome(u));
    }
  }

  lemma VerdictPhase(u: Setup)
    requires SameMethod(u) && u.cc.creds == u.sc.creds && (u.cc.creds.Some? ==> CredsFit(u.cc.creds.value)) && HostFits(u.cc)
    ensures Goes(u, Sys(CHead, Shaking(Verdict(u)), [], []), Outcome(u))
  {
    var v := Verdict(u);
    var x := Sys(CHead, Shaking(v), [], []);
    if v.SRefuse? {
      ServerWrites(u, CHead, v);
      var y := Sys(CHead, Shaking(SDone(Err(v.err))), [], ReplyBytes(v.code, NoAddr, 0));
      ReplyRead(u, y.s, v.code, NoAddr, 0);
      GoesTrans(u, x, y, Outcome(u));
    } else {
      var y := Sys(CHead, Replied(v.r), [], ReplyBytes(u.code, u.bound, u.boundPort));
      var reply, none: bytes := ReplyBytes(u.code, u.bound, u.boundPort), [];
      assert none + reply == reply && none[0..] == none;
      GoesOne(u, x, ByServer, y);
      ReplyRead(u, y.s, u.code, u.bound, u.boundPort);
      GoesTrans(u, x, y, Outcome(u));
    }
  }

  lemma SomeSchedule(u: Setup)
    requires SameText(u)
    ensures Goes(u, START, Outcome(u))
  {
    Greeting(u);
    if SameMethod(u) {
      var x1 := Sys(if u.cc.creds.Some? then CAuth else CRequest, Shaking(if u.sc.creds.Some? then SAuthHead else SReqHead), [], []);
      var x2 := Sys(CRequest, Shaking(SReqHead), [], []);
      if u.cc.creds.Some? {
        Authentication(u);
        if CredsFit(u.cc.creds.value) && u.cc.creds == u.sc.creds {
          GoesTrans(u, START, x1, x2);
        } else {
          GoesTrans(u, START, x1, Outcome(u));
        }
      }
      if u.cc.creds == u.sc.creds && (u.cc.creds.Some? ==> CredsFit(u.cc.creds.value)) {
        RequestPhase(u);
        GoesTrans(u, START, x2, Outcome(u));
      }
    }
  }

  lemma OutcomeStuck(u: Setup)
    ensures Stuck(Steps(u), Outcome(u))
  {
    var x := Outcome(u);
    assert Do(u, x, ByClient) == None && Do(u, x, ByServer) == None;
  }

  /** The length of a session. */
  ghost function Length(u: Setup): (k: nat)
    requires SameText(u)
    ensures Reaches(Steps(u), START, k, Outcome(u))
  {
    SomeSchedule(u);
    var k: nat :| Reaches(Steps(u), START, k, Outcome(u));
    k
  }

  /**
   Under every interleaving of reads and writes: no schedule blocks before the
   end, all of them end, after the same number of steps, in the same state, with
   every byte consumed by the other side.
   */
  lemma EverySession(u: Setup, schedule: seq<Who>)
    requires SameText(u) && After(Steps(u), START, schedule).Some?
    ensures Arrives(Steps(u), START, Length(u), Outcome(u), schedule)
  {
    SessionDiamond(u);
    OutcomeStuck(u);
    EveryScheduleArrives(Steps(u), START, Length(u), Outcome(u), schedule);
  }

  /**
   What that end is. With equal credentials that fit, a host that fits and CONNECT
   allowed, the server obtains the client's host and port, and the client succeeds
   exactly when the reply code is 0. Different credentials end both sides in an
   authentication failure.
   */
  lemma OutcomeMeaning(u: Setup)
    requires SameText(u)
    ensures u.cc.creds == u.sc.creds && (u.cc.creds.Some? ==> CredsFit(u.cc.creds.value))
            && HostFits(u.cc) && u.cc.host != [] && CONNECT in u.sc.cmds ==>
              && Outcome(u).s == Replied(Ok(Request(CONNECT, Canonical(u.cc.text, u.cc.host), u.cc.port)))
              && (Outcome(u).c == CDone(Connected) <==> u.code == 0)
    ensures u.cc.creds.Some? && u.sc.creds.Some? && u.cc.creds != u.sc.creds && CredsFit(u.cc.creds.value) ==>
              Outcome(u).c == CDone(CredsRejected) && Outcome(u).s == Shaking(SDone(Err(AuthFailed)))
    ensures u.cc.text.parse(Canonical(u.cc.text, u.cc.host))
         == if u.cc.text.parse(u.cc.host).Some? then Some(u.cc.text.parse(u.cc.host).value.Unmap()) else None
    ensures Outcome(u).toServer == [] && Outcome(u).toClient == []
  {
    var t := u.cc.text;
    if t.parse(u.cc.host).Some? {
      var ip := t.parse(u.cc.host).value.Unmap();
      assert t.parse(t.format(ip)) == Some(ip);
    }
  }
}
