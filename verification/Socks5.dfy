/**
 SOCKS5 handshakes (internal/socks5/socks5.go; RFC 1928, RFC 1929). Each side is
 given twice: as the code that reads and writes a stream, and as the machine of
 its read and write calls, which the code is proved to run.
 */
module Socks5 {
  import opened Wrappers
  import opened Wire
  import opened Addr

  const VERSION: byte := 5
  const AUTH_VERSION: byte := 1
  const NO_AUTH: byte := 0
  const USER_PASS: byte := 2
  const NO_METHOD: byte := 0xff
  const CONNECT: byte := 1
  const ATYP_IPV4: byte := 1
  const ATYP_DOMAIN: byte := 3
  const ATYP_IPV6: byte := 4
  const REP_SUCCEEDED: byte := 0
  const REP_GENERAL_FAILURE: byte := 1
  const REP_COMMAND: byte := 7
  const REP_ATYP: byte := 8

  datatype Creds = Creds(user: bytes, password: bytes)

  /** Go's address text: netip.ParseAddr and Addr.String, without zones. */
  datatype Text = Text(parse: bytes -> Option<Addr>, format: Addr -> bytes)

  ghost predicate Faithful(t: Text)
  {
    t.parse([]) == None && forall a: Addr :: a.IsValid() ==> t.parse(t.format(a)) == Some(a)
  }

  /** What parses is a valid address. */
  ghost predicate ParsesValid(t: Text)
  {
    Faithful(t) && forall h :: t.parse(h).Some? ==> t.parse(h).value.IsValid()
  }

  /** The host the other side reads: an IP literal in its canonical text, any other name unchanged. */
  function Canonical(t: Text, host: bytes): bytes
  {
    match t.parse(host)
    case Some(ip) => t.format(ip.Unmap())
    case None => host
  }

  // ---------------------------------------------------------- the addresses

  function Bytes4(a: u32): (r: bytes) ensures |r| == 4 { ToBigEndian(a, 4) }

  function Bytes16(a: u128): (r: bytes) ensures |r| == 16 { ToBigEndian(a, 16) }

  function FromBytes(b: bytes): (a: Addr)
    requires |b| == 4 || |b| == 16
    ensures a.IsValid()
  {
    ToBigEndianOf(b);
    PowLimits();
    if |b| == 4 then V4(BigEndian(b)) else V6(BigEndian(b)).Unmap()
  }

  lemma PowLimits()
    ensures Pow256(4) == 0x1_0000_0000
    ensures Pow256(16) == 0x1_0000_0000_0000_0000_0000_0000_0000_0000
  {
    assert Pow256(2) == 0x1_0000;
    assert Pow256(4) == 0x1_0000_0000;
    assert Pow256(6) == 0x1_0000_0000_0000;
    assert Pow256(8) == 0x1_0000_0000_0000_0000;
    assert Pow256(10) == 0x1_0000_0000_0000_0000_0000;
    assert Pow256(12) == 0x1_0000_0000_0000_0000_0000_0000;
    assert Pow256(14) == 0x1_0000_0000_0000_0000_0000_0000_0000;
  }

  /** The address type and address of a request, as the client writes them. */
  function AddrField(t: Text, host: bytes): (r: bytes)
    ensures |r| >= 2
  {
    match t.parse(host)
    case Some(ip) =>
      (match ip.Unmap()
       case V4(a) => [ATYP_IPV4] + Bytes4(a)
       case V6(a) => [ATYP_IPV6] + Bytes16(a)
       case NoAddr => [ATYP_IPV6] + Bytes16(0))
    case None => [ATYP_DOMAIN, |host| % 256] + host
  }

  /** A CONNECT reply; an invalid bound address is written as 0.0.0.0. */
  function ReplyBytes(code: byte, bound: Addr, port: u16): (r: bytes)
    ensures |r| >= 5
  {
    [VERSION, code, 0]
    + (match bound.Unmap()
       case V4(a) => [ATYP_IPV4] + Bytes4(a)
       case V6(a) => [ATYP_IPV6] + Bytes16(a)
       case NoAddr => [ATYP_IPV4, 0, 0, 0, 0])
    + PutU16(port)
  }

  // ------------------------------------------------------------ the machines

  /** What a side does next: read n bytes, write some, or nothing more. */
  datatype Want = Read(n: nat) | Write(data: bytes) | Halt

  datatype ServerError =
    | Eof | NotSocks5 | NotOffered | BadAuthVersion | AuthFailed
    | BadRequestVersion | BadAtyp | BadCommand | EmptyHost

  datatype Request = Request(cmd: byte, host: bytes, port: u16)

  datatype ServerConfig = ServerConfig(creds: Option<Creds>, cmds: set<byte>, text: Text)

  datatype Server =
    | SHead | SMethods(count: nat) | SSelect(ok: bool)
    | SAuthHead | SAuthUser(n: nat) | SAuthLen(user: bytes) | SAuthPass(user: bytes, m: nat) | SAuthReply(ok: bool)
    | SReqHead | SAddr(cmd: byte, atyp: byte) | SDomain(cmd: byte, len: nat) | SPort(cmd: byte, host: bytes)
    | SRefuse(code: byte, err: ServerError)
    | SDone(r: Result<Request, ServerError>)

  function ServerMethod(cfg: ServerConfig): byte { if cfg.creds.Some? then USER_PASS else NO_AUTH }

  /** The bytes an address of this type starts with: its length, or that of its length field. */
  function AddrLength(atyp: byte): Option<nat>
  {
    if atyp == ATYP_IPV4 then Some(4) else if atyp == ATYP_IPV6 then Some(16)
    else if atyp == ATYP_DOMAIN then Some(1) else None
  }

  function ServerWant(cfg: ServerConfig, s: Server): Want
  {
    match s
    case SHead => Read(2)
    case SMethods(count) => Read(count)
    case SSelect(ok) => Write([VERSION, if ok then ServerMethod(cfg) else NO_METHOD])
    case SAuthHead => Read(2)
    case SAuthUser(n) => Read(n)
    case SAuthLen(_) => Read(1)
    case SAuthPass(_, m) => Read(m)
    case SAuthReply(ok) => Write([AUTH_VERSION, if ok then 0 else 1])
    case SReqHead => Read(4)
    case SAddr(_, atyp) => Read(if AddrLength(atyp).Some? then AddrLength(atyp).value else 0)
    case SDomain(_, len) => Read(len)
    case SPort(_, _) => Read(2)
    case SRefuse(code, _) => Write(ReplyBytes(code, NoAddr, 0))
    case SDone(_) => Halt
  }

  /** The next state after the wanted bytes were read (or written). */
  function ServerNext(cfg: ServerConfig, s: Server, got: bytes): Server
    requires ServerWant(cfg, s).Read? ==> |got| == ServerWant(cfg, s).n
    requires ServerWant(cfg, s) != Halt
  {
    match s
    case SHead => if got[0] != VERSION then SDone(Err(NotSocks5)) else SMethods(got[1])
    case SMethods(_) => SSelect(ServerMethod(cfg) in got)
    case SSelect(ok) =>
      if !ok then SDone(Err(NotOffered)) else if cfg.creds.Some? then SAuthHead else SReqHead
    case SAuthHead => if got[0] != AUTH_VERSION then SDone(Err(BadAuthVersion)) else SAuthUser(got[1])
    case SAuthUser(_) => SAuthLen(got)
    case SAuthLen(user) => SAuthPass(user, got[0])
    case SAuthPass(user, _) => SAuthReply(cfg.creds == Some(Creds(user, got)))
    case SAuthReply(ok) => if ok then SReqHead else SDone(Err(AuthFailed))
    case SReqHead =>
      if got[0] != VERSION then SDone(Err(BadRequestVersion))
      else if AddrLength(got[3]).None? then SRefuse(REP_ATYP, BadAtyp)
      else SAddr(got[1], got[3])
    case SAddr(cmd, atyp) =>
      if atyp == ATYP_DOMAIN then SDomain(cmd, if |got| == 1 then got[0] else 0)
      else SPort(cmd, if |got| == 4 || |got| == 16 then cfg.text.format(FromBytes(got)) else [])
    case SDomain(cmd, _) => SPort(cmd, got)
    case SPort(cmd, host) =>
      if cmd !in cfg.cmds then SRefuse(REP_COMMAND, BadCommand)
      else if cmd == CONNECT && host == [] then SRefuse(REP_GENERAL_FAILURE, EmptyHost)
      else SDone(Ok(Request(cmd, host, U16(got))))
    case SRefuse(_, err) => SDone(Err(err))
  }

  function ServerRank(s: Server): nat
  {
    match s
    case SHead => 13 case SMethods(_) => 12 case SSelect(_) => 11
    case SAuthHead => 10 case SAuthUser(_) => 9 case SAuthLen(_) => 8 case SAuthPass(_, _) => 7 case SAuthReply(_) => 6
    case SReqHead => 5 case SAddr(_, _) => 4 case SDomain(_, _) => 3 case SPort(_, _) => 2
    case SRefuse(_, _) => 1
    case SDone(_) => 0
  }

  datatype ServerRun = ServerRun(r: Result<Request, ServerError>, input: bytes, output: bytes)

  /** The machine against a stream whose peer sent exactly input and then closed. */
  function RunServer(cfg: ServerConfig, s: Server, input: bytes, output: bytes): ServerRun
    decreases ServerRank(s)
  {
    match ServerWant(cfg, s)
    case Halt => ServerRun(s.r, input, output)
    case Write(data) => RunServer(cfg, ServerNext(cfg, s, []), input, output + data)
    case Read(n) =>
      if |input| < n then ServerRun(Err(Eof), [], output)
      else RunServer(cfg, ServerNext(cfg, s, input[..n]), input[n..], output)
  }

  datatype ClientResult =
    | Connected | ClientEof | Refused | BadMethodReply | CredsTooLong | CredsRejected
    | HostTooLong | BadReplyAtyp | ReplyError(code: byte)

  datatype ClientConfig = ClientConfig(creds: Option<Creds>, host: bytes, port: u16, text: Text)

  datatype Client =
    | CGreet | CMethod | CAuth | CAuthReply | CRequest
    | CHead | CAddr(code: byte, atyp: byte) | CDomain(code: byte, len: nat) | CPort(code: byte)
    | CDone(r: ClientResult)

  function ClientMethod(cfg: ClientConfig): byte { if cfg.creds.Some? then USER_PASS else NO_AUTH }

  function AuthBytes(c: Creds): bytes
    requires |c.user| < 256 && |c.password| < 256
  {
    [AUTH_VERSION, |c.user|] + c.user + [|c.password|] + c.password
  }

  function RequestBytes(cfg: ClientConfig): bytes
  {
    [VERSION, CONNECT, 0] + AddrField(cfg.text, cfg.host) + PutU16(cfg.port)
  }

  predicate CredsFit(c: Creds) { |c.user| <= 255 && |c.password| <= 255 }

  predicate HostFits(cfg: ClientConfig) { cfg.text.parse(cfg.host).Some? || |cfg.host| <= 255 }

  function ClientWant(cfg: ClientConfig, c: Client): Want
  {
    match c
    case CGreet => Write([VERSION, 1, ClientMethod(cfg)])
    case CMethod => Read(2)
    case CAuth => if cfg.creds.Some? && CredsFit(cfg.creds.value) then Write(AuthBytes(cfg.creds.value)) else Read(0)
    case CAuthReply => Read(2)
    case CRequest => if HostFits(cfg) then Write(RequestBytes(cfg)) else Read(0)
    case CHead => Read(4)
    case CAddr(_, atyp) => Read(if AddrLength(atyp).Some? then AddrLength(atyp).value else 0)
    case CDomain(_, len) => Read(len)
    case CPort(_) => Read(2)
    case CDone(_) => Halt
  }

  function ClientNext(cfg: ClientConfig, c: Client, got: bytes): Client
    requires ClientWant(cfg, c).Read? ==> |got| == ClientWant(cfg, c).n
    requires ClientWant(cfg, c) != Halt
  {
    match c
    case CGreet => CMethod
    case CMethod =>
      if got[0] != VERSION || got[1] != ClientMethod(cfg) then
        CDone(if got[1] == NO_METHOD then Refused else BadMethodReply)
      else if cfg.creds.None? then CRequest
      else CAuth
    case CAuth => if cfg.creds.Some? && CredsFit(cfg.creds.value) then CAuthReply else CDone(CredsTooLong)
    case CAuthReply => if got[1] != 0 then CDone(CredsRejected) else CRequest
    case CRequest => if HostFits(cfg) then CHead else CDone(HostTooLong)
    case CHead => if AddrLength(got[3]).None? then CDone(BadReplyAtyp) else CAddr(got[1], got[3])
    case CAddr(code, atyp) =>
      if atyp == ATYP_DOMAIN then CDomain(code, if |got| == 1 then got[0] else 0) else CPort(code)
    case CDomain(code, _) => CPort(code)
    case CPort(code) => CDone(if code != REP_SUCCEEDED then ReplyError(code) else Connected)
  }

  function ClientRank(c: Client): nat
  {
    match c
    case CGreet => 9 case CMethod => 8 case CAuth => 7 case CAuthReply => 6 case CRequest => 5
    case CHead => 4 case CAddr(_, _) => 3 case CDomain(_, _) => 2 case CPort(_) => 1
    case CDone(_) => 0
  }

  datatype ClientRun = ClientRun(r: ClientResult, input: bytes, output: bytes)

  function RunClient(cfg: ClientConfig, c: Client, input: bytes, output: bytes): ClientRun
    decreases ClientRank(c)
  {
    match ClientWant(cfg, c)
    case Halt => ClientRun(c.r, input, output)
    case Write(data) => RunClient(cfg, ClientNext(cfg, c, []), input, output + data)
    case Read(n) =>
      if |input| < n then ClientRun(ClientEof, [], output)
      else RunClient(cfg, ClientNext(cfg, c, input[..n]), input[n..], output)
  }

  // ----------------------------------------------------------------- the code

  /** One direction each way: input is what the peer sent before closing. */
  class Stream {
    var input: bytes
    var output: bytes

    constructor (input: bytes)
      ensures this.input == input && output == []
    {
      this.input, output := input, [];
    }

    /** io.ReadFull: all n bytes, or None at the end of the stream. */
    method ReadFull(n: nat) returns (r: Option<bytes>)
      modifies this`input
      ensures |old(input)| >= n ==> r == Some(old(input)[..n]) && input == old(input)[n..]
      ensures |old(input)| < n ==> r == None && input == []
    {
      if |input| < n {
        input := [];
        return None;
      }
      r := Some(input[..n]);
      input := input[n..];
    }

    method Write(data: bytes)
      modifies this`output
      ensures output == old(output) + data
    {
      output := output + data;
    }
  }

  method WriteReply(w: Stream, code: byte, bound: Addr, port: u16)
    modifies w`output
    ensures w.output == old(w.output) + ReplyBytes(code, bound, port)
  {
    var b: bytes := [VERSION, code, 0];
    match bound.Unmap() {
      case V4(a) =>
        b := b + [ATYP_IPV4];
        b := b + Bytes4(a);
      case V6(a) =>
        b := b + [ATYP_IPV6];
        b := b + Bytes16(a);
      case NoAddr =>
        b := b + [ATYP_IPV4, 0, 0, 0, 0];
    }
    b := b + PutU16(port);
    ghost var head: bytes := [VERSION, code, 0];
    assert bound.Unmap().V4? ==> head + [ATYP_IPV4] + Bytes4(bound.Unmap().a4) == head + ([ATYP_IPV4] + Bytes4(bound.Unmap().a4));
    assert bound.Unmap().V6? ==> head + [ATYP_IPV6] + Bytes16(bound.Unmap().a6) == head + ([ATYP_IPV6] + Bytes16(bound.Unmap().a6));
    w.Write(b);
  }

  /** One read of the server's machine. */
  lemma ServerStep(cfg: ServerConfig, s: Server, input: bytes, output: bytes)
    requires ServerWant(cfg, s).Read?
    ensures var n := ServerWant(cfg, s).n;
            RunServer(cfg, s, input, output)
            == if |input| < n then ServerRun(Err(Eof), [], output)
               else RunServer(cfg, ServerNext(cfg, s, input[..n]), input[n..], output)
  {
  }

  /** RFC 1929 on the server: None when the credentials matched. */
  method ServerAuth(rw: Stream, cfg: ServerConfig) returns (err: Option<ServerError>)
    requires cfg.creds.Some?
    modifies rw
    ensures RunServer(cfg, SAuthHead, old(rw.input), old(rw.output))
         == if err.None? then RunServer(cfg, SReqHead, rw.input, rw.output)
            else ServerRun(Err(err.value), rw.input, rw.output)
  {
    ghost var all := RunServer(cfg, SAuthHead, rw.input, rw.output);
    ServerStep(cfg, SAuthHead, rw.input, rw.output);
    var h := rw.ReadFull(2);
    if h.None? {
      return Some(Eof);
    }
    if h.value[0] != AUTH_VERSION {
      return Some(BadAuthVersion);
    }
    var r := ServerCreds(rw, cfg, h.value[1]);
    if r.Err? {
      return Some(r.error);
    }
    if cfg.creds.value != r.value {
      rw.Write([AUTH_VERSION, 1]);
      return Some(AuthFailed);
    }
    rw.Write([AUTH_VERSION, 0]);
    return None;
  }

  /** The rest of the credentials message: user name, password length, password. */
  method ServerCreds(rw: Stream, cfg: ServerConfig, userLen: byte) returns (r: Result<Creds, ServerError>)
    requires cfg.creds.Some?
    modifies rw`input
    ensures RunServer(cfg, SAuthUser(userLen), old(rw.input), rw.output)
         == if r.Ok? then RunServer(cfg, SAuthReply(cfg.creds.value == r.value), rw.input, rw.output)
            else ServerRun(Err(r.error), rw.input, rw.output)
  {
    ServerStep(cfg, SAuthUser(userLen), rw.input, rw.output);
    var user := rw.ReadFull(userLen);
    if user.None? {
      return Err(Eof);
    }
    ServerStep(cfg, SAuthLen(user.value), rw.input, rw.output);
    var pl := rw.ReadFull(1);
    if pl.None? {
      return Err(Eof);
    }
    ServerStep(cfg, SAuthPass(user.value, pl.value[0]), rw.input, rw.output);
    var pass := rw.ReadFull(pl.value[0]);
    if pass.None? {
      return Err(Eof);
    }
    return Ok(Creds(user.value, pass.value));
  }

  datatype AddrError = AddrEof | AddrType

  /** An address read, and the input after it. */
  datatype AddrRead = AddrRead(host: Result<bytes, AddrError>, rest: bytes)

  /** readAddr, as both sides use it: the address's text. */
  method ReadAddr(r: Stream, text: Text, atyp: byte) returns (a: Result<bytes, AddrError>)
    modifies r`input
    ensures AddrRead(a, r.input) == AddrOf(text, atyp, old(r.input))
  {
    if atyp == ATYP_IPV4 {
      var b := r.ReadFull(4);
      if b.None? {
        return Err(AddrEof);
      }
      return Ok(text.format(FromBytes(b.value)));
    } else if atyp == ATYP_IPV6 {
      var b := r.ReadFull(16);
      if b.None? {
        return Err(AddrEof);
      }
      return Ok(text.format(FromBytes(b.value)));
    } else if atyp == ATYP_DOMAIN {
      var n := r.ReadFull(1);
      if n.None? {
        return Err(AddrEof);
      }
      var l := n.value[0] as int;
      ghost var tail := r.input;
      assert tail == old(r.input)[1..];
      var b := r.ReadFull(l);
      if b.None? {
        return Err(AddrEof);
      }
      assert tail[..l] == old(r.input)[1..1 + l] && tail[l..] == old(r.input)[1 + l..];
      return Ok(b.value);
    }
    return Err(AddrType);
  }

  /** The address at the front of the input and what follows it. */
  function AddrOf(text: Text, atyp: byte, input: bytes): AddrRead
  {
    if atyp == ATYP_IPV4 || atyp == ATYP_IPV6 then
      var n := if atyp == ATYP_IPV4 then 4 else 16;
      if |input| < n then AddrRead(Err(AddrEof), []) else AddrRead(Ok(text.format(FromBytes(input[..n]))), input[n..])
    else if atyp == ATYP_DOMAIN then
      if |input| < 1 then AddrRead(Err(AddrEof), [])
      else
        var n := input[0] as int;
        if |input| < 1 + n then AddrRead(Err(AddrEof), []) else AddrRead(Ok(input[1..1 + n]), input[1 + n..])
    else AddrRead(Err(AddrType), input)
  }

  /** The machine reads an address the way AddrOf does. */
  lemma ServerReadsAddr(cfg: ServerConfig, cmd: byte, atyp: byte, input: bytes, output: bytes)
    requires AddrLength(atyp).Some?
    ensures RunServer(cfg, SAddr(cmd, atyp), input, output)
         == var a := AddrOf(cfg.text, atyp, input);
            if a.host.Ok? then RunServer(cfg, SPort(cmd, a.host.value), a.rest, output)
            else ServerRun(Err(Eof), a.rest, output)
  {
    if atyp == ATYP_DOMAIN && |input| >= 1 {
      var n := input[0] as int;
      var tail := input[1..];
      assert RunServer(cfg, SAddr(cmd, atyp), input, output) == RunServer(cfg, SDomain(cmd, n), tail, output);
      if |tail| >= n {
        assert tail[..n] == input[1..1 + n] && tail[n..] == input[1 + n..];
      }
    }
  }

  /** Method negotiation: None when the client offers the wanted method. */
  method ServerNegotiate(rw: Stream, cfg: ServerConfig) returns (err: Option<ServerError>)
    modifies rw
    ensures RunServer(cfg, SHead, old(rw.input), old(rw.output))
         == if err.None? then RunServer(cfg, if cfg.creds.Some? then SAuthHead else SReqHead, rw.input, rw.output)
            else ServerRun(Err(err.value), rw.input, rw.output)
  {
    ServerStep(cfg, SHead, rw.input, rw.output);
    var hdr := rw.ReadFull(2);
    if hdr.None? {
      return Some(Eof);
    }
    if hdr.value[0] != VERSION {
      return Some(NotSocks5);
    }
    ServerStep(cfg, SMethods(hdr.value[1]), rw.input, rw.output);
    var methods := rw.ReadFull(hdr.value[1]);
    if methods.None? {
      return Some(Eof);
    }
    var want := ServerMethod(cfg);
    var offered := false;
    for i := 0 to |methods.value|
      invariant offered <==> want in methods.value[..i]
    {
      offered := offered || methods.value[i] == want;
    }
    assert methods.value[..|methods.value|] == methods.value;
    if !offered {
      rw.Write([VERSION, NO_METHOD]);
      return Some(NotOffered);
    }
    rw.Write([VERSION, want]);
    return None;
  }

  /** The request after negotiation; unsupported ones get an error reply first. */
  method ServerRead(rw: Stream, cfg: ServerConfig) returns (r: Result<Request, ServerError>)
    modifies rw
    ensures RunServer(cfg, SReqHead, old(rw.input), old(rw.output)) == ServerRun(r, rw.input, rw.output)
  {
    ServerStep(cfg, SReqHead, rw.input, rw.output);
    var h := rw.ReadFull(4);
    if h.None? {
      return Err(Eof);
    }
    if h.value[0] != VERSION {
      return Err(BadRequestVersion);
    }
    var cmd, atyp := h.value[1], h.value[3];
    if AddrLength(atyp).Some? {
      ServerReadsAddr(cfg, cmd, atyp, rw.input, rw.output);
    }
    var host := ReadAddr(rw, cfg.text, atyp);
    if host.Err? {
      if host.error == AddrType {
        WriteReply(rw, REP_ATYP, NoAddr, 0);
        return Err(BadAtyp);
      }
      return Err(Eof);
    }
    r := ServerFinish(rw, cfg, cmd, host.value);
  }

  method ServerFinish(rw: Stream, cfg: ServerConfig, cmd: byte, host: bytes) returns (r: Result<Request, ServerError>)
    modifies rw
    ensures RunServer(cfg, SPort(cmd, host), old(rw.input), old(rw.output)) == ServerRun(r, rw.input, rw.output)
  {
    ServerStep(cfg, SPort(cmd, host), rw.input, rw.output);
    var p := rw.ReadFull(2);
    if p.None? {
      return Err(Eof);
    }
    var port := U16(p.value);
    if cmd !in cfg.cmds {
      WriteReply(rw, REP_COMMAND, NoAddr, 0);
      return Err(BadCommand);
    }
    if cmd == CONNECT && host == [] {
      WriteReply(rw, REP_GENERAL_FAILURE, NoAddr, 0);
      return Err(EmptyHost);
    }
    return Ok(Request(cmd, host, port));
  }

  method ServerRequest(rw: Stream, cfg: ServerConfig) returns (r: Result<Request, ServerError>)
    modifies rw
    ensures RunServer(cfg, SHead, old(rw.input), old(rw.output)) == ServerRun(r, rw.input, rw.output)
  {
    var err := ServerNegotiate(rw, cfg);
    if err.Some? {
      return Err(err.value);
    }
    if cfg.creds.Some? {
      err := ServerAuth(rw, cfg);
      if err.Some? {
        return Err(err.value);
      }
    }
    r := ServerRead(rw, cfg);
  }

  /** None when the server accepted the method and the credentials. */
  method ClientAuth(rw: Stream, cfg: ClientConfig) returns (err: Option<ClientResult>)
    modifies rw
    ensures RunClient(cfg, CGreet, old(rw.input), old(rw.output))
         == if err.None? then RunClient(cfg, CRequest, rw.input, rw.output)
            else ClientRun(err.value, rw.input, rw.output)
  {
    var offer := ClientMethod(cfg);
    rw.Write([VERSION, 1, offer]);
    var r := rw.ReadFull(2);
    if r.None? {
      return Some(ClientEof);
    }
    if r.value[0] != VERSION || r.value[1] != offer {
      if r.value[1] == NO_METHOD {
        return Some(Refused);
      }
      return Some(BadMethodReply);
    }
    if cfg.creds.None? {
      return None;
    }
    var c := cfg.creds.value;
    assert RunClient(cfg, CGreet, old(rw.input), old(rw.output)) == RunClient(cfg, CAuth, rw.input, rw.output);
    assert rw.input[..0] == [] && rw.input[0..] == rw.input;
    if |c.user| > 255 || |c.password| > 255 {
      return Some(CredsTooLong);
    }
    var b: bytes := [AUTH_VERSION, |c.user|];
    b := b + c.user;
    b := b + [|c.password|];
    b := b + c.password;
    rw.Write(b);
    r := rw.ReadFull(2);
    if r.None? {
      return Some(ClientEof);
    }
    if r.value[1] != 0 {
      return Some(CredsRejected);
    }
    return None;
  }

  lemma ClientReadsAddr(cfg: ClientConfig, code: byte, atyp: byte, input: bytes, output: bytes)
    requires AddrLength(atyp).Some?
    ensures RunClient(cfg, CAddr(code, atyp), input, output)
         == var a := AddrOf(cfg.text, atyp, input);
            if a.host.Ok? then RunClient(cfg, CPort(code), a.rest, output) else ClientRun(ClientEof, a.rest, output)
  {
    if atyp == ATYP_DOMAIN && |input| >= 1 {
      var n := input[0] as int;
      var tail := input[1..];
      assert RunClient(cfg, CAddr(code, atyp), input, output) == RunClient(cfg, CDomain(code, n), tail, output);
      if |tail| >= n {
        assert tail[n..] == input[1 + n..];
      }
    }
  }

  lemma ClientStep(cfg: ClientConfig, c: Client, input: bytes, output: bytes)
    requires ClientWant(cfg, c).Read?
    ensures var n := ClientWant(cfg, c).n;
            RunClient(cfg, c, input, output)
            == if |input| < n then ClientRun(ClientEof, [], output)
               else RunClient(cfg, ClientNext(cfg, c, input[..n]), input[n..], output)
  {
  }

  /** Sends the request; false when the name is too long to send. */
  method ClientRequest(rw: Stream, cfg: ClientConfig) returns (sent: bool)
    modifies rw`output
    ensures sent == HostFits(cfg)
    ensures rw.output == old(rw.output) + if sent then RequestBytes(cfg) else []
  {
    var b: bytes := [VERSION, CONNECT, 0];
    var ip := cfg.text.parse(cfg.host);
    if ip.Some? {
      match ip.value.Unmap() {
        case V4(a) => b := b + ([ATYP_IPV4] + Bytes4(a));
        case V6(a) => b := b + ([ATYP_IPV6] + Bytes16(a));
        case NoAddr => b := b + ([ATYP_IPV6] + Bytes16(0));
      }
    } else {
      if |cfg.host| > 255 {
        return false;
      }
      b := b + ([ATYP_DOMAIN, |cfg.host|] + cfg.host);
    }
    b := b + PutU16(cfg.port);
    rw.Write(b);
    return true;
  }

  /** Reads the CONNECT reply. */
  method ClientReply(rw: Stream, cfg: ClientConfig) returns (r: ClientResult)
    modifies rw`input
    ensures RunClient(cfg, CHead, old(rw.input), rw.output) == ClientRun(r, rw.input, rw.output)
  {
    ClientStep(cfg, CHead, rw.input, rw.output);
    var h := rw.ReadFull(4);
    if h.None? {
      return ClientEof;
    }
    var code, atyp := h.value[1], h.value[3];
    if AddrLength(atyp).Some? {
      ClientReadsAddr(cfg, code, atyp, rw.input, rw.output);
    }
    var a := ReadAddr(rw, cfg.text, atyp);
    if a.Err? {
      return if a.error == AddrType then BadReplyAtyp else ClientEof;
    }
    r := ClientReplyPort(rw, cfg, code);
  }

  method ClientReplyPort(rw: Stream, cfg: ClientConfig, code: byte) returns (r: ClientResult)
    modifies rw`input
    ensures RunClient(cfg, CPort(code), old(rw.input), rw.output) == ClientRun(r, rw.input, rw.output)
  {
    ClientStep(cfg, CPort(code), rw.input, rw.output);
    var p := rw.ReadFull(2);
    if p.None? {
      return ClientEof;
    }
    if code != REP_SUCCEEDED {
      return ReplyError(code);
    }
    return Connected;
  }

  method ClientConnect(rw: Stream, cfg: ClientConfig) returns (r: ClientResult)
    modifies rw
    ensures RunClient(cfg, CGreet, old(rw.input), old(rw.output)) == ClientRun(r, rw.input, rw.output)
  {
    var err := ClientAuth(rw, cfg);
    if err.Some? {
      return err.value;
    }
    assert rw.input[..0] == [] && rw.input[0..] == rw.input;
    var sent := ClientRequest(rw, cfg);
    if !sent {
      return HostTooLong;
    }
    r := ClientReply(rw, cfg);
  }
}
