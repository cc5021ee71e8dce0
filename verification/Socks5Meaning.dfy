/**
 The SOCKS5 server and client against any peer, message by message, in the bytes of
 RFC 1928 and RFC 1929: what each well-formed message is answered with, and what every
 other one comes to.
 */
module Socks5Meaning {
  import opened Wrappers
  import opened Wire
  import opened Addr
  import opened Socks5

  // ------------------------------------------------------------------ the server

  /** The method the server wants: user name and password if it has credentials. */
  function Wanted(cfg: ServerConfig): byte { if cfg.creds.Some? then 2 else 0 }

  lemma TwoThen(a: byte, b: byte, rest: bytes)
    ensures ([a, b] + rest)[..2] == [a, b] && ([a, b] + rest)[2..] == rest
  {
  }

  lemma FrontThen(front: bytes, rest: bytes)
    ensures (front + rest)[..|front|] == front && (front + rest)[|front|..] == rest
  {
  }

  lemma SelectRuns(cfg: ServerConfig, ok: bool, input: bytes, output: bytes)
    ensures RunServer(cfg, SSelect(ok), input, output)
         == if ok then RunServer(cfg, if cfg.creds.Some? then SAuthHead else SReqHead, input, output + [5, Wanted(cfg)])
            else ServerRun(Err(NotOffered), input, output + [5, 0xff])
  {
  }

  /**
   Section 3 of RFC 1928. A greeting of another version is refused without an answer;
   otherwise the wanted method is chosen wherever it stands in the list, and 0xff
   answered when it is not there.
   */
  lemma GreetingAnswered(cfg: ServerConfig, version: byte, methods: bytes, rest: bytes, output: bytes)
    requires |methods| < 256
    ensures RunServer(cfg, SHead, [version, |methods|] + methods + rest, output)
         == if version != 5 then ServerRun(Err(NotSocks5), methods + rest, output)
            else if Wanted(cfg) in methods then
              RunServer(cfg, if cfg.creds.Some? then SAuthHead else SReqHead, rest, output + [5, Wanted(cfg)])
            else ServerRun(Err(NotOffered), rest, output + [5, 0xff])
  {
    var input := [version, |methods|] + methods + rest;
    assert input == [version, |methods|] + (methods + rest);
    TwoThen(version, |methods|, methods + rest);
    ServerStep(cfg, SHead, input, output);
    if version == 5 {
      FrontThen(methods, rest);
      ServerStep(cfg, SMethods(|methods|), methods + rest, output);
      SelectRuns(cfg, Wanted(cfg) in methods, rest, output);
    }
  }

  /**
   Section 2 of RFC 1929. The user name and password are accepted exactly when both
   are the configured ones; status 0 or 1 is answered, and another version gets none.
   */
  lemma CredentialsAnswered(cfg: ServerConfig, version: byte, user: bytes, password: bytes, rest: bytes, output: bytes)
    requires cfg.creds.Some? && |user| < 256 && |password| < 256
    ensures RunServer(cfg, SAuthHead, [version, |user|] + (user + ([|password|] + (password + rest))), output)
         == if version != 1 then ServerRun(Err(BadAuthVersion), user + ([|password|] + (password + rest)), output)
            else if user == cfg.creds.value.user && password == cfg.creds.value.password then
              RunServer(cfg, SReqHead, rest, output + [1, 0])
            else ServerRun(Err(AuthFailed), rest, output + [1, 1])
  {
    var tail := [|password|] + (password + rest);
    TwoThen(version, |user|, user + tail);
    ServerStep(cfg, SAuthHead, [version, |user|] + (user + tail), output);
    if version == 1 {
      FrontThen(user, tail);
      ServerStep(cfg, SAuthUser(|user|), user + tail, output);
      FrontThen([|password|], password + rest);
      ServerStep(cfg, SAuthLen(user), tail, output);
      FrontThen(password, rest);
      ServerStep(cfg, SAuthPass(user, |password|), password + rest, output);
      AuthReplyRuns(cfg, cfg.creds == Some(Creds(user, password)), rest, output);
    }
  }

  lemma AuthReplyRuns(cfg: ServerConfig, ok: bool, input: bytes, output: bytes)
    ensures RunServer(cfg, SAuthReply(ok), input, output)
         == if ok then RunServer(cfg, SReqHead, input, output + [1, 0]) else ServerRun(Err(AuthFailed), input, output + [1, 1])
  {
  }

  /** An error reply: no address was bound, which is written as 0.0.0.0 and port 0. */
  function ErrorReply(code: byte): bytes { [5, code, 0, 1, 0, 0, 0, 0, 0, 0] }

  lemma ErrorReplyIs(code: byte)
    ensures ReplyBytes(code, NoAddr, 0) == ErrorReply(code)
  {
    assert PutU16(0) == [0, 0];
  }

  /** What a complete request comes to: the command first, then the empty name. */
  function RequestOutcome(cfg: ServerConfig, cmd: byte, host: bytes, port: nat, rest: bytes, output: bytes): ServerRun
    requires port < 0x1_0000
  {
    if cmd !in cfg.cmds then ServerRun(Err(BadCommand), rest, output + ErrorReply(7))
    else if cmd == 1 && host == [] then ServerRun(Err(EmptyHost), rest, output + ErrorReply(1))
    else ServerRun(Ok(Request(cmd, host, port)), rest, output)
  }

  lemma PortRuns(cfg: ServerConfig, cmd: byte, host: bytes, hi: byte, lo: byte, rest: bytes, output: bytes)
    ensures RunServer(cfg, SPort(cmd, host), [hi, lo] + rest, output) == RequestOutcome(cfg, cmd, host, hi as int * 256 + lo as int, rest, output)
  {
    TwoThen(hi, lo, rest);
    ServerStep(cfg, SPort(cmd, host), [hi, lo] + rest, output);
    ErrorReplyIs(7);
    ErrorReplyIs(1);
  }

  /** The host an address field names, and its bytes: four, sixteen, or a length and a name. */
  datatype Field = Four(a: byte, b: byte, c: byte, d: byte) | Sixteen(group: bytes) | Named(name: bytes)

  predicate ValidField(f: Field)
  {
    match f
    case Four(_, _, _, _) => true
    case Sixteen(b) => |b| == 16
    case Named(name) => |name| < 256
  }

  function TypeOf(f: Field): byte { match f case Four(_, _, _, _) => 1 case Named(_) => 3 case Sixteen(_) => 4 }

  function BytesOf(f: Field): bytes
    requires ValidField(f)
  {
    match f
    case Four(a, b, c, d) => [a, b, c, d]
    case Sixteen(b) => b
    case Named(name) => [|name|] + name
  }

  /** The text of the host: a name stands for itself, an IPv4-mapped address for the IPv4 one. */
  function HostOf(t: Text, f: Field): bytes
    requires ValidField(f)
  {
    match f
    case Four(a, b, c, d) => t.format(V4(((a as int * 256 + b as int) * 256 + c as int) * 256 + d as int))
    case Sixteen(b) => ToBigEndianOf(b); PowLimits(); t.format(V6(BigEndian(b)).Unmap())
    case Named(name) => name
  }

  lemma FourBytes(a: byte, b: byte, c: byte, d: byte)
    ensures FromBytes([a, b, c, d]) == V4(((a as int * 256 + b as int) * 256 + c as int) * 256 + d as int)
  {
    var q: bytes := [a, b, c, d];
    assert q[..3] == [a, b, c] && q[..3][..2] == [a, b] && [a, b][..1] == [a] && [a][..0] == [];
    assert BigEndian([]) == 0;
    assert BigEndian([a]) == a as int;
    assert BigEndian([a, b]) == a as int * 256 + b as int;
    assert [a, b, c][..2] == [a, b];
    assert BigEndian([a, b, c]) == (a as int * 256 + b as int) * 256 + c as int;
  }

  lemma AddressIsRead(t: Text, atyp: byte, field: bytes, rest: bytes)
    requires (atyp == 1 && |field| == 4) || (atyp == 4 && |field| == 16)
    ensures AddrOf(t, atyp, field + rest) == AddrRead(Ok(t.format(FromBytes(field))), rest)
  {
    FrontThen(field, rest);
  }

  lemma NameIsRead(t: Text, name: bytes, rest: bytes)
    requires |name| < 256
    ensures AddrOf(t, 3, [|name|] + name + rest) == AddrRead(Ok(name), rest)
  {
    var input := [|name|] + name + rest;
    FrontThen([|name|] + name, rest);
    assert input[1..1 + |name|] == name;
  }

  lemma FieldIsRead(t: Text, f: Field, rest: bytes)
    requires ValidField(f)
    ensures AddrOf(t, TypeOf(f), BytesOf(f) + rest) == AddrRead(Ok(HostOf(t, f)), rest)
  {
    match f {
      case Four(a, b, c, d) =>
        FourBytes(a, b, c, d);
        AddressIsRead(t, 1, [a, b, c, d], rest);
      case Sixteen(group) => AddressIsRead(t, 4, group, rest);
      case Named(name) => NameIsRead(t, name, rest);
    }
  }

  /**
   Section 4 of RFC 1928. A request of version 5 with any address type 1, 3 or 4 is
   read to its end and comes to RequestOutcome; the third byte does not matter.
   */
  lemma RequestAnswered(cfg: ServerConfig, cmd: byte, reserved: byte, f: Field, hi: byte, lo: byte, rest: bytes, output: bytes)
    requires ValidField(f)
    ensures RunServer(cfg, SReqHead, [5, cmd, reserved, TypeOf(f)] + (BytesOf(f) + ([hi, lo] + rest)), output)
         == RequestOutcome(cfg, cmd, HostOf(cfg.text, f), hi as int * 256 + lo as int, rest, output)
  {
    var tail := BytesOf(f) + ([hi, lo] + rest);
    FrontThen([5, cmd, reserved, TypeOf(f)], tail);
    ServerStep(cfg, SReqHead, [5, cmd, reserved, TypeOf(f)] + tail, output);
    ServerReadsAddr(cfg, cmd, TypeOf(f), tail, output);
    FieldIsRead(cfg.text, f, [hi, lo] + rest);
    PortRuns(cfg, cmd, HostOf(cfg.text, f), hi, lo, rest, output);
  }

  /** Another version gets no answer, another address type code 8. */
  lemma RequestRefused(cfg: ServerConfig, version: byte, cmd: byte, reserved: byte, atyp: byte, rest: bytes, output: bytes)
    requires version != 5 || atyp !in {1, 3, 4}
    ensures RunServer(cfg, SReqHead, [version, cmd, reserved, atyp] + rest, output)
         == if version != 5 then ServerRun(Err(BadRequestVersion), rest, output)
            else ServerRun(Err(BadAtyp), rest, output + ErrorReply(8))
  {
    FrontThen([version, cmd, reserved, atyp], rest);
    ServerStep(cfg, SReqHead, [version, cmd, reserved, atyp] + rest, output);
    ErrorReplyIs(8);
    if version == 5 {
      RefusalRuns(cfg, 8, BadAtyp, rest, output);
    }
  }

  lemma RefusalRuns(cfg: ServerConfig, code: byte, err: ServerError, input: bytes, output: bytes)
    ensures RunServer(cfg, SRefuse(code, err), input, output) == ServerRun(Err(err), input, output + ReplyBytes(code, NoAddr, 0))
  {
  }

  // ------------------------------------------------------------------ the client

  /** The client offers one method, and goes on exactly when the server answers version 5 and that method. */
  lemma MethodReplyTaken(cfg: ClientConfig, version: byte, chosen: byte, rest: bytes, output: bytes)
    ensures var offer: byte := if cfg.creds.Some? then 2 else 0;
            RunClient(cfg, CGreet, [version, chosen] + rest, output)
            == if version == 5 && chosen == offer then
                 RunClient(cfg, if cfg.creds.Some? then CAuth else CRequest, rest, output + [5, 1, offer])
               else ClientRun(if chosen == 0xff then Refused else BadMethodReply, rest, output + [5, 1, offer])
  {
    var offer: byte := if cfg.creds.Some? then 2 else 0;
    TwoThen(version, chosen, rest);
    ClientStep(cfg, CMethod, [version, chosen] + rest, output + [5, 1, offer]);
  }

  /** The credentials go out as RFC 1929 has them, and are accepted exactly on status 0. */
  lemma StatusTaken(cfg: ClientConfig, user: bytes, password: bytes, version: byte, status: byte, rest: bytes, output: bytes)
    requires cfg.creds == Some(Creds(user, password))
    ensures RunClient(cfg, CAuth, [version, status] + rest, output)
         == if |user| > 255 || |password| > 255 then ClientRun(CredsTooLong, [version, status] + rest, output)
            else
              var sent := output + ([1, |user|] + user + [|password|] + password);
              if status == 0 then RunClient(cfg, CRequest, rest, sent) else ClientRun(CredsRejected, rest, sent)
  {
    var input := [version, status] + rest;
    if |user| > 255 || |password| > 255 {
      assert input[..0] == [] && input[0..] == input;
    } else {
      TwoThen(version, status, rest);
      ClientStep(cfg, CAuthReply, input, output + AuthBytes(cfg.creds.value));
    }
  }

  /** The field a client sends for its host. */
  function FieldFor(t: Text, host: bytes): Field
    requires t.parse(host).None? ==> |host| < 256
  {
    match t.parse(host)
    case None => Named(host)
    case Some(ip) =>
      match ip.Unmap()
      case V4(a) => Four(a / 0x100_0000, a / 0x1_0000 % 256, a / 256 % 256, a % 256)
      case V6(a) => Sixteen(ToBigEndian(a, 16))
      case NoAddr => Sixteen(ToBigEndian(0, 16))
  }

  lemma FourDigits(a: u32)
    ensures ToBigEndian(a, 4) == [a / 0x100_0000, a / 0x1_0000 % 256, a / 256 % 256, a % 256]
  {
    assert ToBigEndian(a / 256 / 256 / 256 / 256, 0) == [];
    assert ToBigEndian(a / 256 / 256 / 256, 1) == [a / 256 / 256 / 256 % 256];
    assert ToBigEndian(a / 256 / 256, 2) == [a / 256 / 256 / 256 % 256, a / 256 / 256 % 256];
    assert ToBigEndian(a / 256, 3) == [a / 256 / 256 / 256 % 256, a / 256 / 256 % 256, a / 256 % 256];
  }

  lemma FieldIsSent(t: Text, host: bytes)
    requires t.parse(host).None? ==> |host| < 256
    ensures var f := FieldFor(t, host); ValidField(f) && AddrField(t, host) == [TypeOf(f)] + BytesOf(f)
  {
    if t.parse(host).Some? && t.parse(host).value.Unmap().V4? {
      FourDigits(t.parse(host).value.Unmap().a4);
    }
  }

  /**
   The request names the host, an address of either family in its bytes; with a reply of
   any address type 1, 3 or 4 the connection stands exactly on code 0.
   */
  lemma ReplyTaken(cfg: ClientConfig, version: byte, code: byte, reserved: byte, f: Field, hi: byte, lo: byte, rest: bytes, output: bytes)
    requires ValidField(f) && (cfg.text.parse(cfg.host).None? ==> |cfg.host| < 256)
    ensures var g := FieldFor(cfg.text, cfg.host);
            && ValidField(g)
            && RunClient(cfg, CRequest, [version, code, reserved, TypeOf(f)] + (BytesOf(f) + ([hi, lo] + rest)), output)
               == ClientRun(if code == 0 then Connected else ReplyError(code), rest,
                            output + ([5, 1, 0] + ([TypeOf(g)] + BytesOf(g)) + [cfg.port / 256, cfg.port % 256]))
  {
    FieldIsSent(cfg.text, cfg.host);
    assert PutU16(cfg.port) == [cfg.port / 256, cfg.port % 256];
    var head, tail: bytes := [version, code, reserved, TypeOf(f)], BytesOf(f) + ([hi, lo] + rest);
    ReplyRuns(cfg, head, f, hi, lo, rest, output + RequestBytes(cfg));
    RequestGoesOut(cfg, head + tail, output);
  }

  lemma RequestGoesOut(cfg: ClientConfig, input: bytes, output: bytes)
    requires HostFits(cfg)
    ensures RunClient(cfg, CRequest, input, output) == RunClient(cfg, CHead, input, output + RequestBytes(cfg))
  {
  }

  lemma ReplyRuns(cfg: ClientConfig, head: bytes, f: Field, hi: byte, lo: byte, rest: bytes, output: bytes)
    requires ValidField(f) && |head| == 4 && head[3] == TypeOf(f)
    ensures RunClient(cfg, CHead, head + (BytesOf(f) + ([hi, lo] + rest)), output)
         == ClientRun(if head[1] == 0 then Connected else ReplyError(head[1]), rest, output)
  {
    var tail := BytesOf(f) + ([hi, lo] + rest);
    FrontThen(head, tail);
    ClientStep(cfg, CHead, head + tail, output);
    ClientReadsAddr(cfg, head[1], TypeOf(f), tail, output);
    FieldIsRead(cfg.text, f, [hi, lo] + rest);
    TwoThen(hi, lo, rest);
    ClientStep(cfg, CPort(head[1]), [hi, lo] + rest, output);
  }

  /** A name too long to send sends nothing; a reply of another address type is refused. */
  lemma ReplyRefused(cfg: ClientConfig, head: bytes, rest: bytes, output: bytes)
    requires |head| == 4
    ensures cfg.text.parse(cfg.host).None? && |cfg.host| > 255 ==>
              RunClient(cfg, CRequest, head + rest, output) == ClientRun(HostTooLong, head + rest, output)
    ensures head[3] !in {1, 3, 4} ==> RunClient(cfg, CHead, head + rest, output) == ClientRun(BadReplyAtyp, rest, output)
  {
    var input := head + rest;
    assert input[..0] == [] && input[0..] == input;
    FrontThen(head, rest);
    ClientStep(cfg, CHead, input, output);
  }

  /** A reply with a bound address, in its bytes. */
  lemma ReplyWritten(code: byte, a: u32, port: u16)
    ensures ReplyBytes(code, V4(a), port)
         == [5, code, 0, 1, a / 0x100_0000, a / 0x1_0000 % 256, a / 256 % 256, a % 256, port / 256, port % 256]
  {
    FourDigits(a);
  }
}
