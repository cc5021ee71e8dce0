/** Datagram headers of SOCKS5 UDP ASSOCIATE (internal/socks5/udp.go; section 7 of RFC 1928). */
module Socks5Udp {
  import opened Wrappers
  import opened Wire
  import opened Addr
  import opened Socks5
  import M = Socks5Meaning

  datatype UDPError = Short | Fragment | BadType | EmptyDest

  datatype Datagram = Datagram(host: bytes, port: u16, data: bytes)

  function Parsed(t: Text, b: bytes): Result<Datagram, UDPError>
  {
    if |b| < 4 then Err(Short)
    else if b[2] != 0 then Err(Fragment)
    else
      var a := AddrOf(t, b[3], b[4..]);
      if a.host.Err? then Err(if a.host.error == AddrType then BadType else Short)
      else if |a.rest| < 2 then Err(Short)
      else if a.host.value == [] then Err(EmptyDest)
      else Ok(Datagram(a.host.value, U16(a.rest), a.rest[2..]))
  }

  function Header(t: Text, host: bytes, port: u16): bytes
  {
    [0, 0, 0] + AddrField(t, host) + PutU16(port)
  }

  lemma AddrOfRest(t: Text, atyp: byte, input: bytes)
    ensures var r := AddrOf(t, atyp, input).rest; |r| <= |input| && r == input[|input| - |r|..]
  {
  }

  method ParseUDP(t: Text, b: bytes) returns (r: Result<Datagram, UDPError>)
    ensures r == Parsed(t, b)
  {
    if |b| < 4 {
      return Err(Short);
    }
    if b[2] != 0 {
      return Err(Fragment);
    }
    var rd := new Stream(b[4..]);
    AddrOfRest(t, b[3], b[4..]);
    var host := ReadAddr(rd, t, b[3]);
    if host.Err? {
      return Err(if host.error == AddrType then BadType else Short);
    }
    ghost var rest := rd.input;
    var p := rd.ReadFull(2);
    if p.None? {
      return Err(Short);
    }
    if host.value == [] {
      return Err(EmptyDest);
    }
    assert U16(p.value) == U16(rest);
    var off := |b| - |rd.input|;
    assert b[off..] == rest[2..];
    return Ok(Datagram(host.value, U16(p.value), b[off..]));
  }

  method AppendUDPHeader(t: Text, b: bytes, host: bytes, port: u16) returns (out: bytes)
    ensures out == b + Header(t, host, port)
  {
    out := b + [0, 0, 0];
    var ip := t.parse(host);
    if ip.Some? {
      match ip.value.Unmap() {
        case V4(a) => out := out + ([ATYP_IPV4] + Bytes4(a));
        case V6(a) => out := out + ([ATYP_IPV6] + Bytes16(a));
        case NoAddr => out := out + ([ATYP_IPV6] + Bytes16(0));
      }
    } else {
      out := out + ([ATYP_DOMAIN, |host| % 256] + host);
    }
    assert out == b + ([0, 0, 0] + AddrField(t, host));
    out := out + PutU16(port);
  }

  // ---------------------------------------------------------------- theorems

  lemma FieldBack(t: Text, host: bytes, rest: bytes)
    requires ParsesValid(t) && (t.parse(host).Some? || |host| < 256)
    ensures AddrOf(t, AddrField(t, host)[0], AddrField(t, host)[1..] + rest) == AddrRead(Ok(Canonical(t, host)), rest)
  {
    var f := AddrField(t, host);
    var b := f[1..] + rest;
    if t.parse(host).Some? {
      var ip := t.parse(host).value.Unmap();
      if ip.V4? {
        assert b[..4] == Bytes4(ip.a4) && b[4..] == rest;
        PowLimits();
        BigEndianOf(ip.a4, 4);
      } else {
        assert b[..16] == Bytes16(ip.a6) && b[16..] == rest;
        PowLimits();
        BigEndianOf(ip.a6, 16);
      }
    } else {
      assert b == [|host|] + (host + rest);
      assert b[1..1 + |host|] == host && b[1 + |host|..] == rest;
    }
  }

  lemma HeaderSplit(t: Text, host: bytes, port: u16, data: bytes)
    ensures var b := Header(t, host, port) + data;
            |b| >= 4 && b[2] == 0 && b[3] == AddrField(t, host)[0]
            && b[4..] == AddrField(t, host)[1..] + (PutU16(port) + data)
  {
    var f := AddrField(t, host);
    assert f == [f[0]] + f[1..];
  }

  /** The host's text is never empty when it parses as an address. */
  lemma FormatNotEmpty(t: Text, host: bytes)
    requires ParsesValid(t) && t.parse(host).Some?
    ensures Canonical(t, host) != []
  {
    var ip := t.parse(host).value.Unmap();
    assert t.parse(t.format(ip)) == Some(ip);
  }

  /**
   ParseUDP undoes AppendUDPHeader for an IP literal or a name of 1 to 255 bytes,
   and for nothing else: the length of a longer name is written modulo 256.
   */
  lemma HeaderRoundTripIff(t: Text, host: bytes, port: u16, data: bytes)
    requires ParsesValid(t)
    ensures Parsed(t, Header(t, host, port) + data) == Ok(Datagram(Canonical(t, host), port, data))
            <==> t.parse(host).Some? || 1 <= |host| <= 255
  {
    HeaderSplit(t, host, port, data);
    U16Prefix(port, data);
    if t.parse(host).Some? || |host| < 256 {
      FieldBack(t, host, PutU16(port) + data);
      if t.parse(host).Some? {
        FormatNotEmpty(t, host);
      }
    } else {
      LongName(t, host, PutU16(port) + data);
    }
  }

  lemma LongName(t: Text, host: bytes, rest: bytes)
    requires t.parse(host).None? && |host| >= 256
    ensures var a := AddrOf(t, AddrField(t, host)[0], AddrField(t, host)[1..] + rest);
            a.host.Ok? ==> |a.host.value| < 256
  {
  }

  /** A name of 257 letters is accepted as its first letter, with the next two as the port. */
  lemma LongNameIsMisread(t: Text, port: u16)
    requires t.parse(seq(257, _ => 97)).None?
    ensures var r := Parsed(t, Header(t, seq(257, _ => 97), port));
            r.Ok? && r.value.host == [97] && r.value.port == 97 * 257
  {
    var host: bytes := seq(257, _ => 97);
    HeaderSplit(t, host, port, []);
    var b := Header(t, host, port);
    assert b + [] == b;
    var tail := AddrField(t, host)[1..] + (PutU16(port) + []);
    assert AddrField(t, host) == [ATYP_DOMAIN, 1] + host;
    assert tail[0] == 1 && tail[1..2] == [97] && tail[2..][0] == 97 && tail[2..][1] == 97;
  }

  /** An address field cut short is not an address. */
  lemma FieldShort(t: Text, host: bytes, k: nat)
    requires t.parse(host).Some? || |host| < 256
    requires k < |AddrField(t, host)| - 1
    ensures AddrOf(t, AddrField(t, host)[0], AddrField(t, host)[1..][..k]).host == Err(AddrEof)
  {
    var f := AddrField(t, host);
    var b := f[1..][..k];
    if t.parse(host).None? && k >= 1 {
      assert b[0] == f[1] == |host|;
    }
  }

  /** No strict prefix of a header is accepted. */
  lemma PrefixRejected(t: Text, host: bytes, port: u16, k: nat)
    requires ParsesValid(t) && (t.parse(host).Some? || |host| < 256)
    requires k < |Header(t, host, port)|
    ensures Parsed(t, Header(t, host, port)[..k]) == Err(Short)
  {
    var f, h := AddrField(t, host), Header(t, host, port);
    var b := h[..k];
    if k >= 4 {
      assert f == [f[0]] + f[1..];
      assert h == [0, 0, 0, f[0]] + (f[1..] + PutU16(port));
      assert b[2] == 0 && b[3] == f[0];
      TakeConcat(f[1..], PutU16(port), k - 4);
      assert b[4..] == (f[1..] + PutU16(port))[..k - 4];
      if k - 4 < |f| - 1 {
        FieldShort(t, host, k - 4);
      } else {
        FieldBack(t, host, PutU16(port)[..k - 4 - |f[1..]|]);
      }
    }
  }

  /** What is accepted is a header of the same address followed by the data, byte for byte. */
  lemma DataIsSuffix(t: Text, b: bytes)
    requires Parsed(t, b).Ok?
    ensures |Parsed(t, b).value.data| <= |b| - 6
    ensures Parsed(t, b).value.data == b[|b| - |Parsed(t, b).value.data|..]
  {
    AddrOfRest(t, b[3], b[4..]);
    var r := AddrOf(t, b[3], b[4..]).rest;
    assert b[|b| - |r|..] == r;
  }

  /** Section 7 of RFC 1928, in bytes: a header of any address type, and what is wrong with the others. */
  lemma DatagramMeaning(t: Text, x: byte, y: byte, frag: byte, f: M.Field, hi: byte, lo: byte, data: bytes)
    requires M.ValidField(f)
    ensures Parsed(t, [x, y, frag, M.TypeOf(f)] + (M.BytesOf(f) + ([hi, lo] + data)))
         == if frag != 0 then Err(Fragment)
            else if M.HostOf(t, f) == [] then Err(EmptyDest)
            else Ok(Datagram(M.HostOf(t, f), hi as int * 256 + lo as int, data))
  {
    var tail := M.BytesOf(f) + ([hi, lo] + data);
    M.FrontThen([x, y, frag, M.TypeOf(f)], tail);
    M.FieldIsRead(t, f, [hi, lo] + data);
    M.TwoThen(hi, lo, data);
  }

  lemma OtherTypesRefused(t: Text, x: byte, y: byte, frag: byte, atyp: byte, rest: bytes)
    requires atyp !in {1, 3, 4}
    ensures Parsed(t, [x, y, frag, atyp] + rest) == Err(if frag != 0 then Fragment else BadType)
  {
    M.FrontThen([x, y, frag, atyp], rest);
  }

  /** The header sent is three zeros, the host's field and the port. */
  lemma HeaderBytes(t: Text, host: bytes, port: u16)
    requires t.parse(host).None? ==> |host| < 256
    ensures var f := M.FieldFor(t, host);
            M.ValidField(f) && Header(t, host, port) == [0, 0, 0, M.TypeOf(f)] + M.BytesOf(f) + [port / 256, port % 256]
  {
    M.FieldIsSent(t, host);
    var f := M.FieldFor(t, host);
    assert [0, 0, 0] + ([M.TypeOf(f)] + M.BytesOf(f)) == [0, 0, 0, M.TypeOf(f)] + M.BytesOf(f);
  }
}
