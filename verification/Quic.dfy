/**
 Reading the server name of a QUIC connection from the client's datagrams
 (internal/sniff/quic.go). Packet protection is a parameter: open maps the
 version and connection ID whose keys are used, a packet and the position of its
 packet number to the payload, or to None when it does not authenticate.
 */
module Quic {
  import opened Wrappers
  import opened Wire
  import opened QuicVarint
  import opened QuicFrames
  import opened QuicStream
  import ClientHello

  const MAX_PACKETS: nat := 16

  type OpenFn = (nat, bytes, bytes, nat) -> Option<bytes>

  /** The version whose keys a connection ID got when first seen. */
  type Keys = map<bytes, nat>

  /** NoResult leaves every field empty; Found has protocol "quic". */
  datatype SniffResult = NoResult | Found(host: bytes, ech: bool)

  // ---------------------------------------------------------- packet header

  /** The long header type bits of an Initial packet, for the known versions. */
  function InitialType(version: nat): Option<nat>
  {
    if version == 1 then Some(0) else if version == 0x6b3343cf then Some(1) else None
  }

  datatype Header = NotInitial | OtherLong(end: nat) | Initial(version: nat, dcid: bytes, at: nat, end: nat)

  /** The position after the token, or None. */
  function AfterToken(b: bytes, p: nat): (r: Option<nat>)
    requires p <= |b|
    ensures r.Some? ==> p < r.value <= |b|
  {
    var t := Varint(b[p..]);
    if t.n == 0 || |b| - p - t.n < t.v then None else Some(p + t.n + t.v)
  }

  function Payload(b: bytes, version: nat, isInitial: bool, dcid: bytes, p: nat): (r: Header)
    requires p <= |b|
    ensures r.OtherLong? ==> p < r.end <= |b|
    ensures r.Initial? ==> p < r.at && r.at + 20 <= r.end <= |b|
  {
    var l := Varint(b[p..]);
    if l.n == 0 || |b| - p - l.n < l.v then NotInitial
    else
      var at, end := p + l.n, p + l.n + l.v;
      if !isInitial then OtherLong(end)
      else if at + 4 + 16 > end then NotInitial
      else Initial(version, dcid, at, end)
  }

  /** Every accepted packet has a positive length inside the datagram. */
  function ParseHeader(b: bytes): (r: Header)
    ensures r.OtherLong? ==> 0 < r.end <= |b|
    ensures r.Initial? ==> 0 < r.at && r.at + 20 <= r.end <= |b|
  {
    if |b| < 7 || b[0] < 0x80 then NotInitial
    else
      var v := BigEndian(b[1..5]);
      var dl := b[5] as int;
      if InitialType(v).None? || dl > 20 || |b| < 5 + 1 + dl + 1 then NotInitial
      else
        var dcid, p := b[6..6 + dl], 6 + dl;
        var sl := b[p] as int;
        if sl > 20 || |b| < p + 1 + sl then NotInitial
        else
          var q := p + 1 + sl;
          var isInitial := (b[0] / 16) % 4 == InitialType(v).value;
          if isInitial then
            match AfterToken(b, q)
            case None => NotInitial
            case Some(t) => Payload(b, v, true, dcid, t)
          else Payload(b, v, false, dcid, q)
  }

  // ------------------------------------------------- specification functions

  /** What one packet does; n is None when the packet is refused. */
  datatype Step = Step(keys: Keys, frags: Frags, n: Option<nat>)

  function UseKeys(keys: Keys, dcid: bytes, version: nat): Keys
  {
    if dcid in keys then keys else keys[dcid := version]
  }

  function PacketStep(open: OpenFn, keys: Keys, frags: Frags, b: bytes): (r: Step)
    ensures r.n.Some? ==> 0 < r.n.value <= |b|
  {
    match ParseHeader(b)
    case NotInitial => Step(keys, frags, None)
    case OtherLong(end) => Step(keys, frags, Some(end))
    case Initial(version, dcid, at, end) =>
      var ks := UseKeys(keys, dcid, version);
      match open(ks[dcid], dcid, b[..end], at)
      case None => Step(ks, frags, None)
      case Some(plain) =>
        var c := Collect(plain, frags);
        Step(ks, c.frags, if c.ok then Some(end) else None)
  }

  datatype Absorbed = Absorbed(keys: Keys, frags: Frags, found: bool)

  /** Coalesced packets, up to the first refused one. */
  function Absorb(open: OpenFn, keys: Keys, frags: Frags, dgram: bytes, found: bool): Absorbed
    decreases |dgram|
  {
    if dgram == [] then Absorbed(keys, frags, found)
    else
      var s := PacketStep(open, keys, frags, dgram);
      match s.n
      case None => Absorbed(s.keys, s.frags, found)
      case Some(n) => Absorb(open, s.keys, s.frags, dgram[n..], true)
  }

  // ------------------------------------------------------------- the reader

  function SkipAckFrom(b: bytes, i: nat, count: nat, ecn: bool): Option<bytes>
    requires i <= 4
    decreases 4 - i
  {
    if i == 4 then SkipVarints(b, 2 * count + if ecn then 3 else 0)
    else if Varint(b).n == 0 then None
    else SkipAckFrom(b[Varint(b).n..], i + 1, if i == 2 then Varint(b).v else count, ecn)
  }

  lemma SkipAckRanges(b: bytes, count: nat, ecn: bool)
    ensures SkipAckFrom(b, 4, count, ecn) == SkipVarints(b, 2 * count + if ecn then 3 else 0)
  {
  }

  function AfterTwo(b: bytes): Option<bytes>
  {
    var c := b[Varint(b).n..];
    if Varint(b).n == 0 || Varint(c).n == 0 then None else Some(c[Varint(c).n..])
  }

  lemma TwoVarints(b: bytes)
    ensures SkipVarints(b, 2) == AfterTwo(b)
  {
    var c := b[Varint(b).n..];
    assert SkipVarints(c, 1) == if Varint(c).n == 0 then None else SkipVarints(c[Varint(c).n..], 0);
  }

  lemma SkipAckTwo(b: bytes, i: nat, j: nat, count: nat, ecn: bool)
    requires (i == 0 || i == 2) && j == i + 2
    ensures SkipAckFrom(b, i, count, ecn)
         == match AfterTwo(b)
            case None => None
            case Some(d) => SkipAckFrom(d, j, if i == 2 then Varint(b).v else count, ecn)
  {
    var c := b[Varint(b).n..];
    if Varint(b).n != 0 {
      var v := if i == 2 then Varint(b).v else count;
      assert SkipAckFrom(b, i, count, ecn) == SkipAckFrom(c, i + 1, v, ecn);
    }
  }

  function AckTail(b: bytes, ecn: bool): Option<bytes>
  {
    match AfterTwo(b)
    case None => None
    case Some(d) => RangesTail(d, ecn)
  }

  function RangesTail(d: bytes, ecn: bool): Option<bytes>
  {
    match AfterTwo(d)
    case None => None
    case Some(e) => SkipVarints(e, 2 * Varint(d).v + if ecn then 3 else 0)
  }

  lemma SkipAckTail(b: bytes, two: nat, ecn: bool)
    requires two == 2
    ensures SkipPairs(b, two, ecn) == AckTail(b, ecn)
  {
    TwoVarints(b);
    if AfterTwo(b).Some? {
      TwoVarints(AfterTwo(b).value);
    }
  }

  lemma SkipAckFromTail(b: bytes, i: nat, j: nat, ecn: bool)
    requires i == 0 && j == 2
    ensures SkipAckFrom(b, i, 0, ecn) == AckTail(b, ecn)
  {
    SkipAckTwo(b, i, j, 0, ecn);
    if AfterTwo(b).Some? {
      SkipAckLast(AfterTwo(b).value, j, 4, ecn);
    }
  }

  lemma SkipAckLast(d: bytes, i: nat, j: nat, ecn: bool)
    requires i == 2 && j == 4
    ensures SkipAckFrom(d, i, 0, ecn) == RangesTail(d, ecn)
  {
    SkipAckTwo(d, i, j, 0, ecn);
    if AfterTwo(d).Some? {
      SkipAckRanges(AfterTwo(d).value, Varint(d).v, ecn);
    }
  }

  lemma SkipAckSteps(b: bytes, ecn: bool)
    ensures SkipAckFrom(b, 0, 0, ecn) == SkipAck(b, ecn)
  {
    SkipAckTail(b, PAIR, ecn);
    SkipAckFromTail(b, 0, 2, ecn);
  }

  lemma SliceAfter(d: bytes, m: nat, l: nat)
    requires m + l <= |d|
    ensures d[m + l..] == d[m..][l..] && d[m..m + l] == d[m..][..l]
  {
  }

  class QUIC {
    var frags: Frags
    var total: nat
    var packets: nat
    var keys: Keys
    const open: OpenFn
    const normalize: bytes -> bytes

    ghost predicate Valid()
      reads this
    {
      total == StoredLength(frags)
    }

    constructor (open: OpenFn, normalize: bytes -> bytes)
      ensures Valid() && frags == map[] && packets == 0 && keys == map[]
      ensures this.open == open && this.normalize == normalize
    {
      this.open, this.normalize := open, normalize;
      frags, total, packets, keys := map[], 0, 0, map[];
    }

    /** The four fields every ACK frame has; count is the number of further ranges. */
    method SkipFour(from: bytes, ghost at: nat, ghost ecn: bool) returns (r: Option<bytes>, count: nat)
      requires at == 0
      ensures r.None? ==> SkipAckFrom(from, at, at, ecn) == None
      ensures r.Some? ==> SkipAckFrom(from, at, at, ecn) == SkipVarints(r.value, 2 * count + if ecn then 3 else 0)
    {
      ghost var goal := SkipAckFrom(from, at, at, ecn);
      var b := from;
      count := 0;
      for i := 0 to 4
        invariant SkipAckFrom(b, i, count, ecn) == goal
      {
        var v, n := DecodeVarint(b);
        if n == 0 {
          return None, count;
        }
        if i == 2 {
          count := v;
        }
        b := b[n..];
      }
      SkipAckRanges(b, count, ecn);
      return Some(b), count;
    }

    /** The ACK fields and ranges are read and dropped. */
    method SkipAckFields(from: bytes, ecn: bool) returns (r: Option<bytes>)
      ensures r == SkipAck(from, ecn)
    {
      r := SkipAckRun(from, 0, ecn);
      SkipAckSteps(from, ecn);
    }

    method SkipAckRun(from: bytes, ghost at: nat, ecn: bool) returns (r: Option<bytes>)
      requires at == 0
      ensures r == SkipAckFrom(from, at, at, ecn)
    {
      var b, count := SkipFour(from, at, ecn);
      if b.None? {
        return None;
      }
      var extra := 2 * count;
      if ecn {
        extra := extra + 3;
      }
      r := SkipMany(b.value, extra);
    }

    method SkipMany(from: bytes, extra: nat) returns (r: Option<bytes>)
      ensures r == SkipVarints(from, extra)
    {
      var b := from;
      for i := 0 to extra
        invariant SkipVarints(b, extra - i) == SkipVarints(from, extra)
      {
        var _, n := DecodeVarint(b);
        if n == 0 {
          return None;
        }
        b := b[n..];
      }
      return Some(b);
    }

    /** Stores the data of one CRYPTO frame, unless its offset is taken. */
    method CryptoFrame(from: bytes) returns (r: Option<bytes>)
      requires Valid()
      modifies this`frags, this`total
      ensures Valid()
      ensures TakeCrypto(from, old(frags)) == if r.None? then Malformed else Next(r.value, frags)
      ensures r.None? ==> frags == old(frags)
    {
      var b := from;
      var off, n := DecodeVarint(b);
      if n == 0 {
        return None;
      }
      b := b[n..];
      ghost var d := b;
      var l, m := DecodeVarint(b);
      if m == 0 || |b| - m < l {
        return None;
      }
      b := b[m..];
      if off + l > MAX_CRYPTO {
        return None;
      }
      StoredLengthStore(frags, off, b[..l]);
      if off !in frags {
        frags := frags[off := b[..l]];
        total := total + l;
      }
      SliceAfter(d, m, l);
      return Some(b[l..]);
    }

    /** Collects the CRYPTO frames of one payload. */
    method Frames(plain: bytes) returns (ok: bool)
      requires Valid()
      modifies this`frags, this`total
      ensures Valid()
      ensures Collected(frags, ok) == Collect(plain, old(frags))
    {
      var b := plain;
      while |b| > 0
        invariant Valid()
        invariant Collect(b, frags) == Collect(plain, old(frags))
        decreases |b|
      {
        var typ := b[0];
        b := b[1..];
        if typ == 0 || typ == 1 {
        } else if typ == 2 || typ == 3 {
          var r := SkipAckFields(b, typ == 3);
          if r.None? {
            return false;
          }
          b := r.value;
        } else if typ == 6 {
          var r := CryptoFrame(b);
          if r.None? {
            return false;
          }
          b := r.value;
        } else {
          return true;
        }
      }
      return true;
    }

    /** One packet at the start of b: its length, or 0 when it is refused. */
    method AddPacket(b: bytes) returns (n: nat, ok: bool)
      requires Valid()
      modifies this`frags, this`total, this`keys
      ensures Valid()
      ensures Step(keys, frags, if ok then Some(n) else None) == PacketStep(open, old(keys), old(frags), b)
      ensures ok ==> 0 < n <= |b|
    {
      match ParseHeader(b) {
        case NotInitial =>
          return 0, false;
        case OtherLong(end) =>
          return end, true;
        case Initial(version, dcid, at, end) =>
          if dcid !in keys {
            keys := keys[dcid := version];
          }
          var plain := open(keys[dcid], dcid, b[..end], at);
          if plain.None? {
            return 0, false;
          }
          var good := Frames(plain.value);
          if !good {
            return 0, false;
          }
          return end, true;
      }
    }

    /** The packets of a datagram, up to the first that is refused. */
    method AddPackets(dgram: bytes) returns (found: bool)
      requires Valid()
      modifies this`frags, this`total, this`keys
      ensures Valid() && Absorb(open, old(keys), old(frags), dgram, false) == Absorbed(keys, frags, found)
    {
      ghost var goal := Absorb(open, keys, frags, dgram, false);
      found := false;
      var b := dgram;
      while |b| > 0
        invariant Valid()
        invariant Absorb(open, keys, frags, b, found) == goal
        decreases |b|
      {
        var n, ok := AddPacket(b);
        if !ok {
          assert goal == Absorbed(keys, frags, found);
          return;
        }
        found := true;
        b := b[n..];
      }
    }

    /** The verdict on what is held. */
    method Judge(found: bool) returns (res: SniffResult, done: bool)
      requires Valid()
      ensures AddResult(normalize, frags, found, packets, res, done)
    {
      if !found && frags == map[] {
        return NoResult, true;
      }
      var hello := QuicStream.ClientHello(frags);
      ghost var stream :| QuicStream.Rebuilt(frags, stream) && hello == HelloIn(stream);
      if hello.Some? {
        var host, ech, ok := ClientHello.ParseClientHello(hello.value);
        if !ok {
          return Found([], false), true;
        }
        return Found(normalize(host), ech), true;
      }
      if packets >= MAX_PACKETS || total > MAX_CRYPTO {
        return Found([], false), true;
      }
      return NoResult, false;
    }

    /**
     Feeds one datagram. done says no more are needed: the ClientHello was read,
     the flow is not QUIC, or reading failed.
     */
    method Add(dgram: bytes) returns (res: SniffResult, done: bool)
      requires Valid()
      modifies this
      ensures Valid() && packets == old(packets) + 1
      ensures var a := Absorb(open, old(keys), old(frags), dgram, false);
              keys == a.keys && frags == a.frags && AddResult(normalize, frags, a.found, packets, res, done)
      ensures packets >= 16 ==> done
    {
      packets := packets + 1;
      var found := AddPackets(dgram);
      res, done := Judge(found);
    }
  }

  /** What a complete ClientHello message answers. */
  function Answer(normalize: bytes -> bytes, hello: bytes): SniffResult
  {
    match ClientHello.Hello(hello)
    case None => Found([], false)
    case Some(s) => Found(normalize(s.host), s.ech)
  }

  /** The verdict on a flow, from its fragments and the number of datagrams. */
  ghost predicate AddResult(normalize: bytes -> bytes, frags: Frags, found: bool, packets: nat, res: SniffResult, done: bool)
  {
    && (!found && frags == map[] ==> res == NoResult && done)
    && (found || frags != map[] ==>
          exists stream ::
            && IsGap(frags, |stream|) && FromFragments(frags, stream)
            && (HelloIn(stream).Some? ==> done && res == Answer(normalize, HelloIn(stream).value))
            && (HelloIn(stream).None? ==>
                  && (done <==> packets >= 16 || StoredLength(frags) > 0x1_0000)
                  && res == if done then Found([], false) else NoResult))
  }
}
