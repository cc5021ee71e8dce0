/**
 Exactly which bytes the QUIC reader takes for an Initial packet, and what it makes of
 the other packets of a datagram (section 17.2 of RFC 9000, section 3.2 of RFC 9369).
 */
module QuicHeader {
  import opened Wrappers
  import opened Wire
  import opened QuicVarint
  import opened QuicFrames
  import opened Quic
  import opened QuicMeaning

  /** Short headers, and versions other than 1 and 2, are refused. */
  lemma ForeignRefused(b: bytes)
    requires |b| < 7 || b[0] < 0x80 || BigEndian(b[1..5]) !in {1, 0x6b3343cf}
    ensures ParseHeader(b) == NotInitial
  {
  }

  /** A flow whose first datagram starts like that is given up at once. */
  lemma ForeignIsDone(open: OpenFn, keys: Keys, normalize: bytes -> bytes, b: bytes, packets: nat, res: SniffResult, done: bool)
    requires |b| < 7 || b[0] < 0x80 || BigEndian(b[1..5]) !in {1, 0x6b3343cf}
    requires var a := Absorb(open, keys, map[], b, false); AddResult(normalize, a.frags, a.found, packets, res, done)
    ensures res == NoResult && done
  {
    ForeignRefused(b);
    assert Absorb(open, keys, map[], b, false).frags == map[] && !Absorb(open, keys, map[], b, false).found;
  }

  /** A message that is no readable ClientHello is answered without a name. */
  lemma UnreadableAnswered(normalize: bytes -> bytes, hello: bytes)
    requires |hello| < 39 || hello[0] != 1
    ensures Answer(normalize, hello) == Found([], false)
  {
  }

  // ------------------------------------------------------------- other packets

  /** A 0-RTT or Handshake packet: no token. */
  datatype Other = Other(first: byte, version: nat, dcid: bytes, scid: bytes, payload: bytes, lengthWidth: nat)

  ghost predicate ValidOther(o: Other)
  {
    && o.first >= 0x80 && (o.version == 1 || o.version == 0x6b3343cf) && !InitialBits(o.version, o.first)
    && |o.dcid| <= 20 && |o.scid| <= 20 && Fits(|o.payload|, o.lengthWidth)
  }

  ghost function EncodeOther(o: Other): bytes
    requires ValidOther(o)
  {
    HeadOf(o.first, o.version, o.dcid, o.scid) + (Encode(|o.payload|, o.lengthWidth) + o.payload)
  }

  lemma OtherShape(b: bytes, version: nat, dl: nat, sl: nat, end: nat)
    requires dl <= 20 && sl <= 20 && |b| >= 8 + dl + sl && b[0] >= 0x80
    requires (version == 1 || version == 0x6b3343cf) && !InitialBits(version, b[0]) && BigEndian(b[1..5]) == version
    requires b[5] == dl && b[6 + dl] == sl
    requires Payload(b, version, false, b[6..6 + dl], 7 + dl + sl) == OtherLong(end)
    ensures ParseHeader(b) == OtherLong(end)
  {
  }

  /** Such a packet is skipped to its exact end. */
  lemma OtherSkipped(o: Other, rest: bytes)
    requires ValidOther(o)
    ensures ParseHeader(EncodeOther(o) + rest) == OtherLong(|EncodeOther(o)|)
    ensures (EncodeOther(o) + rest)[|EncodeOther(o)|..] == rest
  {
    var head, len := HeadOf(o.first, o.version, o.dcid, o.scid), Encode(|o.payload|, o.lengthWidth);
    Assoc3(head, len, o.payload, rest);
    OtherIsRead(o, rest, EncodeOther(o) + rest);
  }

  lemma Assoc3(x: bytes, y: bytes, z: bytes, rest: bytes)
    ensures var p := x + (y + z);
            p + rest == x + (y + (z + rest)) && (p + rest)[|p|..] == rest
  {
  }

  lemma OtherIsRead(o: Other, rest: bytes, b: bytes)
    requires ValidOther(o)
    requires b == HeadOf(o.first, o.version, o.dcid, o.scid) + (Encode(|o.payload|, o.lengthWidth) + (o.payload + rest))
    ensures ParseHeader(b) == OtherLong(|EncodeOther(o)|)
  {
    var q := 7 + |o.dcid| + |o.scid|;
    HeadParses(o.first, o.version, o.dcid, o.scid, Encode(|o.payload|, o.lengthWidth) + (o.payload + rest));
    OtherPayload(b, o.version, b[6..6 + |o.dcid|], q, o.payload, o.lengthWidth, rest);
    OtherShape(b, o.version, |o.dcid|, |o.scid|, q + o.lengthWidth + |o.payload|);
  }

  lemma OtherPayload(b: bytes, version: nat, dcid: bytes, p: nat, payload: bytes, width: nat, rest: bytes)
    requires Fits(|payload|, width) && p <= |b| && b[p..] == Encode(|payload|, width) + (payload + rest)
    ensures Payload(b, version, false, dcid, p) == OtherLong(p + width + |payload|)
  {
    VarintRoundTrip(|payload|, width, payload + rest);
  }

  /** It changes nothing, wherever it stands; the datagram counts as QUIC. */
  lemma OtherChangesNothing(open: OpenFn, keys: Keys, frags: Frags, o: Other, rest: bytes, found: bool)
    requires ValidOther(o)
    ensures Absorb(open, keys, frags, EncodeOther(o) + rest, found) == Absorb(open, keys, frags, rest, true)
  {
    OtherSkipped(o, rest);
  }

  // ------------------------------------------------- nothing else is an Initial

  /** The bytes of a varint are one of its encodings. */
  lemma VarintThere(b: bytes, p: nat)
    requires p <= |b| && Varint(b[p..]).n != 0
    ensures var t := Varint(b[p..]); Fits(t.v, t.n) && p + t.n <= |b| && b[p..p + t.n] == Encode(t.v, t.n)
  {
    VarintIsEncoding(b[p..]);
    assert b[p..p + Varint(b[p..]).n] == b[p..][..Varint(b[p..]).n];
  }

  lemma HeadThere(b: bytes, dl: nat, sl: nat, q: nat)
    requires dl <= 20 && sl <= 20 && q == 7 + dl + sl && |b| >= q && b[5] == dl && b[6 + dl] == sl
    ensures b[..q] == HeadOf(b[0], BigEndian(b[1..5]), b[6..6 + dl], b[7 + dl..q])
  {
    ToBigEndianOf(b[1..5]);
    assert b[..q] == ([b[0]] + b[1..5]) + (([b[5]] + b[6..6 + dl]) + ([b[6 + dl]] + b[7 + dl..q]));
  }

  /** What ParseHeader has seen of an Initial packet. */
  lemma InitialParts(b: bytes, dl: nat, sl: nat, q: nat, u: nat)
    requires ParseHeader(b).Initial? && dl == b[5] as int && (dl <= 20 && 6 + dl < |b| ==> sl == b[6 + dl] as int)
    requires q == 7 + dl + sl && (q <= |b| ==> u == q + Varint(b[q..]).n + Varint(b[q..]).v)
    ensures dl <= 20 && sl <= 20 && q <= u <= |b| && b[0] >= 0x80 && b[6 + dl] as int == sl && Varint(b[q..]).n > 0
    ensures InitialBits(BigEndian(b[1..5]), b[0])
    ensures Payload(b, BigEndian(b[1..5]), true, b[6..6 + dl], u) == ParseHeader(b)
  {
  }

  /** The encoding of a token or payload of this length. */
  lemma FieldThere(b: bytes, p: nat, n: nat, m: nat, e: nat, field: bytes)
    requires p <= m <= e <= |b| && Varint(b[p..]).n == n > 0 && m == p + n && e == m + Varint(b[p..]).v && field == b[m..e]
    ensures Fits(|field|, n) && b[p..e] == Encode(|field|, n) + field
  {
    VarintThere(b, p);
  }

  lemma PiecesJoin(b: bytes, q: nat, u: nat, e: nat)
    requires q <= u <= e <= |b|
    ensures b[..e] == b[..q] + (b[q..u] + b[u..e])
  {
  }

  lemma EncodeIs(pk: Packet, head: bytes, token: bytes, body: bytes)
    requires ValidPacket(pk) && head == HeadOf(pk.first, pk.version, pk.dcid, pk.scid)
    requires token == Encode(|pk.token|, pk.tokenWidth) + pk.token && body == Encode(|pk.payload|, pk.lengthWidth) + pk.payload
    ensures EncodePacket(pk) == head + (token + body)
    ensures NumberAt(pk) == |head| + |token| + pk.lengthWidth
  {
  }

  /** The packet whose fields lie between these positions. */
  lemma PacketThere(b: bytes, dl: nat, sl: nat, q: nat, u: nat, at: nat, e: nat) returns (pk: Packet)
    requires dl <= 20 && sl <= 20 && q == 7 + dl + sl && q <= u <= at && at + 20 <= e <= |b|
    requires b[5] as int == dl && b[6 + dl] as int == sl && b[0] >= 0x80 && InitialBits(BigEndian(b[1..5]), b[0])
    requires Varint(b[q..]).n > 0 && u == q + Varint(b[q..]).n + Varint(b[q..]).v
    requires Varint(b[u..]).n == at - u > 0 && Varint(b[u..]).v == e - at
    ensures ValidPacket(pk) && pk.version == BigEndian(b[1..5]) && pk.dcid == b[6..6 + dl] && NumberAt(pk) == at
    ensures EncodePacket(pk) == b[..e]
  {
    var t := Varint(b[q..]).n;
    var token, payload := b[q + t..u], b[at..e];
    HeadThere(b, dl, sl, q);
    FieldThere(b, q, t, q + t, u, token);
    FieldThere(b, u, at - u, at, e, payload);
    pk := PacketFrom(b[0], BigEndian(b[1..5]), b[6..6 + dl], b[7 + dl..q], token, t, payload, at - u, b, q, u, e);
  }

  lemma PacketFrom(first: byte, version: nat, dcid: bytes, scid: bytes, token: bytes, tw: nat, payload: bytes, pw: nat,
                   b: bytes, q: nat, u: nat, e: nat) returns (pk: Packet)
    requires first >= 0x80 && InitialBits(version, first) && |dcid| <= 20 && |scid| <= 20
    requires Fits(|token|, tw) && Fits(|payload|, pw) && |payload| >= 20 && q <= u <= e <= |b|
    requires b[..q] == HeadOf(first, version, dcid, scid) && b[q..u] == Encode(|token|, tw) + token && b[u..e] == Encode(|payload|, pw) + payload
    ensures ValidPacket(pk) && pk.version == version && pk.dcid == dcid && EncodePacket(pk) == b[..e] && NumberAt(pk) == u + pw
  {
    pk := Packet(first, version, dcid, scid, token, tw, payload, pw, []);
    PiecesJoin(b, q, u, e);
    EncodeIs(pk, b[..q], b[q..u], b[u..e]);
  }

  /** What is taken for an Initial packet is the encoding of one. */
  lemma InitialIsPacket(b: bytes) returns (pk: Packet)
    requires ParseHeader(b).Initial?
    ensures var h := ParseHeader(b);
            ValidPacket(pk) && EncodePacket(pk) == b[..h.end] && pk.version == h.version && pk.dcid == h.dcid && NumberAt(pk) == h.at
  {
    var h := ParseHeader(b);
    var dl := b[5] as int;
    var sl := b[6 + dl] as int;
    var q := 7 + dl + sl;
    var u := q + Varint(b[q..]).n + Varint(b[q..]).v;
    InitialParts(b, dl, sl, q, u);
    pk := PacketThere(b, dl, sl, q, u, h.at, h.end);
  }

  lemma FrontAndRest(b: bytes, end: nat)
    requires end <= |b|
    ensures b == b[..end] + b[end..]
  {
  }

  /** The reader takes the front of a datagram for an Initial packet exactly when it is one. */
  lemma InitialIff(b: bytes)
    ensures ParseHeader(b).Initial? <==> exists pk, rest :: ValidPacket(pk) && b == EncodePacket(pk) + rest
  {
    if ParseHeader(b).Initial? {
      var pk := InitialIsPacket(b);
      FrontAndRest(b, ParseHeader(b).end);
      assert b == EncodePacket(pk) + b[ParseHeader(b).end..];
    }
    if pk, rest :| ValidPacket(pk) && b == EncodePacket(pk) + rest {
      HeaderRoundTrip(pk, rest);
    }
  }
}
