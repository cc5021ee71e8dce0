/**
 The QUIC reader against encoded traffic: Initial packets in any coalescing and
 order, whose CRYPTO frames are slices of one ClientHello.
 */
module QuicMeaning {
  import opened Wrappers
  import opened Wire
  import opened QuicVarint
  import opened QuicFrames
  import opened QuicStream
  import opened Quic
  import ClientHello

  /** A protected Initial packet (section 17.2 of RFC 9000) and the frames inside it. */
  datatype Packet = Packet(
    first: byte, version: nat, dcid: bytes, scid: bytes,
    token: bytes, tokenWidth: nat, payload: bytes, lengthWidth: nat, frames: seq<Frame>)

  /** The type bits of an Initial packet: 0 in version 1 (section 17.2 of RFC 9000), 1 in version 2 (section 3.2 of RFC 9369). */
  predicate InitialBits(version: nat, first: byte)
  {
    (version == 1 && (first / 16) % 4 == 0) || (version == 0x6b3343cf && (first / 16) % 4 == 1)
  }

  ghost predicate ValidPacket(pk: Packet)
  {
    && pk.first >= 0x80 && InitialBits(pk.version, pk.first)
    && |pk.dcid| <= 20 && |pk.scid| <= 20
    && Fits(|pk.token|, pk.tokenWidth) && Fits(|pk.payload|, pk.lengthWidth) && |pk.payload| >= 20
    && forall f :: f in pk.frames ==> ValidFrame(f)
  }

  /** The fixed part of a long header: first byte, version and the two connection IDs. */
  ghost function HeadOf(first: byte, version: nat, dcid: bytes, scid: bytes): bytes
    requires |dcid| <= 20 && |scid| <= 20
  {
    ([first] + ToBigEndian(version, 4)) + (([|dcid|] + dcid) + ([|scid|] + scid))
  }

  ghost function HeadBytes(pk: Packet): bytes
    requires ValidPacket(pk)
  {
    HeadOf(pk.first, pk.version, pk.dcid, pk.scid)
  }

  ghost function TokenBytes(pk: Packet): bytes
    requires ValidPacket(pk)
  {
    Encode(|pk.token|, pk.tokenWidth) + pk.token
  }

  ghost function LengthBytes(pk: Packet): bytes
    requires ValidPacket(pk)
  {
    Encode(|pk.payload|, pk.lengthWidth)
  }

  ghost function EncodePacket(pk: Packet): bytes
    requires ValidPacket(pk)
  {
    HeadBytes(pk) + (TokenBytes(pk) + (LengthBytes(pk) + pk.payload))
  }

  /** Where the packet number starts. */
  ghost function NumberAt(pk: Packet): nat
    requires ValidPacket(pk)
  {
    |HeadBytes(pk)| + |TokenBytes(pk)| + |LengthBytes(pk)|
  }

  /** The packet authenticates under the keys of its own version. */
  ghost predicate Opens(open: OpenFn, pk: Packet)
  {
    ValidPacket(pk) && open(pk.version, pk.dcid, EncodePacket(pk), NumberAt(pk)) == Some(EncodeFrames(pk.frames))
  }

  // ------------------------------------------------------------- one packet

  lemma VersionBytes(v: nat)
    requires v == 1 || v == 0x6b3343cf
    ensures |ToBigEndian(v, 4)| == 4 && BigEndian(ToBigEndian(v, 4)) == v
  {
    assert Pow256(1) == 256 && Pow256(2) == 0x1_0000 && Pow256(3) == 0x100_0000 && Pow256(4) == 0x1_0000_0000;
    BigEndianOf(v, 4);
  }

  lemma PayloadParses(b: bytes, version: nat, dcid: bytes, p: nat, payload: bytes, width: nat, rest: bytes)
    requires Fits(|payload|, width) && |payload| >= 20
    requires p <= |b| && b[p..] == Encode(|payload|, width) + (payload + rest)
    ensures Payload(b, version, true, dcid, p) == Initial(version, dcid, p + width, p + width + |payload|)
  {
    VarintRoundTrip(|payload|, width, payload + rest);
  }

  lemma TokenParses(b: bytes, p: nat, token: bytes, width: nat, rest: bytes)
    requires Fits(|token|, width)
    requires p <= |b| && b[p..] == Encode(|token|, width) + (token + rest)
    ensures AfterToken(b, p) == Some(p + width + |token|)
    ensures b[p + width + |token|..] == rest
  {
    VarintRoundTrip(|token|, width, token + rest);
    assert b[p + width..] == b[p..][width..] == token + rest;
  }

  /** The fixed part of the header is read back. */
  lemma HeadParses(first: byte, version: nat, dcid: bytes, scid: bytes, tail: bytes)
    requires (version == 1 || version == 0x6b3343cf) && |dcid| <= 20 && |scid| <= 20 && |tail| >= 1
    ensures var b := HeadOf(first, version, dcid, scid) + tail;
            && |b| >= 8 + |dcid| + |scid| && b[0] == first && BigEndian(b[1..5]) == version
            && b[5] == |dcid| && b[6..6 + |dcid|] == dcid
            && b[6 + |dcid|] == |scid| && |HeadOf(first, version, dcid, scid)| == 7 + |dcid| + |scid|
            && b[7 + |dcid| + |scid|..] == tail
  {
    var b := HeadOf(first, version, dcid, scid) + tail;
    VersionBytes(version);
    assert b[1..5] == ToBigEndian(version, 4);
    assert b[6..6 + |dcid|] == dcid;
  }

  /** What ParseHeader needs to see in order to find an Initial packet. */
  lemma HeaderShape(b: bytes, version: nat, dcid: bytes, sl: nat, h: nat, t: nat, at: nat, end: nat)
    requires |dcid| <= 20 && sl <= 20 && h == 7 + |dcid| + sl
    requires |b| >= 8 + |dcid| + sl && b[0] >= 0x80
    requires InitialType(version) == Some((b[0] / 16) % 4) && BigEndian(b[1..5]) == version
    requires b[5] == |dcid| && b[6..6 + |dcid|] == dcid && b[6 + |dcid|] == sl
    requires AfterToken(b, h) == Some(t)
    requires Payload(b, version, true, dcid, t) == Initial(version, dcid, at, end)
    ensures ParseHeader(b) == Initial(version, dcid, at, end)
  {
  }

  lemma Assoc5(x: bytes, y: bytes, u: bytes, z: bytes, v: bytes, rest: bytes)
    ensures var p := x + ((y + u) + (z + v));
            && p + rest == x + (y + (u + (z + (v + rest))))
            && (p + rest)[..|p|] == p && (p + rest)[|p|..] == rest
  {
  }

  /** The variable part of the header is read back. */
  lemma VariableParts(b: bytes, version: nat, dcid: bytes, h: nat, token: bytes, tw: nat, payload: bytes, pw: nat, rest: bytes)
    requires Fits(|token|, tw) && Fits(|payload|, pw) && |payload| >= 20 && h <= |b|
    requires b[h..] == Encode(|token|, tw) + (token + (Encode(|payload|, pw) + (payload + rest)))
    ensures var p := h + tw + |token|;
            AfterToken(b, h) == Some(p) && Payload(b, version, true, dcid, p) == Initial(version, dcid, p + pw, p + pw + |payload|)
  {
    TokenParses(b, h, token, tw, Encode(|payload|, pw) + (payload + rest));
    PayloadParses(b, version, dcid, h + tw + |token|, payload, pw, rest);
  }

  lemma HeaderRoundTrip(pk: Packet, rest: bytes)
    requires ValidPacket(pk)
    ensures ParseHeader(EncodePacket(pk) + rest) == Initial(pk.version, pk.dcid, NumberAt(pk), |EncodePacket(pk)|)
    ensures (EncodePacket(pk) + rest)[..|EncodePacket(pk)|] == EncodePacket(pk)
    ensures (EncodePacket(pk) + rest)[|EncodePacket(pk)|..] == rest
  {
    Assoc5(HeadBytes(pk), Encode(|pk.token|, pk.tokenWidth), pk.token, LengthBytes(pk), pk.payload, rest);
    HeaderIsRead(pk, rest, EncodePacket(pk) + rest);
  }

  lemma PacketLengths(pk: Packet)
    requires ValidPacket(pk)
    ensures |HeadBytes(pk)| == 7 + |pk.dcid| + |pk.scid|
    ensures NumberAt(pk) == 7 + |pk.dcid| + |pk.scid| + pk.tokenWidth + |pk.token| + pk.lengthWidth
    ensures |EncodePacket(pk)| == NumberAt(pk) + |pk.payload|
  {
    VersionBytes(pk.version);
  }

  /** Behind such a fixed part, the header is read back. */
  lemma FieldsRead(b: bytes, version: nat, dcid: bytes, sl: nat, h: nat, token: bytes, tw: nat, payload: bytes, pw: nat, rest: bytes)
    requires |dcid| <= 20 && sl <= 20 && h == 7 + |dcid| + sl && |b| > h && b[0] >= 0x80
    requires InitialType(version) == Some((b[0] / 16) % 4) && BigEndian(b[1..5]) == version
    requires b[5] == |dcid| && b[6..6 + |dcid|] == dcid && b[6 + |dcid|] == sl
    requires Fits(|token|, tw) && Fits(|payload|, pw) && |payload| >= 20
    requires b[h..] == Encode(|token|, tw) + (token + (Encode(|payload|, pw) + (payload + rest)))
    ensures ParseHeader(b) == Initial(version, dcid, h + tw + |token| + pw, h + tw + |token| + pw + |payload|)
  {
    var p := h + tw + |token|;
    VariableParts(b, version, dcid, h, token, tw, payload, pw, rest);
    HeaderShape(b, version, dcid, sl, h, p, p + pw, p + pw + |payload|);
  }

  /** The fixed part of an Initial packet's header, in the reader's terms. */
  lemma FixedPart(first: byte, version: nat, dcid: bytes, scid: bytes, tail: bytes, b: bytes)
    requires first >= 0x80 && InitialBits(version, first) && |dcid| <= 20 && |scid| <= 20 && |tail| >= 1
    requires b == HeadOf(first, version, dcid, scid) + tail
    ensures |b| >= 8 + |dcid| + |scid| && b[0] >= 0x80
    ensures InitialType(version) == Some((b[0] / 16) % 4) && BigEndian(b[1..5]) == version
    ensures b[5] == |dcid| && b[6..6 + |dcid|] == dcid && b[6 + |dcid|] == |scid|
    ensures b[7 + |dcid| + |scid|..] == tail
  {
    HeadParses(first, version, dcid, scid, tail);
  }

  lemma WholeRead(first: byte, version: nat, dcid: bytes, scid: bytes, token: bytes, tw: nat, payload: bytes, pw: nat, rest: bytes,
                  tail: bytes, b: bytes)
    requires first >= 0x80 && InitialBits(version, first) && |dcid| <= 20 && |scid| <= 20
    requires Fits(|token|, tw) && Fits(|payload|, pw) && |payload| >= 20
    requires tail == Encode(|token|, tw) + (token + (Encode(|payload|, pw) + (payload + rest)))
    requires b == HeadOf(first, version, dcid, scid) + tail
    ensures var p := 7 + |dcid| + |scid| + tw + |token|;
            ParseHeader(b) == Initial(version, dcid, p + pw, p + pw + |payload|)
  {
    FixedPart(first, version, dcid, scid, tail, b);
    FieldsRead(b, version, dcid, |scid|, 7 + |dcid| + |scid|, token, tw, payload, pw, rest);
  }

  lemma HeaderIsRead(pk: Packet, rest: bytes, b: bytes)
    requires ValidPacket(pk)
    requires b == HeadBytes(pk) + (Encode(|pk.token|, pk.tokenWidth) + (pk.token + (LengthBytes(pk) + (pk.payload + rest))))
    ensures ParseHeader(b) == Initial(pk.version, pk.dcid, NumberAt(pk), |EncodePacket(pk)|)
  {
    var tail := Encode(|pk.token|, pk.tokenWidth) + (pk.token + (LengthBytes(pk) + (pk.payload + rest)));
    var p := 7 + |pk.dcid| + |pk.scid| + pk.tokenWidth + |pk.token|;
    assert NumberAt(pk) == p + pk.lengthWidth && |EncodePacket(pk)| == p + pk.lengthWidth + |pk.payload| by {
      PacketLengths(pk);
    }
    WholeRead(pk.first, pk.version, pk.dcid, pk.scid, pk.token, pk.tokenWidth, pk.payload, pk.lengthWidth, rest, tail, b);
  }

  /** One key choice per connection ID: a later version for the same ID would reuse the first keys. */
  ghost predicate KeysFit(keys: Keys, pk: Packet)
  {
    pk.dcid in keys ==> keys[pk.dcid] == pk.version
  }

  lemma PacketAbsorbed(open: OpenFn, keys: Keys, frags: Frags, pk: Packet, rest: bytes)
    requires Opens(open, pk) && KeysFit(keys, pk)
    ensures PacketStep(open, keys, frags, EncodePacket(pk) + rest)
         == Step(UseKeys(keys, pk.dcid, pk.version), StoreAll(frags, pk.frames), Some(|EncodePacket(pk)|))
  {
    HeaderRoundTrip(pk, rest);
    CollectAll(pk.frames, frags);
  }

  // ------------------------------------------------------------- datagrams

  ghost function EncodeDatagram(pks: seq<Packet>): bytes
    requires forall pk :: pk in pks ==> ValidPacket(pk)
  {
    if pks == [] then [] else EncodePacket(pks[0]) + EncodeDatagram(pks[1..])
  }

  ghost function FramesOf(pks: seq<Packet>): seq<Frame>
  {
    if pks == [] then [] else pks[0].frames + FramesOf(pks[1..])
  }

  lemma {:induction false} StoreAllAppend(frags: Frags, fs: seq<Frame>, gs: seq<Frame>)
    ensures StoreAll(frags, fs + gs) == StoreAll(StoreAll(frags, fs), gs)
    decreases |fs|
  {
    if fs == [] {
      assert fs + gs == gs;
    } else {
      assert (fs + gs)[1..] == fs[1..] + gs;
      StoreAllAppend(StoreFrame(frags, fs[0]), fs[1..], gs);
    }
  }

  /** All packets of the flow open, and one connection ID goes with one version. */
  ghost predicate Flow(open: OpenFn, pks: seq<Packet>, keys: Keys)
  {
    && (forall pk :: pk in pks ==> Opens(open, pk) && KeysFit(keys, pk))
    && forall p, q :: p in pks && q in pks && p.dcid == q.dcid ==> p.version == q.version
  }

  lemma FlowTail(open: OpenFn, pks: seq<Packet>, keys: Keys)
    requires Flow(open, pks, keys) && pks != []
    ensures Flow(open, pks[1..], UseKeys(keys, pks[0].dcid, pks[0].version))
  {
    var ks := UseKeys(keys, pks[0].dcid, pks[0].version);
    forall pk | pk in pks[1..] ensures Opens(open, pk) && KeysFit(ks, pk) {
      assert pk in pks && pks[0] in pks;
    }
  }

  /** A datagram of coalesced packets stores all their CRYPTO data and keeps the keys usable. */
  lemma {:induction false} DatagramAbsorbed(open: OpenFn, keys: Keys, frags: Frags, pks: seq<Packet>, more: seq<Packet>, found: bool)
    requires Flow(open, pks + more, keys)
    ensures forall pk :: pk in pks ==> ValidPacket(pk)
    ensures var a := Absorb(open, keys, frags, EncodeDatagram(pks), found);
            a.frags == StoreAll(frags, FramesOf(pks)) && a.found == (found || pks != []) && Flow(open, more, a.keys)
    decreases |pks|
  {
    if pks == [] {
      assert pks + more == more;
    } else {
      var pk := pks[0];
      assert pk in pks + more;
      assert (pks + more)[0] == pk && (pks + more)[1..] == pks[1..] + more;
      FlowTail(open, pks + more, keys);
      var ks := UseKeys(keys, pk.dcid, pk.version);
      var f := StoreAll(frags, pk.frames);
      DatagramAbsorbed(open, ks, f, pks[1..], more, true);
      var rest := EncodeDatagram(pks[1..]);
      PacketAbsorbed(open, keys, frags, pk, rest);
      HeaderRoundTrip(pk, rest);
      StoreAllAppend(frags, pk.frames, FramesOf(pks[1..]));
    }
  }

  // ------------------------------------------------------------ whole flows

  /** The reader's state after a flow of datagrams. */
  ghost function AfterDatagrams(open: OpenFn, keys: Keys, frags: Frags, dgrams: seq<seq<Packet>>): Absorbed
    requires forall d, pk :: d in dgrams && pk in d ==> ValidPacket(pk)
    decreases |dgrams|
  {
    if dgrams == [] then Absorbed(keys, frags, false)
    else
      var a := Absorb(open, keys, frags, EncodeDatagram(dgrams[0]), false);
      if |dgrams| == 1 then a else AfterDatagrams(open, a.keys, a.frags, dgrams[1..])
  }

  ghost function Flatten(dgrams: seq<seq<Packet>>): seq<Packet>
  {
    if dgrams == [] then [] else dgrams[0] + Flatten(dgrams[1..])
  }

  lemma {:induction false} InFlatten(dgrams: seq<seq<Packet>>)
    ensures forall d, pk :: d in dgrams && pk in d ==> pk in Flatten(dgrams)
  {
    if dgrams != [] {
      InFlatten(dgrams[1..]);
      forall d, pk | d in dgrams && pk in d ensures pk in Flatten(dgrams) {
        assert d == dgrams[0] || d in dgrams[1..];
      }
    }
  }

  /** However the packets are spread over datagrams, the same fragments are stored. */
  lemma {:induction false} FlowAbsorbed(open: OpenFn, keys: Keys, frags: Frags, dgrams: seq<seq<Packet>>)
    requires Flow(open, Flatten(dgrams), keys)
    ensures forall d, pk :: d in dgrams && pk in d ==> ValidPacket(pk)
    ensures var a := AfterDatagrams(open, keys, frags, dgrams);
            && a.frags == StoreAll(frags, FramesOf(Flatten(dgrams)))
            && (dgrams != [] && dgrams[|dgrams| - 1] != [] ==> a.found)
    decreases |dgrams|
  {
    InFlatten(dgrams);
    if dgrams != [] {
      DatagramAbsorbed(open, keys, frags, dgrams[0], Flatten(dgrams[1..]), false);
      var a := Absorb(open, keys, frags, EncodeDatagram(dgrams[0]), false);
      FramesOfAppend(dgrams[0], Flatten(dgrams[1..]));
      StoreAllAppend(frags, FramesOf(dgrams[0]), FramesOf(Flatten(dgrams[1..])));
      FlowAbsorbed(open, a.keys, a.frags, dgrams[1..]);
      if |dgrams| == 1 {
        assert dgrams[1..] == [];
      } else {
        assert dgrams[1..][|dgrams| - 2] == dgrams[|dgrams| - 1];
      }
    }
  }

  lemma {:induction false} FramesOfAppend(ps: seq<Packet>, qs: seq<Packet>)
    ensures FramesOf(ps + qs) == FramesOf(ps) + FramesOf(qs)
  {
    if ps == [] {
      assert ps + qs == qs;
    } else {
      assert (ps + qs)[1..] == ps[1..] + qs;
      FramesOfAppend(ps[1..], qs);
    }
  }

  /** A ClientHello message whose length field is right. */
  ghost predicate ValidMessage(h: ClientHello.HelloMsg, length: bytes)
  {
    && ClientHello.ValidHello(h) && |length| == 3
    && U24(length) + 4 == |ClientHello.EncodeHello(h, length)|
  }

  lemma MessageStarts(h: ClientHello.HelloMsg, length: bytes, after: bytes)
    requires ValidMessage(h, length)
    ensures var sent := ClientHello.EncodeHello(h, length) + after;
            && StartsHello(sent) && HelloLength(sent) == |ClientHello.EncodeHello(h, length)|
            && sent[..HelloLength(sent)] == ClientHello.EncodeHello(h, length)
  {
    var m := ClientHello.EncodeHello(h, length);
    assert m[0] == 1 && m[1..4] == length;
    var sent := m + after;
    assert sent[1..][0] == length[0] && sent[1..][1] == length[1] && sent[1..][2] == length[2];
  }

  /** The verdict on agreeing fragments of a stream that starts with the message. */
  lemma HelloDecides(normalize: bytes -> bytes, frags: Frags, sent: bytes, packets: nat,
                     h: ClientHello.HelloMsg, length: bytes, after: bytes, res: SniffResult, done: bool)
    requires ValidMessage(h, length) && sent == ClientHello.EncodeHello(h, length) + after && Agrees(frags, sent)
    requires AddResult(normalize, frags, true, packets, res, done)
    ensures if CoveredRange(frags, 0, |ClientHello.EncodeHello(h, length)|) then
              done && res == Found(normalize(ClientHello.LastHost(h.exts)), ClientHello.HasECH(h.exts))
            else
              && (done <==> packets >= 16 || StoredLength(frags) > 0x1_0000)
              && res == if done then Found([], false) else NoResult
  {
    MessageStarts(h, length, after);
    var stream :| IsGap(frags, |stream|) && FromFragments(frags, stream)
            && (HelloIn(stream).Some? ==> done && res == Answer(normalize, HelloIn(stream).value))
            && (HelloIn(stream).None? ==>
                  && (done <==> packets >= 16 || StoredLength(frags) > 0x1_0000)
                  && res == if done then Found([], false) else NoResult);
    HelloIff(frags, sent, stream);
    ClientHello.HelloRoundTrip(h, length);
  }

  /**
   The name is read. Whatever way the ClientHello's bytes are cut into CRYPTO
   frames, and those spread over packets and datagrams, in any order and with any
   repetition: after the last datagram the reader answers the message's host name
   and ECH flag exactly when every byte of the message is in a stored fragment,
   and otherwise waits until its datagram or byte limit.
   */
  lemma NameIsRead(open: OpenFn, normalize: bytes -> bytes, dgrams: seq<seq<Packet>>,
                   h: ClientHello.HelloMsg, length: bytes, after: bytes, res: SniffResult, done: bool)
    requires Flow(open, Flatten(dgrams), map[])
    requires dgrams != [] && dgrams[|dgrams| - 1] != []
    requires ValidMessage(h, length)
    requires forall f :: f in FramesOf(Flatten(dgrams)) ==> Slice(f, ClientHello.EncodeHello(h, length) + after)
    requires AddResult(normalize, StoreAll(map[], FramesOf(Flatten(dgrams))), true, |dgrams|, res, done)
    ensures forall d, pk :: d in dgrams && pk in d ==> ValidPacket(pk)
    ensures AfterDatagrams(open, map[], map[], dgrams).frags == StoreAll(map[], FramesOf(Flatten(dgrams)))
    ensures AfterDatagrams(open, map[], map[], dgrams).found
    ensures var frags := StoreAll(map[], FramesOf(Flatten(dgrams)));
            if CoveredRange(frags, 0, |ClientHello.EncodeHello(h, length)|) then
              done && res == Found(normalize(ClientHello.LastHost(h.exts)), ClientHello.HasECH(h.exts))
            else
              && (done <==> |dgrams| >= 16 || StoredLength(frags) > 0x1_0000)
              && res == if done then Found([], false) else NoResult
  {
    var frags, sent := StoreAll(map[], FramesOf(Flatten(dgrams))), ClientHello.EncodeHello(h, length) + after;
    FlowAbsorbed(open, map[], map[], dgrams);
    StoreAllAgrees(map[], FramesOf(Flatten(dgrams)), sent);
    HelloDecides(normalize, frags, sent, |dgrams|, h, length, after, res, done);
  }
}
