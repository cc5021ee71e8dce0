/**
 Collecting CRYPTO data from the frames of QUIC Initial packets (section 19 of
 RFC 9000; internal/sniff/quic.go).
 */
module QuicFrames {
  import opened Wrappers
  import opened Wire
  import opened QuicVarint

  const MAX_CRYPTO: nat := 0x1_0000

  /** CRYPTO data by stream offset. */
  type Frags = map<nat, bytes>

  // ------------------------------------------------- specification functions

  /** What is left after k varints, or None when b ends before. */
  function SkipVarints(b: bytes, k: nat): (r: Option<bytes>)
    ensures r.Some? ==> |r.value| <= |b|
    decreases k
  {
    if k == 0 then Some(b)
    else if Varint(b).n == 0 then None
    else SkipVarints(b[Varint(b).n..], k - 1)
  }

  const PAIR: nat := 2

  /** The fields of an ACK frame after its type. */
  function SkipAck(b: bytes, ecn: bool): (r: Option<bytes>)
    ensures r.Some? ==> |r.value| <= |b|
  {
    SkipPairs(b, PAIR, ecn)
  }

  /** Largest and delay; count and first; then two fields a range, and the ECN counts. */
  function SkipPairs(b: bytes, two: nat, ecn: bool): (r: Option<bytes>)
    ensures r.Some? ==> |r.value| <= |b|
  {
    match SkipVarints(b, two)
    case None => None
    case Some(c) =>
      match SkipVarints(c, two)
      case None => None
      case Some(d) => SkipVarints(d, two * Varint(c).v + if ecn then 3 else 0)
  }

  /** The first data stored at an offset stays. */
  function Store(frags: Frags, off: nat, data: bytes): Frags
  {
    if off in frags then frags else frags[off := data]
  }

  datatype Collected = Collected(frags: Frags, ok: bool)

  /** One frame: malformed, the end of what is read, or the rest with what was stored. */
  datatype Taken = Malformed | Stop | Next(rest: bytes, frags: Frags)

  function TakeCrypto(c: bytes, frags: Frags): (r: Taken)
    ensures r.Next? ==> |r.rest| <= |c|
  {
    var off := Varint(c);
    if off.n == 0 then Malformed
    else
      var d := c[off.n..];
      var l := Varint(d);
      if l.n == 0 || |d| - l.n < l.v then Malformed
      else if off.v + l.v > MAX_CRYPTO then Malformed
      else Next(d[l.n + l.v..], Store(frags, off.v, d[l.n..l.n + l.v]))
  }

  function TakeFrame(b: bytes, frags: Frags): (r: Taken)
    requires b != []
    ensures r.Next? ==> |r.rest| < |b|
  {
    var c := b[1..];
    if b[0] == 0 || b[0] == 1 then Next(c, frags)
    else if b[0] == 2 || b[0] == 3 then
      match SkipAck(c, b[0] == 3)
      case None => Malformed
      case Some(d) => Next(d, frags)
    else if b[0] == 6 then TakeCrypto(c, frags)
    else Stop
  }

  /** Frames up to the first unknown one; ok is false for a malformed frame. */
  function Collect(b: bytes, frags: Frags): Collected
    decreases |b|
  {
    if b == [] then Collected(frags, true)
    else
      match TakeFrame(b, frags)
      case Malformed => Collected(frags, false)
      case Stop => Collected(frags, true)
      case Next(rest, f) => Collect(rest, f)
  }

  // ------------------------------------------------------------ the encoding

  /** A varint field: its value and the width it is written with. */
  datatype Field = Field(v: nat, n: nat) {
    predicate Valid() { Fits(v, n) }
    function Bytes(): bytes requires Valid() { Encode(v, n) }
  }

  datatype Frame =
    | Padding
    | Ping
    | Ack(largest: Field, delay: Field, count: Field, first: Field, ranges: seq<Field>, ecn: seq<Field>)
    | Crypto(off: Field, length: Field, data: bytes)

  ghost predicate ValidFrame(f: Frame)
  {
    match f
    case Padding => true
    case Ping => true
    case Ack(a, d, c, r, ranges, ecn) =>
      && a.Valid() && d.Valid() && c.Valid() && r.Valid()
      && (forall x :: x in ranges ==> x.Valid()) && |ranges| == 2 * c.v
      && (forall x :: x in ecn ==> x.Valid()) && (|ecn| == 0 || |ecn| == 3)
    case Crypto(off, l, data) => off.Valid() && l.Valid() && l.v == |data| && off.v + |data| <= 0x1_0000
  }

  ghost function EncodeFields(fs: seq<Field>): bytes
    requires forall f :: f in fs ==> f.Valid()
  {
    if fs == [] then [] else fs[0].Bytes() + EncodeFields(fs[1..])
  }

  ghost function EncodeFrame(f: Frame): bytes
    requires ValidFrame(f)
  {
    match f
    case Padding => [0]
    case Ping => [1]
    case Ack(a, d, c, r, ranges, ecn) =>
      [if ecn == [] then 2 else 3] + (EncodeFields([a, d]) + (EncodeFields([c, r]) + EncodeFields(ranges + ecn)))
    case Crypto(off, l, data) => [6] + (off.Bytes() + (l.Bytes() + data))
  }

  ghost function EncodeFrames(fs: seq<Frame>): bytes
    requires forall f :: f in fs ==> ValidFrame(f)
  {
    if fs == [] then [] else EncodeFrame(fs[0]) + EncodeFrames(fs[1..])
  }

  ghost function StoreFrame(frags: Frags, f: Frame): Frags
  {
    if f.Crypto? then Store(frags, f.off.v, f.data) else frags
  }

  ghost function StoreAll(frags: Frags, fs: seq<Frame>): Frags
    decreases |fs|
  {
    if fs == [] then frags else StoreAll(StoreFrame(frags, fs[0]), fs[1..])
  }

  // ---------------------------------------------------------------- theorems

  lemma {:induction false} SkipFields(fs: seq<Field>, rest: bytes)
    requires forall f :: f in fs ==> f.Valid()
    ensures SkipVarints(EncodeFields(fs) + rest, |fs|) == Some(rest)
  {
    if fs == [] {
      assert EncodeFields(fs) + rest == rest;
    } else {
      var tail := EncodeFields(fs[1..]) + rest;
      assert EncodeFields(fs) + rest == fs[0].Bytes() + tail;
      VarintRoundTrip(fs[0].v, fs[0].n, tail);
      SkipFields(fs[1..], rest);
    }
  }

  lemma FirstField(fs: seq<Field>, rest: bytes)
    requires fs != [] && forall f :: f in fs ==> f.Valid()
    ensures Varint(EncodeFields(fs) + rest) == Decoded(fs[0].v, fs[0].n)
  {
    var tail := EncodeFields(fs[1..]) + rest;
    assert EncodeFields(fs) + rest == fs[0].Bytes() + tail;
    VarintRoundTrip(fs[0].v, fs[0].n, tail);
  }

  lemma SkipAckIs(b: bytes, c: bytes, d: bytes, rest: bytes, count: nat, two: nat, extra: nat, ecn: bool)
    requires extra == two * count + if ecn then 3 else 0
    requires SkipVarints(b, two) == Some(c) && Varint(c).v == count && SkipVarints(c, two) == Some(d)
    requires SkipVarints(d, extra) == Some(rest)
    ensures SkipPairs(b, two, ecn) == Some(rest)
  {
  }

  lemma AllThreeValid(first: seq<Field>, second: seq<Field>, third: seq<Field>)
    requires forall f :: f in first + second + third ==> f.Valid()
    ensures (forall f :: f in first ==> f.Valid()) && (forall f :: f in second ==> f.Valid()) && (forall f :: f in third ==> f.Valid())
  {
    forall f ensures (f in first ==> f.Valid()) && (f in second ==> f.Valid()) && (f in third ==> f.Valid()) {
      assert f in first + second + third <==> f in first || f in second || f in third;
    }
  }

  lemma AckSkipped(first: seq<Field>, second: seq<Field>, third: seq<Field>, ecn: bool, rest: bytes)
    requires (forall f :: f in first ==> f.Valid()) && (forall f :: f in second ==> f.Valid()) && (forall f :: f in third ==> f.Valid())
    requires |first| == |second| == 2 && |third| == 2 * second[0].v + if ecn then 3 else 0
    ensures SkipAck(EncodeFields(first) + (EncodeFields(second) + (EncodeFields(third) + rest)), ecn) == Some(rest)
  {
    var d := EncodeFields(third) + rest;
    var c := EncodeFields(second) + d;
    SkipFields(first, c);
    SkipFields(second, d);
    SkipFields(third, rest);
    FirstField(second, d);
    SkipAckIs(EncodeFields(first) + c, c, d, rest, second[0].v, |first|, |third|, ecn);
  }

  /** How TakeFrame reads the type byte of ACK and CRYPTO frames. */
  lemma TakeTyped(typ: byte, body: bytes, rest: bytes, frags: Frags)
    ensures (typ == 2 || typ == 3) && SkipAck(body + rest, typ == 3) == Some(rest)
            ==> TakeFrame([typ] + body + rest, frags) == Next(rest, frags)
    ensures typ == 6 ==> TakeFrame([typ] + body + rest, frags) == TakeCrypto(body + rest, frags)
  {
    var b: bytes := [typ] + body + rest;
    assert b[1..] == body + rest;
  }

  lemma Assoc3(x: bytes, y: bytes, z: bytes, rest: bytes)
    ensures (x + (y + z)) + rest == x + (y + (z + rest))
  {
  }

  lemma TakeAck(f: Frame, rest: bytes, frags: Frags)
    requires ValidFrame(f) && f.Ack?
    ensures TakeFrame(EncodeFrame(f) + rest, frags) == Next(rest, frags)
  {
    var first, second, third := [f.largest, f.delay], [f.count, f.first], f.ranges + f.ecn;
    AllThreeValid(first, second, third);
    AckSkipped(first, second, third, f.ecn != [], rest);
    var x, y, z := EncodeFields(first), EncodeFields(second), EncodeFields(third);
    Assoc3(x, y, z, rest);
    TakeTyped(if f.ecn == [] then 2 else 3, x + (y + z), rest, frags);
  }

  /** A varint followed by something, as the parser meets it. */
  lemma FieldRoundTrip(f: Field, rest: bytes)
    requires f.Valid()
    ensures Varint(f.Bytes() + rest) == Decoded(f.v, f.n) && f.n > 0
    ensures (f.Bytes() + rest)[f.n..] == rest
  {
    VarintRoundTrip(f.v, f.n, rest);
  }

  lemma TakeCryptoData(x: bytes, y: bytes, off: nat, data: bytes, rest: bytes, frags: Frags)
    requires Varint(x + (y + (data + rest))) == Decoded(off, |x|) && |x| > 0
    requires Varint(y + (data + rest)) == Decoded(|data|, |y|) && |y| > 0
    requires off + |data| <= MAX_CRYPTO
    ensures TakeCrypto(x + (y + (data + rest)), frags) == Next(rest, Store(frags, off, data))
  {
    var d := y + (data + rest);
    assert (x + d)[|x|..] == d;
    assert d[|y|..|y| + |data|] == data;
    assert d[|y| + |data|..] == rest;
  }

  lemma TakeCryptoFrame(f: Frame, rest: bytes, frags: Frags)
    requires ValidFrame(f) && f.Crypto?
    ensures TakeFrame(EncodeFrame(f) + rest, frags) == Next(rest, Store(frags, f.off.v, f.data))
  {
    var x, y := f.off.Bytes(), f.length.Bytes();
    FieldRoundTrip(f.off, y + (f.data + rest));
    FieldRoundTrip(f.length, f.data + rest);
    TakeCryptoData(x, y, f.off.v, f.data, rest, frags);
    Assoc3(x, y, f.data, rest);
    TakeTyped(6, x + (y + f.data), rest, frags);
  }

  /** One well-formed frame at the front is taken whole. */
  lemma TakeEncoded(f: Frame, rest: bytes, frags: Frags)
    requires ValidFrame(f)
    ensures TakeFrame(EncodeFrame(f) + rest, frags) == Next(rest, StoreFrame(frags, f))
  {
    match f {
      case Padding => assert ([0] + rest)[1..] == rest;
      case Ping => assert ([1] + rest)[1..] == rest;
      case Ack(_, _, _, _, _, _) => TakeAck(f, rest, frags);
      case Crypto(_, _, _) => TakeCryptoFrame(f, rest, frags);
    }
  }

  /** Whatever follows an encoded sequence of the four frame types, those are collected whole first. */
  lemma {:induction false} CollectMore(fs: seq<Frame>, rest: bytes, frags: Frags)
    requires forall f :: f in fs ==> ValidFrame(f)
    ensures Collect(EncodeFrames(fs) + rest, frags) == Collect(rest, StoreAll(frags, fs))
    decreases |fs|
  {
    if fs == [] {
      assert EncodeFrames(fs) + rest == rest;
    } else {
      var tail := EncodeFrames(fs[1..]) + rest;
      assert EncodeFrames(fs) + rest == EncodeFrame(fs[0]) + tail;
      TakeEncoded(fs[0], tail, frags);
      CollectMore(fs[1..], rest, StoreFrame(frags, fs[0]));
    }
  }

  /** Any encoded sequence of the four frame types is collected whole. */
  lemma CollectAll(fs: seq<Frame>, frags: Frags)
    requires forall f :: f in fs ==> ValidFrame(f)
    ensures Collect(EncodeFrames(fs), frags) == Collected(StoreAll(frags, fs), true)
  {
    CollectMore(fs, [], frags);
    assert EncodeFrames(fs) + [] == EncodeFrames(fs);
  }

  /** A frame of any other type ends the reading: what came before is kept and the packet is taken. */
  lemma OtherFrameStops(typ: byte, rest: bytes, frags: Frags)
    requires typ !in {0, 1, 2, 3, 6}
    ensures Collect([typ] + rest, frags) == Collected(frags, true)
  {
  }

  /** CRYPTO data that is cut short or reaches beyond 65536 bytes makes the packet malformed. */
  lemma BadCrypto(off: Field, l: Field, data: bytes, frags: Frags)
    requires off.Valid() && l.Valid() && (|data| < l.v || off.v + l.v > 0x1_0000)
    ensures Collect([6] + (off.Bytes() + (l.Bytes() + data)), frags) == Collected(frags, false)
  {
    var body := off.Bytes() + (l.Bytes() + data);
    FieldRoundTrip(off, l.Bytes() + data);
    FieldRoundTrip(l, data);
    assert ([6] + body)[1..] == body;
  }

  /** The first CRYPTO frame at an offset. */
  ghost function FirstAt(fs: seq<Frame>, off: nat): Option<bytes>
  {
    if fs == [] then None
    else if fs[0].Crypto? && fs[0].off.v == off then Some(fs[0].data)
    else FirstAt(fs[1..], off)
  }

  /** What is stored is exactly the first CRYPTO data per offset, behind what was there before. */
  lemma {:induction false} StoresFirst(frags: Frags, fs: seq<Frame>, off: nat)
    ensures off in StoreAll(frags, fs) <==> off in frags || FirstAt(fs, off).Some?
    ensures off in frags ==> StoreAll(frags, fs)[off] == frags[off]
    ensures off !in frags && FirstAt(fs, off).Some? ==> StoreAll(frags, fs)[off] == FirstAt(fs, off).value
    decreases |fs|
  {
    if fs != [] {
      StoresFirst(StoreFrame(frags, fs[0]), fs[1..], off);
    }
  }

  // ---------------------------------------------------------- total length

  /** The bytes held in all fragments together. */
  ghost function StoredLength(frags: Frags): nat
    decreases |frags|
  {
    if frags == map[] then 0
    else
      var k :| k in frags;
      |frags[k]| + StoredLength(frags - {k})
  }

  lemma {:induction false} StoredLengthWithout(frags: Frags, k: nat)
    requires k in frags
    ensures StoredLength(frags) == |frags[k]| + StoredLength(frags - {k})
    decreases |frags|
  {
    var j :| j in frags && StoredLength(frags) == |frags[j]| + StoredLength(frags - {j});
    if j != k {
      StoredLengthWithout(frags - {j}, k);
      StoredLengthWithout(frags - {k}, j);
      assert frags - {j} - {k} == frags - {k} - {j};
    }
  }

  lemma StoredLengthStore(frags: Frags, off: nat, data: bytes)
    ensures StoredLength(Store(frags, off, data)) == StoredLength(frags) + if off in frags then 0 else |data|
  {
    if off !in frags {
      var m := frags[off := data];
      StoredLengthWithout(m, off);
      assert m - {off} == frags;
    }
  }
}
