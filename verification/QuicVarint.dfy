/** QUIC variable-length integers (section 16 of RFC 9000; internal/sniff/quic.go). */
module QuicVarint {
  import opened Wire

  lemma DivScaled(v: nat, d: nat, m: nat)
    ensures v < d * (256 * m) <==> v / 256 < d * m
  {
    assert d * (256 * m) == 256 * (d * m);
  }

  /** The first byte holds the most significant digits. */
  lemma {:induction false} FirstDigit(v: nat, n: nat, d: nat)
    requires n >= 1
    ensures v < d * Pow256(n - 1) && d <= 256 ==> ToBigEndian(v, n)[0] < d
    ensures ToBigEndian(v, n)[0] < d && v < Pow256(n) ==> v < d * Pow256(n - 1)
  {
    if n == 1 {
      assert ToBigEndian(v, 1) == [v % 256];
    } else {
      FirstDigit(v / 256, n - 1, d);
      assert ToBigEndian(v, n)[0] == ToBigEndian(v / 256, n - 1)[0];
      DivScaled(v, d, Pow256(n - 2));
    }
  }

  /** The four widths: 1, 2, 4 and 8 bytes, by the two top bits. */
  predicate Width(n: nat) { n == 1 || n == 2 || n == 4 || n == 8 }

  function Code(n: nat): nat
    requires Width(n)
  {
    if n == 1 then 0 else if n == 2 then 1 else if n == 4 then 2 else 3
  }

  function WidthOf(first: byte): (n: nat)
    ensures Width(n) && Code(n) == first / 64
  {
    if first < 64 then 1 else if first < 128 then 2 else if first < 192 then 4 else 8
  }

  /** n is 0 when b is too short. */
  datatype Decoded = Decoded(v: nat, n: nat)

  function Varint(b: bytes): (r: Decoded)
    ensures r.n <= |b|
    ensures r.n == 0 || Width(r.n)
  {
    if b == [] then Decoded(0, 0)
    else
      var n := WidthOf(b[0]);
      if |b| < n then Decoded(0, 0) else Decoded(BigEndian([b[0] % 64] + b[1..n]), n)
  }

  /** v fits a varint of n bytes. */
  predicate Fits(v: nat, n: nat)
  {
    Width(n) && v < 64 * Pow256(n - 1)
  }

  function Encode(v: nat, n: nat): (r: bytes)
    requires Fits(v, n)
    ensures |r| == n
  {
    FirstDigit(v, n, 64);
    var t := ToBigEndian(v, n);
    [t[0] + 64 * Code(n)] + t[1..]
  }

  lemma NextDigit(digits: bytes, i: nat)
    requires i < |digits|
    ensures BigEndian(digits[..i + 1]) == BigEndian(digits[..i]) * 256 + digits[i]
  {
    assert digits[..i + 1][..i] == digits[..i];
  }

  lemma DigitAt(b: bytes, n: nat, i: nat)
    requires 1 <= i < n <= |b|
    ensures ([b[0] % 64] + b[1..n])[i] == b[i]
  {
  }

  method DecodeVarint(b: bytes) returns (v: nat, n: nat)
    ensures Decoded(v, n) == Varint(b)
  {
    if |b| == 0 {
      return 0, 0;
    }
    n := WidthOf(b[0]);
    if |b| < n {
      return 0, 0;
    }
    v := b[0] % 64;
    ghost var digits := [b[0] % 64] + b[1..n];
    assert digits[..1] == [b[0] % 64];
    assert BigEndian([]) == 0;
    assert [b[0] % 64][..0] == [];
    for i := 1 to n
      invariant v == BigEndian(digits[..i])
    {
      NextDigit(digits, i);
      DigitAt(b, n, i);
      v := v * 256 + b[i];
    }
    assert digits[..n] == digits;
  }

  /** Every encoding of every value decodes to that value, whatever follows. */
  lemma VarintRoundTrip(v: nat, n: nat, rest: bytes)
    requires Fits(v, n)
    ensures Varint(Encode(v, n) + rest) == Decoded(v, n)
    ensures (Encode(v, n) + rest)[n..] == rest
  {
    FirstDigit(v, n, 64);
    var t := ToBigEndian(v, n);
    var b := Encode(v, n) + rest;
    assert t[0] < 64;
    assert b[0] / 64 == Code(n) && b[0] % 64 == t[0];
    assert [b[0] % 64] + b[1..n] == t;
    BelowPow(v, n);
    BigEndianOf(v, n);
  }

  lemma BelowPow(v: nat, n: nat)
    requires Fits(v, n)
    ensures v < Pow256(n)
  {
    assert Pow256(n) == 256 * Pow256(n - 1);
  }

  /** And what decodes is an encoding: decoding loses nothing. */
  lemma VarintIsEncoding(b: bytes)
    requires Varint(b).n != 0
    ensures Fits(Varint(b).v, Varint(b).n)
    ensures b[..Varint(b).n] == Encode(Varint(b).v, Varint(b).n)
  {
    var n, v := Varint(b).n, Varint(b).v;
    var digits := [b[0] % 64] + b[1..n];
    ToBigEndianOf(digits);
    FirstDigit(v, n, 64);
    FirstByte(b, n);
  }

  /** The first byte apart into the width's code and the first digit. */
  lemma FirstByte(b: bytes, n: nat)
    requires 1 <= n <= |b|
    ensures var digits := [b[0] % 64] + b[1..n]; b[..n] == [digits[0] + 64 * (b[0] / 64)] + digits[1..]
  {
    assert b[..n] == [b[0]] + b[1..n];
  }

  /** The values below 2 to the 62 are those that fit, and those that decoding ever gives. */
  lemma VarintRange(v: nat)
    ensures v < 0x4000_0000_0000_0000 <==> exists n :: Fits(v, n)
    ensures v < 0x4000_0000_0000_0000 <==> exists b :: Varint(b).n != 0 && Varint(b).v == v
  {
    PowersUpToSeven();
    if v < 0x4000_0000_0000_0000 {
      assert Fits(v, 8);
      VarintRoundTrip(v, 8, []);
    }
    if b :| Varint(b).n != 0 && Varint(b).v == v {
      VarintIsEncoding(b);
    }
  }

  lemma PowersUpToSeven()
    ensures Pow256(0) == 1 && Pow256(1) == 256 && Pow256(3) == 0x100_0000 && Pow256(7) == 0x100_0000_0000_0000
  {
    assert Pow256(1) == 256 && Pow256(2) == 0x1_0000 && Pow256(3) == 0x100_0000;
    assert Pow256(4) == 0x1_0000_0000 && Pow256(5) == 0x100_0000_0000;
    assert Pow256(6) == 0x1_0000_0000_0000 && Pow256(7) == 0x100_0000_0000_0000;
  }
}
