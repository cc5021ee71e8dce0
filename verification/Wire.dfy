/** Bytes and the big-endian fields the wire formats share. */
module Wire {

  type byte = x: int | 0 <= x < 256
  type bytes = seq<byte>

  function U16(b: bytes): (r: int)
    requires |b| >= 2
    ensures 0 <= r < 0x1_0000
  {
    var hi: int := b[0];
    hi * 256 + b[1]
  }

  function PutU16(n: int): (r: bytes)
    requires 0 <= n < 0x1_0000
    ensures |r| == 2 && U16(r) == n
  {
    [n / 256, n % 256]
  }

  lemma U16Prefix(n: int, rest: bytes)
    requires 0 <= n < 0x1_0000
    ensures U16(PutU16(n) + rest) == n
    ensures (PutU16(n) + rest)[2..] == rest
  {
  }

  /** Taking a prefix of a concatenation. */
  lemma TakeConcat<T>(a: seq<T>, b: seq<T>, k: nat)
    requires k <= |a| + |b|
    ensures k <= |a| ==> (a + b)[..k] == a[..k]
    ensures k >= |a| ==> (a + b)[..k] == a + b[..k - |a|]
  {
  }

  function BigEndian(b: bytes): nat
  {
    if b == [] then 0 else BigEndian(b[..|b| - 1]) * 256 + b[|b| - 1]
  }

  function ToBigEndian(v: nat, n: nat): (r: bytes)
    ensures |r| == n
  {
    if n == 0 then [] else ToBigEndian(v / 256, n - 1) + [v % 256]
  }

  function Pow256(n: nat): (r: nat)
    ensures r >= 1
  {
    if n == 0 then 1 else 256 * Pow256(n - 1)
  }

  lemma {:induction false} BigEndianOf(v: nat, n: nat)
    requires v < Pow256(n)
    ensures BigEndian(ToBigEndian(v, n)) == v
  {
    if n > 0 {
      BigEndianOf(v / 256, n - 1);
      var t := ToBigEndian(v, n);
      assert t[..|t| - 1] == ToBigEndian(v / 256, n - 1);
    }
  }

  lemma {:induction false} ToBigEndianOf(b: bytes)
    ensures BigEndian(b) < Pow256(|b|)
    ensures ToBigEndian(BigEndian(b), |b|) == b
  {
    if b != [] {
      var i := b[..|b| - 1];
      ToBigEndianOf(i);
      var last: int := b[|b| - 1];
      assert BigEndian(b) / 256 == BigEndian(i) && BigEndian(b) % 256 == last;
      assert b == i + [b[|b| - 1]];
    }
  }
}
