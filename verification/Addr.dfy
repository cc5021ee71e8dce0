/** Addresses and prefixes, after Go's net/netip (zones are not modelled). */
module Addr {

  type u16 = x: int | 0 <= x < 0x1_0000
  type u32 = x: int | 0 <= x < 0x1_0000_0000
  type u128 = x: int | 0 <= x < 0x1_0000_0000_0000_0000_0000_0000_0000_0000

  /** NoAddr is the zero Addr, which belongs to no family. */
  datatype Addr = NoAddr | V4(a4: u32) | V6(a6: u128) {

    predicate IsValid() { !NoAddr? }

    function Width(): nat { if V4? then 32 else if V6? then 128 else 0 }

    function Value(): nat { if V4? then a4 else if V6? then a6 else 0 }

    /** An IPv4-mapped IPv6 address (::ffff:a.b.c.d) becomes the IPv4 address. */
    function Unmap(): (r: Addr)
      ensures r.IsValid() == IsValid()
      ensures r.V6? ==> r == this && a6 / 0x1_0000_0000 != 0xffff
    {
      if V6? && a6 / 0x1_0000_0000 == 0xffff then V4(a6 % 0x1_0000_0000) else this
    }

    predicate SameFamily(other: Addr)
    {
      (V4? && other.V4?) || (V6? && other.V6?)
    }
  }

  /** Shorter addresses come first, then lower ones. */
  predicate Less(a: Addr, b: Addr)
  {
    a.Width() < b.Width() || (a.Width() == b.Width() && a.Value() < b.Value())
  }

  ghost predicate Rising(s: seq<Addr>) { forall i, j :: 0 <= i < j < |s| ==> Less(s[i], s[j]) }

  /** The place of an address in a rising list. */
  function Insert(s: seq<Addr>, a: Addr): seq<Addr>
  {
    if s == [] || Less(a, s[0]) then [a] + s else [s[0]] + Insert(s[1..], a)
  }

  lemma {:induction false} InsertRises(s: seq<Addr>, a: Addr)
    requires Rising(s) && a !in s
    ensures Rising(Insert(s, a)) && forall b :: b in Insert(s, a) <==> b in s || b == a
  {
    if s != [] && !Less(a, s[0]) {
      var rest := Insert(s[1..], a);
      InsertRises(s[1..], a);
      assert s == [s[0]] + s[1..];
      assert s[0] != a && Less(s[0], a);
      forall b | b in rest ensures Less(s[0], b) {
      }
      assert [s[0]] + rest == Insert(s, a);
    }
  }

  /** The addresses of a set in rising order. */
  method Sorted(addrs: set<Addr>) returns (out: seq<Addr>)
    ensures Rising(out) && forall a :: a in out <==> a in addrs
  {
    out := [];
    var todo := addrs;
    while todo != {}
      invariant todo <= addrs && Rising(out)
      invariant forall a :: a in out <==> a in addrs && a !in todo
      decreases todo
    {
      var a :| a in todo;
      InsertRises(out, a);
      out := Insert(out, a);
      todo := todo - {a};
    }
  }

  /** 127.0.0.0/8 or ::1. */
  predicate IsLoopback(a: Addr) { (a.V4? && a.a4 / 0x100_0000 == 127) || a == V6(1) }

  function Pow2(n: nat): (r: nat)
    ensures r >= 1
  {
    if n == 0 then 1 else 2 * Pow2(n - 1)
  }

  /** The zero Prefix and one whose length exceeds its address are invalid. */
  datatype Prefix = Prefix(base: Addr, bits: int) {

    predicate IsValid()
    {
      base.IsValid() && 0 <= bits <= base.Width()
    }

    /** The number of addresses in the prefix. */
    function Span(): (r: nat)
      ensures r >= 1
    {
      if IsValid() then Pow2(base.Width() - bits) else 1
    }

    predicate Contains(a: Addr)
    {
      IsValid() && base.SameFamily(a) && base.Value() / Span() == a.Value() / Span()
    }

    function Masked(): (r: Prefix)
      ensures r.IsValid() == IsValid()
      ensures IsValid() ==> r.bits == bits && r.base.SameFamily(base) && r.Span() == Span()
    {
      if !IsValid() then this
      else
        var v := base.Value();
        var m := v - v % Span();
        ModBelow(v, Span());
        if base.V4? then Prefix(V4(m), bits) else Prefix(V6(m), bits)
    }
  }

  predicate InAny(ps: seq<Prefix>, a: Addr)
  {
    exists p :: p in ps && p.Contains(a)
  }

  lemma MulMono(m: nat, a: int, b: int)
    requires a <= b
    ensures m * a <= m * b
  {
    assert m * b - m * a == m * (b - a);
  }

  /** Euclidean division is determined by its bounds. */
  lemma DivIs(x: int, m: nat, q: int)
    requires m >= 1
    requires m * q <= x < m * q + m
    ensures x / m == q && x % m == x - m * q
  {
    var d := x / m;
    assert x == m * d + x % m;
    assert m * (q + 1) == m * q + m;
    assert m * (d + 1) == m * d + m;
    if d > q {
      MulMono(m, q + 1, d);
    } else if d < q {
      MulMono(m, d + 1, q);
    }
  }

  lemma DivTwice(v: nat, s: nat, m: nat)
    requires s >= 1 && m >= 1
    ensures s * m >= 1 && (v / s) / m == v / (s * m)
  {
    var x := v / s;
    var q := x / m;
    MulMono(s, 1, m);
    MulMono(s, m * q, x);
    MulMono(s, x + 1, m * q + m);
    assert s * (m * q) == (s * m) * q && s * (m * q + m) == (s * m) * q + s * m;
    assert s * x <= v < s * (x + 1);
    DivIs(v, s * m, q);
  }

  lemma DivPositive(x: nat, m: nat)
    requires 1 <= m <= x
    ensures x / m >= 1
  {
    var q := x / m;
    assert x == m * q + x % m;
    MulMono(m, if q <= 0 then q else 0, 0);
  }

  /** The remainder of a sum of two numbers below the modulus, or at it. */
  lemma Wrap(x: nat, m: nat)
    requires m >= 1 && x <= m + m
    ensures x % m == if x < m then x else if x < m + m then x - m else 0
  {
    DivIs(x, m, if x < m then 0 else if x < m + m then 1 else 2);
  }

  lemma ModBelow(v: nat, m: nat)
    requires m >= 1
    ensures 0 <= v - v % m <= v
    ensures (v - v % m) / m == v / m
    ensures (v - v % m) % m == 0
  {
    var q := v / m;
    assert v - v % m == m * q;
    MulMono(m, 0, q);
    DivIs(v - v % m, m, q);
  }

  lemma Pow2Seventeen()
    ensures Pow2(17) == 0x2_0000
  {
    assert Pow2(4) == 16;
    assert Pow2(8) == 256;
    assert Pow2(12) == 4096;
    assert Pow2(16) == 0x1_0000;
  }

  lemma {:induction false} Pow2Split(a: nat, b: nat)
    ensures Pow2(a + b) == Pow2(a) * Pow2(b)
  {
    if b > 0 {
      Pow2Split(a, b - 1);
      assert Pow2(a + b) == 2 * Pow2(a + b - 1);
      assert Pow2(b) == 2 * Pow2(b - 1);
      assert 2 * (Pow2(a) * Pow2(b - 1)) == Pow2(a) * (2 * Pow2(b - 1));
    }
  }

  lemma Square(n: nat, v: nat, m: nat)
    requires Pow2(n) == v && m == n + n
    ensures Pow2(m) == v * v
  {
    Pow2Split(n, n);
  }

  lemma FamilyLimits(w4: nat, w6: nat)
    requires w4 == 32 && w6 == 128
    ensures Pow2(w4) == 0x1_0000_0000
    ensures Pow2(w6) == 0x1_0000_0000_0000_0000_0000_0000_0000_0000
  {
    Pow2Seventeen();
    var w: nat := w4 / 2;
    assert Pow2(w) == 0x1_0000;
    Square(w, 0x1_0000, w4);
    Square(w4, 0x1_0000_0000, 2 * w4);
    Square(2 * w4, 0x1_0000_0000_0000_0000, w6);
  }

  lemma {:induction false} Pow2Grows(m: nat, n: nat)
    requires m <= n
    ensures Pow2(m) <= Pow2(n)
  {
    if m < n {
      Pow2Grows(m, n - 1);
    }
  }

  lemma MaskedBoundary(p: Prefix)
    requires p.IsValid()
    ensures p.Masked().base.Value() % p.Masked().Span() == 0
  {
    ModBelow(p.base.Value(), p.Span());
  }

  /** Masking loses no address and gains none. */
  lemma MaskedContains(p: Prefix, a: Addr)
    ensures p.Masked().Contains(a) == p.Contains(a)
  {
    if p.IsValid() {
      ModBelow(p.base.Value(), p.Span());
    }
  }

  /** Bit i of an address, the first being its most significant. */
  function Bit(a: Addr, i: nat): int
    requires i < a.Width()
  {
    a.Value() / Pow2(a.Width() - 1 - i) % 2
  }

  lemma HalfAndBit(v: nat, h: nat)
    ensures v / Pow2(h) == 2 * (v / Pow2(h + 1)) + v / Pow2(h) % 2
  {
    DivTwice(v, Pow2(h), 2);
  }

  /** Numbers have the same high bits exactly when they have the same quotient. */
  lemma {:induction false} HighBits(v: nat, w: nat, h: nat, width: nat)
    requires h <= width && v < Pow2(width) && w < Pow2(width)
    ensures v / Pow2(h) == w / Pow2(h) <==> forall i :: h <= i < width ==> v / Pow2(i) % 2 == w / Pow2(i) % 2
    decreases width - h
  {
    if h == width {
      DivIs(v, Pow2(width), 0);
      DivIs(w, Pow2(width), 0);
    } else {
      HighBits(v, w, h + 1, width);
      HalfAndBit(v, h);
      HalfAndBit(w, h);
    }
  }

  lemma BelowWidth(a: Addr)
    requires a.IsValid()
    ensures a.Value() < Pow2(a.Width())
  {
    if a.V4? {
      FamilyLimits(a.Width(), 128);
    } else {
      FamilyLimits(32, a.Width());
    }
  }

  /** A prefix holds the addresses of its family whose first bits are the base's. */
  lemma ContainsMeaning(p: Prefix, a: Addr)
    requires p.IsValid() && p.base.SameFamily(a)
    ensures p.Contains(a) <==> forall i :: 0 <= i < p.bits ==> Bit(a, i) == Bit(p.base, i)
  {
    var w := a.Width();
    BelowWidth(a);
    BelowWidth(p.base);
    HighBits(p.base.Value(), a.Value(), w - p.bits, w);
    if forall i :: 0 <= i < p.bits ==> Bit(a, i) == Bit(p.base, i) {
      forall i | w - p.bits <= i < w ensures p.base.Value() / Pow2(i) % 2 == a.Value() / Pow2(i) % 2 {
        assert Bit(a, w - 1 - i) == Bit(p.base, w - 1 - i);
      }
    }
    if p.Contains(a) {
      forall i | 0 <= i < p.bits ensures Bit(a, i) == Bit(p.base, i) {
        var j := w - 1 - i;
        assert w - p.bits <= j < w && p.base.Value() / Pow2(j) % 2 == a.Value() / Pow2(j) % 2;
      }
    }
  }

  /** A prefix whose base is a multiple of its span holds the span from there. */
  lemma ContainsRange(p: Prefix, a: Addr, lo: nat, span: nat)
    requires p.IsValid() && p.base.Value() == lo && p.Span() == span && lo % span == 0
    ensures p.Contains(a) <==> p.base.SameFamily(a) && lo <= a.Value() < lo + span
  {
    var k := lo / span;
    assert lo == span * k;
    DivIs(lo, span, k);
    if lo <= a.Value() < lo + span {
      DivIs(a.Value(), span, k);
    }
    if a.Value() / span == k {
      assert a.Value() == span * k + a.Value() % span;
    }
  }
}
