/** The address ranges the program names, as numbers. */
module Ranges {
  import opened Addr
  import opened Capture

  lemma Powers(k: nat)
    requires k == 16
    ensures Pow2(k) == 0x1_0000 && Pow2(k + 4) == 0x10_0000 && Pow2(k + 6) == 0x40_0000
    ensures Pow2(k + 8) == 0x100_0000 && Pow2(k + 12) == 0x1000_0000
  {
    Pow2Seventeen();
    assert Pow2(4) == 16 && Pow2(6) == 64 && Pow2(8) == 256 && Pow2(12) == 4096;
    Pow2Split(k, 4);
    Pow2Split(k, 6);
    Pow2Split(k, 8);
    Pow2Split(k, 12);
  }

  lemma Doubled(half: nat, q: nat)
    requires half == 64 && q == 16
    ensures Pow2(half) == 0x1_0000_0000_0000_0000
  {
    Powers(q);
    Square(q, 0x1_0000, q + q);
    Square(q + q, 0x1_0000_0000, half);
  }

  lemma LargePowers(half: nat, q: nat, r: nat)
    requires half == 64 && q == 16 && r == 112
    ensures Pow2(half + q) == 0x1_0000_0000_0000_0000_0000
    ensures Pow2(r) == 0x1_0000_0000_0000_0000_0000_0000_0000
    ensures Pow2(r + 6) == 0x40_0000_0000_0000_0000_0000_0000_0000
    ensures Pow2(r + 8) == 0x100_0000_0000_0000_0000_0000_0000_0000
    ensures Pow2(r + 9) == 0x200_0000_0000_0000_0000_0000_0000_0000
  {
    Doubled(half, q);
    Powers(q);
    Pow2Split(half, q);
    Pow2Split(half + q, q);
    Pow2Split(half + q + q, q);
    Pow2Split(r, 6);
    Pow2Split(r, 8);
    Pow2Split(r, 9);
    assert Pow2(6) == 64 && Pow2(8) == 256 && Pow2(9) == 512;
  }

  /** The IPv4 ranges capture leaves alone in scope all. */
  predicate LocalRange4(v: nat)
  {
    || v < 0x0100_0000                    // 0.0.0.0/8
    || 0x0a00_0000 <= v < 0x0b00_0000     // 10.0.0.0/8
    || 0x6440_0000 <= v < 0x6480_0000     // 100.64.0.0/10
    || 0x7f00_0000 <= v < 0x8000_0000     // 127.0.0.0/8
    || 0xa9fe_0000 <= v < 0xa9ff_0000     // 169.254.0.0/16
    || 0xac10_0000 <= v < 0xac20_0000     // 172.16.0.0/12
    || 0xc0a8_0000 <= v < 0xc0a9_0000     // 192.168.0.0/16
    || 0xe000_0000 <= v                   // 224.0.0.0/4 and 240.0.0.0/4
  }

  /** The IPv6 ones. */
  predicate LocalRange6(v: nat)
  {
    || v == 1                                                                                              // ::1
    || 0xfc00_0000_0000_0000_0000_0000_0000_0000 <= v < 0xfe00_0000_0000_0000_0000_0000_0000_0000          // fc00::/7
    || 0xfe80_0000_0000_0000_0000_0000_0000_0000 <= v < 0xfec0_0000_0000_0000_0000_0000_0000_0000          // fe80::/10
    || 0xff00_0000_0000_0000_0000_0000_0000_0000 <= v                                                      // ff00::/8
  }

  /** Which of the default excludes hold the address. */
  function Hits(a: Addr): (r: seq<bool>)
    ensures |r| == 14
  {
    seq(14, i requires 0 <= i < 14 => DEFAULT_EXCLUDE[i].Contains(a))
  }

  lemma Entry4(i: nat, a: Addr, lo: nat, host: nat, span: nat)
    requires i < 14 && DEFAULT_EXCLUDE[i].base.V4? && DEFAULT_EXCLUDE[i].base.a4 == lo
    requires DEFAULT_EXCLUDE[i].bits + host == 32 && 0 <= host <= 32 && span == Pow2(host) && lo % span == 0
    ensures Hits(a)[i] <==> a.V4? && lo <= a.Value() < lo + span
  {
    ContainsRange(DEFAULT_EXCLUDE[i], a, lo, span);
  }

  lemma Entry6(i: nat, a: Addr, lo: nat, host: nat, span: nat)
    requires i < 14 && DEFAULT_EXCLUDE[i].base.V6? && DEFAULT_EXCLUDE[i].base.a6 == lo
    requires DEFAULT_EXCLUDE[i].bits + host == 128 && 0 <= host <= 128 && span == Pow2(host) && lo % span == 0
    ensures Hits(a)[i] <==> a.V6? && lo <= a.Value() < lo + span
  {
    ContainsRange(DEFAULT_EXCLUDE[i], a, lo, span);
  }

  lemma OtherFamily(i: nat, a: Addr)
    requires i < 14 && !DEFAULT_EXCLUDE[i].base.SameFamily(a)
    ensures !Hits(a)[i]
  {
  }

  lemma AnyIndex(a: Addr)
    ensures InAny(DEFAULT_EXCLUDE, a) <==> exists i :: 0 <= i < 14 && Hits(a)[i]
  {
    if i :| 0 <= i < 14 && Hits(a)[i] {
      assert DEFAULT_EXCLUDE[i] in DEFAULT_EXCLUDE;
    }
    if p :| p in DEFAULT_EXCLUDE && p.Contains(a) {
      var i :| 0 <= i < |DEFAULT_EXCLUDE| && DEFAULT_EXCLUDE[i] == p;
      assert |DEFAULT_EXCLUDE| == 14;
      assert Hits(a)[i];
    }
  }

  ghost predicate Hit4(h: seq<bool>, v: nat)
    requires |h| == 14
  {
    && (h[0] <==> v < 0x0100_0000) && (h[1] <==> 0x0a00_0000 <= v < 0x0b00_0000) && (h[2] <==> 0x7f00_0000 <= v < 0x8000_0000)
    && (h[3] <==> 0xa9fe_0000 <= v < 0xa9ff_0000) && (h[4] <==> 0xac10_0000 <= v < 0xac20_0000)
    && (h[5] <==> 0xc0a8_0000 <= v < 0xc0a9_0000) && (h[6] <==> 0xe000_0000 <= v < 0xf000_0000)
    && (h[7] <==> 0xf000_0000 <= v < 0x1_0000_0000) && (h[8] <==> 0x6440_0000 <= v < 0x6480_0000)
    && !h[9] && !h[10] && !h[11] && !h[12] && !h[13]
  }

  lemma FirstHits(a: Addr, k: nat)
    requires a.V4? && k == 16
    ensures var h, v := Hits(a), a.Value();
            && (h[0] <==> v < 0x0100_0000) && (h[1] <==> 0x0a00_0000 <= v < 0x0b00_0000) && (h[2] <==> 0x7f00_0000 <= v < 0x8000_0000)
            && (h[3] <==> 0xa9fe_0000 <= v < 0xa9ff_0000) && (h[4] <==> 0xac10_0000 <= v < 0xac20_0000)
  {
    Powers(k);
    Entry4(0, a, 0, k + 8, 0x100_0000);
    Entry4(1, a, 0x0a00_0000, k + 8, 0x100_0000);
    Entry4(2, a, 0x7f00_0000, k + 8, 0x100_0000);
    Entry4(3, a, 0xa9fe_0000, k, 0x1_0000);
    Entry4(4, a, 0xac10_0000, k + 4, 0x10_0000);
  }

  lemma LaterHits(a: Addr, k: nat)
    requires a.V4? && k == 16
    ensures var h, v := Hits(a), a.Value();
            && (h[5] <==> 0xc0a8_0000 <= v < 0xc0a9_0000) && (h[6] <==> 0xe000_0000 <= v < 0xf000_0000)
            && (h[7] <==> 0xf000_0000 <= v < 0x1_0000_0000) && (h[8] <==> 0x6440_0000 <= v < 0x6480_0000)
  {
    Powers(k);
    Entry4(5, a, 0xc0a8_0000, k, 0x1_0000);
    Entry4(6, a, 0xe000_0000, k + 12, 0x1000_0000);
    Entry4(7, a, 0xf000_0000, k + 12, 0x1000_0000);
    Entry4(8, a, 0x6440_0000, k + 6, 0x40_0000);
  }

  lemma NoSix(a: Addr)
    requires a.V4?
    ensures var h := Hits(a); !h[9] && !h[10] && !h[11] && !h[12] && !h[13]
  {
    OtherFamily(9, a);
    OtherFamily(10, a);
    OtherFamily(11, a);
    OtherFamily(12, a);
    OtherFamily(13, a);
  }

  lemma HitsAre4(a: Addr)
    requires a.V4?
    ensures Hit4(Hits(a), a.Value())
  {
    FirstHits(a, 16);
    LaterHits(a, 16);
    NoSix(a);
  }

  lemma AnyOf4(h: seq<bool>, v: nat)
    requires |h| == 14 && v < 0x1_0000_0000 && Hit4(h, v)
    ensures LocalRange4(v) <==> exists i :: 0 <= i < 14 && h[i]
  {
    assert LocalRange4(v) <==> h[0] || h[1] || h[2] || h[3] || h[4] || h[5] || h[6] || h[7] || h[8];
  }

  ghost predicate Hit6(h: seq<bool>, v: nat)
    requires |h| == 14
  {
    && !h[0] && !h[1] && !h[2] && !h[3] && !h[4] && !h[5] && !h[6] && !h[7] && !h[8]
    && (h[9] <==> v == 1)
    && (h[10] <==> 0xfe80_0000_0000_0000_0000_0000_0000_0000 <= v < 0xfec0_0000_0000_0000_0000_0000_0000_0000)
    && (h[11] <==> 0xff00_0000_0000_0000_0000_0000_0000_0000 <= v)
    && (h[12] <==> 0xfc00_0000_0000_0000_0000_0000_0000_0000 <= v < 0xfe00_0000_0000_0000_0000_0000_0000_0000)
    && (h[13] ==> 0xfd00_0000_0000_0000_0000_0000_0000_0000 <= v < 0xfe00_0000_0000_0000_0000_0000_0000_0000)
  }

  lemma NoFour(a: Addr)
    requires a.V6?
    ensures var h := Hits(a); forall i :: 0 <= i < 9 ==> !h[i]
  {
    forall i | 0 <= i < 9 ensures !Hits(a)[i] {
      assert DEFAULT_EXCLUDE[i].base.V4?;
      OtherFamily(i, a);
    }
  }

  lemma SixHits(a: Addr, half: nat, q: nat, r: nat)
    requires a.V6? && half == 64 && q == 16 && r == 112
    ensures var h, v := Hits(a), a.Value();
            && (h[9] <==> v == 1)
            && (h[10] <==> 0xfe80_0000_0000_0000_0000_0000_0000_0000 <= v < 0xfec0_0000_0000_0000_0000_0000_0000_0000)
            && (h[11] <==> 0xff00_0000_0000_0000_0000_0000_0000_0000 <= v < 0x1_0000_0000_0000_0000_0000_0000_0000_0000)
            && (h[12] <==> 0xfc00_0000_0000_0000_0000_0000_0000_0000 <= v < 0xfe00_0000_0000_0000_0000_0000_0000_0000)
            && (h[13] <==> 0xfd7a_115c_a1e0_0000_0000_0000_0000_0000 <= v < 0xfd7a_115c_a1e1_0000_0000_0000_0000_0000)
  {
    LargePowers(half, q, r);
    assert Pow2(0) == 1;
    Entry6(9, a, 1, 0, 1);
    Entry6(10, a, 0xfe80_0000_0000_0000_0000_0000_0000_0000, r + 6, 0x40_0000_0000_0000_0000_0000_0000_0000);
    Entry6(11, a, 0xff00_0000_0000_0000_0000_0000_0000_0000, r + 8, 0x100_0000_0000_0000_0000_0000_0000_0000);
    Entry6(12, a, 0xfc00_0000_0000_0000_0000_0000_0000_0000, r + 9, 0x200_0000_0000_0000_0000_0000_0000_0000);
    Entry6(13, a, 0xfd7a_115c_a1e0_0000_0000_0000_0000_0000, half + q, 0x1_0000_0000_0000_0000_0000);
  }

  lemma HitsAre6(a: Addr)
    requires a.V6?
    ensures Hit6(Hits(a), a.Value())
  {
    SixHits(a, 64, 16, 112);
    NoFour(a);
  }

  lemma AnyOf6(h: seq<bool>, v: nat)
    requires |h| == 14 && Hit6(h, v)
    ensures LocalRange6(v) <==> exists i :: 0 <= i < 14 && h[i]
  {
    assert LocalRange6(v) <==> h[9] || h[10] || h[11] || h[12] || h[13];
  }

  /** The default excludes hold exactly the local, private, link-local, multicast, reserved and tailnet ranges. */
  lemma DefaultExcludeMeaning(a: Addr)
    ensures InAny(DEFAULT_EXCLUDE, a) <==> (a.V4? && LocalRange4(a.Value())) || (a.V6? && LocalRange6(a.Value()))
  {
    AnyIndex(a);
    if a.V4? {
      HitsAre4(a);
      AnyOf4(Hits(a), a.Value());
    } else if a.V6? {
      HitsAre6(a);
      AnyOf6(Hits(a), a.Value());
    }
  }

  /** 127.0.0.0/8 and ::1. */
  lemma LoopbackMeaning(a: Addr, k: nat)
    requires k == 16
    ensures IsLoopback(a) <==> Prefix(V4(0x7f00_0000), 8).Contains(a) || a == V6(1)
  {
    Powers(k);
    var p := Prefix(V4(0x7f00_0000), 24 - k);
    assert p.Span() == Pow2(k + 8);
    ContainsRange(p, a, 0x7f00_0000, 0x100_0000);
  }
}
