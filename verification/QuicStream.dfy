/**
 Rebuilding the CRYPTO stream from stored fragments (internal/sniff/quic.go,
 clientHello): unordered, overlapping, walked in any order.
 */
module QuicStream {
  import opened Wrappers
  import opened Wire
  import opened QuicFrames

  /** The fragment at off holds position i. */
  ghost predicate Reaches(frags: Frags, off: nat, i: nat)
  {
    off in frags && off <= i < off + |frags[off]|
  }

  /** Some stored fragment holds position i. */
  ghost predicate Covered(frags: Frags, i: nat)
  {
    exists off :: Reaches(frags, off, i)
  }

  /** Some fragment has x at position i. */
  ghost predicate Has(frags: Frags, i: nat, x: byte)
  {
    exists off :: Reaches(frags, off, i) && frags[off][i - off] == x
  }

  /** n is the smallest position no fragment covers. */
  ghost predicate IsGap(frags: Frags, n: nat)
  {
    !Covered(frags, n) && forall i: nat :: i < n ==> Covered(frags, i)
  }

  /** Every byte of the stream is some fragment's byte at that position. */
  ghost predicate FromFragments(frags: Frags, stream: bytes)
  {
    forall i :: 0 <= i < |stream| ==> Has(frags, i, stream[i])
  }

  /** The fragments are slices of one sent stream (section 2.2 of RFC 9000). */
  ghost predicate Agrees(frags: Frags, sent: bytes)
  {
    forall off :: off in frags ==> off + |frags[off]| <= |sent| && sent[off..off + |frags[off]|] == frags[off]
  }

  function U24(b: bytes): (r: int)
    requires |b| >= 3
    ensures 0 <= r < 0x100_0000
  {
    var x: int, y: int := b[0], b[1];
    x * 0x1_0000 + y * 256 + b[2]
  }

  /** A whole ClientHello message at the start of the stream. */
  function HelloIn(stream: bytes): Option<bytes>
  {
    if |stream| < 4 || stream[0] != 1 then None
    else if |stream| < 4 + U24(stream[1..]) then None
    else Some(stream[..4 + U24(stream[1..])])
  }

  /** The offsets whose fragments still reach past what is rebuilt. */
  ghost function Ahead(frags: Frags, n: nat): set<nat>
  {
    set off | off in frags && off + |frags[off]| > n
  }

  /** Appending what one fragment adds keeps every byte a fragment's byte. */
  lemma Extend(frags: Frags, stream: bytes, off: nat)
    requires off in frags && off <= |stream| < off + |frags[off]|
    requires FromFragments(frags, stream)
    ensures var s := stream + frags[off][|stream| - off..];
            && |s| == off + |frags[off]| && FromFragments(frags, s)
            && Ahead(frags, |s|) < Ahead(frags, |stream|)
  {
    var d := frags[off];
    var s := stream + d[|stream| - off..];
    forall i | 0 <= i < |s| ensures Has(frags, i, s[i]) {
      if i < |stream| {
        assert s[i] == stream[i];
      } else {
        assert Reaches(frags, off, i) && s[i] == d[i - off];
      }
    }
    assert off in Ahead(frags, |stream|) && off !in Ahead(frags, |s|);
  }

  /**
   The pass loop. Whatever order the map is walked in, the rebuilt stream ends
   at the smallest uncovered position, and the loop terminates.
   */
  method Rebuild(frags: Frags) returns (stream: bytes)
    ensures IsGap(frags, |stream|)
    ensures FromFragments(frags, stream)
  {
    stream := [];
    var progressed := true;
    while progressed
      invariant FromFragments(frags, stream)
      invariant !progressed ==> forall off :: off in frags ==> off > |stream| || off + |frags[off]| <= |stream|
      decreases Ahead(frags, |stream|), progressed
    {
      progressed := false;
      ghost var before := |stream|;
      var todo := frags.Keys;
      while todo != {}
        invariant todo <= frags.Keys
        invariant before <= |stream| && (progressed <==> before < |stream|)
        invariant FromFragments(frags, stream)
        invariant progressed ==> Ahead(frags, |stream|) < Ahead(frags, before)
        invariant !progressed ==>
            forall off :: off in frags && off !in todo ==> off > |stream| || off + |frags[off]| <= |stream|
        decreases todo
      {
        var off: nat :| off in todo;
        todo := todo - {off};
        var data := frags[off];
        if off <= |stream| && off + |data| > |stream| {
          Extend(frags, stream, off);
          stream := stream + data[|stream| - off..];
          progressed := true;
        }
      }
    }
    forall i: nat | i < |stream| ensures Covered(frags, i) {
      assert Has(frags, i, stream[i]);
    }
  }

  /** The stream the fragments rebuild: up to the first gap, of their bytes. */
  ghost predicate Rebuilt(frags: Frags, stream: bytes)
  {
    IsGap(frags, |stream|) && FromFragments(frags, stream)
  }

  method ClientHello(frags: Frags) returns (hello: Option<bytes>)
    ensures exists stream :: Rebuilt(frags, stream) && hello == HelloIn(stream)
  {
    var s := Rebuild(frags);
    assert Rebuilt(frags, s);
    if |s| < 4 || s[0] != 1 {
      return None;
    }
    var n := U24(s[1..]);
    if |s| < 4 + n {
      return None;
    }
    return Some(s[..4 + n]);
  }

  // ------------------------------------------------- when fragments agree

  lemma HasIsSent(frags: Frags, sent: bytes, i: nat, x: byte)
    requires Agrees(frags, sent) && Has(frags, i, x)
    ensures i < |sent| && sent[i] == x
  {
    var off: nat :| Reaches(frags, off, i) && frags[off][i - off] == x;
    assert sent[off..off + |frags[off]|][i - off] == sent[i];
  }

  /** The rebuilt stream is the sent stream up to the gap. */
  lemma StreamIsPrefix(frags: Frags, sent: bytes, stream: bytes)
    requires Agrees(frags, sent) && FromFragments(frags, stream)
    ensures |stream| <= |sent| && stream == sent[..|stream|]
  {
    forall i: nat | i < |stream| ensures i < |sent| && stream[i] == sent[i] {
      HasIsSent(frags, sent, i, stream[i]);
    }
    if stream != [] {
      HasIsSent(frags, sent, |stream| - 1, stream[|stream| - 1]);
    }
  }

  lemma GapUnique(frags: Frags, m: nat, n: nat)
    requires IsGap(frags, m) && IsGap(frags, n)
    ensures m == n
  {
    assert m < n ==> Covered(frags, m);
    assert n < m ==> Covered(frags, n);
  }

  /** In whatever order the fragments are walked, as much is rebuilt; and the same bytes, when the fragments agree. */
  lemma OrderDoesNotMatter(frags: Frags, s: bytes, t: bytes)
    requires Rebuilt(frags, s) && Rebuilt(frags, t)
    ensures |s| == |t|
    ensures (exists sent :: Agrees(frags, sent)) ==> s == t
  {
    GapUnique(frags, |s|, |t|);
    if sent :| Agrees(frags, sent) {
      StreamIsPrefix(frags, sent, s);
      StreamIsPrefix(frags, sent, t);
    }
  }

  /** A stream that starts with a whole ClientHello: type 1, then its own length. */
  ghost predicate StartsHello(sent: bytes)
  {
    |sent| >= 4 && sent[0] == 1 && 4 + U24(sent[1..]) <= |sent|
  }

  ghost function HelloLength(sent: bytes): nat
    requires StartsHello(sent)
  {
    4 + U24(sent[1..])
  }

  /**
   With agreeing fragments the ClientHello is found exactly when all of its
   bytes are covered, and it is then the sent one.
   */
  lemma HelloIff(frags: Frags, sent: bytes, stream: bytes)
    requires Agrees(frags, sent) && StartsHello(sent)
    requires IsGap(frags, |stream|) && FromFragments(frags, stream)
    ensures HelloIn(stream).Some? <==> forall i: nat :: i < HelloLength(sent) ==> Covered(frags, i)
    ensures HelloIn(stream).Some? ==> HelloIn(stream).value == sent[..HelloLength(sent)]
  {
    StreamIsPrefix(frags, sent, stream);
    var n := HelloLength(sent);
    if |stream| >= 4 {
      assert stream[1..][0] == sent[1..][0] && stream[1..][1] == sent[1..][1] && stream[1..][2] == sent[1..][2];
      assert stream[0] == sent[0];
    }
    if |stream| >= n {
      assert stream[..n] == sent[..n];
    } else {
      assert !Covered(frags, |stream|);
    }
  }

  /** Later fragments never change the answer. */
  lemma HelloIsStable(early: Frags, late: Frags, sent: bytes, s1: bytes, s2: bytes)
    requires Agrees(early, sent) && Agrees(late, sent) && StartsHello(sent)
    requires IsGap(early, |s1|) && FromFragments(early, s1) && IsGap(late, |s2|) && FromFragments(late, s2)
    requires forall i: nat :: Covered(early, i) ==> Covered(late, i)
    requires HelloIn(s1).Some?
    ensures HelloIn(s2) == HelloIn(s1)
  {
    HelloIff(early, sent, s1);
    HelloIff(late, sent, s2);
  }

  // ------------------------------------- what storing keeps and what it drops

  /** A CRYPTO frame that is a slice of the sent stream. */
  ghost predicate Slice(f: Frame, sent: bytes)
  {
    f.Crypto? ==> f.off.v + |f.data| <= |sent| && sent[f.off.v..f.off.v + |f.data|] == f.data
  }

  lemma {:induction false} StoreAllAgrees(frags: Frags, fs: seq<Frame>, sent: bytes)
    requires Agrees(frags, sent) && forall f :: f in fs ==> Slice(f, sent)
    ensures Agrees(StoreAll(frags, fs), sent)
    ensures forall i: nat :: Covered(frags, i) ==> Covered(StoreAll(frags, fs), i)
    decreases |fs|
  {
    if fs != [] {
      var g := StoreFrame(frags, fs[0]);
      assert fs[0] in fs;
      forall i: nat | Covered(frags, i) ensures Covered(g, i) {
        var off: nat :| Reaches(frags, off, i);
        assert Reaches(g, off, i);
      }
      StoreAllAgrees(g, fs[1..], sent);
    }
  }

  ghost predicate CoveredRange(frags: Frags, from: nat, to: nat)
  {
    forall i: nat :: from <= i < to ==> Covered(frags, i)
  }

  /**
   A frame's bytes are covered after storing it unless a shorter fragment at the
   same offset came first; then exactly the bytes past that fragment depend on others.
   */
  lemma StoreCoversIff(frags: Frags, off: nat, data: bytes)
    ensures CoveredRange(Store(frags, off, data), off, off + |data|)
            <==> (off in frags ==> CoveredRange(frags, off + |frags[off]|, off + |data|))
  {
    var g := Store(frags, off, data);
    if off !in frags || CoveredRange(frags, off + |frags[off]|, off + |data|) {
      forall i: nat | off <= i < off + |data| ensures Covered(g, i) {
        if i < off + |g[off]| {
          assert Reaches(g, off, i);
        }
      }
    }
  }

  /** So received bytes can stay missing: the second, longer fragment at offset 0 is dropped. */
  lemma LongerRepeatIsDropped(a: byte, b: byte)
    ensures var frags := Store(Store(map[], 0, [a]), 0, [a, b]);
            Covered(frags, 0) && !Covered(frags, 1)
  {
    var frags := Store(Store(map[], 0, [a]), 0, [a, b]);
    assert frags == map[0 := [a]];
    assert Reaches(frags, 0, 0);
  }
}
