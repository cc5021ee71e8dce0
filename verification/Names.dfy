/**
 Host-name text: Go's strings helpers over ASCII text, and the two ways the
 program normalises a name (rules trim space, the FakeIP pool does not).
 */
module Names {

  predicate IsSpace(c: char)
  {
    9 <= c as int <= 13 || c == ' '
  }

  function LowerChar(c: char): char
  {
    if 'A' <= c <= 'Z' then (c as int + 32) as char else c
  }

  function Lower(s: string): (r: string)
    ensures |r| == |s|
    ensures forall i :: 0 <= i < |s| ==> r[i] == LowerChar(s[i])
  {
    seq(|s|, i requires 0 <= i < |s| => LowerChar(s[i]))
  }

  function TrimLeft(s: string): string
  {
    if s != "" && IsSpace(s[0]) then TrimLeft(s[1..]) else s
  }

  function TrimRight(s: string): string
  {
    if s != "" && IsSpace(s[|s| - 1]) then TrimRight(s[..|s| - 1]) else s
  }

  function TrimSpace(s: string): string
  {
    TrimRight(TrimLeft(s))
  }

  /** What is cut is space, and what is left does not start with one. */
  lemma {:induction false} TrimLeftCuts(s: string)
    ensures var r := TrimLeft(s);
            && |r| <= |s| && r == s[|s| - |r|..]
            && (r != "" ==> !IsSpace(r[0]))
            && forall i :: 0 <= i < |s| - |r| ==> IsSpace(s[i])
  {
    if s != "" && IsSpace(s[0]) {
      TrimLeftCuts(s[1..]);
      var r := TrimLeft(s[1..]);
      assert TrimLeft(s) == r && s[1..][|s| - 1 - |r|..] == s[|s| - |r|..];
      forall i | 0 <= i < |s| - |r| ensures IsSpace(s[i]) {
        assert i > 0 ==> s[i] == s[1..][i - 1];
      }
    } else {
      assert s[0..] == s;
    }
  }

  lemma {:induction false} TrimRightCuts(s: string)
    ensures var r := TrimRight(s);
            && |r| <= |s| && r == s[..|r|]
            && (r != "" ==> !IsSpace(r[|r| - 1]))
            && forall i :: |r| <= i < |s| ==> IsSpace(s[i])
  {
    if s != "" && IsSpace(s[|s| - 1]) {
      TrimRightCuts(s[..|s| - 1]);
    }
  }

  lemma TrimSpaceCuts(s: string)
    ensures var r := TrimSpace(s); r != "" ==> !IsSpace(r[0]) && !IsSpace(r[|r| - 1])
  {
    TrimLeftCuts(s);
    TrimRightCuts(TrimLeft(s));
  }

  predicate HasSuffix(s: string, t: string)
  {
    |t| <= |s| && s[|s| - |t|..] == t
  }

  predicate HasPrefix(s: string, t: string)
  {
    |t| <= |s| && s[..|t|] == t
  }

  predicate ContainsText(s: string, k: string)
  {
    exists i | 0 <= i <= |s| :: HasPrefix(s[i..], k)
  }

  /** strings.TrimSuffix(s, "."): at most one dot goes. */
  function DropDot(s: string): (r: string)
    ensures |r| <= |s| <= |r| + 1 && r == s[..|r|]
  {
    if s != "" && s[|s| - 1] == '.' then s[..|s| - 1] else s
  }

  /** strings.TrimPrefix(s, "."). */
  function DropLeadingDot(s: string): string
  {
    if s != "" && s[0] == '.' then s[1..] else s
  }

  /** rule.NormalizeDomain. */
  function NormalizeDomain(d: string): string
  {
    DropDot(Lower(TrimSpace(d)))
  }

  /** The pool's and the resolver's normalisation: no trimming of space. */
  function NormalizeName(d: string): string
  {
    DropDot(Lower(d))
  }

  lemma TrimClean(s: string)
    requires s != "" ==> !IsSpace(s[0]) && !IsSpace(s[|s| - 1])
    ensures TrimSpace(s) == s
  {
  }

  /** A result is normalised again to itself exactly when it ends in neither a dot nor a space. */
  lemma NormalizedStaysIff(d: string)
    ensures NormalizeDomain(NormalizeDomain(d)) == NormalizeDomain(d)
            <==> var n := NormalizeDomain(d); n == "" || (n[|n| - 1] != '.' && !IsSpace(n[|n| - 1]))
  {
    var t := TrimSpace(d);
    var l := Lower(t);
    var n := DropDot(l);
    TrimSpaceCuts(d);
    if n != "" {
      assert n[0] == l[0] && l[0] == LowerChar(t[0]);
      assert !IsSpace(n[0]);
      assert Lower(n) == n by {
        forall i | 0 <= i < |n| ensures LowerChar(n[i]) == n[i] {
          assert n[i] == l[i] == LowerChar(t[i]);
        }
      }
      if !IsSpace(n[|n| - 1]) {
        TrimClean(n);
        assert NormalizeDomain(n) == DropDot(n);
      } else {
        assert TrimLeft(n) == n;
        TrimRightCuts(n[..|n| - 1]);
        assert |TrimRight(n)| < |n|;
        assert Lower(TrimSpace(n)) != n;
        assert |NormalizeDomain(n)| < |n|;
      }
    }
  }

  /**
   NormalizeDomain drops one dot only, and trims before it does: a second pass changes
   the name again exactly when the trimmed input ends in a dot behind another dot or
   behind space.
   */
  lemma NormalizeIdempotentIff(d: string)
    ensures NormalizeDomain(NormalizeDomain(d)) != NormalizeDomain(d)
            <==> var t := TrimSpace(d); |t| >= 2 && t[|t| - 1] == '.' && (t[|t| - 2] == '.' || IsSpace(t[|t| - 2]))
  {
    NormalizedStaysIff(d);
    TrimSpaceCuts(d);
    var t := TrimSpace(d);
    var n := NormalizeDomain(d);
    if n != "" {
      assert n[|n| - 1] == LowerChar(t[|n| - 1]);
    }
  }

  /** "a.." is such a name: normalising it a second time changes it again. */
  lemma NormalizeNotIdempotent()
    ensures NormalizeDomain("a..") == "a." && NormalizeDomain("a.") == "a"
  {
    TrimClean("a..");
    TrimClean("a.");
    assert Lower("a..") == "a..";
    assert Lower("a.") == "a.";
  }
}
