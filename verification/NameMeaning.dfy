/**
 What the name helpers mean: suffixes by labels, keywords as slices, and the forms of a
 name that normalise alike.
 */
module NameMeaning {
  import opened Names

  // ---------------------------------------------------------------- labels

  /** The labels of a name: the text between its dots. */
  function Labels(n: string): (r: seq<string>)
    ensures r != []
  {
    if n == "" then [""]
    else
      var rest := Labels(n[1..]);
      if n[0] == '.' then [""] + rest else [[n[0]] + rest[0]] + rest[1..]
  }

  /** The name is the other one or below it: its last labels are the other's. */
  predicate Below(n: string, s: string)
  {
    exists i :: 0 <= i < |Labels(n)| && Labels(n)[i..] == Labels(s)
  }

  function Dotted(ls: seq<string>): string
    requires ls != []
  {
    if |ls| == 1 then ls[0] else ls[0] + "." + Dotted(ls[1..])
  }

  lemma {:induction false} DottedLabels(n: string)
    ensures Dotted(Labels(n)) == n
  {
    if n != "" {
      var ls, rest := Labels(n), Labels(n[1..]);
      DottedLabels(n[1..]);
      assert n == [n[0]] + n[1..];
      if n[0] == '.' {
        assert ls[1..] == rest;
      } else if |rest| > 1 {
        assert ls[1..] == rest[1..];
        assert [n[0]] + (rest[0] + "." + Dotted(rest[1..])) == [n[0]] + rest[0] + "." + Dotted(rest[1..]);
      }
    }
  }

  /** The labels of a name by those of the name behind its first character. */
  lemma LabelsFirst(c: char, n: string)
    ensures Labels(n) != []
    ensures Labels([c] + n) == if c == '.' then [""] + Labels(n) else [[c] + Labels(n)[0]] + Labels(n)[1..]
  {
    assert ([c] + n)[0] == c && ([c] + n)[1..] == n;
  }

  /** A dot separates labels. */
  lemma {:induction false} LabelsAround(x: string, s: string)
    ensures Labels(x + "." + s) == Labels(x) + Labels(s)
  {
    if x == "" {
      assert x + "." + s == ['.'] + s;
      LabelsFirst('.', s);
    } else {
      var y := x[1..];
      assert x == [x[0]] + y && x + "." + s == [x[0]] + (y + "." + s);
      LabelsAround(y, s);
      LabelsFirst(x[0], y);
      LabelsFirst(x[0], y + "." + s);
      FrontJoins(x[0], Labels(y), Labels(s));
    }
  }

  lemma FrontJoins(c: char, ls: seq<string>, ms: seq<string>)
    requires ls != []
    ensures [""] + (ls + ms) == [""] + ls + ms
    ensures [[c] + (ls + ms)[0]] + (ls + ms)[1..] == [[c] + ls[0]] + ls[1..] + ms
  {
  }

  lemma {:induction false} DottedTail(ls: seq<string>, i: nat)
    requires 0 < i < |ls|
    ensures HasSuffix(Dotted(ls), "." + Dotted(ls[i..]))
    decreases |ls|
  {
    var tail := "." + Dotted(ls[1..]);
    assert Dotted(ls) == ls[0] + tail by {
      assert ls[0] + "." + Dotted(ls[1..]) == ls[0] + ("." + Dotted(ls[1..]));
    }
    if i > 1 {
      DottedTail(ls[1..], i - 1);
      assert ls[1..][i - 1..] == ls[i..];
      SuffixOfSuffix(Dotted(ls[1..]), "." + Dotted(ls[i..]), ls[0] + ".");
      assert ls[0] + "." + Dotted(ls[1..]) == Dotted(ls);
    }
  }

  lemma SuffixOfSuffix(s: string, t: string, front: string)
    requires HasSuffix(s, t)
    ensures HasSuffix(front + s, t)
  {
    assert (front + s)[|front + s| - |t|..] == s[|s| - |t|..];
  }

  /** A suffix matches a name exactly when its labels are the name's last ones. */
  lemma SuffixIsBelow(s: string, n: string)
    ensures (n == s || HasSuffix(n, "." + s)) <==> Below(n, s)
  {
    if HasSuffix(n, "." + s) {
      var x := n[..|n| - |s| - 1];
      assert n == x + ("." + s) == x + "." + s;
      LabelsAround(x, s);
      assert Labels(n)[|Labels(x)|..] == Labels(s);
    } else if n == s {
      assert Labels(n)[0..] == Labels(s);
    }
    if i :| 0 <= i < |Labels(n)| && Labels(n)[i..] == Labels(s) {
      DottedLabels(n);
      DottedLabels(s);
      if i == 0 {
        assert Labels(n)[0..] == Labels(n);
      } else {
        DottedTail(Labels(n), i);
      }
    }
  }

  /** strings.Contains: the keyword is a slice of the name. */
  predicate Within(k: string, s: string)
  {
    exists i, j :: 0 <= i <= j <= |s| && s[i..j] == k
  }

  lemma ContainsIsWithin(s: string, k: string)
    ensures ContainsText(s, k) <==> Within(k, s)
  {
    if i :| 0 <= i <= |s| && HasPrefix(s[i..], k) {
      assert s[i..][..|k|] == s[i..i + |k|];
    }
    if i, j :| 0 <= i <= j <= |s| && s[i..j] == k {
      assert s[i..][..|k|] == s[i..j];
    }
  }

  // ------------------------------------------------------------- normal forms

  ghost predicate AllSpace(s: string)
  {
    forall c :: c in s ==> c in {' ', '\t', '\n', '\r', 11 as char, 12 as char}
  }

  /** No space at either end. */
  ghost predicate Tight(s: string)
  {
    s == "" || (!AllSpace(s[..1]) && !AllSpace(s[|s| - 1..]))
  }

  lemma {:induction false} TrimLeftIs(pre: string, core: string)
    requires AllSpace(pre) && (core == "" || !AllSpace(core[..1]))
    ensures TrimLeft(pre + core) == core
  {
    if pre == "" {
      assert pre + core == core;
      assert core != "" ==> core[..1] == [core[0]];
    } else {
      assert pre[0] in pre && (pre + core)[1..] == pre[1..] + core;
      assert forall c :: c in pre[1..] ==> c in pre;
      TrimLeftIs(pre[1..], core);
    }
  }

  lemma {:induction false} TrimRightIs(core: string, post: string)
    requires AllSpace(post) && (core == "" || !AllSpace(core[|core| - 1..]))
    ensures TrimRight(core + post) == core
  {
    if post == "" {
      assert core + post == core;
      assert core != "" ==> core[|core| - 1..] == [core[|core| - 1]];
    } else {
      var n := |post| - 1;
      assert post[n] in post && (core + post)[..|core| + n] == core + post[..n];
      assert forall c :: c in post[..n] ==> c in post;
      TrimRightIs(core, post[..n]);
    }
  }

  /** Space around a name does not count. */
  lemma TrimSpaceIs(pre: string, core: string, post: string)
    requires AllSpace(pre) && AllSpace(post) && Tight(core)
    ensures TrimSpace(pre + core + post) == core
  {
    if core == "" {
      assert pre + core + post == (pre + post) + "";
      TrimLeftIs(pre + post, "");
    } else {
      assert pre + core + post == pre + (core + post);
      assert (core + post)[..1] == core[..1];
      TrimLeftIs(pre, core + post);
      TrimRightIs(core, post);
    }
  }

  /** The same letter, in whatever case. */
  predicate SameLetter(c: char, d: char)
  {
    c == d || ('A' <= c <= 'Z' && d as int == c as int + 32) || ('A' <= d <= 'Z' && c as int == d as int + 32)
  }

  predicate SameButCase(a: string, b: string)
  {
    |a| == |b| && forall i :: 0 <= i < |a| ==> SameLetter(a[i], b[i])
  }

  lemma LowerIsFold(a: string, b: string)
    ensures SameButCase(a, b) <==> Lower(a) == Lower(b)
    ensures forall c :: c in Lower(a) ==> !('A' <= c <= 'Z')
    ensures SameButCase(a, Lower(a))
  {
    if Lower(a) == Lower(b) {
      forall i | 0 <= i < |a| ensures SameLetter(a[i], b[i]) {
        assert Lower(a)[i] == LowerChar(a[i]) && Lower(b)[i] == LowerChar(b[i]);
      }
    }
  }

  /** At most one dot goes from the end. */
  function WithoutDot(s: string): string { if s != "" && s[|s| - 1] == '.' then s[..|s| - 1] else s }

  /**
   NormalizeDomain forgets the space around a name, the case of its letters and one dot
   at its end, and nothing else.
   */
  lemma NormalizeMeaning(pre: string, core: string, post: string)
    requires AllSpace(pre) && AllSpace(post) && Tight(core)
    ensures SameButCase(NormalizeDomain(pre + core + post), WithoutDot(core))
    ensures forall c :: c in NormalizeDomain(pre + core + post) ==> !('A' <= c <= 'Z')
  {
    TrimSpaceIs(pre, core, post);
    LowerIsFold(core, core);
    assert Lower(core) != "" ==> (Lower(core)[|core| - 1] == '.' <==> core[|core| - 1] == '.');
  }

  /** So two names written in the same letters normalise alike, and only such. */
  lemma NormalizeAlike(a: string, b: string)
    requires Tight(a) && Tight(b)
    ensures NormalizeDomain(a) == NormalizeDomain(b) <==> SameButCase(WithoutDot(a), WithoutDot(b))
  {
    assert "" + a + "" == a && "" + b + "" == b;
    TrimSpaceIs("", a, "");
    TrimSpaceIs("", b, "");
    NormalizeIsLower(a);
    NormalizeIsLower(b);
    LowerIsFold(WithoutDot(a), WithoutDot(b));
  }

  lemma NormalizeIsLower(a: string)
    requires Tight(a)
    ensures NormalizeDomain(a) == Lower(WithoutDot(a))
  {
    assert "" + a + "" == a;
    TrimSpaceIs("", a, "");
    assert Lower(a) != "" ==> (Lower(a)[|a| - 1] == '.' <==> a[|a| - 1] == '.');
  }

  /** The pool and the DNS server forget case and one dot, and keep space. */
  lemma NormalizeNameAlike(a: string, b: string)
    ensures NormalizeName(a) == NormalizeName(b) <==> SameButCase(WithoutDot(a), WithoutDot(b))
    ensures SameButCase(NormalizeName(a), WithoutDot(a))
  {
    LowerDot(a);
    LowerDot(b);
    LowerIsFold(WithoutDot(a), WithoutDot(b));
    LowerIsFold(WithoutDot(a), WithoutDot(a));
  }

  lemma LowerDot(a: string)
    ensures NormalizeName(a) == Lower(WithoutDot(a))
  {
    assert Lower(a) != "" ==> (Lower(a)[|a| - 1] == '.' <==> a[|a| - 1] == '.');
  }

  lemma LowerBehindDot(a: string)
    ensures Lower("." + a) == "." + Lower(a)
    ensures a != "" && a[0] != '.' ==> Lower(a)[0] != '.'
  {
  }

  lemma DotBehindDot(a: string)
    requires a != ""
    ensures WithoutDot("." + a) == "." + WithoutDot(a)
  {
    assert ("." + a)[|a|] == a[|a| - 1];
    assert ("." + a)[..|a|] == "." + a[..|a| - 1];
  }

  lemma TightBehindDot(a: string)
    requires a != "" && Tight(a)
    ensures Tight("." + a)
  {
    var d := "." + a;
    assert d[..1] == "." && d[|d| - 1..] == a[|a| - 1..];
    assert '.' in d[..1];
  }

  /** A suffix written with a leading dot is the suffix without. */
  lemma LeadingDot(a: string)
    requires a != "" && a[0] != '.' && Tight(a)
    ensures DropLeadingDot(NormalizeDomain("." + a)) == DropLeadingDot(NormalizeDomain(a)) == NormalizeDomain(a)
  {
    TightBehindDot(a);
    NormalizeIsLower(a);
    NormalizeIsLower("." + a);
    DotBehindDot(a);
    LowerBehindDot(WithoutDot(a));
  }
}
