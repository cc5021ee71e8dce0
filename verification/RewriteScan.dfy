/**
 The lens laws of Rewrite with the parser inside: for any parser that tells from a
 line alone whether it starts a top-level key, as block-style files allow, the file
 a write returns is laid out as the laws need.
 */
module RewriteScan {
  import opened Wrappers
  import opened Rewrite

  /** The name of the top-level key a line starts, if it starts one. */
  type KeyAt = string -> Option<string>

  /** The top-level keys of lines that stand behind from others. */
  function ScanAt(keyAt: KeyAt, lines: seq<string>, from: nat): seq<Key>
    decreases |lines|
  {
    if lines == [] then []
    else
      var rest := ScanAt(keyAt, lines[1..], from + 1);
      if keyAt(lines[0]).Some? then [Key(keyAt(lines[0]).value, from + 1, 1)] + rest else rest
  }

  function Scan(keyAt: KeyAt, lines: seq<string>): seq<Key> { ScanAt(keyAt, lines, 0) }

  /** In rising lines behind line from and up to line to, at column 1. */
  ghost predicate Rising(ks: seq<Key>, from: nat, to: nat)
  {
    && (forall i :: 0 <= i < |ks| ==> from < ks[i].line <= to && ks[i].column == 1)
    && forall i, j :: 0 <= i < j < |ks| ==> ks[i].line < ks[j].line
  }

  lemma RisingPush(ks: seq<Key>, name: string, from: nat, to: nat)
    requires Rising(ks, from + 1, to) && from < to
    ensures Rising([Key(name, from + 1, 1)] + ks, from, to)
  {
  }

  lemma {:induction false} ScanRises(keyAt: KeyAt, lines: seq<string>, from: nat)
    ensures Rising(ScanAt(keyAt, lines, from), from, from + |lines|)
    decreases |lines|
  {
    if lines != [] {
      ScanRises(keyAt, lines[1..], from + 1);
      if keyAt(lines[0]).Some? {
        RisingPush(ScanAt(keyAt, lines[1..], from + 1), keyAt(lines[0]).value, from, from + |lines|);
      }
    }
  }

  lemma {:induction false} ScanConcat(keyAt: KeyAt, a: seq<string>, b: seq<string>, from: nat)
    ensures ScanAt(keyAt, a + b, from) == ScanAt(keyAt, a, from) + ScanAt(keyAt, b, from + |a|)
    decreases |a|
  {
    if a == [] {
      assert a + b == b;
    } else {
      assert (a + b)[1..] == a[1..] + b && (a + b)[0] == a[0];
      ScanConcat(keyAt, a[1..], b, from + 1);
    }
  }

  /** The same lines further down have the same keys further down. */
  ghost predicate SameBut(a: seq<Key>, b: seq<Key>, d: int)
  {
    |a| == |b| && forall i :: 0 <= i < |a| ==> b[i].name == a[i].name && b[i].line == a[i].line + d && b[i].column == a[i].column
  }

  lemma {:induction false} ScanMoves(keyAt: KeyAt, lines: seq<string>, from: nat, to: nat)
    ensures SameBut(ScanAt(keyAt, lines, from), ScanAt(keyAt, lines, to), to - from)
    decreases |lines|
  {
    if lines != [] {
      ScanMoves(keyAt, lines[1..], from + 1, to + 1);
    }
  }

  lemma ScanBounds(keyAt: KeyAt, lines: seq<string>, from: nat)
    ensures forall i :: 0 <= i < |ScanAt(keyAt, lines, from)| ==> from < ScanAt(keyAt, lines, from)[i].line <= from + |lines|
  {
    ScanRises(keyAt, lines, from);
  }

  /** Where the keys lie around a cut behind n of them. */
  lemma CutBounds(ks: seq<Key>, lines: nat, n: nat, line: nat)
    requires Rising(ks, 0, lines) && n <= |ks|
    requires (n > 0 ==> ks[n - 1].line <= line) && (n < |ks| ==> ks[n].line > line)
    ensures forall i :: 0 <= i < n ==> ks[i].line <= line
    ensures forall i :: n <= i < |ks| ==> ks[i].line > line
  {
    if n > 0 {
      var last := n - 1;
      assert forall i :: 0 <= i < last ==> ks[i].line < ks[last].line;
    }
    if n < |ks| {
      assert forall i :: n < i < |ks| ==> ks[n].line < ks[i].line;
    }
  }

  /** A list cut where x ends is cut where its lines pass the border. */
  lemma CutAt(keys: seq<Key>, x: seq<Key>, y: seq<Key>, k: nat, line: nat)
    requires keys == x + y && k <= |keys|
    requires forall i :: 0 <= i < |x| ==> x[i].line <= line
    requires forall i :: 0 <= i < |y| ==> y[i].line > line
    requires forall i :: 0 <= i < k ==> keys[i].line <= line
    requires forall i :: k <= i < |keys| ==> keys[i].line > line
    ensures |x| == k && x == keys[..k] && y == keys[k..]
  {
    assert x != [] ==> keys[|x| - 1] == x[|x| - 1];
    assert y != [] ==> keys[|x|] == y[0];
  }

  /** A cut of the file at a line cuts the keys at the first behind it. */
  lemma ScanCut(keyAt: KeyAt, lines: seq<string>, keys: seq<Key>, k: nat, line: nat)
    requires keys == Scan(keyAt, lines) && k <= |keys| && line <= |lines|
    requires (k > 0 ==> keys[k - 1].line <= line) && (k < |keys| ==> keys[k].line > line)
    ensures ScanAt(keyAt, lines[..line], 0) == keys[..k] && ScanAt(keyAt, lines[line..], line) == keys[k..]
  {
    ScanRises(keyAt, lines, 0);
    CutBounds(keys, |lines|, k, line);
    assert lines == lines[..line] + lines[line..];
    ScanTwo(keyAt, lines[..line], lines[line..], keys, k);
  }

  lemma ScanTwo(keyAt: KeyAt, a: seq<string>, b: seq<string>, keys: seq<Key>, k: nat)
    requires keys == Scan(keyAt, a + b) && k <= |keys|
    requires forall i :: 0 <= i < k ==> keys[i].line <= |a|
    requires forall i :: k <= i < |keys| ==> keys[i].line > |a|
    ensures ScanAt(keyAt, a, 0) == keys[..k] && ScanAt(keyAt, b, |a|) == keys[k..]
  {
    ScanConcat(keyAt, a, b, 0);
    ScanBounds(keyAt, a, 0);
    ScanBounds(keyAt, b, |a|);
    CutAt(keys, ScanAt(keyAt, a, 0), ScanAt(keyAt, b, |a|), k, |a|);
  }

  /** A section starts at its key's line and ends before the next. */
  lemma EndFits(lines: seq<string>, keys: seq<Key>, k: nat)
    requires k < |keys| && Rising(keys, 0, |lines|) && WellPlaced(keys, |lines|)
    ensures var e := End(keys, lines, k) + 1; keys[k].line <= e <= |lines| && (k + 1 < |keys| ==> e < keys[k + 1].line)
    ensures k > 0 ==> keys[k - 1].line < keys[k].line
  {
    if k + 1 < |keys| {
      var j := k + 1;
      assert keys[k].line < keys[j].line;
    }
    assert Start(keys, k) <= Reach(keys, lines, k);
  }

  lemma TailScan(keyAt: KeyAt, lines: seq<string>, e: nat, from: nat)
    requires e <= |lines| && keyAt("") == None
    ensures ScanAt(keyAt, TailLines(lines, e), from) == ScanAt(keyAt, lines[e..], from)
  {
    if e == |lines| {
      assert [""][1..] == [];
      assert ScanAt(keyAt, [""], from) == ScanAt(keyAt, [""][1..], from + 1);
    }
  }

  /** The lines of the new file have the keys of its three parts. */
  lemma NewScan(keyAt: KeyAt, head: seq<string>, ls: seq<string>, behind: seq<string>, s: nat, f: nat)
    requires |head| == s && s + |ls| == f
    ensures Scan(keyAt, head + ls + behind) == ScanAt(keyAt, head, 0) + ScanAt(keyAt, ls, s) + ScanAt(keyAt, behind, f)
  {
    ScanConcat(keyAt, head + ls, behind, 0);
    ScanConcat(keyAt, head, ls, 0);
  }

  /** The keys before k, key k again, and the others d lines down: that is Shifted. */
  lemma ShiftedParts(keys: seq<Key>, k: nat, d: int, one: seq<Key>, moved: seq<Key>)
    requires k < |keys| && one == [keys[k]] && SameBut(keys[k + 1..], moved, d)
    requires forall i :: k < i < |keys| ==> keys[i].line + d >= 0
    ensures keys[..k] + one + moved == Shifted(keys, k, d)
  {
    var a, b := keys[..k] + one + moved, Shifted(keys, k, d);
    forall i | 0 <= i < |keys| ensures a[i] == b[i] {
      if i > k {
        assert a[i] == moved[i - k - 1] && keys[k + 1..][i - k - 1] == keys[i];
      }
    }
  }

  lemma ShiftIs(lines: seq<string>, keys: seq<Key>, k: nat, ls: seq<string>, s: nat, e: nat)
    requires k < |keys| && WellPlaced(keys, |lines|) && ls != []
    requires s == Start(keys, k) && e == End(keys, lines, k) + 1
    ensures NewLines(lines, keys, k, ls) == lines[..s] + ls + TailLines(lines, e)
    ensures forall i :: k < i < |keys| ==> keys[i].line + (|ls| - (e - s)) >= 0
    ensures Moved(lines, keys, k, ls) == Shifted(keys, k, |ls| - (e - s))
  {
    ShiftFits(lines, keys, k, ls);
  }

  /** The one key of the block, where the block now stands. */
  lemma OneKey(keyAt: KeyAt, ls: seq<string>, s: nat, key: Key)
    requires Scan(keyAt, ls) == [Key(key.name, 1, 1)] && key.line == s + 1 && key.column == 1
    ensures ScanAt(keyAt, ls, s) == [key]
  {
    ScanMoves(keyAt, ls, 0, s);
    var a, b := ScanAt(keyAt, ls, 0), ScanAt(keyAt, ls, s);
    assert a[0] == Key(key.name, 1, 1) && b[0] == key;
  }

  /** What the scan says of the new file is what the lens laws ask for. */
  lemma ScanMoved(keyAt: KeyAt, lines: seq<string>, keys: seq<Key>, k: nat, ls: seq<string>)
    requires keys == Scan(keyAt, lines) && k < |keys| && WellPlaced(keys, |lines|)
    requires ls != [] && Scan(keyAt, ls) == [Key(keys[k].name, 1, 1)] && keyAt("") == None
    ensures Scan(keyAt, NewLines(lines, keys, k, ls)) == Moved(lines, keys, k, ls)
  {
    var s, e := Start(keys, k), End(keys, lines, k) + 1;
    KeysSplit(keyAt, lines, keys, k, s, e);
    ShiftIs(lines, keys, k, ls, s, e);
    NewKeys(keyAt, lines, keys, k, ls, s, e, |ls| - (e - s), s + |ls|);
  }

  /** Head and tail of the file hold the keys before and behind key k. */
  lemma KeysSplit(keyAt: KeyAt, lines: seq<string>, keys: seq<Key>, k: nat, s: nat, e: nat)
    requires keys == Scan(keyAt, lines) && k < |keys| && WellPlaced(keys, |lines|)
    requires s == Start(keys, k) && e == End(keys, lines, k) + 1
    ensures s < e && keys[k].column == 1
    ensures ScanAt(keyAt, lines[..s], 0) == keys[..k] && ScanAt(keyAt, lines[e..], e) == keys[k + 1..]
  {
    ScanRises(keyAt, lines, 0);
    EndFits(lines, keys, k);
    ScanCut(keyAt, lines, keys, k, s);
    ScanCut(keyAt, lines, keys, k + 1, e);
  }

  lemma NewKeys(keyAt: KeyAt, lines: seq<string>, keys: seq<Key>, k: nat, ls: seq<string>, s: nat, e: nat, d: int, f: nat)
    requires k < |keys| && keys[k].line == s + 1 && keys[k].column == 1 && s < e <= |lines|
    requires ScanAt(keyAt, lines[..s], 0) == keys[..k] && ScanAt(keyAt, lines[e..], e) == keys[k + 1..]
    requires Scan(keyAt, ls) == [Key(keys[k].name, 1, 1)] && keyAt("") == None
    requires f == s + |ls| && d == f - e && forall i :: k < i < |keys| ==> keys[i].line + d >= 0
    ensures Scan(keyAt, lines[..s] + ls + TailLines(lines, e)) == Shifted(keys, k, d)
  {
    NewScan(keyAt, lines[..s], ls, TailLines(lines, e), s, f);
    OneKey(keyAt, ls, s, keys[k]);
    TailScan(keyAt, lines, e, f);
    ScanMoves(keyAt, lines[e..], e, f);
    ShiftedParts(keys, k, d, ScanAt(keyAt, ls, s), ScanAt(keyAt, lines[e..], f));
  }

  // --------------------------------------------------------------- the laws again

  /** A block that holds the key and no other. */
  predicate BlockFor(keyAt: KeyAt, name: string, block: string)
  {
    Block(block) && Scan(keyAt, BlockLines(block)) == [Key(name, 1, 1)]
  }

  lemma PlacedByScan(keyAt: KeyAt, lines: seq<string>)
    ensures WellPlaced(Scan(keyAt, lines), |lines|)
  {
    ScanRises(keyAt, lines, 0);
  }

  /** What the parser says of a text. */
  function Parse(keyAt: KeyAt, data: string): Doc { Mapping(Scan(keyAt, Split(data))) }

  /**
   Writing a section twice is writing it once, and the section then reads as the last
   block, with the parser asked anew each time.
   */
  lemma WriteTwice(keyAt: KeyAt, data: string, name: string, k: nat, b1: string, b2: string)
    requires keyAt("") == None && BlockFor(keyAt, name, b1) && BlockFor(keyAt, name, b2)
    requires IndexOf(Scan(keyAt, Split(data)), name, k)
    ensures Placed(Parse(keyAt, data), data)
    ensures var once := Replaced(data, Parse(keyAt, data), name, b1);
            && once.Ok? && Placed(Parse(keyAt, once.value), once.value)
            && Replaced(once.value, Parse(keyAt, once.value), name, b2) == Replaced(data, Parse(keyAt, data), name, b2)
            && IndexOf(Scan(keyAt, Split(once.value)), name, k)
            && Section(once.value, Scan(keyAt, Split(once.value)), k) == b1
  {
    var doc, lines, keys := Parse(keyAt, data), Split(data), Scan(keyAt, Split(data));
    PlacedByScan(keyAt, lines);
    ScanRises(keyAt, lines, 0);
    assert InPlace(data, doc, name, k);
    SplitIsLines(data);
    InPlaceIs(data, doc, name, k, b1);
    NewFile(lines, keys, k, b1);
    ScanMoved(keyAt, lines, keys, k, BlockLines(b1));
    PutGet(data, doc, name, k, b1);
    PutPut(data, doc, name, k, b1, b2);
  }

  // ------------------------------------------------------------ the appended case

  /** A line starts the same key with or without its newline. */
  ghost predicate NewlineBlind(keyAt: KeyAt)
  {
    forall l: string :: keyAt(l + "\n") == keyAt(l)
  }

  lemma ScanOne(keyAt: KeyAt, l: string, from: nat)
    ensures ScanAt(keyAt, [l], from) == if keyAt(l).Some? then [Key(keyAt(l).value, from + 1, 1)] else []
  {
    assert [l][1..] == [];
  }

  /** An empty last line holds no key. */
  lemma ScanComplete(keyAt: KeyAt, body: seq<string>)
    requires keyAt("") == None
    ensures Scan(keyAt, body + [""]) == Scan(keyAt, body)
  {
    ScanConcat(keyAt, body, [""], 0);
    ScanOne(keyAt, "", |body|);
  }

  /** Last lines that start the same key are the same to the scan. */
  lemma ScanLast(keyAt: KeyAt, head: seq<string>, l: string, m: string)
    requires keyAt(l) == keyAt(m)
    ensures Scan(keyAt, head + [l]) == Scan(keyAt, head + [m])
  {
    ScanConcat(keyAt, head, [l], 0);
    ScanConcat(keyAt, head, [m], 0);
    ScanOne(keyAt, l, |head|);
    ScanOne(keyAt, m, |head|);
  }

  lemma LastDropped<T>(a: seq<T>, b: seq<T>, x: T)
    requires a + [x] == b + [x]
    ensures a == b
  {
    assert |a + [x]| == |b + [x]|;
    assert a == (a + [x])[..|a|] && b == (b + [x])[..|b|];
  }

  /** A missing last newline makes the last line a whole one. */
  lemma NewlineAdded(data: string) returns (head: seq<string>, l: string)
    requires data != "" && data[|data| - 1] != '\n'
    ensures Split(data) == head + [l] && Split(data + "\n") == head + [l + "\n"] + [""]
  {
    var lines := Split(data);
    SplitIsLines(data);
    JoinSplit(data);
    head, l := lines[..|lines| - 1], lines[|lines| - 1];
    assert lines == head + [l];
    JoinConcat(head, [l]);
    SplitOneLine(l);
    assert data == Join(head) + l;
    assert (l + "\n")[..|l|] == l;
    assert Proper(l + "\n");
    Assoc(Join(head), l, "\n");
    SplitAfterLines(head, l + "\n");
    SplitOneLine("");
    SplitCons(l + "\n", "");
    assert l + "\n" + "" == l + "\n";
    Assoc(head, [l + "\n"], [""]);
  }

  /** The missing last newline changes no key. */
  lemma ScanWithNewline(keyAt: KeyAt, data: string, body: seq<string>)
    requires keyAt("") == None && NewlineBlind(keyAt)
    requires Split(WithTrailingNewline(data)) == body + [""]
    ensures Scan(keyAt, body) == Scan(keyAt, Split(data))
  {
    ScanComplete(keyAt, body);
    if WithTrailingNewline(data) != data {
      var head, l := NewlineAdded(data);
      LastDropped(body, head + [l + "\n"], "");
      ScanLast(keyAt, head, l, l + "\n");
    }
  }

  /** A block behind complete lines adds its one key. */
  lemma ScanBehind(keyAt: KeyAt, body: seq<string>, ls: seq<string>, name: string)
    requires keyAt("") == None && Scan(keyAt, ls) == [Key(name, 1, 1)]
    ensures Scan(keyAt, body + (ls + [""])) == Scan(keyAt, body) + [Key(name, |body| + 1, 1)]
  {
    Assoc(body, ls, [""]);
    ScanComplete(keyAt, body + ls);
    ScanConcat(keyAt, body, ls, 0);
    OneKey(keyAt, ls, |body|, Key(name, |body| + 1, 1));
  }

  /** The last line of a text that is empty or ends in a newline is empty. */
  lemma WholeLines(w: string) returns (body: seq<string>)
    requires w == "" || w[|w| - 1] == '\n'
    ensures Split(w) == body + [""] && Join(body) == w && forall i :: 0 <= i < |body| ==> Proper(body[i])
  {
    CompleteFile(w);
    body := Split(w)[..|Split(w)| - 1];
  }

  /** The lines of the longer file. */
  lemma AppendedSplit(data: string, block: string) returns (body: seq<string>)
    requires Block(block)
    ensures Split(WithTrailingNewline(data)) == body + [""]
    ensures Split(WithTrailingNewline(data) + block) == body + (BlockLines(block) + [""])
  {
    body := WholeLines(WithTrailingNewline(data));
    AppendedLines(WithTrailingNewline(data), body, block);
    BlockSplit(block);
  }

  lemma PlacedBefore(keys: seq<Key>, name: string, lines: nat)
    requires WellPlaced(keys, lines)
    ensures WellPlaced(keys + [Key(name, lines + 1, 1)], lines + 1)
  {
  }

  /** What the scan says of the longer file: the keys there were, and the new one behind them. */
  lemma ScanAppended(keyAt: KeyAt, data: string, name: string, b1: string)
    requires keyAt("") == None && NewlineBlind(keyAt) && BlockFor(keyAt, name, b1)
    requires Appends(Parse(keyAt, data), name)
    ensures Scan(keyAt, Split(WithTrailingNewline(data) + b1)) == WithKey(data, Parse(keyAt, data), name)
    ensures WellPlaced(WithKey(data, Parse(keyAt, data), name), |Split(WithTrailingNewline(data))|)
  {
    var body := AppendedSplit(data, b1);
    ScanWithNewline(keyAt, data, body);
    ScanBehind(keyAt, body, BlockLines(b1), name);
    PlacedByScan(keyAt, body);
    PlacedBefore(Scan(keyAt, body), name, |body|);
  }

  /**
   The same when the first write appended the section: the second replaces what was
   appended, and the section reads as the block written.
   */
  lemma WriteTwiceAppended(keyAt: KeyAt, data: string, name: string, b1: string, b2: string)
    requires keyAt("") == None && NewlineBlind(keyAt) && BlockFor(keyAt, name, b1)
    requires Appends(Parse(keyAt, data), name)
    ensures Placed(Parse(keyAt, data), data)
    ensures Replaced(data, Parse(keyAt, data), name, b1) == Ok(WithTrailingNewline(data) + b1)
    ensures var once := WithTrailingNewline(data) + b1;
            && Placed(Parse(keyAt, once), once)
            && Replaced(once, Parse(keyAt, once), name, b2) == Replaced(data, Parse(keyAt, data), name, b2)
    ensures var once := WithTrailingNewline(data) + b1;
            var keys := Scan(keyAt, Split(once));
            && keys != [] && WellPlaced(keys, |Split(once)|) && IndexOf(keys, name, |keys| - 1) && Section(once, keys, |keys| - 1) == b1
  {
    PlacedByScan(keyAt, Split(data));
    ScanAppended(keyAt, data, name, b1);
    PutGetAppended(data, Parse(keyAt, data), name, b1);
    PutPutAppended(data, Parse(keyAt, data), name, b1, b2);
  }
}
