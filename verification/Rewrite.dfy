/**
 Config write-back (internal/config/rewrite.go): replacing one top-level section of
 a text file. The YAML parser is not modelled; what it reports of a file (the
 top-level keys with their lines and columns) is a parameter.
 */
module Rewrite {
  import opened Wrappers
  import Names

  /** A top-level key as the parser places it; lines and columns count from 1. */
  datatype Key = Key(name: string, line: nat, column: nat)

  datatype Doc = Unparsable | Empty | NotMapping | Mapping(keys: seq<Key>)

  datatype Error = ParseError | RootNotMapping | KeyNotAtColumnOne

  // ------------------------------------------------------------------- lines

  predicate OneLine(l: string)
  {
    forall i :: 0 <= i < |l| ==> l[i] != '\n'
  }

  predicate Proper(l: string)
  {
    l != "" && l[|l| - 1] == '\n' && OneLine(l[..|l| - 1])
  }

  /** strings.Index for a newline, or the length. */
  function FirstNewline(s: string): (r: nat)
    ensures r <= |s|
  {
    if s == "" || s[0] == '\n' then 0 else FirstNewline(s[1..]) + 1
  }

  lemma {:induction false} FirstNewlineFinds(s: string)
    ensures var n := FirstNewline(s); (n < |s| ==> s[n] == '\n') && OneLine(s[..n])
  {
    if s != "" && s[0] != '\n' {
      FirstNewlineFinds(s[1..]);
      var n := FirstNewline(s);
      forall i | 0 <= i < n ensures s[..n][i] != '\n' {
        assert i > 0 ==> s[..n][i] == s[1..][..n - 1][i - 1];
      }
    }
  }

  /** strings.SplitAfter(s, "\n"): every line keeps its newline, the last has none. */
  function Split(s: string): (r: seq<string>)
    ensures r != []
  {
    var n := FirstNewline(s);
    if n == |s| then [s] else [s[..n + 1]] + Split(s[n + 1..])
  }

  /** What Split returns: proper lines and a last one without newline. */
  predicate Lines(ls: seq<string>)
  {
    ls != [] && (forall i :: 0 <= i < |ls| - 1 ==> Proper(ls[i])) && OneLine(ls[|ls| - 1])
  }

  lemma {:induction false} SplitIsLines(s: string)
    ensures Lines(Split(s))
  {
    var n := FirstNewline(s);
    FirstNewlineFinds(s);
    if n < |s| {
      SplitIsLines(s[n + 1..]);
      assert s[..n + 1][..n] == s[..n];
      assert Proper(s[..n + 1]);
    } else {
      assert s[..n] == s;
    }
  }

  function Join(ls: seq<string>): string
  {
    if ls == [] then "" else ls[0] + Join(ls[1..])
  }

  lemma {:induction false} JoinConcat(a: seq<string>, b: seq<string>)
    ensures Join(a + b) == Join(a) + Join(b)
  {
    if a == [] {
      assert a + b == b;
    } else {
      JoinConcat(a[1..], b);
      assert (a + b)[1..] == a[1..] + b;
      Assoc(a[0], Join(a[1..]), Join(b));
    }
  }

  lemma JoinCons(l: string, rest: seq<string>)
    ensures Join([l] + rest) == l + Join(rest)
    ensures rest == [] ==> Join([l]) == l
  {
    assert ([l] + rest)[1..] == rest;
    assert [l] + [] == [l];
  }

  lemma {:induction false} JoinSplit(s: string)
    ensures Join(Split(s)) == s
  {
    var n := FirstNewline(s);
    if n < |s| {
      var l, rest := s[..n + 1], s[n + 1..];
      JoinSplit(rest);
      JoinCons(l, Split(rest));
      assert s == l + rest;
    } else {
      JoinCons(s, []);
    }
  }

  lemma {:induction false} FirstNewlineIs(s: string, n: nat)
    requires n <= |s| && OneLine(s[..n])
    requires n < |s| ==> s[n] == '\n'
    ensures FirstNewline(s) == n
  {
    if n > 0 {
      assert s[0] == s[..n][0];
      assert s[1..][..n - 1] == s[..n][1..];
      FirstNewlineIs(s[1..], n - 1);
    }
  }

  lemma Assoc<T>(a: seq<T>, b: seq<T>, c: seq<T>)
    ensures a + b + c == a + (b + c)
  {
  }

  lemma SplitCons(l: string, s: string)
    requires Proper(l)
    ensures Split(l + s) == [l] + Split(s)
  {
    assert (l + s)[..|l| - 1] == l[..|l| - 1];
    FirstNewlineIs(l + s, |l| - 1);
    assert (l + s)[..|l|] == l && (l + s)[|l|..] == s;
  }

  /** Proper lines in front of a text are its first lines. */
  lemma {:induction false} SplitAfterLines(ls: seq<string>, s: string)
    requires forall i :: 0 <= i < |ls| ==> Proper(ls[i])
    ensures Split(Join(ls) + s) == ls + Split(s)
  {
    if ls == [] {
      assert Join(ls) + s == s;
    } else {
      var t := Join(ls[1..]);
      Assoc(ls[0], t, s);
      SplitCons(ls[0], t + s);
      SplitAfterLines(ls[1..], s);
      Assoc([ls[0]], ls[1..], Split(s));
      assert [ls[0]] + ls[1..] == ls;
    }
  }

  lemma SplitOneLine(s: string)
    requires OneLine(s)
    ensures Split(s) == [s] && Join([s]) == s
  {
    assert s[..|s|] == s;
    FirstNewlineIs(s, |s|);
    assert Join([s]) == s + Join([]);
  }

  /** The lines of the text that starts at line k. */
  function TailLines(ls: seq<string>, k: nat): seq<string>
    requires k <= |ls|
  {
    if k == |ls| then [""] else ls[k..]
  }

  /** A tail of a file splits into its own lines; the empty one into an empty line. */
  lemma SplitTail(ls: seq<string>, k: nat)
    requires Lines(ls) && k <= |ls|
    ensures Split(Join(ls[k..])) == TailLines(ls, k)
  {
    var n := |ls| - 1;
    if k == |ls| {
      SplitOneLine("");
    } else {
      var body := ls[k..n];
      assert ls[k..] == body + [ls[n]];
      JoinConcat(body, [ls[n]]);
      SplitOneLine(ls[n]);
      SplitAfterLines(body, ls[n]);
    }
  }

  // ----------------------------------------------------------------- sections

  /** Neither blank nor a comment: the first character that is not space is no '#'. */
  predicate Solid(l: string)
  {
    exists i | 0 <= i < |l| :: TextAt(l, i) && l[i] != '#'
  }

  /** The first character that is not space. */
  predicate TextAt(l: string, i: nat)
  {
    i < |l| && !Names.IsSpace(l[i]) && forall j :: 0 <= j < i ==> Names.IsSpace(l[j])
  }

  /** As the source puts it: the trimmed line is not empty and does not start with '#'. */
  lemma SolidIsTrimmed(l: string)
    ensures Solid(l) <==> Names.TrimSpace(l) != "" && !Names.HasPrefix(Names.TrimSpace(l), "#")
  {
    var t := Names.TrimLeft(l);
    var n := |l| - |t|;
    var r := Names.TrimRight(t);
    Names.TrimLeftCuts(l);
    Names.TrimRightCuts(t);
    if t == "" {
      assert r == "";
    } else {
      assert TextAt(l, n) && l[n] == t[0];
      assert r != "" ==> r[0] == t[0] && r[..1] == [t[0]];
    }
    assert forall i :: 0 <= i < n ==> Names.IsSpace(l[i]);
  }

  /** The last line of a section that starts at start and may reach to end. */
  function LastSolid(lines: seq<string>, start: nat, end: int): (r: int)
    requires end < |lines|
    ensures r <= end && (end >= start ==> r >= start) && (end < start ==> r == end)
    decreases end - start
  {
    if end > start && !Solid(lines[end]) then LastSolid(lines, start, end - 1) else end
  }

  lemma {:induction false} LastSolidFinds(lines: seq<string>, start: nat, end: int)
    requires end < |lines|
    ensures var r := LastSolid(lines, start, end);
            && (r > start ==> Solid(lines[r]))
            && forall i :: start < i && r < i <= end ==> !Solid(lines[i])
    decreases end - start
  {
    if end > start && !Solid(lines[end]) {
      LastSolidFinds(lines, start, end - 1);
    }
  }

  lemma LastSolidIs(lines: seq<string>, start: nat, end: int, r: int)
    requires start <= r <= end < |lines| && (r == start || Solid(lines[r]))
    requires forall i :: r < i <= end ==> !Solid(lines[i])
    ensures LastSolid(lines, start, end) == r
  {
    LastSolidFinds(lines, start, end);
  }

  /** What the parser must get right for the line arithmetic to stay inside the file. */
  predicate WellPlaced(keys: seq<Key>, lines: nat)
  {
    && (forall i :: 0 <= i < |keys| ==> 1 <= keys[i].line <= lines)
    && (forall i, j :: 0 <= i < j < |keys| ==> keys[i].line <= keys[j].line)
  }

  function Start(keys: seq<Key>, k: nat): int
    requires k < |keys|
  {
    keys[k].line - 1
  }

  function Reach(keys: seq<Key>, lines: seq<string>, k: nat): int
    requires k < |keys|
  {
    if k + 1 < |keys| then keys[k + 1].line - 2 else |lines| - 1
  }

  /** The last line of key k's section. */
  function End(keys: seq<Key>, lines: seq<string>, k: nat): (r: int)
    requires k < |keys| && WellPlaced(keys, |lines|)
    ensures Start(keys, k) - 1 <= r <= Reach(keys, lines, k) < |lines|
  {
    LastSolid(lines, Start(keys, k), Reach(keys, lines, k))
  }

  /** The lines of key j's section. */
  function SectionLines(lines: seq<string>, keys: seq<Key>, j: nat): seq<string>
    requires j < |keys| && WellPlaced(keys, |lines|)
  {
    lines[Start(keys, j)..End(keys, lines, j) + 1]
  }

  /** The text of key k's section. */
  function Section(data: string, keys: seq<Key>, k: nat): string
    requires k < |keys| && WellPlaced(keys, |Split(data)|)
  {
    Join(SectionLines(Split(data), keys, k))
  }

  predicate IndexOf(keys: seq<Key>, name: string, k: nat)
  {
    k < |keys| && keys[k].name == name && forall i :: 0 <= i < k ==> keys[i].name != name
  }

  function Find(keys: seq<Key>, name: string): (r: Option<nat>)
    ensures r.Some? ==> IndexOf(keys, name, r.value)
    ensures r.None? ==> forall i :: 0 <= i < |keys| ==> keys[i].name != name
  {
    if keys == [] then None
    else if keys[0].name == name then Some(0)
    else
      var r := Find(keys[1..], name);
      if r.Some? then Some(r.value + 1) else None
  }

  lemma FindIs(keys: seq<Key>, name: string, k: nat)
    requires IndexOf(keys, name, k)
    ensures Find(keys, name) == Some(k)
  {
    var r := Find(keys, name);
    assert keys[k].name == name;
  }

  function WithTrailingNewline(data: string): (r: string)
    ensures r == "" || r[|r| - 1] == '\n'
    ensures data <= r && |r| <= |data| + 1
  {
    if data != "" && data[|data| - 1] != '\n' then data + "\n" else data
  }

  /** Replacing lines start..end by the block. */
  function Spliced(lines: seq<string>, start: nat, end: int, block: string): string
    requires start <= end + 1 <= |lines|
  {
    Join(lines[..start]) + block + Join(lines[end + 1..])
  }

  /** The file with key k's section replaced. */
  function Edited(lines: seq<string>, keys: seq<Key>, k: nat, block: string): string
    requires k < |keys| && WellPlaced(keys, |lines|)
  {
    Spliced(lines, Start(keys, k), End(keys, lines, k), block)
  }

  predicate Placed(doc: Doc, data: string)
  {
    doc.Mapping? ==> WellPlaced(doc.keys, |Split(data)|)
  }

  /** ReplaceSection, given the encoded block and what the parser says of data. */
  function Replaced(data: string, doc: Doc, name: string, block: string): Result<string, Error>
    requires Placed(doc, data)
  {
    if doc.Unparsable? then Err(ParseError)
    else if doc.Empty? then Ok(WithTrailingNewline(data) + block)
    else if doc.NotMapping? then Err(RootNotMapping)
    else
      var at := Find(doc.keys, name);
      if at.None? then Ok(WithTrailingNewline(data) + block)
      else
        var k := at.value;
        if doc.keys[k].column != 1 then Err(KeyNotAtColumnOne)
        else Ok(Edited(Split(data), doc.keys, k, block))
  }

  method FindKey(keys: seq<Key>, name: string) returns (at: int)
    ensures at < 0 ==> Find(keys, name) == None
    ensures at >= 0 ==> Find(keys, name) == Some(at)
  {
    for i := 0 to |keys|
      invariant forall j :: 0 <= j < i ==> keys[j].name != name
    {
      if keys[i].name == name {
        FindIs(keys, name, i);
        return i;
      }
    }
    return -1;
  }

  method WriteLines(lines: seq<string>) returns (out: string)
    ensures out == Join(lines)
  {
    out := "";
    for i := 0 to |lines|
      invariant out == Join(lines[..i])
    {
      assert lines[..i + 1] == lines[..i] + [lines[i]];
      JoinConcat(lines[..i], [lines[i]]);
      assert Join([lines[i]]) == lines[i] + Join([]);
      out := out + lines[i];
    }
    assert lines[..|lines|] == lines;
  }

  /** Leaves blank lines and comments behind the section alone. */
  method TrimEnd(lines: seq<string>, start: nat, reach: int) returns (end: int)
    requires start - 1 <= reach < |lines|
    ensures end == LastSolid(lines, start, reach)
  {
    end := reach;
    while end > start && !Solid(lines[end])
      invariant start - 1 <= end <= reach && (end < start ==> end == reach)
      invariant forall i :: end < i <= reach ==> !Solid(lines[i])
    {
      end := end - 1;
    }
    if start <= end {
      LastSolidIs(lines, start, reach, end);
    }
  }

  method Splice(lines: seq<string>, start: nat, end: int, block: string) returns (out: string)
    requires start <= end + 1 <= |lines|
    ensures out == Spliced(lines, start, end, block)
  {
    var before := WriteLines(lines[..start]);
    var behind := WriteLines(lines[end + 1..]);
    out := before + block + behind;
  }

  method ReplaceSection(data: string, doc: Doc, name: string, block: string) returns (r: Result<string, Error>)
    requires Placed(doc, data)
    ensures r == Replaced(data, doc, name, block)
  {
    match doc
    case Unparsable => return Err(ParseError);
    case Empty => return Ok(WithTrailingNewline(data) + block);
    case NotMapping => return Err(RootNotMapping);
    case Mapping(keys) =>
      var at := FindKey(keys, name);
      if at < 0 {
        return Ok(WithTrailingNewline(data) + block);
      }
      if keys[at].column != 1 {
        return Err(KeyNotAtColumnOne);
      }
      var lines := Split(data);
      var start := keys[at].line - 1;
      var end := |lines| - 1;
      if at + 1 < |keys| {
        end := keys[at + 1].line - 2;
      }
      end := TrimEnd(lines, start, end);
      var out := Splice(lines, start, end, block);
      return Ok(out);
  }

  // ----------------------------------------------------------------- lens laws

  /** A block as the encoder writes it: whole lines, the last neither blank nor a comment. */
  predicate Block(block: string)
  {
    var ls := Split(block);
    |ls| >= 2 && ls[|ls| - 1] == "" && Solid(ls[|ls| - 2])
  }

  function BlockLines(block: string): seq<string>
    requires Block(block)
  {
    Split(block)[..|Split(block)| - 1]
  }

  lemma BlockSplit(block: string)
    requires Block(block)
    ensures Split(block) == BlockLines(block) + [""]
  {
  }

  lemma BlockIsItsLines(block: string)
    requires Block(block)
    ensures block == Join(BlockLines(block))
    ensures forall l :: l in BlockLines(block) ==> Proper(l)
  {
    var ls := Split(block);
    JoinSplit(block);
    SplitIsLines(block);
    BlockSplit(block);
    JoinConcat(BlockLines(block), [""]);
    assert Join([""]) == "" + Join([]);
  }

  lemma SplitThree(a: seq<string>, b: seq<string>, tail: string)
    requires forall i :: 0 <= i < |a| ==> Proper(a[i])
    requires forall i :: 0 <= i < |b| ==> Proper(b[i])
    ensures Split(Join(a) + Join(b) + tail) == a + b + Split(tail)
  {
    SplitAfterLines(b, tail);
    SplitAfterLines(a, Join(b) + tail);
    Assoc(Join(a), Join(b), tail);
    Assoc(a, b, Split(tail));
  }

  /** The lines of a spliced file. A tail that is empty still splits into one empty line. */
  lemma SplicedLines(lines: seq<string>, start: nat, end: int, block: string, ls: seq<string>)
    requires Lines(lines) && start <= end + 1 <= |lines| && start < |lines|
    requires block == Join(ls) && forall i :: 0 <= i < |ls| ==> Proper(ls[i])
    ensures Split(Spliced(lines, start, end, block)) ==
              lines[..start] + ls + TailLines(lines, end + 1)
  {
    var head, tail := lines[..start], Join(lines[end + 1..]);
    SplitTail(lines, end + 1);
    forall i | 0 <= i < |head| ensures Proper(head[i]) {
      assert head[i] == lines[i];
    }
    SplitThree(head, ls, tail);
    assert Spliced(lines, start, end, block) == Join(head) + Join(ls) + tail;
  }

  /** What a faithful parser says after key k's section became the block: later keys move. */
  function Shifted(keys: seq<Key>, k: nat, d: int): (r: seq<Key>)
    requires k < |keys|
    requires forall i :: k < i < |keys| ==> keys[i].line + d >= 0
    ensures |r| == |keys|
    ensures forall i :: 0 <= i < |r| ==> r[i] == if i <= k then keys[i] else keys[i].(line := keys[i].line + d)
  {
    seq(|keys|, i requires 0 <= i < |keys| => if i <= k then keys[i] else
      assert keys[i].line + d >= 0;
      keys[i].(line := keys[i].line + d))
  }

  function Shift(lines: seq<string>, keys: seq<Key>, k: nat, ls: seq<string>): int
    requires k < |keys| && WellPlaced(keys, |lines|) && ls != []
  {
    |ls| - (End(keys, lines, k) + 1 - Start(keys, k))
  }

  lemma ShiftFits(lines: seq<string>, keys: seq<Key>, k: nat, ls: seq<string>)
    requires k < |keys| && WellPlaced(keys, |lines|) && ls != []
    ensures forall i :: k < i < |keys| ==> keys[i].line + Shift(lines, keys, k, ls) > keys[k].line
  {
    forall i | k < i < |keys| ensures keys[i].line + Shift(lines, keys, k, ls) > keys[k].line {
      assert End(keys, lines, k) <= keys[k + 1].line - 2;
      assert keys[k + 1].line <= keys[i].line;
    }
  }

  /** The keys of the file with key k's section replaced. */
  function Moved(lines: seq<string>, keys: seq<Key>, k: nat, ls: seq<string>): seq<Key>
    requires k < |keys| && WellPlaced(keys, |lines|) && ls != []
  {
    ShiftFits(lines, keys, k, ls);
    Shifted(keys, k, Shift(lines, keys, k, ls))
  }

  /** The lines of the file with key k's section replaced. */
  function NewLines(lines: seq<string>, keys: seq<Key>, k: nat, ls: seq<string>): seq<string>
    requires k < |keys| && WellPlaced(keys, |lines|) && ls != []
  {
    var end := End(keys, lines, k);
    lines[..Start(keys, k)] + ls + TailLines(lines, end + 1)
  }

  /** A line of the tail has moved by Shift. */
  lemma TailMoved(lines: seq<string>, keys: seq<Key>, k: nat, ls: seq<string>, i: nat)
    requires k < |keys| && WellPlaced(keys, |lines|) && ls != []
    requires End(keys, lines, k) < i < |lines|
    ensures var j := i + Shift(lines, keys, k, ls);
            Start(keys, k) + |ls| <= j < |NewLines(lines, keys, k, ls)|
            && NewLines(lines, keys, k, ls)[j] == lines[i]
  {
  }

  /** The arithmetic of a moved key: end is the section's last line, n the block's length. */
  lemma KeyFits(keys: seq<Key>, lines: nat, k: nat, end: int, n: nat, i: nat)
    requires k < |keys| && WellPlaced(keys, lines) && i < |keys| && n >= 1
    requires Start(keys, k) - 1 <= end < lines && (k + 1 < |keys| ==> end <= keys[k + 1].line - 2)
    ensures var l := if i <= k then keys[i].line else keys[i].line + n - (end + 1 - Start(keys, k));
            && 1 <= l <= Start(keys, k) + n + (if end + 1 == lines then 1 else lines - end - 1)
            && (i <= k ==> l <= keys[k].line) && (i > k ==> l > keys[k].line)
  {
    assert i > k ==> keys[k + 1].line <= keys[i].line;
  }

  lemma HeadKept(lines: seq<string>, keys: seq<Key>, k: nat, ls: seq<string>, i: nat)
    requires k < |keys| && WellPlaced(keys, |lines|) && ls != []
    requires i < Start(keys, k)
    ensures |NewLines(lines, keys, k, ls)| > i && NewLines(lines, keys, k, ls)[i] == lines[i]
  {
  }

  lemma MovedFits(lines: seq<string>, keys: seq<Key>, k: nat, ls: seq<string>)
    requires k < |keys| && WellPlaced(keys, |lines|) && ls != []
    ensures WellPlaced(Moved(lines, keys, k, ls), |NewLines(lines, keys, k, ls)|)
  {
    forall i | 0 <= i < |keys|
      ensures var l := if i <= k then keys[i].line else keys[i].line + Shift(lines, keys, k, ls);
              1 <= l <= |NewLines(lines, keys, k, ls)| && (i <= k ==> l <= keys[k].line) && (i > k ==> l > keys[k].line)
    {
      KeyFits(keys, |lines|, k, End(keys, lines, k), |ls|, i);
    }
  }

  lemma EndIs(keys: seq<Key>, lines: seq<string>, k: nat, start: int, reach: int)
    requires k < |keys| && WellPlaced(keys, |lines|) && start == Start(keys, k) && reach == Reach(keys, lines, k)
    ensures End(keys, lines, k) == LastSolid(lines, start, reach)
  {
  }

  /** Behind the block there is nothing solid, where the section had nothing solid behind its end. */
  lemma BlockEnds(head: seq<string>, ls: seq<string>, lines: seq<string>, cut: nat, reach: int, fin: seq<string>, to: int)
    requires cut <= |lines| && cut - 1 <= reach < |lines| && ls != [] && Solid(ls[|ls| - 1])
    requires fin == head + ls + TailLines(lines, cut)
    requires to == |head| + |ls| + if cut < |lines| then reach - cut else 0
    requires forall i :: cut <= i <= reach ==> !Solid(lines[i])
    ensures |head| <= to < |fin| && LastSolid(fin, |head|, to) == |head| + |ls| - 1
  {
    var last := |head| + |ls| - 1;
    assert fin[last] == ls[|ls| - 1];
    forall i | last < i <= to ensures !Solid(fin[i]) {
      if cut < |lines| {
        assert fin[i] == lines[cut..][i - last - 1] == lines[i - last - 1 + cut];
      } else {
        assert fin[i] == "";
      }
    }
    LastSolidIs(fin, |head|, to, last);
  }

  /** Where the section of key k reaches in the new file. */
  lemma ReachMoved(lines: seq<string>, keys: seq<Key>, k: nat, ls: seq<string>)
    requires k < |keys| && WellPlaced(keys, |lines|) && ls != []
    requires WellPlaced(Moved(lines, keys, k, ls), |NewLines(lines, keys, k, ls)|)
    ensures Start(Moved(lines, keys, k, ls), k) == Start(keys, k)
    ensures Reach(Moved(lines, keys, k, ls), NewLines(lines, keys, k, ls), k)
            == Start(keys, k) + |ls| + if End(keys, lines, k) + 1 < |lines| then Reach(keys, lines, k) - End(keys, lines, k) - 1 else 0
  {
    if End(keys, lines, k) + 1 < |lines| {
      NewLength(lines, keys, k, ls);
    }
  }

  lemma NewLength(lines: seq<string>, keys: seq<Key>, k: nat, ls: seq<string>)
    requires k < |keys| && WellPlaced(keys, |lines|) && ls != [] && End(keys, lines, k) + 1 < |lines|
    ensures |NewLines(lines, keys, k, ls)| == |lines| + Shift(lines, keys, k, ls)
  {
  }

  /** Where the section lies in the new file: exactly the block. */
  lemma NewSection(lines: seq<string>, keys: seq<Key>, k: nat, ls: seq<string>)
    requires k < |keys| && WellPlaced(keys, |lines|) && ls != [] && Solid(ls[|ls| - 1])
    requires WellPlaced(Moved(lines, keys, k, ls), |NewLines(lines, keys, k, ls)|)
    ensures End(Moved(lines, keys, k, ls), NewLines(lines, keys, k, ls), k)
            == Start(keys, k) + |ls| - 1
  {
    var start, reach := Start(keys, k), Reach(keys, lines, k);
    var moved, fin := Moved(lines, keys, k, ls), NewLines(lines, keys, k, ls);
    LastSolidFinds(lines, start, reach);
    ReachMoved(lines, keys, k, ls);
    EndIs(moved, fin, k, start, Reach(moved, fin, k));
    BlockEnds(lines[..start], ls, lines, End(keys, lines, k) + 1, reach, fin, Reach(moved, fin, k));
  }

  /** The in-place case of Replaced. */
  predicate InPlace(data: string, doc: Doc, name: string, k: nat)
  {
    doc.Mapping? && WellPlaced(doc.keys, |Split(data)|) && IndexOf(doc.keys, name, k) && doc.keys[k].column == 1
  }

  lemma InPlaceIs(data: string, doc: Doc, name: string, k: nat, block: string)
    requires InPlace(data, doc, name, k)
    ensures Replaced(data, doc, name, block)
            == Ok(Edited(Split(data), doc.keys, k, block))
  {
    FindIs(doc.keys, name, k);
  }

  lemma NewFile(lines: seq<string>, keys: seq<Key>, k: nat, block: string)
    requires Lines(lines) && k < |keys| && WellPlaced(keys, |lines|) && Block(block)
    ensures Split(Edited(lines, keys, k, block)) == NewLines(lines, keys, k, BlockLines(block))
  {
    BlockIsItsLines(block);
    SplicedLines(lines, Start(keys, k), End(keys, lines, k), block, BlockLines(block));
  }

  lemma MovedFinds(lines: seq<string>, keys: seq<Key>, name: string, k: nat, ls: seq<string>)
    requires IndexOf(keys, name, k) && WellPlaced(keys, |lines|) && ls != []
    ensures IndexOf(Moved(lines, keys, k, ls), name, k) && Moved(lines, keys, k, ls)[k] == keys[k]
  {
  }

  lemma JoinAt(ls: seq<string>, i: nat)
    requires i <= |ls|
    ensures Join(ls) == Join(ls[..i]) + Join(ls[i..])
  {
    assert ls == ls[..i] + ls[i..];
    JoinConcat(ls[..i], ls[i..]);
  }

  lemma JoinCut(ls: seq<string>, i: nat, j: nat)
    requires i <= j <= |ls|
    ensures Join(ls) == Join(ls[..i]) + Join(ls[i..j]) + Join(ls[j..])
  {
    JoinAt(ls, j);
    JoinAt(ls[..j], i);
    assert ls[..j][..i] == ls[..i] && ls[..j][i..] == ls[i..j];
  }

  /**
   What is kept, byte for byte: everything before the key's line, and everything
   behind the last line of the section that is neither blank nor a comment.
   */
  lemma RestIsKept(data: string, doc: Doc, name: string, k: nat, block: string)
    requires InPlace(data, doc, name, k)
    ensures var lines := Split(data);
            var s, e := Start(doc.keys, k), End(doc.keys, lines, k);
            var before, behind := Join(lines[..s]), Join(lines[e + 1..]);
            && data == before + Section(data, doc.keys, k) + behind
            && Replaced(data, doc, name, block) == Ok(before + block + behind)
            && (e > s ==> Solid(lines[e]))
            && forall i :: s < i && e < i <= Reach(doc.keys, lines, k) ==> !Solid(lines[i])
  {
    InPlaceIs(data, doc, name, k, block);
    JoinSplit(data);
    JoinCut(Split(data), Start(doc.keys, k), End(doc.keys, Split(data), k) + 1);
    LastSolidFinds(Split(data), Start(doc.keys, k), Reach(doc.keys, Split(data), k));
  }

  /** Writing back what is there changes nothing. */
  lemma GetPut(data: string, doc: Doc, name: string, k: nat)
    requires InPlace(data, doc, name, k)
    ensures Replaced(data, doc, name, Section(data, doc.keys, k)) == Ok(data)
  {
    RestIsKept(data, doc, name, k, Section(data, doc.keys, k));
  }

  lemma NewSectionLines(lines: seq<string>, keys: seq<Key>, k: nat, ls: seq<string>)
    requires k < |keys| && WellPlaced(keys, |lines|) && ls != [] && Solid(ls[|ls| - 1])
    ensures var moved, fin := Moved(lines, keys, k, ls), NewLines(lines, keys, k, ls);
            WellPlaced(moved, |fin|) && SectionLines(fin, moved, k) == ls
  {
    MovedFits(lines, keys, k, ls);
    NewSection(lines, keys, k, ls);
    var s := Start(keys, k);
    assert NewLines(lines, keys, k, ls)[s..s + |ls|] == ls;
  }

  /** The same on the lines: the new file's lines, its keys, and the block among them. */
  lemma PutGetLines(lines: seq<string>, keys: seq<Key>, name: string, k: nat, block: string)
    requires Lines(lines) && WellPlaced(keys, |lines|) && IndexOf(keys, name, k) && Block(block)
    ensures var fin, moved := Split(Edited(lines, keys, k, block)), Moved(lines, keys, k, BlockLines(block));
            && WellPlaced(moved, |fin|) && IndexOf(moved, name, k) && moved[k] == keys[k]
            && SectionLines(fin, moved, k) == BlockLines(block)
  {
    NewFile(lines, keys, k, block);
    MovedFinds(lines, keys, name, k, BlockLines(block));
    NewSectionLines(lines, keys, k, BlockLines(block));
  }

  /** The new file holds the block as the key's section, for a parser that places the keys so. */
  lemma PutGet(data: string, doc: Doc, name: string, k: nat, block: string)
    requires InPlace(data, doc, name, k) && Block(block)
    ensures var out := Replaced(data, doc, name, block).value;
            var keys := Moved(Split(data), doc.keys, k, BlockLines(block));
            InPlace(out, Mapping(keys), name, k) && Section(out, keys, k) == block
  {
    InPlaceIs(data, doc, name, k, block);
    SplitIsLines(data);
    BlockIsItsLines(block);
    PutGetLines(Split(data), doc.keys, name, k, block);
  }

  lemma SpliceTwice(lines: seq<string>, keys: seq<Key>, k: nat, b1: string, b2: string)
    requires Lines(lines) && k < |keys| && WellPlaced(keys, |lines|) && Block(b1)
    ensures Spliced(NewLines(lines, keys, k, BlockLines(b1)), Start(keys, k), Start(keys, k) + |BlockLines(b1)| - 1, b2)
            == Spliced(lines, Start(keys, k), End(keys, lines, k), b2)
  {
    var start, end, n := Start(keys, k), End(keys, lines, k), |BlockLines(b1)|;
    var fin := NewLines(lines, keys, k, BlockLines(b1));
    assert fin[..start] == lines[..start];
    if end + 1 == |lines| {
      assert fin[start + n..] == [""];
      SplitOneLine("");
    } else {
      assert fin[start + n..] == lines[end + 1..];
    }
  }

  lemma EditTwice(lines: seq<string>, keys: seq<Key>, k: nat, b1: string, b2: string)
    requires Lines(lines) && k < |keys| && WellPlaced(keys, |lines|) && Block(b1)
    ensures var moved, fin := Moved(lines, keys, k, BlockLines(b1)), NewLines(lines, keys, k, BlockLines(b1));
            WellPlaced(moved, |fin|) && Edited(fin, moved, k, b2) == Edited(lines, keys, k, b2)
  {
    MovedFits(lines, keys, k, BlockLines(b1));
    NewSection(lines, keys, k, BlockLines(b1));
    SpliceTwice(lines, keys, k, b1, b2);
  }

  /** Writing twice is writing the last. */
  lemma PutPut(data: string, doc: Doc, name: string, k: nat, b1: string, b2: string)
    requires InPlace(data, doc, name, k) && Block(b1)
    ensures var out := Replaced(data, doc, name, b1).value;
            var moved := Mapping(Moved(Split(data), doc.keys, k, BlockLines(b1)));
            Placed(moved, out) && Replaced(out, moved, name, b2) == Replaced(data, doc, name, b2)
  {
    var lines, keys := Split(data), doc.keys;
    var moved := Moved(lines, keys, k, BlockLines(b1));
    PutGet(data, doc, name, k, b1);
    InPlaceIs(data, doc, name, k, b1);
    InPlaceIs(data, doc, name, k, b2);
    SplitIsLines(data);
    NewFile(lines, keys, k, b1);
    EditTwice(lines, keys, k, b1, b2);
    InPlaceIs(Replaced(data, doc, name, b1).value, Mapping(moved), name, k, b2);
  }

  /** LastSolid looks at the lines of its range only. */
  lemma SameEnd(a: seq<string>, b: seq<string>, d: int, start: nat, end: int)
    requires end < |a| && start - 1 <= end && end + d < |b| && start + d >= 0
    requires forall i :: start <= i <= end ==> b[i + d] == a[i]
    ensures LastSolid(b, start + d, end + d) == LastSolid(a, start, end) + d
  {
    var r := LastSolid(a, start, end);
    LastSolidFinds(a, start, end);
    if start <= end {
      forall i | r + d < i <= end + d ensures !Solid(b[i]) {
        assert b[i - d + d] == a[i - d];
      }
      assert b[r + d] == a[r];
      LastSolidIs(b, start + d, end + d, r + d);
    }
  }

  lemma SameSlice<T>(a: seq<T>, b: seq<T>, s: int, e: int, d: int)
    requires 0 <= s <= e <= |a| && 0 <= s + d && e + d <= |b|
    requires forall i :: s <= i < e ==> b[i + d] == a[i]
    ensures b[s + d..e + d] == a[s..e]
  {
    forall i | 0 <= i < e - s ensures b[s + d..e + d][i] == a[s..e][i] {
      assert b[s + i + d] == a[s + i];
    }
  }

  /** A section whose lines stand d further down reads the same. */
  lemma SectionMoves(a: seq<string>, ka: seq<Key>, b: seq<string>, kb: seq<Key>, j: nat, d: int)
    requires j < |ka| == |kb| && WellPlaced(ka, |a|) && WellPlaced(kb, |b|)
    requires Start(kb, j) == Start(ka, j) + d && Reach(kb, b, j) == Reach(ka, a, j) + d
    requires forall i :: Start(ka, j) <= i <= Reach(ka, a, j) ==> b[i + d] == a[i]
    ensures SectionLines(b, kb, j) == SectionLines(a, ka, j)
  {
    var s, r := Start(ka, j), Reach(ka, a, j);
    EndIs(ka, a, j, s, r);
    EndIs(kb, b, j, s + d, r + d);
    SameEnd(a, b, d, s, r);
    SameSlice(a, b, s, LastSolid(a, s, r) + 1, d);
  }

  /** An earlier key's section does not move. */
  lemma EarlierLines(lines: seq<string>, keys: seq<Key>, k: nat, ls: seq<string>, j: nat)
    requires k < |keys| && WellPlaced(keys, |lines|) && ls != [] && j < k
    requires WellPlaced(Moved(lines, keys, k, ls), |NewLines(lines, keys, k, ls)|)
    ensures SectionLines(NewLines(lines, keys, k, ls), Moved(lines, keys, k, ls), j) == SectionLines(lines, keys, j)
  {
    var fin := NewLines(lines, keys, k, ls);
    assert keys[j + 1].line <= keys[k].line;
    forall i | Start(keys, j) <= i <= Reach(keys, lines, j) ensures fin[i + 0] == lines[i] {
      HeadKept(lines, keys, k, ls, i);
    }
    SectionMoves(lines, keys, fin, Moved(lines, keys, k, ls), j, 0);
  }

  /** Where a later key's section lies in the new file. */
  lemma LaterReach(lines: seq<string>, keys: seq<Key>, k: nat, ls: seq<string>, j: nat)
    requires k < |keys| && WellPlaced(keys, |lines|) && ls != [] && k < j < |keys|
    requires WellPlaced(Moved(lines, keys, k, ls), |NewLines(lines, keys, k, ls)|)
    ensures var moved, fin, d := Moved(lines, keys, k, ls), NewLines(lines, keys, k, ls), Shift(lines, keys, k, ls);
            && End(keys, lines, k) < Start(keys, j) && End(keys, lines, k) + 1 < |lines| && |fin| == |lines| + d
            && Start(moved, j) == Start(keys, j) + d && Reach(moved, fin, j) == Reach(keys, lines, j) + d
  {
    assert keys[k + 1].line <= keys[j].line;
    NewLength(lines, keys, k, ls);
  }

  /** A later key's section moves as a whole. */
  lemma LaterLines(lines: seq<string>, keys: seq<Key>, k: nat, ls: seq<string>, j: nat)
    requires k < |keys| && WellPlaced(keys, |lines|) && ls != [] && k < j < |keys|
    requires WellPlaced(Moved(lines, keys, k, ls), |NewLines(lines, keys, k, ls)|)
    ensures SectionLines(NewLines(lines, keys, k, ls), Moved(lines, keys, k, ls), j) == SectionLines(lines, keys, j)
  {
    var fin, d := NewLines(lines, keys, k, ls), Shift(lines, keys, k, ls);
    LaterReach(lines, keys, k, ls, j);
    forall i | Start(keys, j) <= i <= Reach(keys, lines, j) ensures fin[i + d] == lines[i] {
      TailMoved(lines, keys, k, ls, i);
    }
    SectionMoves(lines, keys, fin, Moved(lines, keys, k, ls), j, d);
  }

  /** Every other section reads the same after the change. */
  lemma OthersKept(data: string, doc: Doc, name: string, k: nat, block: string, j: nat)
    requires InPlace(data, doc, name, k) && Block(block) && j < |doc.keys| && j != k
    ensures var out := Replaced(data, doc, name, block).value;
            var keys := Moved(Split(data), doc.keys, k, BlockLines(block));
            WellPlaced(keys, |Split(out)|) && Section(out, keys, j) == Section(data, doc.keys, j)
  {
    var lines := Split(data);
    InPlaceIs(data, doc, name, k, block);
    SplitIsLines(data);
    NewFile(lines, doc.keys, k, block);
    MovedFits(lines, doc.keys, k, BlockLines(block));
    if j < k {
      EarlierLines(lines, doc.keys, k, BlockLines(block), j);
    } else {
      LaterLines(lines, doc.keys, k, BlockLines(block), j);
    }
  }

  // ------------------------------------------------------------ the appended case

  lemma JoinLast(ls: seq<string>)
    requires ls != [] && ls[|ls| - 1] != ""
    ensures var t := Join(ls); t != "" && t[|t| - 1] == ls[|ls| - 1][|ls[|ls| - 1]| - 1]
  {
    var n := |ls| - 1;
    assert ls == ls[..n] + [ls[n]];
    JoinConcat(ls[..n], [ls[n]]);
    assert Join([ls[n]]) == ls[n] + Join([]);
  }

  lemma CompleteLines(ls: seq<string>)
    requires Lines(ls)
    requires var w := Join(ls); w == "" || w[|w| - 1] == '\n'
    ensures ls[|ls| - 1] == "" && Join(ls[..|ls| - 1]) == Join(ls)
  {
    var last := ls[|ls| - 1];
    if last != "" {
      JoinLast(ls);
      assert false;
    }
    assert ls == ls[..|ls| - 1] + [""];
    JoinConcat(ls[..|ls| - 1], [""]);
    assert Join([""]) == "" + Join([]);
  }

  /** A file that is empty or ends in a newline has an empty last line. */
  lemma CompleteFile(w: string)
    requires w == "" || w[|w| - 1] == '\n'
    ensures var ls := Split(w); Lines(ls) && ls[|ls| - 1] == "" && Join(ls[..|ls| - 1]) == w
  {
    SplitIsLines(w);
    JoinSplit(w);
    CompleteLines(Split(w));
  }

  /** No such key: the block goes behind the file, which gets its last newline. */
  predicate Appends(doc: Doc, name: string)
  {
    doc.Empty? || (doc.Mapping? && forall i :: 0 <= i < |doc.keys| ==> doc.keys[i].name != name)
  }

  /** The layout of the longer file. */
  function WithKey(data: string, doc: Doc, name: string): seq<Key>
    requires Appends(doc, name)
  {
    (if doc.Empty? then [] else doc.keys) + [Key(name, |Split(WithTrailingNewline(data))|, 1)]
  }

  lemma AppendedLines(w: string, body: seq<string>, block: string)
    requires forall i :: 0 <= i < |body| ==> Proper(body[i])
    requires Join(body) == w
    ensures Split(w + block) == body + Split(block)
  {
    SplitAfterLines(body, block);
  }

  /** A section at the end of the file is its block. */
  lemma LastBlock(body: seq<string>, ls: seq<string>)
    requires ls != [] && Solid(ls[|ls| - 1])
    ensures var fin := body + ls + [""]; LastSolid(fin, |body|, |fin| - 1) == |body| + |ls| - 1
  {
    var fin, s, n := body + ls + [""], |body|, |ls|;
    assert fin[s + n - 1] == ls[n - 1] && fin[s + n] == "";
    LastSolidIs(fin, s, |fin| - 1, s + n - 1);
  }

  /** Replacing the last block of a file made of a body and a block. */
  lemma SpliceLast(body: seq<string>, ls: seq<string>, b2: string)
    ensures Spliced(body + ls + [""], |body|, |body| + |ls| - 1, b2) == Join(body) + b2
  {
    var fin := body + ls + [""];
    assert fin[..|body|] == body && fin[|body| + |ls|..] == [""];
    SplitOneLine("");
    assert Join(body) + b2 + "" == Join(body) + b2;
  }

  lemma AppendsIs(data: string, doc: Doc, name: string, block: string)
    requires Appends(doc, name) && Placed(doc, data)
    ensures Replaced(data, doc, name, block) == Ok(WithTrailingNewline(data) + block)
  {
    if doc.Mapping? {
      assert Find(doc.keys, name) == None;
    }
  }

  lemma LastKey(keys: seq<Key>, name: string, n: nat)
    requires forall i :: 0 <= i < |keys| ==> keys[i].name != name
    ensures IndexOf(keys + [Key(name, n, 1)], name, |keys|)
  {
  }

  /** The second write, on the lines of a file that ends in the section. */
  lemma EditLast(body: seq<string>, keys: seq<Key>, ls: seq<string>, b2: string)
    requires ls != [] && Solid(ls[|ls| - 1]) && keys != [] && keys[|keys| - 1].line == |body| + 1
    requires WellPlaced(keys, |body| + 1)
    ensures var fin := body + ls + [""];
            WellPlaced(keys, |fin|) && Edited(fin, keys, |keys| - 1, b2) == Join(body) + b2
  {
    var fin, k := body + ls + [""], |keys| - 1;
    WellPlacedMore(keys, |body| + 1, |fin|);
    assert Start(keys, k) == |body| && Reach(keys, fin, k) == |fin| - 1;
    assert End(keys, fin, k) == |body| + |ls| - 1 by {
      LastBlock(body, ls);
    }
    assert Edited(fin, keys, k, b2) == Spliced(fin, |body|, |body| + |ls| - 1, b2);
    SpliceLast(body, ls, b2);
  }

  lemma WellPlacedMore(keys: seq<Key>, m: nat, n: nat)
    requires WellPlaced(keys, m) && m <= n
    ensures WellPlaced(keys, n)
  {
  }

  lemma PutLast(w: string, body: seq<string>, keys: seq<Key>, name: string, b1: string, b2: string)
    requires Join(body) == w && Block(b1) && Split(w + b1) == body + Split(b1)
    requires keys != [] && IndexOf(keys, name, |keys| - 1) && keys[|keys| - 1] == Key(name, |body| + 1, 1)
    requires WellPlaced(keys, |body| + 1)
    ensures InPlace(w + b1, Mapping(keys), name, |keys| - 1)
    ensures Edited(Split(w + b1), keys, |keys| - 1, b2) == w + b2
  {
    BlockSplit(b1);
    Assoc(body, BlockLines(b1), [""]);
    EditLast(body, keys, BlockLines(b1), b2);
  }

  /** Writing after an appending write replaces what was appended. */
  lemma PutPutAppended(data: string, doc: Doc, name: string, b1: string, b2: string)
    requires Appends(doc, name) && Placed(doc, data) && Block(b1)
    requires WellPlaced(WithKey(data, doc, name), |Split(WithTrailingNewline(data))|)
    ensures var out := WithTrailingNewline(data) + b1;
            var grown := Mapping(WithKey(data, doc, name));
            && Replaced(data, doc, name, b1) == Ok(out)
            && Placed(grown, out) && Replaced(out, grown, name, b2) == Replaced(data, doc, name, b2)
  {
    AppendsIs(data, doc, name, b1);
    AppendsIs(data, doc, name, b2);
    AppendedInPlace(data, doc, name, b1, b2);
    var keys := WithKey(data, doc, name);
    InPlaceIs(WithTrailingNewline(data) + b1, Mapping(keys), name, |keys| - 1, b2);
  }

  lemma AppendedInPlace(data: string, doc: Doc, name: string, b1: string, b2: string)
    requires Appends(doc, name) && Block(b1)
    requires WellPlaced(WithKey(data, doc, name), |Split(WithTrailingNewline(data))|)
    ensures var w, keys := WithTrailingNewline(data), WithKey(data, doc, name);
            && InPlace(w + b1, Mapping(keys), name, |keys| - 1)
            && Edited(Split(w + b1), keys, |keys| - 1, b2) == w + b2
  {
    var w := WithTrailingNewline(data);
    var body := Split(w)[..|Split(w)| - 1];
    CompleteFile(w);
    AppendedLines(w, body, b1);
    LastKey(if doc.Empty? then [] else doc.keys, name, |Split(w)|);
    PutLast(w, body, WithKey(data, doc, name), name, b1, b2);
  }

  lemma PrefixDropped(w: string, a: string, b: string)
    requires w + a == w + b
    ensures a == b
  {
    assert a == (w + a)[|w|..] && b == (w + b)[|w|..];
  }

  /** The section an appending write made reads as the block. */
  lemma PutGetAppended(data: string, doc: Doc, name: string, block: string)
    requires Appends(doc, name) && Placed(doc, data) && Block(block)
    requires WellPlaced(WithKey(data, doc, name), |Split(WithTrailingNewline(data))|)
    ensures var out, keys := WithTrailingNewline(data) + block, WithKey(data, doc, name);
            InPlace(out, Mapping(keys), name, |keys| - 1) && Section(out, keys, |keys| - 1) == block
  {
    var w, keys := WithTrailingNewline(data), WithKey(data, doc, name);
    AppendedInPlace(data, doc, name, block, block);
    var back := Section(w + block, keys, |keys| - 1);
    GetPut(w + block, Mapping(keys), name, |keys| - 1);
    PutPutAppended(data, doc, name, block, back);
    AppendsIs(data, doc, name, back);
    PrefixDropped(w, back, block);
  }

  /**
   What the write comes to by the parser's answer: the three errors, and the block behind
   the file, which gets its last newline, when there is no such key.
   */
  lemma WriteOutcomes(data: string, doc: Doc, name: string, block: string)
    requires Placed(doc, data)
    ensures doc.Unparsable? ==> Replaced(data, doc, name, block) == Err(ParseError)
    ensures doc.NotMapping? ==> Replaced(data, doc, name, block) == Err(RootNotMapping)
    ensures doc.Empty? || (doc.Mapping? && forall i :: 0 <= i < |doc.keys| ==> doc.keys[i].name != name) ==>
              Replaced(data, doc, name, block)
              == Ok(if data == "" || data[|data| - 1] == '\n' then data + block else data + "\n" + block)
    ensures doc.Mapping? ==> forall k: nat :: IndexOf(doc.keys, name, k) && doc.keys[k].column != 1 ==>
              Replaced(data, doc, name, block) == Err(KeyNotAtColumnOne)
    ensures doc.Mapping? ==> forall k: nat :: IndexOf(doc.keys, name, k) && doc.keys[k].column == 1 ==> Replaced(data, doc, name, block).Ok?
  {
    if Appends(doc, name) {
      AppendsIs(data, doc, name, block);
    }
    if doc.Mapping? {
      forall k: nat | IndexOf(doc.keys, name, k) ensures Find(doc.keys, name) == Some(k) {
        FindIs(doc.keys, name, k);
      }
    }
  }
}
