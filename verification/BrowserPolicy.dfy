/**
 Browser policies and their undo journal (internal/browserpolicy/browserpolicy.go),
 over a file tree: policy files of its own and one key of a shared JSON file.
 */
module BrowserPolicy {
  import opened Wrappers

  /** A path from the root, which is []. */
  type Path = seq<string>

  datatype Value = Obj(fields: map<string, Value>) | Atom(text: string)

  type Doc = map<string, Value>

  /** Text is a file that is not JSON. */
  datatype Node = Dir | Json(doc: Doc) | Text

  type Tree = map<Path, Node>

  function Parent(p: Path): Path
    requires p != []
  {
    p[..|p| - 1]
  }

  /** Everything lies in a directory. */
  ghost predicate WellFormed(fs: Tree)
  {
    && [] in fs && fs[[]].Dir?
    && forall p :: p in fs && p != [] ==> Parent(p) in fs && fs[Parent(p)].Dir?
  }

  // ----------------------------------------------------------------- directories

  /** The directories missing on the way to dir, deepest first. */
  function Missing(fs: Tree, dir: Path): seq<Path>
    requires [] in fs
    decreases |dir|
  {
    if dir in fs then [] else [dir] + Missing(fs, Parent(dir))
  }

  lemma MissingStep(before: seq<Path>, fs: Tree, d: Path)
    requires [] in fs && d !in fs
    ensures before + [d] + Missing(fs, Parent(d)) == before + Missing(fs, d)
  {
  }

  /** The deepest existing path on the way to dir. */
  function Nearest(fs: Tree, dir: Path): (p: Path)
    requires [] in fs
    ensures p in fs
    decreases |dir|
  {
    if dir in fs then dir else Nearest(fs, Parent(dir))
  }

  function WithDirs(fs: Tree, dirs: seq<Path>): Tree
  {
    if dirs == [] then fs else WithDirs(fs, dirs[1..])[dirs[0] := Dir]
  }

  predicate HasChild(fs: Tree, d: Path)
  {
    exists p | p in fs :: p != [] && Parent(p) == d
  }

  /** os.Remove on a directory: only an empty one goes. */
  function WithoutEmpty(fs: Tree, d: Path): Tree
  {
    if d in fs && !HasChild(fs, d) then fs - {d} else fs
  }

  function WithoutDirs(fs: Tree, dirs: seq<Path>): Tree
    decreases |dirs|
  {
    if dirs == [] then fs else WithoutDirs(WithoutEmpty(fs, dirs[0]), dirs[1..])
  }

  ghost predicate Chain(dirs: seq<Path>)
  {
    && (forall i :: 0 <= i < |dirs| ==> dirs[i] != [])
    && forall i :: 0 < i < |dirs| ==> dirs[i] == Parent(dirs[i - 1])
  }

  lemma {:induction false} MissingIs(fs: Tree, dir: Path)
    requires [] in fs
    ensures var ds := Missing(fs, dir);
            && Chain(ds) && (forall d :: d in ds ==> d !in fs && |d| <= |dir|)
            && (ds != [] ==> ds[0] == dir && Parent(ds[|ds| - 1]) == Nearest(fs, dir))
            && (ds == [] ==> Nearest(fs, dir) == dir)
    decreases |dir|
  {
    if dir !in fs {
      MissingIs(fs, Parent(dir));
      var ds, rest := Missing(fs, dir), Missing(fs, Parent(dir));
      forall i | 0 < i < |ds| ensures ds[i] == Parent(ds[i - 1]) {
        assert ds[i] == rest[i - 1];
        assert i > 1 ==> ds[i - 1] == rest[i - 2];
      }
    }
  }

  lemma {:induction false} WithDirsIs(fs: Tree, dirs: seq<Path>)
    ensures var t := WithDirs(fs, dirs);
            && (forall p :: p in t <==> p in fs || p in dirs)
            && (forall p :: p in dirs ==> t[p] == Dir)
            && (forall p :: p in fs && p !in dirs ==> t[p] == fs[p])
  {
    if dirs != [] {
      WithDirsIs(fs, dirs[1..]);
      assert dirs == [dirs[0]] + dirs[1..];
    }
  }

  /** Making the missing directories of a path keeps the tree well-formed. */
  lemma MkdirKeeps(fs: Tree, dir: Path)
    requires WellFormed(fs) && fs[Nearest(fs, dir)].Dir?
    ensures var t := WithDirs(fs, Missing(fs, dir)); WellFormed(t) && dir in t && t[dir].Dir?
  {
    var ds := Missing(fs, dir);
    MissingIs(fs, dir);
    WithDirsIs(fs, ds);
    var t := WithDirs(fs, ds);
    forall p | p in t && p != [] ensures Parent(p) in t && t[Parent(p)].Dir? {
      if p !in fs {
        var i :| 0 <= i < |ds| && ds[i] == p;
        if i + 1 < |ds| {
          var j := i + 1;
          assert ds[j] == Parent(ds[j - 1]);
        }
      }
    }
  }

  /** The deepest of the directories made is nobody's parent. */
  lemma NothingBelow(fs: Tree, t: Tree, dirs: seq<Path>)
    requires WellFormed(fs) && Chain(dirs) && dirs != [] && dirs[0] !in fs
    requires forall p :: p in t <==> p in fs || p in dirs
    ensures forall p :: p in t && p != [] ==> Parent(p) != dirs[0]
  {
    forall p | p in t && p != [] ensures Parent(p) != dirs[0] {
      if p in fs {
        assert Parent(p) in fs;
      } else {
        var i :| 0 <= i < |dirs| && dirs[i] == p;
        ChainShrinks(dirs, i);
      }
    }
  }

  /** A tree that holds fs and a chain of new directories in it loses exactly these, deepest first. */
  lemma {:induction false} DirsGo(fs: Tree, t: Tree, dirs: seq<Path>)
    requires WellFormed(fs) && Chain(dirs)
    requires forall d :: d in dirs ==> d !in fs
    requires forall p :: p in t <==> p in fs || p in dirs
    ensures WithoutDirs(t, dirs) == map p | p in fs && p in t :: t[p]
    decreases |dirs|
  {
    if dirs == [] {
      assert t.Keys == fs.Keys;
    } else {
      var d := dirs[0];
      NothingBelow(fs, t, dirs);
      var u := t - {d};
      forall p | p in dirs[1..] ensures p != d {
        var i :| 0 <= i < |dirs| - 1 && dirs[1..][i] == p;
        ChainShrinks(dirs, i + 1);
      }
      forall p ensures p in u <==> p in fs || p in dirs[1..] {
        assert dirs == [d] + dirs[1..];
      }
      ChainTail(dirs);
      DirsGo(fs, u, dirs[1..]);
    }
  }

  /** Removing directories takes only listed ones, and none that holds something. */
  lemma {:induction false} OnlyEmptyDirsGo(fs: Tree, dirs: seq<Path>)
    requires WellFormed(fs) && [] !in dirs
    ensures var r := WithoutDirs(fs, dirs);
            && WellFormed(r) && (forall p :: p in r ==> p in fs && r[p] == fs[p])
            && (forall p :: p in fs && p !in r ==> p in dirs)
    decreases |dirs|
  {
    if dirs != [] {
      var u := WithoutEmpty(fs, dirs[0]);
      assert WellFormed(u);
      OnlyEmptyDirsGo(u, dirs[1..]);
    }
  }

  lemma ChainTail(dirs: seq<Path>)
    requires Chain(dirs) && dirs != []
    ensures Chain(dirs[1..])
  {
    var r := dirs[1..];
    forall i | 0 < i < |r| ensures r[i] == Parent(r[i - 1]) {
      assert r[i] == dirs[i + 1] && r[i - 1] == dirs[i];
      var j := i + 1;
      assert dirs[j] == Parent(dirs[j - 1]);
    }
  }

  lemma {:induction false} ChainShrinks(dirs: seq<Path>, i: nat)
    requires Chain(dirs) && i < |dirs|
    ensures |dirs[i]| == |dirs[0]| - i
    decreases i
  {
    if i > 0 {
      ChainShrinks(dirs, i - 1);
    }
  }

  // --------------------------------------------------------------- one change

  const POLICIES := "policies"
  const DNS_KEY := "DNSOverHTTPS"
  const DNS_OFF := Obj(map["Enabled" := Atom("false"), "Locked" := Atom("true")])

  datatype Target = Owned(path: Path, policy: Doc) | Firefox(path: Path)

  /** The journal entry of a change. */
  datatype Undo =
    | UndoFile(path: Path, dirs: seq<Path>)
    | UndoKey(path: Path, existed: bool, prev: Option<Value>, dirs: seq<Path>)

  datatype Error = AlreadyExists | MkdirFailed | WriteFailed | ReadFailed | NotJson | AlreadyApplied | NoBrowser | NotApplied

  /** The policies object of a document; anything else counts as an empty one. */
  function PoliciesOf(doc: Doc): map<string, Value>
  {
    if POLICIES in doc && doc[POLICIES].Obj? then doc[POLICIES].fields else map[]
  }

  function WithPolicies(doc: Doc, pol: map<string, Value>): Doc { doc[POLICIES := Obj(pol)] }

  /** What stops a target before it is written. */
  function Obstacle(fs: Tree, t: Target): Option<Error>
    requires WellFormed(fs)
  {
    if t.path in fs then
      if t.Owned? then Some(AlreadyExists)
      else if fs[t.path].Dir? then Some(ReadFailed)
      else if fs[t.path].Text? then Some(NotJson)
      else None
    else if !fs[Nearest(fs, Parent(t.path))].Dir? then Some(MkdirFailed)
    else None
  }

  /** The tree with one target's policy in place. */
  function Written(fs: Tree, t: Target): Tree
    requires WellFormed(fs) && Obstacle(fs, t).None?
  {
    if t.path in fs then
      var doc := fs[t.path].doc;
      fs[t.path := Json(WithPolicies(doc, PoliciesOf(doc)[DNS_KEY := DNS_OFF]))]
    else
      WithDirs(fs, Missing(fs, Parent(t.path)))[t.path :=
        Json(if t.Owned? then t.policy else map[POLICIES := Obj(map[DNS_KEY := DNS_OFF])])]
  }

  /** Its journal entry. */
  function UndoOf(fs: Tree, t: Target): Undo
    requires WellFormed(fs) && Obstacle(fs, t).None?
  {
    if t.Owned? then UndoFile(t.path, Missing(fs, Parent(t.path)))
    else if t.path in fs then
      var pol := PoliciesOf(fs[t.path].doc);
      UndoKey(t.path, true, if DNS_KEY in pol then Some(pol[DNS_KEY]) else None, [])
    else UndoKey(t.path, false, None, Missing(fs, Parent(t.path)))
  }

  function OldPolicies(pol: map<string, Value>, prev: Option<Value>): map<string, Value>
  {
    if prev.Some? then pol[DNS_KEY := prev.value] else pol - {DNS_KEY}
  }

  /** revertFile; what it cannot revert it leaves. */
  function Reverted(fs: Tree, u: Undo): Tree
  {
    if u.UndoFile? then
      if u.path in fs && fs[u.path].Dir? && HasChild(fs, u.path) then fs
      else WithoutDirs(fs - {u.path}, u.dirs)
    else if u.path !in fs || !fs[u.path].Json? then fs
    else
      var doc := fs[u.path].doc;
      var pol := OldPolicies(PoliciesOf(doc), u.prev);
      if !u.existed && |pol| == 0 && |doc| == 1 then WithoutDirs(fs - {u.path}, u.dirs)
      else fs[u.path := Json(WithPolicies(doc, pol))]
  }

  /** Whether revertFile can undo the change here. */
  predicate Revertible(fs: Tree, u: Undo)
  {
    if u.UndoFile? then !(u.path in fs && fs[u.path].Dir? && HasChild(fs, u.path))
    else u.path in fs ==> fs[u.path].Json?
  }

  /** The tree with the documents at the given paths given a policies object, if they had none. */
  function Normalised(fs: Tree, paths: set<Path>): Tree
  {
    map p | p in fs :: if p in paths && fs[p].Json? then Json(WithPolicies(fs[p].doc, PoliciesOf(fs[p].doc))) else fs[p]
  }

  function SharedPath(t: Target): set<Path> { if t.Firefox? then {t.path} else {} }

  lemma WrittenKeeps(fs: Tree, t: Target)
    requires WellFormed(fs) && Obstacle(fs, t).None?
    ensures WellFormed(Written(fs, t))
  {
    if t.path !in fs {
      MkdirKeeps(fs, Parent(t.path));
      var dirs := Missing(fs, Parent(t.path));
      var d := WithDirs(fs, dirs);
      MissingIs(fs, Parent(t.path));
      WithDirsIs(fs, dirs);
      assert t.path !in d;
      forall p | p in Written(fs, t) && p != [] ensures Parent(p) in Written(fs, t) && Written(fs, t)[Parent(p)].Dir? {
        if p in d {
          assert Parent(p) in d && Parent(p) != t.path;
        }
      }
    } else {
      forall p | p in fs && p != [] ensures Parent(p) != t.path {
        assert fs[Parent(p)].Dir?;
      }
    }
  }

  lemma DirsGoTo(fs: Tree, z: Tree, dirs: seq<Path>, w: Tree)
    requires WellFormed(fs) && Chain(dirs)
    requires forall d :: d in dirs ==> d !in fs
    requires forall p :: p in z <==> p in fs || p in dirs
    requires w.Keys == fs.Keys && forall p :: p in fs ==> z[p] == w[p]
    ensures WithoutDirs(z, dirs) == w
  {
    DirsGo(fs, z, dirs);
    assert (map p | p in fs && p in z :: z[p]) == w;
  }

  /** Removing a new file and then its new directories gives the old tree. */
  lemma NewFileGoes(fs: Tree, path: Path, node: Node, paths: set<Path>)
    requires WellFormed(fs) && path !in fs && fs[Nearest(fs, Parent(path))].Dir?
    ensures var dirs := Missing(fs, Parent(path));
            var y := Normalised(WithDirs(fs, dirs)[path := node], paths);
            WithoutDirs(y - {path}, dirs) == Normalised(fs, paths)
  {
    var dirs := Missing(fs, Parent(path));
    MissingIs(fs, Parent(path));
    WithDirsIs(fs, dirs);
    var x := WithDirs(fs, dirs)[path := node];
    var z := Normalised(x, paths) - {path};
    assert path !in dirs;
    forall p ensures p in z <==> p in fs || p in dirs {
      assert p in x <==> p in fs || p in dirs || p == path;
    }
    forall p | p in fs ensures z[p] == Normalised(fs, paths)[p] {
      assert x[p] == fs[p];
    }
    DirsGoTo(fs, z, dirs, Normalised(fs, paths));
  }

  /** The document written for a shared file that was not there holds nothing else. */
  lemma FreshDoc(doc: Doc)
    requires doc == map[POLICIES := Obj(map[DNS_KEY := DNS_OFF])]
    ensures WithPolicies(doc, PoliciesOf(doc)) == doc
    ensures OldPolicies(PoliciesOf(doc), None) == map[] && |doc| == 1
  {
    assert doc.Keys == {POLICIES} && |doc| == |doc.Keys|;
  }

  lemma UndoNewFile(fs: Tree, t: Target, paths: set<Path>)
    requires WellFormed(fs) && Obstacle(fs, t).None? && t.path !in fs
    ensures Reverted(Normalised(Written(fs, t), paths), UndoOf(fs, t)) == Normalised(fs, paths)
  {
    var y := Normalised(Written(fs, t), paths);
    NewFileGoes(fs, t.path, Written(fs, t)[t.path], paths);
    assert t.path in y && y[t.path].Json?;
    if t.Firefox? {
      var doc: Doc := map[POLICIES := Obj(map[DNS_KEY := DNS_OFF])];
      FreshDoc(doc);
      assert y[t.path] == Json(doc);
    }
  }

  lemma UndoOldFile(fs: Tree, t: Target, paths: set<Path>)
    requires WellFormed(fs) && Obstacle(fs, t).None? && t.path in fs
    ensures Reverted(Normalised(Written(fs, t), paths), UndoOf(fs, t)) == Normalised(fs, paths + {t.path})
  {
    var y := Normalised(Written(fs, t), paths);
    var doc := fs[t.path].doc;
    var pol := PoliciesOf(doc);
    var doc1 := WithPolicies(doc, pol[DNS_KEY := DNS_OFF]);
    assert WithPolicies(doc1, PoliciesOf(doc1)) == doc1;
    assert y[t.path] == Json(doc1);
    assert OldPolicies(PoliciesOf(doc1), UndoOf(fs, t).prev) == pol;
    assert WithPolicies(doc1, pol) == WithPolicies(doc, pol);
    var r := Reverted(y, UndoOf(fs, t));
    assert r == y[t.path := Json(WithPolicies(doc, pol))];
  }

  /** Undoing a change right after it, or after later changes were undone, gives the tree before it. */
  lemma UndoStep(fs: Tree, t: Target, paths: set<Path>)
    requires WellFormed(fs) && Obstacle(fs, t).None?
    ensures Reverted(Normalised(Written(fs, t), paths), UndoOf(fs, t)) == Normalised(fs, paths + SharedPath(t))
  {
    if t.path !in fs {
      assert Normalised(fs, paths + SharedPath(t)) == Normalised(fs, paths);
      UndoNewFile(fs, t, paths);
    } else {
      UndoOldFile(fs, t, paths);
    }
  }

  // ---------------------------------------------------------------- whole runs

  /** Every target of the list can be written in turn. */
  ghost predicate Unobstructed(fs: Tree, ts: seq<Target>)
    requires WellFormed(fs)
    decreases |ts|
  {
    ts == [] || (Obstacle(fs, ts[0]).None? && (WrittenKeeps(fs, ts[0]); Unobstructed(Written(fs, ts[0]), ts[1..])))
  }

  ghost function AllWritten(fs: Tree, ts: seq<Target>): (r: Tree)
    requires WellFormed(fs) && Unobstructed(fs, ts)
    ensures WellFormed(r)
    decreases |ts|
  {
    if ts == [] then fs
    else
      WrittenKeeps(fs, ts[0]);
      AllWritten(Written(fs, ts[0]), ts[1..])
  }

  ghost function Journal(fs: Tree, ts: seq<Target>): seq<Undo>
    requires WellFormed(fs) && Unobstructed(fs, ts)
    decreases |ts|
  {
    if ts == [] then []
    else
      WrittenKeeps(fs, ts[0]);
      [UndoOf(fs, ts[0])] + Journal(Written(fs, ts[0]), ts[1..])
  }

  /** rollback: the last change first. */
  function RolledBack(fs: Tree, us: seq<Undo>): Tree
    decreases |us|
  {
    if us == [] then fs else RolledBack(Reverted(fs, us[|us| - 1]), us[..|us| - 1])
  }

  /** Every change of the journal can be undone, the last first. */
  predicate RollbackWorks(fs: Tree, us: seq<Undo>)
    decreases |us|
  {
    us == [] || (Revertible(fs, us[|us| - 1]) && RollbackWorks(Reverted(fs, us[|us| - 1]), us[..|us| - 1]))
  }

  ghost function SharedPaths(ts: seq<Target>): set<Path>
    decreases |ts|
  {
    if ts == [] then {} else SharedPaths(ts[1..]) + SharedPath(ts[0])
  }

  lemma {:induction false} MissingAre(fs: Tree, dir: Path, p: Path)
    requires WellFormed(fs)
    ensures p in Missing(fs, dir) <==> p !in fs && p <= dir
    decreases |dir|
  {
    if dir in fs {
      AncestorsThere(fs, dir, p);
    } else {
      MissingAre(fs, Parent(dir), p);
      assert p <= dir <==> p == dir || p <= Parent(dir);
    }
  }

  lemma {:induction false} AncestorsThere(fs: Tree, q: Path, p: Path)
    requires WellFormed(fs) && q in fs
    ensures p <= q ==> p in fs
    decreases |q|
  {
    if p <= q && p != q {
      AncestorsThere(fs, Parent(q), p);
    }
  }

  /** The policies among the entries of a document. */
  function Among(doc: Doc): Doc { if "policies" in doc && doc["policies"].Obj? then doc["policies"].fields else map[] }

  /** DNS over HTTPS switched off and locked among the policies; every other policy and entry as it was. */
  ghost predicate OnlyDNSOff(was: Doc, doc: Doc)
  {
    && doc.Keys == was.Keys + {"policies"} && (forall k :: k in was && k != "policies" ==> doc[k] == was[k])
    && doc["policies"].Obj?
    && Among(doc).Keys == Among(was).Keys + {"DNSOverHTTPS"}
    && (forall k :: k in Among(was) && k != "DNSOverHTTPS" ==> Among(doc)[k] == Among(was)[k])
    && Among(doc)["DNSOverHTTPS"] == Obj(map["Enabled" := Atom("false"), "Locked" := Atom("true")])
  }

  lemma SharedDoc(was: Doc)
    ensures OnlyDNSOff(was, WithPolicies(was, PoliciesOf(was)[DNS_KEY := DNS_OFF]))
  {
    var doc := WithPolicies(was, PoliciesOf(was)[DNS_KEY := DNS_OFF]);
    assert Among(doc) == Among(was)[DNS_KEY := DNS_OFF];
  }

  /**
   What writing a target does. The path and the directories missing on the way to it are
   new, all else stays. A file of its own holds the policy; in a shared one only DNS over
   HTTPS changes.
   */
  lemma WrittenMeaning(fs: Tree, t: Target)
    requires WellFormed(fs) && Obstacle(fs, t).None?
    ensures var w := Written(fs, t);
            && (forall p :: p in w <==> p in fs || p <= t.path)
            && (forall p :: p in fs && p != t.path ==> w[p] == fs[p])
            && (forall p :: p in w && p !in fs && p != t.path ==> w[p] == Dir)
            && t.path in w && w[t.path].Json?
            && (t.Owned? ==> t.path !in fs && w[t.path].doc == t.policy)
            && (t.Firefox? ==> OnlyDNSOff(if t.path in fs then fs[t.path].doc else map[], w[t.path].doc))
  {
    forall p ensures p in Written(fs, t) <==> p in fs || p <= t.path {
      WrittenPaths(fs, t, p);
    }
    WrittenNodes(fs, t);
    WrittenDocs(fs, t);
  }

  lemma WrittenNodes(fs: Tree, t: Target)
    requires WellFormed(fs) && Obstacle(fs, t).None?
    ensures var w := Written(fs, t);
            && (forall p :: p in fs && p != t.path ==> p in w && w[p] == fs[p])
            && (forall p :: p in w && p !in fs && p != t.path ==> w[p] == Dir)
  {
    if t.path !in fs {
      var dirs := Missing(fs, Parent(t.path));
      WithDirsIs(fs, dirs);
      MissingIs(fs, Parent(t.path));
    }
  }

  lemma WrittenDocs(fs: Tree, t: Target)
    requires WellFormed(fs) && Obstacle(fs, t).None?
    ensures var w := Written(fs, t);
            && t.path in w && w[t.path].Json?
            && (t.Owned? ==> t.path !in fs && w[t.path].doc == t.policy)
            && (t.Firefox? ==> OnlyDNSOff(if t.path in fs then fs[t.path].doc else map[], w[t.path].doc))
  {
    if t.path in fs {
      SharedDoc(fs[t.path].doc);
    } else {
      NewDoc();
    }
  }

  lemma NewDoc()
    ensures OnlyDNSOff(map[], map[POLICIES := Obj(map[DNS_KEY := DNS_OFF])])
  {
  }

  lemma WrittenPaths(fs: Tree, t: Target, p: Path)
    requires WellFormed(fs) && Obstacle(fs, t).None?
    ensures p in Written(fs, t) <==> p in fs || p <= t.path
  {
    if t.path in fs {
      AncestorsThere(fs, t.path, p);
    } else {
      WithDirsIs(fs, Missing(fs, Parent(t.path)));
      MissingAre(fs, Parent(t.path), p);
      assert p <= t.path <==> p == t.path || p <= Parent(t.path);
    }
  }

  /**
   Undoing a key in a file that others have changed since: only the key goes back to what it
   was; a file that was not there before goes when nothing else is left in it.
   */
  lemma KeyUndoMeaning(fs: Tree, u: Undo)
    requires u.UndoKey? && u.path in fs && fs[u.path].Json?
    ensures var r, was := Reverted(fs, u), fs[u.path].doc;
            var before: Doc := if "policies" in was && was["policies"].Obj? then was["policies"].fields else map[];
            var rest := before - {"DNSOverHTTPS"};
            var pol := if u.prev.Some? then rest["DNSOverHTTPS" := u.prev.value] else rest;
            if !u.existed && pol == map[] && |was| == 1 then r == WithoutDirs(fs - {u.path}, u.dirs)
            else r == fs[u.path := Json(was["policies" := Obj(pol)])]
  {
    var was := fs[u.path].doc;
    var before := PoliciesOf(was);
    assert u.prev.Some? ==> before["DNSOverHTTPS" := u.prev.value] == (before - {"DNSOverHTTPS"})["DNSOverHTTPS" := u.prev.value];
    assert |OldPolicies(before, u.prev)| == 0 <==> OldPolicies(before, u.prev) == map[];
  }

  lemma {:induction false} RolledBackFirst(fs: Tree, u: Undo, us: seq<Undo>)
    ensures RolledBack(fs, [u] + us) == Reverted(RolledBack(fs, us), u)
    decreases |us|
  {
    var all := [u] + us;
    if us == [] {
      assert all == [u] && all[..0] == [];
      assert RolledBack(Reverted(fs, u), []) == Reverted(fs, u);
    } else {
      var n := |us| - 1;
      assert all[..|all| - 1] == [u] + us[..n];
      RolledBackFirst(Reverted(fs, us[n]), u, us[..n]);
    }
  }

  lemma {:induction false} RollbackWorksFirst(fs: Tree, u: Undo, us: seq<Undo>)
    ensures RollbackWorks(fs, [u] + us) <==> RollbackWorks(fs, us) && Revertible(RolledBack(fs, us), u)
    decreases |us|
  {
    var all := [u] + us;
    if us == [] {
      assert all == [u] && all[..0] == [];
      assert RollbackWorks(Reverted(fs, u), []);
    } else {
      var n := |us| - 1;
      assert all[..|all| - 1] == [u] + us[..n];
      RollbackWorksFirst(Reverted(fs, us[n]), u, us[..n]);
    }
  }

  /** What a run of Apply journaled can be undone in full. */
  lemma {:induction false} JournalWorks(fs: Tree, ts: seq<Target>, paths: set<Path>)
    requires WellFormed(fs) && Unobstructed(fs, ts)
    ensures RollbackWorks(Normalised(AllWritten(fs, ts), paths), Journal(fs, ts))
    decreases |ts|
  {
    if ts != [] {
      WrittenKeeps(fs, ts[0]);
      var next, rest := Written(fs, ts[0]), ts[1..];
      JournalWorks(next, rest, paths);
      JournalUndoes(next, rest, paths);
      RollbackWorksFirst(Normalised(AllWritten(next, rest), paths), UndoOf(fs, ts[0]), Journal(next, rest));
      assert ts[0].path in next && next[ts[0].path].Json?;
    }
  }

  lemma {:induction false} JournalUndoes(fs: Tree, ts: seq<Target>, paths: set<Path>)
    requires WellFormed(fs) && Unobstructed(fs, ts)
    ensures RolledBack(Normalised(AllWritten(fs, ts), paths), Journal(fs, ts)) == Normalised(fs, paths + SharedPaths(ts))
    decreases |ts|
  {
    if ts == [] {
      assert paths + SharedPaths(ts) == paths;
    } else {
      WrittenKeeps(fs, ts[0]);
      var next, rest := Written(fs, ts[0]), ts[1..];
      var y := Normalised(AllWritten(next, rest), paths);
      JournalUndoes(next, rest, paths);
      RolledBackFirst(y, UndoOf(fs, ts[0]), Journal(next, rest));
      UndoStep(fs, ts[0], paths + SharedPaths(rest));
      assert paths + SharedPaths(rest) + SharedPath(ts[0]) == paths + SharedPaths(ts);
    }
  }

  /** A shared file that has a policies object, so that nothing of it is lost. */
  predicate HasPolicies(fs: Tree, p: Path)
  {
    p in fs && fs[p].Json? ==> POLICIES in fs[p].doc && fs[p].doc[POLICIES].Obj?
  }

  /**
   Rolling the whole journal back gives the old tree, except that a shared file that
   had no policies object now has an empty one; so it gives exactly the old tree if
   and only if every shared file had one.
   */
  lemma RollbackRestores(fs: Tree, ts: seq<Target>)
    requires WellFormed(fs) && Unobstructed(fs, ts)
    ensures RolledBack(AllWritten(fs, ts), Journal(fs, ts)) == Normalised(fs, SharedPaths(ts))
    ensures RolledBack(AllWritten(fs, ts), Journal(fs, ts)) == fs <==> forall p :: p in SharedPaths(ts) ==> HasPolicies(fs, p)
    ensures RollbackWorks(AllWritten(fs, ts), Journal(fs, ts))
  {
    var w := AllWritten(fs, ts);
    assert Normalised(w, {}) == w;
    JournalWorks(fs, ts, {});
    JournalUndoes(fs, ts, {});
    assert {} + SharedPaths(ts) == SharedPaths(ts);
    NormalisedIsSame(fs, SharedPaths(ts));
  }

  /** A shared file holding {} comes back as {"policies": {}}. */
  lemma EmptyFileChanges()
    ensures var fs: Tree := map[[] := Dir, ["p"] := Json(map[])];
            var ts := [Firefox(["p"])];
            && WellFormed(fs) && Unobstructed(fs, ts)
            && RolledBack(AllWritten(fs, ts), Journal(fs, ts)) == fs[["p"] := Json(map[POLICIES := Obj(map[])])] != fs
  {
    var fs: Tree := map[[] := Dir, ["p"] := Json(map[])];
    var t := Firefox(["p"]);
    OneTarget(fs, t);
    RollbackRestores(fs, [t]);
    assert !HasPolicies(fs, ["p"]);
    assert WithPolicies(map[], PoliciesOf(map[])) == map[POLICIES := Obj(map[])];
  }

  /** A single shared file. */
  lemma OneTarget(fs: Tree, t: Target)
    requires fs == map[[] := Dir, t.path := Json(map[])] && t == Firefox(["p"])
    ensures WellFormed(fs) && Unobstructed(fs, [t]) && SharedPaths([t]) == {t.path}
  {
    assert Parent(["p"]) == [];
    assert Obstacle(fs, t).None?;
    WrittenKeeps(fs, t);
    assert [t][1..] == [];
    assert Unobstructed(Written(fs, t), []);
    assert SharedPaths([t]) == SharedPaths([]) + {t.path} == {t.path};
  }

  lemma NormalisedIsSame(fs: Tree, paths: set<Path>)
    ensures Normalised(fs, paths) == fs <==> forall p :: p in paths ==> HasPolicies(fs, p)
  {
    var n := Normalised(fs, paths);
    if n == fs {
      forall p | p in paths ensures HasPolicies(fs, p) {
        if p in fs && fs[p].Json? {
          assert n[p] == Json(WithPolicies(fs[p].doc, PoliciesOf(fs[p].doc)));
          assert WithPolicies(fs[p].doc, PoliciesOf(fs[p].doc))[POLICIES] == Obj(PoliciesOf(fs[p].doc));
        }
      }
    }
    if forall p :: p in paths ==> HasPolicies(fs, p) {
      forall p | p in fs ensures n[p] == fs[p] {
        if p in paths && fs[p].Json? {
          assert HasPolicies(fs, p);
          assert WithPolicies(fs[p].doc, PoliciesOf(fs[p].doc)) == fs[p].doc;
        }
      }
    }
  }

  lemma {:induction false} WrittenStep(fs: Tree, ts: seq<Target>, t: Target)
    requires WellFormed(fs) && Unobstructed(fs, ts)
    ensures Obstacle(AllWritten(fs, ts), t).None? <==> Unobstructed(fs, ts + [t])
    ensures Obstacle(AllWritten(fs, ts), t).None? ==>
              && AllWritten(fs, ts + [t]) == Written(AllWritten(fs, ts), t)
              && Journal(fs, ts + [t]) == Journal(fs, ts) + [UndoOf(AllWritten(fs, ts), t)]
    decreases |ts|
  {
    if ts == [] {
      assert ts + [t] == [t] && [t][1..] == [];
      if Obstacle(fs, t).None? {
        WrittenKeeps(fs, t);
      }
    } else {
      WrittenKeeps(fs, ts[0]);
      assert (ts + [t])[1..] == ts[1..] + [t];
      WrittenStep(Written(fs, ts[0]), ts[1..], t);
    }
  }

  /** Which calls work for one target. */
  datatype IO = IO(mkdir: bool, write: bool)

  predicate CanDo(fs: Tree, t: Target, io: IO)
    requires WellFormed(fs)
  {
    Obstacle(fs, t).None? && io.write && (t.path in fs || io.mkdir)
  }

  /** The position of the first target that fails, or the number of targets. */
  ghost function Stops(fs: Tree, ts: seq<Target>, io: seq<IO>): nat
    requires WellFormed(fs) && |io| == |ts|
    decreases |ts|
  {
    if ts == [] || !CanDo(fs, ts[0], io[0]) then 0
    else
      WrittenKeeps(fs, ts[0]);
      1 + Stops(Written(fs, ts[0]), ts[1..], io[1..])
  }

  lemma {:induction false} StopsIn(fs: Tree, ts: seq<Target>, io: seq<IO>)
    requires WellFormed(fs) && |io| == |ts|
    ensures var n := Stops(fs, ts, io); n <= |ts| && Unobstructed(fs, ts[..n])
    decreases |ts|
  {
    if ts != [] && CanDo(fs, ts[0], io[0]) {
      WrittenKeeps(fs, ts[0]);
      StopsIn(Written(fs, ts[0]), ts[1..], io[1..]);
      var n := Stops(Written(fs, ts[0]), ts[1..], io[1..]);
      assert ts[..n + 1][1..] == ts[1..][..n];
    }
  }

  /** One more target of the list, in the tree the ones before it left. */
  lemma WriteStep(fs: Tree, ts: seq<Target>, io: seq<IO>, i: nat)
    requires WellFormed(fs) && |io| == |ts| && i < |ts| && Unobstructed(fs, ts[..i])
    ensures var t := AllWritten(fs, ts[..i]);
            && (CanDo(t, ts[i], io[i]) ==>
                  && Unobstructed(fs, ts[..i + 1]) && AllWritten(fs, ts[..i + 1]) == Written(t, ts[i])
                  && Journal(fs, ts[..i + 1]) == Journal(fs, ts[..i]) + [UndoOf(t, ts[i])]
                  && Stops(t, ts[i..], io[i..]) == 1 + Stops(Written(t, ts[i]), ts[i + 1..], io[i + 1..]))
            && (!CanDo(t, ts[i], io[i]) ==> Stops(t, ts[i..], io[i..]) == 0)
  {
    var t := AllWritten(fs, ts[..i]);
    assert ts[..i + 1] == ts[..i] + [ts[i]];
    WrittenStep(fs, ts[..i], ts[i]);
    assert ts[i..][1..] == ts[i + 1..] && io[i..][1..] == io[i + 1..];
    if CanDo(t, ts[i], io[i]) {
      WrittenKeeps(t, ts[i]);
    }
  }

  // ------------------------------------------------------------------ the program

  class Disk {
    var fs: Tree
    var journal: Option<seq<Undo>>

    constructor (fs: Tree)
      ensures this.fs == fs && journal == None
    {
      this.fs, journal := fs, None;
    }

    /** Makes dir and reports the directories made, deepest first. */
    method Mkdirs(dir: Path, ok: bool) returns (r: Option<seq<Path>>)
      requires WellFormed(fs)
      modifies this`fs
      ensures r.Some? <==> ok && old(fs)[Nearest(old(fs), dir)].Dir?
      ensures r.Some? ==> r.value == Missing(old(fs), dir) && fs == WithDirs(old(fs), r.value)
      ensures r.None? ==> fs == old(fs)
    {
      var created, d := Climb(dir);
      if !ok || !fs[d].Dir? {
        return None;
      }
      fs := WithDirs(fs, created);
      return Some(created);
    }

    /** The missing directories up to the nearest path there is. */
    method Climb(dir: Path) returns (created: seq<Path>, d: Path)
      requires [] in fs
      ensures created == Missing(fs, dir) && d == Nearest(fs, dir)
    {
      created, d := [], dir;
      while d !in fs
        invariant Nearest(fs, d) == Nearest(fs, dir)
        invariant created + Missing(fs, d) == Missing(fs, dir)
        decreases |d|
      {
        MissingStep(created, fs, d);
        created := created + [d];
        d := Parent(d);
      }
    }

    method RemoveDirs(dirs: seq<Path>)
      modifies this`fs
      ensures fs == WithoutDirs(old(fs), dirs)
    {
      for i := 0 to |dirs|
        invariant WithoutDirs(fs, dirs[i..]) == WithoutDirs(old(fs), dirs)
      {
        assert dirs[i..][1..] == dirs[i + 1..];
        fs := WithoutEmpty(fs, dirs[i]);
      }
    }

    /** One target. Whatever fails, the tree is then as it was. */
    method ApplyTarget(t: Target, io: IO) returns (r: Result<Undo, Error>)
      requires WellFormed(fs)
      modifies this`fs
      ensures r.Ok? <==> Obstacle(old(fs), t).None? && io.write && (t.path in old(fs) || io.mkdir)
      ensures r.Ok? ==> fs == Written(old(fs), t) && r.value == UndoOf(old(fs), t)
      ensures r.Err? ==> fs == old(fs)
      ensures t.path in old(fs) ==>
                && (r == Err(AlreadyExists) <==> t.Owned?) && (r == Err(ReadFailed) <==> t.Firefox? && old(fs)[t.path].Dir?)
                && (r == Err(NotJson) <==> t.Firefox? && old(fs)[t.path].Text?)
                && (r.Ok? <==> t.Firefox? && old(fs)[t.path].Json? && io.write)
      ensures t.path !in old(fs) ==>
                && (r == Err(MkdirFailed) <==> !io.mkdir || !old(fs)[Nearest(old(fs), Parent(t.path))].Dir?)
                && (r.Ok? || r == Err(MkdirFailed) || (r == Err(WriteFailed) && !io.write))
    {
      if t.path in fs {
        if t.Owned? {
          return Err(AlreadyExists);
        }
        if fs[t.path].Dir? {
          return Err(ReadFailed);
        }
        if fs[t.path].Text? {
          return Err(NotJson);
        }
        var u := UndoOf(fs, t);
        if !io.write {
          return Err(WriteFailed);
        }
        fs := Written(fs, t);
        return Ok(u);
      }
      var dirs := Mkdirs(Parent(t.path), io.mkdir);
      if dirs.None? {
        return Err(MkdirFailed);
      }
      if !io.write {
        MissingIs(old(fs), Parent(t.path));
        WithDirsIs(old(fs), dirs.value);
        DirsGoTo(old(fs), fs, dirs.value, old(fs));
        RemoveDirs(dirs.value);
        return Err(WriteFailed);
      }
      var doc := if t.Owned? then t.policy else map[POLICIES := Obj(map[DNS_KEY := DNS_OFF])];
      fs := fs[t.path := Json(doc)];
      return Ok(if t.Owned? then UndoFile(t.path, dirs.value) else UndoKey(t.path, false, None, dirs.value));
    }

    /** Undoes one journaled change if it can, and else changes nothing. */
    method RevertFile(u: Undo) returns (ok: bool)
      modifies this`fs
      ensures fs == Reverted(old(fs), u) && (ok <==> Revertible(old(fs), u)) && (!ok ==> fs == old(fs))
      ensures u.UndoFile? ==> (ok <==> !(u.path in old(fs) && old(fs)[u.path].Dir? && exists p :: p in old(fs) && p != [] && Parent(p) == u.path))
      ensures u.UndoKey? ==> (ok <==> u.path !in old(fs) || old(fs)[u.path].Json?)
    {
      if u.UndoFile? {
        if u.path in fs && fs[u.path].Dir? && HasChild(fs, u.path) {
          return false;
        }
        fs := fs - {u.path};
        RemoveDirs(u.dirs);
        return true;
      }
      if u.path !in fs {
        return true;
      }
      if !fs[u.path].Json? {
        return false;
      }
      var doc := fs[u.path].doc;
      var pol := PoliciesOf(doc);
      if u.prev.Some? {
        pol := pol[DNS_KEY := u.prev.value];
      } else {
        pol := pol - {DNS_KEY};
      }
      if !u.existed && |pol| == 0 && |doc| == 1 {
        fs := fs - {u.path};
        RemoveDirs(u.dirs);
        return true;
      }
      fs := fs[u.path := Json(WithPolicies(doc, pol))];
      return true;
    }

    method Rollback(us: seq<Undo>) returns (ok: bool)
      modifies this`fs
      ensures fs == RolledBack(old(fs), us) && (ok <==> RollbackWorks(old(fs), us))
    {
      ok := true;
      var i := |us|;
      assert us[..i] == us;
      while i > 0
        invariant 0 <= i <= |us| && RolledBack(fs, us[..i]) == RolledBack(old(fs), us)
        invariant ok && RollbackWorks(fs, us[..i]) <==> RollbackWorks(old(fs), us)
      {
        i := i - 1;
        assert us[..i + 1][..i] == us[..i];
        var one := RevertFile(us[i]);
        ok := ok && one;
      }
    }

    /** The targets in order, up to the first that fails. */
    method WriteAll(ts: seq<Target>, io: seq<IO>) returns (us: seq<Undo>, failed: Option<Error>)
      requires WellFormed(fs) && |io| == |ts|
      modifies this`fs
      ensures var n := Stops(old(fs), ts, io);
              && n <= |ts| && Unobstructed(old(fs), ts[..n]) && (failed.None? <==> n == |ts|)
              && fs == AllWritten(old(fs), ts[..n]) && us == Journal(old(fs), ts[..n])
    {
      us := [];
      for i := 0 to |ts|
        invariant Unobstructed(old(fs), ts[..i]) && fs == AllWritten(old(fs), ts[..i]) && us == Journal(old(fs), ts[..i])
        invariant Stops(old(fs), ts, io) == i + Stops(fs, ts[i..], io[i..])
      {
        WriteStep(old(fs), ts, io, i);
        var u := ApplyTarget(ts[i], io[i]);
        if u.Err? {
          return us, Some(u.error);
        }
        us := us + [u.value];
      }
      return us, None;
    }

    /**
     Apply. If a target fails, what the ones before it did is undone: the tree is the old
     one, but for the empty policies objects of RollbackRestores. The journal's own write
     is not checked: without it Apply still reports success, and nothing can be reverted.
     With it, a Revert of the tree as it then is succeeds.
     */
    method Apply(ts: seq<Target>, io: seq<IO>, saved: bool) returns (r: Result<(), Error>)
      requires WellFormed(fs) && |io| == |ts|
      modifies this
      ensures var n := Stops(old(fs), ts, io);
              && n <= |ts| && Unobstructed(old(fs), ts[..n])
              && (r.Ok? <==> old(journal).None? && ts != [] && n == |ts|)
              && (r.Ok? ==> fs == AllWritten(old(fs), ts[..n]))
              && (r.Err? ==> fs == if old(journal).Some? then old(fs) else Normalised(old(fs), SharedPaths(ts[..n])))
              && journal == (if r.Ok? && saved then Some(Journal(old(fs), ts[..n])) else old(journal))
              && (r.Ok? && saved ==> RollbackWorks(fs, journal.value))
    {
      StopsIn(fs, ts, io);
      if journal.Some? {
        return Err(AlreadyApplied);
      }
      if ts == [] {
        assert Normalised(fs, {}) == fs;
        return Err(NoBrowser);
      }
      var us, failed := WriteAll(ts, io);
      RollbackRestores(old(fs), ts[..Stops(old(fs), ts, io)]);
      if failed.Some? {
        var _ := Rollback(us);
        return Err(failed.value);
      }
      if saved {
        journal := Some(us);
      }
      return Ok(());
    }

    /** Revert undoes what the journal says and forgets it, unless something could not be undone. */
    method Revert() returns (r: Result<(), Error>)
      modifies this
      ensures old(journal).None? ==> r == Err(NotApplied) && fs == old(fs) && journal == None
      ensures old(journal).Some? ==> (r.Ok? <==> RollbackWorks(old(fs), old(journal).value))
      ensures old(journal).Some? ==> fs == RolledBack(old(fs), old(journal).value) && journal == if r.Ok? then None else old(journal)
    {
      if journal.None? {
        return Err(NotApplied);
      }
      var ok := Rollback(journal.value);
      if !ok {
        return Err(WriteFailed);
      }
      journal := None;
      return Ok(());
    }
  }
}
