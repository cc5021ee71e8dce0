/**
 The panel's optimistic-concurrency writes (internal/panel/rules_edit.go,
 panel.go): saving one section, reloading, and edits made to the file by others.
 Parsing, validation, rule compilation, JSON and the hash are parameters.
 */
module Panel {
  import opened Wrappers

  /** A save that wrote: the revision asked for, the text it read, the text its rename replaced, the text written. */
  datatype Saved = Saved(asked: string, base: string, found: string, out: string, edits: nat)

  /** The calls of writeFileAtomic, and the reads before it, that may fail. */
  datatype IO = IO(read: bool, backup: bool, temp: bool, rename: bool)

  ghost predicate Injective(revision: string -> string)
  {
    forall a, b :: revision(a) == revision(b) ==> a == b
  }

  /** Configs with equal JSON have the same rules, and so compile alike. */
  ghost predicate JsonDecides<C(!new), E>(json: C -> Option<string>, compile: C -> Option<E>)
  {
    forall a, b :: json(a).Some? && json(a) == json(b) ==> compile(a) == compile(b)
  }

  predicate SameJson<C>(json: C -> Option<string>, a: C, b: C)
  {
    json(a).Some? && json(a) == json(b)
  }

  /** Every save found what its editor had been shown, and started where the save before it ended unless others wrote. */
  ghost predicate LogHolds(log: seq<Saved>, revision: string -> string, file: string, edits: nat)
  {
    && (forall i :: 0 <= i < |log| ==> revision(log[i].base) == log[i].asked && log[i].edits <= edits)
    && (forall i :: 0 < i < |log| && log[i].edits == log[i - 1].edits ==> log[i].base == log[i - 1].out)
    && (log != [] && log[|log| - 1].edits == edits ==> file == log[|log| - 1].out)
  }

  lemma LogGrows(log: seq<Saved>, revision: string -> string, file: string, edits: nat, s: Saved, later: nat)
    requires LogHolds(log, revision, file, edits)
    requires revision(s.base) == s.asked && s.base == file && s.edits == later && later >= edits
    ensures LogHolds(log + [s], revision, s.out, later)
  {
    var l := log + [s];
    forall i | 0 < i < |l| && l[i].edits == l[i - 1].edits ensures l[i].base == l[i - 1].out {
      assert i < |log| ==> l[i] == log[i];
    }
  }

  /** Two accepted saves asked for the same revision exactly when they were made on the same text. */
  lemma SameRevisionSameBase(log: seq<Saved>, revision: string -> string, file: string, edits: nat, i: nat, j: nat)
    requires Injective(revision) && LogHolds(log, revision, file, edits)
    requires i < |log| && j < |log|
    ensures log[i].asked == log[j].asked <==> log[i].base == log[j].base
  {
    assert revision(log[i].base) == log[i].asked && revision(log[j].base) == log[j].asked;
  }

  /**
   Two accepted saves, nobody else writing between the later and the one before it, are
   from one revision exactly when that one left the text the earlier was based on. For
   two saves in a row: exactly when the first left the file unchanged.
   */
  lemma TwoSavesFromOneRevisionIff(log: seq<Saved>, revision: string -> string, file: string, edits: nat, i: nat, j: nat)
    requires Injective(revision) && LogHolds(log, revision, file, edits)
    requires i < j < |log| && log[j].edits == log[j - 1].edits
    ensures log[i].asked == log[j].asked <==> log[j - 1].out == log[i].base
    ensures j == i + 1 ==> (log[i].asked == log[j].asked <==> log[i].out == log[i].base)
  {
    SameRevisionSameBase(log, revision, file, edits, i, j);
    assert log[j].base == log[j - 1].out;
  }

  class PanelServer<C(!new), E> {
    const parse: string -> Option<C>
    const valid: C -> bool
    const compile: C -> Option<E>
    const json: C -> Option<string>
    const revision: string -> string

    var file: string
    var backup: Option<string>
    var cfg: C
    var engine: E
    var rev: string
    ghost var source: string
    ghost var log: seq<Saved>
    ghost var edits: nat

    /** What the running state was made from: one text, wholly. */
    ghost predicate FromOneText()
      reads this
    {
      parse(source) == Some(cfg) && compile(cfg) == Some(engine) && rev == revision(source)
    }

    ghost predicate Valid()
      reads this
    {
      && Injective(revision) && JsonDecides(json, compile)
      && FromOneText()
      && LogHolds(log, revision, file, edits)
    }

    /** Start-up, after a first successful load. */
    constructor (parse: string -> Option<C>, valid: C -> bool, compile: C -> Option<E>, json: C -> Option<string>,
                 revision: string -> string, file: string, cfg: C, engine: E)
      requires Injective(revision) && JsonDecides(json, compile)
      requires parse(file) == Some(cfg) && compile(cfg) == Some(engine)
      ensures Valid() && this.file == file && log == [] && edits == 0 && backup == None
      ensures source == file && this.cfg == cfg && this.engine == engine && rev == revision(file)
      ensures this.parse == parse && this.valid == valid && this.compile == compile && this.json == json && this.revision == revision
    {
      this.parse, this.valid, this.compile, this.json, this.revision := parse, valid, compile, json, revision;
      this.file, this.cfg, this.engine, this.rev := file, cfg, engine, revision(file);
      backup, source, log, edits := None, file, [], 0;
    }

    /** Someone else writes the file. */
    method Edit(text: string)
      requires Valid()
      modifies this`file, this`edits
      ensures Valid() && file == text && edits == old(edits) + 1
    {
      file := text;
      edits := edits + 1;
    }

    /** Whether a save of this kind is accepted; the text it would write. */
    function Accepted(asked: string, mutate: C -> C, rewrite: string -> Option<string>, data: string): Option<string>
      reads this
    {
      var want := mutate(cfg);
      if asked != rev || revision(data) != rev then None
      else if !valid(want) || compile(want).None? then None
      else
        var out := rewrite(data);
        if out.None? || parse(out.value).None? || !SameJson(json, parse(out.value).value, want) then None
        else out
    }

    /** Reading, checking and rewriting: nothing is changed. */
    method Prepare(asked: string, mutate: C -> C, rewrite: string -> Option<string>) returns (r: Option<(string, C, E)>)
      requires Valid()
      ensures r.Some? == Accepted(asked, mutate, rewrite, file).Some?
      ensures r.Some? ==> r.value.0 == Accepted(asked, mutate, rewrite, file).value
                          && parse(r.value.0) == Some(r.value.1) && compile(r.value.1) == Some(r.value.2)
                          && SameJson(json, r.value.1, mutate(cfg))
    {
      if asked != rev || revision(file) != rev {
        return None;
      }
      var want := mutate(cfg);
      if !valid(want) {
        return None;
      }
      var compiled := compile(want);
      if compiled.None? {
        return None;
      }
      var out := rewrite(file);
      if out.None? {
        return None;
      }
      var parsed := parse(out.value);
      if parsed.None? || !SameJson(json, parsed.value, want) {
        return None;
      }
      return Some((out.value, parsed.value, compiled.value));
    }

    /** writeFileAtomic and the swap of the running state. */
    method Commit(asked: string, data: string, out: string, newCfg: C, newEngine: E, io: IO) returns (ok: bool)
      requires Valid() && revision(data) == asked
      requires parse(out) == Some(newCfg) && compile(newCfg) == Some(newEngine)
      requires LogHolds(log + [Saved(asked, data, file, out, edits)], revision, out, edits)
      modifies this
      ensures Valid() && edits == old(edits) && ok == (io.backup && io.temp && io.rename)
      ensures ok ==> file == out && source == out && cfg == newCfg && backup == Some(data)
                     && log == old(log) + [Saved(asked, data, old(file), out, edits)]
      ensures !ok ==> file == old(file) && cfg == old(cfg) && engine == old(engine) && rev == old(rev)
                      && source == old(source) && log == old(log)
    {
      ok := false;
      if !io.backup {
        return;
      }
      backup := Some(data);
      if !io.temp || !io.rename {
        return;
      }
      log := log + [Saved(asked, data, file, out, edits)];
      file := out;
      cfg, engine, rev, source := newCfg, newEngine, revision(out), out;
      ok := true;
    }

    /**
     saveSection, under the write lock. meddle is an edit by someone else landing
     between the read and the rename, which no lock of the server can hold off: then,
     and only then, the rename replaces text that the save was not based on.
     */
    method SaveSection(asked: string, mutate: C -> C, rewrite: string -> Option<string>, meddle: Option<string>, io: IO)
      returns (ok: bool)
      requires Valid()
      modifies this
      ensures Valid()
      ensures ok <==> old(Accepted(asked, mutate, rewrite, file)).Some? && io == IO(true, true, true, true)
      ensures var want, out := mutate(old(cfg)), rewrite(old(file));
              ok <==> && io == IO(true, true, true, true)
                      && asked == old(rev) == revision(old(file))
                      && valid(want) && compile(want).Some?
                      && out.Some? && parse(out.value).Some?
                      && json(parse(out.value).value).Some? && json(parse(out.value).value) == json(want)
      ensures ok ==> Some(file) == rewrite(old(file)) && parse(file) == Some(cfg) && compile(cfg) == Some(engine) && rev == revision(file)
      ensures ok ==> asked == old(rev) == revision(old(file)) && old(file) == old(source)
      ensures ok ==> file == old(Accepted(asked, mutate, rewrite, file)).value && source == file && backup == Some(old(file))
      ensures ok ==> SameJson(json, cfg, mutate(old(cfg)))
      ensures ok ==> log == old(log) + [Saved(asked, old(file), if meddle.Some? then meddle.value else old(file), file, edits)]
      ensures !ok ==> cfg == old(cfg) && engine == old(engine) && rev == old(rev) && source == old(source) && log == old(log)
      ensures !ok ==> file == old(file) || (meddle.Some? && file == meddle.value)
    {
      if !io.read {
        return false;
      }
      var data := file;
      var prepared := Prepare(asked, mutate, rewrite);
      if prepared.None? {
        return false;
      }
      ghost var later := if meddle.Some? then edits + 1 else edits;
      ghost var found := if meddle.Some? then meddle.value else file;
      LogGrows(log, revision, file, edits, Saved(asked, data, found, prepared.value.0, later), later);
      if meddle.Some? {
        Edit(meddle.value);
      }
      ok := Commit(asked, data, prepared.value.0, prepared.value.1, prepared.value.2, io);
    }

    /** loadFromDisk, as handleReload calls it under the write lock. */
    method Reload(readable: bool) returns (ok: bool)
      requires Valid()
      modifies this
      ensures Valid() && file == old(file) && backup == old(backup) && log == old(log) && edits == old(edits)
      ensures ok <==> readable && parse(file).Some? && compile(parse(file).value).Some?
      ensures ok ==> source == file && parse(file) == Some(cfg) && compile(cfg) == Some(engine) && rev == revision(file)
      ensures !ok ==> cfg == old(cfg) && engine == old(engine) && rev == old(rev) && source == old(source)
    {
      if !readable {
        return false;
      }
      var parsed := parse(file);
      if parsed.None? {
        return false;
      }
      var compiled := compile(parsed.value);
      if compiled.None? {
        return false;
      }
      cfg, engine, rev, source := parsed.value, compiled.value, revision(file), file;
      return true;
    }
  }

  /**
   Three saves of one run, all accepted: the first takes the text from a to b, the second
   restores a, and the third is from the same revision as the first. So both saves from
   one revision can succeed although the first did change the file.
   */
  method RestoredTextAcceptsBoth(a: string, b: string, c: string) returns (first: bool, second: bool, third: bool, ghost log: seq<Saved>)
    requires a != b
    ensures first && second && third
    ensures |log| == 3 && log[0].asked == log[2].asked && log[0].base == a && log[0].out == b != a
  {
    var text := (s: string) => s;
    var s := new PanelServer<string, string>(t => Some(t), _ => true, t => Some(t), t => Some(t), text, a, a, a);
    var all := IO(true, true, true, true);
    first := s.SaveSection(text(a), _ => b, _ => Some(b), None, all);
    second := s.SaveSection(text(b), _ => a, _ => Some(a), None, all);
    third := s.SaveSection(text(a), _ => c, _ => Some(c), None, all);
    log := s.log;
  }
}
