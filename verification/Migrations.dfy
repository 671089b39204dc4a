/** The migration runner: sorted scripts, each executed in a transaction of its own together
    with the insertion of its version into the tracking table.

    What a script does to the database is the parameter `exec`. A run may be cut short at any
    script: before the script's transaction commits, or just after. */
module Migrations {
  import opened Text
  import opened Sorting

  type Exec<!S> = (S, string) -> Option<S>

  /** A directory: files with their content, and subdirectories. */
  type Dir = map<string, Option<string>>

  datatype Script = Script(version: string, ddl: string)

  /** `log` is what the tracking table records, in the order of insertion. */
  datatype State<S> = State(db: S, log: seq<Script>)

  datatype Trouble = NoTrouble | BeforeCommit | AfterCommit

  datatype Ended<S> = Ended(state: State<S>, ok: bool)

  // ---------- The directory ----------

  predicate IsScript(dir: Dir, name: string) { name in dir && dir[name].Some? && HasSuffix(name, ".sql") }

  /** The regular files whose names end in ".sql". */
  function Scripts(dir: Dir): map<string, string> { map n | n in dir && IsScript(dir, n) :: dir[n].value }

  function Version(name: string): string
    requires HasSuffix(name, ".sql")
  {
    name[..|name| - 4]
  }

  function ScriptOf(scripts: map<string, string>, name: string): Script
    requires name in scripts && HasSuffix(name, ".sql")
  {
    Script(Version(name), scripts[name])
  }

  ghost predicate Listed(names: seq<string>, scripts: map<string, string>) {
    forall i :: 0 <= i < |names| ==> names[i] in scripts && HasSuffix(names[i], ".sql")
  }

  ghost function ScriptsOf(names: seq<string>, scripts: map<string, string>): (r: seq<Script>)
    requires Listed(names, scripts)
    ensures |r| == |names| && forall i :: 0 <= i < |names| ==> r[i] == ScriptOf(scripts, names[i])
  {
    seq(|names|, i requires 0 <= i < |names| => ScriptOf(scripts, names[i]))
  }

  // ---------- One run ----------

  ghost predicate Applied(log: seq<Script>, version: string) {
    exists i :: 0 <= i < |log| && log[i].version == version
  }

  ghost function ApplyOne<S>(exec: Exec<S>, st: State<S>, script: Script, trouble: Trouble): Ended<S> {
    if trouble == BeforeCommit then Ended(st, false)
    else if Applied(st.log, script.version) then Ended(st, trouble == NoTrouble)
    else
      var db := exec(st.db, script.ddl);
      if db.None? then Ended(st, false) else Ended(State(db.value, st.log + [script]), trouble == NoTrouble)
  }

  ghost function RunScripts<S>(exec: Exec<S>, st: State<S>, scripts: seq<Script>, trouble: string -> Trouble): Ended<S> {
    if scripts == [] then Ended(st, true)
    else
      var last := scripts[|scripts| - 1];
      var before := RunScripts(exec, st, scripts[..|scripts| - 1], trouble);
      if before.ok then ApplyOne(exec, before.state, last, trouble(last.version)) else before
  }

  lemma ScriptsAreListed(dir: Dir)
    ensures Listed(SortedKeys(Scripts(dir)), Scripts(dir))
  {
  }

  /** The sorted scripts of a directory. */
  ghost function Sorted(dir: Dir): seq<Script> {
    ScriptsAreListed(dir);
    ScriptsOf(SortedKeys(Scripts(dir)), Scripts(dir))
  }

  /** A run over a directory; it may also fail before it looks at any script. */
  ghost function RunDir<S>(exec: Exec<S>, st: State<S>, dir: Dir, starts: bool, trouble: string -> Trouble): Ended<S> {
    if starts then RunScripts(exec, st, Sorted(dir), trouble) else Ended(st, false)
  }

  lemma {:induction false} StopsThere<S>(exec: Exec<S>, st: State<S>, scripts: seq<Script>, trouble: string -> Trouble, i: nat)
    requires i <= |scripts| && !RunScripts(exec, st, scripts[..i], trouble).ok
    ensures RunScripts(exec, st, scripts, trouble) == RunScripts(exec, st, scripts[..i], trouble)
    decreases |scripts|
  {
    if i == |scripts| {
      assert scripts[..i] == scripts;
    } else {
      assert scripts[..|scripts| - 1][..i] == scripts[..i];
      StopsThere(exec, st, scripts[..|scripts| - 1], trouble, i);
    }
  }

  lemma {:induction false} RunNone<S>(exec: Exec<S>, st: State<S>, trouble: string -> Trouble)
    ensures RunScripts(exec, st, [], trouble) == Ended(st, true)
  {
  }

  lemma {:induction false} RunStep<S>(exec: Exec<S>, st: State<S>, scripts: seq<Script>, trouble: string -> Trouble, i: nat)
    requires i < |scripts|
    ensures RunScripts(exec, st, scripts[..i + 1], trouble) ==
      var before := RunScripts(exec, st, scripts[..i], trouble);
      if before.ok then ApplyOne(exec, before.state, scripts[i], trouble(scripts[i].version)) else before
  {
    assert scripts[..i + 1][..i] == scripts[..i];
  }

  lemma {:induction false} SortedCount(dir: Dir)
    ensures |Sorted(dir)| == |SortedKeys(Scripts(dir))|
  {
  }

  lemma {:induction false} ListedScript(dir: Dir, i: nat)
    requires i < |SortedKeys(Scripts(dir))|
    ensures var name := SortedKeys(Scripts(dir))[i];
      && name in dir && dir[name].Some? && HasSuffix(name, ".sql")
      && i < |Sorted(dir)| && Sorted(dir)[i] == Script(Version(name), dir[name].value)
  {
    hide HasSuffix;
    ScriptsAreListed(dir);
    assert SortedKeys(Scripts(dir))[i] in Scripts(dir);
  }

  class Migrator<S> {
    const exec: Exec<S>
    var db: S
    var tracked: set<string>
    ghost var log: seq<Script>

    constructor (exec: Exec<S>, db: S)
      ensures Valid() && this.exec == exec && Contents() == State(db, [])
    {
      this.exec, this.db, tracked, log := exec, db, {}, [];
    }

    ghost predicate Valid()
      reads this
    {
      forall v :: v in tracked <==> Applied(log, v)
    }

    ghost function Contents(): State<S>
      reads this
    {
      State(db, log)
    }

    /** The script and the insertion of its version commit together, or not at all. */
    method ApplyMigration(version: string, ddl: string, trouble: Trouble) returns (ok: bool)
      requires Valid() && version !in tracked && trouble != BeforeCommit
      modifies this
      ensures Valid()
      ensures Ended(Contents(), ok) == ApplyOne(exec, old(Contents()), Script(version, ddl), trouble)
    {
      var r := exec(db, ddl);
      if r.None? { return false; }
      ghost var was := log;
      db := r.value;
      tracked := tracked + {version};
      log := log + [Script(version, ddl)];
      AppliedGrows(was, Script(version, ddl));
      return trouble == NoTrouble;
    }

    /** Skips a script whose version is in the tracking table. */
    method ApplyIfNew(version: string, ddl: string, trouble: Trouble) returns (ok: bool)
      requires Valid()
      modifies this
      ensures Valid()
      ensures Ended(Contents(), ok) == ApplyOne(exec, old(Contents()), Script(version, ddl), trouble)
    {
      if trouble == BeforeCommit { return false; }
      if version in tracked { return trouble == NoTrouble; }
      ok := ApplyMigration(version, ddl, trouble);
    }

    method RunFS(dir: Dir, starts: bool, trouble: string -> Trouble) returns (ok: bool)
      requires Valid()
      modifies this
      ensures Valid()
      ensures Ended(Contents(), ok) == RunDir(exec, old(Contents()), dir, starts, trouble)
    {
      hide RunScripts, ApplyOne, Sorted, Scripts, SortedKeys, Version, HasSuffix, Valid;
      if !starts { return false; }
      SortedCount(dir);
      RunNone(exec, Contents(), trouble);
      var files := SqlFiles(dir);
      ghost var scripts := Sorted(dir);
      var i := 0;
      assert scripts[..0] == [];
      while i < |files|
        invariant 0 <= i <= |files| == |scripts| && Valid()
        invariant RunScripts(exec, old(Contents()), scripts[..i], trouble) == Ended(Contents(), true)
      {
        RunStep(exec, old(Contents()), scripts, trouble, i);
        var name := files[i];
        ListedScript(dir, i);
        var version := Version(name);
        ok := ApplyIfNew(version, dir[name].value, trouble(version));
        if !ok {
          StopsThere(exec, old(Contents()), scripts, trouble, i + 1);
          return false;
        }
        i := i + 1;
      }
      assert scripts[..i] == scripts;
      return true;
    }
  }

  /** The names of the ".sql" files, sorted. */
  method SqlFiles(dir: Dir) returns (files: seq<string>)
    ensures files == SortedKeys(Scripts(dir))
  {
    hide IsScript, Ascending, SortStrings, StrLe;
    var entries := ListKeysSorted(dir);
    files := [];
    var i := 0;
    while i < |entries|
      invariant 0 <= i <= |entries| && Distinct(files)
      invariant forall n :: n in files <==> n in entries[..i] && IsScript(dir, n)
    {
      assert entries[..i + 1] == entries[..i] + [entries[i]];
      if IsScript(dir, entries[i]) { files := files + [entries[i]]; }
      i := i + 1;
    }
    assert entries[..i] == entries;
    forall n ensures n in Elements(files) <==> n in Scripts(dir) { assert n in files <==> n in entries && IsScript(dir, n); }
    SortedKeysIs(Scripts(dir), files);
    files := SortStrings(files);
  }

  lemma {:induction false} AppliedGrows(log: seq<Script>, script: Script)
    ensures forall v :: Applied(log + [script], v) <==> Applied(log, v) || v == script.version
  {
    var more := log + [script];
    forall v ensures Applied(more, v) <==> Applied(log, v) || v == script.version {
      if Applied(log, v) {
        var i :| 0 <= i < |log| && log[i].version == v;
        assert more[i].version == v;
      }
      if v == script.version { assert more[|log|].version == v; }
    }
  }

  // ---------- Every script once ----------

  /** The database after executing scripts one by one. */
  ghost function Fold<S>(exec: Exec<S>, db: S, log: seq<Script>): Option<S> {
    if log == [] then Some(db)
    else
      var before := Fold(exec, db, log[..|log| - 1]);
      if before.None? then None else exec(before.value, log[|log| - 1].ddl)
  }

  ghost predicate DistinctVersions(log: seq<Script>) {
    forall i, j :: 0 <= i < j < |log| ==> log[i].version != log[j].version
  }

  /** The database is what the logged scripts make of the first one, each executed once. */
  ghost predicate Faithful<S>(exec: Exec<S>, db: S, st: State<S>) {
    DistinctVersions(st.log) && Fold(exec, db, st.log) == Some(st.db)
  }

  lemma {:induction false} ApplyOneIsFaithful<S>(exec: Exec<S>, db: S, st: State<S>, script: Script, trouble: Trouble)
    requires Faithful(exec, db, st)
    ensures var r := ApplyOne(exec, st, script, trouble).state; Faithful(exec, db, r) && st.log <= r.log
  {
    var more := st.log + [script];
    assert more[..|st.log|] == st.log;
    if !Applied(st.log, script.version) {
      forall i, j | 0 <= i < j < |more| ensures more[i].version != more[j].version {
        assert more[i] == st.log[i];
      }
    }
  }

  lemma {:induction false} RunIsFaithful<S>(exec: Exec<S>, db: S, st: State<S>, scripts: seq<Script>, trouble: string -> Trouble)
    requires Faithful(exec, db, st)
    ensures var r := RunScripts(exec, st, scripts, trouble).state; Faithful(exec, db, r) && st.log <= r.log
  {
    hide Faithful, ApplyOne;
    if scripts != [] {
      var init := scripts[..|scripts| - 1];
      var last := scripts[|scripts| - 1];
      RunIsFaithful(exec, db, st, init, trouble);
      ApplyOneIsFaithful(exec, db, RunScripts(exec, st, init, trouble).state, last, trouble(last.version));
    }
  }

  datatype Attempt = Attempt(dir: Dir, starts: bool, trouble: string -> Trouble)

  /** The end of the last of several runs. */
  ghost function RunAll<S>(exec: Exec<S>, st: State<S>, attempts: seq<Attempt>): Ended<S> {
    if attempts == [] then Ended(st, false)
    else
      var last := attempts[|attempts| - 1];
      RunDir(exec, RunAll(exec, st, attempts[..|attempts| - 1]).state, last.dir, last.starts, last.trouble)
  }

  /** Over any runs, over any directories, failing or cut short anywhere, no script is executed
      twice, and the database holds exactly the work of the recorded ones. */
  lemma {:induction false} AllRunsAreFaithful<S>(exec: Exec<S>, db: S, attempts: seq<Attempt>)
    ensures Faithful(exec, db, RunAll(exec, State(db, []), attempts).state)
  {
    hide RunScripts, Sorted;
    if attempts != [] {
      var init := attempts[..|attempts| - 1];
      var last := attempts[|attempts| - 1];
      AllRunsAreFaithful(exec, db, init);
      RunIsFaithful(exec, db, RunAll(exec, State(db, []), init).state, Sorted(last.dir), last.trouble);
    }
  }

  // ---------- In order ----------

  /** A run that starts with the first `k` scripts applied goes on from there. */
  lemma {:induction false} RunGoesOn<S>(exec: Exec<S>, st: State<S>, scripts: seq<Script>, trouble: string -> Trouble, k: nat, i: nat)
    requires DistinctVersions(scripts) && k <= |scripts| && st.log == scripts[..k] && i <= |scripts|
    ensures var r := RunScripts(exec, st, scripts[..i], trouble);
      && k <= |r.state.log| <= (if i < k then k else i) && r.state.log == scripts[..|r.state.log|]
      && (r.ok ==> |r.state.log| == if i < k then k else i)
    decreases i
  {
    if i == 0 {
      RunNone(exec, st, trouble);
    } else {
      RunGoesOn(exec, st, scripts, trouble, k, i - 1);
      RunStep(exec, st, scripts, trouble, i - 1);
      var before := RunScripts(exec, st, scripts[..i - 1], trouble);
      hide RunScripts;
      if before.ok { NextApplied(scripts, |before.state.log|, i - 1); }
      assert scripts[..i] == scripts[..i - 1] + [scripts[i - 1]];
      hide DistinctVersions, Applied;
    }
  }

  lemma {:induction false} NextApplied(scripts: seq<Script>, k: nat, i: nat)
    requires DistinctVersions(scripts) && k <= |scripts| && i < |scripts|
    ensures Applied(scripts[..k], scripts[i].version) <==> i < k
  {
    if i < k { assert scripts[..k][i].version == scripts[i].version; }
  }

  /** A successful run leaves the scripts applied in their sorted order exactly when those
      applied before it were the first ones in that order. */
  lemma {:induction false} SortedIff<S>(exec: Exec<S>, db: S, st: State<S>, dir: Dir, trouble: string -> Trouble)
    requires Faithful(exec, db, st) && RunDir(exec, st, dir, true, trouble).ok
    ensures RunDir(exec, st, dir, true, trouble).state.log == Sorted(dir) <==> st.log <= Sorted(dir)
  {
    var scripts := Sorted(dir);
    SortedVersionsDiffer(dir);
    RunIsFaithful(exec, db, st, scripts, trouble);
    assert scripts[..|scripts|] == scripts;
    if st.log <= scripts { RunGoesOn(exec, st, scripts, trouble, |st.log|, |scripts|); }
  }

  lemma {:induction false} SortedVersionsDiffer(dir: Dir)
    ensures DistinctVersions(Sorted(dir))
  {
    hide StrLe, IsScript;
    ScriptsAreListed(dir);
    var names := SortedKeys(Scripts(dir));
    var r := Sorted(dir);
    forall i, j | 0 <= i < j < |r| ensures r[i].version != r[j].version {
      assert names[i] != names[j];
      assert names[i] == Version(names[i]) + ".sql" && names[j] == Version(names[j]) + ".sql";
    }
  }

  /** The directory only gained scripts, and only behind the ones it had. */
  ghost predicate Grown(dir: Dir, dir': Dir) {
    && (forall n :: n in Scripts(dir) ==> n in Scripts(dir') && Scripts(dir')[n] == Scripts(dir)[n])
    && (forall n, m :: n in Scripts(dir) && m in Scripts(dir') && m !in Scripts(dir) ==> StrLe(n, m))
  }

  lemma {:induction false} GrownSorts(dir: Dir, dir': Dir)
    requires Grown(dir, dir')
    ensures Sorted(dir) <= Sorted(dir')
  {
    var old', new' := Scripts(dir), Scripts(dir');
    var added := map n | n in new' && n !in old' :: new'[n];
    var names := SortedKeys(old') + SortedKeys(added);
    KeysAppend(old', added, new');
    assert SortedKeys(new') == names;
    ScriptsAreListed(dir);
    ScriptsAreListed(dir');
  }

  lemma {:induction false} KeysAppend(a: map<string, string>, b: map<string, string>, c: map<string, string>)
    requires c.Keys == a.Keys + b.Keys && a.Keys !! b.Keys
    requires forall n, m :: n in a && m in b ==> StrLe(n, m)
    ensures SortedKeys(c) == SortedKeys(a) + SortedKeys(b)
  {
    var xs, ys := SortedKeys(a), SortedKeys(b);
    var names := xs + ys;
    SortAscends(names);
    hide StrLe, Ascending, Distinct, SortStrings;
    forall n ensures n in Elements(names) <==> n in c { assert n in names <==> n in xs || n in ys; }
    AppendedNames(xs, ys);
    SortedKeysIs(c, names);
    AscendingUnique(names, SortStrings(names));
  }

  lemma {:induction false} AppendedNames(xs: seq<string>, ys: seq<string>)
    requires Ascending(xs) && Ascending(ys) && Distinct(xs) && Distinct(ys)
    requires forall n, m :: n in xs && m in ys ==> StrLe(n, m) && n != m
    ensures Ascending(xs + ys) && Distinct(xs + ys)
  {
    hide StrLe;
    var names := xs + ys;
    forall i, j | 0 <= i < j < |names| ensures StrLe(names[i], names[j]) && names[i] != names[j] {
      if j < |xs| {
        assert names[i] == xs[i] && names[j] == xs[j];
      } else if i < |xs| {
        assert names[i] in xs && names[j] in ys;
      } else {
        assert names[i] == ys[i - |xs|] && names[j] == ys[j - |xs|];
      }
    }
  }

  /** Over any runs, failing or cut short anywhere, with scripts only added at the end: what is
      applied is always a first part of the sorted scripts, executed in order, each once; and
      all of them once a run succeeds. */
  lemma {:induction false} RunsAreInOrder<S>(exec: Exec<S>, db: S, attempts: seq<Attempt>)
    requires attempts != [] && forall i :: 0 < i < |attempts| ==> Grown(attempts[i - 1].dir, attempts[i].dir)
    ensures var r := RunAll(exec, State(db, []), attempts);
      var scripts := Sorted(attempts[|attempts| - 1].dir);
      && r.state.log <= scripts && Fold(exec, db, r.state.log) == Some(r.state.db)
      && (r.ok ==> r.state.log == scripts)
  {
    AllRunsAreFaithful(exec, db, attempts);
    RunsApplyPrefixes(exec, db, attempts);
  }

  lemma {:induction false} RunsApplyPrefixes<S>(exec: Exec<S>, db: S, attempts: seq<Attempt>)
    requires attempts != [] && forall i :: 0 < i < |attempts| ==> Grown(attempts[i - 1].dir, attempts[i].dir)
    ensures var r := RunAll(exec, State(db, []), attempts);
      var scripts := Sorted(attempts[|attempts| - 1].dir);
      r.state.log <= scripts && (r.ok ==> r.state.log == scripts)
  {
    hide RunScripts, Sorted, Grown;
    var n := |attempts| - 1;
    var before := RunAll(exec, State(db, []), attempts[..n]).state;
    var scripts := Sorted(attempts[n].dir);
    if n > 0 {
      RunsApplyPrefixes(exec, db, attempts[..n]);
      GrownSorts(attempts[n - 1].dir, attempts[n].dir);
    }
    assert before.log == scripts[..|before.log|];
    SortedVersionsDiffer(attempts[n].dir);
    assert scripts[..|scripts|] == scripts;
    RunGoesOn(exec, before, scripts, attempts[n].trouble, |before.log|, |scripts|);
  }

  // ---------- Running again ----------

  ghost predicate AllApplied(log: seq<Script>, scripts: seq<Script>) {
    forall i :: 0 <= i < |scripts| ==> Applied(log, scripts[i].version)
  }

  lemma {:induction false} ApplyOneKeepsApplied<S>(exec: Exec<S>, st: State<S>, script: Script, trouble: Trouble, version: string)
    ensures var r := ApplyOne(exec, st, script, trouble);
      (Applied(st.log, version) ==> Applied(r.state.log, version)) && (r.ok ==> Applied(r.state.log, script.version))
  {
    AppliedGrows(st.log, script);
  }

  lemma {:induction false} SuccessAppliesAll<S>(exec: Exec<S>, st: State<S>, scripts: seq<Script>, trouble: string -> Trouble)
    requires RunScripts(exec, st, scripts, trouble).ok
    ensures AllApplied(RunScripts(exec, st, scripts, trouble).state.log, scripts)
  {
    hide ApplyOne, Applied;
    if scripts != [] {
      var last := |scripts| - 1;
      SuccessAppliesAll(exec, st, scripts[..last], trouble);
      var before := RunScripts(exec, st, scripts[..last], trouble).state;
      forall i | 0 <= i < |scripts| ensures Applied(RunScripts(exec, st, scripts, trouble).state.log, scripts[i].version) {
        if i < last { assert scripts[..last][i] == scripts[i]; }
        ApplyOneKeepsApplied(exec, before, scripts[last], trouble(scripts[last].version), scripts[i].version);
      }
    }
  }

  lemma {:induction false} AppliedIsSkipped<S>(exec: Exec<S>, st: State<S>, scripts: seq<Script>, trouble: string -> Trouble)
    requires AllApplied(st.log, scripts)
    ensures RunScripts(exec, st, scripts, trouble).state == st
  {
    hide Applied;
    if scripts != [] {
      var init := scripts[..|scripts| - 1];
      forall i | 0 <= i < |init| ensures Applied(st.log, init[i].version) { assert init[i] == scripts[i]; }
      AppliedIsSkipped(exec, st, init, trouble);
    }
  }

  /** After a successful run another one changes nothing, whatever happens to it. */
  lemma {:induction false} RunTwiceIsOnce<S>(exec: Exec<S>, st: State<S>, dir: Dir, trouble: string -> Trouble,
                                             starts: bool, trouble': string -> Trouble)
    requires RunDir(exec, st, dir, true, trouble).ok
    ensures var t := RunDir(exec, st, dir, true, trouble).state; RunDir(exec, t, dir, starts, trouble').state == t
  {
    hide RunScripts, Sorted, AllApplied;
    SuccessAppliesAll(exec, st, Sorted(dir), trouble);
    AppliedIsSkipped(exec, RunScripts(exec, st, Sorted(dir), trouble).state, Sorted(dir), trouble');
  }

  // ---------- What a run does ----------

  /** The scripts of a directory: its regular files whose names end in ".sql", by ascending names. */
  ghost predicate ListsFiles(dir: Dir, scripts: seq<Script>, names: seq<string>) {
    && |names| == |scripts|
    && (forall i, j :: 0 <= i < j < |names| ==> StrLe(names[i], names[j]) && names[i] != names[j])
    && (forall i :: 0 <= i < |names| ==>
          && names[i] in dir && dir[names[i]] == Some(scripts[i].ddl) && names[i] == scripts[i].version + ".sql")
    && forall name :: name in dir && dir[name] != None && |name| >= 4 && name[|name| - 4..] == ".sql" ==> name in names
  }

  lemma {:induction false} SortedLists(dir: Dir)
    ensures ListsFiles(dir, Sorted(dir), SortedKeys(Scripts(dir)))
  {
    var names := SortedKeys(Scripts(dir));
    SortedCount(dir);
    hide Sorted, StrLe;
    forall i | 0 <= i < |names|
      ensures names[i] in dir && dir[names[i]] == Some(Sorted(dir)[i].ddl) && names[i] == Sorted(dir)[i].version + ".sql"
    {
      ListedScript(dir, i);
    }
    forall name | name in dir && dir[name] != None && |name| >= 4 && name[|name| - 4..] == ".sql" ensures name in names {
      assert name in Scripts(dir);
    }
  }

  /** The scripts that are not recorded yet, in order. */
  ghost function Pending(log: seq<Script>, scripts: seq<Script>): seq<Script> {
    if scripts == [] then []
    else
      var last := scripts[|scripts| - 1];
      Pending(log, scripts[..|scripts| - 1]) + if Applied(log, last.version) then [] else [last]
  }

  lemma {:induction false} PendingAre(log: seq<Script>, scripts: seq<Script>, x: Script)
    ensures x in Pending(log, scripts) <==> x in scripts && !Applied(log, x.version)
  {
    hide Applied;
    if scripts != [] {
      PendingAre(log, scripts[..|scripts| - 1], x);
      assert scripts == scripts[..|scripts| - 1] + [scripts[|scripts| - 1]];
    }
  }

  lemma {:induction false} AppliedAppend(a: seq<Script>, b: seq<Script>, version: string)
    ensures Applied(a + b, version) <==> Applied(a, version) || Applied(b, version)
  {
    if i :| 0 <= i < |a| && a[i].version == version { assert (a + b)[i].version == version; }
    if i :| 0 <= i < |b| && b[i].version == version { assert (a + b)[|a| + i].version == version; }
  }

  lemma {:induction false} OtherVersion(scripts: seq<Script>, x: Script)
    requires scripts != [] && DistinctVersions(scripts) && x in scripts[..|scripts| - 1]
    ensures x.version != scripts[|scripts| - 1].version
  {
    var j :| 0 <= j < |scripts| - 1 && scripts[j] == x;
  }

  /** After the scripts before it a script is recorded exactly when it was at the start. */
  lemma {:induction false} NotYet(log: seq<Script>, scripts: seq<Script>)
    requires scripts != [] && DistinctVersions(scripts)
    ensures var init, last := scripts[..|scripts| - 1], scripts[|scripts| - 1];
      Applied(log + Pending(log, init), last.version) <==> Applied(log, last.version)
  {
    var init, last := scripts[..|scripts| - 1], scripts[|scripts| - 1];
    var pending := Pending(log, init);
    AppliedAppend(log, pending, last.version);
    hide Pending, DistinctVersions;
    forall i | 0 <= i < |pending| ensures pending[i].version != last.version {
      PendingAre(log, init, pending[i]);
      OtherVersion(scripts, pending[i]);
    }
  }

  lemma {:induction false} FoldOneMore<S>(exec: Exec<S>, db: S, log: seq<Script>, script: Script)
    ensures Fold(exec, db, log + [script]) ==
      match Fold(exec, db, log) case None => None case Some(d) => exec(d, script.ddl)
  {
    assert (log + [script])[..|log|] == log;
  }

  /** A state that has some of the pending scripts executed and recorded, in order. */
  ghost predicate HasDone<S>(exec: Exec<S>, st: State<S>, todo: seq<Script>, k: nat, t: State<S>) {
    k <= |todo| && t.log == st.log + todo[..k] && Fold(exec, st.db, todo[..k]) == Some(t.db)
  }

  ghost predicate NoneTroubled(scripts: seq<Script>, trouble: string -> Trouble) {
    forall i :: 0 <= i < |scripts| ==> trouble(scripts[i].version) == NoTrouble
  }

  /** How a run ends: with the first `k` pending scripts executed and recorded; and all of them, with
      success, exactly when nothing goes wrong and each does its work on what those before it made. */
  ghost predicate Ends<S>(exec: Exec<S>, st: State<S>, scripts: seq<Script>, trouble: string -> Trouble, todo: seq<Script>, r: Ended<S>, k: nat) {
    && HasDone(exec, st, todo, k, r.state) && (r.ok ==> k == |todo|)
    && (r.ok <==> NoneTroubled(scripts, trouble) && Fold(exec, st.db, todo) != None)
  }

  /** A run executes and records pending scripts in order, and skips the others. */
  lemma {:induction false} RunIs<S>(exec: Exec<S>, st: State<S>, scripts: seq<Script>, trouble: string -> Trouble) returns (k: nat)
    requires DistinctVersions(scripts)
    ensures Ends(exec, st, scripts, trouble, Pending(st.log, scripts), RunScripts(exec, st, scripts, trouble), k)
  {
    hide Ends, ApplyOne;
    if scripts == [] {
      k := 0;
      NothingToRun(exec, st, trouble);
    } else {
      var init, last := scripts[..|scripts| - 1], scripts[|scripts| - 1];
      var n := RunIs(exec, st, init, trouble);
      NotYet(st.log, scripts);
      var before, r := RunScripts(exec, st, init, trouble), RunScripts(exec, st, scripts, trouble);
      var old', todo := Pending(st.log, init), Pending(st.log, scripts);
      assert init + [last] == scripts;
      hide RunScripts, Pending, DistinctVersions;
      if before.ok {
        k := OneMoreScript(exec, st, init, last, trouble, old', todo, before, r, n);
      } else {
        k := n;
        StoppedBefore(exec, st, init, last, trouble, old', todo, r, n);
      }
    }
  }

  lemma {:induction false} NothingToRun<S>(exec: Exec<S>, st: State<S>, trouble: string -> Trouble)
    ensures Ends(exec, st, [], trouble, Pending(st.log, []), RunScripts(exec, st, [], trouble), 0)
  {
  }

  lemma {:induction false} TroubledMore(init: seq<Script>, last: Script, trouble: string -> Trouble)
    ensures NoneTroubled(init + [last], trouble) <==> NoneTroubled(init, trouble) && trouble(last.version) == NoTrouble
  {
    if NoneTroubled(init + [last], trouble) {
      forall i | 0 <= i < |init| ensures trouble(init[i].version) == NoTrouble { assert (init + [last])[i] == init[i]; }
      assert (init + [last])[|init|] == last;
    }
  }

  lemma {:induction false} StoppedBefore<S>(exec: Exec<S>, st: State<S>, init: seq<Script>, last: Script, trouble: string -> Trouble,
                                            old': seq<Script>, todo: seq<Script>, r: Ended<S>, n: nat)
    requires Ends(exec, st, init, trouble, old', r, n) && !r.ok && (todo == old' || todo == old' + [last])
    ensures Ends(exec, st, init + [last], trouble, todo, r, n)
  {
    TroubledMore(init, last, trouble);
    FoldOneMore(exec, st.db, old', last);
    hide NoneTroubled, Fold;
    assert todo[..n] == old'[..n];
  }

  lemma {:induction false} OneMoreScript<S>(exec: Exec<S>, st: State<S>, init: seq<Script>, last: Script, trouble: string -> Trouble,
                                            old': seq<Script>, todo: seq<Script>, before: Ended<S>, r: Ended<S>, n: nat) returns (k: nat)
    requires Ends(exec, st, init, trouble, old', before, n) && before.ok && r == ApplyOne(exec, before.state, last, trouble(last.version))
    requires todo == old' + if Applied(st.log, last.version) then [] else [last]
    requires Applied(st.log + old', last.version) <==> Applied(st.log, last.version)
    ensures Ends(exec, st, init + [last], trouble, todo, r, k)
  {
    TroubledMore(init, last, trouble);
    FoldOneMore(exec, st.db, old', last);
    hide NoneTroubled, Fold, Applied;
    assert old'[..n] == old' && todo[..|todo|] == todo && todo[..n] == old';
    var skips := trouble(last.version) == BeforeCommit || Applied(st.log, last.version) || exec(before.state.db, last.ddl).None?;
    k := if skips then n else n + 1;
    if !skips { assert (st.log + old') + [last] == st.log + todo; }
  }

  /** A run over a directory ends in the same way for its sorted scripts, or changes nothing. */
  lemma {:induction false} RunDirIs<S>(exec: Exec<S>, st: State<S>, dir: Dir, starts: bool, trouble: string -> Trouble) returns (k: nat)
    ensures ListsFiles(dir, Sorted(dir), SortedKeys(Scripts(dir)))
    ensures var r := RunDir(exec, st, dir, starts, trouble);
      if starts then Ends(exec, st, Sorted(dir), trouble, Pending(st.log, Sorted(dir)), r, k) else r == Ended(st, false)
  {
    hide RunScripts, Ends, ListsFiles, Pending, Sorted, Scripts;
    SortedLists(dir);
    SortedVersionsDiffer(dir);
    k := RunIs(exec, st, Sorted(dir), trouble);
  }
}
