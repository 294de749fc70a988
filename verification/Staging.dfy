/**
 Staging a restored credential: a scratch directory, a file in it and a variable
 that points at it, and undoing all three, under any pattern of refused calls.
 */
module Staging {
  import opened Text

  datatype Call =
    | MakeTemp | MakeAll(path: string) | WriteFile(path: string, data: string) | RemoveTree(path: string)
    | SetVar(name: string, value: string) | UnsetVar(name: string)

  predicate Under(p: string, dir: string) { p == dir || (|dir| + 1 <= |p| && p[..|dir| + 1] == dir + "/") }

  /** What the outside decides, given every call made before: whether a call is
      refused, the name a new directory gets, what a refused removal leaves and
      what a refused write leaves behind. */
  datatype Faults = Faults(refuses: (seq<Call>, Call) -> bool, names: seq<Call> -> string,
                           spares: (seq<Call>, string) -> bool, partial: seq<Call> -> Option<string>)

  /** The process environment and the file system. */
  class Machine {
    const faults: Faults
    var env: map<string, string>
    var dirs: set<string>
    var files: map<string, string>
    var log: seq<Call>

    constructor (faults: Faults, env: map<string, string>, dirs: set<string>, files: map<string, string>)
      ensures this.faults == faults && this.env == env && this.dirs == dirs && this.files == files && log == []
    {
      this.faults, this.env, this.dirs, this.files, this.log := faults, env, dirs, files, [];
    }

    /** Nothing exists at a path or below it. */
    predicate Vacant(dir: string)
      reads this
    {
      VacantIn(dirs, files, dir)
    }

    /** A directory nothing else holds. */
    method MkdirTemp() returns (ok: bool, dir: string)
      modifies this`dirs, this`log
      ensures ok <==> !faults.refuses(old(log), MakeTemp) && dir != "" && old(Vacant(dir))
      ensures dir == faults.names(old(log)) && (ok ==> dirs == old(dirs) + {dir})
      ensures !ok ==> dirs == old(dirs)
      ensures log == old(log) + [MakeTemp]
    {
      dir := faults.names(log);
      ok := !faults.refuses(log, MakeTemp) && dir != "" && Vacant(dir);
      log := log + [MakeTemp];
      if ok {
        dirs := dirs + {dir};
      }
    }

    method MkdirAll(path: string) returns (ok: bool)
      modifies this`dirs, this`log
      ensures ok == !faults.refuses(old(log), MakeAll(path))
      ensures dirs == if ok then old(dirs) + {path} else old(dirs)
      ensures log == old(log) + [MakeAll(path)]
    {
      ok := !faults.refuses(log, MakeAll(path));
      log := log + [MakeAll(path)];
      if ok {
        dirs := dirs + {path};
      }
    }

    /** Creates a file that was not there. A write that fails part of the way
        can leave a file behind. */
    method WriteNew(path: string, data: string) returns (ok: bool)
      modifies this`files, this`log
      ensures ok <==> path !in old(dirs) && path !in old(files) && !faults.refuses(old(log), WriteFile(path, data))
      ensures ok ==> files == old(files)[path := data]
      ensures !ok ==> files == old(files) || (path !in old(files) && path in files && files == old(files)[path := files[path]])
      ensures log == old(log) + [WriteFile(path, data)]
    {
      var free := path !in dirs && path !in files;
      ok := free && !faults.refuses(log, WriteFile(path, data));
      var left := faults.partial(log);
      log := log + [WriteFile(path, data)];
      if ok {
        files := files[path := data];
      } else if free && left.Some? {
        files := files[path := left.value];
      }
    }

    /** Removes a tree. A refused removal can still have removed part of it. */
    method RemoveAll(path: string) returns (ok: bool)
      modifies this`dirs, this`files, this`log
      ensures ok == !faults.refuses(old(log), RemoveTree(path))
      ensures ok ==> Vacant(path)
      ensures OnlyUnder(path, old(dirs), old(files), dirs, files)
      ensures dirs <= old(dirs) && files.Keys <= old(files.Keys)
      ensures log == old(log) + [RemoveTree(path)]
    {
      ok := !faults.refuses(log, RemoveTree(path));
      var spares, before := faults.spares, log;
      var all := ok;
      dirs := set d | d in dirs && (!Under(d, path) || (!all && spares(before, d)));
      files := map p | p in files && (!Under(p, path) || (!all && spares(before, p))) :: files[p];
      log := log + [RemoveTree(path)];
    }

    method Set(name: string, value: string) returns (ok: bool)
      modifies this`env, this`log
      ensures ok == !faults.refuses(old(log), SetVar(name, value))
      ensures env == if ok then old(env)[name := value] else old(env)
      ensures log == old(log) + [SetVar(name, value)]
    {
      ok := !faults.refuses(log, SetVar(name, value));
      log := log + [SetVar(name, value)];
      if ok {
        env := env[name := value];
      }
    }

    method Unset(name: string) returns (ok: bool)
      modifies this`env, this`log
      ensures ok == !faults.refuses(old(log), UnsetVar(name))
      ensures env == if ok then old(env) - {name} else old(env)
      ensures log == old(log) + [UnsetVar(name)]
    {
      ok := !faults.refuses(log, UnsetVar(name));
      log := log + [UnsetVar(name)];
      if ok {
        env := env - {name};
      }
    }
  }

  predicate VacantIn(dirs: set<string>, files: map<string, string>, dir: string) {
    (forall d :: d in dirs ==> !Under(d, dir)) && (forall p :: p in files ==> !Under(p, dir))
  }

  /** Two file systems differ only at one path and below it. */
  predicate OnlyUnder(path: string, dirs0: set<string>, files0: map<string, string>, dirs1: set<string>,
      files1: map<string, string>) {
    && (forall d :: d in dirs0 + dirs1 && !Under(d, path) ==> d in dirs0 && d in dirs1)
    && (forall p :: p in files0.Keys + files1.Keys && !Under(p, path) ==> p in files0 && p in files1 && files0[p] == files1[p])
  }

  lemma {:induction false} OnlyUnderTwice(path: string, d0: set<string>, f0: map<string, string>, d1: set<string>,
      f1: map<string, string>,
                                          d2: set<string>, f2: map<string, string>)
    requires OnlyUnder(path, d0, f0, d1, f1) && OnlyUnder(path, d1, f1, d2, f2)
    ensures OnlyUnder(path, d0, f0, d2, f2)
  {
    hide Under;
  }

  /* ---- paths inside the scratch home ---- */

  /** A staging path: not empty, not absolute, no `..` segment. */
  predicate RelativePath(path: string) { path != "" && path[0] != '/' && ".." !in Split(path, '/') }

  /** The segments joining a path keeps. */
  function Segments(parts: seq<string>): seq<string> {
    if parts == [] then []
    else
      var front, last := Segments(parts[..|parts| - 1]), parts[|parts| - 1];
      if last == "" || last == "." then front else front + [last]
  }

  function Descend(dir: string, segments: seq<string>): string {
    if segments == [] then dir else Descend(dir, segments[..|segments| - 1]) + "/" + segments[|segments| - 1]
  }

  function StagingFile(dir: string, path: string): string { Descend(dir, Segments(Split(path, '/'))) }

  /** The directory the file goes in. */
  function StagingParent(dir: string, path: string): string {
    var segments := Segments(Split(path, '/'));
    if segments == [] then dir else Descend(dir, segments[..|segments| - 1])
  }

  lemma {:induction false} UnderChild(p: string, dir: string, segment: string)
    requires Under(p, dir)
    ensures Under(p + "/" + segment, dir)
  {
    if p == dir {
      assert (p + "/" + segment)[..|dir| + 1] == dir + "/";
    } else {
      assert (p + "/" + segment)[..|dir| + 1] == p[..|dir| + 1];
    }
  }

  /** Without a `..` segment the file stays under the scratch home. */
  lemma {:induction false} DescendsInside(dir: string, segments: seq<string>)
    ensures Under(Descend(dir, segments), dir)
  {
    if segments != [] {
      DescendsInside(dir, segments[..|segments| - 1]);
      UnderChild(Descend(dir, segments[..|segments| - 1]), dir, segments[|segments| - 1]);
    }
  }

  /* ---- prepare ---- */

  datatype Descriptor = Descriptor(secret: string, stagingEnv: string, stagingPath: string)

  datatype Refusal = SecretMissing | NotStaged | NotFresh

  const RUNNER := "RUNNER_ENVIRONMENT"
  const HOSTED := "github-hosted"

  function Lookup(env: map<string, string>, name: string): string { if name in env then env[name] else "" }

  /** A hosted runner without the secret that should have arrived. */
  predicate MissingSecret(d: Descriptor, endpoint: string, env: map<string, string>) {
    && Lookup(env, RUNNER) == HOSTED && (endpoint == "" || endpoint == "null")
    && d.secret != "" && Lookup(env, d.secret) == ""
  }

  /** There is nothing to stage. */
  predicate NothingToStage(d: Descriptor, env: map<string, string>) {
    d.secret == "" || d.stagingEnv == "" || Lookup(env, d.secret) == ""
  }

  class Staged {
    var dir: string
    var file: string
    var env: string
    var was: Option<string>  // the variable's prior value, None when it was unset

    constructor ()
      ensures Zero()
    {
      dir, file, env, was := "", "", "", None;
    }

    predicate Zero()
      reads this
    {
      dir == "" && file == "" && env == "" && was == None
    }

    /** The environment with the staging variable pointed at the scratch home,
        and no second entry for it. */
    method Apply(entries: seq<string>) returns (applied: seq<string>)
      ensures applied == if env == "" || dir == "" then entries else Pointed(entries, env, dir)
    {
      if env == "" || dir == "" {
        return entries;
      }
      var prefix := env + "=";
      applied := [];
      assert entries[..0] == [];
      for i := 0 to |entries|
        invariant applied == Others(entries[..i], prefix)
      {
        assert entries[..i + 1][..i] == entries[..i];
        if HasPrefix(entries[i], prefix) {
          continue;
        }
        applied := applied + [entries[i]];
      }
      assert entries[..|entries|] == entries;
      applied := applied + [prefix + dir];
    }
  }

  /** A refused removal is the last thing that happened. */
  ghost predicate RemovalRefused(faults: Faults, log: seq<Call>) {
    log != [] && log[|log| - 1].RemoveTree? && faults.refuses(log[..|log| - 1], log[|log| - 1])
  }

  ghost predicate RefusesNothing(f: Faults) { forall log, c :: !f.refuses(log, c) }

  /** The name the next scratch directory gets is free. */
  ghost predicate NamesFree(f: Faults, log: seq<Call>, dirs: set<string>, files: map<string, string>) {
    f.names(log) != "" && VacantIn(dirs, files, f.names(log))
  }

  lemma {:induction false} DescendLonger(dir: string, segments: seq<string>)
    ensures segments != [] ==> |Descend(dir, segments)| > |Descend(dir, segments[..|segments| - 1])|
    ensures |Descend(dir, segments)| >= |dir|
    ensures segments != [] ==> |Descend(dir, segments)| > |dir|
  {
    if segments != [] {
      DescendLonger(dir, segments[..|segments| - 1]);
    }
  }

  /** In a directory nothing else holds the file finds its place taken only when the
      path names the directory itself. */
  lemma {:induction false} FileIsFree(dirs: set<string>, files: map<string, string>, dir: string, path: string)
    requires VacantIn(dirs, files, dir)
    ensures StagingFile(dir, path) !in dirs + {dir} + {StagingParent(dir, path)} && StagingFile(dir, path) !in files <==>
            Segments(Split(path, '/')) != []
  {
    FileInside(dir, path);
    DescendLonger(dir, Segments(Split(path, '/')));
    hide Under, Segments, Split, Descend;
    assert Segments(Split(path, '/')) == [] ==> StagingFile(dir, path) == dir by {
      if Segments(Split(path, '/')) == [] {
        DescendNowhere(dir);
      }
    }
  }

  lemma {:induction false} DescendNowhere(dir: string)
    ensures Descend(dir, []) == dir
  {
  }

  lemma {:induction false} NewUnder(dir: string, dirs: set<string>, files: map<string, string>)
    ensures OnlyUnder(dir, dirs, files, dirs + {dir}, files) && OnlyUnder(dir, dirs, files, dirs, files)
  {
  }

  /** Writes the file and the directory it goes in. */
  method WriteCredential(m: Machine, dir: string, path: string, value: string) returns (ok: bool)
    requires RelativePath(path)
    modifies m`dirs, m`files, m`log
    ensures OnlyUnder(dir, old(m.dirs), old(m.files), m.dirs, m.files)
    ensures Under(StagingFile(dir, path), dir)
    ensures RefusesNothing(m.faults) ==>
              (ok <==> StagingFile(dir, path) !in old(m.dirs) + {StagingParent(dir, path)} && StagingFile(dir, path) !in old(m.files))
    ensures ok ==> StagingFile(dir, path) in m.files && m.files[StagingFile(dir, path)] == value
  {
    FileInside(dir, path);
    ParentInside(dir, path);
    var parent, file := StagingParent(dir, path), StagingFile(dir, path);
    hide Under, StagingParent, StagingFile;
    ok := m.MkdirAll(parent);
    if ok {
      ok := m.WriteNew(file, value);
    }
  }

  /** Stages a restored credential. A refusal leaves the environment as it was,
      and the file system too unless a removal was itself refused; what is then
      left is under the scratch directory. */
  method Prepare(m: Machine, d: Descriptor, endpoint: string, isFresh: string -> bool)
    returns (s: Staged, refusal: Option<Refusal>, ghost scratch: string)
    modifies m
    ensures fresh(s)
    ensures refusal == Some(SecretMissing) <==>
            && Lookup(old(m.env), "RUNNER_ENVIRONMENT") == "github-hosted" && (endpoint == "" || endpoint == "null")
            && d.secret != "" && Lookup(old(m.env), d.secret) == ""
    ensures refusal == Some(NotFresh) ==> !isFresh(Lookup(old(m.env), d.secret))
    ensures RefusesNothing(m.faults) && NamesFree(m.faults, old(m.log), old(m.dirs), old(m.files))
            && d.secret != "" && d.stagingEnv != "" && Lookup(old(m.env), d.secret) != "" ==>
              refusal ==
              if d.stagingPath == "" || d.stagingPath[0] == '/' || ".." in Split(d.stagingPath, '/') then Some(NotStaged)
              else if Segments(Split(d.stagingPath, '/')) == [] then Some(NotStaged)
              else if !isFresh(Lookup(old(m.env), d.secret)) then Some(NotFresh)
              else None
    ensures refusal.Some? ==> s.Zero() && m.env == old(m.env) && OnlyUnder(scratch, old(m.dirs), old(m.files), m.dirs, m.files)
    ensures refusal.Some? && !RemovalRefused(m.faults, m.log) ==> m.dirs == old(m.dirs) && m.files == old(m.files)
    ensures refusal.None? && (d.secret == "" || d.stagingEnv == "" || Lookup(old(m.env), d.secret) == "") ==>
              s.Zero() && m.env == old(m.env) && m.dirs == old(m.dirs) && m.files == old(m.files) && m.log == old(m.log)
    ensures refusal.None? && d.secret != "" && d.stagingEnv != "" && Lookup(old(m.env), d.secret) != "" ==>
              && s.dir != "" && s.dir == scratch && old(m.Vacant(scratch)) && s.env == d.stagingEnv
              && RelativePath(d.stagingPath) && isFresh(Lookup(old(m.env), d.secret))
              && s.file == StagingFile(s.dir, d.stagingPath) && Under(s.file, s.dir)
              && s.file in m.files && m.files[s.file] == Lookup(old(m.env), d.secret)
              && OnlyUnder(scratch, old(m.dirs), old(m.files), m.dirs, m.files)
              && s.was == Prior(old(m.env), s.env) && m.env == old(m.env)[s.env := s.dir]
  {
    hide Segments, Split, StagingFile, VacantIn, OnlyUnder, Under;
    s := new Staged();
    refusal, scratch := None, "";
    NewUnder("", m.dirs, m.files);
    if MissingSecret(d, endpoint, m.env) {
      refusal := Some(SecretMissing);
      return;
    }
    if NothingToStage(d, m.env) {
      return;
    }
    var value := Lookup(m.env, d.secret);
    var refused, dir := StageFile(m, d.stagingPath, value, isFresh);
    scratch := dir;
    if refused.Some? {
      refusal := refused;
      return;
    }
    hide RelativePath;
    var was := Prior(m.env, d.stagingEnv);
    var ok := m.Set(d.stagingEnv, dir);
    if !ok {
      Remove(m, dir, old(m.dirs), old(m.files));
      refusal := Some(NotStaged);
      return;
    }
    s.dir, s.file, s.env, s.was := dir, StagingFile(dir, d.stagingPath), d.stagingEnv, was;
  }

  /** Makes the scratch directory and writes a fresh credential into it. */
  method StageFile(m: Machine, path: string, value: string,
      isFresh: string -> bool) returns (refusal: Option<Refusal>, dir: string)
    modifies m`dirs, m`files, m`log
    ensures refusal != Some(SecretMissing)
    ensures refusal == Some(NotFresh) ==> !isFresh(value)
    ensures RefusesNothing(m.faults) && NamesFree(m.faults, old(m.log), old(m.dirs), old(m.files)) ==>
              refusal ==
              if !RelativePath(path) || Segments(Split(path, '/')) == [] then Some(NotStaged)
              else if !isFresh(value) then Some(NotFresh)
              else None
    ensures OnlyUnder(dir, old(m.dirs), old(m.files), m.dirs, m.files)
    ensures refusal.Some? && !RemovalRefused(m.faults, m.log) ==> m.dirs == old(m.dirs) && m.files == old(m.files)
    ensures refusal.None? ==>
              && dir != "" && old(m.Vacant(dir)) && RelativePath(path) && isFresh(value) && Under(StagingFile(dir, path), dir)
              && StagingFile(dir, path) in m.files && m.files[StagingFile(dir, path)] == value
  {
    refusal := Some(NotStaged);
    NewUnder("", m.dirs, m.files);
    var made, name := m.MkdirTemp();
    if !made {
      dir := "";
      return;
    }
    dir := name;
    ghost var d1, f1 := m.dirs, m.files;
    FileIsFree(old(m.dirs), old(m.files), dir, path);
    NewUnder(dir, old(m.dirs), old(m.files));
    hide Under, OnlyUnder, VacantIn, StagingFile, StagingParent, RelativePath, Segments, Split;
    if !RelativePath(path) {
      Remove(m, dir, old(m.dirs), old(m.files));
      return;
    }
    var ok := WriteCredential(m, dir, path, value);
    OnlyUnderTwice(dir, old(m.dirs), old(m.files), d1, f1, m.dirs, m.files);
    if !ok {
      Remove(m, dir, old(m.dirs), old(m.files));
      return;
    }
    if !isFresh(value) {
      Remove(m, dir, old(m.dirs), old(m.files));
      refusal := Some(NotFresh);
      return;
    }
    refusal := None;
  }

  lemma {:induction false} FileInside(dir: string, path: string)
    ensures Under(StagingFile(dir, path), dir)
  {
    DescendsInside(dir, Segments(Split(path, '/')));
  }

  lemma {:induction false} ParentInside(dir: string, path: string)
    ensures Under(StagingParent(dir, path), dir)
  {
    var segments := Segments(Split(path, '/'));
    if segments != [] {
      DescendsInside(dir, segments[..|segments| - 1]);
    }
  }

  function Prior(env: map<string, string>,
      name: string): Option<string> { if name in env then Some(env[name]) else None }

  /** Removes a scratch directory that stood nowhere before, whatever the
      removal answers. */
  method Remove(m: Machine, dir: string, ghost dirs: set<string>, ghost files: map<string, string>)
    requires OnlyUnder(dir, dirs, files, m.dirs, m.files)
    requires VacantIn(dirs, files, dir)
    modifies m`dirs, m`files, m`log
    ensures OnlyUnder(dir, dirs, files, m.dirs, m.files)
    ensures !RemovalRefused(m.faults, m.log) ==> m.dirs == dirs && m.files == files
  {
    ghost var d1, f1 := m.dirs, m.files;
    ghost var before := m.log;
    var ok := m.RemoveAll(dir);
    OnlyUnderTwice(dir, dirs, files, d1, f1, m.dirs, m.files);
    assert m.log[..|m.log| - 1] == before;
    if ok {
      SameEverywhere(dir, dirs, files, m.dirs, m.files);
    }
  }

  lemma {:induction false} SameEverywhere(path: string, d0: set<string>, f0: map<string, string>, d1: set<string>,
      f1: map<string, string>)
    requires OnlyUnder(path, d0, f0, d1, f1)
    requires VacantIn(d0, f0, path) && VacantIn(d1, f1, path)
    ensures d0 == d1 && f0 == f1
  {
    hide Under;
    assert f0.Keys == f1.Keys;
  }

  /* ---- discard ---- */

  /** The environment with a staging variable put back. */
  function Restored(env: map<string, string>, name: string, was: Option<string>): map<string, string> {
    if was.Some? then env[name := was.value] else env - {name}
  }

  /** Undoes a prepare. It succeeds only when both halves did, and a failed one
      leaves the handle as it was. */
  method Discard(s: Staged, m: Machine) returns (ok: bool)
    modifies s, m
    ensures old(s.dir) == "" ==> ok && m.env == old(m.env) && m.dirs == old(m.dirs) && m.files == old(m.files) && m.log == old(m.log)
    ensures old(s.dir) == "" ==> s.dir == "" && s.file == old(s.file) && s.env == old(s.env) && s.was == old(s.was)
    ensures old(s.dir) != "" ==> OnlyUnder(old(s.dir), old(m.dirs), old(m.files), m.dirs, m.files)
    ensures old(s.dir) != "" && ok ==> s.Zero() && m.Vacant(old(s.dir))
    ensures old(s.dir) != "" && ok ==>
              m.env == if old(s.env) == "" then old(m.env) else Restored(old(m.env), old(s.env), old(s.was))
    ensures !ok ==> s.dir == old(s.dir) && s.file == old(s.file) && s.env == old(s.env) && s.was == old(s.was)
    ensures !ok ==> m.env == old(m.env) || m.env == Restored(old(m.env), s.env, s.was)
    ensures ok <==> old(s.dir) == "" || !DiscardRefused(m.faults, old(m.log), old(s.dir), old(s.env), old(s.was))
  {
    if s.dir == "" {
      return true;
    }
    var removed := m.RemoveAll(s.dir);
    var restored := true;
    if s.env != "" {
      if s.was.Some? {
        restored := m.Set(s.env, s.was.value);
      } else {
        restored := m.Unset(s.env);
      }
    }
    ok := removed && restored;
    if ok {
      s.dir, s.file, s.env, s.was := "", "", "", None;
    }
  }

  /** Either half of a discard is refused. */
  ghost predicate DiscardRefused(f: Faults, log: seq<Call>, dir: string, env: string, was: Option<string>) {
    f.refuses(log, RemoveTree(dir)) ||
    (env != "" && f.refuses(log + [RemoveTree(dir)], if was.Some? then SetVar(env, was.value) else UnsetVar(env)))
  }

  /** However many discards fail first, the one that succeeds puts the prior
      environment back: a failed one changed nothing or restored it already. */
  lemma {:induction false} RestoringUndoesExporting(env: map<string, string>, name: string, dir: string)
    ensures var was := Prior(env, name);
            Restored(env[name := dir], name, was) == env && Restored(env, name, was) == env
  {
    if name !in env {
      assert env[name := dir] - {name} == env;
      assert env - {name} == env;
    } else {
      assert env[name := dir][name := env[name]] == env;
    }
  }

  /* ---- a prepare and its discards ---- */

  /** The handle's half of the environment: what discarding it puts back. */
  ghost predicate OwesEnv(s: Staged, m: Machine, env: map<string, string>)
    reads s, m
  {
    if s.dir == "" then m.env == env
    else s.env != "" && s.was == Prior(env, s.env) && (m.env == env[s.env := s.dir] || m.env == env)
  }

  /** And of the file system. */
  ghost predicate OwesFiles(s: Staged, m: Machine, dirs: set<string>, files: map<string, string>)
    reads s, m
  {
    if s.dir == "" then m.dirs == dirs && m.files == files
    else VacantIn(dirs, files, s.dir) && OnlyUnder(s.dir, dirs, files, m.dirs, m.files)
  }

  /** One discard of a handle that owes an environment, and a file system too when
      `clean`. */
  method DiscardOnce(s: Staged, m: Machine, ghost env: map<string, string>, ghost clean: bool,
      ghost dirs: set<string>, ghost files: map<string, string>)
    returns (ok: bool)
    requires OwesEnv(s, m, env) && (clean ==> OwesFiles(s, m, dirs, files))
    modifies s, m
    ensures OwesEnv(s, m, env) && (clean ==> OwesFiles(s, m, dirs, files))
    ensures ok <==> s.dir == ""
    ensures RefusesNothing(m.faults) ==> ok
  {
    ghost var d1, f1, dir := m.dirs, m.files, s.dir;
    if s.dir != "" {
      RestoringUndoesExporting(env, s.env, s.dir);
    }
    hide Under, OnlyUnder, VacantIn, Restored, Prior;
    ok := Discard(s, m);
    if dir != "" && clean {
      OnlyUnderTwice(dir, dirs, files, d1, f1, m.dirs, m.files);
      if ok {
        SameEverywhere(dir, dirs, files, m.dirs, m.files);
      }
    }
  }

  /** Discards a handle again and again until it answers ok, at most `tries` times. */
  method DiscardUntilDone(s: Staged, m: Machine, tries: nat, ghost env: map<string, string>, ghost clean: bool,
      ghost dirs: set<string>, ghost files: map<string, string>)
    returns (done: bool)
    requires OwesEnv(s, m, env) && (clean ==> OwesFiles(s, m, dirs, files))
    modifies s, m
    ensures OwesEnv(s, m, env) && (clean ==> OwesFiles(s, m, dirs, files))
    ensures done ==> s.dir == "" && m.env == env && (clean ==> m.dirs == dirs && m.files == files)
    ensures done <==> s.dir == ""
    ensures tries > 0 && RefusesNothing(m.faults) ==> done
  {
    done := s.dir == "";
    for i := 0 to tries
      invariant OwesEnv(s, m, env) && (clean ==> OwesFiles(s, m, dirs, files))
      invariant done <==> s.dir == ""
      invariant i > 0 && RefusesNothing(m.faults) ==> done
    {
      if done {
        break;
      }
      done := DiscardOnce(s, m, env, clean, dirs, files);
    }
  }

  lemma {:induction false} PreparedOwes(s: Staged, m: Machine, env: map<string, string>, dirs: set<string>, files: map<string, string>)
    requires s.dir != "" && s.env != "" && VacantIn(dirs, files, s.dir) && OnlyUnder(s.dir, dirs, files, m.dirs, m.files)
    requires s.was == Prior(env, s.env) && m.env == env[s.env := s.dir]
    ensures OwesEnv(s, m, env) && OwesFiles(s, m, dirs, files)
  {
  }

  /** A prepare undone by as many discards as it takes: whatever was refused in
      between, the environment is what it was, and so is the file system unless a
      refused prepare could not remove its scratch directory. */
  method PrepareAndDiscard(m: Machine, d: Descriptor, endpoint: string, isFresh: string -> bool, tries: nat)
    returns (refusal: Option<Refusal>, done: bool)
    modifies m
    ensures done ==> m.env == old(m.env)
    ensures done && (refusal.None? || !RemovalRefused(m.faults, m.log)) ==> m.dirs == old(m.dirs) && m.files == old(m.files)
    ensures refusal.Some? || (tries > 0 && RefusesNothing(m.faults)) ==> done
  {
    var s, r, _ := Prepare(m, d, endpoint, isFresh);
    refusal := r;
    if refusal.Some? {
      done := true;
      return;
    }
    hide Under, OnlyUnder, VacantIn, Prior, MissingSecret;
    if s.dir != "" {
      PreparedOwes(s, m, old(m.env), old(m.dirs), old(m.files));
    }
    done := DiscardUntilDone(s, m, tries, old(m.env), true, old(m.dirs), old(m.files));
  }

  /** Any number of prepares, each undone once everything prepared after it has
      been. `clean` says that no refused prepare left its scratch directory. */
  method PrepareNested(m: Machine, ds: seq<Descriptor>, endpoint: string, isFresh: string -> bool, tries: nat)
    returns (done: bool, ghost clean: bool)
    modifies m
    ensures done ==> m.env == old(m.env)
    ensures done && clean ==> m.dirs == old(m.dirs) && m.files == old(m.files)
    ensures tries > 0 && RefusesNothing(m.faults) ==> done && clean
    decreases |ds|
  {
    if ds == [] {
      return true, true;
    }
    var s, refusal, _ := Prepare(m, ds[0], endpoint, isFresh);
    if refusal.Some? {
      return true, !RemovalRefused(m.faults, m.log);
    }
    hide Under, OnlyUnder, VacantIn, Prior, MissingSecret;
    if s.dir != "" {
      PreparedOwes(s, m, old(m.env), old(m.dirs), old(m.files));
    }
    done, clean := PrepareNested(m, ds[1..], endpoint, isFresh, tries);
    if done {
      done := DiscardUntilDone(s, m, tries, old(m.env), clean, old(m.dirs), old(m.files));
    }
  }

  /* ---- nesting on the environment alone ---- */

  datatype Export = Export(name: string, dir: string)

  datatype Saved = Saved(name: string, was: Option<string>)

  /** The environment after a run of prepares, and what each one saved. */
  function Exported(env: map<string, string>, exports: seq<Export>): (map<string, string>, seq<Saved>)
    decreases |exports|
  {
    if exports == [] then (env, [])
    else
      var (before, saved) := Exported(env, exports[..|exports| - 1]);
      var last := exports[|exports| - 1];
      (before[last.name := last.dir], saved + [Saved(last.name, Prior(before, last.name))])
  }

  /** The saved variables put back, the newest first. */
  function Unwound(env: map<string, string>, saved: seq<Saved>): map<string, string>
    decreases |saved|
  {
    if saved == [] then env
    else
      var last := saved[|saved| - 1];
      Unwound(Restored(env, last.name, last.was), saved[..|saved| - 1])
  }

  /** Nested prepares undone in reverse order restore the original environment. */
  lemma {:induction false} NestedPreparesUnwind(env: map<string, string>, exports: seq<Export>)
    ensures Unwound(Exported(env, exports).0, Exported(env, exports).1) == env
    decreases |exports|
  {
    if exports != [] {
      var front, last := exports[..|exports| - 1], exports[|exports| - 1];
      NestedPreparesUnwind(env, front);
      var (before, saved) := Exported(env, front);
      RestoringUndoesExporting(before, last.name, last.dir);
      hide Restored, Prior;
      var all := Exported(env, exports).1;
      assert all[|all| - 1] == Saved(last.name, Prior(before, last.name)) && all[..|all| - 1] == saved;
    }
  }

  /** Two prepares undone in the order they were made restore it exactly when
      they name different variables, or the variable held the first directory
      all along. */
  lemma {:induction false} InOrderUndoExactlyWhen(env: map<string, string>, a: Export, b: Export)
    ensures var first := Prior(env, a.name);
            var second := Prior(env[a.name := a.dir], b.name);
            var after := env[a.name := a.dir][b.name := b.dir];
            Restored(Restored(after, a.name, first), b.name, second) == env <==> a.name != b.name || Prior(env, a.name) == Some(a.dir)
  {
    var first, second := Prior(env, a.name), Prior(env[a.name := a.dir], b.name);
    var after := env[a.name := a.dir][b.name := b.dir];
    var undone := Restored(Restored(after, a.name, first), b.name, second);
    if a.name == b.name {
      assert undone[a.name] == a.dir;
      if Prior(env, a.name) == Some(a.dir) {
        assert undone.Keys == env.Keys;
      }
    } else {
      assert undone.Keys == env.Keys;
      assert forall k :: k in env ==> undone[k] == env[k];
    }
  }

  /* ---- the child environment ---- */

  predicate HasPrefix(entry: string, prefix: string) { |prefix| <= |entry| && entry[..|prefix|] == prefix }

  /** The entries that do not carry a prefix, in order. */
  function Others(entries: seq<string>, prefix: string): seq<string> {
    if entries == [] then []
    else
      var front, last := Others(entries[..|entries| - 1], prefix), entries[|entries| - 1];
      if HasPrefix(last, prefix) then front else front + [last]
  }

  /** The entries that do. */
  function Named(entries: seq<string>, prefix: string): seq<string> {
    if entries == [] then []
    else
      var front, last := Named(entries[..|entries| - 1], prefix), entries[|entries| - 1];
      if HasPrefix(last, prefix) then front + [last] else front
  }

  function Pointed(entries: seq<string>, env: string, dir: string): seq<string> {
    Others(entries, env + "=") + [env + "=" + dir]
  }

  lemma {:induction false} OthersOfOthers(entries: seq<string>, prefix: string)
    ensures Others(Others(entries, prefix), prefix) == Others(entries, prefix)
    ensures Named(Others(entries, prefix), prefix) == []
  {
    if entries != [] {
      var front, last := Others(entries[..|entries| - 1], prefix), entries[|entries| - 1];
      OthersOfOthers(entries[..|entries| - 1], prefix);
      if !HasPrefix(last, prefix) {
        assert (front + [last])[..|front|] == front;
      }
      hide HasPrefix;
    }
  }

  /** Exactly one entry is left for the variable, the one for the scratch home;
      every other entry is kept in order; and pointing twice is pointing once. */
  lemma {:induction false} AppliesOnce(entries: seq<string>, env: string, dir: string)
    ensures var applied, prefix := Pointed(entries, env, dir), env + "=";
            && Named(applied, prefix) == [prefix + dir]
            && Others(applied, prefix) == Others(entries, prefix)
            && Pointed(applied, env, dir) == applied
  {
    var prefix := env + "=";
    var others := Others(entries, prefix);
    OthersOfOthers(entries, prefix);
    assert HasPrefix(prefix + dir, prefix);
    hide HasPrefix;
    var applied := others + [prefix + dir];
    assert applied[..|applied| - 1] == others;
    assert [] + [prefix + dir] == [prefix + dir];
  }
}
