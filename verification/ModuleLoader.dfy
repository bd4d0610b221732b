/** The run-time module loader (libkite/loader.go) over its cache (libkite/cache.go): load()
    statements execute modules recursively, completed modules are cached, and a set of modules
    under way detects cycles. Interpreted code is a list of statements that either load or
    fail; every other effect of a script is left out. */
module ModuleLoader {
  import opened Common
  import opened Graphs

  type Path = string
  type Ref = string

  /** The exports of a completed module, identified by the path they were loaded from. */
  datatype Exports = Exports(of: Path)

  /** The part of a script that matters to loading: a load() statement, or a failure of its own. */
  datatype Stmt = Load(ref: Ref) | Fail

  /** The fixed surroundings of a run. `resolve` is resolveModulePathFrom(ref, caller), absent
      when it errors; `files` lists the files a module path executes in order, absent when the
      manifest or entry checks fail; `scripts` is absent for unreadable or unparsable files. */
  datatype World = World(
    builtins: set<Ref>,
    resolve: map<(Ref, Path), Path>,
    files: map<Path, seq<Path>>,
    scripts: map<Path, seq<Stmt>>)

  // ---------------------------------------------------------------- the load graph

  /** `stmt` in file `file` loads module `q`. */
  predicate LoadsBy(w: World, file: Path, stmt: Stmt, q: Path) {
    stmt.Load? && stmt.ref !in w.builtins && (stmt.ref, file) in w.resolve && w.resolve[(stmt.ref, file)] == q
  }

  ghost predicate Loads(w: World, file: Path, q: Path) {
    file in w.scripts && exists stmt :: stmt in w.scripts[file] && LoadsBy(w, file, stmt, q)
  }

  /** Some file of module `p` loads `q`. */
  ghost predicate ModuleLoads(w: World, p: Path, q: Path) {
    p in w.files && exists file :: file in w.files[p] && Loads(w, file, q)
  }

  ghost function Edges(w: World): Path -> iset<Path> {
    p => iset q | ModuleLoads(w, p, q)
  }

  /** `stmt` fails in `file` whatever else happens: its own failure or an unresolvable load. */
  predicate BrokenStmt(w: World, file: Path, stmt: Stmt) {
    stmt.Fail? || (stmt.ref !in w.builtins && (stmt.ref, file) !in w.resolve)
  }

  ghost predicate BrokenFile(w: World, file: Path) {
    file !in w.scripts || exists stmt :: stmt in w.scripts[file] && BrokenStmt(w, file, stmt)
  }

  ghost predicate Broken(w: World, p: Path) {
    p !in w.files || exists file :: file in w.files[p] && BrokenFile(w, file)
  }

  /** Nothing reachable from `p` is broken or on a cycle. */
  ghost predicate Loadable(w: World, p: Path) {
    forall q :: Reaches(Edges(w), p, q) ==> !Broken(w, q) && !OnCycle(Edges(w), q)
  }

  /** A failure below a successor is a failure below the node. */
  lemma UnloadableBelow(w: World, p: Path, q: Path)
    requires q in Edges(w)(p) && !Loadable(w, q)
    ensures !Loadable(w, p)
  {
    var bad :| Reaches(Edges(w), q, bad) && (Broken(w, bad) || OnCycle(Edges(w), bad));
    ReachesSelf(Edges(w), p);
    ReachesThen(Edges(w), p, p, q);
    ReachesTrans(Edges(w), p, q, bad);
  }

  // ---------------------------------------------------------------- the cache

  /** libkite/cache.go. */
  class ModuleCache {
    var modules: map<Path, Exports>
    var loading: map<Path, bool>

    constructor ()
      ensures modules == map[] && loading == map[]
    {
      modules, loading := map[], map[];
    }

    method Get(path: Path) returns (m: Option<Exports>)
      ensures m == if path in modules then Some(modules[path]) else None
    {
      m := if path in modules then Some(modules[path]) else None;
    }

    method Set(path: Path, exports: Exports)
      modifies this
      ensures modules == old(modules)[path := exports]
      ensures loading == old(loading) - {path}
    {
      modules := modules[path := exports];
      loading := loading - {path};
    }

    method StartLoading(path: Path) returns (started: bool)
      modifies this`loading
      ensures started <==> !(path in old(loading) && old(loading)[path])
      ensures loading == if started then old(loading)[path := true] else old(loading)
    {
      if path in loading && loading[path] {
        return false;
      }
      loading := loading[path := true];
      started := true;
    }

    method StopLoading(path: Path)
      modifies this`loading
      ensures loading == old(loading) - {path}
    {
      loading := loading - {path};
    }
  }

  // ---------------------------------------------------------------- the loader

  lemma PutThenRemove<V>(m: map<Path, V>, p: Path, v: V)
    requires p !in m
    ensures m[p := v] - {p} == m
    ensures forall all: set<Path> :: p in all ==> all - m[p := v].Keys < all - m.Keys
  {
    forall all: set<Path> | p in all ensures all - m[p := v].Keys < all - m.Keys {
      assert p in all - m.Keys;
    }
  }

  lemma MoveOne(completed: seq<Path>, open: multiset<Path>, p: Path)
    requires p in open
    ensures multiset(completed + [p]) + (open - multiset{p}) == multiset(completed) + open
    ensures forall q :: q in completed + [p] <==> q in completed || q == p
  {
  }

  class Runtime {
    const world: World
    const cache: ModuleCache
    /** The module paths whose load was started and completed, in order, and those started but
        not completed. */
    ghost var started: seq<Path>
    ghost var completed: seq<Path>
    ghost var open: multiset<Path>

    constructor (w: World)
      ensures Valid() && world == w && started == completed == [] && open == multiset{}
      ensures fresh(cache) && cache.loading == map[]
    {
      world := w;
      cache := new ModuleCache();
      started, completed, open := [], [], multiset{};
    }

    /** Exactly the completed modules are cached. None of them is broken, and each completed
        after every module it loads. */
    ghost predicate Valid()
      reads this, cache
    {
      && (forall p :: p in cache.modules <==> p in completed)
      && (forall p :: p in cache.modules ==> cache.modules[p] == Exports(p) && !Broken(world, p))
      && (forall p :: p in cache.loading ==> cache.loading[p] && p !in cache.modules)
      && SuccessorsFirst(Edges(world), completed)
      && multiset(started) == multiset(completed) + open
    }

    /** Everything under way leads to `p`: what a load of `p` finds when it starts. */
    ghost predicate LeadsTo(p: Path)
      reads cache
    {
      forall l :: l in cache.loading ==> ReachesOn(Edges(world), l, p)
    }

    ghost predicate AllLeadTo(succ: iset<Path>)
      reads cache
    {
      forall q :: q in succ ==> LeadsTo(q)
    }

    /** What every call keeps: `loading` is as it was, the completed modules have only grown,
        and the new ones are reachable from `root`. */
    twostate predicate Extends(root: Path)
      reads this, cache
    {
      && cache.loading == old(cache.loading)
      && old(cache.modules.Keys) <= cache.modules.Keys
      && forall p :: p in cache.modules.Keys - old(cache.modules.Keys) ==> Reaches(Edges(world), root, p)
    }

    /** Where a load() statement leads, if it is not a built-in and resolves. */
    function Target(ref: Ref, caller: Path): Option<Path> {
      if ref !in world.builtins && (ref, caller) in world.resolve then Some(world.resolve[(ref, caller)]) else None
    }

    /** loadModule: the callback of a load() statement in file `caller`, which belongs to `root`. */
    method LoadModule(ref: Ref, caller: Path, ghost root: Path) returns (ok: bool)
      requires Valid()
      requires Target(ref, caller).Some? ==>
        Target(ref, caller).value in Edges(world)(root) && LeadsTo(Target(ref, caller).value)
      modifies this`started, this`completed, this`open, cache
      ensures Valid() && Extends(root)
      ensures ok ==> open == old(open) && !BrokenStmt(world, caller, Load(ref))
      ensures ok && Target(ref, caller).Some? ==> Target(ref, caller).value in cache.modules
      ensures !ok ==> BrokenStmt(world, caller, Load(ref)) || !Loadable(world, root)
      decreases world.resolve.Values - cache.loading.Keys, 2
    {
      if ref in world.builtins {
        return true;
      }
      var exports := LoadExternalModuleFrom(ref, caller);
      ok := exports.Some?;
      if (ref, caller) in world.resolve {
        ghost var p := world.resolve[(ref, caller)];
        ReachesSelf(Edges(world), root);
        ReachesThen(Edges(world), root, root, p);
        forall q | Reaches(Edges(world), p, q) ensures Reaches(Edges(world), root, q) {
          ReachesTrans(Edges(world), root, p, q);
        }
        if !ok {
          UnloadableBelow(world, root, p);
        }
      }
    }

    /** Success means cached, failure means not loadable, and `loading` is restored either way. */
    method LoadExternalModuleFrom(ref: Ref, caller: Path) returns (exports: Option<Exports>)
      requires Valid()
      requires (ref, caller) in world.resolve ==> LeadsTo(world.resolve[(ref, caller)])
      modifies this`started, this`completed, this`open, cache
      ensures Valid()
      ensures (ref, caller) !in world.resolve ==>
        exports.None? && unchanged(cache) && started == old(started) && completed == old(completed)
      ensures (ref, caller) in world.resolve ==>
        var p := world.resolve[(ref, caller)];
        && Extends(p)
        && (exports.Some? ==> exports.value == Exports(p) && p in cache.modules && open == old(open))
        && (exports.None? ==> !Loadable(world, p) && p !in cache.modules)
      decreases world.resolve.Values - cache.loading.Keys, 1
    {
      if (ref, caller) !in world.resolve {
        return None;
      }
      var path := world.resolve[(ref, caller)];
      var cached := cache.Get(path);
      if cached.Some? {
        return cached;
      }
      exports := LoadUncached(path);
    }

    /** loadExternalModuleFrom after a cache miss. */
    method LoadUncached(path: Path) returns (exports: Option<Exports>)
      requires Valid() && LeadsTo(path) && path !in cache.modules && path in world.resolve.Values
      modifies this`started, this`completed, this`open, cache
      ensures Valid() && Extends(path)
      ensures exports.Some? ==> exports.value == Exports(path) && path in cache.modules && open == old(open)
      ensures exports.None? ==> !Loadable(world, path) && path !in cache.modules
      decreases world.resolve.Values - cache.loading.Keys, 0
    {
      var begun := Begin(path);
      ReachesSelf(Edges(world), path);
      if !begun {
        return None;
      }
      PutThenRemove(old(cache.loading), path, true);
      var ok := LoadModuleFromPath(path);
      exports := Finish(path, ok);
    }

    /** The cycle test: marks `path` as under way, or finds that it already is. */
    method Begin(path: Path) returns (begun: bool)
      requires Valid() && LeadsTo(path) && path !in cache.modules
      modifies this`started, this`open, cache`loading
      ensures Valid()
      ensures begun <==> path !in old(cache.loading)
      ensures begun ==> AllLeadTo(Edges(world)(path)) && open == old(open) + multiset{path}
      ensures !begun ==> OnCycle(Edges(world), path) && open == old(open)
      ensures cache.loading == if begun then old(cache.loading)[path := true] else old(cache.loading)
    {
      begun := cache.StartLoading(path);
      if begun {
        started, open := started + [path], open + multiset{path};
        BelowLoading(path);
      }
    }

    /** The end of loadExternalModuleFrom: StopLoading on failure, else wrap the exports and
        cache them. */
    method Finish(path: Path, ok: bool) returns (exports: Option<Exports>)
      requires Valid() && path in cache.loading
      requires ok ==> path in open && !Broken(world, path) && forall q :: q in Edges(world)(path) ==> q in cache.modules
      modifies this`completed, this`open, cache
      ensures Valid()
      ensures exports == if ok then Some(Exports(path)) else None
      ensures cache.loading == old(cache.loading) - {path}
      ensures cache.modules == if ok then old(cache.modules)[path := Exports(path)] else old(cache.modules)
      ensures open == if ok then old(open) - multiset{path} else old(open)
    {
      if !ok {
        cache.StopLoading(path);
        return None;
      }
      OrderedSnoc(Edges(world), completed, path);
      MoveOne(completed, open, path);
      cache.Set(path, Exports(path));
      completed, open := completed + [path], open - multiset{path};
      exports := Some(Exports(path));
    }

    /** Once `path` is under way, everything under way leads to each module `path` loads. */
    lemma BelowLoading(path: Path)
      requires forall l :: l in cache.loading && l != path ==> ReachesOn(Edges(world), l, path)
      ensures AllLeadTo(Edges(world)(path))
    {
      ReachesSelf(Edges(world), path);
      forall l, q | l in cache.loading && q in Edges(world)(path) ensures ReachesOn(Edges(world), l, q) {
        ReachesSelf(Edges(world), q);
        if l != path {
          ReachesThen(Edges(world), path, path, q);
          ReachesOnTrans(Edges(world), l, path, q);
        }
      }
    }

    /** Whatever is cached could be loaded: the completion order rules out cycles. */
    lemma CompletedIsLoadable(p: Path)
      requires Valid()
      ensures p in cache.modules ==> Loadable(world, p)
    {
      if p in cache.modules {
        forall q | Reaches(Edges(world), p, q) ensures !Broken(world, q) && !OnCycle(Edges(world), q) {
          OrderedIsClosed(Edges(world), completed, |completed|);
          ClosedUnderReach(Edges(world), Nodes(completed[..|completed|]), p, q);
          OrderedIsAcyclic(Edges(world), completed, q);
        }
      }
    }

    /** loadModuleFromPath: a single file, or every file of a module directory in turn. */
    method LoadModuleFromPath(path: Path) returns (ok: bool)
      requires Valid() && path in cache.loading && AllLeadTo(Edges(world)(path))
      modifies this`started, this`completed, this`open, cache
      ensures Valid() && Extends(path)
      ensures ok ==> open == old(open) && !Broken(world, path)
      ensures ok ==> forall q :: q in Edges(world)(path) ==> q in cache.modules
      ensures !ok ==> !Loadable(world, path)
      decreases world.resolve.Values - cache.loading.Keys, 5
    {
      ReachesSelf(Edges(world), path);
      if path !in world.files {
        return false;
      }
      var files := world.files[path];
      for i := 0 to |files|
        invariant Valid() && Extends(path) && open == old(open)
        invariant forall k :: 0 <= k < i ==> FileDone(files[k])
      {
        var loaded := LoadSingleFileModule(files[i], path);
        if !loaded {
          return false;
        }
      }
      forall q | q in Edges(world)(path) ensures q in cache.modules {
        var file :| file in files && Loads(world, file, q);
        assert FileDone(file);
      }
      ok := true;
    }

    /** The file ran to its end: it is not broken and everything it loads has completed. */
    ghost predicate FileDone(file: Path)
      reads cache
    {
      !BrokenFile(world, file) && forall q :: Loads(world, file, q) ==> q in cache.modules
    }

    ghost predicate StmtDone(file: Path, stmt: Stmt)
      reads cache
    {
      !BrokenStmt(world, file, stmt) && forall q :: LoadsBy(world, file, stmt, q) ==> q in cache.modules
    }

    /** loadSingleFileModule: executes the statements of one file of module `root`. */
    method LoadSingleFileModule(file: Path, ghost root: Path) returns (ok: bool)
      requires Valid() && root in cache.loading && root in world.files && file in world.files[root]
      requires AllLeadTo(Edges(world)(root))
      modifies this`started, this`completed, this`open, cache
      ensures Valid() && Extends(root)
      ensures ok ==> open == old(open) && FileDone(file)
      ensures !ok ==> !Loadable(world, root)
      decreases world.resolve.Values - cache.loading.Keys, 4
    {
      ReachesSelf(Edges(world), root);
      if file !in world.scripts {
        assert Broken(world, root);
        return false;
      }
      var stmts := world.scripts[file];
      for i := 0 to |stmts|
        invariant Valid() && Extends(root) && open == old(open)
        invariant forall k :: 0 <= k < i ==> StmtDone(file, stmts[k])
      {
        var done := ExecStmt(stmts[i], file, root);
        if !done {
          return false;
        }
      }
      ok := true;
    }

    /** One statement of a file of module `root`. */
    method ExecStmt(stmt: Stmt, file: Path, ghost root: Path) returns (ok: bool)
      requires Valid() && root in cache.loading && root in world.files && file in world.files[root]
      requires file in world.scripts && stmt in world.scripts[file]
      requires AllLeadTo(Edges(world)(root))
      modifies this`started, this`completed, this`open, cache
      ensures Valid() && Extends(root)
      ensures ok ==> open == old(open) && StmtDone(file, stmt)
      ensures !ok ==> !Loadable(world, root)
      decreases world.resolve.Values - cache.loading.Keys, 3
    {
      if BrokenStmt(world, file, stmt) {
        ReachesSelf(Edges(world), root);
        assert BrokenFile(world, file) && Broken(world, root);
      }
      if stmt.Fail? {
        return false;
      }
      if Target(stmt.ref, file).Some? {
        assert LoadsBy(world, file, stmt, Target(stmt.ref, file).value);
      }
      ok := LoadModule(stmt.ref, file, root);
    }
  }

  /** A load from an empty cache terminates; it succeeds iff the reference resolves and neither
      a cycle nor a broken module is reachable; then exactly the reachable modules were loaded,
      each once and after everything it loads. No failed module is ever cached. */
  method LoadFresh(w: World, ref: Ref, caller: Path)
    returns (ok: bool, cached: set<Path>, ghost started: seq<Path>, ghost completed: seq<Path>)
    ensures ok <==> (ref, caller) in w.resolve && Loadable(w, w.resolve[(ref, caller)])
    ensures forall p :: p in cached ==> Loadable(w, p)
    ensures ok ==>
      && (forall p :: p in cached <==> Reaches(Edges(w), w.resolve[(ref, caller)], p))
      && (forall p :: p in started <==> p in cached)
      && (forall i, j :: 0 <= i < j < |started| ==> started[i] != started[j])
      && multiset(started) == multiset(completed) && SuccessorsFirst(Edges(w), completed)
  {
    var rt := new Runtime(w);
    label Fresh:
    var exports := rt.LoadExternalModuleFrom(ref, caller);
    ok, cached := exports.Some?, rt.cache.modules.Keys;
    started, completed := rt.started, rt.completed;
    forall p | p in cached ensures Loadable(w, p) {
      rt.CompletedIsLoadable(p);
    }
    if ok {
      var path := w.resolve[(ref, caller)];
      forall p | Reaches(Edges(w), path, p) ensures p in cached {
        OrderedIsClosed(Edges(w), completed, |completed|);
        ClosedUnderReach(Edges(w), Nodes(completed[..|completed|]), path, p);
      }
      assert multiset(started) == multiset(completed);
      forall p ensures p in started <==> p in completed {
        assert p in started <==> p in multiset(started);
        assert p in completed <==> p in multiset(completed);
      }
      SamePermutation(started, completed);
    }
  }

  /** A rearrangement of a sequence without repetitions has none either. */
  lemma SamePermutation(a: seq<Path>, b: seq<Path>)
    requires multiset(a) == multiset(b)
    requires forall i, j :: 0 <= i < j < |b| ==> b[i] != b[j]
    ensures forall i, j :: 0 <= i < j < |a| ==> a[i] != a[j]
  {
    forall i, j | 0 <= i < j < |a| ensures a[i] != a[j] {
      if a[i] == a[j] {
        Occurrences(a, i, j);
        OccursOnce(b, a[i]);
      }
    }
  }

  lemma Occurrences(a: seq<Path>, i: nat, j: nat)
    requires i < j < |a| && a[i] == a[j]
    ensures multiset(a)[a[i]] >= 2
  {
    assert a == a[..i] + [a[i]] + a[i + 1..j] + [a[j]] + a[j + 1..];
  }

  lemma {:induction false} OccursOnce(b: seq<Path>, p: Path)
    requires forall i, j :: 0 <= i < j < |b| ==> b[i] != b[j]
    ensures multiset(b)[p] <= 1
  {
    if b != [] {
      var last := |b| - 1;
      assert b == b[..last] + [b[last]];
      OccursOnce(b[..last], p);
      if p == b[last] {
        assert p !in b[..last];
        assert p !in multiset(b[..last]);
      }
    }
  }
}
