/** The dependency resolver of basekite/resolver/resolver.go. Declared dependencies are walked
    depth first, in whatever order a map is iterated, and each identity is locked before its own
    dependencies are, which deduplicates the closure and stops at cycles. */
module Resolver {
  import opened Common
  import opened Graphs

  type Id = string
  type Source = string
  type Dir = string

  /** What an installation reports; an empty hash is None. */
  datatype Info = Info(id: Id, rev: string, hash: Option<string>, path: Dir)

  datatype Locked = Locked(source: Source, rev: string, hash: string)

  type Lock = map<Id, Locked>

  /** The fixed surroundings: what installing a source yields, the hash of each tree, the cache
      layout, the (directory, hash) pairs that verify, and the dependencies each readable
      manifest declares. Absent keys are errors. */
  datatype World = World(
    install: map<Source, Info>,
    treeHash: map<Dir, string>,
    cacheDir: (Id, string) -> Dir,
    intact: set<(Dir, string)>,
    manifest: map<Dir, map<Id, Source>>)

  datatype Resolved = Resolved(locked: Locked, dir: Dir)

  /** A locked entry that can be reused for this declaration without fetching. */
  predicate Reusable(w: World, existing: Option<Lock>, id: Id, source: Source) {
    && existing.Some? && id in existing.value && existing.value[id].source == source
    && (w.cacheDir(id, existing.value[id].rev), existing.value[id].hash) in w.intact
  }

  function Fetched(w: World, id: Id, source: Source): Option<Resolved> {
    if source !in w.install then None
    else
      var info := w.install[source];
      if info.id != id then None
      else if info.hash.Some? then Some(Resolved(Locked(source, info.rev, info.hash.value), info.path))
      else if info.path in w.treeHash then Some(Resolved(Locked(source, info.rev, w.treeHash[info.path]), info.path))
      else None
  }

  /** resolveOne. */
  function Resolution(w: World, existing: Option<Lock>, id: Id, source: Source): Option<Resolved> {
    if Reusable(w, existing, id, source) then
      Some(Resolved(existing.value[id], w.cacheDir(id, existing.value[id].rev)))
    else Fetched(w, id, source)
  }

  // ---------------------------------------------------------------- the declaration graph

  /** A dependency as declared; the root stands for the module being resolved. */
  datatype Node = Root | Decl(id: Id, source: Source)

  /** The dependencies a node declares, once it resolves to a readable manifest. */
  function Declares(w: World, existing: Option<Lock>, root: map<Id, Source>, n: Node): map<Id, Source> {
    match n
    case Root => root
    case Decl(id, source) =>
      var r := Resolution(w, existing, id, source);
      if r.Some? && r.value.dir in w.manifest then w.manifest[r.value.dir] else map[]
  }

  ghost function Edges(w: World, existing: Option<Lock>, root: map<Id, Source>): Node -> iset<Node> {
    n => iset m | IsDeclaredBy(w, existing, root, n, m)
  }

  predicate IsDeclaredBy(w: World, existing: Option<Lock>, root: map<Id, Source>, n: Node, m: Node) {
    var deps := Declares(w, existing, root, n);
    m.Decl? && m.id in deps && deps[m.id] == m.source
  }

  ghost predicate Reached(w: World, existing: Option<Lock>, root: map<Id, Source>, n: Node) {
    Reaches(Edges(w, existing, root), Root, n)
  }

  /** The declaration cannot be resolved, or its manifest cannot be read. */
  predicate Failing(w: World, existing: Option<Lock>, id: Id, source: Source) {
    var r := Resolution(w, existing, id, source);
    r.None? || r.value.dir !in w.manifest
  }

  ghost predicate SomeFailing(w: World, existing: Option<Lock>, root: map<Id, Source>) {
    exists id, source :: Reached(w, existing, root, Decl(id, source)) && Failing(w, existing, id, source)
  }

  /** Every identity is always declared with one source. */
  ghost predicate OneSource(w: World, existing: Option<Lock>, root: map<Id, Source>) {
    forall id, s, t :: Reached(w, existing, root, Decl(id, s)) && Reached(w, existing, root, Decl(id, t)) ==> s == t
  }

  /** A lock that holds the root's dependencies, only reachable declarations, each as it
      resolves, and with each its own dependencies. */
  ghost predicate IsClosure(w: World, existing: Option<Lock>, root: map<Id, Source>, lock: Lock) {
    && root.Keys <= lock.Keys
    && forall id :: id in lock ==>
      && Reached(w, existing, root, Decl(id, lock[id].source))
      && !Failing(w, existing, id, lock[id].source)
      && Resolution(w, existing, id, lock[id].source).value.locked == lock[id]
      && Declares(w, existing, root, Decl(id, lock[id].source)).Keys <= lock.Keys
  }

  /** With one source per identity, a closure holds exactly the reachable identities and no
      reachable declaration fails. */
  lemma ClosureIsReachable(w: World, existing: Option<Lock>, root: map<Id, Source>, lock: Lock)
    requires OneSource(w, existing, root) && IsClosure(w, existing, root, lock)
    ensures forall id, s :: Reached(w, existing, root, Decl(id, s)) <==> id in lock && lock[id].source == s
    ensures !SomeFailing(w, existing, root)
  {
    var edges := Edges(w, existing, root);
    var nodes := iset n: Node | Reached(w, existing, root, n) && (n.Decl? ==> n.id in lock);
    ReachesSelf(edges, Root);
    forall n, m | n in nodes && m in edges(n) ensures m in nodes {
      ReachesThen(edges, Root, n, m);
      if n.Decl? {
        assert n.source == lock[n.id].source;
      }
    }
    forall id, s | Reached(w, existing, root, Decl(id, s)) ensures id in lock && lock[id].source == s {
      ClosedUnderReach(edges, nodes, Root, Decl(id, s));
    }
  }

  /** So the lock does not depend on the order in which dependencies are walked. */
  lemma ClosureUnique(w: World, existing: Option<Lock>, root: map<Id, Source>, a: Lock, b: Lock)
    requires OneSource(w, existing, root)
    requires IsClosure(w, existing, root, a) && IsClosure(w, existing, root, b)
    ensures a == b
  {
    ClosureIsReachable(w, existing, root, a);
    ClosureIsReachable(w, existing, root, b);
    forall id ensures id in a <==> id in b {
      assert id in a ==> Reached(w, existing, root, Decl(id, a[id].source));
      assert id in b ==> Reached(w, existing, root, Decl(id, b[id].source));
    }
    forall id | id in a ensures a[id] == b[id] {
      assert Reached(w, existing, root, Decl(id, a[id].source));
    }
  }

  // ---------------------------------------------------------------- resolving, spelled out

  /** What a declaration resolves to: when reused, the entry of the lock; else what its source
      installs, which must have the declared identity, with its own hash or that of its tree. */
  lemma ResolvesTo(w: World, existing: Option<Lock>, id: Id, source: Source, to: Resolved)
    ensures Resolution(w, existing, id, source) == Some(to)
       <==> if Reusable(w, existing, id, source)
            then to.locked == existing.value[id] && to.dir == w.cacheDir(id, to.locked.rev)
            else
              && source in w.install && w.install[source].id == id && to.dir == w.install[source].path
              && to.locked.source == source && to.locked.rev == w.install[source].rev
              && (w.install[source].hash == Some(to.locked.hash)
                  || (w.install[source].hash == None && to.dir in w.treeHash && w.treeHash[to.dir] == to.locked.hash))
  {
  }

  /** What fails: a source that cannot be installed, installs another identity or cannot be hashed,
      and a manifest that cannot be read. */
  lemma FailingIff(w: World, existing: Option<Lock>, id: Id, source: Source)
    ensures Failing(w, existing, id, source)
       <==> if Reusable(w, existing, id, source) then w.cacheDir(id, existing.value[id].rev) !in w.manifest
            else
              || source !in w.install || w.install[source].id != id || w.install[source].path !in w.manifest
              || (w.install[source].hash == None && w.install[source].path !in w.treeHash)
  {
  }

  /** A dependency is declared by the root, or in the manifest in the directory that another
      declaration resolves to. */
  lemma DeclaredIff(w: World, existing: Option<Lock>, root: map<Id, Source>, n: Node, id: Id, source: Source)
    ensures IsDeclaredBy(w, existing, root, n, Decl(id, source))
       <==> || (n == Root && (id, source) in root.Items)
            || (n.Decl? && exists to: Resolved ::
                  && Resolution(w, existing, n.id, n.source) == Some(to)
                  && to.dir in w.manifest && (id, source) in w.manifest[to.dir].Items)
  {
  }

  /** What a closure locks. */
  lemma LockedIs(w: World, existing: Option<Lock>, root: map<Id, Source>, lock: Lock, id: Id)
    requires IsClosure(w, existing, root, lock) && id in lock
    ensures var entry := lock[id];
      if existing.Some? && id in existing.value && existing.value[id].source == entry.source
         && (w.cacheDir(id, existing.value[id].rev), existing.value[id].hash) in w.intact
      then
        && Reusable(w, existing, id, entry.source) && entry == existing.value[id]
        && w.cacheDir(id, entry.rev) in w.manifest && w.manifest[w.cacheDir(id, entry.rev)].Keys <= lock.Keys
      else
        && !Reusable(w, existing, id, entry.source) && entry.source in w.install
        && var info := w.install[entry.source];
           && info.id == id && info.rev == entry.rev
           && (info.hash == Some(entry.hash)
               || (info.hash == None && info.path in w.treeHash && w.treeHash[info.path] == entry.hash))
           && info.path in w.manifest && w.manifest[info.path].Keys <= lock.Keys
  {
  }

  // ---------------------------------------------------------------- re-resolution

  /** The lock's trees are intact in `w2`, where the first run resolved them to. */
  ghost predicate StillInstalled(w: World, existing: Option<Lock>, lock: Lock, w2: World) {
    && w2.manifest == w.manifest
    && forall id :: id in lock ==>
      && (w2.cacheDir(id, lock[id].rev), lock[id].hash) in w2.intact
      && Resolution(w, existing, id, lock[id].source).Some?
      && Resolution(w, existing, id, lock[id].source).value.dir == w2.cacheDir(id, lock[id].rev)
  }

  /** A locked declaration is reusable and declares what it did before. */
  lemma LockedAsBefore(w: World, existing: Option<Lock>, root: map<Id, Source>, lock: Lock, w2: World, id: Id)
    requires StillInstalled(w, existing, lock, w2) && id in lock
    ensures Reusable(w2, Some(lock), id, lock[id].source)
    ensures Declares(w2, Some(lock), root, Decl(id, lock[id].source))
         == Declares(w, existing, root, Decl(id, lock[id].source))
  {
  }

  /** With the previous lock present and its trees intact, every reachable declaration is
      reusable, and it is reachable exactly as before. */
  lemma RereachedIsLocked(w: World, existing: Option<Lock>, root: map<Id, Source>, lock: Lock, w2: World, n: Node)
    requires OneSource(w, existing, root) && IsClosure(w, existing, root, lock)
    requires StillInstalled(w, existing, lock, w2) && Reached(w2, Some(lock), root, n)
    ensures Reached(w, existing, root, n)
    ensures n.Decl? ==> n.id in lock && lock[n.id].source == n.source && Reusable(w2, Some(lock), n.id, n.source)
  {
    var before, after := Edges(w, existing, root), Edges(w2, Some(lock), root);
    ClosureIsReachable(w, existing, root, lock);
    ReachesSelf(before, Root);
    var nodes := iset n | Reached(w, existing, root, n);
    forall a, b | a in nodes && b in after(a) ensures b in nodes {
      if a.Decl? {
        LockedAsBefore(w, existing, root, lock, w2, a.id);
      }
      assert b in before(a);
      ReachesThen(before, Root, a, b);
    }
    ClosedUnderReach(after, nodes, Root, n);
    if n.Decl? {
      LockedAsBefore(w, existing, root, lock, w2, n.id);
    }
  }

  /** Re-resolution is a fixpoint: the only possible result is the previous lock. */
  lemma ReresolutionIsFixpoint(
    w: World, existing: Option<Lock>, root: map<Id, Source>, lock: Lock, w2: World, again: Lock)
    requires OneSource(w, existing, root) && IsClosure(w, existing, root, lock)
    requires StillInstalled(w, existing, lock, w2) && IsClosure(w2, Some(lock), root, again)
    ensures again == lock
  {
    forall id | id in again
      ensures id in lock && again[id] == lock[id]
    {
      RereachedIsLocked(w, existing, root, lock, w2, Decl(id, again[id].source));
    }
    forall id | id in again ensures Declares(w, existing, root, Decl(id, again[id].source)).Keys <= again.Keys {
      RereachedIsLocked(w, existing, root, lock, w2, Decl(id, again[id].source));
      LockedAsBefore(w, existing, root, lock, w2, id);
    }
    assert IsClosure(w, existing, root, again);
    ClosureUnique(w, existing, root, again, lock);
  }

  // ---------------------------------------------------------------- the resolver

  /** Every identity that is declared anywhere. */
  ghost function AllIds(w: World, root: map<Id, Source>): set<Id> {
    root.Keys + set d, id | d in w.manifest && id in w.manifest[d] :: id
  }

  class Resolver {
    const w: World
    const existing: Option<Lock>
    ghost const root: map<Id, Source>
    var lock: Lock
    ghost var installs: seq<Source>

    constructor (w: World, existing: Option<Lock>, ghost root: map<Id, Source>)
      ensures this.w == w && this.existing == existing && this.root == root
      ensures lock == map[] && installs == [] && Sound()
    {
      this.w, this.existing, this.root, lock, installs := w, existing, root, map[], [];
    }

    /** What is locked was reached and resolves so; what was installed could not be reused. */
    ghost predicate Sound()
      reads this
    {
      && (forall id :: id in lock ==> Entry(id))
      && forall s :: s in installs ==> exists id :: FetchedFor(id, s)
    }

    ghost predicate Entry(id: Id)
      reads this
      requires id in lock
    {
      && Reached(w, existing, root, Decl(id, lock[id].source))
      && Resolution(w, existing, id, lock[id].source).Some?
      && Resolution(w, existing, id, lock[id].source).value.locked == lock[id]
      && (!Reusable(w, existing, id, lock[id].source) ==> lock[id].source in installs)
    }

    ghost predicate FetchedFor(id: Id, s: Source) {
      Reached(w, existing, root, Decl(id, s)) && !Reusable(w, existing, id, s)
    }

    /** Every locked identity outside `pending` has its own dependencies locked. */
    ghost predicate Complete(pending: set<Id>)
      reads this
    {
      forall id :: id in lock && id !in pending ==> Done(id)
    }

    ghost predicate Done(id: Id)
      reads this
      requires id in lock
    {
      && !Failing(w, existing, id, lock[id].source)
      && Declares(w, existing, root, Decl(id, lock[id].source)).Keys <= lock.Keys
    }

    twostate predicate Grown()
      reads this
    {
      old(lock).Keys <= lock.Keys && forall id :: id in old(lock) ==> lock[id] == old(lock)[id]
    }

    /** resolveDeps for the dependencies that node `n` declares. */
    method ResolveDeps(deps: map<Id, Source>, ghost n: Node, ghost pending: set<Id>) returns (ok: bool)
      requires Sound() && Complete(pending)
      requires Reached(w, existing, root, n) && deps == Declares(w, existing, root, n)
      modifies this
      ensures Sound() && Grown()
      ensures ok ==> Complete(pending) && deps.Keys <= lock.Keys
      ensures !ok ==> SomeFailing(w, existing, root)
      decreases AllIds(w, root) - lock.Keys, 1, 0
    {
      var todo := deps.Keys;
      while todo != {}
        invariant todo <= deps.Keys
        invariant Sound() && Grown() && Complete(pending) && deps.Keys - todo <= lock.Keys
        decreases todo
      {
        var id :| id in todo;
        ReachesThen(Edges(w, existing, root), Root, n, Decl(id, deps[id]));
        if id !in lock {
          assert id in AllIds(w, root) - lock.Keys;
          var done := ResolveNew(id, deps[id], pending);
          if !done {
            return false;
          }
        }
        todo := todo - {id};
      }
      ok := true;
    }

    /** One round of resolveDeps' loop: lock the identity, then walk its dependencies. */
    method ResolveNew(id: Id, source: Source, ghost pending: set<Id>) returns (ok: bool)
      requires Sound() && Complete(pending) && id !in lock && id in AllIds(w, root)
      requires Reached(w, existing, root, Decl(id, source))
      modifies this
      ensures Sound() && Grown()
      ensures ok ==> Complete(pending) && id in lock
      ensures !ok ==> SomeFailing(w, existing, root)
      decreases AllIds(w, root) - lock.Keys, 0
    {
      var resolved := ResolveOne(id, source);
      if resolved.None? {
        return false;
      }
      lock := lock[id := resolved.value.locked];
      assert Entry(id) && Grown();
      assert Sound() && Complete(pending + {id});
      if resolved.value.dir !in w.manifest {
        return false;
      }
      assert id in AllIds(w, root) - old(lock.Keys);
      ok := ResolveDeps(w.manifest[resolved.value.dir], Decl(id, source), pending + {id});
    }

    method ResolveOne(id: Id, source: Source) returns (r: Option<Resolved>)
      requires Sound() && Reached(w, existing, root, Decl(id, source))
      modifies this`installs
      ensures Sound() && r == Resolution(w, existing, id, source)
      ensures r.Some? ==> r.value.locked.source == source
      ensures old(installs) <= installs && (r.Some? && !Reusable(w, existing, id, source) ==> source in installs)
    {
      if existing.Some? && id in existing.value && existing.value[id].source == source {
        var prev := existing.value[id];
        var dir := w.cacheDir(id, prev.rev);
        if (dir, prev.hash) in w.intact {
          return Some(Resolved(prev, dir));
        }
      }
      installs := installs + [source];
      assert FetchedFor(id, source);
      if source !in w.install {
        return None;
      }
      var info := w.install[source];
      if info.id != id {
        return None;
      }
      if info.hash.Some? {
        return Some(Resolved(Locked(source, info.rev, info.hash.value), info.path));
      }
      if info.path !in w.treeHash {
        return None;
      }
      r := Some(Resolved(Locked(source, info.rev, w.treeHash[info.path]), info.path));
    }
  }

  /** EnsureClosure, given the manifest's dependencies and the existing lock. The walk ends on
      every finite graph, cyclic or not; a success is a closure, a failure has a reachable
      cause, and only what could not be reused was installed. */
  method EnsureClosure(w: World, root: map<Id, Source>, existing: Option<Lock>)
    returns (r: Option<Lock>, ghost installs: seq<Source>)
    ensures r.Some? ==> IsClosure(w, existing, root, r.value)
    ensures r.None? ==> SomeFailing(w, existing, root)
    ensures OneSource(w, existing, root) ==> (r.Some? <==> !SomeFailing(w, existing, root))
    // every locked module is the one the lock had before, or the one its source installs; either way
    // its manifest can be read and what that declares is locked too
    ensures r.Some? ==> root.Keys <= r.value.Keys && forall id :: id in r.value ==>
      var entry := r.value[id];
      if existing.Some? && id in existing.value && existing.value[id].source == entry.source
         && (w.cacheDir(id, existing.value[id].rev), existing.value[id].hash) in w.intact
      then
        && entry == existing.value[id]
        && w.cacheDir(id, entry.rev) in w.manifest && w.manifest[w.cacheDir(id, entry.rev)].Keys <= r.value.Keys
      else
        && entry.source in w.install && entry.source in installs
        && var info := w.install[entry.source];
           && info.id == id && info.rev == entry.rev
           && (info.hash == Some(entry.hash)
               || (info.hash == None && info.path in w.treeHash && w.treeHash[info.path] == entry.hash))
           && info.path in w.manifest && w.manifest[info.path].Keys <= r.value.Keys
    // a reachable declaration whose source installs another identity is fatal
    ensures OneSource(w, existing, root) ==> forall id, source :: Reached(w, existing, root, Decl(id, source)) ==>
      || r.None?
      || (source in w.install && w.install[source].id == id)
      || (existing.Some? && id in existing.value && existing.value[id].source == source
          && (w.cacheDir(id, existing.value[id].rev), existing.value[id].hash) in w.intact)
    // only what could not be reused is installed
    ensures forall s :: s in installs ==>
      exists id :: Reached(w, existing, root, Decl(id, s))
        && !(existing.Some? && id in existing.value && existing.value[id].source == s
             && (w.cacheDir(id, existing.value[id].rev), existing.value[id].hash) in w.intact)
  {
    var resolver := new Resolver(w, existing, root);
    ReachesSelf(Edges(w, existing, root), Root);
    var ok := resolver.ResolveDeps(root, Root, {});
    installs := resolver.installs;
    forall s | s in installs ensures exists id :: resolver.FetchedFor(id, s) {
    }
    if !ok {
      return None, installs;
    }
    r := Some(resolver.lock);
    forall id | id in r.value ensures resolver.Entry(id) && resolver.Done(id) {
    }
    forall id | id in r.value {
      LockedIs(w, existing, root, r.value, id);
    }
    if OneSource(w, existing, root) {
      ClosureIsReachable(w, existing, root, r.value);
    }
  }

  /** Running EnsureClosure again over its own result changes nothing and fetches nothing. */
  method EnsureAgain(w: World, root: map<Id, Source>, ghost w1: World, ghost existing1: Option<Lock>, lock: Lock)
    returns (r: Option<Lock>, ghost installs: seq<Source>)
    requires OneSource(w1, existing1, root) && IsClosure(w1, existing1, root, lock)
    requires StillInstalled(w1, existing1, lock, w)
    ensures r == Some(lock) && installs == []
  {
    r, installs := EnsureClosure(w, root, Some(lock));
    if r.None? {
      ghost var id, source :| Reached(w, Some(lock), root, Decl(id, source)) && Failing(w, Some(lock), id, source);
      RereachedIsLocked(w1, existing1, root, lock, w, Decl(id, source));
      assert false;
    }
    ReresolutionIsFixpoint(w1, existing1, root, lock, w, r.value);
    if installs != [] {
      var s := installs[0];
      assert s in installs;
      ghost var id :| Reached(w, Some(lock), root, Decl(id, s)) && !Reusable(w, Some(lock), id, s);
      RereachedIsLocked(w1, existing1, root, lock, w, Decl(id, s));
    }
  }
}
