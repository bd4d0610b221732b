/** The cache-only resolver of basekite/resolver/resolver.go: a loose script's references to
    installed modules, and theirs, are locked from what is installed; nothing is fetched. */
module LooseResolver {
  import opened Common
  import opened Graphs
  import Resolver
  import StaticClosure

  type Id = Resolver.Id
  type Locked = Resolver.Locked
  type Lock = Resolver.Lock

  /** An installed module as the manager and its provenance report it; `dependencies` is empty
      when its manifest cannot be read, which lockInstalled ignores. */
  datatype Info = Info(source: string, rev: string, hash: string, dependencies: map<Id, string>)

  type Installed = map<Id, Info>

  predicate IsInstalledRef(ref: string) {
    !HasSuffix(ref, ".star") && !StaticClosure.IsPathRef(ref) && '/' in ref
  }

  /** A namespace and a name make such a reference; files, relative references and single names do not. */
  lemma InstalledRefsAre(namespace: string, name: string)
    requires namespace != "" && '/' !in namespace && '\\' !in namespace && namespace[0] != '.'
    requires '/' !in name && !HasSuffix(name, ".star")
    ensures IsInstalledRef(namespace + "/" + name)
    ensures !IsInstalledRef(name) && !IsInstalledRef("./" + name) && !IsInstalledRef("../" + name) && !IsInstalledRef("/" + name)
    ensures !IsInstalledRef(name + ".star")
  {
    var ref := namespace + "/" + name;
    assert ref[0] == namespace[0] && namespace[0] in namespace && ref[|namespace|] == '/';
    if |name| >= 5 {
      assert ref[|ref| - 5..] == name[|name| - 5..];
    } else if |ref| >= 5 {
      assert ref[|ref| - 5..][4 - |name|] == '/';
    }
    assert (name + ".star")[|name|..] == ".star";
  }

  function EntryOf(info: Info): Locked {
    Resolver.Locked(info.source, info.rev, info.hash)
  }

  predicate DependsOn(installed: Installed, a: Id, b: Id) {
    a in installed && b in installed[a].dependencies
  }

  ghost function Edges(installed: Installed): Id -> iset<Id> {
    a => iset b | DependsOn(installed, a, b)
  }

  /** `id` is referenced by the script or a dependency, at any depth, of something referenced. */
  ghost predicate Needed(installed: Installed, refs: seq<string>, id: Id) {
    exists ref :: ref in refs && IsInstalledRef(ref) && Reaches(Edges(installed), ref, id)
  }

  lemma NeededNext(installed: Installed, refs: seq<string>, a: Id, b: Id)
    requires Needed(installed, refs, a) && b in Edges(installed)(a)
    ensures Needed(installed, refs, b)
  {
    var ref :| ref in refs && IsInstalledRef(ref) && Reaches(Edges(installed), ref, a);
    ReachesThen(Edges(installed), ref, a, b);
  }

  class Locker {
    const installed: Installed
    ghost const refs: seq<string>
    var lock: Lock

    constructor (installed: Installed, ghost refs: seq<string>)
      ensures this.installed == installed && this.refs == refs && lock == map[]
    {
      this.installed, this.refs, lock := installed, refs, map[];
    }

    ghost predicate Sound()
      reads this
    {
      forall id :: id in lock ==>
        Needed(installed, refs, id) && id in installed && lock[id] == EntryOf(installed[id])
    }

    /** Every locked module outside `pending` has its dependencies locked. */
    ghost predicate Complete(pending: set<Id>)
      reads this
    {
      forall a, b :: a in lock && a !in pending && DependsOn(installed, a, b) ==> b in lock
    }

    /** lockInstalled: fails only when something needed is not installed. */
    method LockInstalled(ref: Id, ghost pending: set<Id>) returns (ok: bool)
      requires Sound() && Complete(pending) && Needed(installed, refs, ref)
      modifies this
      ensures Sound() && old(lock).Keys <= lock.Keys
      ensures ok ==> Complete(pending) && ref in lock
      ensures !ok ==> exists id :: Needed(installed, refs, id) && id !in installed
      decreases installed.Keys - lock.Keys
    {
      if ref in lock {
        return true;
      }
      if ref !in installed {
        return false;
      }
      var info := installed[ref];
      lock := lock[ref := EntryOf(info)];
      assert ref in installed.Keys - old(lock.Keys);
      var todo := info.dependencies.Keys;
      while todo != {}
        invariant todo <= info.dependencies.Keys
        invariant Sound() && Complete(pending + {ref}) && old(lock).Keys + {ref} <= lock.Keys
        invariant info.dependencies.Keys - todo <= lock.Keys
        decreases todo
      {
        var depId :| depId in todo;
        NeededNext(installed, refs, ref, depId);
        var locked := LockInstalled(depId, pending + {ref});
        if !locked {
          return false;
        }
        todo := todo - {depId};
      }
      ok := true;
    }
  }

  datatype Result = Synced(lock: Lock) | NotInstalled

  /** SyncLoose, given the script's load targets: it succeeds iff everything needed is
      installed, and then locks exactly that, whatever order the maps are walked in. */
  method SyncLoose(installed: Installed, refs: seq<string>) returns (r: Result)
    ensures r.Synced? <==> forall id :: Needed(installed, refs, id) ==> id in installed
    ensures r.Synced? ==> forall id :: id in r.lock <==> Needed(installed, refs, id)
    ensures r.Synced? ==> forall id :: id in r.lock ==>
      && id in installed && r.lock[id].source == installed[id].source
      && r.lock[id].rev == installed[id].rev && r.lock[id].hash == installed[id].hash
    ensures r.Synced? ==> forall id :: id in r.lock ==> installed[id].dependencies.Keys <= r.lock.Keys
  {
    var locker := new Locker(installed, refs);
    for i := 0 to |refs|
      invariant locker.Sound() && locker.Complete({})
      invariant forall k :: 0 <= k < i && IsInstalledRef(refs[k]) ==> refs[k] in locker.lock
    {
      if !IsInstalledRef(refs[i]) {
        continue;
      }
      ReachesSelf(Edges(installed), refs[i]);
      assert Needed(installed, refs, refs[i]);
      var ok := locker.LockInstalled(refs[i], {});
      if !ok {
        return NotInstalled;
      }
    }
    r := Synced(locker.lock);
    forall id | id in r.lock ensures installed[id].dependencies.Keys <= r.lock.Keys {
      forall dep | dep in installed[id].dependencies.Keys ensures dep in r.lock {
        assert DependsOn(installed, id, dep);
      }
    }
    ghost var locked := iset a | a in r.lock;
    forall id | Needed(installed, refs, id) ensures id in r.lock {
      var ref :| ref in refs && IsInstalledRef(ref) && Reaches(Edges(installed), ref, id);
      ClosedUnderReach(Edges(installed), locked, ref, id);
    }
  }
}
