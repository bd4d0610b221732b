/** Child reconciliation of cloudkite/modules/k8s/control.go: the desired children are applied with
    an owner reference to the parent, and owned children that are no longer desired are pruned. */
module Children {
  import opened Common

  type Gvr = string
  type Uid = string

  datatype OwnerRef = OwnerRef(uid: Uid, name: string)

  /** A child as the server stores it, under its kind, namespace and name. */
  datatype ChildKey = ChildKey(gvr: Gvr, ns: string, name: string)
  datatype Child = Child(owners: seq<OwnerRef>, spec: string)
  type Cluster = map<ChildKey, Child>

  /** A child as a handler returns it. */
  datatype Manifest = Manifest(kind: string, ns: string, name: string, owners: seq<OwnerRef>, spec: string)

  datatype Parent = Parent(uid: Uid, ns: string, name: string)

  datatype Kind = Kind(gvr: Gvr, namespaced: bool)

  /** The controller's own kind and namespace, and what the resolver knows. */
  datatype Config = Config(gvr: Gvr, namespaced: bool, namespace: string, kinds: map<string, Kind>)

  /** Which requests succeed. */
  datatype Outcomes = Outcomes(applied: ChildKey -> bool, listed: Gvr -> bool, deleted: ChildKey -> bool)

  // ---------------------------------------------------------------- owner references

  predicate Owns(owners: seq<OwnerRef>, uid: Uid) {
    exists i :: 0 <= i < |owners| && owners[i].uid == uid
  }

  /** The first reference with this uid replaced, or the reference appended. */
  function WithOwner(owners: seq<OwnerRef>, ref: OwnerRef): seq<OwnerRef> {
    if owners == [] then [ref]
    else if owners[0].uid == ref.uid then [ref] + owners[1..]
    else [owners[0]] + WithOwner(owners[1..], ref)
  }

  /** The parent owns the child afterwards, and other owners are neither added nor lost. */
  lemma {:induction false} WithOwnerOwns(owners: seq<OwnerRef>, ref: OwnerRef)
    ensures ref in WithOwner(owners, ref)
    ensures forall uid :: Owns(WithOwner(owners, ref), uid) <==> uid == ref.uid || Owns(owners, uid)
    ensures forall r: OwnerRef :: r.uid != ref.uid ==> (r in WithOwner(owners, ref) <==> r in owners)
  {
    var with := WithOwner(owners, ref);
    if owners != [] {
      assert owners == [owners[0]] + owners[1..];
      if owners[0].uid != ref.uid {
        WithOwnerOwns(owners[1..], ref);
        assert with == [owners[0]] + WithOwner(owners[1..], ref);
      }
      forall uid ensures Owns(with, uid) <==> uid == ref.uid || Owns(owners, uid) {
        OwnsCons(owners[0], owners[1..], uid);
        OwnsCons(with[0], with[1..], uid);
      }
    }
  }

  lemma OwnsCons(first: OwnerRef, rest: seq<OwnerRef>, uid: Uid)
    ensures Owns([first] + rest, uid) <==> first.uid == uid || Owns(rest, uid)
  {
    var all := [first] + rest;
    if first.uid == uid {
      assert all[0].uid == uid;
    }
    if i :| 0 <= i < |rest| && rest[i].uid == uid {
      assert all[i + 1].uid == uid;
    }
    if i :| 0 <= i < |all| && all[i].uid == uid {
      assert i > 0 ==> rest[i - 1].uid == uid;
    }
  }

  lemma WithOwnerAt(owners: seq<OwnerRef>, ref: OwnerRef, i: nat)
    requires i < |owners|
    ensures owners[..i] + WithOwner(owners[i..], ref)
         == if owners[i].uid == ref.uid then owners[i := ref] else owners[..i + 1] + WithOwner(owners[i + 1..], ref)
  {
    var rest := owners[i + 1..];
    assert owners[i..][1..] == rest;
    if owners[i].uid == ref.uid {
      assert owners[i := ref] == owners[..i] + ([ref] + rest);
    } else {
      assert owners[..i + 1] == owners[..i] + [owners[i]];
      assert (owners[..i] + [owners[i]]) + WithOwner(rest, ref) == owners[..i] + ([owners[i]] + WithOwner(rest, ref));
    }
  }

  method AddOrUpdateOwnerRef(owners: seq<OwnerRef>, ref: OwnerRef) returns (refs: seq<OwnerRef>)
    ensures refs == WithOwner(owners, ref)
  {
    refs := owners;
    for i := 0 to |owners|
      invariant refs == owners
      invariant WithOwner(owners, ref) == owners[..i] + WithOwner(owners[i..], ref)
    {
      WithOwnerAt(owners, ref, i);
      if owners[i].uid == ref.uid {
        refs := refs[i := ref];
        return;
      }
    }
    refs := refs + [ref];
  }

  // ---------------------------------------------------------------- applying

  function ParentNs(c: Config, parent: Parent): string {
    if parent.ns == "" && c.namespaced then c.namespace else parent.ns
  }

  /** The namespace a child is given: its own, else the parent's if its kind has namespaces. */
  function ChildNs(c: Config, parent: Parent, m: Manifest): string
    requires m.kind in c.kinds
  {
    if m.ns == "" && c.kinds[m.kind].namespaced then ParentNs(c, parent) else m.ns
  }

  /** The key recorded as desired. */
  function DesiredKey(c: Config, parent: Parent, m: Manifest): ChildKey
    requires m.kind in c.kinds
  {
    ChildKey(c.kinds[m.kind].gvr, ChildNs(c, parent, m), m.name)
  }

  /** The key the server stores the child under: cluster-scoped kinds have no namespace. */
  function StoredKey(c: Config, parent: Parent, m: Manifest): ChildKey
    requires m.kind in c.kinds
  {
    ChildKey(c.kinds[m.kind].gvr, if c.kinds[m.kind].namespaced then ChildNs(c, parent, m) else "", m.name)
  }

  /** Server-side apply: the applied owners are set, owners of other uids stay. */
  function Merged(cluster: Cluster, key: ChildKey, owners: seq<OwnerRef>, spec: string): Child {
    Child(owners + (if key in cluster then Others(cluster[key].owners, owners) else []), spec)
  }

  function Others(existing: seq<OwnerRef>, owners: seq<OwnerRef>): seq<OwnerRef> {
    if existing == [] then []
    else (if Owns(owners, existing[0].uid) then [] else [existing[0]]) + Others(existing[1..], owners)
  }

  function Applied(c: Config, parent: Parent, cluster: Cluster, m: Manifest): Cluster
    requires m.kind in c.kinds
  {
    var key := StoredKey(c, parent, m);
    cluster[key := Merged(cluster, key, WithOwner(m.owners, OwnerRef(parent.uid, parent.name)), m.spec)]
  }

  predicate Applies(c: Config, parent: Parent, o: Outcomes, m: Manifest) {
    m.kind in c.kinds && o.applied(StoredKey(c, parent, m))
  }

  predicate AllApply(c: Config, parent: Parent, o: Outcomes, ms: seq<Manifest>) {
    forall i :: 0 <= i < |ms| ==> Applies(c, parent, o, ms[i])
  }

  function ApplyAll(c: Config, parent: Parent, cluster: Cluster, o: Outcomes, ms: seq<Manifest>): Cluster
    requires AllApply(c, parent, o, ms)
  {
    if ms == [] then cluster
    else Applied(c, parent, ApplyAll(c, parent, cluster, o, ms[..|ms| - 1]), ms[|ms| - 1])
  }

  function DesiredKeys(c: Config, parent: Parent, ms: seq<Manifest>): set<ChildKey>
    requires forall i :: 0 <= i < |ms| ==> ms[i].kind in c.kinds
  {
    set i | 0 <= i < |ms| :: DesiredKey(c, parent, ms[i])
  }

  /** The kinds the controller watches after these children were seen. */
  function Watched(c: Config, watched: set<Gvr>, ms: seq<Manifest>): set<Gvr>
    requires forall i :: 0 <= i < |ms| ==> ms[i].kind in c.kinds
  {
    watched + (set i | 0 <= i < |ms| && c.kinds[ms[i].kind].gvr != c.gvr :: c.kinds[ms[i].kind].gvr)
  }

  // ---------------------------------------------------------------- pruning

  /** A listing of `key`'s kind for this parent shows `key`. */
  predicate Shown(c: Config, parentNs: string, key: ChildKey) {
    !(c.namespaced && parentNs != "") || key.ns == parentNs
  }

  /** Pruning asks to delete it: listed, owned by the parent, not desired. */
  predicate Orphan(
    c: Config, uid: Uid, parentNs: string, watched: set<Gvr>, desired: set<ChildKey>, o: Outcomes, cluster: Cluster, key: ChildKey)
  {
    && key in cluster && key.gvr in watched && o.listed(key.gvr) && Shown(c, parentNs, key)
    && Owns(cluster[key].owners, uid) && key !in desired
  }

  function Pruned(
    c: Config, uid: Uid, parentNs: string, watched: set<Gvr>, desired: set<ChildKey>, o: Outcomes, cluster: Cluster): Cluster
  {
    map key | key in cluster && !(Orphan(c, uid, parentNs, watched, desired, o, cluster, key) && o.deleted(key)) :: cluster[key]
  }

  // ---------------------------------------------------------------- the controller

  class Controller {
    const c: Config
    var watchedGvrs: set<Gvr>
    var cluster: Cluster

    constructor (c: Config, cluster: Cluster)
      ensures this.c == c && this.cluster == cluster && watchedGvrs == {}
    {
      this.c, this.cluster, watchedGvrs := c, cluster, {};
    }

    method AutoWatch(gvr: Gvr)
      modifies this`watchedGvrs
      ensures watchedGvrs == old(watchedGvrs) + if gvr == c.gvr then {} else {gvr}
    {
      if gvr in watchedGvrs || gvr == c.gvr {
        return;
      }
      watchedGvrs := watchedGvrs + {gvr};
    }

    /** pruneOrphanedChildren: kinds in any order, the items of each listing in any order. */
    method PruneOrphanedChildren(uid: Uid, parentNs: string, desired: set<ChildKey>, o: Outcomes)
      modifies this`cluster
      ensures cluster == Pruned(c, uid, parentNs, watchedGvrs, desired, o, old(cluster))
    {
      var gvrs := watchedGvrs;
      while gvrs != {}
        invariant gvrs <= watchedGvrs
        invariant cluster == Pruned(c, uid, parentNs, watchedGvrs - gvrs, desired, o, old(cluster))
        decreases gvrs
      {
        var gvr :| gvr in gvrs;
        PruneKind(gvr, uid, parentNs, desired, o);
        gvrs := gvrs - {gvr};
      }
    }

    /** The body of the outer loop: list one kind and delete its orphans. */
    method PruneKind(gvr: Gvr, uid: Uid, parentNs: string, desired: set<ChildKey>, o: Outcomes)
      modifies this`cluster
      ensures cluster == Pruned(c, uid, parentNs, {gvr}, desired, o, old(cluster))
    {
      if !o.listed(gvr) {
        return;
      }
      var items := set key | key in cluster && key.gvr == gvr && Shown(c, parentNs, key);
      while items != {}
        invariant items <= old(cluster).Keys
        invariant forall key :: key in items ==> key.gvr == gvr && Shown(c, parentNs, key) && key in cluster
        invariant forall key :: key in cluster ==> key in old(cluster) && cluster[key] == old(cluster)[key]
        invariant forall key :: key in old(cluster) && key !in items ==>
          (key in cluster <==> !(Orphan(c, uid, parentNs, {gvr}, desired, o, old(cluster), key) && o.deleted(key)))
        decreases items
      {
        var key :| key in items;
        var isOwned := Owns(cluster[key].owners, uid);
        if isOwned && key !in desired && o.deleted(key) {
          cluster := cluster - {key};
        }
        items := items - {key};
      }
    }

    /** Exactly the first `n` children were applied, the next one failed, nothing was pruned. */
    ghost predicate StoppedAt(parent: Parent, before: Cluster, ms: seq<Manifest>, o: Outcomes, n: nat)
      reads this
      requires n < |ms|
    {
      && AllApply(c, parent, o, ms[..n]) && !Applies(c, parent, o, ms[n])
      && cluster == ApplyAll(c, parent, before, o, ms[..n])
    }

    /** One round of the loop: own, watch and apply a child. */
    method ApplyChild(parent: Parent, m: Manifest, o: Outcomes) returns (ok: bool)
      modifies this
      ensures ok <==> Applies(c, parent, o, m)
      ensures cluster == if ok then Applied(c, parent, old(cluster), m) else old(cluster)
      ensures watchedGvrs == old(watchedGvrs) +
        if m.kind in c.kinds && c.kinds[m.kind].gvr != c.gvr then {c.kinds[m.kind].gvr} else {}
    {
      if m.kind !in c.kinds {
        return false;
      }
      var refs := AddOrUpdateOwnerRef(m.owners, OwnerRef(parent.uid, parent.name));
      AutoWatch(c.kinds[m.kind].gvr);
      var key := StoredKey(c, parent, m);
      if !o.applied(key) {
        return false;
      }
      cluster := cluster[key := Merged(cluster, key, refs, m.spec)];
      ok := true;
    }

    /** reconcileDesiredChildren: apply every child, or stop at the first failure without pruning
        anything; after the last one, prune. */
    method ReconcileDesiredChildren(parent: Parent, ms: seq<Manifest>, o: Outcomes) returns (ok: bool)
      modifies this
      ensures ok <==> AllApply(c, parent, o, ms)
      ensures ok ==> watchedGvrs == Watched(c, old(watchedGvrs), ms)
      ensures ok ==> cluster == Reconciled(c, parent, old(watchedGvrs), old(cluster), o, ms)
      ensures !ok ==> exists n :: 0 <= n < |ms| && StoppedAt(parent, old(cluster), ms, o, n)
    {
      var desired: set<ChildKey> := {};
      for i := 0 to |ms|
        invariant AllApply(c, parent, o, ms[..i])
        invariant cluster == ApplyAll(c, parent, old(cluster), o, ms[..i])
        invariant desired == DesiredKeys(c, parent, ms[..i])
        invariant watchedGvrs == Watched(c, old(watchedGvrs), ms[..i])
      {
        var applied := ApplyChild(parent, ms[i], o);
        if !applied {
          assert StoppedAt(parent, old(cluster), ms, o, i);
          return false;
        }
        desired := desired + {DesiredKey(c, parent, ms[i])};
        assert ms[..i + 1] == ms[..i] + [ms[i]];
        Snoc(c, parent, old(watchedGvrs), old(cluster), o, ms[..i], ms[i]);
      }
      assert ms[..|ms|] == ms;
      PruneOrphanedChildren(parent.uid, ParentNs(c, parent), desired, o);
      ok := true;
    }
  }

  /** What one more child adds. */
  lemma Snoc(c: Config, parent: Parent, watched: set<Gvr>, cluster: Cluster, o: Outcomes, ms: seq<Manifest>, m: Manifest)
    requires AllApply(c, parent, o, ms) && Applies(c, parent, o, m)
    ensures AllApply(c, parent, o, ms + [m])
    ensures ApplyAll(c, parent, cluster, o, ms + [m]) == Applied(c, parent, ApplyAll(c, parent, cluster, o, ms), m)
    ensures DesiredKeys(c, parent, ms + [m]) == DesiredKeys(c, parent, ms) + {DesiredKey(c, parent, m)}
    ensures Watched(c, watched, ms + [m])
         == Watched(c, watched, ms) + if c.kinds[m.kind].gvr != c.gvr then {c.kinds[m.kind].gvr} else {}
  {
    assert (ms + [m])[..|ms|] == ms;
    WatchedSnoc(c, watched, ms, m);
    DesiredSnoc(c, parent, ms, m);
  }

  lemma DesiredSnoc(c: Config, parent: Parent, ms: seq<Manifest>, m: Manifest)
    requires m.kind in c.kinds && forall i :: 0 <= i < |ms| ==> ms[i].kind in c.kinds
    ensures DesiredKeys(c, parent, ms + [m]) == DesiredKeys(c, parent, ms) + {DesiredKey(c, parent, m)}
  {
    var all := ms + [m];
    forall i | 0 <= i < |ms| ensures all[i] == ms[i] {
    }
    forall key | key in DesiredKeys(c, parent, ms) + {DesiredKey(c, parent, m)} ensures key in DesiredKeys(c, parent, all) {
      if i :| 0 <= i < |ms| && key == DesiredKey(c, parent, ms[i]) {
        assert key == DesiredKey(c, parent, all[i]);
      } else {
        assert key == DesiredKey(c, parent, all[|ms|]);
      }
    }
  }

  lemma WatchedSnoc(c: Config, watched: set<Gvr>, ms: seq<Manifest>, m: Manifest)
    requires m.kind in c.kinds && forall i :: 0 <= i < |ms| ==> ms[i].kind in c.kinds
    ensures Watched(c, watched, ms + [m])
         == Watched(c, watched, ms) + if c.kinds[m.kind].gvr == c.gvr then {} else {c.kinds[m.kind].gvr}
  {
    var all, gvr := ms + [m], c.kinds[m.kind].gvr;
    forall g ensures g in Watched(c, watched, all)
        <==> g in Watched(c, watched, ms) || (g == gvr && gvr != c.gvr)
    {
      if g == gvr && gvr != c.gvr {
        assert all[|ms|] == m;
      }
      if i :| 0 <= i < |ms| && c.kinds[ms[i].kind].gvr != c.gvr && g == c.kinds[ms[i].kind].gvr {
        assert all[i] == ms[i];
      }
    }
  }

  // ---------------------------------------------------------------- exactness

  /** The result of a reconciliation in which everything was applied. */
  function Reconciled(c: Config, parent: Parent, watched: set<Gvr>, cluster: Cluster, o: Outcomes, ms: seq<Manifest>): Cluster
    requires AllApply(c, parent, o, ms)
  {
    Pruned(c, parent.uid, ParentNs(c, parent), Watched(c, watched, ms), DesiredKeys(c, parent, ms), o,
           ApplyAll(c, parent, cluster, o, ms))
  }

  predicate IsOwnedAt(cluster: Cluster, key: ChildKey, uid: Uid) {
    key in cluster && Owns(cluster[key].owners, uid)
  }

  ghost predicate Untouched(before: Cluster, after: Cluster, key: ChildKey) {
    (key in after <==> key in before) && (key in before ==> after[key] == before[key])
  }

  /** The parent owns what was applied. */
  lemma {:induction false} ApplyAllOwns(c: Config, parent: Parent, cluster: Cluster, o: Outcomes, ms: seq<Manifest>, i: nat)
    requires AllApply(c, parent, o, ms) && i < |ms|
    ensures IsOwnedAt(ApplyAll(c, parent, cluster, o, ms), StoredKey(c, parent, ms[i]), parent.uid)
  {
    var n := |ms| - 1;
    AppliedIsOwned(c, parent, ApplyAll(c, parent, cluster, o, ms[..n]), ms[n]);
    if i < n {
      ApplyAllOwns(c, parent, cluster, o, ms[..n], i);
      assert ms[..n][i] == ms[i];
    }
  }

  /** What was not applied is as before. */
  lemma {:induction false} ApplyAllKeeps(
    c: Config, parent: Parent, cluster: Cluster, o: Outcomes, ms: seq<Manifest>, key: ChildKey)
    requires AllApply(c, parent, o, ms)
    requires forall i :: 0 <= i < |ms| ==> key != StoredKey(c, parent, ms[i])
    ensures Untouched(cluster, ApplyAll(c, parent, cluster, o, ms), key)
  {
    if ms != [] {
      var n := |ms| - 1;
      assert forall i :: 0 <= i < n ==> ms[..n][i] == ms[i];
      ApplyAllKeeps(c, parent, cluster, o, ms[..n], key);
    }
  }

  /** Applying touches the applied keys only, and the parent owns each of them afterwards. */
  lemma ApplyAllIs(c: Config, parent: Parent, cluster: Cluster, o: Outcomes, ms: seq<Manifest>)
    requires AllApply(c, parent, o, ms)
    ensures var after := ApplyAll(c, parent, cluster, o, ms);
      && (forall i :: 0 <= i < |ms| ==> IsOwnedAt(after, StoredKey(c, parent, ms[i]), parent.uid))
      && (forall key :: (forall i :: 0 <= i < |ms| ==> key != StoredKey(c, parent, ms[i])) ==> Untouched(cluster, after, key))
  {
    forall i | 0 <= i < |ms|
      ensures IsOwnedAt(ApplyAll(c, parent, cluster, o, ms), StoredKey(c, parent, ms[i]), parent.uid)
    {
      ApplyAllOwns(c, parent, cluster, o, ms, i);
    }
    forall key | forall i :: 0 <= i < |ms| ==> key != StoredKey(c, parent, ms[i])
      ensures Untouched(cluster, ApplyAll(c, parent, cluster, o, ms), key)
    {
      ApplyAllKeeps(c, parent, cluster, o, ms, key);
    }
  }

  lemma AppliedIsOwned(c: Config, parent: Parent, cluster: Cluster, m: Manifest)
    requires m.kind in c.kinds
    ensures IsOwnedAt(Applied(c, parent, cluster, m), StoredKey(c, parent, m), parent.uid)
  {
    var ref := OwnerRef(parent.uid, parent.name);
    var refs := WithOwner(m.owners, ref);
    WithOwnerOwns(m.owners, ref);
    var i :| 0 <= i < |refs| && refs[i] == ref;
    assert Merged(cluster, StoredKey(c, parent, m), refs, m.spec).owners[i].uid == parent.uid;
  }

  /** A whole reconciliation removes, of everything it did not apply, exactly the children that
      the parent owned before it, that are not desired, and that are watched, listed and really
      deleted; all the rest is as it was. */
  lemma PruningIsSelective(
    c: Config, parent: Parent, watched: set<Gvr>, cluster: Cluster, o: Outcomes, ms: seq<Manifest>, key: ChildKey)
    requires AllApply(c, parent, o, ms) && forall i :: 0 <= i < |ms| ==> key != StoredKey(c, parent, ms[i])
    ensures var after := Reconciled(c, parent, watched, cluster, o, ms);
      var parentNs := if parent.ns == "" && c.namespaced then c.namespace else parent.ns;
      && (key in after <==>
            && key in cluster
            && !(&& (exists r :: r in cluster[key].owners && r.uid == parent.uid)
                 && (forall i :: 0 <= i < |ms| ==> DesiredKey(c, parent, ms[i]) != key)
                 && (key.gvr in watched
                     || exists i :: 0 <= i < |ms| && c.kinds[ms[i].kind].gvr == key.gvr && key.gvr != c.gvr)
                 && (c.namespaced && parentNs != "" ==> key.ns == parentNs)
                 && o.listed(key.gvr) && o.deleted(key)))
      && (key in after ==> after[key] == cluster[key])
  {
    ApplyAllIs(c, parent, cluster, o, ms);
    assert Untouched(cluster, ApplyAll(c, parent, cluster, o, ms), key);
    if key in cluster {
      var owners := cluster[key].owners;
      assert Owns(owners, parent.uid) <==> exists r :: r in owners && r.uid == parent.uid by {
        if r :| r in owners && r.uid == parent.uid {
          var i :| 0 <= i < |owners| && owners[i] == r;
        }
      }
    }
  }

  /** Where children go: kinds without namespaces are stored without one, whatever is written, but
      recorded with the written one; the others get the parent's, or the controller's, unless they
      bring their own. */
  lemma KeysAre(c: Config, parent: Parent, m: Manifest)
    requires m.kind in c.kinds
    ensures StoredKey(c, parent, m).gvr == DesiredKey(c, parent, m).gvr == c.kinds[m.kind].gvr
    ensures StoredKey(c, parent, m).name == DesiredKey(c, parent, m).name == m.name
    ensures !c.kinds[m.kind].namespaced ==> StoredKey(c, parent, m).ns == "" && DesiredKey(c, parent, m).ns == m.ns
    ensures c.kinds[m.kind].namespaced ==>
      StoredKey(c, parent, m).ns == DesiredKey(c, parent, m).ns
      == if m.ns != "" then m.ns else if parent.ns != "" then parent.ns else if c.namespaced then c.namespace else ""
  {
  }

  // ---------------------------------------------------------------- what an applied child holds

  /** No manifest for the key names an owner with this uid, and neither is it the parent's. */
  predicate IsForeign(c: Config, parent: Parent, ms: seq<Manifest>, key: ChildKey, uid: Uid)
    requires forall i :: 0 <= i < |ms| ==> ms[i].kind in c.kinds
  {
    uid != parent.uid && forall i :: 0 <= i < |ms| && StoredKey(c, parent, ms[i]) == key ==> !Owns(ms[i].owners, uid)
  }

  /** The owners the server had for the key, of other uids. */
  predicate SameOwner(before: Cluster, after: Cluster, key: ChildKey, r: OwnerRef) {
    (key in after && r in after[key].owners) <==> (key in before && r in before[key].owners)
  }

  /** After a successful reconciliation a child that is still there has the spec of the last
      manifest written under its key, the owners that manifest names and the parent; and it keeps
      the owners the server had from elsewhere, and gets no others. */
  lemma LastManifestWins(
    c: Config, parent: Parent, watched: set<Gvr>, cluster: Cluster, o: Outcomes, ms: seq<Manifest>, i: nat)
    requires AllApply(c, parent, o, ms) && i < |ms|
    requires forall j :: i < j < |ms| ==> StoredKey(c, parent, ms[j]) != StoredKey(c, parent, ms[i])
    ensures var after, key := Reconciled(c, parent, watched, cluster, o, ms), StoredKey(c, parent, ms[i]);
      key in after ==>
        && after[key].spec == ms[i].spec
        && OwnerRef(parent.uid, parent.name) in after[key].owners
        && (forall r :: r in ms[i].owners && r.uid != parent.uid ==> r in after[key].owners)
        && forall r: OwnerRef :: IsForeign(c, parent, ms, key, r.uid) ==>
             (r in after[key].owners <==> key in cluster && r in cluster[key].owners)
  {
    var applied, key := ApplyAll(c, parent, cluster, o, ms), StoredKey(c, parent, ms[i]);
    LastApplied(c, parent, cluster, o, ms, i);
    forall r: OwnerRef | IsForeign(c, parent, ms, key, r.uid) ensures SameOwner(cluster, applied, key, r) {
      ForeignOwners(c, parent, cluster, o, ms, key, r);
    }
  }

  lemma {:induction false} LastApplied(c: Config, parent: Parent, cluster: Cluster, o: Outcomes, ms: seq<Manifest>, i: nat)
    requires AllApply(c, parent, o, ms) && i < |ms|
    requires forall j :: i < j < |ms| ==> StoredKey(c, parent, ms[j]) != StoredKey(c, parent, ms[i])
    ensures var after, key := ApplyAll(c, parent, cluster, o, ms), StoredKey(c, parent, ms[i]);
      && key in after && after[key].spec == ms[i].spec
      && OwnerRef(parent.uid, parent.name) in after[key].owners
      && forall r :: r in ms[i].owners && r.uid != parent.uid ==> r in after[key].owners
  {
    var n := |ms| - 1;
    if i < n {
      assert forall j :: 0 <= j < n ==> ms[..n][j] == ms[j];
      LastApplied(c, parent, cluster, o, ms[..n], i);
    } else {
      WithOwnerOwns(ms[i].owners, OwnerRef(parent.uid, parent.name));
    }
  }

  lemma {:induction false} ForeignOwners(
    c: Config, parent: Parent, cluster: Cluster, o: Outcomes, ms: seq<Manifest>, key: ChildKey, r: OwnerRef)
    requires AllApply(c, parent, o, ms) && IsForeign(c, parent, ms, key, r.uid)
    ensures SameOwner(cluster, ApplyAll(c, parent, cluster, o, ms), key, r)
  {
    if ms != [] {
      var n := |ms| - 1;
      assert forall j :: 0 <= j < n ==> ms[..n][j] == ms[j];
      ForeignOwners(c, parent, cluster, o, ms[..n], key, r);
      if StoredKey(c, parent, ms[n]) == key {
        ForeignStays(c, parent, ApplyAll(c, parent, cluster, o, ms[..n]), ms[n], r);
      }
    }
  }

  lemma ForeignStays(c: Config, parent: Parent, cluster: Cluster, m: Manifest, r: OwnerRef)
    requires m.kind in c.kinds && r.uid != parent.uid && !Owns(m.owners, r.uid)
    ensures SameOwner(cluster, Applied(c, parent, cluster, m), StoredKey(c, parent, m), r)
  {
    var key, ref := StoredKey(c, parent, m), OwnerRef(parent.uid, parent.name);
    var owners := WithOwner(m.owners, ref);
    WithOwnerOwns(m.owners, ref);
    assert !Owns(owners, r.uid);
    if key in cluster {
      OthersAre(cluster[key].owners, owners, r);
    }
  }

  lemma {:induction false} OthersAre(existing: seq<OwnerRef>, owners: seq<OwnerRef>, r: OwnerRef)
    ensures r in Others(existing, owners) <==> r in existing && !Owns(owners, r.uid)
  {
    if existing != [] {
      OthersAre(existing[1..], owners, r);
      assert existing == [existing[0]] + existing[1..];
    }
  }

  /** A cluster-scoped child is written without a namespace. */
  predicate WellScoped(c: Config, m: Manifest)
    requires m.kind in c.kinds
  {
    c.kinds[m.kind].namespaced || m.ns == ""
  }

  lemma WellScopedIff(c: Config, parent: Parent, m: Manifest)
    requires m.kind in c.kinds
    ensures StoredKey(c, parent, m) == DesiredKey(c, parent, m) <==> WellScoped(c, m)
  {
  }

  /** A child just applied is pruned again exactly when it is cluster-scoped but written with a
      namespace, its kind is watched and shown in the listing, nothing else desired has its
      key, and both requests succeed. */
  lemma JustAppliedSurvivesIff(
    c: Config, parent: Parent, watched: set<Gvr>, cluster: Cluster, o: Outcomes, ms: seq<Manifest>, i: nat)
    requires AllApply(c, parent, o, ms) && i < |ms|
    ensures var key := StoredKey(c, parent, ms[i]);
      key in Reconciled(c, parent, watched, cluster, o, ms)
      <==> !(&& !WellScoped(c, ms[i]) && key.gvr in Watched(c, watched, ms) && Shown(c, ParentNs(c, parent), key)
             && key !in DesiredKeys(c, parent, ms) && o.listed(key.gvr) && o.deleted(key))
  {
    ApplyAllIs(c, parent, cluster, o, ms);
    WellScopedIff(c, parent, ms[i]);
    assert DesiredKey(c, parent, ms[i]) in DesiredKeys(c, parent, ms);
  }

  /** With well-scoped children and no failures, the parent's children that the listings of the
      watched kinds show are exactly the desired ones. */
  lemma ChildrenAreDesired(
    c: Config, parent: Parent, watched: set<Gvr>, cluster: Cluster, o: Outcomes, ms: seq<Manifest>, key: ChildKey)
    requires AllApply(c, parent, o, ms) && forall i :: 0 <= i < |ms| ==> WellScoped(c, ms[i])
    requires key.gvr in Watched(c, watched, ms) && Shown(c, ParentNs(c, parent), key)
    requires o.listed(key.gvr) && o.deleted(key)
    ensures var after := Reconciled(c, parent, watched, cluster, o, ms);
      (key in after && Owns(after[key].owners, parent.uid)) <==> key in DesiredKeys(c, parent, ms)
  {
    ApplyAllIs(c, parent, cluster, o, ms);
    if key in DesiredKeys(c, parent, ms) {
      var i :| 0 <= i < |ms| && key == DesiredKey(c, parent, ms[i]);
      WellScopedIff(c, parent, ms[i]);
      assert StoredKey(c, parent, ms[i]) == key;
    }
  }

  /** A concrete parent whose only child is applied and deleted in the same reconciliation. */
  lemma JustAppliedCanBePruned()
    ensures var c := Config("gadgets", false, "", map["Role" := Kind("roles", false)]);
      var parent, m := Parent("u", "", "p"), Manifest("Role", "ns", "r", [], "");
      var o := Outcomes(_ => true, _ => true, _ => true);
      && AllApply(c, parent, o, [m])
      && StoredKey(c, parent, m) !in Reconciled(c, parent, {}, map[], o, [m])
  {
    var c := Config("gadgets", false, "", map["Role" := Kind("roles", false)]);
    var parent, m := Parent("u", "", "p"), Manifest("Role", "ns", "r", [], "");
    var o := Outcomes(_ => true, _ => true, _ => true);
    JustAppliedSurvivesIff(c, parent, {}, map[], o, [m], 0);
    assert c.kinds[[m][0].kind].gvr == "roles";
    assert "roles" in Watched(c, {}, [m]);
  }
}
