/** The finalizer protocol of cloudkite/modules/k8s/control.go, for a controller with a finalize
    hook: an API server, a cache of possibly stale snapshots, and workers whose dispatch is a
    sequence of separate steps between which everything else may happen.

    Finalizers are changed by JSON merge patches addressed by name, and a merge patch replaces an
    array whole (section 2 of RFC 7396). */
module Finalizers {
  import opened Common

  type Key = string
  type Worker = nat

  /** One version of a primary object. */
  datatype Obj = Obj(uid: nat, finalizers: seq<string>, deleting: bool)

  datatype EventType = Added | Modified | Deleted

  /** Where a worker stands in `dispatch`. */
  datatype Pc =
    | Idle
    | Taken(key: Key, event: EventType, view: Obj)
    | Stripping(key: Key, view: Obj)
    | Handling(key: Key, event: EventType, view: Obj)

  /** A handler call, with the view it was given. */
  datatype Call = Call(key: Key, event: EventType, view: Obj)

  /** `used` and `versions` remember every name and every version there ever was; `finalized` the
      objects whose finalize call succeeded, `held` those that ever carried our finalizer, and
      `calls` the handler calls. */
  datatype State = State(
    server: map<Key, Obj>, nextUid: nat, cache: map<Key, Obj>, workers: map<Worker, Pc>,
    used: set<Key>, versions: set<(Key, Obj)>, finalized: set<nat>, held: set<nat>, calls: seq<Call>)

  const INITIAL := State(map[], 0, map[], map[], {}, {}, {}, {}, [])

  function At(s: State, w: Worker): Pc {
    if w in s.workers then s.workers[w] else Idle
  }

  predicate HasFinalizer(o: Obj, name: string) {
    name in o.finalizers
  }

  // ---------------------------------------------------------------- the API server

  datatype PatchResult = NotFound | Forbidden | Updated(obj: Obj) | Removed(obj: Obj)

  /** Replaces the finalizers of a stored object: a deleting object accepts no new ones, and
      goes away with its last one. */
  function PatchFinalizers(server: map<Key, Obj>, key: Key, finalizers: seq<string>): PatchResult {
    if key !in server then NotFound
    else
      var o := server[key].(finalizers := finalizers);
      if o.deleting && exists f :: f in finalizers && f !in server[key].finalizers then Forbidden
      else if o.deleting && finalizers == [] then Removed(o)
      else Updated(o)
  }

  /** Stores the outcome of a patch; every version that results may be seen later. */
  function Apply(s: State, key: Key, r: PatchResult, name: string): State {
    match r
    case Updated(o) =>
      s.(server := s.server[key := o], versions := s.versions + {(key, o)},
         held := s.held + if HasFinalizer(o, name) then {o.uid} else {})
    case Removed(o) => s.(server := s.server - {key}, versions := s.versions + {(key, o)})
    case _ => s
  }

  // ---------------------------------------------------------------- steps

  datatype Action =
    | Create(key: Key, finalizers: seq<string>)
    | EditForeign(key: Key, finalizers: seq<string>)
    | RequestDelete(key: Key)
    | Deliver(key: Key, snapshot: Obj)
    | DropFromCache(key: Key)
    | Take(w: Worker, key: Key, event: EventType, fetch: bool)
    | Finalize(w: Worker, ok: bool)
    | Strip(w: Worker, sent: bool)
    | Ensure(w: Worker, sent: bool)
    | Handle(w: Worker)

  /** `finalizers` without every occurrence of `name`. */
  function Without(finalizers: seq<string>, name: string): seq<string> {
    if finalizers == [] then []
    else (if finalizers[0] == name then [] else [finalizers[0]]) + Without(finalizers[1..], name)
  }

  lemma {:induction false} WithoutKeeps(finalizers: seq<string>, name: string)
    ensures forall f :: f in Without(finalizers, name) <==> f in finalizers && f != name
  {
    if finalizers != [] {
      WithoutKeeps(finalizers[1..], name);
    }
  }

  /** The view a dispatch starts from: the cached snapshot, else what the server holds. */
  function TakenView(s: State, key: Key, event: EventType, fetch: bool): Option<Obj> {
    if key in s.cache then Some(s.cache[key])
    else if event != Deleted && fetch && key in s.server then Some(s.server[key])
    else None
  }

  /** What may happen in `s`. Others create, edit and delete objects, but only this controller
      adds or removes its own finalizer; any version there ever was may be delivered. */
  predicate Enabled(s: State, a: Action, name: string) {
    match a
    case Create(key, finalizers) => key !in s.server && name !in finalizers
    case EditForeign(key, finalizers) => key in s.server && (name in finalizers <==> HasFinalizer(s.server[key], name))
    case RequestDelete(key) => key in s.server
    case Deliver(key, snapshot) => (key, snapshot) in s.versions
    case DropFromCache(key) => true
    case Take(w, key, event, fetch) => At(s, w).Idle?
    case Finalize(w, ok) => At(s, w).Taken? && At(s, w).view.deleting && HasFinalizer(At(s, w).view, name)
    case Strip(w, sent) => At(s, w).Stripping?
    case Ensure(w, sent) => At(s, w).Taken? && !(At(s, w).view.deleting && HasFinalizer(At(s, w).view, name))
    case Handle(w) => At(s, w).Handling?
  }

  function Goto(s: State, w: Worker, pc: Pc): State {
    s.(workers := s.workers[w := pc])
  }

  function Next(s: State, a: Action, name: string): State
    requires Enabled(s, a, name)
  {
    match a
    case Create(key, finalizers) =>
      var o := Obj(s.nextUid, finalizers, false);
      s.(server := s.server[key := o], nextUid := s.nextUid + 1, used := s.used + {key},
         versions := s.versions + {(key, o)})
    case EditForeign(key, finalizers) => Apply(s, key, PatchFinalizers(s.server, key, finalizers), name)
    case RequestDelete(key) =>
      var o := s.server[key].(deleting := true);
      Apply(s, key, if o.finalizers == [] then Removed(o) else Updated(o), name)
    case Deliver(key, snapshot) => s.(cache := s.cache[key := snapshot])
    case DropFromCache(key) => s.(cache := s.cache - {key})
    case Take(w, key, event, fetch) =>
      var view := TakenView(s, key, event, fetch);
      if view.None? then s else Goto(s, w, Taken(key, event, view.value))
    case Finalize(w, ok) =>
      var pc := At(s, w);
      if !ok then Goto(s, w, Idle)
      else Goto(s.(finalized := s.finalized + {pc.view.uid}), w, Stripping(pc.key, pc.view))
    case Strip(w, sent) => AfterStrip(s, w, name, sent)
    case Ensure(w, sent) =>
      var pc := At(s, w);
      if pc.view.deleting then Goto(s, w, Idle)
      else if HasFinalizer(pc.view, name) then Goto(s, w, Handling(pc.key, pc.event, pc.view))
      else AfterAdd(s, w, name, sent)
    case Handle(w) =>
      var pc := At(s, w);
      var t := s.(calls := s.calls + [Call(pc.key, pc.event, pc.view)]);
      Goto(if pc.event == Deleted then t.(cache := t.cache - {pc.key}) else t, w, Idle)
  }

  /** removeFinalizer: patch, and cache the answer; a failed request changes nothing. */
  function AfterStrip(s: State, w: Worker, name: string, sent: bool): State
    requires At(s, w).Stripping?
  {
    var pc := At(s, w);
    var r := if sent then PatchFinalizers(s.server, pc.key, Without(pc.view.finalizers, name)) else NotFound;
    var t := Apply(s, pc.key, r, name);
    Goto(if r.Updated? || r.Removed? then t.(cache := t.cache[pc.key := r.obj]) else t, w, Idle)
  }

  /** addFinalizer: patch, cache the answer and go on with it; a failure ends the dispatch. */
  function AfterAdd(s: State, w: Worker, name: string, sent: bool): State
    requires At(s, w).Taken?
  {
    var pc := At(s, w);
    var r := if sent then PatchFinalizers(s.server, pc.key, pc.view.finalizers + [name]) else NotFound;
    if r.Updated? then
      var t := Apply(s, pc.key, r, name);
      Goto(t.(cache := t.cache[pc.key := r.obj]), w, Handling(pc.key, pc.event, r.obj))
    else Goto(s, w, Idle)
  }

  /** The state after a run, None if some action was not possible. */
  function Run(actions: seq<Action>, name: string): Option<State> {
    if actions == [] then Some(INITIAL)
    else
      var last := |actions| - 1;
      var before := Run(actions[..last], name);
      if before.Some? && Enabled(before.value, actions[last], name)
      then Some(Next(before.value, actions[last], name)) else None
  }

  /** No name is ever given to a second object. */
  predicate NamesFresh(actions: seq<Action>) {
    forall i, j :: 0 <= i < j < |actions| && actions[i].Create? && actions[j].Create? ==> actions[i].key != actions[j].key
  }

  // ---------------------------------------------------------------- what the steps of a worker do

  /** A dispatch starts from the cached snapshot, however old; only without one, and not for a
      deletion, does it fetch what is stored. */
  lemma TakeIs(s: State, w: Worker, key: Key, event: EventType, fetch: bool, name: string)
    requires At(s, w).Idle?
    ensures var t := Next(s, Take(w, key, event, fetch), name);
      && t.server == s.server && t.cache == s.cache
      && At(t, w) == if key in s.cache then Taken(key, event, s.cache[key])
                     else if event != Deleted && fetch && key in s.server then Taken(key, event, s.server[key])
                     else Idle
  {
  }

  /** Only a finalize call that succeeded puts an object on record and leads to stripping it. */
  lemma FinalizeIs(s: State, w: Worker, ok: bool, name: string)
    requires Enabled(s, Finalize(w, ok), name)
    ensures var t := Next(s, Finalize(w, ok), name);
      && t.server == s.server && t.cache == s.cache
      && At(t, w) == (if ok then Stripping(At(s, w).key, At(s, w).view) else Idle)
      && t.finalized == s.finalized + if ok then {At(s, w).view.uid} else {}
  {
  }

  /** A handler is called with the view at hand; after a deletion the snapshot is dropped. */
  lemma HandleIs(s: State, w: Worker, name: string)
    requires At(s, w).Handling?
    ensures var t, pc := Next(s, Handle(w), name), At(s, w);
      && t.server == s.server && At(t, w).Idle? && t.calls == s.calls + [Call(pc.key, pc.event, pc.view)]
      && t.cache == if pc.event == Deleted then s.cache - {pc.key} else s.cache
  {
  }

  /** Nothing but `key` is touched. */
  ghost predicate OthersUntouched(before: map<Key, Obj>, after: map<Key, Obj>, key: Key) {
    forall k :: k != key ==> (k in after <==> k in before) && (k in before ==> after[k] == before[k])
  }

  /** Ensuring the finalizer on a live object. If the view has it, the handler is next. Otherwise it
      is appended to the view's and patched in: the stored finalizers become exactly those, the
      answer is cached and handed on; a refusal changes nothing and ends the dispatch. The server
      refuses only what would give a deleting object a finalizer it does not have. */
  lemma AddPatchIs(s: State, w: Worker, sent: bool, name: string)
    requires At(s, w).Taken? && !At(s, w).view.deleting
    ensures var t, pc := Next(s, Ensure(w, sent), name), At(s, w);
      var o := if pc.key in s.server then s.server[pc.key] else pc.view;
      var accepted := sent && pc.key in s.server
        && (o.deleting ==> name in o.finalizers && forall f :: f in pc.view.finalizers ==> f in o.finalizers);
      if name in pc.view.finalizers then
        t.server == s.server && t.cache == s.cache && At(t, w) == Handling(pc.key, pc.event, pc.view)
      else if accepted then
        && pc.key in t.server && t.server[pc.key] == Obj(o.uid, pc.view.finalizers + [name], o.deleting)
        && t.cache == s.cache[pc.key := t.server[pc.key]] && At(t, w) == Handling(pc.key, pc.event, t.server[pc.key])
        && OthersUntouched(s.server, t.server, pc.key)
      else t.server == s.server && t.cache == s.cache && At(t, w).Idle?
  {
    var pc := At(s, w);
    var finalizers := pc.view.finalizers + [name];
    assert name in finalizers;
    if pc.key in s.server {
      assert forall f :: f in finalizers <==> f in pc.view.finalizers || f == name;
    }
  }

  /** A deleting object without our finalizer is left alone. */
  lemma DeletingIsLeft(s: State, w: Worker, sent: bool, name: string)
    requires Enabled(s, Ensure(w, sent), name) && At(s, w).view.deleting
    ensures var t := Next(s, Ensure(w, sent), name);
      name !in At(s, w).view.finalizers && t == s.(workers := t.workers) && At(t, w).Idle?
  {
  }

  /** Stripping it: of the view's finalizers exactly the others are patched in. With none left a
      deleting object goes away; a refusal changes nothing; the dispatch ends either way. */
  lemma StripPatchIs(s: State, w: Worker, sent: bool, name: string)
    requires At(s, w).Stripping?
    ensures var t, pc := Next(s, Strip(w, sent), name), At(s, w);
      var o := if pc.key in s.server then s.server[pc.key] else pc.view;
      var others := forall f :: f in pc.view.finalizers ==> f == name;
      var accepted := sent && pc.key in s.server
        && (o.deleting ==> forall f :: f in pc.view.finalizers && f != name ==> f in o.finalizers);
      && At(t, w).Idle? && OthersUntouched(s.server, t.server, pc.key)
      && (!accepted ==> t.server == s.server && t.cache == s.cache)
      && (accepted ==>
            && (pc.key in t.server <==> !(o.deleting && others))
            && pc.key in t.cache && t.cache[pc.key].uid == o.uid && t.cache[pc.key].deleting == o.deleting
            && (forall f :: f in t.cache[pc.key].finalizers <==> f in pc.view.finalizers && f != name)
            && (pc.key in t.server ==> t.server[pc.key] == t.cache[pc.key]))
  {
    var pc := At(s, w);
    WithoutKeeps(pc.view.finalizers, name);
    WithoutNone(pc.view.finalizers, name);
    if pc.key in s.server {
      PatchIs(s.server, pc.key, Without(pc.view.finalizers, name));
    }
  }

  lemma WithoutNone(finalizers: seq<string>, name: string)
    ensures Without(finalizers, name) == [] <==> forall f :: f in finalizers ==> f == name
  {
    WithoutKeeps(finalizers, name);
    if Without(finalizers, name) != [] {
      assert Without(finalizers, name)[0] in Without(finalizers, name);
    }
  }

  /** The server's answer to a patch of a stored object. */
  lemma PatchIs(server: map<Key, Obj>, key: Key, finalizers: seq<string>)
    requires key in server
    ensures var o, r := server[key], PatchFinalizers(server, key, finalizers);
      && (r.Forbidden? <==> o.deleting && !forall f :: f in finalizers ==> f in o.finalizers)
      && (r.Removed? <==> o.deleting && finalizers == [])
      && (r.Updated? || r.Removed? ==> r.obj == Obj(o.uid, finalizers, o.deleting))
      && !r.NotFound?
  {
  }

  // ---------------------------------------------------------------- safety

  /** Whatever ever carried our finalizer still does, or was finalized. */
  ghost predicate TeardownBeforeRelease(s: State, name: string) {
    forall uid :: uid in s.held ==> uid in s.finalized || StillHeld(s, uid, name)
  }

  ghost predicate StillHeld(s: State, uid: nat, name: string) {
    exists key :: key in s.server && s.server[key].uid == uid && HasFinalizer(s.server[key], name)
  }

  /** No handler was ever given a view of an object that lacks our finalizer. */
  ghost predicate HandlersSawFinalizer(s: State, name: string) {
    forall i :: 0 <= i < |s.calls| ==> HasFinalizer(s.calls[i].view, name)
  }

  /** Each name belongs to one object, whose versions are all that is stored under it. */
  ghost predicate OneObjectPerName(s: State) {
    && (forall key :: key in s.server ==> (key, s.server[key]) in s.versions)
    && (forall key :: key in s.cache ==> (key, s.cache[key]) in s.versions)
    && (forall w :: w in s.workers && !s.workers[w].Idle? ==> (s.workers[w].key, s.workers[w].view) in s.versions)
    && (forall v :: v in s.versions ==> v.0 in s.used)
    && (forall u, v :: u in s.versions && v in s.versions && u.0 == v.0 ==> u.1.uid == v.1.uid)
  }

  ghost predicate WorkersSound(s: State, name: string) {
    forall w :: w in s.workers ==> PcSound(s, s.workers[w], name)
  }

  predicate PcSound(s: State, pc: Pc, name: string) {
    match pc
    case Stripping(_, view) => view.uid in s.finalized && view.deleting && HasFinalizer(view, name)
    case Handling(_, _, view) => HasFinalizer(view, name)
    case _ => true
  }

  ghost predicate Inv(s: State, name: string) {
    && OneObjectPerName(s) && WorkersSound(s, name)
    && TeardownBeforeRelease(s, name) && HandlersSawFinalizer(s, name)
  }

  predicate FreshAction(s: State, a: Action) {
    a.Create? ==> a.key !in s.used
  }

  /** Storing a version of the same object under its name. */
  lemma ApplyKeepsNames(s: State, key: Key, r: PatchResult, name: string)
    requires OneObjectPerName(s) && key in s.server
    requires r.Updated? || r.Removed? ==> r.obj.uid == s.server[key].uid
    ensures var t := Apply(s, key, r, name);
      OneObjectPerName(t) && (r.Updated? || r.Removed? ==> (key, r.obj) in t.versions) && s.versions <= t.versions
  {
  }

  /** Storing a version keeps the release order if it drops our finalizer from no object that
      was not finalized. */
  lemma ApplyKeepsHeld(s: State, key: Key, r: PatchResult, name: string)
    requires TeardownBeforeRelease(s, name) && key in s.server
    requires r.Updated? || r.Removed? ==> r.obj.uid == s.server[key].uid
    requires HasFinalizer(s.server[key], name) && s.server[key].uid !in s.finalized ==>
      !r.Removed? && (r.Updated? ==> HasFinalizer(r.obj, name))
    ensures TeardownBeforeRelease(Apply(s, key, r, name), name)
  {
    var t := Apply(s, key, r, name);
    forall uid | uid in t.held && uid !in t.finalized ensures StillHeld(t, uid, name) {
      if uid in s.held {
        var k :| k in s.server && s.server[k].uid == uid && HasFinalizer(s.server[k], name);
        assert k in t.server && t.server[k].uid == uid && HasFinalizer(t.server[k], name);
      } else {
        assert t.server[key].uid == uid && HasFinalizer(t.server[key], name);
      }
    }
  }

  /** Steps that leave the server alone keep the release order. */
  lemma SameServerKeepsHeld(s: State, t: State, name: string)
    requires TeardownBeforeRelease(s, name) && t.server == s.server && t.held == s.held && s.finalized <= t.finalized
    ensures TeardownBeforeRelease(t, name)
  {
    forall uid | uid in t.held && uid !in t.finalized ensures StillHeld(t, uid, name) {
      assert StillHeld(s, uid, name);
    }
  }

  lemma CreateKeepsHeld(s: State, a: Action, name: string)
    requires TeardownBeforeRelease(s, name) && a.Create? && Enabled(s, a, name)
    ensures TeardownBeforeRelease(Next(s, a, name), name)
  {
    var t := Next(s, a, name);
    forall uid | uid in t.held && uid !in t.finalized ensures StillHeld(t, uid, name) {
      var k :| k in s.server && s.server[k].uid == uid && HasFinalizer(s.server[k], name);
      assert k in t.server && t.server[k].uid == uid && HasFinalizer(t.server[k], name);
    }
  }

  lemma CreateKeepsInv(s: State, a: Action, name: string)
    requires Inv(s, name) && a.Create? && Enabled(s, a, name) && FreshAction(s, a)
    ensures Inv(Next(s, a, name), name)
  {
    CreateKeepsHeld(s, a, name);
  }

  /** What an edit or deletion by others makes of the stored object. */
  function EditResult(s: State, a: Action): PatchResult
    requires (a.EditForeign? || a.RequestDelete?) && a.key in s.server
  {
    var o := s.server[a.key].(deleting := true);
    if a.EditForeign? then PatchFinalizers(s.server, a.key, a.finalizers)
    else if o.finalizers == [] then Removed(o) else Updated(o)
  }

  lemma ServerEditKeepsInv(s: State, a: Action, name: string)
    requires Inv(s, name) && (a.EditForeign? || a.RequestDelete?) && Enabled(s, a, name)
    ensures Inv(Next(s, a, name), name)
  {
    var r := EditResult(s, a);
    ApplyKeepsNames(s, a.key, r, name);
    ApplyKeepsHeld(s, a.key, r, name);
  }

  lemma StripKeepsInv(s: State, w: Worker, sent: bool, name: string)
    requires Inv(s, name) && At(s, w).Stripping?
    ensures Inv(AfterStrip(s, w, name, sent), name)
  {
    var pc, t := At(s, w), AfterStrip(s, w, name, sent);
    var r := if sent then PatchFinalizers(s.server, pc.key, Without(pc.view.finalizers, name)) else NotFound;
    if pc.key in s.server {
      assert (pc.key, s.server[pc.key]) in s.versions && (pc.key, pc.view) in s.versions;
      ApplyKeepsNames(s, pc.key, r, name);
      ApplyKeepsHeld(s, pc.key, r, name);
    }
    SameServerKeepsHeld(Apply(s, pc.key, r, name), t, name);
  }

  lemma AddKeepsInv(s: State, w: Worker, sent: bool, name: string)
    requires Inv(s, name) && At(s, w).Taken?
    ensures Inv(AfterAdd(s, w, name, sent), name)
  {
    AddKeepsHeld(s, w, sent, name);
    var pc := At(s, w);
    var r := if sent then PatchFinalizers(s.server, pc.key, pc.view.finalizers + [name]) else NotFound;
    if r.Updated? {
      assert HasFinalizer(r.obj, name);
      ApplyKeepsNames(s, pc.key, r, name);
    }
  }

  lemma AddKeepsHeld(s: State, w: Worker, sent: bool, name: string)
    requires TeardownBeforeRelease(s, name) && At(s, w).Taken?
    ensures TeardownBeforeRelease(AfterAdd(s, w, name, sent), name)
  {
    var pc, t := At(s, w), AfterAdd(s, w, name, sent);
    var r := if sent then PatchFinalizers(s.server, pc.key, pc.view.finalizers + [name]) else NotFound;
    if r.Updated? {
      assert HasFinalizer(r.obj, name);
      ApplyKeepsHeld(s, pc.key, r, name);
      SameServerKeepsHeld(Apply(s, pc.key, r, name), t, name);
    } else {
      SameServerKeepsHeld(s, t, name);
    }
  }

  lemma EnsureKeepsInv(s: State, w: Worker, sent: bool, name: string)
    requires Inv(s, name) && Enabled(s, Ensure(w, sent), name)
    ensures Inv(Next(s, Ensure(w, sent), name), name)
  {
    if !At(s, w).view.deleting && !HasFinalizer(At(s, w).view, name) {
      AddKeepsInv(s, w, sent, name);
    } else {
      SameServerKeepsHeld(s, Next(s, Ensure(w, sent), name), name);
    }
  }

  lemma CacheKeepsInv(s: State, a: Action, name: string)
    requires Inv(s, name) && (a.Deliver? || a.DropFromCache?) && Enabled(s, a, name)
    ensures Inv(Next(s, a, name), name)
  {
    SameServerKeepsHeld(s, Next(s, a, name), name);
  }

  lemma TakeKeepsInv(s: State, a: Action, name: string)
    requires Inv(s, name) && a.Take? && Enabled(s, a, name)
    ensures Inv(Next(s, a, name), name)
  {
    SameServerKeepsHeld(s, Next(s, a, name), name);
  }

  lemma FinalizeKeepsInv(s: State, a: Action, name: string)
    requires Inv(s, name) && a.Finalize? && Enabled(s, a, name)
    ensures Inv(Next(s, a, name), name)
  {
    SameServerKeepsHeld(s, Next(s, a, name), name);
  }

  lemma HandleKeepsInv(s: State, w: Worker, name: string)
    requires Inv(s, name) && At(s, w).Handling?
    ensures Inv(Next(s, Handle(w), name), name)
  {
    SameServerKeepsHeld(s, Next(s, Handle(w), name), name);
  }

  /** One step of anybody keeps the invariant, as long as no name is reused. */
  lemma StepKeepsInv(s: State, a: Action, name: string)
    requires Inv(s, name) && Enabled(s, a, name) && FreshAction(s, a)
    ensures Inv(Next(s, a, name), name)
  {
    match a
    case Create(_, _) => CreateKeepsInv(s, a, name);
    case EditForeign(_, _) => ServerEditKeepsInv(s, a, name);
    case RequestDelete(_) => ServerEditKeepsInv(s, a, name);
    case Strip(w, sent) => StripKeepsInv(s, w, sent, name);
    case Ensure(w, sent) => EnsureKeepsInv(s, w, sent, name);
    case Deliver(_, _) => CacheKeepsInv(s, a, name);
    case DropFromCache(_) => CacheKeepsInv(s, a, name);
    case Take(_, _, _, _) => TakeKeepsInv(s, a, name);
    case Finalize(_, _) => FinalizeKeepsInv(s, a, name);
    case Handle(w) => HandleKeepsInv(s, w, name);
  }

  /** The names in use are those that were created. */
  lemma {:induction false} UsedAreCreated(actions: seq<Action>, name: string)
    requires Run(actions, name).Some?
    ensures forall key :: key in Run(actions, name).value.used ==>
      exists i :: 0 <= i < |actions| && actions[i].Create? && actions[i].key == key
  {
    if actions != [] {
      var last := |actions| - 1;
      UsedAreCreated(actions[..last], name);
      var s, a := Run(actions[..last], name).value, actions[last];
      forall key | key in Next(s, a, name).used
        ensures exists i :: 0 <= i < |actions| && actions[i].Create? && actions[i].key == key
      {
        if key in s.used {
          var i :| 0 <= i < last && actions[..last][i].Create? && actions[..last][i].key == key;
          assert actions[i].Create?;
        } else {
          assert a.Create? && a.key == key;
        }
      }
    }
  }

  /** Safety over whole runs: our finalizer leaves an object only after a finalize call on that
      object succeeded, and handlers only ever see objects that carry it. */
  lemma {:induction false} RunsAreSafe(actions: seq<Action>, name: string)
    requires Run(actions, name).Some? && NamesFresh(actions)
    ensures Inv(Run(actions, name).value, name)
    ensures TeardownBeforeRelease(Run(actions, name).value, name)
    ensures HandlersSawFinalizer(Run(actions, name).value, name)
  {
    if actions != [] {
      var last := |actions| - 1;
      RunsAreSafe(actions[..last], name);
      UsedAreCreated(actions[..last], name);
      StepKeepsInv(Run(actions[..last], name).value, actions[last], name);
    }
  }

  /** `finalized` means what it says: a successful finalize call on a view of that object. */
  lemma {:induction false} FinalizedWasCalled(actions: seq<Action>, name: string, uid: nat) returns (i: nat)
    requires Run(actions, name).Some? && uid in Run(actions, name).value.finalized
    ensures i < |actions| && actions[i].Finalize? && actions[i].ok
    ensures Run(actions[..i], name).Some? && At(Run(actions[..i], name).value, actions[i].w).Taken?
    ensures At(Run(actions[..i], name).value, actions[i].w).view.uid == uid
  {
    var last := |actions| - 1;
    var s := Run(actions[..last], name).value;
    if uid in s.finalized {
      i := FinalizedWasCalled(actions[..last], name, uid);
      assert actions[..last][..i] == actions[..i];
    } else {
      i := last;
    }
  }

  // ---------------------------------------------------------------- where names are reused

  /** What holds in every run, names reused or not: whatever is stored with our finalizer is on
      record as held, no two stored objects are the same, and workers strip what was finalized. */
  ghost predicate Tracked(s: State, name: string) {
    && (forall key :: key in s.server && HasFinalizer(s.server[key], name) ==> s.server[key].uid in s.held)
    && (forall k, l :: k in s.server && l in s.server && s.server[k].uid == s.server[l].uid ==> k == l)
    && (forall key :: key in s.server ==> s.server[key].uid < s.nextUid)
    && WorkersSound(s, name)
  }

  /** Storing a version of the object that is there. */
  lemma ApplyKeepsTracked(s: State, key: Key, r: PatchResult, name: string)
    requires Tracked(s, name) && key in s.server
    requires r.Updated? || r.Removed? ==> r.obj.uid == s.server[key].uid
    ensures Tracked(Apply(s, key, r, name), name)
  {
  }

  lemma GotoKeepsTracked(s: State, cache: map<Key, Obj>, w: Worker, pc: Pc, name: string)
    requires Tracked(s, name) && PcSound(s, pc, name)
    ensures Tracked(Goto(s.(cache := cache), w, pc), name)
  {
    var t := Goto(s.(cache := cache), w, pc);
    forall v | v in t.workers ensures PcSound(t, t.workers[v], name) {
      assert v != w ==> PcSound(s, s.workers[v], name);
    }
  }

  lemma StripKeepsTracked(s: State, w: Worker, sent: bool, name: string)
    requires Tracked(s, name) && At(s, w).Stripping?
    ensures Tracked(AfterStrip(s, w, name, sent), name)
  {
    var pc := At(s, w);
    var r := if sent then PatchFinalizers(s.server, pc.key, Without(pc.view.finalizers, name)) else NotFound;
    if pc.key in s.server {
      ApplyKeepsTracked(s, pc.key, r, name);
    }
    GotoKeepsTracked(Apply(s, pc.key, r, name), AfterStrip(s, w, name, sent).cache, w, Idle, name);
  }

  lemma AddKeepsTracked(s: State, w: Worker, sent: bool, name: string)
    requires Tracked(s, name) && At(s, w).Taken?
    ensures Tracked(AfterAdd(s, w, name, sent), name)
  {
    var pc := At(s, w);
    var r := if sent then PatchFinalizers(s.server, pc.key, pc.view.finalizers + [name]) else NotFound;
    if r.Updated? {
      assert HasFinalizer(r.obj, name);
      ApplyKeepsTracked(s, pc.key, r, name);
      var pc' := Handling(pc.key, pc.event, r.obj);
      GotoKeepsTracked(Apply(s, pc.key, r, name), s.cache[pc.key := r.obj], w, pc', name);
    } else {
      GotoKeepsTracked(s, s.cache, w, Idle, name);
    }
  }

  lemma ServerEditKeepsTracked(s: State, a: Action, name: string)
    requires Tracked(s, name) && (a.EditForeign? || a.RequestDelete?) && Enabled(s, a, name)
    ensures Tracked(Next(s, a, name), name)
  {
    ApplyKeepsTracked(s, a.key, EditResult(s, a), name);
  }

  lemma QuietKeepsTracked(s: State, a: Action, name: string)
    requires Tracked(s, name) && Enabled(s, a, name)
    requires a.Deliver? || a.DropFromCache? || a.Take? || a.Finalize? || a.Handle?
    ensures Tracked(Next(s, a, name), name)
  {
    var t := Next(s, a, name);
    assert t.server == s.server && t.held == s.held && t.nextUid == s.nextUid && s.finalized <= t.finalized;
  }

  lemma StepKeepsTracked(s: State, a: Action, name: string)
    requires Tracked(s, name) && Enabled(s, a, name)
    ensures Tracked(Next(s, a, name), name)
  {
    match a
    case Create(_, _) =>
    case EditForeign(_, _) => ServerEditKeepsTracked(s, a, name);
    case RequestDelete(_) => ServerEditKeepsTracked(s, a, name);
    case Strip(w, sent) => StripKeepsTracked(s, w, sent, name);
    case Ensure(w, sent) =>
      if !At(s, w).view.deleting && !HasFinalizer(At(s, w).view, name) {
        AddKeepsTracked(s, w, sent, name);
      }
    case _ => QuietKeepsTracked(s, a, name);
  }

  lemma {:induction false} RunsAreTracked(actions: seq<Action>, name: string)
    requires Run(actions, name).Some?
    ensures Tracked(Run(actions, name).value, name)
  {
    if actions != [] {
      var last := |actions| - 1;
      RunsAreTracked(actions[..last], name);
      StepKeepsTracked(Run(actions[..last], name).value, actions[last], name);
    }
  }

  /** The server accepts a strip patch although the object it finds under the name carries our
      finalizer and was not finalized: the patch was meant for an earlier object. */
  predicate StripsAnother(s: State, a: Action, name: string) {
    && a.Strip? && a.sent && At(s, a.w).Stripping?
    && var key := At(s, a.w).key;
       var r := PatchFinalizers(s.server, key, Without(At(s, a.w).view.finalizers, name));
       (r.Updated? || r.Removed?) && HasFinalizer(s.server[key], name) && s.server[key].uid !in s.finalized
  }

  /** A strip patch is addressed by name. It keeps the release order exactly when it hits no
      other object. */
  lemma StripSafeIff(s: State, w: Worker, name: string)
    requires Tracked(s, name) && TeardownBeforeRelease(s, name) && At(s, w).Stripping?
    ensures TeardownBeforeRelease(AfterStrip(s, w, name, true), name) <==> !StripsAnother(s, Strip(w, true), name)
  {
    var pc, t := At(s, w), AfterStrip(s, w, name, true);
    var key := pc.key;
    var r := PatchFinalizers(s.server, key, Without(pc.view.finalizers, name));
    WithoutKeeps(pc.view.finalizers, name);
    if StripsAnother(s, Strip(w, true), name) {
      var uid := s.server[key].uid;
      assert uid in t.held && uid !in t.finalized;
      assert !StillHeld(t, uid, name);
    } else if key in s.server {
      ApplyKeepsHeld(s, key, r, name);
      SameServerKeepsHeld(Apply(s, key, r, name), t, name);
    } else {
      SameServerKeepsHeld(s, t, name);
    }
  }

  /** In particular when what is stored still is the object of the view. */
  lemma SameObjectStripIsSafe(actions: seq<Action>, w: Worker, sent: bool, name: string)
    requires Run(actions, name).Some? && At(Run(actions, name).value, w).Stripping?
    requires var s := Run(actions, name).value;
      At(s, w).key in s.server ==> s.server[At(s, w).key].uid == At(s, w).view.uid
    ensures !StripsAnother(Run(actions, name).value, Strip(w, sent), name)
  {
    RunsAreTracked(actions, name);
    var s := Run(actions, name).value;
    assert PcSound(s, At(s, w), name);
  }

  /** Every other step keeps the release order. */
  lemma OtherStepsKeepHeld(s: State, a: Action, name: string)
    requires TeardownBeforeRelease(s, name) && Enabled(s, a, name) && !(a.Strip? && a.sent)
    ensures TeardownBeforeRelease(Next(s, a, name), name)
  {
    match a
    case Create(_, _) => CreateKeepsHeld(s, a, name);
    case EditForeign(_, _) => ApplyKeepsHeld(s, a.key, EditResult(s, a), name);
    case RequestDelete(_) => ApplyKeepsHeld(s, a.key, EditResult(s, a), name);
    case Ensure(w, sent) =>
      if !At(s, w).view.deleting && !HasFinalizer(At(s, w).view, name) {
        AddKeepsHeld(s, w, sent, name);
      } else {
        SameServerKeepsHeld(s, Next(s, a, name), name);
      }
    case _ => SameServerKeepsHeld(s, Next(s, a, name), name);
  }

  lemma StepIsSafeIff(s: State, a: Action, name: string)
    requires Tracked(s, name) && TeardownBeforeRelease(s, name) && Enabled(s, a, name)
    ensures TeardownBeforeRelease(Next(s, a, name), name) <==> !StripsAnother(s, a, name)
  {
    if a.Strip? && a.sent {
      StripSafeIff(s, a.w, name);
    } else {
      OtherStepsKeepHeld(s, a, name);
    }
  }

  /** The release order holds all along the run. */
  ghost predicate SafeThroughout(actions: seq<Action>, name: string)
    requires Run(actions, name).Some?
  {
    && (actions != [] ==> SafeThroughout(actions[..|actions| - 1], name))
    && TeardownBeforeRelease(Run(actions, name).value, name)
  }

  /** No step of the run strips another object. */
  ghost predicate NeverStripsAnother(actions: seq<Action>, name: string)
    requires Run(actions, name).Some?
  {
    actions != [] ==>
      var last := |actions| - 1;
      NeverStripsAnother(actions[..last], name) && !StripsAnother(Run(actions[..last], name).value, actions[last], name)
  }

  /** Names reused or not, a run keeps the release order throughout exactly if no strip patch in
      it is accepted by an object that carries our finalizer and was never finalized. */
  lemma {:induction false} RunIsSafeIff(actions: seq<Action>, name: string)
    requires Run(actions, name).Some?
    ensures SafeThroughout(actions, name) <==> NeverStripsAnother(actions, name)
  {
    if actions != [] {
      var last := |actions| - 1;
      RunIsSafeIff(actions[..last], name);
      if SafeThroughout(actions[..last], name) {
        RunsAreTracked(actions[..last], name);
        StepIsSafeIff(Run(actions[..last], name).value, actions[last], name);
      }
    }
  }

  lemma RunMore(actions: seq<Action>, a: Action, name: string)
    requires Run(actions, name).Some? && Enabled(Run(actions, name).value, a, name)
    ensures Run(actions + [a], name) == Some(Next(Run(actions, name).value, a, name))
  {
    assert (actions + [a])[..|actions|] == actions;
  }

  lemma Then(actions: seq<Action>, was: State, a: Action, name: string) returns (more: seq<Action>, s: State)
    requires Run(actions, name) == Some(was) && Enabled(was, a, name)
    ensures more == actions + [a] && s == Next(was, a, name) && Run(more, name) == Some(s)
  {
    RunMore(actions, a, name);
    more, s := actions + [a], Next(was, a, name);
  }

  /** The name is given to object `uid`, of which a worker takes note. */
  lemma ThenNotice(before: seq<Action>, was: State, key: Key, uid: nat, name: string)
    returns (actions: seq<Action>, s: State)
    requires Run(before, name) == Some(was) && At(was, 0).Idle? && was.server == map[] && was.nextUid == uid
    ensures Run(actions, name) == Some(s) && At(s, 0) == Taken(key, Added, Obj(uid, [], false))
    ensures s.server == map[key := Obj(uid, [], false)] && s.nextUid == uid + 1
    ensures s.finalized == was.finalized && was.versions <= s.versions
    ensures |actions| == |before| + 3 && before <= actions
    ensures forall i :: |before| < i < |actions| ==> !actions[i].Create?
  {
    actions, s := Then(before, was, Create(key, []), name);
    actions, s := Then(actions, s, Deliver(key, Obj(uid, [], false)), name);
    actions, s := Then(actions, s, Take(0, key, Added, true), name);
  }

  /** The object gets the finalizer, and its handler is called. */
  lemma ThenAdopt(before: seq<Action>, was: State, key: Key, uid: nat, name: string)
    returns (actions: seq<Action>, s: State)
    requires Run(before, name) == Some(was) && At(was, 0).Idle? && was.server == map[] && was.nextUid == uid
    ensures Run(actions, name) == Some(s) && At(s, 0).Idle?
    ensures s.server == map[key := Obj(uid, [name], false)] && s.nextUid == uid + 1
    ensures s.finalized == was.finalized && was.versions <= s.versions && uid in s.held
  {
    actions, s := ThenNotice(before, was, key, uid, name);
    assert [] + [name] == [name];
    actions, s := Then(actions, s, Ensure(0, true), name);
    actions, s := Then(actions, s, Handle(0), name);
  }

  /** A worker acts on the deleting version of object 0, whatever bears the name by now. */
  lemma ThenStrip(before: seq<Action>, was: State, key: Key, name: string) returns (actions: seq<Action>, s: State)
    requires Run(before, name) == Some(was) && At(was, 0).Idle? && key in was.server
    requires (key, Obj(0, [name], true)) in was.versions
    ensures Run(actions, name) == Some(s) && At(s, 0).Idle?
    ensures s.finalized == was.finalized + {0} && s.nextUid == was.nextUid && s.held == was.held
    ensures was.versions <= s.versions
    ensures s.server == if was.server[key].deleting then was.server - {key}
                        else was.server[key := was.server[key].(finalizers := [])]
  {
    actions, s := ThenTeardown(before, was, key, name);
    assert Without([name], name) == [] + Without([], name);
    actions, s := Then(actions, s, Strip(0, true), name);
  }

  lemma ThenTeardown(before: seq<Action>, was: State, key: Key, name: string) returns (actions: seq<Action>, s: State)
    requires Run(before, name) == Some(was) && At(was, 0).Idle?
    requires (key, Obj(0, [name], true)) in was.versions
    ensures Run(actions, name) == Some(s) && At(s, 0) == Stripping(key, Obj(0, [name], true))
    ensures s.finalized == was.finalized + {0} && s.nextUid == was.nextUid && s.held == was.held
    ensures s.versions == was.versions && s.server == was.server
  {
    actions, s := Then(before, was, Deliver(key, Obj(0, [name], true)), name);
    actions, s := Then(actions, s, Take(0, key, Modified, true), name);
    actions, s := Then(actions, s, Finalize(0, true), name);
  }

  /** One object of that name lives, is finalized and is gone. */
  lemma FirstLife(key: Key, name: string) returns (actions: seq<Action>, s: State)
    ensures Run(actions, name) == Some(s) && At(s, 0).Idle?
    ensures s.server == map[] && s.nextUid == 1 && s.finalized == {0}
    ensures (key, Obj(0, [name], true)) in s.versions
  {
    actions, s := ThenAdopt([], INITIAL, key, 0, name);
    actions, s := Then(actions, s, RequestDelete(key), name);
    actions, s := ThenStrip(actions, s, key, name);
  }

  /** With a reused name the order can be violated, whatever the name: its second object loses the
      finalizer although it was never finalized, because a stale view of the first was acted on. */
  lemma ReusedNameLosesFinalizer(key: Key, name: string) returns (actions: seq<Action>)
    ensures Run(actions, name).Some? && !TeardownBeforeRelease(Run(actions, name).value, name)
  {
    var s;
    actions, s := FirstLife(key, name);
    actions, s := ThenAdopt(actions, s, key, 1, name);
    assert s.finalized == {0};
    actions, s := ThenStrip(actions, s, key, name);
    assert 1 in s.held && 1 !in s.finalized && !StillHeld(s, 1, name);
  }

  // ---------------------------------------------------------------- foreign finalizers

  ghost predicate SameForeign(a: seq<string>, b: seq<string>, name: string) {
    forall f :: f != name ==> (f in a <==> f in b)
  }

  /** A worker's patch, when it is accepted, leaves the finalizers of all other controllers alone
      exactly when the view it was built from was current in them: adding ours, */
  lemma AddKeepsForeignIff(s: State, w: Worker, name: string)
    requires At(s, w).Taken? && !At(s, w).view.deleting && name !in At(s, w).view.finalizers
    ensures var t, key, view := Next(s, Ensure(w, true), name), At(s, w).key, At(s, w).view;
      At(t, w).Handling? ==>
        && key in s.server && key in t.server && name in t.server[key].finalizers
        && ((forall f :: f != name ==> (f in t.server[key].finalizers <==> f in s.server[key].finalizers))
            <==> forall f :: f != name ==> (f in view.finalizers <==> f in s.server[key].finalizers))
  {
    AddPatchIs(s, w, true, name);
  }

  /** and stripping it, where an object that goes away keeps none. */
  lemma StripKeepsForeignIff(s: State, w: Worker, name: string)
    requires At(s, w).Stripping? && At(s, w).key in s.server
    ensures var t, key, view := Next(s, Strip(w, true), name), At(s, w).key, At(s, w).view;
      t.server != s.server ==>
        var left := if key in t.server then t.server[key].finalizers else [];
        && name !in left
        && ((forall f :: f != name ==> (f in left <==> f in s.server[key].finalizers))
            <==> forall f :: f != name ==> (f in view.finalizers <==> f in s.server[key].finalizers))
  {
    StripPatchIs(s, w, true, name);
  }

  /** What becomes of an array that a patch replaces whole: an accepted patch leaves the finalizers
      of other controllers alone exactly when the view it was built from is current in them. */
  lemma ForeignKeptIff(s: State, key: Key, view: Obj, name: string, strip: bool)
    ensures var r :=
        PatchFinalizers(s.server, key, if strip then Without(view.finalizers, name) else view.finalizers + [name]);
      r.Updated? || r.Removed? ==>
        && (HasFinalizer(r.obj, name) <==> !strip)
        && (SameForeign(r.obj.finalizers, s.server[key].finalizers, name)
            <==> SameForeign(view.finalizers, s.server[key].finalizers, name))
  {
    WithoutKeeps(view.finalizers, name);
  }

  predicate Dwindled(before: Obj, after: Obj) {
    after.deleting && forall f :: f in after.finalizers ==> f in before.finalizers
  }

  /** Once its name has a deleting version, an object is deleting and only loses finalizers. */
  ghost predicate DeletingDwindles(s: State) {
    forall v :: v in s.versions && v.1.deleting && v.0 in s.server ==> Dwindled(v.1, s.server[v.0])
  }

  lemma ApplyKeepsDwindling(s: State, key: Key, r: PatchResult, name: string)
    requires DeletingDwindles(s) && key in s.server
    requires (r.Updated? || r.Removed?) && s.server[key].deleting ==> Dwindled(s.server[key], r.obj)
    ensures DeletingDwindles(Apply(s, key, r, name))
  {
    var t := Apply(s, key, r, name);
    forall v | v in t.versions && v.1.deleting && v.0 in t.server ensures Dwindled(v.1, t.server[v.0]) {
      assert v in s.versions && v.0 == key ==> Dwindled(v.1, s.server[key]);
    }
  }

  lemma StepKeepsDwindling(s: State, a: Action, name: string)
    requires OneObjectPerName(s) && DeletingDwindles(s) && Enabled(s, a, name) && FreshAction(s, a)
    ensures DeletingDwindles(Next(s, a, name))
  {
    match a
    case EditForeign(_, _) => ApplyKeepsDwindling(s, a.key, EditResult(s, a), name);
    case RequestDelete(_) => ApplyKeepsDwindling(s, a.key, EditResult(s, a), name);
    case Strip(w, sent) => PatchKeepsDwindling(s, At(s, w).key, Without(At(s, w).view.finalizers, name), name);
    case Ensure(w, sent) => PatchKeepsDwindling(s, At(s, w).key, At(s, w).view.finalizers + [name], name);
    case _ =>
  }

  lemma PatchKeepsDwindling(s: State, key: Key, finalizers: seq<string>, name: string)
    requires DeletingDwindles(s)
    ensures DeletingDwindles(Apply(s, key, PatchFinalizers(s.server, key, finalizers), name))
  {
    if key in s.server {
      ApplyKeepsDwindling(s, key, PatchFinalizers(s.server, key, finalizers), name);
    }
  }

  lemma {:induction false} RunsDwindle(actions: seq<Action>, name: string)
    requires Run(actions, name).Some? && NamesFresh(actions)
    ensures DeletingDwindles(Run(actions, name).value)
  {
    if actions != [] {
      var last := |actions| - 1;
      RunsDwindle(actions[..last], name);
      RunsAreSafe(actions[..last], name);
      UsedAreCreated(actions[..last], name);
      StepKeepsDwindling(Run(actions[..last], name).value, actions[last], name);
    }
  }

  /** However stale the view, a strip patch that the server accepts keeps the finalizers of all
      other controllers, in every run without reused names: the view is a deleting version. */
  lemma StripsKeepForeign(actions: seq<Action>, w: Worker, name: string)
    requires Run(actions, name).Some? && NamesFresh(actions) && At(Run(actions, name).value, w).Stripping?
    ensures var s := Run(actions, name).value;
      var t, key := Next(s, Strip(w, true), name), At(s, w).key;
      key in s.server ==>
        forall f :: f != name ==> (f in s.server[key].finalizers <==> key in t.server && f in t.server[key].finalizers)
  {
    var s := Run(actions, name).value;
    var key, view := At(s, w).key, At(s, w).view;
    RunsAreSafe(actions, name);
    RunsDwindle(actions, name);
    assert PcSound(s, At(s, w), name) && (key, view) in s.versions;
    StripPatchIs(s, w, true, name);
    if key in s.server {
      assert Dwindled(view, s.server[key]);
    }
  }

  /** An add patch can lose them without any name being reused: another controller's finalizer
      arrives after the view was taken. */
  lemma AddCanLoseForeign(key: Key, name: string, other: string)
    returns (actions: seq<Action>, before: State, after: State)
    requires other != name
    ensures NamesFresh(actions + [Ensure(0, true)])
    ensures Run(actions, name) == Some(before) && Run(actions + [Ensure(0, true)], name) == Some(after)
    ensures before.server == map[key := Obj(0, [other], false)]
    ensures after.server == map[key := Obj(0, [name], false)]
    ensures !SameForeign(after.server[key].finalizers, before.server[key].finalizers, name)
  {
    actions, before := ThenNotice([], INITIAL, key, 0, name);
    actions, before := Then(actions, before, EditForeign(key, [other]), name);
    assert [] + [name] == [name];
    var more;
    more, after := Then(actions, before, Ensure(0, true), name);
    assert more == actions + [Ensure(0, true)];
    assert before.server == map[key := Obj(0, [other], false)];
    assert other in before.server[key].finalizers && other !in after.server[key].finalizers;
  }

  // ---------------------------------------------------------------- dispatch

  /** The controller inside its surroundings: every statement of `dispatch` that touches shared
      state is one action of the protocol, and others act in between. */
  class Controller {
    const name: string
    var s: State
    ghost var run: seq<Action>

    constructor (name: string)
      ensures Valid() && this.name == name && run == []
    {
      this.name, s, run := name, INITIAL, [];
    }

    ghost predicate Valid()
      reads this
    {
      Run(run, name) == Some(s)
    }

    method Do(a: Action)
      requires Valid() && Enabled(s, a, name)
      modifies this
      ensures Valid() && run == old(run) + [a] && old(run) <= run && s == Next(old(s), a, name)
    {
      RunMore(run, a, name);
      s, run := Next(s, a, name), run + [a];
    }

    /** Anything others may do meanwhile: any actions that leave worker `w` where it is. */
    method Others(w: Worker, actions: seq<Action>)
      requires Valid()
      modifies this
      ensures Valid() && old(run) <= run && At(s, w) == old(At(s, w))
    {
      for i := 0 to |actions|
        invariant Valid() && old(run) <= run && At(s, w) == old(At(s, w))
      {
        if Enabled(s, actions[i], name) && At(Next(s, actions[i], name), w) == At(s, w) {
          Do(actions[i]);
        }
      }
    }

    /** addFinalizer: append, patch, cache the answer. `sent` tells whether the request reaches
        the server. */
    method AddFinalizer(w: Worker, sent: bool) returns (ok: bool)
      requires Valid() && At(s, w).Taken? && !At(s, w).view.deleting && !HasFinalizer(At(s, w).view, name)
      modifies this
      ensures Valid() && run == old(run) + [Ensure(w, sent)] && old(run) <= run && s == AfterAdd(old(s), w, name, sent)
      ensures ok <==> At(s, w).Handling?
      ensures var key, view := old(At(s, w)).key, old(At(s, w)).view;
        && (ok ==> key in s.server && s.server[key].finalizers == view.finalizers + [name] && At(s, w).view == s.server[key])
        && (ok ==> s.cache == old(s.cache)[key := s.server[key]])
        && (!ok ==> s.server == old(s.server) && s.cache == old(s.cache))
    {
      RunMore(run, Ensure(w, sent), name);
      run := run + [Ensure(w, sent)];
      var pc := At(s, w);
      var finalizers := pc.view.finalizers + [name];
      var r := if sent then PatchFinalizers(s.server, pc.key, finalizers) else NotFound;
      ok := r.Updated?;
      if !ok {
        s := Goto(s, w, Idle);
        return;
      }
      s := Apply(s, pc.key, r, name);
      s := s.(cache := s.cache[pc.key := r.obj]);
      s := Goto(s, w, Handling(pc.key, pc.event, r.obj));
    }

    /** removeFinalizer: the remaining finalizers are collected in a loop, then patched. */
    method RemoveFinalizer(w: Worker, sent: bool)
      requires Valid() && At(s, w).Stripping?
      modifies this
      ensures Valid() && run == old(run) + [Strip(w, sent)] && old(run) <= run && s == AfterStrip(old(s), w, name, sent)
      ensures At(s, w).Idle?
      ensures s.server != old(s.server) ==>
        var key, view := old(At(s, w)).key, old(At(s, w)).view;
        && key in s.cache && (forall f :: f in s.cache[key].finalizers <==> f in view.finalizers && f != name)
        && (key in s.server ==> s.server[key] == s.cache[key])
    {
      RunMore(run, Strip(w, sent), name);
      StripPatchIs(s, w, sent, name);
      run := run + [Strip(w, sent)];
      var pc := At(s, w);
      var finalizers := pc.view.finalizers;
      var newFinalizers := [];
      for i := 0 to |finalizers|
        invariant newFinalizers == Without(finalizers[..i], name)
        modifies {}
      {
        WithoutSnoc(finalizers[..i], finalizers[i], name);
        assert finalizers[..i + 1] == finalizers[..i] + [finalizers[i]];
        if finalizers[i] != name {
          newFinalizers := newFinalizers + [finalizers[i]];
        }
      }
      assert finalizers[..|finalizers|] == finalizers;
      var r := if sent then PatchFinalizers(s.server, pc.key, newFinalizers) else NotFound;
      s := Apply(s, pc.key, r, name);
      if r.Updated? || r.Removed? {
        s := s.(cache := s.cache[pc.key := r.obj]);
      }
      s := Goto(s, w, Idle);
    }

    /** dispatch, with the outcomes of its calls and the interference in each of its gaps as
        parameters. Whatever they are, it is a stretch of the protocol, so RunsAreSafe applies to every state it passes;
        and the view it took decides which branch that is. */
    method Dispatch(
      w: Worker, key: Key, event: EventType, finalizeOk: bool, sent: bool,
      afterTake: seq<Action>, afterFinalize: seq<Action>, afterEnsure: seq<Action>)
      returns (end: Ending)
      requires Valid() && At(s, w).Idle?
      modifies this
      ensures Valid() && At(s, w).Idle?
      ensures old(run) + [Take(w, key, event, true)] <= run
      ensures var view := TakenView(old(s), key, event, true);
        && (end == NothingToDo <==> view.None? || (view.value.deleting && !HasFinalizer(view.value, name)))
        && (end == FinalizeFailed <==> view.Some? && view.value.deleting && HasFinalizer(view.value, name) && !finalizeOk)
        && (end == Stripped <==> view.Some? && view.value.deleting && HasFinalizer(view.value, name) && finalizeOk)
        && (end == AddFailed ==> view.Some? && !view.value.deleting && !HasFinalizer(view.value, name))
      ensures end == Stripped ==> run[|run| - 1] == Strip(w, sent)
      ensures end == Handled ==> run[|run| - 1] == Handle(w)
    {
      Do(Take(w, key, event, true));
      ghost var start := run;
      if At(s, w).Idle? {
        return NothingToDo;
      }
      var obj := At(s, w).view;
      Others(w, afterTake);
      assert start <= run;
      if obj.deleting {
        if !HasFinalizer(obj, name) {
          Do(Ensure(w, sent));
          return NothingToDo;
        }
        Do(Finalize(w, finalizeOk));
        if !finalizeOk {
          return FinalizeFailed;
        }
        Others(w, afterFinalize);
        assert start <= run;
        RemoveFinalizer(w, sent);
        return Stripped;
      }
      if !HasFinalizer(obj, name) {
        var ok := AddFinalizer(w, sent);
        if !ok {
          return AddFailed;
        }
      } else {
        Do(Ensure(w, sent));
      }
      assert start <= run;
      Others(w, afterEnsure);
      assert start <= run;
      Do(Handle(w));
      end := Handled;
    }
  }

  /** How a dispatch ends; the failures are retried through the queue. */
  datatype Ending = NothingToDo | FinalizeFailed | Stripped | AddFailed | Handled

  lemma {:induction false} WithoutSnoc(fs: seq<string>, f: string, name: string)
    ensures Without(fs + [f], name) == Without(fs, name) + if f == name then [] else [f]
  {
    if fs == [] {
      assert fs + [f] == [f];
    } else {
      assert (fs + [f])[1..] == fs[1..] + [f];
      WithoutSnoc(fs[1..], f, name);
    }
  }
}
