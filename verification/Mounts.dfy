/** Mount synthesis of libkite/sandbox/profile.go: `compilePaths` builds one list in place from
    four layers, and every destination in it is decided by the topmost layer that names it. */
module Mounts {
  import opened Common
  import Sorting

  datatype MountType = Bind | Tmpfs

  datatype Mode = RO | RW

  datatype Mount = Mount(source: string, destination: string, kind: MountType, mode: Mode)

  /** An explicit mount as configured. */
  datatype MountSpec = MountSpec(source: string, destination: string, kind: string, mode: string)

  /** The directories variables stand for, and filepath.Join and filepath.Clean. */
  datatype Host = Host(cwd: string, home: string, join: (string, string) -> string, clean: string -> string)

  // ---------------------------------------------------------------- single entries

  /** expandPath. */
  function ExpandPath(h: Host, p: string): string {
    if p == "" then ""
    else if p == "." || p == "$CWD" then h.cwd
    else if "./" <= p then h.join(h.cwd, p[2..])
    else if "$CWD/" <= p then h.join(h.cwd, p[5..])
    else if h.home != "" && (p == "$HOME" || p == "~") then h.home
    else if h.home != "" && "$HOME/" <= p then h.join(h.home, p[6..])
    else if h.home != "" && "~/" <= p then h.join(h.home, p[2..])
    else p
  }

  predicate IsContainerAbs(p: string) {
    "/" <= p
  }

  predicate IsHostAbs(p: string) {
    "/" <= p || "\\" <= p
  }

  /** decodeMount; None for its errors. */
  function DecodeMount(h: Host, m: MountSpec): Option<Mount> {
    var source, destination := ExpandPath(h, m.source), ExpandPath(h, m.destination);
    if destination == "" || m.kind !in {"", "bind", "tmpfs"} then None
    else
      var kind := if m.kind == "tmpfs" then Tmpfs else Bind;
      if (kind.Bind? && source == "") || (kind.Tmpfs? && m.source != "") || m.mode !in {"", "ro", "rw"} then None
      else
        var mode := if m.mode == "ro" then RO else if m.mode == "rw" || kind.Tmpfs? then RW else RO;
        if !IsContainerAbs(destination) || (kind.Bind? && !IsHostAbs(source)) then None
        else Some(Mount(source, destination, kind, mode))
  }

  /** Which directory an entry stands for. */
  lemma ExpandPathIs(h: Host, x: string)
    ensures ExpandPath(h, "") == "" && ExpandPath(h, ".") == h.cwd == ExpandPath(h, "$CWD")
    ensures ExpandPath(h, "./" + x) == h.join(h.cwd, x) == ExpandPath(h, "$CWD/" + x)
    ensures ExpandPath(h, "~") == (if h.home == "" then "~" else h.home)
    ensures ExpandPath(h, "~/" + x) == (if h.home == "" then "~/" + x else h.join(h.home, x))
    ensures ExpandPath(h, "$HOME") == (if h.home == "" then "$HOME" else h.home)
    ensures ExpandPath(h, "$HOME/" + x) == (if h.home == "" then "$HOME/" + x else h.join(h.home, x))
    ensures x != "" && x[0] !in {'.', '$', '~'} ==> ExpandPath(h, x) == x
  {
    RestIs("./", x);
    RestIs("$CWD/", x);
    RestIs("~/", x);
    RestIs("$HOME/", x);
    assert "$CWD/"[1] == 'C' && "$HOME/"[1] == 'H' && "~/"[0] == '~' && "./"[0] == '.';
    assert ("$HOME/" + x)[1] == 'H' && ("~/" + x)[0] == '~' && ("$CWD/" + x)[4] == '/' && ("$HOME/" + x)[5] == '/';
  }

  lemma RestIs(a: string, x: string)
    ensures a <= a + x && (a + x)[|a|..] == x
  {
  }

  /** What an explicit mount decodes to. It must lead to an absolute destination; a scratch mount
      has no source and is writable unless read-only, any other needs an absolute source and is
      read-only unless writable. */
  lemma DecodesTo(h: Host, spec: MountSpec, m: Mount)
    ensures DecodeMount(h, spec) == Some(m)
       <==> && m.destination == ExpandPath(h, spec.destination) && "/" <= m.destination
            && m.source == ExpandPath(h, spec.source)
            && match spec.kind
               case "tmpfs" =>
                 spec.source == "" && m.kind == Tmpfs && ((spec.mode in {"", "rw"} && m.mode == RW) || (spec.mode == "ro" && m.mode == RO))
               case _ =>
                 && spec.kind in {"", "bind"} && m.kind == Bind && ("/" <= m.source || "\\" <= m.source)
                 && ((spec.mode in {"", "ro"} && m.mode == RO) || (spec.mode == "rw" && m.mode == RW))
  {
  }

  function PathMount(path: string, mode: Mode): Mount {
    Mount(path, path, Bind, mode)
  }

  const TMP := Mount("", "/tmp", Tmpfs, RW)

  // ---------------------------------------------------------------- the layers

  /** `path` is what some entry of the list expands and cleans to. */
  predicate Names(h: Host, entries: seq<string>, path: string) {
    exists i :: 0 <= i < |entries| && ExpandPath(h, entries[i]) != "" && h.clean(ExpandPath(h, entries[i])) == path
  }

  function FirstTo(mounts: seq<Mount>, d: string): Option<Mount> {
    if mounts == [] then None
    else if mounts[0].destination == d then Some(mounts[0])
    else FirstTo(mounts[1..], d)
  }

  function LastTo(mounts: seq<Mount>, d: string): Option<Mount> {
    if mounts == [] then None
    else if mounts[|mounts| - 1].destination == d then Some(mounts[|mounts| - 1])
    else LastTo(mounts[..|mounts| - 1], d)
  }

  /** What is mounted at `d`: the last explicit mount, else a write path, else a read path, else
      the first base mount, else a scratch /tmp. */
  function Layered(h: Host, readable: seq<string>, writable: seq<string>, explicit: seq<Mount>, base: seq<Mount>, d: string): Option<Mount> {
    if LastTo(explicit, d).Some? then LastTo(explicit, d)
    else if PathLayer(h, readable, writable, d).Some? then PathLayer(h, readable, writable, d)
    else if FirstTo(base, d).Some? then FirstTo(base, d)
    else if d == "/tmp" then Some(TMP)
    else None
  }

  function PathLayer(h: Host, readable: seq<string>, writable: seq<string>, d: string): Option<Mount> {
    if Names(h, writable, d) then Some(PathMount(d, RW))
    else if Names(h, readable, d) then Some(PathMount(d, RO))
    else None
  }

  /** The list that the layers describe: the last explicit mount to each destination; for paths
      without one, the path mounted on itself, writable if it is a write path; the first base
      mount to a destination that is still free; then the scratch /tmp; and nothing else. */
  lemma LayersAre(
    h: Host, readable: seq<string>, writable: seq<string>, explicit: seq<Mount>, base: seq<Mount>, mounts: seq<Mount>, m: Mount)
    requires DistinctDestinations(mounts)
    requires forall d :: FirstTo(mounts, d) == Layered(h, readable, writable, explicit, base, d)
    ensures var d := m.destination;
      m in mounts <==>
        if To(explicit, d) then IsLast(explicit, m)
        else if Names(h, writable, d) then m == Mount(d, d, Bind, RW)
        else if Names(h, readable, d) then m == Mount(d, d, Bind, RO)
        else if To(base, d) then IsFirst(base, m)
        else m == Mount("", "/tmp", Tmpfs, RW)
  {
    var d := m.destination;
    LastToIs(explicit, m);
    FirstIs(base, m);
    FirstToIs(mounts, d);
    if m in mounts {
      var i :| 0 <= i < |mounts| && mounts[i] == m;
      assert FirstTo(mounts, d).value == m by {
        var k :| 0 <= k < |mounts| && mounts[k] == FirstTo(mounts, d).value;
      }
    }
  }

  predicate To(mounts: seq<Mount>, d: string) {
    exists i :: 0 <= i < |mounts| && mounts[i].destination == d
  }

  predicate IsLast(mounts: seq<Mount>, m: Mount) {
    exists i :: 0 <= i < |mounts| && mounts[i] == m && forall j :: i < j < |mounts| ==> mounts[j].destination != m.destination
  }

  predicate IsFirst(mounts: seq<Mount>, m: Mount) {
    exists i :: 0 <= i < |mounts| && mounts[i] == m && forall j :: 0 <= j < i ==> mounts[j].destination != m.destination
  }

  lemma {:induction false} LastToIs(mounts: seq<Mount>, m: Mount)
    ensures LastTo(mounts, m.destination).Some? <==> To(mounts, m.destination)
    ensures LastTo(mounts, m.destination) == Some(m) <==> IsLast(mounts, m)
  {
    if mounts != [] {
      var n := |mounts| - 1;
      var front, last := mounts[..n], mounts[n];
      LastToIs(front, m);
      if last.destination == m.destination {
        assert IsLast(mounts, last);
      } else if IsLast(front, m) {
        var i :| 0 <= i < n && front[i] == m && forall j :: i < j < n ==> front[j].destination != m.destination;
        assert mounts[i] == m && forall j :: i < j < n ==> mounts[j] == front[j];
      }
    }
  }

  lemma {:induction false} FirstIs(mounts: seq<Mount>, m: Mount)
    ensures FirstTo(mounts, m.destination).Some? <==> To(mounts, m.destination)
    ensures FirstTo(mounts, m.destination) == Some(m) <==> IsFirst(mounts, m)
  {
    if mounts != [] {
      FirstIs(mounts[1..], m);
    }
  }

  function Over(top: Option<Mount>, below: Option<Mount>): Option<Mount> {
    if top.Some? then top else below
  }

  predicate DistinctDestinations(mounts: seq<Mount>) {
    forall i, j :: 0 <= i < j < |mounts| ==> mounts[i].destination != mounts[j].destination
  }

  /** `b` lies below `a`. */
  predicate IsAncestor(a: string, b: string) {
    a != b && (a + "/" <= b || (a == "/" && a <= b))
  }

  // ---------------------------------------------------------------- the order of paths

  /** Shorter paths first, then by text. */
  predicate PathLe(a: string, b: string) {
    |a| < |b| || (|a| == |b| && Sorting.StringLe(a, b))
  }

  lemma PathOrder()
    ensures Sorting.TotalOrder(PathLe)
  {
    Sorting.StringOrder();
  }

  // ---------------------------------------------------------------- lookups and edits

  lemma {:induction false} FirstToIs(mounts: seq<Mount>, d: string)
    ensures FirstTo(mounts, d).None? <==> forall i :: 0 <= i < |mounts| ==> mounts[i].destination != d
    ensures FirstTo(mounts, d).Some? ==> FirstTo(mounts, d).value.destination == d && FirstTo(mounts, d).value in mounts
  {
    if mounts != [] {
      FirstToIs(mounts[1..], d);
      assert mounts == [mounts[0]] + mounts[1..];
    }
  }

  lemma {:induction false} FirstToAppend(mounts: seq<Mount>, m: Mount, d: string)
    ensures FirstTo(mounts + [m], d) ==
      if FirstTo(mounts, d).Some? then FirstTo(mounts, d) else if m.destination == d then Some(m) else None
  {
    if mounts == [] {
      assert mounts + [m] == [m];
    } else {
      assert (mounts + [m])[1..] == mounts[1..] + [m];
      FirstToAppend(mounts[1..], m, d);
    }
  }

  /** Overwriting the entry for a destination changes that lookup only. */
  lemma {:induction false} FirstToUpdate(mounts: seq<Mount>, k: nat, m: Mount, d: string)
    requires DistinctDestinations(mounts) && k < |mounts| && mounts[k].destination == m.destination
    ensures FirstTo(mounts[k := m], d) == if m.destination == d then Some(m) else FirstTo(mounts, d)
  {
    if k == 0 {
      assert mounts[0 := m][1..] == mounts[1..];
    } else {
      assert mounts[k := m][1..] == mounts[1..][k - 1 := m];
      assert mounts[0].destination != m.destination;
      FirstToUpdate(mounts[1..], k - 1, m, d);
    }
  }

  method FindDestination(mounts: seq<Mount>, d: string) returns (k: nat)
    ensures k <= |mounts| && (k < |mounts| ==> mounts[k].destination == d)
    ensures k == |mounts| ==> forall i :: 0 <= i < |mounts| ==> mounts[i].destination != d
  {
    k := 0;
    while k < |mounts| && mounts[k].destination != d
      invariant k <= |mounts| && forall i :: 0 <= i < k ==> mounts[i].destination != d
    {
      k := k + 1;
    }
  }

  /** The first `n` destinations are those of `front`. */
  predicate StartsWith(mounts: seq<Mount>, front: seq<string>) {
    |front| <= |mounts| && forall i :: 0 <= i < |front| ==> mounts[i].destination == front[i]
  }

  // ---------------------------------------------------------------- compilePaths

  predicate Distinct(paths: seq<string>) {
    forall i, j :: 0 <= i < j < |paths| ==> paths[i] != paths[j]
  }

  /** The loops over write and read entries: clean, skip empty and known ones. */
  method CollectPaths(h: Host, entries: seq<string>, known: set<string>) returns (paths: seq<string>)
    ensures Distinct(paths)
    ensures forall p :: p in paths <==> Names(h, entries, p) && p !in known
  {
    paths := [];
    var seen: set<string> := {};
    for i := 0 to |entries|
      invariant Distinct(paths) && forall p :: p in seen <==> p in paths
      invariant forall p :: p in paths ==> Names(h, entries, p) && p !in known
      invariant forall k :: 0 <= k < i && ExpandPath(h, entries[k]) != "" && h.clean(ExpandPath(h, entries[k])) !in known ==>
        h.clean(ExpandPath(h, entries[k])) in paths
    {
      var exp := ExpandPath(h, entries[i]);
      if exp == "" {
        continue;
      }
      var clean := h.clean(exp);
      if clean in known {
        continue;
      }
      if clean !in seen {
        seen, paths := seen + {clean}, paths + [clean];
      }
    }
  }

  /** The write paths, and the read paths that are not among them, in sorted order. */
  method SortedPaths(h: Host, readable: seq<string>, writable: seq<string>)
    returns (front: seq<string>, writeSet: set<string>)
    ensures Distinct(front) && Sorting.Sorted(front, PathLe)
    ensures forall d :: d in writeSet <==> Names(h, writable, d)
    ensures forall d :: d in front <==> Names(h, writable, d) || Names(h, readable, d)
  {
    var writePaths := CollectPaths(h, writable, {});
    writeSet := set i | 0 <= i < |writePaths| :: writePaths[i];
    assert forall p :: p in writeSet <==> p in writePaths;
    var readPaths := CollectPaths(h, readable, writeSet);
    var all := writePaths + readPaths;
    DistinctConcat(writePaths, readPaths);
    PathOrder();
    front := Sorting.Sort(all, PathLe);
    Sorting.SortSorts(all, PathLe);
    SortedIsDistinct(all, front);
    forall p ensures p in front <==> p in all {
      assert p in front <==> p in multiset(front);
      assert p in all <==> p in multiset(all);
    }
  }

  lemma DistinctConcat(a: seq<string>, b: seq<string>)
    requires Distinct(a) && Distinct(b) && forall p :: p in b ==> p !in a
    ensures Distinct(a + b)
  {
    forall i, j | 0 <= i < j < |a + b| ensures (a + b)[i] != (a + b)[j] {
      if i < |a| <= j {
        assert (a + b)[i] in a && (a + b)[j] in b;
      }
    }
  }

  /** The sorted path entries as mounts. */
  method PathMounts(h: Host, readable: seq<string>, writable: seq<string>)
    returns (mounts: seq<Mount>, front: seq<string>)
    ensures DistinctDestinations(mounts) && |front| == |mounts| && StartsWith(mounts, front)
    ensures Sorting.Sorted(front, PathLe)
    ensures forall d :: d in front <==> Names(h, writable, d) || Names(h, readable, d)
    ensures forall d :: FirstTo(mounts, d) == PathLayer(h, readable, writable, d)
  {
    var writeSet;
    front, writeSet := SortedPaths(h, readable, writable);
    mounts := [];
    for i := 0 to |front|
      invariant |mounts| == i
      invariant forall k :: 0 <= k < i ==> mounts[k] == PathMount(front[k], if front[k] in writeSet then RW else RO)
    {
      mounts := mounts + [PathMount(front[i], if front[i] in writeSet then RW else RO)];
    }
    forall d ensures FirstTo(mounts, d) == PathLayer(h, readable, writable, d) {
      FirstToIs(mounts, d);
      if d in front {
        var k :| 0 <= k < |front| && front[k] == d;
        assert mounts[k].destination == d;
      }
    }
  }

  lemma SortedIsDistinct(all: seq<string>, front: seq<string>)
    requires Distinct(all) && multiset(front) == multiset(all)
    ensures Distinct(front)
  {
    forall i, j | 0 <= i < j < |front| ensures front[i] != front[j] {
      if front[i] == front[j] {
        assert front == front[..i] + [front[i]] + front[i + 1..j] + [front[j]] + front[j + 1..];
        assert multiset(front)[front[i]] >= 2;
        OnceInDistinct(all, front[i]);
      }
    }
  }

  lemma {:induction false} OnceInDistinct(all: seq<string>, p: string)
    requires Distinct(all)
    ensures multiset(all)[p] <= 1
  {
    if all != [] {
      var last := |all| - 1;
      assert all == all[..last] + [all[last]];
      OnceInDistinct(all[..last], p);
      if p == all[last] {
        assert p !in all[..last];
        assert p !in multiset(all[..last]);
      }
    }
  }

  /** The base loop: a base mount is appended unless its destination is taken. */
  method AddBase(mounts0: seq<Mount>, base: seq<Mount>, ghost front: seq<string>) returns (mounts: seq<Mount>)
    requires DistinctDestinations(mounts0) && StartsWith(mounts0, front)
    ensures DistinctDestinations(mounts) && StartsWith(mounts, front)
    ensures forall d :: FirstTo(mounts, d) == Over(FirstTo(mounts0, d), FirstTo(base, d))
  {
    mounts := mounts0;
    for i := 0 to |base|
      invariant DistinctDestinations(mounts) && StartsWith(mounts, front)
      invariant forall d :: FirstTo(mounts, d) == Over(FirstTo(mounts0, d), FirstTo(base[..i], d))
    {
      var k := FindDestination(mounts, base[i].destination);
      ghost var before := mounts;
      if k < |mounts| {
        mounts := mounts[k := mounts[k]];
        assert mounts == before;
      } else {
        mounts := mounts + [base[i]];
      }
      assert base[..i + 1] == base[..i] + [base[i]];
      forall d ensures FirstTo(mounts, d) == Over(FirstTo(mounts0, d), FirstTo(base[..i + 1], d)) {
        FirstToAppend(base[..i], base[i], d);
        FirstToAppend(before, base[i], d);
        FirstToIs(before, base[i].destination);
      }
    }
    assert base[..|base|] == base;
  }

  /** The explicit loop: an explicit mount replaces what is mounted there, or is appended. */
  method AddExplicit(h: Host, mounts0: seq<Mount>, specs: seq<MountSpec>, ghost front: seq<string>)
    returns (mounts: seq<Mount>, explicit: seq<Mount>, failed: Option<nat>)
    requires DistinctDestinations(mounts0) && StartsWith(mounts0, front)
    ensures failed.Some? ==> failed.value < |specs| && FirstFailure(h, specs, failed.value)
    ensures failed.None? ==> IsDecoded(h, specs, explicit)
    ensures failed.None? ==> DistinctDestinations(mounts) && StartsWith(mounts, front)
    ensures failed.None? ==> forall d :: FirstTo(mounts, d) == Over(LastTo(explicit, d), FirstTo(mounts0, d))
  {
    mounts, explicit, failed := mounts0, [], None;
    for i := 0 to |specs|
      invariant DistinctDestinations(mounts) && StartsWith(mounts, front)
      invariant IsDecoded(h, specs[..i], explicit)
      invariant forall d :: FirstTo(mounts, d) == Over(LastTo(explicit, d), FirstTo(mounts0, d))
    {
      var decoded := DecodeMount(h, specs[i]);
      if decoded.None? {
        return mounts, explicit, Some(i);
      }
      var m := decoded.value;
      var k := FindDestination(mounts, m.destination);
      ghost var before, done := mounts, explicit;
      mounts := if k < |mounts| then mounts[k := m] else mounts + [m];
      explicit := explicit + [m];
      forall d ensures FirstTo(mounts, d) == Over(LastTo(explicit, d), FirstTo(mounts0, d)) {
        assert explicit[..|explicit| - 1] == done;
        if k < |before| {
          FirstToUpdate(before, k, m, d);
        } else {
          FirstToAppend(before, m, d);
          FirstToIs(before, m.destination);
        }
      }
    }
    assert specs[..|specs|] == specs;
  }

  predicate IsDecoded(h: Host, specs: seq<MountSpec>, explicit: seq<Mount>) {
    |explicit| == |specs| && forall i :: 0 <= i < |specs| ==> DecodeMount(h, specs[i]) == Some(explicit[i])
  }

  predicate FirstFailure(h: Host, specs: seq<MountSpec>, i: nat)
    requires i < |specs|
  {
    DecodeMount(h, specs[i]).None? && forall k :: 0 <= k < i ==> DecodeMount(h, specs[k]).Some?
  }

  datatype Compiled = Compiled(mounts: seq<Mount>) | BadMount(index: nat)

  /** compilePaths: it fails at the first explicit mount that does not decode. Otherwise the
      destinations are pairwise distinct, the list says exactly what the layers say, and among
      the path-derived destinations ancestors come before what lies below them. */
  method CompilePaths(h: Host, readable: seq<string>, writable: seq<string>, specs: seq<MountSpec>, base: seq<Mount>)
    returns (r: Compiled, ghost explicit: seq<Mount>)
    ensures r.BadMount? ==> r.index < |specs| && FirstFailure(h, specs, r.index)
    ensures r.Compiled? ==> IsDecoded(h, specs, explicit) && DistinctDestinations(r.mounts)
    ensures r.Compiled? ==> forall d :: FirstTo(r.mounts, d) == Layered(h, readable, writable, explicit, base, d)
    ensures r.Compiled? ==> AncestorsFirst(h, readable, writable, r.mounts)
  {
    var mounts, front := PathMounts(h, readable, writable);
    mounts := AddBase(mounts, base, front);
    var failed;
    var decoded;
    mounts, decoded, failed := AddExplicit(h, mounts, specs, front);
    explicit := decoded;
    if failed.Some? {
      return BadMount(failed.value), explicit;
    }
    var k := FindDestination(mounts, "/tmp");
    ghost var before := mounts;
    if k == |mounts| {
      mounts := mounts + [TMP];
    }
    forall d ensures FirstTo(mounts, d) == Layered(h, readable, writable, explicit, base, d) {
      FirstToAppend(before, TMP, d);
      FirstToIs(before, "/tmp");
    }
    FrontIsOrdered(h, readable, writable, mounts, front);
    r := Compiled(mounts);
  }

  ghost predicate AncestorsFirst(h: Host, readable: seq<string>, writable: seq<string>, mounts: seq<Mount>) {
    forall i, j :: 0 <= i < |mounts| && 0 <= j < |mounts| && PathsNested(h, readable, writable, mounts[i], mounts[j]) ==> i < j
  }

  /** Both mounts' destinations come from path entries, the second below the first. */
  predicate PathsNested(h: Host, readable: seq<string>, writable: seq<string>, a: Mount, b: Mount) {
    FromPaths(h, readable, writable, a) && FromPaths(h, readable, writable, b) && IsAncestor(a.destination, b.destination)
  }

  predicate FromPaths(h: Host, readable: seq<string>, writable: seq<string>, m: Mount) {
    Names(h, writable, m.destination) || Names(h, readable, m.destination)
  }

  lemma FrontIsOrdered(h: Host, readable: seq<string>, writable: seq<string>, mounts: seq<Mount>, front: seq<string>)
    requires DistinctDestinations(mounts) && StartsWith(mounts, front) && Sorting.Sorted(front, PathLe)
    requires forall d :: d in front <==> Names(h, writable, d) || Names(h, readable, d)
    ensures AncestorsFirst(h, readable, writable, mounts)
  {
    forall i, j | 0 <= i < |mounts| && 0 <= j < |mounts| && PathsNested(h, readable, writable, mounts[i], mounts[j])
      ensures i < j
    {
      InFront(mounts, front, i);
      InFront(mounts, front, j);
      assert j < i ==> PathLe(front[j], front[i]);
    }
  }

  /** A destination of the front stands in the front. */
  lemma InFront(mounts: seq<Mount>, front: seq<string>, i: nat)
    requires DistinctDestinations(mounts) && StartsWith(mounts, front) && i < |mounts| && mounts[i].destination in front
    ensures i < |front| && front[i] == mounts[i].destination
  {
    var k :| 0 <= k < |front| && front[k] == mounts[i].destination;
    if k != i {
      assert mounts[k].destination == mounts[i].destination;
    }
  }
}
