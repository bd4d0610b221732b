/** The static load closure of libkite/preload.go: two mutually recursive walks, over files and
    over module directories. A file is marked before its targets are followed, but a directory is
    recorded only after its files were walked, so the walk may enter it again meanwhile. */
module StaticClosure {
  import opened Common
  import opened Graphs
  import Sorting

  type Path = string
  type Bytes = string

  const MANIFEST_FILE := "mod.yaml"
  const LOCK_FILE := "mod.lock"
  const ENTRY_FILE := "main.star"

  /** A directory entry: the path it is joined to, and the two tests made of it. */
  datatype Entry = Entry(path: Path, isDir: bool, isStar: bool)

  /** The fixed surroundings of a walk. A file or directory that exists but cannot be read or
      listed maps to None. `join` and `dirOf` are filepath.Join (which cleans) and filepath.Dir;
      `targets` is extractLoadTargets, None for a syntax error; `locked` gives the directory the
      active lock pins an identity to, and `installed` its revisions in listing order. */
  datatype World = World(
    files: map<Path, Option<Bytes>>,
    dirs: map<Path, Option<seq<Entry>>>,
    join: (Path, string) -> Path,
    dirOf: Path -> Path,
    baseOf: Path -> string,
    targets: Bytes -> Option<seq<string>>,
    modulePaths: seq<Path>,
    locked: map<string, Path>,
    installed: map<string, seq<Path>>)
  {
    predicate FileExists(p: Path) {
      p in files
    }

    predicate IsModuleDir(p: Path) {
      p in dirs && FileExists(join(p, MANIFEST_FILE))
    }

    predicate Readable(p: Path) {
      p in files && files[p].Some?
    }

    /** walkModuleDir gets as far as recording `d`. */
    predicate Recordable(d: Path) {
      Readable(join(d, MANIFEST_FILE)) && d in dirs && dirs[d].Some?
    }

    function StarFiles(d: Path): seq<Path>
      requires d in dirs && dirs[d].Some?
    {
      StarPaths(dirs[d].value)
    }

    /** Every path walkFile can be asked for, besides the script itself. */
    ghost function AllFiles(): set<Path> {
      files.Keys + set d, e | d in dirs && dirs[d].Some? && e in dirs[d].value :: e.path
    }
  }

  function StarPaths(entries: seq<Entry>): seq<Path> {
    if entries == [] then []
    else (if !entries[0].isDir && entries[0].isStar then [entries[0].path] else []) + StarPaths(entries[1..])
  }

  // ---------------------------------------------------------------- how a load target resolves

  predicate IsPathRef(ref: string) {
    || ref == "." || ref == ".." || HasPrefix(ref, "./") || HasPrefix(ref, "../")
    || HasPrefix(ref, ".\\") || HasPrefix(ref, "..\\") || HasPrefix(ref, "/") || HasPrefix(ref, "\\")
  }

  predicate IsSafeModuleSegment(s: string) {
    && s != "" && s != "."
    && (forall c :: c in s ==> c !in {'/', '\\', '@', '\0'})
    && forall i :: 0 <= i < |s| - 1 ==> !(s[i] == '.' && s[i + 1] == '.')
  }

  /** The position of the first '/', or the length. */
  function FirstSlash(s: string): (k: nat)
    ensures k <= |s| && '/' !in s[..k] && (k < |s| ==> s[k] == '/')
  {
    if s == "" || s[0] == '/' then 0 else
      var rest := FirstSlash(s[1..]);
      assert s[..rest + 1] == [s[0]] + s[1..][..rest];
      rest + 1
  }

  /** The reference has the form namespace/name of an installed module. */
  predicate Installable(target: string) {
    var k := FirstSlash(target);
    k < |target| && IsSafeModuleSegment(target[..k]) && IsSafeModuleSegment(target[k + 1..])
  }

  datatype Node = File(path: Path) | Dir(path: Path)

  function AsFileOrDir(w: World, p: Path): Option<Node> {
    if w.FileExists(p) then Some(File(p)) else if w.IsModuleDir(p) then Some(Dir(p)) else None
  }

  function AsDir(w: World, p: Path): Option<Node> {
    if w.IsModuleDir(p) then Some(Dir(p)) else None
  }

  /** The first candidate that resolves; files count only where `filesToo`. */
  function FirstOf(w: World, candidates: seq<Path>, filesToo: bool): Option<Node> {
    if candidates == [] then None
    else
      var here := if filesToo then AsFileOrDir(w, candidates[0]) else AsDir(w, candidates[0]);
      if here.Some? then here else FirstOf(w, candidates[1..], filesToo)
  }

  function Joined(w: World, bases: seq<Path>, target: string): seq<Path> {
    seq(|bases|, i requires 0 <= i < |bases| => w.join(bases[i], target))
  }

  /** Where a load target written in a file of `callerDir` leads, by the candidate order. */
  function Resolve(w: World, workDir: Path, callerDir: Path, target: string): Option<Node> {
    var candidates := Joined(w, [callerDir, workDir] + w.modulePaths, target);
    if HasPrefix(target, "starkite/") then None
    else if IsPathRef(target) || HasSuffix(target, ".star") then FirstOf(w, candidates, true)
    else
      var local := FirstOf(w, candidates, false);
      if local.Some? then local
      else if !Installable(target) then None
      else if target in w.locked && w.IsModuleDir(w.locked[target]) then Some(Dir(w.locked[target]))
      else if target in w.installed then FirstOf(w, w.installed[target], false)
      else None
  }

  lemma {:induction false} ResolvedExists(w: World, candidates: seq<Path>, filesToo: bool)
    ensures var r := FirstOf(w, candidates, filesToo);
      r.Some? ==> (if r.value.File? then w.FileExists(r.value.path) else w.IsModuleDir(r.value.path))
  {
    if candidates != [] {
      ResolvedExists(w, candidates[1..], filesToo);
    }
  }

  // ---------------------------------------------------------------- resolving, spelled out

  /** At `p` there is the file, or else the directory with a manifest, that `n` stands for. */
  predicate IsAt(w: World, p: Path, n: Node, filesToo: bool) {
    if filesToo && p in w.files then n == File(p) else n == Dir(p) && p in w.dirs && w.join(p, "mod.yaml") in w.files
  }

  predicate NothingAt(w: World, p: Path, filesToo: bool) {
    !(filesToo && p in w.files) && !(p in w.dirs && w.join(p, "mod.yaml") in w.files)
  }

  /** `n` is what the first candidate that has anything has. */
  predicate IsFirst(w: World, candidates: seq<Path>, filesToo: bool, n: Node) {
    exists i :: 0 <= i < |candidates| && IsAt(w, candidates[i], n, filesToo)
      && forall j :: 0 <= j < i ==> NothingAt(w, candidates[j], filesToo)
  }

  predicate AllNothing(w: World, candidates: seq<Path>, filesToo: bool) {
    forall i :: 0 <= i < |candidates| ==> NothingAt(w, candidates[i], filesToo)
  }

  lemma {:induction false} FirstOfIs(w: World, candidates: seq<Path>, filesToo: bool, n: Node)
    ensures FirstOf(w, candidates, filesToo) == Some(n) <==> IsFirst(w, candidates, filesToo, n)
    ensures FirstOf(w, candidates, filesToo) == None <==> AllNothing(w, candidates, filesToo)
  {
    if candidates != [] {
      var rest := candidates[1..];
      FirstOfIs(w, rest, filesToo, n);
      if IsFirst(w, candidates, filesToo, n) && NothingAt(w, candidates[0], filesToo) {
        var i :| 0 <= i < |candidates| && IsAt(w, candidates[i], n, filesToo)
              && forall j :: 0 <= j < i ==> NothingAt(w, candidates[j], filesToo);
        assert rest[i - 1] == candidates[i] && forall j :: 0 <= j < i - 1 ==> rest[j] == candidates[j + 1];
      }
    }
  }

  /** Where a load target leads. A path or a .star file is looked up beside the caller, then in the
      working directory, then in the module paths, in order, and may be a module directory too. */
  lemma PathTargetResolves(w: World, workDir: Path, callerDir: Path, target: string, n: Node)
    requires IsPathRef(target) || HasSuffix(target, ".star")
    requires !HasPrefix(target, "starkite/")
    ensures Resolve(w, workDir, callerDir, target) == Some(n)
       <==> IsFirst(w, [w.join(callerDir, target), w.join(workDir, target)] + Joined(w, w.modulePaths, target), true, n)
  {
    JoinedIs(w, workDir, callerDir, target);
    FirstOfIs(w, Joined(w, [callerDir, workDir] + w.modulePaths, target), true, n);
  }

  /** Any other target names a module: the first directory with a manifest there; else, if it is a
      namespace and a name, the revision the lock pins, or else the first one installed. */
  lemma ModuleTargetResolves(w: World, workDir: Path, callerDir: Path, target: string, n: Node)
    requires !IsPathRef(target) && !HasSuffix(target, ".star")
    requires !HasPrefix(target, "starkite/")
    ensures var local := [w.join(callerDir, target), w.join(workDir, target)] + Joined(w, w.modulePaths, target);
      var locked := if target in w.locked then [w.locked[target]] else [];
      var installed := if target in w.installed then w.installed[target] else [];
      Resolve(w, workDir, callerDir, target) == Some(n)
      <==> IsFirst(w, local, false, n)
           || (AllNothing(w, local, false) && Installable(target) && IsFirst(w, locked + installed, false, n))
  {
    var local := Joined(w, [callerDir, workDir] + w.modulePaths, target);
    var installed := if target in w.installed then w.installed[target] else [];
    JoinedIs(w, workDir, callerDir, target);
    FirstOfIs(w, local, false, n);
    if target in w.locked {
      FirstOfIs(w, [w.locked[target]] + installed, false, n);
      FirstOfIs(w, installed, false, n);
      assert ([w.locked[target]] + installed)[1..] == installed;
    } else {
      FirstOfIs(w, installed, false, n);
      assert [] + installed == installed;
    }
    NotBoth(w, local, false, n);
  }

  /** Built-in modules lead nowhere. */
  lemma BuiltInLeadsNowhere(w: World, workDir: Path, callerDir: Path, name: string)
    ensures Resolve(w, workDir, callerDir, "starkite/" + name) == None
  {
  }

  lemma NotBoth(w: World, candidates: seq<Path>, filesToo: bool, n: Node)
    ensures !(IsFirst(w, candidates, filesToo, n) && AllNothing(w, candidates, filesToo))
  {
    FirstOfIs(w, candidates, filesToo, n);
  }

  lemma JoinedIs(w: World, workDir: Path, callerDir: Path, target: string)
    ensures Joined(w, [callerDir, workDir] + w.modulePaths, target)
         == [w.join(callerDir, target), w.join(workDir, target)] + Joined(w, w.modulePaths, target)
  {
  }

  /** An installed reference is two safe segments around its first slash. */
  lemma InstallableIs(namespace: string, name: string)
    requires '/' !in namespace
    ensures Installable(namespace + "/" + name) <==> IsSafeModuleSegment(namespace) && IsSafeModuleSegment(name)
    ensures !Installable(namespace)
  {
    var target := namespace + "/" + name;
    var k := FirstSlash(target);
    assert target[|namespace|] == '/';
    assert forall i :: 0 <= i < |namespace| ==> target[i] == namespace[i] && namespace[i] in namespace;
    assert forall i :: 0 <= i < k ==> target[i] == target[..k][i];
    assert target[..|namespace|] == namespace && target[|namespace| + 1..] == name;
  }

  lemma {:induction false} StarPathsAre(entries: seq<Entry>, p: Path)
    ensures p in StarPaths(entries)
       <==> exists i :: 0 <= i < |entries| && !entries[i].isDir && entries[i].isStar && entries[i].path == p
  {
    if entries != [] {
      StarPathsAre(entries[1..], p);
    }
  }

  // ---------------------------------------------------------------- the load graph

  /** The nodes a node leads to: a file's resolved load targets, a directory's .star files. */
  ghost predicate Leads(w: World, workDir: Path, a: Node, b: Node) {
    match a
    case File(f) =>
      && w.Readable(f) && w.targets(w.files[f].value).Some?
      && exists t :: t in w.targets(w.files[f].value).value && Resolve(w, workDir, w.dirOf(f), t) == Some(b)
    case Dir(d) => w.Recordable(d) && b.File? && b.path in w.StarFiles(d)
  }

  /** A directory that has a readable manifest and can be listed leads to its .star files. */
  lemma DirLeadsTo(w: World, workDir: Path, d: Path, b: Node)
    ensures Leads(w, workDir, Dir(d), b)
       <==> && w.join(d, "mod.yaml") in w.files && w.files[w.join(d, "mod.yaml")].Some?
            && d in w.dirs && w.dirs[d].Some?
            && exists i :: 0 <= i < |w.dirs[d].value| && !w.dirs[d].value[i].isDir && w.dirs[d].value[i].isStar
                 && b == File(w.dirs[d].value[i].path)
  {
    if d in w.dirs && w.dirs[d].Some? && b.File? {
      StarPathsAre(w.dirs[d].value, b.path);
    }
  }

  ghost function Edges(w: World, workDir: Path): Node -> iset<Node> {
    a => iset b | Leads(w, workDir, a, b)
  }

  // ---------------------------------------------------------------- the walk

  class Walker {
    const w: World
    const workDir: Path
    ghost const root: Node
    ghost const seeds: set<Path>

    var files: map<Path, Bytes>
    var moduleDirs: map<Path, seq<Path>>
    var readPaths: seq<Path>
    var visitedFiles: set<Path>

    /** Starts with the entry script and the manifests already read. */
    constructor (w: World, workDir: Path, ghost root: Node, files: map<Path, Bytes>, readPaths: seq<Path>)
      requires forall p :: p in files <==> p in readPaths
      requires forall p :: p in files ==> w.Readable(p) && w.files[p].value == files[p]
      ensures this.w == w && this.workDir == workDir && this.root == root && seeds == files.Keys
      ensures this.files == files && moduleDirs == map[] && visitedFiles == {} && Sound()
    {
      this.w, this.workDir, this.root, this.seeds := w, workDir, root, files.Keys;
      this.files, this.readPaths := files, readPaths;
      moduleDirs, visitedFiles := map[], {};
    }

    ghost predicate Reached(n: Node) {
      Reaches(Edges(w, workDir), root, n)
    }

    /** Only what the root reaches is recorded, with its true contents. */
    ghost predicate Sound()
      reads this
    {
      && (forall p :: p in files ==> w.Readable(p) && w.files[p].value == files[p])
      && seeds <= files.Keys
      && (forall p :: p in files ==> p in seeds || Reached(File(p)) || IsReachedManifest(p))
      && (forall d :: d in moduleDirs ==> w.Recordable(d) && Reached(Dir(d)))
      && (forall d :: d in moduleDirs ==> moduleDirs[d] == Sorting.SortStrings(w.StarFiles(d)))
      && (forall p :: p in visitedFiles ==> Reached(File(p)))
      && (forall p :: p in readPaths <==> p in files || p in moduleDirs)
    }

    ghost predicate IsReachedManifest(p: Path) {
      exists d :: Reached(Dir(d)) && p == w.join(d, MANIFEST_FILE)
    }

    /** The walk owes nothing more for this node. */
    ghost predicate Seen(n: Node)
      reads this
    {
      match n
      case File(p) => p in visitedFiles
      case Dir(d) =>
        && (w.Readable(w.join(d, MANIFEST_FILE)) ==> w.join(d, MANIFEST_FILE) in files)
        && (w.Recordable(d) ==> d in moduleDirs)
    }

    ghost predicate FileDone(p: Path)
      reads this
    {
      && (w.Readable(p) ==> p in files)
      && forall n :: Leads(w, workDir, File(p), n) ==> Seen(n)
    }

    ghost predicate DirDone(d: Path)
      reads this
      requires d in moduleDirs ==> w.Recordable(d)
    {
      d in moduleDirs ==>
        w.join(d, MANIFEST_FILE) in files && forall p :: p in w.StarFiles(d) ==> p in visitedFiles
    }

    /** Every visited file except those under way is done, and so is every recorded directory. */
    ghost predicate Complete(pending: set<Path>)
      reads this
      requires Sound()
    {
      && (forall p :: p in visitedFiles && p !in pending ==> FileDone(p))
      && (forall d :: d in moduleDirs ==> DirDone(d))
    }

    twostate predicate Grown()
      reads this
    {
      && old(files).Keys <= files.Keys && old(moduleDirs).Keys <= moduleDirs.Keys
      && old(visitedFiles) <= visitedFiles
    }

    /** `visitedFiles[clean] = true`; from here on `clean` is under way. */
    method Visit(clean: Path, ghost pending: set<Path>)
      requires Sound() && Complete(pending) && Reached(File(clean))
      modifies this`visitedFiles
      ensures visitedFiles == old(visitedFiles) + {clean}
      ensures Sound() && Complete(pending + {clean})
    {
      visitedFiles := visitedFiles + {clean};
    }

    /** Records the contents of a readable file and lists it for the sandbox. */
    method RecordFile(p: Path, ghost pending: set<Path>)
      requires Sound() && Complete(pending) && w.Readable(p) && (Reached(File(p)) || IsReachedManifest(p))
      modifies this`files, this`readPaths
      ensures files == old(files)[p := w.files[p].value] && readPaths == old(readPaths) + [p]
      ensures Sound() && Complete(pending)
    {
      files, readPaths := files[p := w.files[p].value], readPaths + [p];
    }

    method RecordDir(d: Path, starFiles: seq<Path>, ghost pending: set<Path>)
      requires Sound() && Complete(pending) && w.Recordable(d) && Reached(Dir(d)) && starFiles == w.StarFiles(d)
      requires w.join(d, MANIFEST_FILE) in files && forall p :: p in starFiles ==> p in visitedFiles
      modifies this`moduleDirs, this`readPaths
      ensures moduleDirs.Keys == old(moduleDirs.Keys) + {d} && readPaths == old(readPaths) + [d]
      ensures Sound() && Complete(pending)
    {
      moduleDirs, readPaths := moduleDirs[d := Sorting.SortStrings(starFiles)], readPaths + [d];
    }

    /** A file all of whose targets were followed is no longer under way. */
    lemma Finished(clean: Path, pending: set<Path>)
      requires Sound() && Complete(pending + {clean}) && FileDone(clean)
      ensures Complete(pending)
    {
    }

    method WalkFile(clean: Path, ghost pending: set<Path>)
      requires Sound() && Complete(pending) && Reached(File(clean)) && clean in w.AllFiles()
      modifies this
      ensures Sound() && Complete(pending) && Grown() && clean in visitedFiles
      decreases w.AllFiles() - visitedFiles, 0
    {
      if clean in visitedFiles {
        return;
      }
      Visit(clean, pending);
      assert clean in w.AllFiles() - old(visitedFiles);

      if clean !in files {
        if !w.Readable(clean) {
          Finished(clean, pending);
          return;
        }
        RecordFile(clean, pending + {clean});
      }
      var targets := w.targets(files[clean]);
      if targets.Some? {
        FollowTargets(clean, targets.value, pending + {clean});
      }
      Finished(clean, pending);
    }

    /** walkFile's loop over the load targets. */
    method FollowTargets(clean: Path, targets: seq<string>, ghost pending: set<Path>)
      requires Sound() && Complete(pending) && Reached(File(clean)) && clean in files
      requires w.targets(files[clean]) == Some(targets)
      modifies this
      ensures Sound() && Complete(pending) && Grown() && FileDone(clean)
      decreases w.AllFiles() - visitedFiles, 6
    {
      for i := 0 to |targets|
        invariant Sound() && Complete(pending) && Grown()
        invariant TargetsSeen(clean, targets, i)
      {
        FollowNth(clean, targets, i, pending);
      }
      AllTargetsSeen(clean, targets);
    }

    method FollowNth(clean: Path, targets: seq<string>, i: nat, ghost pending: set<Path>)
      requires Sound() && Complete(pending) && Reached(File(clean)) && clean in files
      requires w.targets(files[clean]) == Some(targets) && i < |targets| && TargetsSeen(clean, targets, i)
      modifies this
      ensures Sound() && Complete(pending) && Grown() && TargetsSeen(clean, targets, i + 1)
      decreases w.AllFiles() - visitedFiles, 5
    {
      FollowTarget(clean, targets[i], pending);
      forall k | 0 <= k < i ensures TargetSeen(clean, targets[k]) {
        assert old(TargetSeen(clean, targets[k]));
      }
    }

    ghost predicate TargetsSeen(file: Path, targets: seq<string>, count: nat)
      reads this
      requires count <= |targets|
    {
      forall k :: 0 <= k < count ==> TargetSeen(file, targets[k])
    }

    lemma AllTargetsSeen(clean: Path, targets: seq<string>)
      requires clean in files && w.Readable(clean) && w.targets(w.files[clean].value) == Some(targets)
      requires TargetsSeen(clean, targets, |targets|)
      ensures FileDone(clean)
    {
      forall n | Leads(w, workDir, File(clean), n) ensures Seen(n) {
        var t :| t in targets && Resolve(w, workDir, w.dirOf(clean), t) == Some(n);
        assert TargetSeen(clean, t);
      }
    }

    ghost predicate TargetSeen(file: Path, target: string)
      reads this
    {
      var n := Resolve(w, workDir, w.dirOf(file), target);
      n.Some? ==> Seen(n.value)
    }

    /** The body of walkFile's loop over load targets. */
    method FollowTarget(file: Path, target: string, ghost pending: set<Path>)
      requires Sound() && Complete(pending) && Reached(File(file)) && file in files
      requires w.targets(files[file]).Some? && target in w.targets(files[file]).value
      modifies this
      ensures Sound() && Complete(pending) && Grown() && TargetSeen(file, target)
      decreases w.AllFiles() - visitedFiles, 4
    {
      var callerDir := w.dirOf(file);
      if HasPrefix(target, "starkite/") {
        return;
      }
      var bases := [callerDir, workDir] + w.modulePaths;
      if IsPathRef(target) || HasSuffix(target, ".star") {
        var found := FindCandidate(Joined(w, bases, target), true);
        Enter(file, target, found, pending);
        return;
      }
      var found := FindCandidate(Joined(w, bases, target), false);
      if found.None? && Installable(target) {
        if target in w.locked && w.IsModuleDir(w.locked[target]) {
          found := Some(Dir(w.locked[target]));
        } else if target in w.installed {
          found := FindCandidate(w.installed[target], false);
        }
      }
      Enter(file, target, found, pending);
    }

    method FindCandidate(candidates: seq<Path>, filesToo: bool) returns (found: Option<Node>)
      ensures found == FirstOf(w, candidates, filesToo)
    {
      for i := 0 to |candidates|
        invariant FirstOf(w, candidates, filesToo) == FirstOf(w, candidates[i..], filesToo)
      {
        assert candidates[i..][1..] == candidates[i + 1..];
        if filesToo && w.FileExists(candidates[i]) {
          return Some(File(candidates[i]));
        } else if w.IsModuleDir(candidates[i]) {
          return Some(Dir(candidates[i]));
        }
      }
      found := None;
    }

    method Enter(file: Path, target: string, found: Option<Node>, ghost pending: set<Path>)
      requires Sound() && Complete(pending) && Reached(File(file)) && file in files
      requires w.targets(files[file]).Some? && target in w.targets(files[file]).value
      requires found == Resolve(w, workDir, w.dirOf(file), target)
      modifies this
      ensures Sound() && Complete(pending) && Grown() && TargetSeen(file, target)
      decreases w.AllFiles() - visitedFiles, 3
    {
      if found.None? {
        return;
      }
      assert Leads(w, workDir, File(file), found.value);
      ReachesThen(Edges(w, workDir), root, File(file), found.value);
      ResolveExists(file, target);
      match found.value
      case File(p) => WalkFile(p, pending);
      case Dir(d) => WalkModuleDir(d, pending);
    }

    lemma ResolveExists(file: Path, target: string)
      ensures var n := Resolve(w, workDir, w.dirOf(file), target);
        n.Some? && n.value.File? ==> n.value.path in w.AllFiles()
    {
      var candidates := Joined(w, [w.dirOf(file), workDir] + w.modulePaths, target);
      ResolvedExists(w, candidates, true);
      ResolvedExists(w, candidates, false);
      if target in w.installed {
        ResolvedExists(w, w.installed[target], false);
      }
      DirsOnly(w, candidates);
      if target in w.installed {
        DirsOnly(w, w.installed[target]);
      }
    }

    method WalkModuleDir(dir: Path, ghost pending: set<Path>)
      requires Sound() && Complete(pending) && Reached(Dir(dir))
      modifies this
      ensures Sound() && Complete(pending) && Grown() && Seen(Dir(dir))
      decreases w.AllFiles() - visitedFiles, 2
    {
      if dir in moduleDirs {
        return;
      }
      var manifestPath := w.join(dir, MANIFEST_FILE);
      if !w.Readable(manifestPath) {
        return;
      }
      RecordFile(manifestPath, pending);
      if dir !in w.dirs || w.dirs[dir].None? {
        return;
      }
      var starFiles := WalkEntries(dir, pending);
      RecordDir(dir, starFiles, pending);
    }

    /** With nothing under way, every reachable node has been seen. */
    lemma EverythingReached()
      requires Sound() && Complete({}) && Seen(root)
      ensures forall n :: Reached(n) ==> Seen(n)
    {
      var seen := iset n | Seen(n);
      forall n, m | Seen(n) && m in Edges(w, workDir)(n) ensures Seen(m) {
        assert n.File? ==> FileDone(n.path);
        assert n.Dir? ==> DirDone(n.path);
      }
      forall n | Reached(n) ensures Seen(n) {
        ClosedUnderReach(Edges(w, workDir), seen, root, n);
      }
    }

    /** What the walk has recorded in the end is the closure. */
    lemma IsFinal(script: Path, deduped: seq<Path>)
      requires Sound() && Complete({}) && Seen(root) && root == Root(w, script)
      requires forall p :: p in seeds <==> IsSeed(w, workDir, script, p)
      requires forall p :: p in deduped <==> p in readPaths
      requires forall i, j :: 0 <= i < j < |deduped| ==> deduped[i] != deduped[j]
      ensures IsClosure(w, workDir, script, Closure(files, moduleDirs, deduped))
    {
      EverythingReached();
      forall n ensures IsReached(w, workDir, script, n) <==> Reached(n) {
      }
      forall p | IsFileReached(w, workDir, script, p) ensures p in files {
        if Reached(File(p)) {
          assert Seen(File(p)) && FileDone(p);
        } else {
          var d :| Reached(Dir(d)) && p == w.join(d, MANIFEST_FILE);
          assert Seen(Dir(d));
        }
      }
      forall d | w.Recordable(d) && Reached(Dir(d)) ensures d in moduleDirs {
        assert Seen(Dir(d));
      }
    }

    lemma EntryReached(dir: Path, starPath: Path)
      requires Reached(Dir(dir)) && w.Recordable(dir) && starPath in w.StarFiles(dir)
      ensures Reached(File(starPath))
    {
      assert Leads(w, workDir, Dir(dir), File(starPath));
      ReachesThen(Edges(w, workDir), root, Dir(dir), File(starPath));
    }

    /** walkModuleDir's loop over the directory entries. */
    method WalkEntries(dir: Path, ghost pending: set<Path>) returns (starFiles: seq<Path>)
      requires Sound() && Complete(pending) && Reached(Dir(dir)) && w.Recordable(dir)
      modifies this
      ensures Sound() && Complete(pending) && Grown() && starFiles == w.StarFiles(dir)
      ensures forall p :: p in starFiles ==> p in visitedFiles
      decreases w.AllFiles() - visitedFiles, 1
    {
      var entries := w.dirs[dir].value;
      starFiles := [];
      for i := 0 to |entries|
        invariant Sound() && Complete(pending) && Grown()
        invariant starFiles == StarPaths(entries[..i])
        invariant forall p :: p in starFiles ==> p in visitedFiles
      {
        StarPathsSnoc(entries[..i], entries[i]);
        assert entries[..i + 1] == entries[..i] + [entries[i]];
        if !entries[i].isDir && entries[i].isStar {
          var starPath := entries[i].path;
          starFiles := starFiles + [starPath];
          StarPathsPrefix(entries, i + 1);
          EntryReached(dir, starPath);
          WalkFile(starPath, pending);
        }
      }
      assert entries[..|entries|] == entries;
    }
  }

  lemma {:induction false} StarPathsSnoc(entries: seq<Entry>, e: Entry)
    ensures StarPaths(entries + [e]) == StarPaths(entries) + if !e.isDir && e.isStar then [e.path] else []
  {
    if entries == [] {
      assert entries + [e] == [e];
    } else {
      assert (entries + [e])[1..] == entries[1..] + [e];
      StarPathsSnoc(entries[1..], e);
    }
  }

  lemma {:induction false} StarPathsPrefix(entries: seq<Entry>, count: nat)
    requires count <= |entries|
    ensures forall p :: p in StarPaths(entries[..count]) ==> p in StarPaths(entries)
  {
    if count > 0 {
      assert entries[..count][1..] == entries[1..][..count - 1];
      StarPathsPrefix(entries[1..], count - 1);
    }
  }

  // ---------------------------------------------------------------- the closure

  datatype Closure = Closure(files: map<Path, Bytes>, moduleDirs: map<Path, seq<Path>>, readPaths: seq<Path>)

  /** The entry node: the directory of a module's entry file, else the script itself. */
  function Root(w: World, script: Path): Node {
    if w.baseOf(script) == ENTRY_FILE && w.IsModuleDir(w.dirOf(script)) then Dir(w.dirOf(script)) else File(script)
  }

  function SearchDirs(w: World, workDir: Path, script: Path): seq<Path> {
    [workDir] + if w.dirOf(script) != workDir then [w.dirOf(script)] else []
  }

  const MANIFESTS := [LOCK_FILE, MANIFEST_FILE, "star.mod"]

  /** The files read whatever the script loads: itself and the manifests of the search directories. */
  ghost predicate IsSeed(w: World, workDir: Path, script: Path, p: Path) {
    w.Readable(p) && (p == script || exists dir, m :: dir in SearchDirs(w, workDir, script) && m in MANIFESTS && p == w.join(dir, m))
  }

  /** Exactly the reachable part of the load graph, with true contents, sorted .star lists and a
      read list that names each file and directory once. */
  ghost predicate IsClosure(w: World, workDir: Path, script: Path, c: Closure) {
    && (forall p :: p in c.files <==> IsSeed(w, workDir, script, p) || IsFileReached(w, workDir, script, p))
    && (forall p :: p in c.files ==> w.Readable(p) && w.files[p].value == c.files[p])
    && (forall d :: d in c.moduleDirs <==> w.Recordable(d) && IsReached(w, workDir, script, Dir(d)))
    && (forall d :: d in c.moduleDirs ==> c.moduleDirs[d] == Sorting.SortStrings(w.StarFiles(d)))
    && (forall p :: p in c.readPaths <==> p in c.files || p in c.moduleDirs)
    && forall i, j :: 0 <= i < j < |c.readPaths| ==> c.readPaths[i] != c.readPaths[j]
  }

  ghost predicate IsReached(w: World, workDir: Path, script: Path, n: Node) {
    Reaches(Edges(w, workDir), Root(w, script), n)
  }

  /** A readable file the root reaches, or the readable manifest of such a directory. */
  ghost predicate IsFileReached(w: World, workDir: Path, script: Path, p: Path) {
    w.Readable(p) && (IsReached(w, workDir, script, File(p)) || IsManifestOf(w, workDir, script, p))
  }

  ghost predicate IsManifestOf(w: World, workDir: Path, script: Path, p: Path) {
    exists d :: IsReached(w, workDir, script, Dir(d)) && p == w.join(d, MANIFEST_FILE)
  }

  datatype Outcome = Resolved(closure: Closure) | CannotReadScript

  /** ResolveStaticLoadClosure, from the absolute script path on. */
  method ResolveStaticLoadClosure(w: World, workDir: Path, script: Path) returns (r: Outcome)
    ensures r.CannotReadScript? <==> !w.Readable(script)
    ensures r.Resolved? ==> IsClosure(w, workDir, script, r.closure)
  {
    if !w.Readable(script) {
      return CannotReadScript;
    }
    var files, readPaths := ReadSeeds(w, workDir, script);
    var walker := new Walker(w, workDir, Root(w, script), files, readPaths);
    ReachesSelf(Edges(w, workDir), Root(w, script));
    if w.baseOf(script) == ENTRY_FILE && w.IsModuleDir(w.dirOf(script)) {
      walker.WalkModuleDir(w.dirOf(script), {});
    } else {
      walker.WalkFile(script, {});
    }
    var deduped := Dedup(walker.readPaths);
    walker.IsFinal(script, deduped);
    r := Resolved(Closure(walker.files, walker.moduleDirs, deduped));
  }

  /** The script and the manifests beside it and in the working directory. */
  method ReadSeeds(w: World, workDir: Path, script: Path) returns (files: map<Path, Bytes>, readPaths: seq<Path>)
    requires w.Readable(script)
    ensures forall p :: p in files <==> p in readPaths
    ensures forall p :: p in files <==> IsSeed(w, workDir, script, p)
    ensures forall p :: p in files ==> w.Readable(p) && w.files[p].value == files[p]
  {
    files, readPaths := map[script := w.files[script].value], [script];
    var searchDirs := SearchDirs(w, workDir, script);
    for i := 0 to |searchDirs|
      invariant forall p :: p in files <==> p in readPaths
      invariant forall p :: p in files ==> IsSeed(w, workDir, script, p) && w.files[p].value == files[p]
      invariant script in files
      invariant forall k, m :: 0 <= k < i && m in MANIFESTS && w.Readable(w.join(searchDirs[k], m)) ==>
        w.join(searchDirs[k], m) in files
    {
      for j := 0 to |MANIFESTS|
        invariant forall p :: p in files <==> p in readPaths
        invariant forall p :: p in files ==> IsSeed(w, workDir, script, p) && w.files[p].value == files[p]
        invariant script in files
        invariant forall k, m :: 0 <= k < i && m in MANIFESTS && w.Readable(w.join(searchDirs[k], m)) ==>
          w.join(searchDirs[k], m) in files
        invariant forall l :: 0 <= l < j && w.Readable(w.join(searchDirs[i], MANIFESTS[l])) ==>
          w.join(searchDirs[i], MANIFESTS[l]) in files
      {
        var p := w.join(searchDirs[i], MANIFESTS[j]);
        if w.Readable(p) && p !in files {
          files, readPaths := files[p := w.files[p].value], readPaths + [p];
        }
      }
    }
  }

  /** The final loop over ReadPaths; every path recorded is already clean. */
  method Dedup(paths: seq<Path>) returns (deduped: seq<Path>)
    ensures forall p :: p in deduped <==> p in paths
    ensures forall i, j :: 0 <= i < j < |deduped| ==> deduped[i] != deduped[j]
  {
    var seen := {};
    deduped := [];
    for i := 0 to |paths|
      invariant forall p :: p in deduped <==> p in paths[..i]
      invariant forall p :: p in seen <==> p in deduped
      invariant forall i, j :: 0 <= i < j < |deduped| ==> deduped[i] != deduped[j]
    {
      if paths[i] !in seen {
        seen, deduped := seen + {paths[i]}, deduped + [paths[i]];
      }
    }
  }

  lemma {:induction false} DirsOnly(w: World, candidates: seq<Path>)
    ensures var r := FirstOf(w, candidates, false); r.Some? ==> r.value.Dir?
  {
    if candidates != [] {
      DirsOnly(w, candidates[1..]);
    }
  }
}
