/** Absolute Unix paths, a file system with symbolic links, and the canonicalisation of
    libkite/permissions.go: resolve the longest prefix that resolves, keep the rest.

    An absolute path is the list of its segments. EvalSymlinks is the walk of Go's path/filepath:
    it follows at most 255 links, which is what makes idempotence interesting. */
module Paths {

  type Path = seq<string>

  // ---------------------------------------------------------------- strings and segments

  /** strings.Split(s, "/"). */
  function SplitSlash(s: string): (parts: seq<string>)
    ensures |parts| > 0
    ensures forall i :: 0 <= i < |parts| ==> '/' !in parts[i]
  {
    if s == "" then [""]
    else
      var rest := SplitSlash(s[1..]);
      if s[0] == '/' then [""] + rest else [[s[0]] + rest[0]] + rest[1..]
  }

  /** "/" for no segments, else every segment after a slash. */
  function Render(p: Path): string {
    if p == [] then "/" else Slashed(p)
  }

  function Slashed(p: Path): string {
    if p == [] then "" else "/" + p[0] + Slashed(p[1..])
  }

  predicate Ordinary(c: string) {
    c != "" && c != "." && c != ".." && '/' !in c
  }

  predicate IsPath(p: Path) {
    forall i :: 0 <= i < |p| ==> Ordinary(p[i])
  }

  /** filepath.Clean on the parts of an absolute path, `done` being the result so far. */
  function CleanParts(done: Path, parts: seq<string>): (p: Path)
    requires IsPath(done) && forall i :: 0 <= i < |parts| ==> '/' !in parts[i]
    ensures IsPath(p)
    decreases |parts|
  {
    if parts == [] then done
    else if parts[0] == "" || parts[0] == "." then CleanParts(done, parts[1..])
    else if parts[0] == ".." then CleanParts(Parent(done), parts[1..])
    else CleanParts(done + [parts[0]], parts[1..])
  }

  function Parent(p: Path): Path {
    if p == [] then [] else p[..|p| - 1]
  }

  predicate IsAbs(s: string) {
    s != "" && s[0] == '/'
  }

  /** The cleaned segments of an absolute path string. */
  function Segments(s: string): (p: Path)
    ensures IsPath(p)
  {
    CleanParts([], SplitSlash(s))
  }

  lemma {:induction false} SplitSlashed(p: Path)
    requires PartsValid(p)
    ensures SplitSlash(Slashed(p)) == [""] + p
  {
    if p == [] {
      assert [""] + p == [""];
    } else {
      var s := Slashed(p);
      assert s[1..] == p[0] + Slashed(p[1..]);
      SplitSlashed(p[1..]);
      SplitPrefix(p[0], Slashed(p[1..]));
      assert p[0] + "" == p[0] && [p[0]] + p[1..] == p;
    }
  }

  /** Text without a slash lengthens the first part. */
  lemma {:induction false} SplitPrefix(a: string, s: string)
    requires '/' !in a
    ensures SplitSlash(a + s) == [a + SplitSlash(s)[0]] + SplitSlash(s)[1..]
  {
    if a == "" {
      assert a + s == s;
      assert a + SplitSlash(s)[0] == SplitSlash(s)[0];
      assert [SplitSlash(s)[0]] + SplitSlash(s)[1..] == SplitSlash(s);
    } else {
      assert (a + s)[1..] == a[1..] + s;
      SplitPrefix(a[1..], s);
      assert [a[0]] + (a[1..] + SplitSlash(s)[0]) == a + SplitSlash(s)[0];
    }
  }

  lemma {:induction false} CleanPath(done: Path, p: Path)
    requires IsPath(done) && IsPath(p)
    ensures CleanParts(done, p) == done + p
    decreases |p|
  {
    if p != [] {
      CleanPath(done + [p[0]], p[1..]);
      assert done + [p[0]] + p[1..] == done + p;
    } else {
      assert done + p == done;
    }
  }

  /** Rendering and reading back a path is the identity, so filepath.Clean is idempotent. */
  lemma SegmentsOfRender(p: Path)
    requires IsPath(p)
    ensures Segments(Render(p)) == p
  {
    if p == [] {
      assert SplitSlash("") == [""];
      assert "/"[1..] == "";
      assert SplitSlash("/") == ["", ""];
      assert CleanParts([], [""]) == [];
    } else {
      SplitSlashed(p);
      assert ([""] + p)[1..] == p;
      CleanPath([], p);
    }
  }

  // ---------------------------------------------------------------- lexical traversal

  lemma {:induction false} SplitAtSlash(u: string, v: string)
    ensures SplitSlash(u + "/" + v) == SplitSlash(u) + SplitSlash(v)
  {
    if u == "" {
      assert u + "/" + v == "/" + v && ("/" + v)[1..] == v;
    } else {
      assert (u + "/" + v)[1..] == u[1..] + "/" + v;
      SplitAtSlash(u[1..], v);
    }
  }

  lemma SplitTail(u: string, t: string)
    requires '/' !in t
    ensures SplitSlash(u + "/" + t) == SplitSlash(u) + [t]
  {
    SplitAtSlash(u, t);
    SplitPrefix(t, "");
    assert t + "" == t && [t] + [] == [t];
  }

  lemma {:induction false} CleanConcat(done: Path, a: seq<string>, b: seq<string>)
    requires IsPath(done) && PartsValid(a) && PartsValid(b)
    ensures CleanParts(done, a + b) == CleanParts(CleanParts(done, a), b)
    decreases |a|
  {
    if a == [] {
      assert a + b == b;
    } else {
      assert (a + b)[0] == a[0] && (a + b)[1..] == a[1..] + b;
      if a[0] == "" || a[0] == "." {
        CleanConcat(done, a[1..], b);
      } else if a[0] == ".." {
        CleanConcat(Parent(done), a[1..], b);
      } else {
        CleanConcat(done + [a[0]], a[1..], b);
      }
    }
  }

  /** What comes after a slash is cleaned from where the front leads. */
  lemma SegmentsConcat(s: string, v: string)
    ensures Segments(s + "/" + v) == CleanParts(Segments(s), SplitSlash(v))
  {
    SplitAtSlash(s, v);
    CleanConcat([], SplitSlash(s), SplitSlash(v));
  }

  /** filepath.Clean, one step further: a name leads into it, two dots lead up, and one dot or
      nothing leads nowhere. */
  lemma SegmentsStep(s: string, x: string)
    requires IsAbs(s) && '/' !in x
    ensures Ordinary(x) ==> Segments(s + "/" + x) == Segments(s) + [x]
    ensures x == ".." ==> Segments(s + "/" + x) == if Segments(s) == [] then [] else Segments(s)[..|Segments(s)| - 1]
    ensures x == "." || x == "" ==> Segments(s + "/" + x) == Segments(s)
  {
    SplitTail(s, x);
    CleanConcat([], SplitSlash(s), [x]);
    assert [x][1..] == [];
  }

  /** So a name and two dots after it cancel, whatever the name stands for. */
  lemma UpCancels(s: string, x: string, t: string)
    requires IsAbs(s) && Ordinary(x)
    ensures Segments(s + "/" + x + "/../" + t) == Segments(s + "/" + t)
  {
    var inside := s + "/" + x;
    SegmentsStep(s, x);
    SegmentsStep(inside, "..");
    assert Segments(s) + [x] != [] && (Segments(s) + [x])[..|Segments(s)|] == Segments(s);
    assert inside + "/../" + t == inside + "/" + ".." + "/" + t;
    SegmentsConcat(inside + "/" + "..", t);
    SegmentsConcat(s, t);
  }

  // ---------------------------------------------------------------- the file system

  /** A link's target, split at its slashes. */
  datatype Entry = Directory | Regular | Link(absolute: bool, parts: seq<string>)

  /** What lstat finds at each physical path; the root is not listed. */
  type Fs = map<Path, Entry>

  /** Entries live in directories. */
  ghost predicate WellFormed(fs: Fs) {
    && (forall p :: p in fs ==> p != [] && IsPath(p) && (|p| > 1 ==> IsDir(fs, Parent(p))))
    && (forall p :: p in fs && fs[p].Link? ==> PartsValid(fs[p].parts))
  }

  predicate PartsValid(parts: seq<string>) {
    forall i :: 0 <= i < |parts| ==> '/' !in parts[i]
  }

  predicate IsDir(fs: Fs, p: Path) {
    p == [] || (p in fs && fs[p].Directory?)
  }

  const MAX_LINKS: nat := 255

  datatype Eval = Ok(path: Path, links: nat) | NotFound | NotDir | TooManyLinks

  /** filepath.EvalSymlinks from the physical directory `dest`, with `links` links followed so
      far and `rest` still to walk. */
  function Walk(fs: Fs, links: nat, dest: Path, rest: seq<string>): Eval
    requires links <= MAX_LINKS
    decreases MAX_LINKS - links, |rest|
  {
    if rest == [] then Ok(dest, links)
    else if rest[0] == "" || rest[0] == "." then Walk(fs, links, dest, rest[1..])
    else if rest[0] == ".." then Walk(fs, links, Parent(dest), rest[1..])
    else
      var next := dest + [rest[0]];
      if next !in fs then NotFound
      else match fs[next]
        case Directory => Walk(fs, links, next, rest[1..])
        case Regular => if rest[1..] != [] then NotDir else Ok(next, links)
        case Link(absolute, parts) =>
          if links == MAX_LINKS then TooManyLinks
          else Walk(fs, links + 1, if absolute then [] else dest, parts + rest[1..])
  }

  function EvalSymlinks(fs: Fs, p: Path): Eval {
    Walk(fs, 0, [], p)
  }

  /** evalSymlinksLongestPrefix on a cleaned path. */
  function Canonical(fs: Fs, p: Path): Path
    decreases |p|
  {
    var r := EvalSymlinks(fs, p);
    if r.Ok? then r.path
    else if p == [] then p
    else Canonical(fs, Parent(p)) + [p[|p| - 1]]
  }

  /** CanonicalizePath on an absolute path. */
  function CanonicalizePath(fs: Fs, s: string): string {
    Render(Canonical(fs, Segments(s)))
  }

  /** How many leading segments EvalSymlinks resolves at best. */
  function Resolvable(fs: Fs, p: Path): (k: nat)
    ensures k <= |p| && EvalSymlinks(fs, p[..k]).Ok?
    decreases |p|
  {
    assert p[..|p|] == p;
    if EvalSymlinks(fs, p).Ok? then |p|
    else
      assert p != [];
      var k := Resolvable(fs, Parent(p));
      assert Parent(p)[..k] == p[..k];
      k
  }

  // ---------------------------------------------------------------- facts about the walk

  /** No link on the way and every proper ancestor a directory. */
  ghost predicate Physical(fs: Fs, p: Path) {
    IsPath(p) && forall k :: 1 <= k <= |p| ==> p[..k] in fs && !fs[p[..k]].Link? && (k < |p| ==> fs[p[..k]].Directory?)
  }

  lemma PhysicalParent(fs: Fs, p: Path)
    requires Physical(fs, p)
    ensures Physical(fs, Parent(p)) && (Parent(p) == [] || IsDir(fs, Parent(p)))
  {
    forall k | 1 <= k <= |Parent(p)| ensures Parent(p)[..k] == p[..k] {
    }
  }

  lemma PhysicalChild(fs: Fs, p: Path, c: string)
    requires Physical(fs, p) && IsDir(fs, p) && Ordinary(c) && p + [c] in fs && !fs[p + [c]].Link?
    ensures Physical(fs, p + [c])
  {
    var q := p + [c];
    forall k | 1 <= k <= |q| ensures q[..k] in fs && !fs[q[..k]].Link? && (k < |q| ==> fs[q[..k]].Directory?) {
      if k <= |p| {
        assert q[..k] == p[..k];
        assert p[..|p|] == p;
      } else {
        assert q[..k] == q;
      }
    }
  }

  lemma {:induction false} WalkKeepsBudget(fs: Fs, links: nat, dest: Path, rest: seq<string>)
    requires links <= MAX_LINKS
    ensures var r := Walk(fs, links, dest, rest); r.Ok? ==> r.links <= MAX_LINKS
    decreases MAX_LINKS - links, |rest|
  {
    if rest != [] {
      var next := dest + [rest[0]];
      if rest[0] == "" || rest[0] == "." {
        WalkKeepsBudget(fs, links, dest, rest[1..]);
      } else if rest[0] == ".." {
        WalkKeepsBudget(fs, links, Parent(dest), rest[1..]);
      } else if next in fs && fs[next].Directory? {
        WalkKeepsBudget(fs, links, next, rest[1..]);
      } else if next in fs && fs[next].Link? && links < MAX_LINKS {
        WalkKeepsBudget(fs, links + 1, if fs[next].absolute then [] else dest, fs[next].parts + rest[1..]);
      }
    }
  }

  /** A successful walk ends at a physical path. */
  lemma {:induction false} WalkIsPhysical(fs: Fs, links: nat, dest: Path, rest: seq<string>)
    requires WellFormed(fs) && links <= MAX_LINKS && PartsValid(rest) && Physical(fs, dest) && IsDir(fs, dest)
    ensures var r := Walk(fs, links, dest, rest); r.Ok? ==> Physical(fs, r.path)
    decreases MAX_LINKS - links, |rest|, 1
  {
    if rest != [] {
      if rest[0] == "" || rest[0] == "." {
        WalkIsPhysical(fs, links, dest, rest[1..]);
      } else if rest[0] == ".." {
        PhysicalParent(fs, dest);
        WalkIsPhysical(fs, links, Parent(dest), rest[1..]);
      } else if dest + [rest[0]] in fs {
        if fs[dest + [rest[0]]].Link? {
          LinkIsPhysical(fs, links, dest, rest);
        } else {
          EntryIsPhysical(fs, links, dest, rest);
        }
      }
    }
  }

  lemma {:induction false} EntryIsPhysical(fs: Fs, links: nat, dest: Path, rest: seq<string>)
    requires WellFormed(fs) && links <= MAX_LINKS && PartsValid(rest) && Physical(fs, dest) && IsDir(fs, dest)
    requires rest != [] && Ordinary(rest[0]) && dest + [rest[0]] in fs && !fs[dest + [rest[0]]].Link?
    ensures var r := Walk(fs, links, dest, rest); r.Ok? ==> Physical(fs, r.path)
    decreases MAX_LINKS - links, |rest|, 0
  {
    PhysicalChild(fs, dest, rest[0]);
    if fs[dest + [rest[0]]].Directory? {
      WalkIsPhysical(fs, links, dest + [rest[0]], rest[1..]);
    }
  }

  lemma {:induction false} LinkIsPhysical(fs: Fs, links: nat, dest: Path, rest: seq<string>)
    requires WellFormed(fs) && links <= MAX_LINKS && PartsValid(rest) && Physical(fs, dest) && IsDir(fs, dest)
    requires rest != [] && Ordinary(rest[0]) && dest + [rest[0]] in fs && fs[dest + [rest[0]]].Link?
    ensures var r := Walk(fs, links, dest, rest); r.Ok? ==> Physical(fs, r.path)
    decreases MAX_LINKS - links, |rest|, 0
  {
    if links < MAX_LINKS {
      var target := fs[dest + [rest[0]]];
      assert PartsValid(target.parts);
      WalkIsPhysical(fs, links + 1, if target.absolute then [] else dest, target.parts + rest[1..]);
    }
  }

  /** A physical path walks to itself, and so does whatever follows a physical directory. */
  lemma {:induction false} WalkPhysical(fs: Fs, links: nat, p: Path, k: nat, rest: seq<string>)
    requires links <= MAX_LINKS && Physical(fs, p) && k <= |p| && (rest == [] || IsDir(fs, p))
    ensures Walk(fs, links, p[..k], p[k..] + rest) == Walk(fs, links, p, rest)
    decreases |p| - k
  {
    if k == |p| {
      assert p[..k] == p && p[k..] + rest == rest;
    } else {
      var todo := p[k..] + rest;
      assert todo[0] == p[k] && todo[1..] == p[k + 1..] + rest;
      assert p[..k] + [p[k]] == p[..k + 1];
      if k + 1 == |p| {
        assert p[..k + 1] == p;
      }
      WalkPhysical(fs, links, p, k + 1, rest);
    }
  }

  lemma TailOfConcat(rest: seq<string>, more: seq<string>)
    requires rest != []
    ensures rest + more != [] && (rest + more)[0] == rest[0] && (rest + more)[1..] == rest[1..] + more
  {
  }

  lemma ConcatAssoc(a: seq<string>, b: seq<string>, c: seq<string>)
    ensures a + b + c == a + (b + c)
  {
  }

  /** Failing early means failing with more to walk, and success leaves a state to go on from. */
  lemma {:induction false} WalkOn(fs: Fs, links: nat, dest: Path, rest: seq<string>, more: Path)
    requires links <= MAX_LINKS && more != []
    ensures var r := Walk(fs, links, dest, rest);
      && (!r.Ok? ==> Walk(fs, links, dest, rest + more) == r)
      && (r.Ok? && r.links <= MAX_LINKS ==>
            || Walk(fs, links, dest, rest + more) == Walk(fs, r.links, r.path, more)
            || (Walk(fs, links, dest, rest + more).NotDir? && r.path in fs && fs[r.path].Regular?))
    decreases MAX_LINKS - links, |rest|
  {
    if rest == [] {
      assert rest + more == more;
    } else {
      TailOfConcat(rest, more);
      if rest[0] == "" || rest[0] == "." {
        WalkOn(fs, links, dest, rest[1..], more);
      } else if rest[0] == ".." {
        WalkOn(fs, links, Parent(dest), rest[1..], more);
      } else {
        var next := dest + [rest[0]];
        if next in fs {
          match fs[next]
          case Directory => WalkOn(fs, links, next, rest[1..], more);
          case Regular =>
          case Link(absolute, parts) =>
            if links < MAX_LINKS {
              ConcatAssoc(parts, rest[1..], more);
              WalkOn(fs, links + 1, if absolute then [] else dest, parts + rest[1..], more);
            }
        }
      }
    }
  }

  lemma LongerFailsToo(fs: Fs, front: Path, rest: Path, p: Path)
    requires rest != [] && p == front + rest
    ensures EvalSymlinks(fs, p).Ok? ==> EvalSymlinks(fs, front).Ok?
  {
    WalkOn(fs, 0, [], front, rest);
  }

  /** Prefixes beyond the resolvable ones do not resolve. */
  lemma {:induction false} BeyondResolvable(fs: Fs, p: Path, k: nat)
    requires WellFormed(fs) && IsPath(p) && k <= |p|
    ensures EvalSymlinks(fs, p[..k]).Ok? <==> k <= Resolvable(fs, p)
    decreases |p|
  {
    assert p[..|p|] == p;
    if EvalSymlinks(fs, p).Ok? {
      if k < |p| {
        LongerFailsToo(fs, p[..k], p[k..], p);
      }
    } else if k < |p| {
      assert p != [] && Parent(p)[..k] == p[..k];
      BeyondResolvable(fs, Parent(p), k);
    }
  }

  // ---------------------------------------------------------------- canonicalisation

  /** The result is the resolved longest prefix followed by the remaining segments, in order. */
  lemma {:induction false} CanonicalIs(fs: Fs, p: Path)
    ensures var k := Resolvable(fs, p); Canonical(fs, p) == EvalSymlinks(fs, p[..k]).path + p[k..]
    decreases |p|
  {
    assert p[..|p|] == p;
    if EvalSymlinks(fs, p).Ok? {
      assert EvalSymlinks(fs, p).path + p[|p|..] == EvalSymlinks(fs, p).path;
    } else {
      assert p != [];
      var k := Resolvable(fs, Parent(p));
      CanonicalIs(fs, Parent(p));
      assert Parent(p)[..k] == p[..k];
      assert Parent(p)[k..] + [p[|p| - 1]] == p[k..];
    }
  }

  /** evalSymlinksLongestPrefix as the source runs it. EvalSymlinks never fails at the root. */
  method EvalSymlinksLongestPrefix(fs: Fs, absPath: Path) returns (canonical: Path)
    ensures canonical == Canonical(fs, absPath)
  {
    var curr := absPath;
    var tail: Path := [];
    while !EvalSymlinks(fs, curr).Ok?
      invariant |curr| + |tail| == |absPath|
      invariant Canonical(fs, absPath) == Canonical(fs, curr) + Reversed(tail)
      decreases |curr|
    {
      MoveToTail(Canonical(fs, Parent(curr)), curr[|curr| - 1], tail);
      tail := tail + [curr[|curr| - 1]];
      curr := Parent(curr);
    }
    canonical := EvalSymlinks(fs, curr).path;
    var i := |tail|;
    assert tail[..i] == tail;
    while i > 0
      invariant 0 <= i <= |tail|
      invariant Canonical(fs, absPath) == canonical + Reversed(tail[..i])
    {
      i := i - 1;
      assert tail[..i + 1] == tail[..i] + [tail[i]];
      canonical := canonical + [tail[i]];
    }
  }

  /** One round of the first loop moves a segment from the path to the tail. */
  lemma MoveToTail(front: Path, last: string, tail: Path)
    ensures front + [last] + Reversed(tail) == front + Reversed(tail + [last])
  {
    ReversedSnoc(tail, last);
    ConcatAssoc(front, [last], Reversed(tail));
  }

  lemma ReversedSnoc(p: Path, last: string)
    ensures Reversed(p + [last]) == [last] + Reversed(p)
  {
    assert (p + [last])[..|p|] == p;
  }

  function Reversed(p: Path): Path {
    if p == [] then [] else [p[|p| - 1]] + Reversed(p[..|p| - 1])
  }

  lemma CanonicalIsPath(fs: Fs, p: Path)
    requires WellFormed(fs) && IsPath(p)
    ensures IsPath(Canonical(fs, p))
  {
    CanonicalIs(fs, p);
    WalkIsPhysical(fs, 0, [], p[..Resolvable(fs, p)]);
  }

  /** The first segment left unresolved, looked up again from the resolved prefix with a fresh
      budget of links. */
  function Retry(fs: Fs, p: Path): Eval
    requires Resolvable(fs, p) < |p|
  {
    var k := Resolvable(fs, p);
    EvalSymlinks(fs, EvalSymlinks(fs, p[..k]).path + [p[k]])
  }

  /** A physical path resolves to itself. */
  lemma PhysicalIsCanonical(fs: Fs, p: Path)
    requires Physical(fs, p)
    ensures EvalSymlinks(fs, p) == Ok(p, 0)
  {
    WalkPhysical(fs, 0, p, 0, []);
    assert p[0..] + [] == p && p[..0] == [];
  }

  function Evals(fs: Fs): Path -> Eval {
    p => EvalSymlinks(fs, p)
  }

  /** The first `m` segments of `a` lead to `dir`, and one more does not resolve. */
  ghost predicate CutAt(eval: Path -> Eval, a: Path, m: nat, dir: Path) {
    && m <= |a| && eval(a[..m]).Ok? && eval(a[..m]).path == dir
    && (m < |a| ==> !eval(a[..m + 1]).Ok?)
  }

  lemma CutIs(fs: Fs, a: Path, m: nat, dir: Path)
    requires WellFormed(fs) && IsPath(a) && CutAt(Evals(fs), a, m, dir)
    ensures Canonical(fs, a) == dir + a[m..]
  {
    ResolvableIs(fs, a, m);
    CanonicalIs(fs, a);
  }

  lemma ResolvableIs(fs: Fs, a: Path, m: nat)
    requires WellFormed(fs) && IsPath(a) && m <= |a| && EvalSymlinks(fs, a[..m]).Ok?
    requires m < |a| ==> !EvalSymlinks(fs, a[..m + 1]).Ok?
    ensures Resolvable(fs, a) == m
  {
    BeyondResolvable(fs, a, m);
    if m < |a| {
      BeyondResolvable(fs, a, m + 1);
    }
  }

  lemma CutOf(fs: Fs, a: Path) returns (m: nat, dir: Path)
    requires WellFormed(fs) && IsPath(a)
    ensures CutAt(Evals(fs), a, m, dir) && Physical(fs, dir) && Canonical(fs, a) == dir + a[m..]
  {
    m := Resolvable(fs, a);
    dir := EvalSymlinks(fs, a[..m]).path;
    WalkIsPhysical(fs, 0, [], a[..m]);
    CanonicalIs(fs, a);
    if m < |a| {
      BeyondResolvable(fs, a, m + 1);
    }
  }

  /** The canonical form of a resolved path and a tail: unchanged iff the tail stays unresolved. */
  lemma CanonicalOfResolved(fs: Fs, dir: Path, tail: Path)
    requires WellFormed(fs) && Physical(fs, dir) && IsPath(tail) && tail != []
    requires EvalSymlinks(fs, dir + [tail[0]]).Ok? ==> dir + [tail[0]] in fs && fs[dir + [tail[0]]].Link?
    ensures Canonical(fs, dir + tail) == dir + tail <==> !EvalSymlinks(fs, dir + [tail[0]]).Ok?
  {
    if EvalSymlinks(fs, dir + [tail[0]]).Ok? {
      TailMoves(fs, dir, tail);
    } else {
      TailStays(fs, dir, tail);
    }
  }

  lemma TailStays(fs: Fs, dir: Path, tail: Path)
    requires WellFormed(fs) && Physical(fs, dir) && IsPath(tail) && tail != []
    requires !EvalSymlinks(fs, dir + [tail[0]]).Ok?
    ensures Canonical(fs, dir + tail) == dir + tail
  {
    var q, n := dir + tail, |dir|;
    PhysicalIsCanonical(fs, dir);
    assert q[..n] == dir && q[..n + 1] == dir + [tail[0]] && q[n..] == tail;
    CutIs(fs, q, n, dir);
  }

  lemma TailMoves(fs: Fs, dir: Path, tail: Path)
    requires WellFormed(fs) && Physical(fs, dir) && IsPath(tail) && tail != []
    requires EvalSymlinks(fs, dir + [tail[0]]).Ok? && dir + [tail[0]] in fs && fs[dir + [tail[0]]].Link?
    ensures Canonical(fs, dir + tail) != dir + tail
  {
    var q, n := dir + tail, |dir|;
    assert q[..n + 1] == dir + [tail[0]];
    var m, again := CutOf(fs, q);
    CutIsLate(fs, q, m, n);
    if again + q[m..] == q {
      WayIsPhysical(fs, again, q, n, m);
    }
  }

  /** A cut lies behind everything that resolves. */
  lemma CutIsLate(fs: Fs, q: Path, m: nat, n: nat)
    requires m <= |q| && n < |q| && EvalSymlinks(fs, q[..n + 1]).Ok?
    requires m < |q| ==> !EvalSymlinks(fs, q[..m + 1]).Ok?
    ensures n < m
  {
    if m < n {
      assert q[..n + 1] == q[..m + 1] + q[m + 1..n + 1];
      LongerFailsToo(fs, q[..m + 1], q[m + 1..n + 1], q[..n + 1]);
    }
  }

  /** What precedes a tail of `q` and is physical has no link among its prefixes. */
  lemma WayIsPhysical(fs: Fs, a: Path, q: Path, n: nat, m: nat)
    requires Physical(fs, a) && n < m <= |q| && a + q[m..] == q
    ensures q[..n + 1] in fs && !fs[q[..n + 1]].Link?
  {
    SameSplit(a, q, m);
    assert a[..n + 1] == q[..n + 1];
  }

  lemma SameSplit(a: Path, q: Path, m: nat)
    requires m <= |q| && a + q[m..] == q
    ensures a == q[..m]
  {
    assert |a| == m;
    assert (a + q[m..])[..m] == a;
  }

  /** Canonicalising twice changes nothing exactly when everything resolved, or the first
      unresolved segment still does not resolve on a fresh budget of links. */
  lemma CanonicalIdempotentIff(fs: Fs, p: Path)
    requires WellFormed(fs) && IsPath(p)
    ensures Canonical(fs, Canonical(fs, p)) == Canonical(fs, p)
       <==> Resolvable(fs, p) == |p| || !Retry(fs, p).Ok?
  {
    var k := Resolvable(fs, p);
    var dir := EvalSymlinks(fs, p[..k]).path;
    CanonicalIs(fs, p);
    WalkIsPhysical(fs, 0, [], p[..k]);
    if k == |p| {
      assert dir + p[k..] == dir;
      PhysicalIsCanonical(fs, dir);
    } else {
      if Retry(fs, p).Ok? {
        RetryMeansLink(fs, p);
      }
      CanonicalOfResolved(fs, dir, p[k..]);
    }
  }

  /** A child of a physical path resolves only in a directory, and from there. */
  lemma ResolvedChild(fs: Fs, dir: Path, c: string)
    requires WellFormed(fs) && Physical(fs, dir) && Ordinary(c) && EvalSymlinks(fs, dir + [c]).Ok?
    ensures IsDir(fs, dir) && EvalSymlinks(fs, dir + [c]) == Walk(fs, 0, dir, [c])
  {
    WalkPhysical(fs, 0, dir, 0, []);
    assert dir[0..] + [] == dir && dir[..0] == [];
    WalkOn(fs, 0, [], dir, [c]);
    ResolvedEntry(fs, dir, c);
  }

  /** A segment that resolves is an entry, so what holds it is a directory. */
  lemma ResolvedEntry(fs: Fs, dir: Path, c: string)
    requires WellFormed(fs) && Ordinary(c) && Walk(fs, 0, dir, [c]).Ok?
    ensures dir + [c] in fs && IsDir(fs, dir)
  {
    assert Parent(dir + [c]) == dir;
  }

  /** Both lead to the same path, or neither leads anywhere. */
  predicate SameEnd(a: Eval, b: Eval) {
    (a.Ok? <==> b.Ok?) && (a.Ok? && b.Ok? ==> a.path == b.path)
  }

  /** A smaller link count changes a failing walk only where the budget ran out. */
  lemma {:induction false} BudgetOnly(fs: Fs, fewer: nat, links: nat, dest: Path, rest: seq<string>)
    requires fewer <= links <= MAX_LINKS
    ensures Walk(fs, links, dest, rest).TooManyLinks?
         || SameEnd(Walk(fs, links, dest, rest), Walk(fs, fewer, dest, rest))
    decreases MAX_LINKS - links, |rest|
  {
    if rest != [] {
      if rest[0] == "" || rest[0] == "." {
        BudgetOnly(fs, fewer, links, dest, rest[1..]);
      } else if rest[0] == ".." {
        BudgetOnly(fs, fewer, links, Parent(dest), rest[1..]);
      } else {
        var next := dest + [rest[0]];
        if next in fs {
          match fs[next]
          case Directory => BudgetOnly(fs, fewer, links, next, rest[1..]);
          case Regular =>
          case Link(absolute, parts) =>
            if links < MAX_LINKS {
              BudgetOnly(fs, fewer + 1, links + 1, if absolute then [] else dest, parts + rest[1..]);
            }
        }
      }
    }
  }

  lemma FromPhysical(fs: Fs, dir: Path, rest: Path)
    requires Physical(fs, dir) && IsDir(fs, dir)
    ensures EvalSymlinks(fs, dir + rest) == Walk(fs, 0, dir, rest)
  {
    WalkPhysical(fs, 0, dir, 0, rest);
    assert dir[..0] == [] && dir[0..] == dir;
  }

  /** What a name in a physical directory leads to: nothing, itself, or where its link leads. */
  lemma EntryLeads(fs: Fs, dir: Path, c: string)
    requires Physical(fs, dir) && IsDir(fs, dir) && Ordinary(c)
    ensures dir + [c] !in fs ==> EvalSymlinks(fs, dir + [c]) == NotFound
    ensures dir + [c] in fs && !fs[dir + [c]].Link? ==> EvalSymlinks(fs, dir + [c]) == Ok(dir + [c], 0)
    ensures dir + [c] in fs && fs[dir + [c]].Link? ==>
      var base := if fs[dir + [c]].absolute then [] else dir;
      EvalSymlinks(fs, dir + [c]) == Walk(fs, 1, base, fs[dir + [c]].parts)
  {
    FromPhysical(fs, dir, [c]);
    assert [c][1..] == [];
    if dir + [c] in fs && fs[dir + [c]].Link? {
      assert fs[dir + [c]].parts + [] == fs[dir + [c]].parts;
    }
  }

  /** A link leads where its target leads: an absolute target from the root, a relative one from
      the directory that holds the link, unless the links run out. */
  lemma LinkLeads(fs: Fs, dir: Path, c: string, target: Path, absolute: bool)
    requires Physical(fs, dir) && IsDir(fs, dir) && Ordinary(c) && IsPath(target)
    requires dir + [c] in fs && fs[dir + [c]] == Link(absolute, target)
    ensures EvalSymlinks(fs, dir + [c]).TooManyLinks?
         || SameEnd(EvalSymlinks(fs, dir + [c]), EvalSymlinks(fs, if absolute then target else dir + target))
  {
    var base := if absolute then [] else dir;
    EntryLeads(fs, dir, c);
    BudgetOnly(fs, 0, 1, base, target);
    FromPhysical(fs, base, target);
    assert [] + target == target;
  }

  /** And one that starts with two dots, from the directory above. */
  lemma LinkLeadsUp(fs: Fs, dir: Path, c: string, target: Path)
    requires Physical(fs, dir) && IsDir(fs, dir) && Ordinary(c) && IsPath(target)
    requires dir + [c] in fs && fs[dir + [c]] == Link(false, [".."] + target)
    ensures EvalSymlinks(fs, dir + [c]).TooManyLinks?
         || SameEnd(EvalSymlinks(fs, dir + [c]),
                    EvalSymlinks(fs, (if dir == [] then [] else dir[..|dir| - 1]) + target))
  {
    EntryLeads(fs, dir, c);
    assert ([".."] + target)[1..] == target;
    BudgetOnly(fs, 0, 1, Parent(dir), target);
    PhysicalParent(fs, dir);
    FromPhysical(fs, Parent(dir), target);
  }

  /** If `c` does not resolve after `a`, but does from where `a` leads, then it is a link for
      which the budget had run out. */
  lemma FreshBudget(fs: Fs, a: Path, c: string)
    requires WellFormed(fs) && IsPath(a) && Ordinary(c)
    requires EvalSymlinks(fs, a).Ok? && !EvalSymlinks(fs, a + [c]).Ok?
    requires EvalSymlinks(fs, EvalSymlinks(fs, a).path + [c]).Ok?
    ensures var at := EvalSymlinks(fs, a).path + [c]; at in fs && fs[at].Link?
    ensures EvalSymlinks(fs, a + [c]) == TooManyLinks
  {
    var r := EvalSymlinks(fs, a);
    WalkIsPhysical(fs, 0, [], a);
    WalkKeepsBudget(fs, 0, [], a);
    ResolvedChild(fs, r.path, c);
    WalkOn(fs, 0, [], a, [c]);
    LinkStep(fs, r.links, r.path, c);
    BudgetOnly(fs, 0, r.links, r.path, [c]);
  }

  /** Only a link can resolve on a fresh budget where it did not before: the budget ran out. */
  lemma RetryMeansLink(fs: Fs, p: Path)
    requires WellFormed(fs) && IsPath(p) && Resolvable(fs, p) < |p| && Retry(fs, p).Ok?
    ensures var k := Resolvable(fs, p);
      var at := EvalSymlinks(fs, p[..k]).path + [p[k]];
      at in fs && fs[at].Link?
    ensures EvalSymlinks(fs, p[..Resolvable(fs, p) + 1]) == TooManyLinks
  {
    NextFails(fs, p);
    RetryAt(fs, p, Resolvable(fs, p));
  }

  lemma NextFails(fs: Fs, p: Path)
    requires WellFormed(fs) && IsPath(p) && Resolvable(fs, p) < |p|
    ensures !EvalSymlinks(fs, p[..Resolvable(fs, p) + 1]).Ok?
  {
    BeyondResolvable(fs, p, Resolvable(fs, p) + 1);
  }

  lemma RetryAt(fs: Fs, p: Path, k: nat)
    requires WellFormed(fs) && IsPath(p) && k < |p|
    requires EvalSymlinks(fs, p[..k]).Ok? && !EvalSymlinks(fs, p[..k + 1]).Ok?
    requires EvalSymlinks(fs, EvalSymlinks(fs, p[..k]).path + [p[k]]).Ok?
    ensures var at := EvalSymlinks(fs, p[..k]).path + [p[k]]; at in fs && fs[at].Link?
    ensures EvalSymlinks(fs, p[..k + 1]) == TooManyLinks
  {
    TakeSnoc(p, k);
    FreshBudget(fs, p[..k], p[k]);
  }

  lemma TakeSnoc(p: Path, k: nat)
    requires k < |p|
    ensures p[..k + 1] == p[..k] + [p[k]]
    ensures IsPath(p) ==> IsPath(p[..k]) && Ordinary(p[k])
  {
  }

  /** One more segment fails with links already followed but not from a fresh start: a link. */
  lemma LinkStep(fs: Fs, links: nat, dest: Path, c: string)
    requires links <= MAX_LINKS && Ordinary(c) && !Walk(fs, links, dest, [c]).Ok? && Walk(fs, 0, dest, [c]).Ok?
    ensures dest + [c] in fs && fs[dest + [c]].Link?
  {
    assert [c][1..] == [];
  }

  /** In particular whenever the link budget did not run out. */
  lemma CanonicalIdempotent(fs: Fs, p: Path)
    requires WellFormed(fs) && IsPath(p)
    requires Resolvable(fs, p) < |p| ==> EvalSymlinks(fs, p[..Resolvable(fs, p) + 1]) != TooManyLinks
    ensures Canonical(fs, Canonical(fs, p)) == Canonical(fs, p)
  {
    CanonicalIdempotentIff(fs, p);
    if Resolvable(fs, p) < |p| && Retry(fs, p).Ok? {
      RetryMeansLink(fs, p);
    }
  }

  function Name(i: nat): string {
    seq(i + 1, _ => 'x')
  }

  lemma NameOrdinary(i: nat)
    ensures Ordinary(Name(i))
  {
    assert Name(i)[0] == 'x';
  }

  /** A file system is finite, so some name of a given shape is free in any directory. */
  lemma {:induction false} FreeName(fs: Fs, dir: Path, front: string, back: string, i: nat) returns (j: nat)
    ensures i <= j && dir + [front + Name(j) + back] !in fs
    decreases |fs|
  {
    j := i;
    var p := dir + [front + Name(i) + back];
    if p in fs {
      var fewer := fs - {p};
      assert fewer.Keys == fs.Keys - {p};
      j := FreeName(fewer, dir, front, back, i + 1);
      LongerNameDiffers(dir, front, back, i, j);
    }
  }

  lemma LongerNameDiffers(dir: Path, front: string, back: string, i: nat, j: nat)
    requires i != j
    ensures dir + [front + Name(i) + back] != dir + [front + Name(j) + back]
  {
    var p, q := dir + [front + Name(i) + back], dir + [front + Name(j) + back];
    assert |p[|dir|]| != |q[|dir|]|;
  }

  // ---------------------------------------------------------------- prefixes and siblings

  /** Cutting what did not resolve cuts nothing else. */
  lemma CutPrefix(eval: Path -> Eval, a: Path, m: nat, dir: Path, j: nat)
    requires CutAt(eval, a, m, dir) && m <= j <= |a|
    ensures CutAt(eval, a[..j], m, dir)
  {
    assert a[..j][..m] == a[..m];
    if m < j {
      assert a[..j][..m + 1] == a[..m + 1];
    }
  }

  lemma PhysicalPrefix(fs: Fs, p: Path, n: nat)
    requires Physical(fs, p) && n <= |p|
    ensures Physical(fs, p[..n])
  {
    forall k | 1 <= k <= n ensures p[..n][..k] == p[..k] {
    }
  }

  lemma PhysicalIsStable(fs: Fs, p: Path)
    requires Physical(fs, p)
    ensures Canonical(fs, p) == p
  {
    PhysicalIsCanonical(fs, p);
  }

  /** A prefix of a canonical path is the canonical form of something. */
  lemma PrefixIsCanonical(fs: Fs, a: Path, n: nat) returns (b: Path)
    requires WellFormed(fs) && IsPath(a) && n <= |Canonical(fs, a)|
    ensures IsPath(b) && Canonical(fs, b) == Canonical(fs, a)[..n]
  {
    var m, dir := CutOf(fs, a);
    if n <= |dir| {
      b := dir[..n];
      PhysicalPrefix(fs, dir, n);
      PhysicalIsStable(fs, b);
      assert (dir + a[m..])[..n] == b;
    } else {
      b := CutCanonical(fs, a, m, dir, n);
    }
  }

  lemma CutCanonical(fs: Fs, a: Path, m: nat, dir: Path, n: nat) returns (b: Path)
    requires WellFormed(fs) && IsPath(a) && CutAt(Evals(fs), a, m, dir) && |dir| <= n <= |dir| + |a| - m
    ensures IsPath(b) && Canonical(fs, b) == (dir + a[m..])[..n]
  {
    var j := m + n - |dir|;
    b := a[..j];
    CutPrefix(Evals(fs), a, m, dir, j);
    CutIs(fs, b, m, dir);
    CutTail(a, m, dir, n);
  }

  lemma CutTail(a: Path, m: nat, dir: Path, n: nat)
    requires m <= |a| && |dir| <= n <= |dir| + |a| - m
    ensures dir + a[..m + n - |dir|][m..] == (dir + a[m..])[..n]
  {
  }

  /** A stable path is its resolved part, which is physical, and the rest. */
  lemma StableCut(fs: Fs, c: Path) returns (m: nat)
    requires WellFormed(fs) && IsPath(c) && Canonical(fs, c) == c
    ensures m <= |c| && CutAt(Evals(fs), c, m, c[..m]) && Physical(fs, c[..m])
  {
    var dir;
    m, dir := CutOf(fs, c);
    SameSplit(dir, c, m);
  }

  /** Prefixes of a stable path are stable. */
  lemma PrefixIsStable(fs: Fs, c: Path, k: nat)
    requires WellFormed(fs) && IsPath(c) && Canonical(fs, c) == c && k <= |c|
    ensures Canonical(fs, c[..k]) == c[..k]
  {
    var m := StableCut(fs, c);
    StablePrefixAt(fs, c, m, k);
  }

  lemma StablePrefixAt(fs: Fs, c: Path, m: nat, k: nat)
    requires WellFormed(fs) && IsPath(c) && k <= |c|
    requires m <= |c| && CutAt(Evals(fs), c, m, c[..m]) && Physical(fs, c[..m])
    ensures Canonical(fs, c[..k]) == c[..k]
  {
    if k <= m {
      PhysicalPrefix(fs, c[..m], k);
      assert c[..m][..k] == c[..k];
      PhysicalIsStable(fs, c[..k]);
    } else {
      CutPrefix(Evals(fs), c, m, c[..m], k);
      CutIs(fs, c[..k], m, c[..m]);
      assert c[..m] + c[..k][m..] == c[..k];
    }
  }

  lemma AbsentIsUnresolved(fs: Fs, dir: Path, name: string)
    requires WellFormed(fs) && Physical(fs, dir) && Ordinary(name) && dir + [name] !in fs
    ensures !EvalSymlinks(fs, dir + [name]).Ok?
  {
    if EvalSymlinks(fs, dir + [name]).Ok? {
      ResolvedChild(fs, dir, name);
      ResolvedEntry(fs, dir, name);
    }
  }

  /** Below a physical path an absent name is where resolution stops. */
  lemma CutAtAbsent(fs: Fs, dir: Path, name: string, rest: Path)
    requires WellFormed(fs) && Physical(fs, dir) && Ordinary(name) && dir + [name] !in fs
    ensures CutAt(Evals(fs), dir + [name] + rest, |dir|, dir)
  {
    var d := dir + [name] + rest;
    assert d[..|dir|] == dir && d[..|dir| + 1] == dir + [name];
    PhysicalIsCanonical(fs, dir);
    AbsentIsUnresolved(fs, dir, name);
  }

  /** A change beyond the cut does not move it. */
  lemma CutElsewhere(eval: Path -> Eval, c: Path, m: nat, dir: Path, k: nat, name: string)
    requires CutAt(eval, c, m, dir) && m < k < |c|
    ensures CutAt(eval, c[k := name], m, dir)
  {
    assert c[k := name][..m] == c[..m] && c[k := name][..m + 1] == c[..m + 1];
  }

  /** A free name in the place of one segment of a stable path makes another stable path. */
  lemma SiblingIsStable(fs: Fs, c: Path, k: nat, name: string)
    requires WellFormed(fs) && IsPath(c) && Canonical(fs, c) == c && k < |c|
    requires Ordinary(name) && c[..k] + [name] !in fs
    ensures IsPath(c[k := name]) && Canonical(fs, c[k := name]) == c[k := name]
  {
    var m := StableCut(fs, c);
    SiblingAt(fs, c, m, k, name);
  }

  lemma SiblingAt(fs: Fs, c: Path, m: nat, k: nat, name: string)
    requires WellFormed(fs) && IsPath(c) && k < |c| && Ordinary(name) && c[..k] + [name] !in fs
    requires m <= |c| && CutAt(Evals(fs), c, m, c[..m]) && Physical(fs, c[..m])
    ensures IsPath(c[k := name]) && Canonical(fs, c[k := name]) == c[k := name]
  {
    if k <= m {
      ReplacedSegment(c, k, name, k);
      PhysicalPrefix(fs, c[..m], k);
      assert c[..m][..k] == c[..k];
      CutAtAbsent(fs, c[..k], name, c[k + 1..]);
      CutIs(fs, c[k := name], k, c[..k]);
    } else {
      ReplacedSegment(c, k, name, m);
      CutElsewhere(Evals(fs), c, m, c[..m], k, name);
      CutIs(fs, c[k := name], m, c[..m]);
    }
  }

  lemma ReplacedSegment(c: Path, k: nat, name: string, m: nat)
    requires k < |c| && m <= k
    ensures c[k := name] == c[..k] + [name] + c[k + 1..]
    ensures c[..m] + c[k := name][m..] == c[k := name]
    ensures IsPath(c) && Ordinary(name) ==> IsPath(c[k := name])
  {
  }

  /** Canonicalising never leads to a place below. */
  lemma NeverExtends(fs: Fs, c: Path)
    requires WellFormed(fs) && IsPath(c)
    ensures c <= Canonical(fs, c) ==> Canonical(fs, c) == c
  {
    var m, dir := CutOf(fs, c);
    if c <= dir + c[m..] {
      assert m <= |dir| && c[..m] == (dir + c[m..])[..m] == dir[..m];
      PhysicalPrefix(fs, dir, m);
      PhysicalIsCanonical(fs, c[..m]);
      assert c[..m] + c[m..] == c;
    }
  }

  /** What does not exist at the root is its own canonical form. */
  lemma FreeIsCanonical(fs: Fs, name: string)
    requires Ordinary(name) && [name] !in fs
    ensures Canonical(fs, [name]) == [name] && IsPath([name])
  {
    assert [] + [name] == [name] && Parent([name]) == [];
  }

  // ---------------------------------------------------------------- where it is not idempotent

  /** The two-letter names aa to pp. */
  function LinkName(i: nat): string
    requires i <= MAX_LINKS
  {
    ['a' + (i / 16) as char, 'a' + (i % 16) as char]
  }

  lemma LinkNamesDiffer(i: nat, j: nat)
    requires i <= MAX_LINKS && j <= MAX_LINKS
    ensures [LinkName(i)] == [LinkName(j)] ==> i == j
  {
    assert i == 16 * (i / 16) + i % 16 && j == 16 * (j / 16) + j % 16;
    assert LinkName(i) == LinkName(j) ==> LinkName(i)[0] == LinkName(j)[0] && LinkName(i)[1] == LinkName(j)[1];
  }

  lemma LinkNameOrdinary(i: nat)
    requires i <= MAX_LINKS
    ensures Ordinary(LinkName(i)) && |LinkName(i)| == 2
  {
  }

  /** A chain of links from each name to the next ends at a directory, which holds the link
      c -> /d. Resolving all 255 links spends the whole budget. */
  function Chain(i: nat): Fs
    requires i <= MAX_LINKS
    decreases MAX_LINKS - i
  {
    if i == MAX_LINKS then
      map[[LinkName(MAX_LINKS)] := Directory, [LinkName(MAX_LINKS), "c"] := Link(true, ["", "d"]), ["d"] := Directory]
    else Chain(i + 1)[[LinkName(i)] := Link(true, ["", LinkName(i + 1)])]
  }

  lemma ChainWellFormed(i: nat)
    requires i <= MAX_LINKS
    ensures WellFormed(Chain(i))
  {
    ChainAt(i, MAX_LINKS);
    forall p | p in Chain(i) ensures EntryFits(Chain(i), p) && (|p| > 1 ==> IsDir(Chain(i), Parent(p))) {
      ChainEntry(i, p);
    }
  }

  ghost predicate EntryFits(fs: Fs, p: Path) {
    p in fs && p != [] && IsPath(p) && (fs[p].Link? ==> PartsValid(fs[p].parts))
  }

  lemma {:induction false} ChainEntry(i: nat, p: Path)
    requires i <= MAX_LINKS && p in Chain(i)
    ensures EntryFits(Chain(i), p) && (|p| > 1 ==> Parent(p) == [LinkName(MAX_LINKS)])
    decreases MAX_LINKS - i
  {
    LinkNameOrdinary(i);
    if i == MAX_LINKS {
      assert Parent([LinkName(MAX_LINKS), "c"]) == [LinkName(MAX_LINKS)];
    } else if p == [LinkName(i)] {
      LinkNameOrdinary(i + 1);
    } else {
      ChainEntry(i + 1, p);
    }
  }

  /** The entries of the whole chain. */
  lemma {:induction false} ChainAt(i: nat, j: nat)
    requires i <= j <= MAX_LINKS
    ensures [LinkName(j)] in Chain(i)
    ensures Chain(i)[[LinkName(j)]] == if j == MAX_LINKS then Directory else Link(true, ["", LinkName(j + 1)])
    ensures [LinkName(MAX_LINKS), "c"] in Chain(i) && Chain(i)[[LinkName(MAX_LINKS), "c"]] == Link(true, ["", "d"])
    ensures ["d"] in Chain(i) && Chain(i)[["d"]] == Directory
    decreases MAX_LINKS - i
  {
    LinkNameOrdinary(i);
    if i < MAX_LINKS {
      assert |[LinkName(i)]| == 1 && |[LinkName(i)][0]| == 2;
      if i == j {
        ChainAt(i + 1, i + 1);
      } else {
        ChainAt(i + 1, j);
        LinkNamesDiffer(i, j);
      }
    }
  }

  /** One step through a segment that is neither empty nor a dot. */
  lemma WalkStep(fs: Fs, links: nat, dest: Path, c: string, rest: seq<string>)
    requires links <= MAX_LINKS && Ordinary(c) && dest + [c] in fs
    ensures fs[dest + [c]].Directory? ==> Walk(fs, links, dest, [c] + rest) == Walk(fs, links, dest + [c], rest)
    ensures fs[dest + [c]].Link? && links == MAX_LINKS ==> Walk(fs, links, dest, [c] + rest) == TooManyLinks
    ensures fs[dest + [c]] == Link(true, ["", "d"]) && links < MAX_LINKS ==>
      Walk(fs, links, dest, [c] + rest) == Walk(fs, links + 1, [], ["d"] + rest)
  {
    assert ([c] + rest)[1..] == rest;
    assert (["", "d"] + rest)[1..] == ["d"] + rest;
  }

  lemma {:induction false} WalkChain(i: nat, rest: seq<string>)
    requires i <= MAX_LINKS
    ensures Walk(Chain(0), i, [], [LinkName(i)] + rest) == Walk(Chain(0), MAX_LINKS, [LinkName(MAX_LINKS)], rest)
    decreases MAX_LINKS - i
  {
    LinkNameOrdinary(i);
    ChainAt(0, i);
    var parts := [LinkName(i)] + rest;
    assert parts[1..] == rest && [] + [LinkName(i)] == [LinkName(i)];
    if i < MAX_LINKS {
      var after := ["", LinkName(i + 1)] + rest;
      assert after[1..] == [LinkName(i + 1)] + rest;
      WalkChain(i + 1, rest);
    }
  }

  /** The first time: the chain resolves, the link below it does not. */
  lemma ChainFirst()
    ensures EvalSymlinks(Chain(0), [LinkName(0)]) == Ok([LinkName(MAX_LINKS)], MAX_LINKS)
    ensures EvalSymlinks(Chain(0), [LinkName(0), "c"]) == TooManyLinks
  {
    var fs, dir := Chain(0), [LinkName(MAX_LINKS)];
    ChainAt(0, MAX_LINKS);
    WalkChain(0, []);
    assert [LinkName(0)] + [] == [LinkName(0)];
    WalkChain(0, ["c"]);
    assert dir + ["c"] == [LinkName(MAX_LINKS), "c"];
    WalkStep(fs, MAX_LINKS, dir, "c", []);
    assert [LinkName(0)] + ["c"] == [LinkName(0), "c"] && ["c"] + [] == ["c"];
  }

  /** A link to the directory d, below the directory `dir`. */
  lemma ThroughLink(fs: Fs, dir: string)
    requires Ordinary(dir) && [dir] in fs && fs[[dir]].Directory?
    requires [dir, "c"] in fs && fs[[dir, "c"]] == Link(true, ["", "d"])
    requires ["d"] in fs && fs[["d"]].Directory?
    ensures EvalSymlinks(fs, [dir, "c"]) == Ok(["d"], 1)
  {
    assert [] + [dir] == [dir] && [dir] + ["c"] == [dir, "c"];
    WalkStep(fs, 0, [], dir, ["c"]);
    WalkStep(fs, 0, [dir], "c", []);
    assert [] + ["d"] == ["d"] && ["d"] + [] == ["d"] && ["c"] + [] == ["c"];
    WalkStep(fs, 1, [], "d", []);
  }

  /** The second time there are no links before it. */
  lemma ChainSecond()
    ensures EvalSymlinks(Chain(0), [LinkName(MAX_LINKS), "c"]) == Ok(["d"], 1)
  {
    ChainAt(0, MAX_LINKS);
    LinkNameOrdinary(MAX_LINKS);
    ThroughLink(Chain(0), LinkName(MAX_LINKS));
  }

  lemma OneUnresolved(fs: Fs, p: Path, c: string)
    requires EvalSymlinks(fs, p).Ok? && !EvalSymlinks(fs, p + [c]).Ok?
    ensures Canonical(fs, p + [c]) == EvalSymlinks(fs, p).path + [c]
  {
    assert Parent(p + [c]) == p;
  }

  /** On this forest (well formed, by ChainWellFormed) canonicalising twice differs from once. */
  lemma CanonicalNotIdempotent()
    ensures IsPath([LinkName(0), "c"])
    ensures Canonical(Chain(0), [LinkName(0), "c"]) == [LinkName(MAX_LINKS), "c"]
    ensures Canonical(Chain(0), [LinkName(MAX_LINKS), "c"]) == ["d"]
  {
    LinkNameOrdinary(0);
    ChainFirst();
    ChainSecond();
    assert [LinkName(0)] + ["c"] == [LinkName(0), "c"];
    OneUnresolved(Chain(0), [LinkName(0)], "c");
    assert [LinkName(MAX_LINKS)] + ["c"] == [LinkName(MAX_LINKS), "c"];
  }
}
