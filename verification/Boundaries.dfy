/** When a path grant respects segment boundaries: it allows exactly the directory and what lies
    below it, both canonicalised. */
module Boundaries {
  import opened Common
  import opened Paths
  import opened Globs
  import opened Permissions
  import opened GrantPatterns
  import opened Grants

  // ---------------------------------------------------------------- the boundary rule

  /** The rules of `p` allow reading `q` iff `q` is `p` or below it, after canonicalisation. */
  ghost predicate GrantsExactlyBelow(env: Env, p: string, function_: string, q: string) {
    IsGranted(env, ReadRulesOf([p]), function_, q) <==> Canonical(env.fs, Segments(p)) <= Canonical(env.fs, Segments(q))
  }

  ghost predicate KeepsBoundary(env: Env, p: string, function_: string) {
    forall q :: IsAbs(q) ==> GrantsExactlyBelow(env, p, function_, q)
  }

  /** Of the paths that are canonical forms, `c` alone is like `dir`. */
  ghost predicate OnlyLike(fs: Fs, dir: Path, c: Path) {
    forall a: Path :: IsPath(a) ==> (Alike(dir, Canonical(fs, a)) <==> Canonical(fs, a) == c)
  }

  /** Nothing in the stored text stands for other than one character, what is stored singles out
      the canonical directory, and this is not the root, unless it was written so. */
  ghost predicate SafeDir(fs: Fs, c: Path, written: bool) {
    IsStarless(StoredText(fs, c)) && OnlyLike(fs, StoredDir(fs, c), c) && (c != [] || written)
  }

  ghost predicate SafeToGrant(fs: Fs, p: string) {
    SafeDir(fs, Canonical(fs, Segments(p)), AllSlashes(p))
  }

  /** Where the laws of filepath.Match decide: no bracket and no backslash is stored, and a star
      only if the canonical directory is stable or has no wildcards that could be moved. */
  predicate Decided(fs: Fs, c: Path) {
    && IsSimple(StoredText(fs, c))
    && (IsStarless(StoredText(fs, c)) || Canonical(fs, c) == c || IsLiteral(Render(c)))
  }

  /** What a safe directory stands for covers what is at or below it. */
  lemma CoversCanonical(fs: Fs, dir: Path, c: Path, a: Path)
    requires WellFormed(fs) && IsPath(a) && OnlyLike(fs, dir, c) && |dir| == |c|
    ensures Covers(dir, Canonical(fs, a)) <==> c <= Canonical(fs, a)
  {
    var d := Canonical(fs, a);
    if |c| <= |d| {
      var b := PrefixIsCanonical(fs, a, |c|);
      CoversIsAlike(dir, d);
      assert Alike(dir, Canonical(fs, b)) <==> Canonical(fs, b) == c;
    }
  }

  lemma CoversIsAlike(c: Path, d: Path)
    requires |c| <= |d|
    ensures Covers(c, d) <==> Alike(c, d[..|c|])
  {
  }

  lemma AlikeItself(c: Path)
    ensures Alike(c, c)
  {
    forall i | 0 <= i < |c| ensures Like(c[i], c[i]) {
      LikeItself(c[i]);
    }
  }

  lemma SafeHolds(env: Env, p: string, function_: string, q: string)
    requires WellFormed(env.fs) && Lawful(env.glob) && PlainDir(p) && SafeToGrant(env.fs, p) && IsAbs(q)
    ensures GrantsExactlyBelow(env, p, function_, q)
  {
    var c := Canonical(env.fs, Segments(p));
    PathReadGrants(env, p, function_, q);
    if AllSlashes(p) {
      SlashesAreRoot(p);
    } else {
      assert Alike(StoredDir(env.fs, c), c);
      SameLengthNoCollapse(env.fs, c);
      CoversCanonical(env.fs, StoredDir(env.fs, c), c, Segments(q));
    }
  }

  lemma SameLengthNoCollapse(fs: Fs, c: Path)
    requires |StoredDir(fs, c)| == |c|
    ensures !Collapses(fs, c)
  {
  }

  /** The root is stored as the root. */
  lemma RootIsStored(fs: Fs)
    requires WellFormed(fs)
    ensures Canonical(fs, []) == [] && StoredDir(fs, []) == [] && IsStarless(StoredText(fs, [])) && !Collapses(fs, [])
  {
    StableIsStored(fs, []);
  }

  /** A root that is not written as one: a free name at the root is below it, but not granted. */
  lemma RootFails(env: Env, p: string, function_: string) returns (q: string)
    requires WellFormed(env.fs) && Lawful(env.glob) && PlainDir(p)
    requires Canonical(env.fs, Segments(p)) == [] && !AllSlashes(p)
    ensures IsAbs(q) && !GrantsExactlyBelow(env, p, function_, q)
  {
    var j := FreeName(env.fs, [], "", "", 0);
    NameOrdinary(j);
    assert "" + Name(j) + "" == Name(j) && [] + [Name(j)] == [Name(j)];
    FreeIsCanonical(env.fs, Name(j));
    q := Render([Name(j)]);
    AtPath(env.fs, [Name(j)]);
    RootIsStored(env.fs);
    PathReadGrants(env, p, function_, q);
  }

  /** The text of a canonical path leads where the path does. */
  lemma AtPath(fs: Fs, a: Path)
    requires IsPath(a)
    ensures IsAbs(Render(a)) && Segments(Render(a)) == a
  {
    SegmentsOfRender(a);
  }

  /** What is stored is not like the directory alone: then the directory itself, its parent part
      or another path that looks like it shows the difference. */
  lemma MistakenFails(env: Env, p: string, function_: string) returns (q: string)
    requires WellFormed(env.fs) && Lawful(env.glob) && PlainDir(p)
    requires var c := Canonical(env.fs, Segments(p));
      c != [] && IsStarless(StoredText(env.fs, c)) && !OnlyLike(env.fs, StoredDir(env.fs, c), c)
    ensures IsAbs(q) && !GrantsExactlyBelow(env, p, function_, q)
  {
    var c := Canonical(env.fs, Segments(p));
    if AllSlashes(p) {
      SlashesAreRoot(p);
    }
    if !CoveredBy(env.fs, c, c) {
      q := p;
      PathReadGrants(env, p, function_, p);
    } else {
      var a := LookAlike(env.fs, StoredDir(env.fs, c), Segments(p));
      q := Render(a);
      AtPath(env.fs, a);
      PathReadGrants(env, p, function_, q);
    }
  }

  /** If `dir` covers the canonical form of `b` without singling it out, it covers the canonical
      form of some path that is not below that. */
  lemma LookAlike(fs: Fs, dir: Path, b: Path) returns (a: Path)
    requires WellFormed(fs) && IsPath(b) && Covers(dir, Canonical(fs, b)) && !OnlyLike(fs, dir, Canonical(fs, b))
    ensures IsPath(a) && Covers(dir, Canonical(fs, a)) && !(Canonical(fs, b) <= Canonical(fs, a))
  {
    var c := Canonical(fs, b);
    CoversIsAlike(dir, c);
    if |dir| < |c| {
      a := PrefixIsCanonical(fs, b, |dir|);
    } else {
      assert c[..|c|] == c;
      a :| IsPath(a) && !(Alike(dir, Canonical(fs, a)) <==> Canonical(fs, a) == c);
    }
  }

  /** Where a character other than a slash stands in the text of a path. */
  lemma {:induction false} SegmentOf(c: Path, x: nat) returns (k: nat, i: nat)
    requires x < |Slashed(c)| && Slashed(c)[x] != '/'
    ensures k < |c| && i < |c[k]| && x == |Slashed(c[..k])| + 1 + i && c[k][i] == Slashed(c)[x]
  {
    var front := "/" + c[0];
    assert Slashed(c) == front + Slashed(c[1..]);
    if x < |front| {
      k, i := 0, x - 1;
    } else {
      k, i := SegmentOf(c[1..], x - |front|);
      k := k + 1;
      assert c[..k][1..] == c[1..][..k - 1] && Slashed(c[..k]) == front + Slashed(c[1..][..k - 1]);
    }
  }

  /** Replacing one character of a segment replaces it in the text. */
  lemma ReplacedText(c: Path, k: nat, i: nat, t: string)
    requires k < |c| && i < |c[k]|
    ensures var x := |Slashed(c[..k])| + 1 + i;
      && x < |Slashed(c)| && Slashed(c)[x] == c[k][i]
      && Slashed(c[k := c[k][..i] + t + c[k][i + 1..]]) == Slashed(c)[..x] + t + Slashed(c)[x + 1..]
  {
    var d, u, v := c[k := c[k][..i] + t + c[k][i + 1..]], Slashed(c[..k]), Slashed(c[k + 1..]);
    SlashedAt(c, k);
    SlashedAt(d, k);
    assert d[..k] == c[..k] && d[k + 1..] == c[k + 1..];
    AroundOne(u, c[k], v, i, t);
  }

  lemma AroundOne(u: string, s: string, v: string, i: nat, t: string)
    requires i < |s|
    ensures var all, x := u + ("/" + s + v), |u| + 1 + i;
      && all[x] == s[i]
      && u + ("/" + (s[..i] + t + s[i + 1..]) + v) == all[..x] + t + all[x + 1..]
  {
    var all, x := u + ("/" + s + v), |u| + 1 + i;
    assert all[..x] == u + "/" + s[..i];
    assert all[x + 1..] == s[i + 1..] + v;
  }

  lemma GlobGrants(env: Env, pattern: string, d: Path)
    requires Lawful(env.glob) && IsSimple(pattern) && WildMatches(pattern, Render(d))
    ensures PatternGrants(env, pattern, d)
  {
  }

  /** Filling a star with a free name gives a stable path that is granted but not below. */
  lemma StarSibling(env: Env, c: Path, k: nat, i: nat) returns (d: Path)
    requires WellFormed(env.fs) && Lawful(env.glob) && IsPath(c) && Canonical(env.fs, c) == c && IsSimple(Render(c))
    requires k < |c| && i < |c[k]| && c[k][i] == '*'
    ensures IsPath(d) && Canonical(env.fs, d) == d && PatternGrants(env, Render(c), d) && !(c <= d)
  {
    var j := FreeName(env.fs, c[..k], c[k][..i], c[k][i + 1..], 1);
    var name := c[k][..i] + Name(j) + c[k][i + 1..];
    d := c[k := name];
    FilledIsOrdinary(c[k], i, j);
    SiblingIsStable(env.fs, c, k, name);
    FilledMatches(c, k, i, j);
    GlobGrants(env, Render(c), d);
    LongerIsNotBelow(c, k, name);
  }

  lemma FilledMatches(c: Path, k: nat, i: nat, j: nat)
    requires k < |c| && i < |c[k]| && c[k][i] == '*'
    ensures WildMatches(Render(c), Render(c[k := c[k][..i] + Name(j) + c[k][i + 1..]]))
  {
    ReplacedText(c, k, i, Name(j));
    assert '/' !in Name(j);
    StarFills(Render(c), |Slashed(c[..k])| + 1 + i, Name(j));
  }

  lemma LongerIsNotBelow(c: Path, k: nat, name: string)
    requires k < |c| && |name| > |c[k]|
    ensures !(c <= c[k := name])
  {
    assert c[k := name][k] == name != c[k];
  }

  lemma FilledIsOrdinary(s: string, i: nat, j: nat)
    requires Ordinary(s) && i < |s| && j > 0
    ensures Ordinary(s[..i] + Name(j) + s[i + 1..])
  {
    var t := s[..i] + Name(j) + s[i + 1..];
    assert t[i] == Name(j)[0] == 'x';
  }

  lemma StarFails(env: Env, p: string, function_: string) returns (q: string)
    requires WellFormed(env.fs) && Lawful(env.glob) && PlainDir(p)
    requires var c := Canonical(env.fs, Segments(p));
      Canonical(env.fs, c) == c && IsSimple(Render(c)) && !IsStarless(Render(c))
    ensures IsAbs(q) && !GrantsExactlyBelow(env, p, function_, q)
  {
    var c := Canonical(env.fs, Segments(p));
    CanonicalIsPath(env.fs, Segments(p));
    var x :| 0 <= x < |Render(c)| && Render(c)[x] == '*';
    var k, i := SegmentOf(c, x);
    var d := StarSibling(env, c, k, i);
    q := Render(d);
    AtPath(env.fs, d);
    StableIsStored(env.fs, c);
    StoredGrants(env, p, function_, d);
  }

  /** What the rule for the directory itself matches is granted. */
  lemma StoredGrants(env: Env, p: string, function_: string, d: Path)
    requires WellFormed(env.fs) && PlainDir(p) && IsPath(d) && Canonical(env.fs, Segments(p)) != []
    requires PatternGrants(env, StoredText(env.fs, Canonical(env.fs, Segments(p))), Canonical(env.fs, d))
    ensures IsGranted(env, ReadRulesOf([p]), function_, Render(d))
  {
    if AllSlashes(p) {
      SlashesAreRoot(p);
    }
    AtPath(env.fs, d);
    TrimSlashesKeeps(p);
    TrimmedIsPlain(p);
    SegmentsTrimmed(p);
    StoredForDir(env.fs, TrimSlashes(p));
    PathReadGrantsPatterns(env, p, function_, Render(d));
  }

  /** A directory without wildcards that a second canonicalisation moves to one with stars: what
      it moves to is granted, and not below it. */
  lemma MovedFails(env: Env, p: string, function_: string) returns (q: string)
    requires WellFormed(env.fs) && Lawful(env.glob) && PlainDir(p)
    requires var c := Canonical(env.fs, Segments(p));
      IsLiteral(Render(c)) && Canonical(env.fs, c) != c && IsSimple(StoredText(env.fs, c))
    ensures IsAbs(q) && !GrantsExactlyBelow(env, p, function_, q)
  {
    var c := Canonical(env.fs, Segments(p));
    CanonicalIsPath(env.fs, Segments(p));
    LiteralIsStored(env.fs, c);
    WildMatchesItself(StoredText(env.fs, c));
    GlobGrants(env, StoredText(env.fs, c), Canonical(env.fs, c));
    NeverExtends(env.fs, c);
    RootIsStored(env.fs);
    q := Render(c);
    AtPath(env.fs, c);
    StoredGrants(env, p, function_, c);
  }

  /** Some witness for every way not to be safe. */
  lemma UnsafeFails(env: Env, p: string, function_: string) returns (q: string)
    requires WellFormed(env.fs) && Lawful(env.glob) && PlainDir(p)
    requires Decided(env.fs, Canonical(env.fs, Segments(p))) && !SafeToGrant(env.fs, p)
    ensures IsAbs(q) && !GrantsExactlyBelow(env, p, function_, q)
  {
    var c := Canonical(env.fs, Segments(p));
    CanonicalIsPath(env.fs, Segments(p));
    if c == [] {
      if AllSlashes(p) {
        WrittenRootIsSafe(env.fs, p);
      }
      q := RootFails(env, p, function_);
    } else if IsStarless(StoredText(env.fs, c)) {
      q := MistakenFails(env, p, function_);
    } else if Canonical(env.fs, c) == c {
      StableIsStored(env.fs, c);
      q := StarFails(env, p, function_);
    } else {
      q := MovedFails(env, p, function_);
    }
  }

  lemma WrittenRootIsSafe(fs: Fs, p: string)
    requires WellFormed(fs) && Canonical(fs, Segments(p)) == [] && AllSlashes(p)
    ensures SafeToGrant(fs, p)
  {
    RootIsStored(fs);
  }

  /** Grants respect segment boundaries, for every `q`, exactly when the directory is safe to
      grant. */
  lemma RespectsBoundariesIff(env: Env, p: string, function_: string)
    requires WellFormed(env.fs) && Lawful(env.glob) && PlainDir(p)
    ensures SafeToGrant(env.fs, p) ==> KeepsBoundary(env, p, function_)
    ensures Decided(env.fs, Canonical(env.fs, Segments(p))) ==>
      (KeepsBoundary(env, p, function_) <==> SafeToGrant(env.fs, p))
  {
    if SafeToGrant(env.fs, p) {
      forall q | IsAbs(q) ensures GrantsExactlyBelow(env, p, function_, q) {
        SafeHolds(env, p, function_, q);
      }
    } else if Decided(env.fs, Canonical(env.fs, Segments(p))) {
      var q := UnsafeFails(env, p, function_);
    }
  }

  /** For a canonical directory without special characters there are two things to look at: that
      canonicalising it again changes nothing, and that it does not merely resolve to the root. */
  lemma LiteralBoundariesIff(env: Env, p: string, function_: string)
    requires WellFormed(env.fs) && Lawful(env.glob) && PlainDir(p)
    requires var c := Canonical(env.fs, Segments(p)); IsLiteral(Render(c)) && IsSimple(Render(Canonical(env.fs, c)))
    ensures var c := Canonical(env.fs, Segments(p));
      KeepsBoundary(env, p, function_) <==> Canonical(env.fs, c) == c && (c != [] || AllSlashes(p))
  {
    LiteralSafeIff(env.fs, p, Canonical(env.fs, Segments(p)));
    RespectsBoundariesIff(env, p, function_);
  }

  lemma LiteralSafeIff(fs: Fs, p: string, c: Path)
    requires WellFormed(fs) && c == Canonical(fs, Segments(p))
    requires IsLiteral(Render(c)) && IsSimple(Render(Canonical(fs, c)))
    ensures Decided(fs, c)
    ensures SafeToGrant(fs, p) <==> Canonical(fs, c) == c && (c != [] || AllSlashes(p))
  {
    CanonicalIsPath(fs, Segments(p));
    LiteralIsStored(fs, c);
    LiteralOnlyIff(fs, c, Canonical(fs, c));
    StoredSafeIff(fs, c, Canonical(fs, c), AllSlashes(p));
  }

  lemma StoredSafeIff(fs: Fs, c: Path, twice: Path, written: bool)
    requires IsLiteral(Render(c)) && StoredText(fs, c) == Render(twice) && StoredDir(fs, c) == twice
    requires OnlyLike(fs, twice, c) <==> twice == c
    ensures SafeDir(fs, c, written) <==> twice == c && (c != [] || written)
  {
  }

  /** A text that is moved stands for something else; one that is not, and has no question marks,
      for itself only. */
  lemma LiteralOnlyIff(fs: Fs, c: Path, twice: Path)
    requires WellFormed(fs) && IsPath(c) && IsLiteral(Render(c)) && twice == Canonical(fs, c)
    ensures OnlyLike(fs, twice, c) <==> twice == c
  {
    if twice == c {
      LiteralIsAlone(fs, c);
    } else {
      AlikeItself(twice);
      assert Alike(twice, Canonical(fs, c)) && Canonical(fs, c) != c;
    }
  }

  /** Without question marks there is nothing to mistake. */
  lemma LiteralIsAlone(fs: Fs, c: Path)
    requires WellFormed(fs) && IsPath(c) && IsLiteral(Render(c))
    ensures OnlyLike(fs, c, c)
  {
    AlikeItself(c);
    forall a: Path | IsPath(a) && Alike(c, Canonical(fs, a)) ensures Canonical(fs, a) == c {
      CanonicalIsPath(fs, a);
      LiteralAlike(c, Canonical(fs, a));
    }
  }

  lemma LiteralAlike(c: Path, d: Path)
    requires IsPath(c) && IsPath(d) && IsLiteral(Render(c)) && Alike(c, d)
    ensures c == d
  {
    RenderLike(c, d);
    assert forall i :: 0 <= i < |Render(c)| ==> LikeChar(Render(c)[i], Render(d)[i]);
    assert Render(c) == Render(d);
    SegmentsOfRender(c);
    SegmentsOfRender(d);
  }

  // ---------------------------------------------------------------- where it fails

  /** For instance "/..", which no file system resolves to anything but the root. */
  lemma DotDotGrantsOnlyRoot(env: Env, function_: string)
    requires WellFormed(env.fs) && Lawful(env.glob)
    ensures PlainDir("/..") && Segments("/..") == []
    ensures !KeepsBoundary(env, "/..", function_)
  {
    DotDotIsRoot();
    var q := RootFails(env, "/..", function_);
  }

  lemma DotDotIsRoot()
    ensures PlainDir("/..") && Segments("/..") == [] && !AllSlashes("/..")
  {
    SplitPrefix("..", "");
    assert ".." + "" == ".." && "/.."[1..] == ".." && SplitSlash("") == [""];
    assert ["", ".."][1..] == [".."] && [".."][1..] == [];
    assert "/.."[1] == '.';
    ShorterHasNot("/..", "$CWD");
    ShorterHasNot("/..", "$HOME");
  }

  /** A link to a directory whose name holds a question mark. */
  const WILD_LINK: Fs := map[["l"] := Link(true, ["", "a?"]), ["a?"] := Directory]

  lemma WildLinkLeads()
    ensures WellFormed(WILD_LINK)
    ensures Canonical(WILD_LINK, ["l"]) == ["a?"] && Canonical(WILD_LINK, ["a?"]) == ["a?"]
  {
    LinkedDir(WILD_LINK, "l", "a?");
  }

  lemma LinkText(p: string)
    requires p == "/l"
    ensures PlainDir(p) && Segments(p) == ["l"]
  {
    AtPath(WILD_LINK, ["l"]);
    assert Render(["l"]) == p;
    ShorterHasNot(p, "$CWD");
    ShorterHasNot(p, "$HOME");
  }

  /** A link at the root to a directory at the root. */
  lemma LinkedDir(fs: Fs, link: string, dir: string)
    requires Ordinary(link) && Ordinary(dir)
    requires [link] in fs && fs[[link]] == Link(true, ["", dir]) && [dir] in fs && fs[[dir]] == Directory
    ensures Canonical(fs, [link]) == [dir] && Canonical(fs, [dir]) == [dir]
  {
    assert [link][1..] == [] && [] + [link] == [link] && ["", dir] + [] == ["", dir];
    assert ["", dir][1..] == [dir] && [dir][1..] == [] && [] + [dir] == [dir];
    assert Walk(fs, 0, [], [dir]) == Ok([dir], 0);
    assert Walk(fs, 1, [], [dir]) == Ok([dir], 1);
    assert Walk(fs, 1, [], ["", dir]) == Ok([dir], 1);
  }

  lemma WildDirCovers()
    ensures IsStarless(Render(["a?"])) && Covers(["a?"], ["ab", "x"]) && !(["a?"] <= ["ab", "x"])
  {
    assert Render(["a?"]) == "/a?";
    assert Like("a?", "ab");
    assert "a?"[1] != "ab"[1];
  }

  /** Granting the link grants the tree of every sibling with a name of that shape. */
  lemma WildLinkGrantsSiblings(env: Env, p: string, function_: string, q: string)
    requires Lawful(env.glob) && env.fs == WILD_LINK && p == "/l" && q == "/ab/x"
    ensures PlainDir(p) && IsGranted(env, ReadRulesOf([p]), function_, q) && !GrantsExactlyBelow(env, p, function_, q)
  {
    WildLinkLeads();
    LinkText(p);
    InsideLeads(q);
    WildDirCovers();
    CoveredOutside(env, p, function_, q);
  }

  /** What a stable directory covers without being above it is granted all the same. */
  lemma CoveredOutside(env: Env, p: string, function_: string, q: string)
    requires WellFormed(env.fs) && Lawful(env.glob) && PlainDir(p) && IsAbs(q)
    requires var c, d := Canonical(env.fs, Segments(p)), Canonical(env.fs, Segments(q));
      && Canonical(env.fs, c) == c && IsStarless(Render(c)) && c != []
      && Covers(c, d) && !(c <= d)
    ensures IsGranted(env, ReadRulesOf([p]), function_, q) && !GrantsExactlyBelow(env, p, function_, q)
  {
    CanonicalIsPath(env.fs, Segments(p));
    StableIsStored(env.fs, Canonical(env.fs, Segments(p)));
    PathReadGrants(env, p, function_, q);
  }

  lemma InsideLeads(q: string)
    requires q == "/ab/x"
    ensures IsAbs(q) && Canonical(WILD_LINK, Segments(q)) == ["ab", "x"]
  {
    AtPath(WILD_LINK, ["ab", "x"]);
    assert Slashed(["ab", "x"]) == q;
    UnlinkedIsCanonical();
  }

  lemma UnlinkedIsCanonical()
    ensures Canonical(WILD_LINK, ["ab", "x"]) == ["ab", "x"]
  {
    assert [] + ["ab"] == ["ab"] && Parent(["ab", "x"]) == ["ab"];
    FreeIsCanonical(WILD_LINK, "ab");
    assert EvalSymlinks(WILD_LINK, ["ab", "x"]) == NotFound;
    assert ["ab"] + ["x"] == ["ab", "x"];
  }
}
