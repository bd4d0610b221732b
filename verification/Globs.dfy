/** Recursive `**` globbing, libkite/permissions.go: matchSegments and the two forms of
    matchDoublestar. Matching one segment is filepath.Match, a parameter here. */
module Globs {
  import opened Common
  import opened Paths

  /** The result of filepath.Match; Bad is ErrBadPattern. */
  datatype GlobResult = Is(matched: bool) | Bad

  type Glob = (string, string) -> GlobResult

  predicate Contains(s: string, sub: string) {
    sub <= s || (s != "" && Contains(s[1..], sub))
  }

  /** strings.ReplaceAll for a non-empty `old`. */
  function ReplaceAll(s: string, what: string, with: string): string
    requires what != ""
    decreases |s|
  {
    if s == "" then ""
    else if what <= s then with + ReplaceAll(s[|what|..], what, with)
    else [s[0]] + ReplaceAll(s[1..], what, with)
  }

  lemma {:induction false} ReplaceNothing(s: string, what: string, with: string)
    requires what != "" && !Contains(s, what)
    ensures ReplaceAll(s, what, with) == s
  {
    if s != "" {
      ReplaceNothing(s[1..], what, with);
    }
  }

  /** One pattern segment against one path segment; a malformed pattern matches nothing. */
  predicate SegmentMatches(glob: Glob, pat: string, seg: string) {
    glob(ReplaceAll(pat, "**", "*"), seg) == Is(true)
  }

  // ---------------------------------------------------------------- what a match means

  /** `cuts[i]..cuts[i + 1]` is the run of path segments pattern segment `i` stands for: any
      run for `**`, exactly one matching segment otherwise. */
  ghost predicate Absorbs(glob: Glob, pat: seq<string>, path: seq<string>, cuts: seq<nat>) {
    && |cuts| == |pat| + 1 && cuts[0] == 0 && cuts[|pat|] == |path|
    && forall i :: 0 <= i < |pat| ==> AbsorbsAt(glob, pat[i], path, cuts[i], cuts[i + 1])
  }

  predicate AbsorbsAt(glob: Glob, p: string, path: seq<string>, lo: nat, hi: nat) {
    && lo <= hi <= |path|
    && (p == "**" || (hi == lo + 1 && SegmentMatches(glob, p, path[lo])))
  }

  ghost predicate Splits(glob: Glob, pat: seq<string>, path: seq<string>) {
    exists cuts :: Absorbs(glob, pat, path, cuts)
  }

  function Shift(cuts: seq<nat>, offset: nat): seq<nat> {
    seq(|cuts|, i requires 0 <= i < |cuts| => cuts[i] + offset)
  }

  /** The first run is `path[..lo]`, the rest of the pattern takes the rest. */
  lemma SplitsFront(glob: Glob, pat: seq<string>, path: seq<string>, lo: nat)
    requires pat != [] && AbsorbsAt(glob, pat[0], path, 0, lo) && Splits(glob, pat[1..], path[lo..])
    ensures Splits(glob, pat, path)
  {
    var rest :| Absorbs(glob, pat[1..], path[lo..], rest);
    var cuts := [0] + Shift(rest, lo);
    forall i | 0 <= i < |pat| ensures AbsorbsAt(glob, pat[i], path, cuts[i], cuts[i + 1]) {
      if i > 0 {
        assert AbsorbsAt(glob, pat[1..][i - 1], path[lo..], rest[i - 1], rest[i]);
      }
    }
    assert Absorbs(glob, pat, path, cuts);
  }

  /** And conversely every split begins with some first run. */
  lemma SplitsBack(glob: Glob, pat: seq<string>, path: seq<string>) returns (lo: nat)
    requires pat != [] && Splits(glob, pat, path)
    ensures AbsorbsAt(glob, pat[0], path, 0, lo) && Splits(glob, pat[1..], path[lo..])
  {
    var cuts :| Absorbs(glob, pat, path, cuts);
    lo := cuts[1];
    assert AbsorbsAt(glob, pat[0], path, cuts[0], cuts[1]);
    CutsIncrease(glob, pat, path, cuts, 1);
    var rest := seq(|pat|, i requires 0 <= i < |pat| => cuts[i + 1] - lo);
    forall i | 0 <= i < |pat| - 1 ensures AbsorbsAt(glob, pat[1..][i], path[lo..], rest[i], rest[i + 1]) {
      assert AbsorbsAt(glob, pat[i + 1], path, cuts[i + 1], cuts[i + 2]);
    }
    assert Absorbs(glob, pat[1..], path[lo..], rest);
  }

  lemma {:induction false} CutsIncrease(glob: Glob, pat: seq<string>, path: seq<string>, cuts: seq<nat>, from: nat)
    requires Absorbs(glob, pat, path, cuts) && from < |cuts|
    ensures forall i :: from <= i < |cuts| ==> cuts[from] <= cuts[i]
    decreases |cuts| - from
  {
    if from + 1 < |cuts| {
      assert AbsorbsAt(glob, pat[from], path, cuts[from], cuts[from + 1]);
      CutsIncrease(glob, pat, path, cuts, from + 1);
    }
  }

  lemma SplitsEmpty(glob: Glob, path: seq<string>)
    ensures Splits(glob, [], path) <==> path == []
  {
    if path == [] {
      assert Absorbs(glob, [], path, [0]);
    }
  }

  lemma SplitsSegment(glob: Glob, pat: seq<string>, path: seq<string>)
    requires pat != [] && pat[0] != "**"
    ensures Splits(glob, pat, path)
       <==> path != [] && SegmentMatches(glob, pat[0], path[0]) && Splits(glob, pat[1..], path[1..])
  {
    if Splits(glob, pat, path) {
      var lo := SplitsBack(glob, pat, path);
    }
    if path != [] && SegmentMatches(glob, pat[0], path[0]) && Splits(glob, pat[1..], path[1..]) {
      SplitsFront(glob, pat, path, 1);
    }
  }

  lemma SplitsStar(glob: Glob, pat: seq<string>, path: seq<string>)
    requires pat != [] && pat[0] == "**"
    ensures Splits(glob, pat, path) <==> exists i :: 0 <= i <= |path| && Splits(glob, pat[1..], path[i..])
  {
    if Splits(glob, pat, path) {
      var lo := SplitsBack(glob, pat, path);
    }
    if i :| 0 <= i <= |path| && Splits(glob, pat[1..], path[i..]) {
      SplitsFront(glob, pat, path, i);
    }
  }

  /** A repeated `**` says no more than one. */
  lemma SplitsCollapse(glob: Glob, pat: seq<string>, path: seq<string>)
    requires |pat| > 1 && pat[0] == pat[1] == "**"
    ensures Splits(glob, pat, path) <==> Splits(glob, pat[1..], path)
  {
    if Splits(glob, pat, path) {
      var i := SplitsBack(glob, pat, path);
      var j := SplitsBack(glob, pat[1..], path[i..]);
      assert path[i..][j..] == path[i + j..];
      assert AbsorbsAt(glob, pat[1..][0], path, 0, i + j);
      SplitsFront(glob, pat[1..], path, i + j);
    }
    if Splits(glob, pat[1..], path) {
      assert path[0..] == path;
      SplitsFront(glob, pat, path, 0);
    }
  }

  // ---------------------------------------------------------------- the matcher

  /** matchSegments: true iff the path splits along the pattern. */
  method MatchSegments(glob: Glob, pat: seq<string>, path: seq<string>) returns (b: bool)
    ensures b <==> Splits(glob, pat, path)
    decreases |pat|
  {
    var patSegs, pathSegs := pat, path;
    while |patSegs| > 0
      invariant |patSegs| <= |pat|
      invariant Splits(glob, pat, path) <==> Splits(glob, patSegs, pathSegs)
      decreases |patSegs|
    {
      if patSegs[0] == "**" {
        while |patSegs| > 1 && patSegs[1] == "**"
          invariant 0 < |patSegs| <= |pat| && patSegs[0] == "**"
          invariant Splits(glob, pat, path) <==> Splits(glob, patSegs, pathSegs)
          decreases |patSegs|
        {
          SplitsCollapse(glob, patSegs, pathSegs);
          patSegs := patSegs[1..];
        }
        SplitsStar(glob, patSegs, pathSegs);
        if |patSegs| == 1 {
          SplitsEmpty(glob, pathSegs[|pathSegs|..]);
          assert patSegs[1..] == [];
          assert Splits(glob, patSegs[1..], pathSegs[|pathSegs|..]);
          return true;
        }
        for i := 0 to |pathSegs| + 1
          invariant forall k :: 0 <= k < i ==> !Splits(glob, patSegs[1..], pathSegs[k..])
        {
          var found := MatchSegments(glob, patSegs[1..], pathSegs[i..]);
          if found {
            return true;
          }
        }
        return false;
      }
      SplitsSegment(glob, patSegs, pathSegs);
      if |pathSegs| == 0 {
        return false;
      }
      var segPat := ReplaceAll(patSegs[0], "**", "*");
      if glob(segPat, pathSegs[0]) != Is(true) {
        return false;
      }
      patSegs, pathSegs := patSegs[1..], pathSegs[1..];
    }
    SplitsEmpty(glob, pathSegs);
    b := |pathSegs| == 0;
  }

  // ---------------------------------------------------------------- whole patterns

  /** The fast path's condition: `**` after a prefix that is not a directory and not a glob. */
  predicate IsPlainPrefix(pattern: string) {
    && HasSuffix(pattern, "**")
    && var before := pattern[..|pattern| - 2];
       !HasSuffix(before, "/") && forall c :: c in before ==> c !in {'*', '?', '['}
  }

  /** What both forms of matchDoublestar compute for a pattern other than a bare `**`. */
  ghost predicate DoublestarMatches(glob: Glob, pattern: string, path: string) {
    if IsPlainPrefix(pattern) then HasPrefix(path, pattern[..|pattern| - 2])
    else Splits(glob, SplitSlash(pattern), SplitSlash(path))
  }

  lemma EndsInSlash(a: string)
    ensures HasSuffix(a, "/") <==> a != "" && a[|a| - 1] == '/'
  {
    if a != "" {
      assert a[|a| - 1..] == [a[|a| - 1]];
    }
  }

  predicate HasWildcard(a: string) {
    exists i :: 0 <= i < |a| && (a[i] == '*' || a[i] == '?' || a[i] == '[')
  }

  lemma WildcardIsIn(a: string)
    ensures HasWildcard(a) <==> exists c :: c in a && c in {'*', '?', '['}
  {
    if i :| 0 <= i < |a| && (a[i] == '*' || a[i] == '?' || a[i] == '[') {
      assert a[i] in a && a[i] in {'*', '?', '['};
    }
  }

  /** Two stars after text that is no directory and has no wildcards extend that text, whatever
      follows, slashes included; after any other text they are a segment among others. */
  lemma FinalStars(glob: Glob, a: string, pattern: string, path: string)
    requires pattern == a + "**"
    ensures DoublestarMatches(glob, pattern, path)
       <==> if (a != "" && a[|a| - 1] == '/') || HasWildcard(a) then Splits(glob, SplitSlash(pattern), SplitSlash(path))
            else a <= path
  {
    assert pattern[..|pattern| - 2] == a && pattern[|pattern| - 2..] == "**";
    EndsInSlash(a);
    WildcardIsIn(a);
  }

  lemma NoFinalStars(glob: Glob, pattern: string, path: string)
    requires !HasSuffix(pattern, "**")
    ensures DoublestarMatches(glob, pattern, path) <==> Splits(glob, SplitSlash(pattern), SplitSlash(path))
  {
  }

  method MatchDoublestar(glob: Glob, pattern: string, path: string) returns (b: bool)
    ensures b <==> pattern == "**" || DoublestarMatches(glob, pattern, path)
  {
    if pattern == "**" {
      return true;
    }
    if IsPlainPrefix(pattern) {
      return HasPrefix(path, pattern[..|pattern| - 2]);
    }
    b := MatchSegments(glob, SplitSlash(pattern), SplitSlash(path));
  }

  method MatchDoublestarPrecompiled(glob: Glob, pattern: string, patSegs: seq<string>, path: string) returns (b: bool)
    requires patSegs == SplitSlash(pattern)
    ensures b <==> DoublestarMatches(glob, pattern, path)
  {
    if IsPlainPrefix(pattern) {
      return HasPrefix(path, pattern[..|pattern| - 2]);
    }
    b := MatchSegments(glob, patSegs, SplitSlash(path));
  }

  // ---------------------------------------------------------------- the meaning of simple patterns

  /** No character class and no escape. */
  predicate IsSimple(p: string) {
    forall i :: 0 <= i < |p| ==> p[i] != '[' && p[i] != '\\'
  }

  predicate IsStarless(p: string) {
    forall i :: 0 <= i < |p| ==> p[i] != '[' && p[i] != '\\' && p[i] != '*'
  }

  predicate IsLiteral(s: string) {
    forall i :: 0 <= i < |s| ==> s[i] != '[' && s[i] != '\\' && s[i] != '*' && s[i] != '?'
  }

  /** strings.Contains. */
  lemma {:induction false} ContainsIs(s: string, sub: string)
    ensures Contains(s, sub) <==> exists i :: 0 <= i <= |s| && sub <= s[i..]
  {
    if s == "" {
      assert s[0..] == s;
    } else {
      ContainsIs(s[1..], sub);
      assert s[0..] == s;
      forall i | 0 <= i <= |s[1..]| ensures s[1..][i..] == s[i + 1..] {
      }
      if i :| 0 <= i <= |s| && sub <= s[i..] {
        assert i > 0 ==> sub <= s[1..][i - 1..];
      }
      if i :| 0 <= i <= |s[1..]| && sub <= s[1..][i..] {
        assert sub <= s[i + 1..];
      }
    }
  }

  /** What filepath.Match documents for such patterns: `*` is any text without a slash, `?` any
      character but a slash, and every other character itself. */
  predicate WildMatches(p: string, s: string)
    decreases |p| + |s|
  {
    if p == "" then s == ""
    else if p[0] == '*' then WildMatches(p[1..], s) || (s != "" && s[0] != '/' && WildMatches(p, s[1..]))
    else s != "" && LikeChar(p[0], s[0]) && WildMatches(p[1..], s[1..])
  }

  predicate LikeChar(p: char, c: char) {
    p == c || (p == '?' && c != '/')
  }

  /** All that is assumed of filepath.Match. */
  ghost predicate Lawful(glob: Glob) {
    forall p, s :: IsSimple(p) ==> glob(p, s) == Is(WildMatches(p, s))
  }

  /** A pattern without stars matches character by character. */
  predicate Like(p: string, s: string) {
    |p| == |s| && forall i :: 0 <= i < |p| ==> LikeChar(p[i], s[i])
  }

  lemma {:induction false} StarlessMatches(p: string, s: string)
    requires IsStarless(p)
    ensures WildMatches(p, s) <==> Like(p, s)
  {
    if p != "" && s != "" {
      StarlessMatches(p[1..], s[1..]);
      LikeCons(p, s);
    }
  }

  lemma LikeCons(p: string, s: string)
    requires p != "" && s != ""
    ensures Like(p, s) <==> LikeChar(p[0], s[0]) && Like(p[1..], s[1..])
  {
    if Like(p, s) {
      forall i | 0 <= i < |p[1..]| ensures LikeChar(p[1..][i], s[1..][i]) {
        assert LikeChar(p[i + 1], s[i + 1]);
      }
    }
    if LikeChar(p[0], s[0]) && Like(p[1..], s[1..]) {
      forall i | 0 <= i < |p| ensures LikeChar(p[i], s[i]) {
        if i > 0 {
          assert LikeChar(p[1..][i - 1], s[1..][i - 1]);
        }
      }
    }
  }

  /** Text that is like `p`, then anything without a slash. */
  predicate LikeThen(p: string, s: string) {
    |p| <= |s| && Like(p, s[..|p|]) && '/' !in s[|p|..]
  }

  /** Stars alone match any text without a slash. */
  lemma {:induction false} StarsMatch(p: string, s: string)
    requires p != "" && forall i :: 0 <= i < |p| ==> p[i] == '*'
    ensures WildMatches(p, s) <==> '/' !in s
    decreases |p| + |s|
  {
    if |p| > 1 {
      StarsMatch(p[1..], s);
    }
    if s != "" {
      StarsMatch(p, s[1..]);
      assert s == [s[0]] + s[1..];
    }
  }

  lemma {:induction false} StarsAfter(p: string, s: string)
    requires IsStarless(p)
    ensures WildMatches(p + "**", s) <==> LikeThen(p, s)
  {
    if p == "" {
      assert s[..0] == "" && s[0..] == s;
      StarsMatch(p + "**", s);
    } else {
      assert (p + "**")[1..] == p[1..] + "**";
      if s != "" {
        StarsAfter(p[1..], s[1..]);
        LikeThenCons(p, s);
      }
    }
  }

  lemma LikeThenCons(p: string, s: string)
    requires p != "" && s != ""
    ensures LikeThen(p, s) <==> LikeChar(p[0], s[0]) && LikeThen(p[1..], s[1..])
  {
    if |p| <= |s| {
      LikeCons(p, s[..|p|]);
      assert s[..|p|][1..] == s[1..][..|p[1..]|] && s[|p|..] == s[1..][|p[1..]|..];
    }
  }

  lemma {:induction false} WildMatchesItself(p: string)
    ensures WildMatches(p, p)
  {
    if p != "" {
      WildMatchesItself(p[1..]);
      if p[0] == '*' {
        SkipOne(p, p);
      }
    }
  }

  /** A leading star may stand for one character. */
  lemma SkipOne(p: string, s: string)
    requires p != "" && s != "" && p[0] == '*' && s[0] != '/' && WildMatches(p[1..], s[1..])
    ensures WildMatches(p, s)
  {
    assert WildMatches(p, s[1..]);
  }

  lemma {:induction false} LeadingStarFills(p: string, t: string)
    requires p != "" && p[0] == '*' && '/' !in t
    ensures WildMatches(p, t + p[1..])
    decreases |t|
  {
    if t == "" {
      WildMatchesItself(p[1..]);
      assert t + p[1..] == p[1..];
    } else {
      LeadingStarFills(p, t[1..]);
      assert (t + p[1..])[1..] == t[1..] + p[1..];
    }
  }

  /** A star may stand for any text without a slash, while the rest matches itself. */
  lemma {:induction false} StarFills(p: string, i: nat, t: string)
    requires i < |p| && p[i] == '*' && '/' !in t
    ensures WildMatches(p, p[..i] + t + p[i + 1..])
  {
    var s := p[..i] + t + p[i + 1..];
    if i == 0 {
      LeadingStarFills(p, t);
      assert s == t + p[1..];
    } else {
      StarFills(p[1..], i - 1, t);
      assert s[1..] == p[1..][..i - 1] + t + p[1..][i..];
      if p[0] == '*' {
        SkipOne(p, s);
      }
    }
  }
}
