/** Rules for absolute path patterns in libkite/permissions.go: the pattern a rule is stored with,
    canonicalised once when it is compiled and once more when it is matched, and what the stored
    patterns of a directory match. */
module GrantPatterns {
  import opened Common
  import opened Paths
  import opened Globs
  import opened Permissions

  predicate NoVariables(s: string) {
    !Contains(s, "$CWD") && !Contains(s, "$HOME")
  }

  /** Segment by segment, up to the question marks of `c`. */
  predicate Alike(c: seq<string>, d: seq<string>) {
    |c| == |d| && forall i :: 0 <= i < |c| ==> Like(c[i], d[i])
  }

  predicate Covers(c: seq<string>, d: seq<string>) {
    |c| <= |d| && forall i :: 0 <= i < |c| ==> Like(c[i], d[i])
  }

  // ---------------------------------------------------------------- compiling a path rule

  lemma AbsoluteIsNoFuncList(inner: string)
    requires IsAbs(inner)
    ensures SplitFuncsAndResource(inner) == (None, inner)
  {
    var k := Find(inner, ':');
    if k < |inner| {
      var before := inner[..k];
      assert before[0] == '/';
      var first := SplitCommas(before)[0];
      assert first in SplitCommas(before);
      assert first != "" && first[0] == '/';
    }
  }

  lemma {:induction false} ContainsFront(s: string, t: string, w: string)
    requires Contains(s, w)
    ensures Contains(s + t, w)
  {
    if !(w <= s) {
      assert (s + t)[1..] == s[1..] + t;
      ContainsFront(s[1..], t, w);
    }
  }

  lemma {:induction false} ShorterHasNot(t: string, w: string)
    requires |t| < |w|
    ensures !Contains(t, w)
  {
    if t != "" {
      ShorterHasNot(t[1..], w);
    }
  }

  lemma ReachesAcross(s: string, t: string, w: string)
    requires w <= s + t && t != "" && |w| > |s|
    ensures t[0] in w
  {
    assert w[|s|] == (s + t)[|s|];
  }

  /** What is in neither part, and lacks the character between them, is not in the whole. */
  lemma {:induction false} ContainsWhere(s: string, t: string, w: string)
    requires t != "" && t[0] !in w
    ensures Contains(s + t, w) ==> Contains(s, w) || Contains(t, w)
  {
    if s == "" {
      assert s + t == t;
    } else {
      assert (s + t)[1..] == s[1..] + t;
      ContainsWhere(s[1..], t, w);
      if w <= s + t && |w| > |s| {
        ReachesAcross(s, t, w);
      }
    }
  }

  lemma NoVariablesBelow(dir: string)
    requires NoVariables(dir)
    ensures NoVariables(dir + "/**")
  {
    assert "/**"[0] == '/';
    ContainsWhere(dir, "/**", "$CWD");
    ContainsWhere(dir, "/**", "$HOME");
    ShorterHasNot("/**", "$CWD");
    ShorterHasNot("/**", "$HOME");
  }

  lemma NoVariablesInFront(s: string, t: string)
    requires NoVariables(s + t)
    ensures NoVariables(s)
  {
    if Contains(s, "$CWD") {
      ContainsFront(s, t, "$CWD");
    }
    if Contains(s, "$HOME") {
      ContainsFront(s, t, "$HOME");
    }
  }

  /** A rule for an absolute pattern is stored with its canonical form. */
  lemma CompilePathRule(env: Env, inner: string)
    requires IsAbs(inner) && NoVariables(inner) && CanonicalizePattern(env.fs, inner) != ""
    ensures var res := CanonicalizePattern(env.fs, inner);
      && Compile(env, Scoped("fs", "read", inner)).Some?
      && var r := Compile(env, Scoped("fs", "read", inner)).value;
         r.mod == "fs" && r.category == "read" && r.functions == None && r.resource == res
  {
    AbsoluteIsNoFuncList(inner);
    ScopedParses(env.fs, "fs", "read", inner);
    NothingExpands(env, inner);
  }

  lemma NothingExpands(env: Env, s: string)
    requires NoVariables(s)
    ensures Expand(env, s) == s
  {
    ReplaceNothing(s, "$CWD", env.cwd);
    ReplaceNothing(s, "$HOME", env.home);
  }

  lemma {:induction false} FirstMetaIs(s: string, k: nat)
    requires k <= |s| && (forall i :: 0 <= i < k ==> !IsMeta(s[i])) && (k < |s| ==> IsMeta(s[k]))
    ensures FirstMeta(s) == k
  {
    var f := FirstMeta(s);
  }

  /** canonicalizePattern of a directory, and of everything below it. */
  lemma CanonicalizeLiteral(fs: Fs, dir: string)
    requires IsAbs(dir) && IsLiteral(dir)
    ensures CanonicalizePattern(fs, dir) == CanonicalizePath(fs, dir)
    ensures CanonicalizePattern(fs, dir + "/**") == CanonicalizePath(fs, dir) + "/**"
  {
    FirstMetaIs(dir, |dir|);
    var below := dir + "/**";
    FirstMetaIs(below, |dir| + 1);
    assert below[..|dir| + 1] == dir + "/";
    var k := LastSlash(dir + "/");
    assert (dir + "/")[|dir|] == '/';
    assert k == |dir|;
    assert below[..|dir|] == dir && below[|dir|..] == "/**";
  }

  lemma CanonicalStaysAbs(fs: Fs, pattern: string)
    requires IsAbs(pattern)
    ensures IsAbs(CanonicalizePattern(fs, pattern))
  {
  }

  /** Matching canonicalises the stored pattern once more. */
  function StoredPattern(fs: Fs, pattern: string): string {
    CanonicalizePattern(fs, CanonicalizePattern(fs, pattern))
  }

  ghost predicate RuleMatchesAt(env: Env, rule: string, function_: string, d: Path) {
    var r := Compile(env, rule);
    r.Some? && RuleMatches(env, r.value, "fs", "read", function_, Render(d))
  }

  ghost predicate PatternGrants(env: Env, pattern: string, d: Path) {
    PatternMatches(env, "fs", "read", pattern, true, Render(d))
  }

  /** A rule for an absolute pattern matches what its stored pattern matches. */
  lemma RuleIsItsPattern(env: Env, inner: string, function_: string, d: Path)
    requires IsAbs(inner) && NoVariables(inner)
    ensures RuleMatchesAt(env, Scoped("fs", "read", inner), function_, d)
       <==> PatternGrants(env, StoredPattern(env.fs, inner), d)
  {
    CanonicalStaysAbs(env.fs, inner);
    CompilePathRule(env, inner);
  }

  // ---------------------------------------------------------------- the stored patterns of a directory

  lemma {:induction false} SlashedAt(c: Path, k: nat)
    requires k < |c|
    ensures Slashed(c) == Slashed(c[..k]) + ("/" + c[k] + Slashed(c[k + 1..]))
  {
    if k > 0 {
      SlashedAt(c[1..], k - 1);
      assert c[..k][1..] == c[1..][..k - 1] && c[k + 1..] == c[1..][k..];
    }
  }

  /** canonicalizePattern where the first wildcard is at `idx`. */
  lemma MetaPattern(fs: Fs, pattern: string, idx: nat)
    requires IsAbs(pattern) && FirstMeta(pattern) == idx < |pattern|
    ensures var slash := LastSlash(pattern[..idx]);
      CanonicalizePattern(fs, pattern)
      == if slash <= 0 then pattern else CanonicalizePath(fs, pattern[..slash]) + pattern[slash..]
  {
  }

  lemma BelowWithoutMeta(fs: Fs, text: string, stars: string)
    requires IsAbs(text) && FirstMeta(text) == |text| && stars == "/**"
    ensures CanonicalizePattern(fs, text + stars) == CanonicalizePath(fs, text) + stars
  {
    var below := text + stars;
    FirstMetaIs(below, |text| + 1);
    MetaPattern(fs, below, |text| + 1);
    SlashThenLast(text);
    assert below[..|text| + 1] == text + "/" && below[..|text|] == text && below[|text|..] == stars;
  }

  lemma SlashThenLast(text: string)
    ensures LastSlash(text + "/") == |text|
  {
    assert (text + "/")[|text|] == '/';
  }

  lemma Rejoined(text: string, k: nat, t: string)
    requires k <= |text|
    ensures (text + t)[..k] == text[..k] && text[..k] + text[k..] == text
    ensures (text + t)[k..] == text[k..] + t
  {
  }

  lemma Regrouped(a: string, b: string, c: string)
    ensures a + b + c == a + (b + c)
  {
  }

  /** How many segments begin and end before position `j` of the text of `c`. */
  function SegmentsBefore(c: Path, j: int): (k: nat)
    ensures k <= |c|
  {
    if c == [] || j <= |c[0]| then 0 else 1 + SegmentsBefore(c[1..], j - 1 - |c[0]|)
  }

  /** How many segments canonicalizePattern resolves: those before the first wildcard. */
  function Resolved(c: Path): (k: nat)
    ensures k <= |c|
  {
    var text := Render(c);
    var idx := FirstMeta(text);
    if idx == |text| then |c| else SegmentsBefore(c, LastSlash(text[..idx]))
  }

  /** What canonicalizePattern makes of a directory. */
  function StoredText(fs: Fs, c: Path): string {
    var k := Resolved(c);
    if k == 0 then Render(c) else Render(Canonical(fs, c[..k])) + Slashed(c[k..])
  }

  function StoredDir(fs: Fs, c: Path): Path {
    var k := Resolved(c);
    Canonical(fs, c[..k]) + c[k..]
  }

  /** What is resolved is the root, and the text gets a second slash. */
  predicate Collapses(fs: Fs, c: Path) {
    var k := Resolved(c);
    0 < k < |c| && Canonical(fs, c[..k]) == []
  }

  lemma {:induction false} SlashedConcat(a: Path, b: Path)
    ensures Slashed(a + b) == Slashed(a) + Slashed(b)
  {
    if a == [] {
      assert a + b == b;
    } else {
      assert (a + b)[1..] == a[1..] + b;
      SlashedConcat(a[1..], b);
    }
  }

  /** Unless it collapses, the stored text is that of a path. */
  lemma StoredTextIs(fs: Fs, c: Path)
    requires WellFormed(fs) && IsPath(c)
    ensures IsPath(StoredDir(fs, c))
    ensures StoredText(fs, c) == if Collapses(fs, c) then "/" + Slashed(c[Resolved(c)..]) else Render(StoredDir(fs, c))
  {
    var k := Resolved(c);
    CanonicalIsPath(fs, c[..k]);
    SlashedConcat(Canonical(fs, c[..k]), c[k..]);
    if k == 0 {
      assert c[..0] == [] && [] + c[0..] == c;
    }
    if k == |c| {
      assert Canonical(fs, c[..k]) + c[k..] == Canonical(fs, c[..k]);
    }
  }

  lemma InsideSegment(c: Path, j: nat)
    requires IsPath(c) && c != [] && 0 < j <= |c[0]|
    ensures Slashed(c)[j] == c[0][j - 1]
  {
  }

  /** A slash in the text of a path is where a segment begins. */
  lemma {:induction false} SlashStarts(c: Path, j: nat)
    requires IsPath(c) && j < |Slashed(c)| && Slashed(c)[j] == '/'
    ensures var k := SegmentsBefore(c, j);
      k < |c| && (k == 0 <==> j == 0) && Slashed(c)[..j] == Slashed(c[..k]) && Slashed(c)[j..] == Slashed(c[k..])
  {
    if j == 0 {
      assert c[0..] == c && Slashed(c)[0..] == Slashed(c);
    } else {
      var front, rest := "/" + c[0], Slashed(c[1..]);
      assert Slashed(c) == front + rest;
      if j <= |c[0]| {
        InsideSegment(c, j);
      }
      SlashStarts(c[1..], j - |front|);
      var k := SegmentsBefore(c[1..], j - |front|);
      assert c[..k + 1][1..] == c[1..][..k] && c[k + 1..] == c[1..][k..];
      assert (front + rest)[..j] == front + rest[..j - |front|] && (front + rest)[j..] == rest[j - |front|..];
    }
  }

  lemma FirstSlash(text: string, idx: nat)
    requires IsAbs(text) && 0 < idx <= |text|
    ensures 0 <= LastSlash(text[..idx]) < idx && text[LastSlash(text[..idx])] == '/'
  {
    assert text[..idx][0] == '/';
  }

  /** canonicalizePattern on a directory and on everything below it, wildcards or not. */
  lemma StoredIs(fs: Fs, c: Path, stars: string)
    requires IsPath(c) && stars == "/**"
    ensures CanonicalizePattern(fs, Render(c)) == StoredText(fs, c)
    ensures CanonicalizePattern(fs, Render(c) + stars) == StoredText(fs, c) + stars
  {
    var text := Render(c);
    var idx := FirstMeta(text);
    if idx == |text| {
      SegmentsOfRender(c);
      WholeText(fs, c);
      BelowWithoutMeta(fs, text, stars);
    } else {
      assert IsAbs(text);
      FirstSlash(text, idx);
      var slash := LastSlash(text[..idx]);
      MetaPattern(fs, text, idx);
      StoredWithMeta(fs, c, slash);
      FirstMetaIs(text + stars, idx);
      MetaPattern(fs, text + stars, idx);
      Rejoined(text, idx, stars);
      Rejoined(text, slash, stars);
      Regrouped(CanonicalizePath(fs, text[..slash]), text[slash..], stars);
    }
  }

  lemma WholeText(fs: Fs, c: Path)
    requires IsPath(c) && Resolved(c) == |c|
    ensures StoredText(fs, c) == Render(Canonical(fs, c))
  {
    assert c[..|c|] == c && Slashed(c[|c|..]) == "";
    assert Render(Canonical(fs, c)) + "" == Render(Canonical(fs, c));
  }

  lemma StoredWithMeta(fs: Fs, c: Path, slash: nat)
    requires IsPath(c) && FirstMeta(Render(c)) < |Render(c)| && slash == LastSlash(Render(c)[..FirstMeta(Render(c))])
    requires Render(c)[slash] == '/'
    ensures StoredText(fs, c)
         == if slash == 0 then Render(c) else CanonicalizePath(fs, Render(c)[..slash]) + Render(c)[slash..]
  {
    FirstMetaIs("/", 1);
    SlashStarts(c, slash);
    SegmentsOfRender(c[..Resolved(c)]);
  }

  /** The patterns stored for a literal directory and for everything below it. */
  lemma StoredForDir(fs: Fs, dir: string)
    requires WellFormed(fs) && IsAbs(dir) && IsLiteral(dir)
    ensures var text := StoredText(fs, Canonical(fs, Segments(dir)));
      StoredPattern(fs, dir) == text && StoredPattern(fs, dir + "/**") == text + "/**"
  {
    CanonicalIsPath(fs, Segments(dir));
    CanonicalizeLiteral(fs, dir);
    StoredIs(fs, Canonical(fs, Segments(dir)), "/**");
  }

  /** A stable directory is stored as it is. */
  lemma StableIsStored(fs: Fs, c: Path)
    requires WellFormed(fs) && IsPath(c) && Canonical(fs, c) == c
    ensures StoredDir(fs, c) == c && StoredText(fs, c) == Render(c) && !Collapses(fs, c)
  {
    StableStoredDir(fs, c);
    StoredTextIs(fs, c);
  }

  lemma StableStoredDir(fs: Fs, c: Path)
    requires WellFormed(fs) && IsPath(c) && Canonical(fs, c) == c
    ensures StoredDir(fs, c) == c && !Collapses(fs, c)
  {
    var k := Resolved(c);
    PrefixIsStable(fs, c, k);
    assert c[..k] + c[k..] == c;
  }

  /** And one without wildcards is resolved as a whole. */
  lemma LiteralIsStored(fs: Fs, c: Path)
    requires WellFormed(fs) && IsPath(c) && IsLiteral(Render(c))
    ensures StoredDir(fs, c) == Canonical(fs, c) && StoredText(fs, c) == Render(Canonical(fs, c)) && !Collapses(fs, c)
  {
    FirstMetaIs(Render(c), |Render(c)|);
    WholeText(fs, c);
    assert c[..|c|] == c && Canonical(fs, c) + c[|c|..] == Canonical(fs, c);
  }

  // ---------------------------------------------------------------- matching a stored directory

  lemma StarlessHasNoStars(s: string)
    requires IsStarless(s)
    ensures s != "**" && !("**" <= s)
  {
    assert "**"[0] == '*';
    assert s != "" ==> s[0] != '*';
  }

  lemma {:induction false} NoStars(s: string)
    requires IsStarless(s)
    ensures !Contains(s, "**")
  {
    StarlessHasNoStars(s);
    if s != "" {
      NoStars(s[1..]);
    }
  }

  lemma StarlessSegment(glob: Glob, p: string, s: string)
    requires Lawful(glob) && IsStarless(p)
    ensures SegmentMatches(glob, p, s) <==> Like(p, s)
  {
    NoStars(p);
    ReplaceNothing(p, "**", "*");
    StarlessMatches(p, s);
  }

  /** Starless segments followed by `**` match exactly the paths they cover. */
  lemma {:induction false} SplitsPrefix(glob: Glob, c: seq<string>, d: seq<string>)
    requires Lawful(glob) && forall i :: 0 <= i < |c| ==> IsStarless(c[i])
    ensures Splits(glob, c + ["**"], d) <==> Covers(c, d)
  {
    var pat := c + ["**"];
    if c == [] {
      SplitsStar(glob, pat, d);
      SplitsEmpty(glob, d[|d|..]);
      assert pat[1..] == [];
      assert Splits(glob, pat[1..], d[|d|..]);
    } else {
      StarlessHasNoStars(c[0]);
      SplitsSegment(glob, pat, d);
      assert pat[1..] == c[1..] + ["**"];
      if d != [] {
        StarlessSegment(glob, c[0], d[0]);
        SplitsPrefix(glob, c[1..], d[1..]);
        CoversCons(c, d);
      }
    }
  }

  lemma CoversCons(c: seq<string>, d: seq<string>)
    requires c != [] && d != []
    ensures Covers(c, d) <==> Like(c[0], d[0]) && Covers(c[1..], d[1..])
  {
    if Covers(c, d) {
      forall i | 0 <= i < |c[1..]| ensures Like(c[1..][i], d[1..][i]) {
        assert Like(c[i + 1], d[i + 1]);
      }
    }
    if Like(c[0], d[0]) && Covers(c[1..], d[1..]) {
      forall i | 0 <= i < |c| ensures Like(c[i], d[i]) {
        if i > 0 {
          assert Like(c[1..][i - 1], d[1..][i - 1]);
        }
      }
    }
  }

  lemma {:induction false} ContainsStars(s: string)
    ensures Contains(s + "**", "**")
  {
    if s == "" {
      assert s + "**" == "**";
    } else {
      assert (s + "**")[1..] == s[1..] + "**";
      ContainsStars(s[1..]);
    }
  }

  /** The text of a path splits back into it, after an empty first segment. */
  lemma SplitRender(d: Path)
    requires IsPath(d)
    ensures SplitSlash(Render(d)) == Parts(d)
  {
    if d == [] {
      assert "/"[1..] == "";
    } else {
      SplitSlashed(d);
    }
  }

  lemma {:induction false} SlashedSnoc(c: Path, t: string)
    ensures Slashed(c + [t]) == Slashed(c) + "/" + t
  {
    if c == [] {
      assert c + [t] == [t];
      assert Slashed([t]) == "/" + t + "";
    } else {
      assert (c + [t])[1..] == c[1..] + [t];
      SlashedSnoc(c[1..], t);
    }
  }

  lemma {:induction false} StarlessSegments(c: Path)
    requires IsStarless(Slashed(c))
    ensures forall i :: 0 <= i < |c| ==> IsStarless(c[i])
  {
    if c != [] {
      var rest := Slashed(c[1..]);
      assert Slashed(c) == "/" + c[0] + rest;
      forall i | 0 <= i < |c[0]| ensures c[0][i] == Slashed(c)[i + 1] {
      }
      forall i | 0 <= i < |rest| ensures rest[i] == Slashed(c)[i + 1 + |c[0]|] {
      }
      StarlessSegments(c[1..]);
      assert c == [c[0]] + c[1..];
    }
  }

  /** Question marks never match slashes, so like texts have like segments. */
  lemma {:induction false} SplitLike(p: string, s: string)
    requires Like(p, s)
    ensures Alike(SplitSlash(p), SplitSlash(s))
  {
    if p != "" {
      LikeCons(p, s);
      SplitLike(p[1..], s[1..]);
      var a, b := SplitSlash(p[1..]), SplitSlash(s[1..]);
      if p[0] == '/' {
        AlikeCons("", "", a, b);
      } else {
        LikeCons([p[0]] + a[0], [s[0]] + b[0]);
        AlikeTail(a, b);
        AlikeCons([p[0]] + a[0], [s[0]] + b[0], a[1..], b[1..]);
      }
    }
  }

  lemma AlikeCons(x: string, y: string, a: seq<string>, b: seq<string>)
    requires Like(x, y) && Alike(a, b)
    ensures Alike([x] + a, [y] + b)
  {
    forall i | 0 <= i < |a| + 1 ensures Like(([x] + a)[i], ([y] + b)[i]) {
      if i > 0 {
        assert Like(a[i - 1], b[i - 1]);
      }
    }
  }

  lemma AlikeTail(a: seq<string>, b: seq<string>)
    requires Alike(a, b) && a != []
    ensures Like(a[0], b[0]) && Alike(a[1..], b[1..])
  {
    forall i | 0 <= i < |a[1..]| ensures Like(a[1..][i], b[1..][i]) {
      assert Like(a[i + 1], b[i + 1]);
    }
  }

  lemma LikeItself(s: string)
    ensures Like(s, s)
  {
  }

  lemma {:induction false} SlashedLike(c: Path, d: Path)
    requires Alike(c, d)
    ensures Like(Slashed(c), Slashed(d))
  {
    if c != [] {
      AlikeTail(c, d);
      SlashedLike(c[1..], d[1..]);
      LikeItself("/");
      LikeConcat("/", "/", c[0], d[0]);
      LikeConcat("/" + c[0], "/" + d[0], Slashed(c[1..]), Slashed(d[1..]));
    }
  }

  lemma LikeConcat(a: string, b: string, c: string, d: string)
    requires Like(a, b) && Like(c, d)
    ensures Like(a + c, b + d)
  {
    forall i | 0 <= i < |a + c| ensures LikeChar((a + c)[i], (b + d)[i]) {
      if i < |a| {
        assert LikeChar(a[i], b[i]);
      } else {
        assert LikeChar(c[i - |a|], d[i - |a|]);
      }
    }
  }

  /** The texts of two paths are alike exactly if the paths are. */
  lemma RenderLike(c: Path, d: Path)
    requires IsPath(c) && IsPath(d)
    ensures Like(Render(c), Render(d)) <==> Alike(c, d)
  {
    SplitRender(c);
    SplitRender(d);
    if Like(Render(c), Render(d)) {
      SplitLike(Render(c), Render(d));
      TailsAlike(c, d);
    }
    if Alike(c, d) {
      SlashedLike(c, d);
      LikeItself("/");
    }
  }

  function Parts(c: Path): seq<string> {
    if c == [] then ["", ""] else [""] + c
  }

  lemma TailsAlike(c: Path, d: Path)
    requires IsPath(c) && IsPath(d) && Alike(Parts(c), Parts(d))
    ensures Alike(c, d)
  {
    AlikeTail(Parts(c), Parts(d));
    assert ([""] + c)[1..] == c && ([""] + d)[1..] == d;
    assert ["", ""][1..] == [""];
    if d != [] {
      EmptyNotAlike(d);
    }
    if c != [] {
      EmptyNotAlike(c);
    }
  }

  /** An empty segment is like no segment of a path. */
  lemma EmptyNotAlike(d: Path)
    requires IsPath(d) && d != []
    ensures !Covers([""], d) && !Covers(d, [""])
  {
    assert Covers([""], d) ==> Like([""][0], d[0]);
    assert Covers(d, [""]) ==> Like(d[0], [""][0]);
  }

  /** The pattern `c` matches what is like `c`. */
  lemma SelfMatches(env: Env, c: Path, d: Path)
    requires Lawful(env.glob) && IsPath(c) && IsPath(d) && IsStarless(Render(c))
    ensures PatternGrants(env, Render(c), d) <==> Alike(c, d)
  {
    assert Render(c)[0] == '/';
    StarlessMatches(Render(c), Render(d));
    RenderLike(c, d);
    NoStars(Render(c));
  }

  // What the pattern "c/**" matches: everything that `c` covers; but if `c` is the root, the
  // pattern is "//**", which matches the root alone.
  lemma BelowMatches(env: Env, c: Path, d: Path)
    requires Lawful(env.glob) && IsPath(c) && IsPath(d) && IsStarless(Render(c))
    ensures PatternGrants(env, Render(c) + "/**", d) <==> if c == [] then d == [] else Covers(c, d)
  {
    var pattern, prefix, res := Render(c) + "/**", Render(c) + "/", Render(d);
    assert pattern == prefix + "**" && pattern[0] == '/' && IsStarless(prefix);
    BelowIsSplits(env, prefix, res);
    SplitRender(d);
    BelowSplits(env.glob, c, d);
    if LikeThen(prefix, res) {
      OneBelow(c, d);
    }
  }

  lemma BelowIsSplits(env: Env, prefix: string, res: string)
    requires Lawful(env.glob) && IsStarless(prefix) && IsAbs(prefix) && prefix[|prefix| - 1] == '/'
    ensures PatternMatches(env, "fs", "read", prefix + "**", true, res)
       <==> LikeThen(prefix, res) || Splits(env.glob, SplitSlash(prefix + "**"), SplitSlash(res))
  {
    var pattern := prefix + "**";
    assert IsSimple(pattern) && pattern[0] == '/';
    StarsAfter(prefix, res);
    ContainsStars(prefix);
    BelowIsNoPlainPrefix(prefix, pattern);
  }

  lemma BelowIsNoPlainPrefix(prefix: string, pattern: string)
    requires prefix != "" && prefix[|prefix| - 1] == '/' && pattern == prefix + "**"
    ensures !IsPlainPrefix(pattern)
  {
    assert pattern[..|pattern| - 2] == prefix && prefix[|prefix| - 1..] == "/";
  }

  lemma BelowSplits(glob: Glob, c: Path, d: Path)
    requires Lawful(glob) && IsPath(c) && IsPath(d) && IsStarless(Render(c))
    ensures Splits(glob, SplitSlash(Render(c) + "/**"), Parts(d)) <==> if c == [] then d == [] else Covers(c, d)
  {
    if c == [] {
      DoubleSlashParts();
      SplitsPrefix(glob, ["", ""], Parts(d));
      RootCovers(d);
    } else {
      NamedParts(c);
      StarlessSegments(c);
      SplitsPrefix(glob, [""] + c, Parts(d));
      PartsCover(c, d);
    }
  }

  lemma RootCovers(d: Path)
    requires IsPath(d)
    ensures Covers(["", ""], Parts(d)) <==> d == []
  {
    LikeItself("");
    CoversCons(["", ""], Parts(d));
    assert ["", ""][1..] == [""] && ([""] + d)[1..] == d;
    if d != [] {
      EmptyNotAlike(d);
    }
  }

  lemma PartsCover(c: Path, d: Path)
    requires IsPath(c) && IsPath(d) && c != []
    ensures Covers([""] + c, Parts(d)) <==> Covers(c, d)
  {
    CoversCons([""] + c, Parts(d));
    LikeItself("");
    assert ([""] + c)[1..] == c && ([""] + d)[1..] == d && ["", ""][1..] == [""];
    EmptyNotAlike(c);
  }

  lemma NamedParts(c: Path)
    requires IsPath(c) && c != []
    ensures SplitSlash(Render(c) + "/**") == ([""] + c) + ["**"]
  {
    SlashedSnoc(c, "**");
    assert Slashed(c) + "/" + "**" == Render(c) + "/**";
    SplitSlashed(c + ["**"]);
    assert [""] + (c + ["**"]) == ([""] + c) + ["**"];
  }

  lemma DoubleSlashParts()
    ensures SplitSlash("/" + "/**") == ["", ""] + ["**"]
  {
    assert ("/" + "/**")[1..] == "/**";
    RootParts();
    assert [""] + ([""] + ["**"]) == ["", ""] + ["**"];
  }

  /** The second character of a path's text is no slash. */
  lemma NoDoubleSlash(d: Path)
    requires IsPath(d) && |Render(d)| > 1
    ensures Render(d)[1] != '/'
  {
    assert d != [] && Render(d)[1] == d[0][0];
  }

  /** A text like `c/` and one more segment is the text of a child of something like `c`. */
  lemma OneBelow(c: Path, d: Path)
    requires IsPath(c) && IsPath(d) && LikeThen(Render(c) + "/", Render(d))
    ensures c != [] && Covers(c, d)
  {
    var res, n := Render(d), |Render(c)|;
    var u, t := res[..n], res[n + 1..];
    LikeThenSlash(Render(c), res);
    assert res == u + "/" + t;
    NoDoubleSlash(d);
    SplitTail(u, t);
    SplitLike(Render(c), u);
    SplitRender(c);
    SplitRender(d);
    CoversFront(Parts(c), SplitSlash(u), t);
    if c != [] {
      PartsCover(c, d);
    }
  }

  lemma LikeThenSlash(p: string, s: string)
    requires LikeThen(p + "/", s)
    ensures |p| < |s| && Like(p, s[..|p|]) && s[|p|] == '/' && '/' !in s[|p| + 1..]
    ensures p == "/" ==> |s| > 1 && s[1] == '/'
  {
    var n := |p|;
    forall i | 0 <= i < n ensures LikeChar(p[i], s[..n][i]) {
      assert LikeChar((p + "/")[i], s[..n + 1][i]);
    }
    assert LikeChar((p + "/")[n], s[..n + 1][n]);
  }

  lemma CoversFront(a: seq<string>, b: seq<string>, t: string)
    requires Alike(a, b)
    ensures Covers(a, b + [t])
  {
  }

  lemma RootParts()
    ensures SplitSlash("/**") == [""] + ["**"]
  {
    SplitPrefix("**", "");
    assert "**" + "" == "**" && SplitSlash("") == [""];
    assert "/**"[1..] == "**";
  }

  lemma RootPattern(fs: Fs)
    ensures CanonicalizePattern(fs, "/**") == "/**"
  {
    FirstMetaIs("/**", 1);
    assert "/**"[..1] == "/";
    assert LastSlash("/") <= 0;
  }

  lemma RootMatches(env: Env, d: Path)
    requires Lawful(env.glob) && IsPath(d)
    ensures PatternGrants(env, "/**", d)
  {
    assert "/" + "**" == "/**" && "/"[|"/"| - 1] == '/';
    BelowIsSplits(env, "/", Render(d));
    RootParts();
    SplitRender(d);
    SplitsPrefix(env.glob, [""], Parts(d));
    LikeItself("");
  }

  // ---------------------------------------------------------------- matching a collapsed text

  /** A text that begins with two slashes matches no path. */
  lemma CollapsedMatchesNothing(env: Env, t: Path, d: Path)
    requires Lawful(env.glob) && IsPath(t) && t != [] && IsPath(d) && IsStarless("/" + Slashed(t))
    ensures !PatternGrants(env, "/" + Slashed(t), d) && !PatternGrants(env, "/" + Slashed(t) + "/**", d)
  {
    var text := "/" + Slashed(t);
    assert text[0] == '/' && text[1] == '/';
    CollapsedIsUnlike(text, d);
    StarlessMatches(text, Render(d));
    NoStars(text);
    var prefix := text + "/";
    assert text + "/**" == prefix + "**" && IsStarless(prefix) && prefix[1] == '/';
    BelowIsSplits(env, prefix, Render(d));
    CollapsedSplits(env.glob, t, d);
  }

  lemma CollapsedIsUnlike(text: string, d: Path)
    requires IsPath(d) && |text| > 2 && text[1] == '/'
    ensures !Like(text, Render(d)) && !LikeThen(text + "/", Render(d))
  {
    if |Render(d)| > 1 {
      NoDoubleSlash(d);
    }
    assert Like(text, Render(d)) ==> LikeChar(text[1], Render(d)[1]);
    assert LikeThen(text + "/", Render(d)) ==> LikeChar((text + "/")[1], Render(d)[..|text + "/"|][1]);
  }

  lemma CollapsedSplits(glob: Glob, t: Path, d: Path)
    requires Lawful(glob) && IsPath(t) && t != [] && IsPath(d) && IsStarless("/" + Slashed(t))
    ensures !Splits(glob, SplitSlash("/" + Slashed(t) + "/" + "**"), SplitSlash(Render(d)))
  {
    assert forall i :: 0 <= i < |Slashed(t)| ==> Slashed(t)[i] == ("/" + Slashed(t))[i + 1];
    StarlessSegments(t);
    CollapsedParts(t, "**");
    SplitRender(d);
    SplitsPrefix(glob, ["", ""] + t, Parts(d));
    CollapsedCovers(t, d);
  }

  lemma CollapsedParts(t: Path, stars: string)
    requires IsPath(t) && t != [] && '/' !in stars
    ensures SplitSlash("/" + Slashed(t) + "/" + stars) == (["", ""] + t) + [stars]
  {
    CollapsedText(t, stars);
    SplitSlashed(t + [stars]);
    SplitRooted(Slashed(t + [stars]));
    TwoInFront(t, stars);
  }

  lemma TwoInFront(t: Path, stars: string)
    ensures [""] + ([""] + (t + [stars])) == (["", ""] + t) + [stars]
  {
  }

  lemma CollapsedText(t: Path, stars: string)
    ensures "/" + Slashed(t) + "/" + stars == "/" + Slashed(t + [stars])
  {
    SlashedSnoc(t, stars);
  }

  lemma SplitRooted(s: string)
    ensures SplitSlash("/" + s) == [""] + SplitSlash(s)
  {
    assert ("/" + s)[1..] == s;
  }

  lemma CollapsedCovers(t: Path, d: Path)
    requires IsPath(d) && t != []
    ensures !Covers(["", ""] + t, Parts(d))
  {
    var parts := ["", ""] + t;
    if d != [] {
      assert Covers(parts, Parts(d)) ==> Like(parts[1], Parts(d)[1]);
      assert Parts(d)[1] == d[0];
    }
  }
}
