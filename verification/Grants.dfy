/** Path grants of libkite/permissions.go: the rule texts PathReadRules writes, parsed and compiled
    as NewPermissionChecker does, and what they allow. */
module Grants {
  import opened Common
  import opened Paths
  import opened Globs
  import opened Permissions
  import opened GrantPatterns
  import CommandLine

  // ---------------------------------------------------------------- the rule generator

  function TrimLeft(s: string): string {
    if s != "" && CommandLine.IsSpace(s[0]) then TrimLeft(s[1..]) else s
  }

  function TrimRight(s: string): string {
    if s != "" && CommandLine.IsSpace(s[|s| - 1]) then TrimRight(s[..|s| - 1]) else s
  }

  /** strings.TrimSpace. */
  function TrimSpace(s: string): string {
    TrimRight(TrimLeft(s))
  }

  /** strings.TrimRight(s, "/"). */
  function TrimSlashes(s: string): string {
    if s != "" && s[|s| - 1] == '/' then TrimSlashes(s[..|s| - 1]) else s
  }

  /** The directory a path entry names, relative entries being below $CWD. */
  function GrantedDir(path: string): string
    requires path != ""
  {
    var p :=
      if path == "." || path == "./" then "$CWD"
      else if HasPrefix(path, "./") then "$CWD/" + path[2..]
      else path;
    if p != "/" then TrimSlashes(p) else p
  }

  /** The rules for one entry. */
  function ReadRules(path: string): seq<string> {
    var p := TrimSpace(path);
    if p == "" then []
    else
      var dir := GrantedDir(p);
      if dir == "/" then [Scoped("fs", "read", "/**"), Scoped("sql", "open", "sqlite:/**")]
      else [Scoped("fs", "read", dir + "/**"), Scoped("fs", "read", dir), Scoped("sql", "open", "sqlite:" + dir + "/**")]
  }

  function ReadRulesOf(paths: seq<string>): seq<string> {
    if paths == [] then [] else ReadRulesOf(paths[..|paths| - 1]) + ReadRules(paths[|paths| - 1])
  }

  method PathReadRules(paths: seq<string>) returns (rules: seq<string>)
    ensures rules == ReadRulesOf(paths)
  {
    rules := [];
    for i := 0 to |paths|
      invariant rules == ReadRulesOf(paths[..i])
    {
      assert paths[..i + 1][..i] == paths[..i];
      var p := TrimSpace(paths[i]);
      if p == "" {
        continue;
      }
      if p == "." || p == "./" {
        p := "$CWD";
      } else if HasPrefix(p, "./") {
        p := "$CWD/" + p[2..];
      }
      if p != "/" {
        p := TrimSlashes(p);
      }
      if p == "/" {
        rules := rules + [Scoped("fs", "read", "/**"), Scoped("sql", "open", "sqlite:/**")];
      } else {
        rules := rules
          + [Scoped("fs", "read", p + "/**"), Scoped("fs", "read", p), Scoped("sql", "open", "sqlite:" + p + "/**")];
      }
    }
    assert paths[..|paths|] == paths;
  }

  // ---------------------------------------------------------------- what is stated

  /** An absolute path without wildcards and path variables. */
  predicate PlainText(p: string) {
    IsAbs(p) && IsLiteral(p) && NoVariables(p)
  }

  /** One without space at its end, which would be trimmed. */
  predicate PlainDir(p: string) {
    PlainText(p) && !CommandLine.IsSpace(p[|p| - 1])
  }

  predicate AllSlashes(p: string) {
    forall i :: 0 <= i < |p| ==> p[i] == '/'
  }

  /** Some rule of the list, compiled, matches. A rule that does not parse grants nothing. */
  ghost predicate IsGranted(env: Env, rules: seq<string>, function_: string, resource: string) {
    exists i :: 0 <= i < |rules| && RuleGrants(env, rules[i], function_, resource)
  }

  ghost predicate RuleGrants(env: Env, rule: string, function_: string, resource: string) {
    var r := Compile(env, rule);
    r.Some? && RuleMatches(env, r.value, "fs", "read", function_, Compared(env, resource))
  }

  // ---------------------------------------------------------------- what a path entry grants

  lemma {:induction false} TrimSlashesKeeps(s: string)
    ensures TrimSlashes(s) <= s
    ensures TrimSlashes(s) == "" <==> AllSlashes(s)
    ensures forall i :: |TrimSlashes(s)| <= i < |s| ==> s[i] == '/'
    decreases |s|
  {
    if s != "" && s[|s| - 1] == '/' {
      TrimSlashesKeeps(s[..|s| - 1]);
    }
  }

  lemma UntouchedByTrim(p: string)
    requires p != "" && !CommandLine.IsSpace(p[0]) && !CommandLine.IsSpace(p[|p| - 1])
    ensures TrimSpace(p) == p
  {
    assert TrimLeft(p) == p && TrimRight(p) == p;
  }

  lemma {:induction false} TrimLeftBefore(before: string, s: string)
    requires forall c :: c in before ==> CommandLine.IsSpace(c)
    ensures TrimLeft(before + s) == TrimLeft(s)
  {
    if before == "" {
      assert before + s == s;
    } else {
      assert before[0] in before;
      assert (before + s)[1..] == before[1..] + s;
      TrimLeftBefore(before[1..], s);
    }
  }

  lemma {:induction false} TrimLeftAfter(s: string, after: string)
    ensures TrimLeft(s + after) == if TrimLeft(s) == "" then TrimLeft(after) else TrimLeft(s) + after
  {
    if s == "" {
      assert s + after == after;
    } else if CommandLine.IsSpace(s[0]) {
      assert (s + after)[1..] == s[1..] + after;
      TrimLeftAfter(s[1..], after);
    }
  }

  lemma {:induction false} TrimRightAfter(s: string, after: string)
    requires forall c :: c in after ==> CommandLine.IsSpace(c)
    ensures TrimRight(s + after) == TrimRight(s)
    decreases |after|
  {
    if after == "" {
      assert s + after == s;
    } else {
      var last := |after| - 1;
      assert after[last] in after;
      assert (s + after)[..|s + after| - 1] == s + after[..last];
      TrimRightAfter(s, after[..last]);
    }
  }

  lemma {:induction false} OnlySpace(s: string)
    requires forall c :: c in s ==> CommandLine.IsSpace(c)
    ensures TrimLeft(s) == ""
  {
    if s != "" {
      assert s[0] in s;
      OnlySpace(s[1..]);
    }
  }

  /** Space around an entry makes no difference to its rules, and space alone is no entry. */
  lemma SpaceIsTrimmed(before: string, p: string, after: string)
    requires forall c :: c in before + after ==> CommandLine.IsSpace(c)
    ensures ReadRulesOf([before + p + after]) == ReadRulesOf([p])
    ensures ReadRulesOf([before]) == []
  {
    forall c | c in before ensures CommandLine.IsSpace(c) {
      assert c in before + after;
    }
    forall c | c in after ensures CommandLine.IsSpace(c) {
      assert c in before + after;
    }
    assert before + p + after == before + (p + after);
    TrimLeftBefore(before, p + after);
    TrimLeftAfter(p, after);
    OnlySpace(after);
    OnlySpace(before);
    TrimRightAfter(TrimLeft(p), after);
    OneEntry(before + p + after);
    OneEntry(p);
    OneEntry(before);
  }

  /** An entry without space around it and slashes after it. */
  predicate Bare(p: string) {
    p != "" && !CommandLine.IsSpace(p[0]) && !CommandLine.IsSpace(p[|p| - 1]) && p[|p| - 1] != '/'
  }

  lemma BareDir(dir: string)
    requires Bare(dir) && dir != "." && !("./" <= dir)
    ensures TrimSpace(dir) == dir && GrantedDir(dir) == dir
    ensures TrimSpace(dir + "/") == dir + "/" && GrantedDir(dir + "/") == dir
  {
    var slashed := dir + "/";
    UntouchedByTrim(dir);
    UntouchedByTrim(slashed);
    assert slashed[..|slashed| - 1] == dir;
    assert slashed[0] == dir[0] && (|dir| > 1 ==> slashed[1] == dir[1]);
    assert TrimSlashes(dir) == dir && TrimSlashes(slashed) == dir;
  }

  lemma DirRules(p: string, dir: string)
    requires TrimSpace(p) == p != "" && GrantedDir(p) == dir && dir != "/"
    ensures ReadRulesOf([p])
         == ["fs.read(" + (dir + "/**") + ")", "fs.read(" + dir + ")", "sql.open(" + ("sqlite:" + dir + "/**") + ")"]
  {
    OneEntry(p);
    assert ReadRules(p)
      == [Scoped("fs", "read", dir + "/**"), Scoped("fs", "read", dir), Scoped("sql", "open", "sqlite:" + dir + "/**")];
    FsText(dir);
    FsText(dir + "/**");
    SqlText("sqlite:" + dir + "/**");
  }

  lemma FsText(inner: string)
    ensures Scoped("fs", "read", inner) == "fs.read(" + inner + ")"
  {
    assert "fs" + "." + "read" + "(" == "fs.read(";
  }

  lemma SqlText(inner: string)
    ensures Scoped("sql", "open", inner) == "sql.open(" + inner + ")"
  {
    assert "sql" + "." + "open" + "(" == "sql.open(";
  }

  /** The texts of the rules of a directory: with or without a slash after it. */
  lemma EntryRules(dir: string)
    requires Bare(dir) && dir != "." && !("./" <= dir)
    ensures var rules :=
        ["fs.read(" + (dir + "/**") + ")", "fs.read(" + dir + ")", "sql.open(" + ("sqlite:" + dir + "/**") + ")"];
      ReadRulesOf([dir]) == rules && ReadRulesOf([dir + "/"]) == rules
  {
    BareDir(dir);
    DirRules(dir, dir);
    DirRules(dir + "/", dir);
  }

  /** A relative entry is below the working directory. */
  lemma RelativeRules(name: string)
    requires Bare(name)
    ensures var dir := "$CWD/" + name;
      ReadRulesOf(["./" + name])
      == ["fs.read(" + (dir + "/**") + ")", "fs.read(" + dir + ")", "sql.open(" + ("sqlite:" + dir + "/**") + ")"]
  {
    var p, dir := "./" + name, "$CWD/" + name;
    UntouchedByTrim(p);
    assert p[2..] == name && p[1] == '/' && dir[|dir| - 1] == name[|name| - 1];
    DirRules(p, dir);
  }

  /** A dot is the working directory, with or without a slash after it. */
  lemma DotRules()
    ensures var dir := "$CWD";
      var rules := ["fs.read(" + (dir + "/**") + ")", "fs.read(" + dir + ")", "sql.open(" + ("sqlite:" + dir + "/**") + ")"];
      ReadRulesOf(["."]) == rules && ReadRulesOf(["./"]) == rules
  {
    UntouchedByTrim(".");
    DirRules(".", "$CWD");
    UntouchedByTrim("./");
    DirRules("./", "$CWD");
  }

  /** The root is granted with everything below it. */
  lemma RootRules()
    ensures ReadRulesOf(["/"]) == ["fs.read(/**)", "sql.open(sqlite:/**)"]
  {
    OneEntry("/");
    UntouchedByTrim("/");
    FsText("/**");
    SqlText("sqlite:/**");
    assert GrantedDir("/") == "/";
    assert "fs.read(" + "/**" + ")" == "fs.read(/**)" && "sql.open(" + "sqlite:/**" + ")" == "sql.open(sqlite:/**)";
  }

  /** Several entries give the rules of each in turn. */
  lemma {:induction false} RulesInTurn(a: seq<string>, b: seq<string>)
    ensures ReadRulesOf(a + b) == ReadRulesOf(a) + ReadRulesOf(b)
    decreases |b|
  {
    if b == [] {
      assert a + b == a && ReadRulesOf(b) == [];
    } else {
      var front, last := b[..|b| - 1], b[|b| - 1];
      RulesInTurn(a, front);
      LastEntry(a + front, last);
      LastEntry(front, last);
      FrontAndLast(b);
      ConcatAssoc(a, front, [last]);
      ConcatAssoc(ReadRulesOf(a), ReadRulesOf(front), ReadRules(last));
    }
  }

  lemma FrontAndLast(b: seq<string>)
    requires b != []
    ensures b == b[..|b| - 1] + [b[|b| - 1]]
  {
  }

  lemma LastEntry(a: seq<string>, last: string)
    ensures ReadRulesOf(a + [last]) == ReadRulesOf(a) + ReadRules(last)
  {
    assert (a + [last])[..|a|] == a;
  }

  lemma GrantedAbsolute(p: string)
    requires IsAbs(p)
    ensures GrantedDir(p) == if p == "/" then "/" else TrimSlashes(p)
  {
    assert p[0] == '/' && p != "." && p != "./" && !HasPrefix(p, "./");
  }

  lemma OneEntry(p: string)
    ensures ReadRulesOf([p]) == ReadRules(p)
  {
    assert [p][..0] == [] && ReadRulesOf([p][..0]) == [];
  }

  /** The rules a plain directory gives rise to. */
  lemma PlainDirRules(p: string)
    requires PlainDir(p)
    ensures ReadRulesOf([p]) == ReadRules(p) && TrimSpace(p) == p
    ensures GrantedDir(p) == if p == "/" then "/" else TrimSlashes(p)
  {
    assert p[0] == '/' && !CommandLine.IsSpace('/');
    OneEntry(p);
    UntouchedByTrim(p);
    GrantedAbsolute(p);
  }

  /** Trailing slashes do not change where a path leads. */
  lemma {:induction false} SegmentsTrimmed(p: string)
    requires IsAbs(p) && TrimSlashes(p) != ""
    ensures IsAbs(TrimSlashes(p)) && Segments(TrimSlashes(p)) == Segments(p)
    decreases |p|
  {
    TrimSlashesKeeps(p);
    if p[|p| - 1] == '/' {
      var q := p[..|p| - 1];
      assert p == q + "/" + "";
      SegmentsStep(q, "");
      SegmentsTrimmed(q);
    }
  }

  /** What the patterns stored for the canonical directory `c` match. */
  ghost predicate CoveredBy(fs: Fs, c: Path, d: Path) {
    && !Collapses(fs, c)
    && var dir := StoredDir(fs, c); if dir == [] then d == [] else Covers(dir, d)
  }

  lemma StoredPatternsMatch(env: Env, c: Path, d: Path)
    requires WellFormed(env.fs) && Lawful(env.glob) && IsPath(c) && IsPath(d) && IsStarless(StoredText(env.fs, c))
    ensures PatternGrants(env, StoredText(env.fs, c) + "/**", d) || PatternGrants(env, StoredText(env.fs, c), d)
       <==> CoveredBy(env.fs, c, d)
  {
    StoredTextIs(env.fs, c);
    if Collapses(env.fs, c) {
      var rest := c[Resolved(c)..];
      assert IsPath(rest);
      CollapsedMatchesNothing(env, rest, d);
    } else {
      BelowMatches(env, StoredDir(env.fs, c), d);
      SelfMatches(env, StoredDir(env.fs, c), d);
    }
  }

  /** The sqlite rule concerns another module. */
  lemma SqliteRuleIrrelevant(env: Env, inner: string, function_: string, d: Path)
    ensures !RuleMatchesAt(env, Scoped("sql", "open", inner), function_, d)
  {
    ScopedParses(env.fs, "sql", "open", inner);
  }

  lemma TrimmedIsPlain(p: string)
    requires PlainDir(p) && TrimSlashes(p) != ""
    ensures PlainText(TrimSlashes(p)) && TrimSlashes(p) != "/" && p != "/"
  {
    var dir := TrimSlashes(p);
    TrimSlashesKeeps(p);
    TrimSlashesEnd(p);
    assert dir[0] == p[0] && p == dir + p[|dir|..];
    NoVariablesInFront(dir, p[|dir|..]);
  }

  lemma {:induction false} TrimSlashesEnd(s: string)
    ensures TrimSlashes(s) != "" ==> TrimSlashes(s)[|TrimSlashes(s)| - 1] != '/'
    decreases |s|
  {
    if s != "" && s[|s| - 1] == '/' {
      TrimSlashesEnd(s[..|s| - 1]);
    }
  }

  lemma RootGrants(env: Env, function_: string, d: Path)
    requires Lawful(env.glob) && IsPath(d)
    ensures RuleMatchesAt(env, Scoped("fs", "read", "/**"), function_, d)
  {
    RootPattern(env.fs);
    ShorterHasNot("/**", "$CWD");
    ShorterHasNot("/**", "$HOME");
    RuleIsItsPattern(env, "/**", function_, d);
    RootMatches(env, d);
  }

  lemma {:induction false} SlashesAreRoot(p: string)
    requires AllSlashes(p)
    ensures CleanParts([], SplitSlash(p)) == []
    decreases |p|
  {
    if p == "" {
      assert [""][1..] == [];
    } else {
      SlashesAreRoot(p[1..]);
      assert SplitSlash(p)[1..] == SplitSlash(p[1..]);
    }
  }

  ghost predicate Any<T>(holds: T -> bool, xs: seq<T>) {
    exists i :: 0 <= i < |xs| && holds(xs[i])
  }

  lemma AnyOfThree<T>(holds: T -> bool, xs: seq<T>)
    requires |xs| == 3
    ensures Any(holds, xs) <==> holds(xs[0]) || holds(xs[1]) || holds(xs[2])
  {
  }

  ghost function MatchesAt(env: Env, function_: string, d: Path): string -> bool {
    rule => RuleMatchesAt(env, rule, function_, d)
  }

  /** The rules of a directory that is not written with slashes alone. */
  lemma NamedRules(p: string)
    requires PlainDir(p) && !AllSlashes(p)
    ensures var dir := TrimSlashes(p);
      ReadRules(p)
      == [Scoped("fs", "read", dir + "/**"), Scoped("fs", "read", dir), Scoped("sql", "open", "sqlite:" + dir + "/**")]
  {
    PlainDirRules(p);
    TrimSlashesKeeps(p);
    TrimmedIsPlain(p);
  }

  /** A directory written with slashes alone is the root and grants everything. */
  lemma SlashesGrant(env: Env, p: string, function_: string, d: Path)
    requires PlainDir(p) && Lawful(env.glob) && IsPath(d) && AllSlashes(p)
    ensures ReadRules(p) != [] && RuleMatchesAt(env, ReadRules(p)[0], function_, d)
    ensures Segments(p) == [] && Canonical(env.fs, []) == []
  {
    PlainDirRules(p);
    TrimSlashesKeeps(p);
    SlashesAreRoot(p);
    RootGrants(env, function_, d);
    assert "" + "/**" == "/**";
  }

  lemma GrantsIsAny(env: Env, p: string, function_: string, q: string)
    requires IsAbs(q)
    ensures IsGranted(env, ReadRulesOf([p]), function_, q)
       <==> Any(MatchesAt(env, function_, Canonical(env.fs, Segments(q))), ReadRules(p))
  {
    var rules, d := ReadRules(p), Canonical(env.fs, Segments(q));
    OneEntry(p);
    forall i | 0 <= i < |rules|
      ensures RuleGrants(env, rules[i], function_, q) <==> RuleMatchesAt(env, rules[i], function_, d)
    {
    }
  }

  /** Whatever the file system and the matcher are like: a directory not written with slashes alone
      grants what its two stored patterns match. */
  lemma PathReadGrantsPatterns(env: Env, p: string, function_: string, q: string)
    requires PlainDir(p) && IsAbs(q) && !AllSlashes(p)
    ensures var d := Canonical(env.fs, Segments(q));
      IsGranted(env, ReadRulesOf([p]), function_, q)
      <==> || PatternGrants(env, StoredPattern(env.fs, TrimSlashes(p) + "/**"), d)
           || PatternGrants(env, StoredPattern(env.fs, TrimSlashes(p)), d)
  {
    var dir, d := TrimSlashes(p), Canonical(env.fs, Segments(q));
    GrantsIsAny(env, p, function_, q);
    NamedRules(p);
    TrimSlashesKeeps(p);
    TrimmedIsPlain(p);
    NoVariablesBelow(dir);
    AnyOfThree(MatchesAt(env, function_, d), ReadRules(p));
    RuleIsItsPattern(env, dir, function_, d);
    RuleIsItsPattern(env, dir + "/**", function_, d);
    SqliteRuleIrrelevant(env, "sqlite:" + dir + "/**", function_, d);
  }

  /** What a directory grants, wherever its canonical form leads and whether or not that is stable,
      as long as no star, bracket or backslash is stored: what the stored directory covers, segment
      by segment; nothing if the stored text collapses, and of the root only the root itself, unless
      it was written with slashes alone. */
  lemma PathReadGrants(env: Env, p: string, function_: string, q: string)
    requires WellFormed(env.fs) && Lawful(env.glob) && PlainDir(p) && IsAbs(q)
    requires IsStarless(StoredText(env.fs, Canonical(env.fs, Segments(p))))
    ensures IsGranted(env, ReadRulesOf([p]), function_, q)
       <==> AllSlashes(p) || CoveredBy(env.fs, Canonical(env.fs, Segments(p)), Canonical(env.fs, Segments(q)))
  {
    var d := Canonical(env.fs, Segments(q));
    CanonicalIsPath(env.fs, Segments(q));
    if AllSlashes(p) {
      GrantsIsAny(env, p, function_, q);
      SlashesGrant(env, p, function_, d);
      assert MatchesAt(env, function_, d)(ReadRules(p)[0]);
    } else {
      PathReadGrantsPatterns(env, p, function_, q);
      TrimSlashesKeeps(p);
      TrimmedIsPlain(p);
      SegmentsTrimmed(p);
      StoredForDir(env.fs, TrimSlashes(p));
      CanonicalIsPath(env.fs, Segments(p));
      StoredPatternsMatch(env, Canonical(env.fs, Segments(p)), d);
    }
  }
}
