/** The permission rules of libkite/permissions.go: parsing, compilation of the resource pattern,
    matching with and without the compiled form, the checker, and the profile ladder. */
module Permissions {
  import opened Common
  import opened Paths
  import opened Globs
  import CommandLine

  /** The surroundings of a checker: the file system, filepath.Match, the case-insensitive
      comparison of executable names, and the two path variables, already canonical. */
  datatype Env = Env(fs: Fs, glob: Glob, sameExec: (string, string) -> bool, cwd: string, home: string)

  // ---------------------------------------------------------------- patterns

  /** The position of the first `c`, or the length. */
  function Find(s: string, c: char): (k: nat)
    ensures k <= |s| && c !in s[..k] && (k < |s| ==> s[k] == c)
  {
    if s == "" || s[0] == c then 0
    else
      var rest := Find(s[1..], c);
      assert s[..rest + 1] == [s[0]] + s[1..][..rest];
      rest + 1
  }

  /** The position of the last slash, or -1. */
  function LastSlash(s: string): (k: int)
    ensures -1 <= k < |s| && (k >= 0 ==> s[k] == '/') && forall i :: k < i < |s| ==> s[i] != '/'
  {
    if s == "" then -1
    else
      var k := LastSlash(s[1..]);
      if k >= 0 then k + 1 else if s[0] == '/' then 0 else -1
  }

  predicate IsMeta(c: char) {
    c == '*' || c == '?' || c == '['
  }

  /** The position of the first of `*?[`, or the length. */
  function FirstMeta(s: string): (k: nat)
    ensures k <= |s| && (forall i :: 0 <= i < k ==> !IsMeta(s[i])) && (k < |s| ==> IsMeta(s[k]))
  {
    if s == "" || IsMeta(s[0]) then 0 else 1 + FirstMeta(s[1..])
  }

  /** canonicalizePattern: the part before the first wildcard segment is canonicalised. */
  function CanonicalizePattern(fs: Fs, pattern: string): string {
    if !IsAbs(pattern) then pattern
    else
      var idx := FirstMeta(pattern);
      if idx == |pattern| then CanonicalizePath(fs, pattern)
      else
        var slashIdx := LastSlash(pattern[..idx]);
        if slashIdx <= 0 then pattern
        else CanonicalizePath(fs, pattern[..slashIdx]) + pattern[slashIdx..]
  }

  /** expandPathVariables. */
  function Expand(env: Env, pattern: string): string {
    var p := if env.cwd != "" then ReplaceAll(pattern, "$CWD", env.cwd) else pattern;
    if env.home != "" then ReplaceAll(p, "$HOME", env.home) else p
  }

  // ---------------------------------------------------------------- rules

  /** A parsed rule; `functions` is None for any function. The last five fields are what
      setResource precomputes from `compiledSrc`. */
  datatype Rule = Rule(
    mod: string, category: string, functions: Option<seq<string>>, resource: string,
    compiledSrc: string, slashPattern: string, isAbsPattern: bool, hasDoublestar: bool,
    patSegs: Option<seq<string>>)

  function SlashPattern(fs: Fs, res: string): string {
    if IsAbs(res) then CanonicalizePattern(fs, res) else res
  }

  /** setResource. */
  function SetResource(fs: Fs, r: Rule, res: string): Rule {
    if res == "" then
      r.(resource := "", compiledSrc := "", slashPattern := "", isAbsPattern := false,
         hasDoublestar := false, patSegs := None)
    else
      var p := SlashPattern(fs, res);
      var hasDS := Contains(p, "**");
      r.(resource := res, compiledSrc := res, slashPattern := p, isAbsPattern := IsAbs(res), hasDoublestar := hasDS,
         patSegs := if hasDS && p != "**" then Some(SplitSlash(p)) else None)
  }

  /** The precomputed fields are those setResource derives from `compiledSrc`; `resource` may
      have been assigned since. */
  ghost predicate Compiled(fs: Fs, r: Rule) {
    r == SetResource(fs, r, r.compiledSrc).(resource := r.resource)
  }

  predicate IsIdent(s: string) {
    s != "" && forall i :: 0 <= i < |s| ==>
      s[i] == '_' || 'a' <= s[i] <= 'z' || 'A' <= s[i] <= 'Z' || ('0' <= s[i] <= '9' && i > 0)
  }

  function SplitCommas(s: string): seq<string>
    decreases |s|
  {
    var k := Find(s, ',');
    if k == |s| then [s] else [s[..k]] + SplitCommas(s[k + 1..])
  }

  predicate IsFuncList(s: string) {
    s != "" && forall name :: name in SplitCommas(s) ==> IsIdent(name)
  }

  /** splitFuncsAndResource. */
  function SplitFuncsAndResource(inner: string): (Option<seq<string>>, string) {
    var k := Find(inner, ':');
    if k == |inner| then (None, inner)
    else
      var before, after := inner[..k], inner[k + 1..];
      if |before| == 1 && after != "" && (after[0] == '/' || after[0] == '\\') then (None, inner)
      else if !IsFuncList(before) then (None, inner)
      else (Some(SplitCommas(before)), after)
  }

  const NO_RULE := Rule("", "", None, "", "", "", false, false, None)

  /** ParseRule; None for its errors. */
  function ParseRule(fs: Fs, pattern: string): Option<Rule> {
    var idx := Find(pattern, '(');
    if idx < |pattern| && pattern[|pattern| - 1] != ')' then None
    else
      var (functions, resource) :=
        if idx < |pattern| then SplitFuncsAndResource(pattern[idx + 1..|pattern| - 1]) else (None, "");
      var head := pattern[..idx];
      var dot := Find(head, '.');
      if dot == |head| || dot == 0 || dot == |head| - 1 then None
      else Some(SetResource(fs, NO_RULE.(mod := head[..dot], category := head[dot + 1..], functions := functions), resource))
  }

  /** The text of a rule with a resource, and of one without. */
  function Scoped(mod: string, category: string, resource: string): string {
    mod + "." + category + "(" + resource + ")"
  }

  function Unscoped(mod: string, category: string): string {
    mod + "." + category
  }

  /** The parts of a rule text that ParseRule can take apart again. */
  predicate Names(mod: string, category: string) {
    mod != "" && category != "" && '.' !in mod && '(' !in mod && '(' !in category
  }

  lemma FindIs(s: string, c: char, k: nat)
    requires k <= |s| && (k < |s| ==> s[k] == c) && c !in s[..k]
    ensures Find(s, c) == k
  {
    var f := Find(s, c);
    assert forall i :: 0 <= i < f ==> s[i] == s[..f][i];
    assert forall i :: 0 <= i < k ==> s[i] == s[..k][i];
  }

  /** ParseRule undoes Scoped. */
  lemma ScopedParses(fs: Fs, mod: string, category: string, inner: string)
    requires Names(mod, category)
    ensures var (functions, resource) := SplitFuncsAndResource(inner);
      ParseRule(fs, Scoped(mod, category, inner))
      == Some(SetResource(fs, NO_RULE.(mod := mod, category := category, functions := functions), resource))
  {
    var p, head := Scoped(mod, category, inner), Unscoped(mod, category);
    assert p[..|head|] == head && p[|head|] == '(';
    FindIs(p, '(', |head|);
    assert p[|head| + 1..|p| - 1] == inner;
    assert head[..|mod|] == mod && head[|mod| + 1..] == category;
    FindIs(head, '.', |mod|);
  }

  lemma UnscopedParses(fs: Fs, mod: string, category: string)
    requires Names(mod, category)
    ensures ParseRule(fs, Unscoped(mod, category))
         == Some(SetResource(fs, NO_RULE.(mod := mod, category := category), ""))
  {
    var head := Unscoped(mod, category);
    assert head[..|head|] == head;
    FindIs(head, '(', |head|);
    assert head[..|mod|] == mod && head[|mod| + 1..] == category;
    FindIs(head, '.', |mod|);
  }

  function JoinCommas(names: seq<string>): string
    requires names != []
  {
    if |names| == 1 then names[0] else names[0] + "," + JoinCommas(names[1..])
  }

  lemma SplitFirstName(first: string, rest: string)
    requires ',' !in first
    ensures SplitCommas(first + ("," + rest)) == [first] + SplitCommas(rest)
  {
    var s := first + ("," + rest);
    assert s[..|first|] == first && s[|first|] == ',' && s[|first| + 1..] == rest;
    FindIs(s, ',', |first|);
  }

  lemma SplitOneName(name: string)
    requires ',' !in name
    ensures SplitCommas(name) == [name]
  {
    assert name[..|name|] == name;
    FindIs(name, ',', |name|);
  }

  lemma {:induction false} SplitJoinedNames(names: seq<string>)
    requires names != [] && forall i :: 0 <= i < |names| ==> ',' !in names[i]
    ensures SplitCommas(JoinCommas(names)) == names
  {
    if |names| == 1 {
      SplitOneName(names[0]);
      assert names == [names[0]];
    } else {
      var rest := JoinCommas(names[1..]);
      assert names[0] + "," + rest == names[0] + ("," + rest);
      SplitFirstName(names[0], rest);
      SplitJoinedNames(names[1..]);
      assert names == [names[0]] + names[1..];
    }
  }

  lemma {:induction false} NoColonInside(names: seq<string>)
    requires names != [] && forall i :: 0 <= i < |names| ==> ':' !in names[i]
    ensures ':' !in JoinCommas(names)
  {
    if |names| > 1 {
      NoColonInside(names[1..]);
    }
  }

  /** A list of function names before a colon is the function filter of a rule, and what follows
      its resource; but a single letter before a slash is a drive. */
  lemma FunctionListParses(fs: Fs, mod: string, category: string, names: seq<string>, resource: string)
    requires Names(mod, category) && names != [] && forall i :: 0 <= i < |names| ==> IsIdent(names[i])
    requires |JoinCommas(names)| > 1 || resource == "" || (resource[0] != '/' && resource[0] != '\\')
    ensures ParseRule(fs, mod + "." + category + "(" + (JoinCommas(names) + ":" + resource) + ")")
         == Some(SetResource(fs, NO_RULE.(mod := mod, category := category, functions := Some(names)), resource))
  {
    var before, inner := JoinCommas(names), JoinCommas(names) + ":" + resource;
    SplitJoinedNames(names);
    NoColonInside(names);
    assert inner[..|before|] == before && inner[|before|] == ':' && inner[|before| + 1..] == resource;
    FindIs(inner, ':', |before|);
    NamesAreList(names);
    ScopedParses(fs, mod, category, inner);
  }

  lemma NamesAreList(names: seq<string>)
    requires names != [] && forall i :: 0 <= i < |names| ==> IsIdent(names[i])
    ensures IsFuncList(JoinCommas(names))
  {
    SplitJoinedNames(names);
    assert names[0] != "";
  }

  /** A rule as NewPermissionChecker stores it. */
  function Compile(env: Env, pattern: string): Option<Rule> {
    var r := ParseRule(env.fs, pattern);
    if r.None? then None
    else Some(SetResource(env.fs, r.value, CanonicalizePattern(env.fs, Expand(env, r.value.resource))))
  }

  // ---------------------------------------------------------------- matching

  /** `os.exec` patterns that are bare names also match by the base name of the resource. */
  predicate ExecShortcut(env: Env, mod: string, category: string, pattern: string, isAbs: bool, res: string) {
    && (mod == "os" || mod == "*") && (category == "exec" || category == "*")
    && !isAbs && '/' !in pattern && '*' !in pattern
    && (Base(res) == pattern || env.sameExec(Base(res), pattern))
  }

  /** filepath.Base. */
  function Base(s: string): string {
    if s == "" then "."
    else if forall c :: c in s ==> c == '/' then "/"
    else if s[|s| - 1] == '/' then Base(s[..|s| - 1])
    else s[LastSlash(s) + 1..]
  }

  /** How one pattern judges one resource, whichever way it was prepared. */
  ghost predicate PatternMatches(env: Env, mod: string, category: string, pattern: string, isAbs: bool, res: string) {
    || pattern == "*" || pattern == "**"
    || ExecShortcut(env, mod, category, pattern, isAbs, res)
    || match env.glob(pattern, res)
       case Bad => HasSuffix(pattern, "**") && HasPrefix(res, pattern[..|pattern| - 2])
       case Is(matched) => matched || (Contains(pattern, "**") && DoublestarMatches(env.glob, pattern, res))
  }

  /** One pattern against one non-empty resource, spelled out: a star or two match anything; the
      names of executables also match by base name; a malformed pattern extends the text before two
      final stars; and else the pattern matches as a whole or, if it holds two stars, by segments. */
  lemma PatternVerdict(env: Env, mod: string, category: string, pattern: string, isAbs: bool, res: string)
    ensures pattern == "*" || pattern == "**" ==> PatternMatches(env, mod, category, pattern, isAbs, res)
    ensures pattern != "*" && pattern != "**" ==>
      (PatternMatches(env, mod, category, pattern, isAbs, res)
       <==> || (&& mod in {"os", "*"} && category in {"exec", "*"} && !isAbs && '/' !in pattern && '*' !in pattern
                && (Base(res) == pattern || env.sameExec(Base(res), pattern)))
            || env.glob(pattern, res) == Is(true)
            || (env.glob(pattern, res) == Bad && exists a :: pattern == a + "**" && a <= res)
            || (env.glob(pattern, res) == Is(false) && Contains(pattern, "**") && DoublestarMatches(env.glob, pattern, res)))
  {
    if HasSuffix(pattern, "**") {
      assert pattern == pattern[..|pattern| - 2] + "**";
    }
    forall a: string | pattern == a + "**" ensures HasSuffix(pattern, "**") && pattern[..|pattern| - 2] == a {
    }
  }

  /** filepath.Base of the text of a path is its last segment. */
  lemma BaseIs(d: Path, c: string)
    requires IsPath(d) && Ordinary(c)
    ensures Base(Render(d + [c])) == c
  {
    var front, text := Slashed(d), Render(d + [c]);
    SlashedLast(d, c);
    assert text == front + "/" + c && text[|text| - 1] == c[|c| - 1] && c[|c| - 1] in c;
    assert text[|text| - 1] in text;
    var k := LastSlash(text);
    assert text[|front|] == '/';
    forall i | |front| < i < |text| ensures text[i] != '/' {
      assert text[i] == c[i - |front| - 1];
    }
    assert k == |front|;
    assert text[k + 1..] == c;
  }

  lemma {:induction false} SlashedLast(d: Path, c: string)
    ensures Slashed(d + [c]) == Slashed(d) + "/" + c
  {
    if d == [] {
      assert d + [c] == [c] && Slashed([c]) == "/" + c + "";
    } else {
      assert (d + [c])[1..] == d[1..] + [c];
      SlashedLast(d[1..], c);
    }
  }

  /** The verdict of a rule, read off its own resource alone. */
  ghost predicate RuleMatches(env: Env, r: Rule, mod: string, category: string, function_: string, res: string) {
    && (r.mod == "*" || r.mod == mod)
    && (r.category == "*" || r.category == category)
    && (r.functions.Some? ==> function_ in r.functions.value)
    && (r.resource != "" ==>
          res != "" && PatternMatches(env, mod, category, SlashPattern(env.fs, r.resource), IsAbs(r.resource), res))
  }

  /** What both branches of Matches leave behind. */
  ghost predicate Prepared(
    fs: Fs, resource: string, pattern: string, isAbs: bool, hasDS: bool, patSegs: Option<seq<string>>)
  {
    && pattern == SlashPattern(fs, resource) && isAbs == IsAbs(resource)
    && hasDS == Contains(pattern, "**") && (patSegs.Some? ==> patSegs.value == SplitSlash(pattern))
  }

  /** Matches: the compiled and the uncompiled branch give the same verdict, for every rule whose
      fields setResource filled, even if its resource was changed afterwards. */
  method Matches(env: Env, r: Rule, mod: string, category: string, function_: string, res: string) returns (b: bool)
    requires Compiled(env.fs, r)
    ensures b <==> RuleMatches(env, r, mod, category, function_, res)
  {
    if r.mod != "*" && r.mod != mod {
      return false;
    }
    if r.category != "*" && r.category != category {
      return false;
    }
    if r.functions.Some? && function_ !in r.functions.value {
      return false;
    }
    if r.resource == "" {
      return true;
    }
    if res == "" {
      return false;
    }
    var pattern, isAbs, hasDS, patSegs;
    if r.compiledSrc == r.resource && r.slashPattern != "" {
      pattern, isAbs, hasDS, patSegs := r.slashPattern, r.isAbsPattern, r.hasDoublestar, r.patSegs;
    } else {
      pattern, isAbs, patSegs := r.resource, IsAbs(r.resource), None;
      if isAbs {
        pattern := CanonicalizePattern(env.fs, pattern);
      }
      hasDS := Contains(pattern, "**");
    }
    assert Prepared(env.fs, r.resource, pattern, isAbs, hasDS, patSegs);
    if pattern == "*" || pattern == "**" {
      return true;
    }
    if ExecShortcut(env, mod, category, pattern, isAbs, res) {
      return true;
    }
    var globbed := env.glob(pattern, res);
    if globbed.Bad? {
      return HasSuffix(pattern, "**") && HasPrefix(res, pattern[..|pattern| - 2]);
    }
    b := globbed.matched;
    if !b && hasDS {
      if patSegs.Some? {
        b := MatchDoublestarPrecompiled(env.glob, pattern, patSegs.value, res);
      } else {
        b := MatchDoublestar(env.glob, pattern, res);
      }
    }
  }

  // ---------------------------------------------------------------- the checker

  datatype Checker = Checker(allow: seq<Rule>, deny: seq<Rule>, defaultAllow: bool)

  datatype Config = Config(allow: seq<string>, deny: seq<string>, defaultAllow: bool)

  ghost predicate ValidChecker(env: Env, c: Checker) {
    && (forall i :: 0 <= i < |c.allow| ==> Compiled(env.fs, c.allow[i]))
    && (forall i :: 0 <= i < |c.deny| ==> Compiled(env.fs, c.deny[i]))
  }

  /** The rules are the compiled patterns, in order. */
  ghost predicate CompiledFrom(env: Env, rules: seq<Rule>, patterns: seq<string>) {
    |rules| == |patterns| && forall i :: 0 <= i < |rules| ==> Compile(env, patterns[i]) == Some(rules[i])
  }

  method CompileAll(env: Env, patterns: seq<string>) returns (r: Option<seq<Rule>>)
    ensures r.Some? ==> CompiledFrom(env, r.value, patterns)
    ensures r.None? <==> exists i :: 0 <= i < |patterns| && Compile(env, patterns[i]).None?
  {
    var rules := [];
    for i := 0 to |patterns|
      invariant |rules| == i && forall k :: 0 <= k < i ==> Compile(env, patterns[k]) == Some(rules[k])
    {
      var parsed := ParseRule(env.fs, patterns[i]);
      if parsed.None? {
        return None;
      }
      var resource := CanonicalizePattern(env.fs, Expand(env, parsed.value.resource));
      rules := rules + [SetResource(env.fs, parsed.value, resource)];
    }
    r := Some(rules);
  }

  lemma CompiledRules(env: Env, rules: seq<Rule>, patterns: seq<string>)
    requires CompiledFrom(env, rules, patterns)
    ensures forall i :: 0 <= i < |rules| ==> Compiled(env.fs, rules[i])
  {
  }

  /** NewPermissionChecker: fails iff some pattern does not parse. */
  method NewPermissionChecker(env: Env, config: Config) returns (r: Option<Checker>)
    ensures r.None? <==> exists p :: p in config.allow + config.deny && Compile(env, p).None?
    ensures r.Some? ==> CompiledFrom(env, r.value.allow, config.allow) && CompiledFrom(env, r.value.deny, config.deny)
    ensures r.Some? ==> ValidChecker(env, r.value) && r.value.defaultAllow == config.defaultAllow
  {
    var allow := CompileAll(env, config.allow);
    if allow.None? {
      var i :| 0 <= i < |config.allow| && Compile(env, config.allow[i]).None?;
      assert config.allow[i] in config.allow + config.deny;
      return None;
    }
    var deny := CompileAll(env, config.deny);
    if deny.None? {
      var i :| 0 <= i < |config.deny| && Compile(env, config.deny[i]).None?;
      assert config.deny[i] in config.allow + config.deny;
      return None;
    }
    CompiledRules(env, allow.value, config.allow);
    CompiledRules(env, deny.value, config.deny);
    r := Some(Checker(allow.value, deny.value, config.defaultAllow));
  }

  /** The resource a check compares with: absolute paths are canonicalised first. */
  function Compared(env: Env, res: string): string {
    if res != "" && IsAbs(res) then CanonicalizePath(env.fs, res) else res
  }

  ghost predicate SomeMatch(env: Env, rules: seq<Rule>, mod: string, category: string, function_: string, res: string) {
    exists i :: 0 <= i < |rules| && RuleMatches(env, rules[i], mod, category, function_, res)
  }

  /** Deny rules first, then allow rules, then the default. */
  ghost predicate Permits(env: Env, c: Checker, mod: string, category: string, function_: string, resource: string) {
    var res := Compared(env, resource);
    && !SomeMatch(env, c.deny, mod, category, function_, res)
    && (SomeMatch(env, c.allow, mod, category, function_, res) || c.defaultAllow)
  }

  method AnyMatches(env: Env, rules: seq<Rule>, mod: string, category: string, function_: string, res: string)
    returns (b: bool)
    requires forall i :: 0 <= i < |rules| ==> Compiled(env.fs, rules[i])
    ensures b <==> SomeMatch(env, rules, mod, category, function_, res)
  {
    for i := 0 to |rules|
      invariant forall k :: 0 <= k < i ==> !RuleMatches(env, rules[k], mod, category, function_, res)
    {
      var matched := Matches(env, rules[i], mod, category, function_, res);
      if matched {
        return true;
      }
    }
    b := false;
  }

  method Allows(env: Env, c: Checker, mod: string, category: string, function_: string, resource: string)
    returns (b: bool)
    requires ValidChecker(env, c)
    ensures b <==> Permits(env, c, mod, category, function_, resource)
    // a deny rule decides, else an allow rule, else the default; absolute paths are resolved first
    ensures var res := if IsAbs(resource) then Render(Canonical(env.fs, Segments(resource))) else resource;
      b <==> && (forall i :: 0 <= i < |c.deny| ==> !RuleMatches(env, c.deny[i], mod, category, function_, res))
             && (c.defaultAllow || exists i ::
                   0 <= i < |c.allow| && RuleMatches(env, c.allow[i], mod, category, function_, res))
  {
    var res := Compared(env, resource);
    var denied := AnyMatches(env, c.deny, mod, category, function_, res);
    if denied {
      return false;
    }
    var allowed := AnyMatches(env, c.allow, mod, category, function_, res);
    b := allowed || c.defaultAllow;
  }

  /** Lexical traversal is undone before any rule is looked at: a name and two dots after it may be
      left out of the resource of a call without changing what is permitted. */
  lemma TraversalIsLexical(
    env: Env, c: Checker, mod: string, category: string, function_: string, s: string, x: string, t: string)
    requires IsAbs(s) && Ordinary(x)
    ensures Permits(env, c, mod, category, function_, s + "/" + x + "/../" + t)
       <==> Permits(env, c, mod, category, function_, s + "/" + t)
  {
    UpCancels(s, x, t);
    assert Compared(env, s + "/" + x + "/../" + t) == Compared(env, s + "/" + t);
  }

  datatype Verdict = Permitted | BlockedByRule | NoAllowRule(suggest: string)

  /** Check, on a thread with a checker: no error exactly when `Allows` is true, and otherwise
      the reason and, without a deny rule, the profile to move up to. */
  method Check(env: Env, c: Checker, ladder: seq<Rung>, mod: string, category: string, function_: string, resource: string)
    returns (v: Verdict)
    requires ValidChecker(env, c) && forall i :: 0 <= i < |ladder| ==> ValidChecker(env, ladder[i].checker)
    ensures v.Permitted? <==> Permits(env, c, mod, category, function_, resource)
    ensures v.BlockedByRule? <==> SomeMatch(env, c.deny, mod, category, function_, Compared(env, resource))
    ensures v.NoAllowRule? ==> IsSuggestion(env, ladder, mod, category, function_, resource, v.suggest)
  {
    var res := Compared(env, resource);
    var denied := AnyMatches(env, c.deny, mod, category, function_, res);
    if denied {
      return BlockedByRule;
    }
    var allowed := AnyMatches(env, c.allow, mod, category, function_, res);
    if allowed || c.defaultAllow {
      return Permitted;
    }
    var suggest := SuggestProfile(env, ladder, mod, category, function_, resource);
    v := NoAllowRule(suggest);
  }

  // ---------------------------------------------------------------- the profile ladder

  /** A rule before it is written down: `module.category`, with a resource or without. */
  datatype RuleSpec = RuleSpec(mod: string, category: string, resource: Option<string>)

  const SANDBOX_PATH_RULES := [
    RuleSpec("fs", "read", Some("$CWD/**")),
    RuleSpec("fs", "write", Some("$CWD/**")),
    RuleSpec("fs", "delete", Some("$CWD/**")),
    RuleSpec("os", "env", None),
    RuleSpec("io", "prompt", None),
    RuleSpec("sql", "open", Some("sqlite:$CWD/**")),
    RuleSpec("sql", "open", Some("sqlite::memory:"))]

  const SANDBOX_EXEC_RULES := [RuleSpec("os", "exec", None), RuleSpec("os", "shell", None)]

  const SANDBOX_NET_RULES := [
    RuleSpec("http", "client", None),
    RuleSpec("http", "server", None),
    RuleSpec("ssh", "connect", None),
    RuleSpec("ssh", "transfer", None),
    RuleSpec("sql", "open", Some("postgres:**")),
    RuleSpec("sql", "open", Some("mysql:**")),
    RuleSpec("k8s", "read", None),
    RuleSpec("k8s", "write", None),
    RuleSpec("k8s", "config", None),
    RuleSpec("mcp", "client", None),
    RuleSpec("mcp", "server", None),
    RuleSpec("containers", "*", None)]

  function RuleText(spec: RuleSpec): string {
    if spec.resource.Some? then Scoped(spec.mod, spec.category, spec.resource.value) else Unscoped(spec.mod, spec.category)
  }

  function Texts(specs: seq<RuleSpec>): seq<string> {
    seq(|specs|, i requires 0 <= i < |specs| => RuleText(specs[i]))
  }

  /** The rules of profile `p`, from the bottom up. */
  function Rules(p: nat): seq<RuleSpec> {
    if p == 0 then SANDBOX_PATH_RULES
    else if p == 1 then SANDBOX_PATH_RULES + SANDBOX_EXEC_RULES
    else if p == 2 then SANDBOX_PATH_RULES + SANDBOX_EXEC_RULES + SANDBOX_NET_RULES
    else [RuleSpec("*", "*", None)]
  }

  datatype Profile = Profile(name: string, config: Config)

  const PROFILES := [
    Profile("sandbox-path", Config(Texts(Rules(0)), [], false)),
    Profile("sandbox-exec", Config(Texts(Rules(1)), [], false)),
    Profile("sandbox-net", Config(Texts(Rules(2)), [], false)),
    Profile("unconfined", Config(Texts(Rules(3)), [], true))]

  predicate Named(spec: RuleSpec) {
    Names(spec.mod, spec.category)
  }

  lemma LocalRulesNamed()
    ensures forall i :: 0 <= i < |SANDBOX_PATH_RULES| ==> Named(SANDBOX_PATH_RULES[i])
    ensures forall i :: 0 <= i < |SANDBOX_EXEC_RULES| ==> Named(SANDBOX_EXEC_RULES[i])
  {
  }

  lemma LowerNetRuleNamed(i: nat)
    requires i < 6
    ensures Named(SANDBOX_NET_RULES[i])
  {
  }

  lemma UpperNetRuleNamed(i: nat)
    requires 6 <= i < 12
    ensures Named(SANDBOX_NET_RULES[i])
  {
  }

  lemma RuleNamed(p: nat, i: nat)
    requires i < |Rules(p)|
    ensures Named(Rules(p)[i])
  {
    LocalRulesNamed();
    var local := |SANDBOX_PATH_RULES| + |SANDBOX_EXEC_RULES|;
    if p == 2 && local <= i {
      if i < local + 6 { LowerNetRuleNamed(i - local); } else { UpperNetRuleNamed(i - local); }
    }
  }

  lemma TextCompiles(env: Env, spec: RuleSpec)
    requires Named(spec)
    ensures Compile(env, RuleText(spec)).Some?
  {
    if spec.resource.Some? {
      ScopedParses(env.fs, spec.mod, spec.category, spec.resource.value);
    } else {
      UnscopedParses(env.fs, spec.mod, spec.category);
    }
  }

  /** Every rule of the built-in profiles parses, so no rung is ever missing. */
  lemma ProfileParses(env: Env, p: nat)
    requires p < |PROFILES|
    ensures forall i :: 0 <= i < |Rules(p)| ==> Compile(env, Texts(Rules(p))[i]).Some?
  {
    forall i | 0 <= i < |Rules(p)| ensures Compile(env, Texts(Rules(p))[i]).Some? {
      RuleNamed(p, i);
      TextCompiles(env, Rules(p)[i]);
    }
  }

  datatype Rung = Rung(name: string, checker: Checker)

  /** The rungs whose configuration compiled, in ladder order; `at[i]` is the profile of rung i. */
  ghost predicate IsLadder(env: Env, ladder: seq<Rung>, at: seq<nat>) {
    && |at| == |ladder|
    && (forall i, j :: 0 <= i < j < |at| ==> at[i] < at[j])
    && forall i :: 0 <= i < |ladder| ==> at[i] < 4 && BuiltFrom(env, ladder[i], at[i])
  }

  ghost predicate BuiltFrom(env: Env, rung: Rung, p: nat)
    requires p < 4
  {
    var profile := PROFILES[p];
    && rung.name == profile.name && ValidChecker(env, rung.checker)
    && CompiledFrom(env, rung.checker.allow, profile.config.allow)
    && CompiledFrom(env, rung.checker.deny, profile.config.deny)
    && rung.checker.defaultAllow == profile.config.defaultAllow
  }

  lemma ProfileCompiles(env: Env, p: nat)
    requires p < |PROFILES|
    ensures !exists q :: q in PROFILES[p].config.allow + PROFILES[p].config.deny && Compile(env, q).None?
  {
    ProfileParses(env, p);
  }

  lemma LadderSnoc(env: Env, ladder: seq<Rung>, at: seq<nat>, rung: Rung, p: nat)
    requires IsLadder(env, ladder, at) && (forall i :: 0 <= i < |at| ==> at[i] < p)
    requires p < 4 && BuiltFrom(env, rung, p)
    ensures IsLadder(env, ladder + [rung], at + [p])
  {
  }

  /** getSuggestLadder without its cache: no profile is ever missing from it. */
  method GetSuggestLadder(env: Env) returns (ladder: seq<Rung>)
    ensures IsLadder(env, ladder, [0, 1, 2, 3])
  {
    ladder := [];
    ghost var at: seq<nat> := [];
    for p := 0 to |PROFILES|
      invariant IsLadder(env, ladder, at) && forall i :: 0 <= i < |at| ==> at[i] < p
      invariant at == [0, 1, 2, 3][..p]
    {
      var built := NewPermissionChecker(env, PROFILES[p].config);
      ProfileCompiles(env, p);
      if built.Some? {
        LadderSnoc(env, ladder, at, Rung(PROFILES[p].name, built.value), p);
        ladder := ladder + [Rung(PROFILES[p].name, built.value)];
        at := at + [p];
      }
    }
  }

  /** Lower profiles' rules are a prefix of higher ones', up to the top, which allows all. */
  lemma ProfilesGrow(p: nat, q: nat)
    requires p < q < |PROFILES|
    ensures PROFILES[q].config.defaultAllow || PROFILES[p].config.allow <= PROFILES[q].config.allow
    ensures !PROFILES[p].config.defaultAllow
    ensures PROFILES[p].config.deny == PROFILES[q].config.deny == []
  {
  }

  /** Without deny rules, more allow patterns permit more. */
  lemma MorePatterns(
    env: Env, lower: Checker, upper: Checker, ps: seq<string>, qs: seq<string>,
    mod: string, category: string, function_: string, resource: string)
    requires CompiledFrom(env, lower.allow, ps) && CompiledFrom(env, upper.allow, qs)
    requires ps <= qs && upper.deny == [] && !lower.defaultAllow
    requires Permits(env, lower, mod, category, function_, resource)
    ensures Permits(env, upper, mod, category, function_, resource)
  {
    var res := Compared(env, resource);
    var k :| 0 <= k < |lower.allow| && RuleMatches(env, lower.allow[k], mod, category, function_, res);
    assert ps[k] == qs[k];
    assert upper.allow[k] == lower.allow[k];
  }

  /** The ladder is upward closed: what a rung grants, every rung above it grants. */
  lemma LadderUpwardClosed(
    env: Env, ladder: seq<Rung>, at: seq<nat>, i: nat, j: nat,
    mod: string, category: string, function_: string, resource: string)
    requires IsLadder(env, ladder, at) && i < j < |ladder|
    requires Permits(env, ladder[i].checker, mod, category, function_, resource)
    ensures Permits(env, ladder[j].checker, mod, category, function_, resource)
  {
    var lower, upper := PROFILES[at[i]].config, PROFILES[at[j]].config;
    ProfilesGrow(at[i], at[j]);
    assert BuiltFrom(env, ladder[i], at[i]) && BuiltFrom(env, ladder[j], at[j]);
    assert ladder[j].checker.deny == [];
    if !upper.defaultAllow {
      MorePatterns(env, ladder[i].checker, ladder[j].checker, lower.allow, upper.allow, mod, category, function_, resource);
    }
  }

  /** The suggestion is the least rung that grants the call, or the top when none does. */
  ghost predicate IsSuggestion(
    env: Env, ladder: seq<Rung>, mod: string, category: string, function_: string, resource: string, name: string)
  {
    || (exists i :: 0 <= i < |ladder| && IsLeastRung(env, ladder, i, mod, category, function_, resource) && name == ladder[i].name)
    || (name == "unconfined" &&
        forall i :: 0 <= i < |ladder| ==> !Permits(env, ladder[i].checker, mod, category, function_, resource))
  }

  ghost predicate IsLeastRung(
    env: Env, ladder: seq<Rung>, i: nat, mod: string, category: string, function_: string, resource: string)
    requires i < |ladder|
  {
    && Permits(env, ladder[i].checker, mod, category, function_, resource)
    && forall k :: 0 <= k < i ==> !Permits(env, ladder[k].checker, mod, category, function_, resource)
  }

  method SuggestProfile(env: Env, ladder: seq<Rung>, mod: string, category: string, function_: string, resource: string)
    returns (name: string)
    requires forall i :: 0 <= i < |ladder| ==> ValidChecker(env, ladder[i].checker)
    ensures IsSuggestion(env, ladder, mod, category, function_, resource, name)
  {
    for i := 0 to |ladder|
      invariant forall k :: 0 <= k < i ==> !Permits(env, ladder[k].checker, mod, category, function_, resource)
    {
      var allowed := Allows(env, ladder[i].checker, mod, category, function_, resource);
      if allowed {
        assert IsLeastRung(env, ladder, i, mod, category, function_, resource);
        return ladder[i].name;
      }
    }
    name := "unconfined";
  }

  /** The suggested rung and exactly those above it grant the call. */
  lemma SuggestionIsThreshold(
    env: Env, ladder: seq<Rung>, at: seq<nat>, i: nat, mod: string, category: string, function_: string, resource: string)
    requires IsLadder(env, ladder, at) && i < |ladder|
    requires IsLeastRung(env, ladder, i, mod, category, function_, resource)
    ensures forall j :: 0 <= j < |ladder| ==>
      (Permits(env, ladder[j].checker, mod, category, function_, resource) <==> i <= j)
  {
    forall j | i < j < |ladder| ensures Permits(env, ladder[j].checker, mod, category, function_, resource) {
      LadderUpwardClosed(env, ladder, at, i, j, mod, category, function_, resource);
    }
    Threshold(env, ladder, i, mod, category, function_, resource);
  }

  lemma Threshold(
    env: Env, ladder: seq<Rung>, i: nat, mod: string, category: string, function_: string, resource: string)
    requires i < |ladder| && IsLeastRung(env, ladder, i, mod, category, function_, resource)
    requires forall j :: i < j < |ladder| ==> Permits(env, ladder[j].checker, mod, category, function_, resource)
    ensures forall j :: 0 <= j < |ladder| ==>
      (Permits(env, ladder[j].checker, mod, category, function_, resource) <==> i <= j)
  {
  }
}
