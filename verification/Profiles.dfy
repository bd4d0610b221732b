/** What single rules and the built-in profiles of libkite/permissions.go come to: rules without a
    resource, function filters, executables by name, the texts of the profiles, and what each rung
    of the ladder permits. */
module Profiles {
  import opened Common
  import opened Paths
  import opened Globs
  import opened Permissions
  import opened GrantPatterns
  import opened Grants
  import Boundaries

  // ---------------------------------------------------------------- single rules

  /** `module.category` permits every function on every resource, and nothing else. */
  lemma UnscopedMatches(
    env: Env, mod: string, category: string, m: string, c: string, function_: string, res: string)
    requires Names(mod, category)
    ensures Compile(env, mod + "." + category).Some?
    ensures RuleMatches(env, Compile(env, mod + "." + category).value, m, c, function_, res)
       <==> (mod == "*" || mod == m) && (category == "*" || category == c)
  {
    UnscopedParses(env.fs, mod, category);
  }

  /** A function filter lets exactly the listed functions through, here on any resource. */
  lemma FunctionsFilter(
    env: Env, mod: string, category: string, names: seq<string>, m: string, c: string, function_: string, res: string)
    requires Names(mod, category) && names != [] && forall i :: 0 <= i < |names| ==> IsIdent(names[i])
    ensures var compiled := Compile(env, mod + "." + category + "(" + (JoinCommas(names) + ":" + "*") + ")");
      && compiled.Some?
      && (RuleMatches(env, compiled.value, m, c, function_, res)
          <==> (mod == "*" || mod == m) && (category == "*" || category == c) && function_ in names && res != "")
  {
    FilterCompiles(env, mod, category, names, "*");
    StarRuleMatches(env, Compile(env, mod + "." + category + "(" + (JoinCommas(names) + ":" + "*") + ")").value,
                    m, c, function_, res);
  }

  lemma FilterCompiles(env: Env, mod: string, category: string, names: seq<string>, star: string)
    requires Names(mod, category) && names != [] && star == "*" && forall i :: 0 <= i < |names| ==> IsIdent(names[i])
    ensures var compiled := Compile(env, mod + "." + category + "(" + (JoinCommas(names) + ":" + star) + ")");
      && compiled.Some? && compiled.value.mod == mod && compiled.value.category == category
      && compiled.value.functions == Some(names) && compiled.value.resource == star
  {
    FunctionListParses(env.fs, mod, category, names, star);
    StarStays(env);
  }

  lemma StarRuleMatches(env: Env, r: Rule, m: string, c: string, function_: string, res: string)
    requires r.functions.Some? && r.resource == "*"
    ensures RuleMatches(env, r, m, c, function_, res)
       <==> (r.mod == "*" || r.mod == m) && (r.category == "*" || r.category == c)
            && function_ in r.functions.value && res != ""
  {
  }

  lemma StarStays(env: Env)
    ensures Expand(env, "*") == "*" && CanonicalizePattern(env.fs, "*") == "*"
  {
    ShorterHasNot("*", "$CWD");
    ShorterHasNot("*", "$HOME");
    NothingExpands(env, "*");
  }

  /** `os.exec(name)` permits the executables of that name in any directory. */
  lemma ExecByName(env: Env, name: string, function_: string, d: Path, c: string)
    requires Lawful(env.glob) && IsPath(d) && Ordinary(c)
    requires name != "" && IsLiteral(name) && NoVariables(name) && '/' !in name && ':' !in name
    ensures var text := "os.exec(" + name + ")";
      && Compile(env, text).Some?
      && (RuleMatches(env, Compile(env, text).value, "os", "exec", function_, Render(d + [c]))
          <==> c == name || env.sameExec(c, name))
  {
    var text, res := "os.exec(" + name + ")", Render(d + [c]);
    assert text == Scoped("os", "exec", name);
    assert name[..|name|] == name;
    FindIs(name, ':', |name|);
    ScopedParses(env.fs, "os", "exec", name);
    NothingExpands(env, name);
    assert name[0] in name && name[0] != '/';
    BaseIs(d, c);
    BareNameVerdict(env, name, res);
  }

  lemma BareNameVerdict(env: Env, name: string, res: string)
    requires Lawful(env.glob) && name != "" && IsLiteral(name) && '/' !in name && IsAbs(res)
    ensures PatternMatches(env, "os", "exec", name, false, res)
       <==> Base(res) == name || env.sameExec(Base(res), name)
  {
    PatternVerdict(env, "os", "exec", name, false, res);
    StarlessMatches(name, res);
    assert name[0] in name;
    NoStars(name);
    assert '*' !in name;
    assert "*"[0] == '*' && "**"[0] == '*';
  }

  // ---------------------------------------------------------------- the profiles

  ghost predicate SpecMatches(env: Env, spec: RuleSpec, m: string, c: string, function_: string, res: string) {
    var compiled := Compile(env, RuleText(spec));
    compiled.Some? && RuleMatches(env, compiled.value, m, c, function_, res)
  }

  ghost predicate SomeSpecMatches(
    env: Env, specs: seq<RuleSpec>, m: string, c: string, function_: string, res: string)
  {
    exists i :: 0 <= i < |specs| && SpecMatches(env, specs[i], m, c, function_, res)
  }

  /** What a rung below the top permits is what one of its rules matches. */
  lemma RungIsItsRules(env: Env, rung: Rung, p: nat, m: string, c: string, function_: string, resource: string)
    requires p < 3 && BuiltFrom(env, rung, p)
    ensures Permits(env, rung.checker, m, c, function_, resource)
       <==> SomeSpecMatches(env, Rules(p), m, c, function_, Compared(env, resource))
  {
    var specs, res := Rules(p), Compared(env, resource);
    assert rung.checker.deny == [];
    forall i | 0 <= i < |specs|
      ensures RuleMatches(env, rung.checker.allow[i], m, c, function_, res) <==> SpecMatches(env, specs[i], m, c, function_, res)
    {
      assert Compile(env, Texts(specs)[i]) == Some(rung.checker.allow[i]);
    }
  }

  /** A rule with a resource concerns its own module and category, and calls with a resource. */
  lemma ScopedSpecMatches(env: Env, spec: RuleSpec, m: string, c: string, function_: string, res: string)
    requires Named(spec) && spec.resource.Some? && SpecMatches(env, spec, m, c, function_, res)
    ensures (spec.mod == "*" || spec.mod == m) && (spec.category == "*" || spec.category == c)
  {
    ScopedParses(env.fs, spec.mod, spec.category, spec.resource.value);
  }

  lemma UnscopedSpecMatches(env: Env, spec: RuleSpec, m: string, c: string, function_: string, res: string)
    requires Named(spec) && spec.resource.None?
    ensures SpecMatches(env, spec, m, c, function_, res)
       <==> (spec.mod == "*" || spec.mod == m) && (spec.category == "*" || spec.category == c)
  {
    UnscopedMatches(env, spec.mod, spec.category, m, c, function_, res);
  }

  predicate Lists(specs: seq<RuleSpec>, m: string, c: string) {
    exists i :: 0 <= i < |specs| && specs[i].resource.None? && specs[i].mod == m && specs[i].category in {c, "*"}
  }

  predicate ListsScoped(specs: seq<RuleSpec>, m: string, c: string) {
    exists i :: 0 <= i < |specs| && specs[i].resource.Some? && specs[i].mod == m && specs[i].category == c
  }

  /** Below the top no rule is for every module, and a rule for a workspace file is for $CWD. */
  predicate Ordered(specs: seq<RuleSpec>) {
    forall i :: 0 <= i < |specs| ==>
      && Named(specs[i]) && specs[i].mod != "*" && (specs[i].resource.Some? ==> specs[i].category != "*")
      && (specs[i].mod == "fs" ==> specs[i].resource == Some("$CWD/**"))
  }

  lemma PathRulesList(m: string, c: string)
    ensures Lists(SANDBOX_PATH_RULES, m, c) <==> (m, c) in {("os", "env"), ("io", "prompt")}
    ensures ListsScoped(SANDBOX_PATH_RULES, m, c)
       <==> (m, c) in {("fs", "read"), ("fs", "write"), ("fs", "delete"), ("sql", "open")}
  {
    var specs := SANDBOX_PATH_RULES;
    assert specs[0].mod == "fs" && specs[1].mod == "fs" && specs[2].mod == "fs";
    assert specs[3].mod == "os" && specs[4].mod == "io" && specs[5].mod == "sql" && specs[6].mod == "sql";
  }

  lemma ExecRulesList(m: string, c: string)
    ensures Lists(SANDBOX_EXEC_RULES, m, c) <==> (m, c) in {("os", "exec"), ("os", "shell")}
    ensures !ListsScoped(SANDBOX_EXEC_RULES, m, c)
  {
    assert SANDBOX_EXEC_RULES[0].mod == "os" && SANDBOX_EXEC_RULES[1].mod == "os";
  }

  lemma NetRulesList(m: string, c: string)
    ensures Lists(SANDBOX_NET_RULES, m, c)
       <==> m == "containers"
            || (m, c) in {("http", "client"), ("http", "server"), ("ssh", "connect"), ("ssh", "transfer"), ("k8s", "read"),
                          ("k8s", "write"), ("k8s", "config"), ("mcp", "client"), ("mcp", "server")}
    ensures ListsScoped(SANDBOX_NET_RULES, m, c) <==> (m, c) == ("sql", "open")
  {
    var specs := SANDBOX_NET_RULES;
    assert specs[0].mod == "http" && specs[1].mod == "http" && specs[2].mod == "ssh" && specs[3].mod == "ssh";
    assert specs[4].mod == "sql" && specs[5].mod == "sql" && specs[6].mod == "k8s" && specs[7].mod == "k8s";
    assert specs[8].mod == "k8s" && specs[9].mod == "mcp" && specs[10].mod == "mcp" && specs[11].mod == "containers";
  }

  lemma ListsConcat(a: seq<RuleSpec>, b: seq<RuleSpec>, m: string, c: string)
    ensures Lists(a + b, m, c) <==> Lists(a, m, c) || Lists(b, m, c)
    ensures ListsScoped(a + b, m, c) <==> ListsScoped(a, m, c) || ListsScoped(b, m, c)
  {
    var all := a + b;
    forall i | 0 <= i < |a| ensures all[i] == a[i] {
    }
    forall i | 0 <= i < |b| ensures all[|a| + i] == b[i] {
    }
    if i :| 0 <= i < |all| && all[i].resource.None? && all[i].mod == m && all[i].category in {c, "*"} {
      assert if i < |a| then all[i] == a[i] else all[i] == b[i - |a|];
    }
    if i :| 0 <= i < |all| && all[i].resource.Some? && all[i].mod == m && all[i].category == c {
      assert if i < |a| then all[i] == a[i] else all[i] == b[i - |a|];
    }
  }

  /** What the rungs below the top list without a resource, and what with one. */
  lemma RungLists(p: nat, m: string, c: string)
    requires p < 3
    ensures Lists(Rules(p), m, c)
       <==> || (m, c) in {("os", "env"), ("io", "prompt")}
            || (p >= 1 && (m, c) in {("os", "exec"), ("os", "shell")})
            || (p >= 2 && (m == "containers"
                || (m, c) in {("http", "client"), ("http", "server"), ("ssh", "connect"), ("ssh", "transfer"), ("k8s", "read"),
                              ("k8s", "write"), ("k8s", "config"), ("mcp", "client"), ("mcp", "server")}))
    ensures ListsScoped(Rules(p), m, c) <==> (m, c) in {("fs", "read"), ("fs", "write"), ("fs", "delete"), ("sql", "open")}
  {
    PathRulesList(m, c);
    ExecRulesList(m, c);
    NetRulesList(m, c);
    ListsConcat(SANDBOX_PATH_RULES, SANDBOX_EXEC_RULES, m, c);
    ListsConcat(SANDBOX_PATH_RULES + SANDBOX_EXEC_RULES, SANDBOX_NET_RULES, m, c);
  }

  lemma RungsOrdered(p: nat)
    requires p < 3
    ensures Ordered(Rules(p))
  {
    forall i | 0 <= i < |Rules(p)| ensures Named(Rules(p)[i]) {
      RuleNamed(p, i);
    }
    PartsOrdered();
  }

  lemma PartsOrdered()
    ensures forall i :: 0 <= i < |SANDBOX_PATH_RULES| ==> NotForAll(SANDBOX_PATH_RULES[i])
    ensures forall i :: 0 <= i < |SANDBOX_EXEC_RULES| ==> NotForAll(SANDBOX_EXEC_RULES[i])
    ensures forall i :: 0 <= i < |SANDBOX_NET_RULES| ==> NotForAll(SANDBOX_NET_RULES[i])
  {
  }

  predicate NotForAll(spec: RuleSpec) {
    && spec.mod != "*" && (spec.resource.Some? ==> spec.category != "*")
    && (spec.mod == "fs" ==> spec.resource == Some("$CWD/**"))
  }

  /** The capabilities of each rung below the top, by module and category: the first set is granted
      whatever the function and the resource, and besides only the second can be, for some of them. */
  lemma RungCapabilities(env: Env, rung: Rung, p: nat, m: string, c: string, function_: string, resource: string)
    requires p < 3 && BuiltFrom(env, rung, p)
    ensures || (m, c) in {("os", "env"), ("io", "prompt")}
            || (p >= 1 && (m, c) in {("os", "exec"), ("os", "shell")})
            || (p >= 2 && (m == "containers"
                || (m, c) in {("http", "client"), ("http", "server"), ("ssh", "connect"), ("ssh", "transfer"), ("k8s", "read"),
                              ("k8s", "write"), ("k8s", "config"), ("mcp", "client"), ("mcp", "server")}))
       <==> Lists(Rules(p), m, c)
    ensures Lists(Rules(p), m, c) ==> Permits(env, rung.checker, m, c, function_, resource)
    ensures Permits(env, rung.checker, m, c, function_, resource) ==>
      Lists(Rules(p), m, c) || (m, c) in {("fs", "read"), ("fs", "write"), ("fs", "delete"), ("sql", "open")}
  {
    RungLists(p, m, c);
    RungsOrdered(p);
    RungIsItsRules(env, rung, p, m, c, function_, resource);
    ListedMatches(env, Rules(p), m, c, function_, Compared(env, resource));
  }

  lemma ListedMatches(env: Env, specs: seq<RuleSpec>, m: string, c: string, function_: string, res: string)
    requires Ordered(specs)
    ensures Lists(specs, m, c) ==> SomeSpecMatches(env, specs, m, c, function_, res)
    ensures SomeSpecMatches(env, specs, m, c, function_, res) ==> Lists(specs, m, c) || ListsScoped(specs, m, c)
  {
    if i :| 0 <= i < |specs| && specs[i].resource.None? && specs[i].mod == m && specs[i].category in {c, "*"} {
      UnscopedSpecMatches(env, specs[i], m, c, function_, res);
    }
    if i :| 0 <= i < |specs| && SpecMatches(env, specs[i], m, c, function_, res) {
      if specs[i].resource.Some? {
        ScopedSpecMatches(env, specs[i], m, c, function_, res);
      } else {
        UnscopedSpecMatches(env, specs[i], m, c, function_, res);
      }
    }
  }

  /** The top permits everything. */
  lemma TopCapabilities(env: Env, rung: Rung, m: string, c: string, function_: string, resource: string)
    requires BuiltFrom(env, rung, 3)
    ensures Permits(env, rung.checker, m, c, function_, resource)
  {
  }

  // ---------------------------------------------------------------- the workspace

  /** The two variables are replaced by the directories they stand for. */
  lemma CwdExpands(env: Env, rest: string)
    requires env.cwd != "" && NoVariables(env.cwd + rest) && !Contains(rest, "$CWD")
    ensures Expand(env, "$CWD" + rest) == env.cwd + rest
  {
    var what, s := "$CWD", "$CWD" + rest;
    assert what <= s && s[|what|..] == rest;
    ReplaceNothing(rest, what, env.cwd);
    ReplaceNothing(env.cwd + rest, "$HOME", env.home);
  }

  lemma HomeExpands(env: Env, rest: string)
    requires env.home != "" && !Contains(rest, "$CWD") && !Contains(rest, "$HOME")
    ensures Expand(env, "$HOME" + rest) == env.home + rest
  {
    var what, s := "$HOME", "$HOME" + rest;
    assert what <= s && s[|what|..] == rest;
    HomeIsNotCwd(rest);
    ReplaceNothing(s, "$CWD", env.cwd);
    ReplaceNothing(rest, what, env.home);
  }

  lemma HomeIsNotCwd(rest: string)
    requires !Contains(rest, "$CWD")
    ensures !Contains("$HOME" + rest, "$CWD")
  {
    var cwd, s := "$CWD", "$HOME" + rest;
    assert s[1] == 'H' && cwd[1] == 'C' && !(cwd <= s);
    assert s[1..] == "HOME" + rest;
    NotInFront("HOME", rest, cwd);
  }

  lemma {:induction false} NotInFront(front: string, rest: string, sub: string)
    requires sub != "" && sub[0] !in front && !Contains(rest, sub)
    ensures !Contains(front + rest, sub)
  {
    if front == "" {
      assert front + rest == rest;
    } else {
      var s := front + rest;
      assert s[0] == front[0] && front[0] in front;
      assert s[1..] == front[1..] + rest;
      NotInFront(front[1..], rest, sub);
    }
  }

  /** Which category the call is in does not matter to an absolute pattern. */
  lemma CategoryIrrelevant(env: Env, m: string, c: string, pattern: string, d: Path)
    ensures PatternMatches(env, m, c, pattern, true, Render(d)) <==> PatternGrants(env, pattern, d)
  {
  }

  lemma WorkspaceRule(env: Env, category: string, function_: string, d: Path, stars: string)
    requires category != "" && '(' !in category && stars == "/**"
    requires IsAbs(env.cwd) && IsLiteral(env.cwd) && NoVariables(env.cwd)
    ensures SpecMatches(env, RuleSpec("fs", category, Some("$CWD" + stars)), "fs", category, function_, Render(d))
       <==> PatternGrants(env, StoredPattern(env.fs, env.cwd + stars), d)
  {
    var inner := "$CWD" + stars;
    WithoutColon(inner);
    ScopedParses(env.fs, "fs", category, inner);
    NoVariablesBelow(env.cwd);
    ShorterHasNot(stars, "$CWD");
    CwdExpands(env, stars);
    CanonicalStaysAbs(env.fs, env.cwd + stars);
    CategoryIrrelevant(env, "fs", category, StoredPattern(env.fs, env.cwd + stars), d);
  }

  lemma WithoutColon(inner: string)
    requires ':' !in inner
    ensures SplitFuncsAndResource(inner) == (None, inner)
  {
    assert inner[..|inner|] == inner;
    FindIs(inner, ':', |inner|);
  }

  lemma BelowStored(env: Env, c: Path, d: Path)
    requires WellFormed(env.fs) && Lawful(env.glob) && IsPath(c) && IsPath(d) && IsStarless(StoredText(env.fs, c))
    ensures PatternGrants(env, StoredText(env.fs, c) + "/**", d) <==> CoveredBy(env.fs, c, d)
  {
    StoredTextIs(env.fs, c);
    if Collapses(env.fs, c) {
      CollapsedMatchesNothing(env, c[Resolved(c)..], d);
    } else {
      BelowMatches(env, StoredDir(env.fs, c), d);
    }
  }

  /** Every sandbox profile lets files be read, written and deleted exactly in the workspace: what
      the working directory covers after canonicalisation. */
  lemma SandboxWorkspace(env: Env, rung: Rung, p: nat, category: string, function_: string, q: string)
    requires WellFormed(env.fs) && Lawful(env.glob) && p < 3 && BuiltFrom(env, rung, p) && IsAbs(q)
    requires category in {"read", "write", "delete"}
    requires IsAbs(env.cwd) && IsLiteral(env.cwd) && NoVariables(env.cwd)
    requires IsStarless(StoredText(env.fs, Canonical(env.fs, Segments(env.cwd))))
    ensures Permits(env, rung.checker, "fs", category, function_, q)
       <==> CoveredBy(env.fs, Canonical(env.fs, Segments(env.cwd)), Canonical(env.fs, Segments(q)))
  {
    var d := Canonical(env.fs, Segments(q));
    CanonicalIsPath(env.fs, Segments(q));
    RungIsItsRules(env, rung, p, "fs", category, function_, q);
    WorkspaceOnly(env, p, category, function_, Render(d));
    WorkspaceCovers(env, category, function_, d, "/**");
  }

  lemma WorkspaceCovers(env: Env, category: string, function_: string, d: Path, stars: string)
    requires WellFormed(env.fs) && Lawful(env.glob) && category in {"read", "write", "delete"}
    requires IsPath(d) && stars == "/**"
    requires IsAbs(env.cwd) && IsLiteral(env.cwd) && NoVariables(env.cwd)
    requires IsStarless(StoredText(env.fs, Canonical(env.fs, Segments(env.cwd))))
    ensures SpecMatches(env, RuleSpec("fs", category, Some("$CWD" + stars)), "fs", category, function_, Render(d))
       <==> CoveredBy(env.fs, Canonical(env.fs, Segments(env.cwd)), d)
  {
    CanonicalIsPath(env.fs, Segments(env.cwd));
    WorkspaceRule(env, category, function_, d, stars);
    StoredForDir(env.fs, env.cwd);
    BelowStored(env, Canonical(env.fs, Segments(env.cwd)), d);
  }

  /** No other rule of a sandbox profile concerns files. */
  lemma WorkspaceOnly(env: Env, p: nat, category: string, function_: string, res: string)
    requires p < 3 && category in {"read", "write", "delete"}
    ensures SomeSpecMatches(env, Rules(p), "fs", category, function_, res)
       <==> SpecMatches(env, RuleSpec("fs", category, Some("$CWD" + "/**")), "fs", category, function_, res)
  {
    var specs, spec := Rules(p), RuleSpec("fs", category, Some("$CWD" + "/**"));
    assert "$CWD" + "/**" == "$CWD/**";
    RungLists(p, "fs", category);
    RungsOrdered(p);
    var k :| 0 <= k < |specs| && specs[k].resource.Some? && specs[k].mod == "fs" && specs[k].category == category;
    assert specs[k] == spec;
    forall i | 0 <= i < |specs| && SpecMatches(env, specs[i], "fs", category, function_, res) ensures specs[i] == spec {
      if specs[i].resource.Some? {
        ScopedSpecMatches(env, specs[i], "fs", category, function_, res);
      } else {
        UnscopedSpecMatches(env, specs[i], "fs", category, function_, res);
      }
    }
  }

  /** In particular, where the working directory is stable, has no special characters and is not the
      root: exactly it and what lies below it. In the root the profiles grant the root alone. */
  lemma SandboxIsWorkspace(env: Env, rung: Rung, p: nat, category: string, function_: string, q: string)
    requires WellFormed(env.fs) && Lawful(env.glob) && p < 3 && BuiltFrom(env, rung, p) && IsAbs(q)
    requires category in {"read", "write", "delete"}
    requires IsAbs(env.cwd) && IsLiteral(env.cwd) && NoVariables(env.cwd)
    requires var c := Canonical(env.fs, Segments(env.cwd)); Canonical(env.fs, c) == c && IsLiteral(Render(c))
    ensures var c, d := Canonical(env.fs, Segments(env.cwd)), Canonical(env.fs, Segments(q));
      Permits(env, rung.checker, "fs", category, function_, q) <==> if c == [] then d == [] else c <= d
  {
    var c := Canonical(env.fs, Segments(env.cwd));
    CanonicalIsPath(env.fs, Segments(env.cwd));
    StableIsStored(env.fs, c);
    SandboxWorkspace(env, rung, p, category, function_, q);
    Boundaries.LiteralIsAlone(env.fs, c);
    Boundaries.CoversCanonical(env.fs, c, c, Segments(q));
  }

  // ---------------------------------------------------------------- what a path entry lets SQLite open

  /** Some rule of the list lets a database be opened. */
  ghost predicate Opens(env: Env, rules: seq<string>, driver: string, q: string) {
    exists i :: 0 <= i < |rules| && OpensBy(env, rules[i], driver, Compared(env, q))
  }

  ghost predicate OpensBy(env: Env, rule: string, driver: string, res: string) {
    var r := Compile(env, rule);
    r.Some? && RuleMatches(env, r.value, "sql", "open", driver, res)
  }

  lemma SqliteParses(env: Env, inner: string)
    requires IsAbs(inner) && NoVariables(inner)
    ensures var r := Compile(env, Scoped("sql", "open", "sqlite:" + inner));
      && r.Some? && r.value.mod == "sql" && r.value.category == "open"
      && r.value.functions == Some(["sqlite"]) && r.value.resource == CanonicalizePattern(env.fs, inner)
  {
    var names, driver := ["sqlite"], "sqlite";
    assert JoinCommas(names) == driver && |driver| == 6;
    assert IsIdent(driver);
    assert "sqlite" + ":" == "sqlite:";
    FunctionListParses(env.fs, "sql", "open", names, inner);
    assert Scoped("sql", "open", "sqlite:" + inner) == "sql" + "." + "open" + "(" + (JoinCommas(names) + ":" + inner) + ")";
    NothingExpands(env, inner);
  }

  lemma SqliteRule(env: Env, inner: string, driver: string, d: Path)
    requires IsAbs(inner) && NoVariables(inner)
    ensures OpensBy(env, Scoped("sql", "open", "sqlite:" + inner), driver, Render(d))
       <==> driver == "sqlite" && PatternGrants(env, StoredPattern(env.fs, inner), d)
  {
    SqliteParses(env, inner);
    CanonicalStaysAbs(env.fs, inner);
    CategoryIrrelevant(env, "sql", "open", StoredPattern(env.fs, inner), d);
  }

  lemma OtherModule(env: Env, inner: string, driver: string, res: string)
    ensures !OpensBy(env, Scoped("fs", "read", inner), driver, res)
  {
    ScopedParses(env.fs, "fs", "read", inner);
  }

  /** Of the rules of an entry only the last one can let it. */
  lemma OnlyLastOpens(env: Env, p: string, driver: string, q: string)
    requires PlainDir(p)
    ensures Opens(env, ReadRulesOf([p]), driver, q)
       <==> OpensBy(env, Scoped("sql", "open", "sqlite:" + (TrimSlashes(p) + "/**")), driver, Compared(env, q))
  {
    var rules, dir, res := ReadRules(p), TrimSlashes(p), Compared(env, q);
    PlainDirRules(p);
    RulesEndWith(p);
    var last := |rules| - 1;
    assert rules[last] == Scoped("sql", "open", "sqlite:" + (dir + "/**"));
    forall i | 0 <= i < last ensures !OpensBy(env, rules[i], driver, res) {
      var inner :| rules[i] == Scoped("fs", "read", inner);
      OtherModule(env, inner, driver, res);
    }
  }

  lemma RulesEndWith(p: string)
    requires PlainDir(p)
    ensures var rules := ReadRules(p);
      && rules != [] && rules[|rules| - 1] == Scoped("sql", "open", "sqlite:" + (TrimSlashes(p) + "/**"))
      && forall i :: 0 <= i < |rules| - 1 ==> exists inner :: rules[i] == Scoped("fs", "read", inner)
  {
    var rules, dir, stars := ReadRules(p), TrimSlashes(p), "/**";
    PlainDirRules(p);
    if p == "/" {
      assert TrimSlashes("/"[..0]) == "";
      assert "sqlite:" + ("" + stars) == "sqlite:/**";
      assert rules[0] == Scoped("fs", "read", stars);
    } else {
      TrimSlashesEnd(p);
      assert "sqlite:" + dir + stars == "sqlite:" + (dir + stars);
      assert rules[0] == Scoped("fs", "read", dir + stars) && rules[1] == Scoped("fs", "read", dir);
    }
  }

  lemma SqliteRootGrants(env: Env, driver: string, d: Path, stars: string)
    requires Lawful(env.glob) && IsPath(d) && stars == "/**"
    ensures OpensBy(env, Scoped("sql", "open", "sqlite:" + stars), driver, Render(d)) <==> driver == "sqlite"
  {
    ShorterHasNot(stars, "$CWD");
    ShorterHasNot(stars, "$HOME");
    SqliteRule(env, stars, driver, d);
    RootPattern(env.fs);
    RootMatches(env, d);
  }

  lemma SqliteBelow(env: Env, dir: string, driver: string, d: Path, stars: string)
    requires WellFormed(env.fs) && Lawful(env.glob) && PlainText(dir) && IsPath(d) && stars == "/**"
    requires IsStarless(StoredText(env.fs, Canonical(env.fs, Segments(dir))))
    ensures OpensBy(env, Scoped("sql", "open", "sqlite:" + (dir + stars)), driver, Render(d))
       <==> driver == "sqlite" && CoveredBy(env.fs, Canonical(env.fs, Segments(dir)), d)
  {
    NoVariablesBelow(dir);
    SqliteRule(env, dir + stars, driver, d);
    StoredForDir(env.fs, dir);
    CanonicalIsPath(env.fs, Segments(dir));
    BelowStored(env, Canonical(env.fs, Segments(dir)), d);
  }

  /** A path entry lets SQLite, and no other driver, open the databases among the files it grants. */
  lemma SqliteReadGrants(env: Env, p: string, driver: string, q: string)
    requires WellFormed(env.fs) && Lawful(env.glob) && PlainDir(p) && IsAbs(q)
    requires IsStarless(StoredText(env.fs, Canonical(env.fs, Segments(p))))
    ensures Opens(env, ReadRulesOf([p]), driver, q) <==> driver == "sqlite" && IsGranted(env, ReadRulesOf([p]), "read", q)
  {
    var d, dir := Canonical(env.fs, Segments(q)), TrimSlashes(p);
    CanonicalIsPath(env.fs, Segments(q));
    PathReadGrants(env, p, "read", q);
    OnlyLastOpens(env, p, driver, q);
    TrimSlashesKeeps(p);
    if AllSlashes(p) {
      assert "" + "/**" == "/**";
      SqliteRootGrants(env, driver, d, dir + "/**");
    } else {
      TrimmedIsPlain(p);
      SegmentsTrimmed(p);
      SqliteBelow(env, dir, driver, d, "/**");
    }
  }
}
