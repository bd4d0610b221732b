# Starkite, verified models of its decision code

Starkite runs Starlark scripts under a permission system, a sandbox and a module loader, and its
cloud edition lets a script act as a Kubernetes controller. Most of the repository is I/O. Between
the I/O lie small algorithms that decide something: which system calls a sandboxed process may
make, which paths a rule grants, in which order modules load, when a finalizer may be removed.
This project models those algorithms in Dafny, in the form the Go code has (loops and in-place
updates as methods and classes, recursion as functions), and proves what they are for.

| file | what it models |
|---|---|
| `Seccomp.dfy` | the compiler from sandbox options to a classic BPF program, with a machine that runs it |
| `Finalizers.dfy` | the finalizer protocol of the controller, as a state machine of API server, stale cache, workers and everybody else |
| `Children.dfy` | applying desired children and pruning orphaned ones |
| `Globs.dfy`, `Permissions.dfy` | recursive `**` matching, rules, their compiled form, the checker, the profile ladder |
| `Paths.dfy` | canonical paths over symbolic links |
| `GrantPatterns.dfy`, `Grants.dfy`, `Boundaries.dfy` | the patterns path rules are stored with, what path grants really grant, and when that is the directory and what lies below it |
| `Profiles.dfy` | what single rules, the rungs of the ladder and the workspace rules of the sandbox profiles permit |
| `Graphs.dfy` | walks, reachability, cycles and completion orders, used by the three graph walks below |
| `StaticClosure.dfy` | the static walk over load() statements, mutually recursive between files and directories |
| `ModuleLoader.dfy` | the run-time module loader over its cache, with cycle detection |
| `Resolver.dfy`, `LooseResolver.dfy` | dependency resolution with lock reuse, and its cache-only form |
| `CommandLine.dfy` | the command line tokenizer and printer, against a grammar of shell words |
| `Drift.dfy` | drifted fields of nested objects and the line diff |
| `Mounts.dfy`, `Sorting.dfy` | the mount list of a sandbox profile as a layered map |
| `BoundedBuffer.dfy` | the diagnostic buffer that keeps the newest bytes |
| `Common.dfy` | optional values and string prefixes, shared by the others |

`dafny verify dfyconfig.toml` checks everything.

## What the code turns out to do

Several properties one would expect hold only under a condition. The code is modelled as it is;
each condition below is proved exact, or its failure is shown on an input.

- The jumps of the seccomp program are cut to eight bits. A denied list of any length is enforced
  exactly for its last 246 entries with network blocking and 252 without
  (`Seccomp.EnforcesEffective`); without repetitions the program is the policy if and only if the
  list is no longer than that (`Seccomp.DistinctListEnforcedIff`). The shipped lists have 15 or 17
  entries.
- `CanonicalizePath` is idempotent except where the 255 links that `EvalSymlinks` follows run out
  (`Paths.CanonicalIdempotentIff`, `Paths.CanonicalIdempotent`); a chain of 255 links is a file
  system on which a second call gives another path (`Paths.CanonicalNotIdempotent`).
- A granted directory is canonicalised when its rule is compiled, and the stored pattern once more
  when it is matched; and wildcard characters in a canonical directory act as wildcards. The rules
  of a directory allow exactly what is at or below it if and only if no star is stored, the stored
  text singles out the canonical directory among all canonical paths, and that is not the root,
  unless it was written with slashes alone (`Boundaries.RespectsBoundariesIff`; for directories
  without special characters `Boundaries.LiteralBoundariesIff`). So it fails for "/..", whose pattern
  is `//**` (`Boundaries.DotDotGrantsOnlyRoot`), for a directory that a second canonicalisation
  moves, and for a link to a directory named `a?`, which grants the tree of `ab` as well
  (`Boundaries.WildLinkGrantsSiblings`). Where a bracket or a backslash is stored, or a star together
  with wildcards that a second canonicalisation moves, only the "if" is proved.
- The workspace rules of the sandbox profiles are `$CWD/**`. They permit exactly the working directory
  and what is below it (`Profiles.SandboxIsWorkspace`), except in the root: there the pattern is
  `//**`, and they permit the root directory alone.
- `Join` does not print an empty command, so its arguments move up by one
  (`CommandLine.ParseJoinIff`).
- A finalizer patch is addressed by name. As long as names are never reused, a finalizer leaves an
  object only after its teardown succeeded (`Finalizers.RunsAreSafe`). With reused names a stale view
  can strip the finalizer of the new object (`Finalizers.ReusedNameLosesFinalizer`): a run is safe
  throughout if and only if no strip patch in it is accepted by an object that carries our finalizer
  and was never finalized (`Finalizers.RunIsSafeIff`). It never happens while
  the stored object still is the object of the view (`Finalizers.SameObjectStripIsSafe`).
- Finalizer patches replace the whole array. A strip patch that the server accepts still keeps the
  finalizers of other controllers, however stale its view, when names are not reused
  (`Finalizers.StripsKeepForeign`). An add patch does not: it loses whatever another controller added
  after the view was taken (`Finalizers.AddCanLoseForeign`), and keeps the others exactly if the view
  is current in them (`Finalizers.AddKeepsForeignIff`; the same of one strip patch
  `Finalizers.StripKeepsForeignIff`).
- A cluster-scoped child that a handler writes with a namespace is recorded as desired under one
  key and stored under another, so it is pruned right after it was applied
  (`Children.JustAppliedSurvivesIff`, `Children.JustAppliedCanBePruned`).

## Model

| member | source | states |
|---|---|---|
| Seccomp.EnforcesEffective | libkite/sandbox/bpf_linux.go:88-153 | for every denied list, option set and (arch, nr, low word of arg 0), running the emitted code returns the policy verdict for the last 246 or 252 entries, without faulting, and every branch stays inside the program |
| Seccomp.RunWhole | libkite/sandbox/bpf_linux.go:88-153 | the same for any program laid out like this, input by input |
| Seccomp.EnforcesPolicyIff | libkite/sandbox/bpf_linux.go:88-113 | the emitted code is the policy iff every denied call still occurs among the last 246 or 252 entries |
| Seccomp.DistinctListEnforcedIff | libkite/sandbox/bpf_linux.go:106-111 | for lists without repetitions that condition is the length alone |
| Seccomp.RunFromCheck | libkite/sandbox/bpf_linux.go:106-111 | from any of the checks on, the verdict is denial iff a remaining check whose jump fits eight bits names the call, else what the rest of the program decides |
| Seccomp.RunPastChecks | libkite/sandbox/bpf_linux.go:113-151 | after the denied list, kill is allowed for pid 0 only and everything else goes to the socket part or is allowed |
| Seccomp.RunSocket | libkite/sandbox/bpf_linux.go:123-144 | the six socket instructions deny exactly the socket call with one of the four blocked domains |
| Seccomp.LaidJumpsStayInside | libkite/sandbox/bpf_linux.go:88-151 | no branch of any instruction leaves the program, whatever the list length |
| Seccomp.Assemble | libkite/sandbox/bpf_linux.go:88-153 | the appending loops build exactly the code the theorems are about, of exactly the precomputed length |
| Seccomp.BuildSeccompFilter | libkite/sandbox/bpf_linux.go:50-154 | fails iff the architecture is unsupported; otherwise, with all codes written out, running the program answers EPERM (or logs, with the audit log) for exactly the denied calls, the scoped kill and the blocked socket domains, EINVAL for a wrong architecture, and allows everything else; its length is fixed by the options |
| Finalizers.RunsAreSafe | cloudkite/modules/k8s/control.go:1200-1352 | over every run in which names are not reused, whatever others do and however stale the cache, our finalizer leaves an object only after a finalize call on it succeeded, and handlers only get views that carry it |
| Finalizers.StepKeepsInv | cloudkite/modules/k8s/control.go:1200-1352 | every single step of the server, the watch, other clients and any worker keeps the invariant behind that |
| Finalizers.FinalizedWasCalled | cloudkite/modules/k8s/control.go:1252-1259 | an object counts as finalized only if a finalize call on a view of it returned without error earlier in the run |
| Finalizers.StripKeepsInv | cloudkite/modules/k8s/control.go:1410-1454 | removing the finalizer from a stale view is safe for whatever is stored under that name, if names are not reused |
| Finalizers.AddKeepsInv | cloudkite/modules/k8s/control.go:1372-1408 | adding the finalizer never takes it from another object and hands the handler a view that has it |
| Finalizers.StripSafeIff | cloudkite/modules/k8s/control.go:1425-1442 | in every tracked state a strip patch keeps the release order exactly when it is not accepted by an object that carries our finalizer and was never finalized |
| Finalizers.RunsAreTracked | cloudkite/modules/k8s/control.go:1200-1454 | names reused or not, every run leads to a tracked state: what carries our finalizer is on record, stored objects are distinct, and workers strip only what was finalized |
| Finalizers.RunIsSafeIff | cloudkite/modules/k8s/control.go:1200-1454 | names reused or not, a run keeps the release order throughout iff no strip patch in it hits such an object |
| Finalizers.StepIsSafeIff | cloudkite/modules/k8s/control.go:1200-1454 | of all steps only such a strip breaks the order |
| Finalizers.SameObjectStripIsSafe | cloudkite/modules/k8s/control.go:1425-1442 | a strip is safe in every run when the stored object still is the object of the view |
| Finalizers.ReusedNameLosesFinalizer | cloudkite/modules/k8s/control.go:1425-1442 | for any name given twice there is a run in which the second object loses the finalizer without teardown |
| Finalizers.AddPatchIs | cloudkite/modules/k8s/control.go:1372-1408 | what ensuring the finalizer does to server, cache and worker: a view that has it goes to the handler as it is; otherwise ours is appended to the finalizers of the view, these and no others are stored, cached and handed on, and a refusal changes nothing |
| Finalizers.StripPatchIs | cloudkite/modules/k8s/control.go:1410-1454 | what stripping does: the finalizers of the view but ours are stored, a deleting object goes away iff none is left, the answer is cached, and a refusal changes nothing |
| Finalizers.AddKeepsForeignIff | cloudkite/modules/k8s/control.go:1373-1399 | when a worker's add patch is accepted, the stored object carries our finalizer, and it keeps those of all other controllers iff the view was current in them |
| Finalizers.StripKeepsForeignIff | cloudkite/modules/k8s/control.go:1411-1442 | when a worker's strip patch is accepted, ours is gone, and those of all other controllers stay iff the view was current in them |
| Finalizers.StripsKeepForeign | cloudkite/modules/k8s/control.go:1410-1442 | in every run without reused names, a worker's strip step keeps the finalizers of all other controllers on the stored object |
| Finalizers.RunsDwindle | cloudkite/modules/k8s/control.go:1251-1268 | in such runs, once a version of an object is deleting, the stored object is deleting and only loses finalizers |
| Finalizers.AddCanLoseForeign | cloudkite/modules/k8s/control.go:1373-1399 | a run without reused names in which an add patch removes the finalizer of another controller |
| Finalizers.WithoutKeeps | cloudkite/modules/k8s/control.go:1412-1420 | stripping removes every occurrence of our finalizer and no other entry |
| Finalizers.Controller.AddFinalizer | cloudkite/modules/k8s/control.go:1372-1408 | the method is one protocol step, the add action; on success the stored finalizers are those of the view and ours, cached and handed on, and on failure server and cache are as before and the dispatch ends |
| Finalizers.Controller.RemoveFinalizer | cloudkite/modules/k8s/control.go:1410-1454 | the collecting loop and the patch are one protocol step, the strip action; what changes on the server is that the finalizers of the view but ours are stored, and the answer is cached |
| Finalizers.Controller.Dispatch | cloudkite/modules/k8s/control.go:1200-1313 | with any interference in each of the gaps between its calls a dispatch is a stretch of a protocol run; which way it ends is decided by the view it took and the outcomes of its calls |
| Finalizers.Controller.Others | cloudkite/modules/k8s/control.go:1160-1169 | any actions of other workers and clients are runs of the protocol that leave this worker where it is |
| Children.PruningIsSelective | cloudkite/modules/k8s/control.go:1536-1671 | of everything it did not apply, a whole reconciliation removes exactly the children that the parent owned before, that are not desired, that are of a watched kind, in the namespace listed, and whose listing and deletion succeed; the rest is as it was |
| Children.JustAppliedSurvivesIff | cloudkite/modules/k8s/control.go:1536-1606 | a child just applied is pruned in the same reconciliation exactly when it is cluster-scoped but written with a namespace, watched, shown, not otherwise desired, and both requests succeed |
| Children.ChildrenAreDesired | cloudkite/modules/k8s/control.go:1536-1671 | with well-scoped children and no failures, the children of the parent that the listings show are exactly the desired ones |
| Children.JustAppliedCanBePruned | cloudkite/modules/k8s/control.go:1557-1603 | a concrete cluster-scoped parent and child where that happens |
| Children.LastManifestWins | cloudkite/modules/k8s/control.go:1550-1600 | after a successful reconciliation a child that is still there has the spec of the last manifest written under its key, the owners that manifest names and the parent, keeps the owners the server had from elsewhere, and has no others |
| Children.ApplyAllIs | cloudkite/modules/k8s/control.go:1550-1600 | applying leaves every other object alone and makes the parent an owner of each applied child |
| Children.WithOwnerOwns | cloudkite/modules/k8s/control.go:1608-1622 | afterwards the parent owns the child, and references of other owners are neither added nor lost |
| Children.AddOrUpdateOwnerRef | cloudkite/modules/k8s/control.go:1608-1622 | the in-place loop replaces the first reference of that uid or appends, as the owner function does |
| Children.Controller.AutoWatch | cloudkite/modules/k8s/control.go:774-788 | a kind is watched from now on, except the controller's own |
| Children.Controller.PruneKind | cloudkite/modules/k8s/control.go:1635-1670 | one listing removes exactly its orphans whose deletion succeeds, in whatever order they are listed |
| Children.Controller.PruneOrphanedChildren | cloudkite/modules/k8s/control.go:1624-1671 | all watched kinds together, in whatever order, remove exactly the orphans |
| Children.Controller.ApplyChild | cloudkite/modules/k8s/control.go:1551-1599 | one child is owned, watched and stored, or nothing is stored when its kind is unknown or the request fails |
| Children.Controller.ReconcileDesiredChildren | cloudkite/modules/k8s/control.go:1536-1606 | succeeds iff every child applies, and then the cluster is the applied and pruned one; otherwise exactly the children before the first failure were applied and nothing was pruned |
| Globs.MatchSegments | libkite/permissions.go:484-512 | true iff the path can be cut along the pattern so that each `**` takes any run of segments and every other pattern segment matches exactly one |
| Globs.SplitsCollapse | libkite/permissions.go:487-489 | skipping repeated `**` loses no match and adds none |
| Globs.SplitsStar | libkite/permissions.go:490-498 | trying every suffix after `**` finds a cut iff there is one |
| Globs.SplitsSegment | libkite/permissions.go:500-509 | any other segment matches exactly the first path segment and leaves the rest to the rest |
| Globs.MatchDoublestar | libkite/permissions.go:458-474 | the uncompiled matcher decides the same relation, with the prefix fast path |
| Globs.MatchDoublestarPrecompiled | libkite/permissions.go:476-482 | and so does the precompiled one, given the split pattern |
| Permissions.Matches | libkite/permissions.go:319-391 | the precompiled and the uncompiled branch give the same verdict for every rule and resource, even if the resource was changed after compilation, and it is the meaning of the rule's own resource |
| Permissions.PatternVerdict | libkite/permissions.go:335-388 | one pattern against one resource: the bare stars, executables by base name, malformed patterns with two final stars, and the matcher before the recursive one |
| Permissions.ScopedParses | libkite/permissions.go:237-284 | parsing undoes printing of a rule with a resource |
| Permissions.UnscopedParses | libkite/permissions.go:237-265 | and of one without |
| Permissions.FunctionListParses | libkite/permissions.go:271-299 | identifiers with commas between them, before a colon, become the function filter, and the rest the resource, unless a single letter stands before a slash |
| Permissions.CompileAll | libkite/permissions.go:74-90 | the loop stores the compiled rules in order, or fails iff some pattern does not parse |
| Permissions.NewPermissionChecker | libkite/permissions.go:56-93 | construction fails iff some allow or deny pattern does not parse; otherwise both lists are compiled in order and every rule's precomputed fields are right |
| Permissions.AnyMatches | libkite/permissions.go:150-162 | a rule loop answers whether some rule of the list matches |
| Permissions.Allows | libkite/permissions.go:144-164 | true iff no deny rule matches the resource, canonicalised if it is absolute, and an allow rule does or the default allows |
| Permissions.TraversalIsLexical | libkite/permissions.go:393-411 | whatever the rules and the file system, a call on a path with a name and two dots after it inside is permitted iff the call on the path without both is |
| Permissions.Check | libkite/permissions.go:96-138 | no error iff that holds; the error tells a deny rule from a missing grant, and the latter carries the right suggestion |
| Permissions.ProfileParses | libkite/permissions.go:618-669 | every rule of the built-in profiles parses, whatever the directories are, so no rung is ever missing |
| Permissions.GetSuggestLadder | libkite/permissions.go:904-938 | the ladder always consists of all four profiles in order |
| Permissions.ProfilesGrow | libkite/permissions.go:615-669 | each profile's rules are a prefix of the next one's up to the top, and none denies |
| Permissions.MorePatterns | libkite/permissions.go:144-164 | without deny rules, a checker with more patterns permits at least as much |
| Permissions.LadderUpwardClosed | libkite/permissions.go:615-669 | for every call, what a rung grants every rung above it grants |
| Permissions.SuggestProfile | libkite/permissions.go:943-950 | the answer is the least rung that grants the call, or the top when none does |
| Permissions.SuggestionIsThreshold | libkite/permissions.go:943-950 | the suggested rung and exactly those above it grant the call |
| Profiles.UnscopedMatches | libkite/permissions.go:319-335 | a rule without a resource permits its module and category, stars standing for any, for every function and resource |
| Profiles.FunctionsFilter | libkite/permissions.go:328-338 | a function filter lets exactly the listed functions through |
| Profiles.ExecByName | libkite/permissions.go:362-367 | a rule for a bare executable name permits executables of that name in every directory, and no others |
| Profiles.RungCapabilities | libkite/permissions.go:615-669 | which modules and categories each sandbox profile permits outright, and that besides these it permits only workspace files and databases |
| Profiles.TopCapabilities | libkite/permissions.go:598-603 | the top of the ladder permits every call |
| Profiles.CwdExpands | libkite/permissions.go:447-455 | $CWD in front of a resource is replaced by the working directory |
| Profiles.HomeExpands | libkite/permissions.go:447-455 | and $HOME by the home directory |
| Profiles.SandboxWorkspace | libkite/permissions.go:619-630 | every sandbox profile permits reading, writing and deleting exactly what the stored working directory covers, and nothing of the profile else concerns files |
| Profiles.SandboxIsWorkspace | libkite/permissions.go:619-630 | where the working directory is stable and without special characters, that is it and what is below it, and of the root the root alone |
| Profiles.SqliteReadGrants | libkite/permissions.go:687-713 | the rules of a read path let SQLite, and no other driver, open exactly the databases among the files they let be read |
| Paths.EvalSymlinksLongestPrefix | libkite/permissions.go:408-425 | the loop that peels segments off and the loop that puts them back compute the canonical path |
| Paths.SegmentsStep | libkite/permissions.go:397-409 | cleaning, one segment further: a name leads into it, two dots lead up and stay in the root, one dot or nothing leads nowhere |
| Paths.UpCancels | libkite/permissions.go:397-409 | a name and two dots after it cancel, whatever the name stands for and whatever follows |
| Paths.EntryLeads | libkite/permissions.go:412 | a name in a resolved directory leads to nothing, to itself, or on along its link |
| Paths.LinkLeads | libkite/permissions.go:412 | a link resolves as its target does, taken from the root or from the directory of the link, unless the links run out |
| Paths.LinkLeadsUp | libkite/permissions.go:412 | and a target that starts with two dots from the directory above |
| Paths.CanonicalIs | libkite/permissions.go:408-425 | the result is the resolved longest resolvable prefix followed by the remaining segments in order |
| Paths.BeyondResolvable | libkite/permissions.go:411-423 | a prefix resolves iff it is no longer than the one found, so the loop's first success is the longest |
| Paths.CanonicalIdempotentIff | libkite/permissions.go:397-425 | a second call changes nothing iff everything resolved or the first unresolved segment does not resolve on a fresh link budget either |
| Paths.CanonicalIdempotent | libkite/permissions.go:397-425 | in particular whenever the link budget did not run out |
| Paths.RetryMeansLink | libkite/permissions.go:408-425 | a segment that resolves only the second time is a link behind 255 others |
| Paths.ChainWellFormed | libkite/permissions.go:411-418 | the counterexample is a well-formed file system |
| Paths.CanonicalNotIdempotent | libkite/permissions.go:411-418 | on it the second call gives another path |
| Paths.SegmentsOfRender | libkite/permissions.go:401-409 | printing a canonical path and reading it back is the identity |
| Paths.WalkIsPhysical | libkite/permissions.go:412 | a resolved path has no link on the way |
| Paths.PrefixIsStable | libkite/permissions.go:408-425 | every prefix of a path that is its own canonical form is its own canonical form |
| Paths.PrefixIsCanonical | libkite/permissions.go:408-425 | every prefix of a canonical form is a canonical form |
| Paths.NeverExtends | libkite/permissions.go:408-425 | canonicalising never leads from a path to a place below it |
| Grants.PathReadRules | libkite/permissions.go:687-713 | the loop writes, entry by entry, the rules the theorems below speak about |
| Grants.SpaceIsTrimmed | libkite/permissions.go:690-693 | space around an entry makes no difference to its rules, and space alone gives none |
| Grants.EntryRules | libkite/permissions.go:699-710 | the texts of the three rules of a directory, with or without a slash after it |
| Grants.RelativeRules | libkite/permissions.go:694-710 | a relative entry gives the rules of its place below $CWD |
| Grants.DotRules | libkite/permissions.go:694-710 | a dot, with or without a slash, gives those of $CWD |
| Grants.RootRules | libkite/permissions.go:699-703 | the root gives two rules, for everything below it |
| Grants.RulesInTurn | libkite/permissions.go:687-713 | the rules of several entries are those of each in turn |
| Grants.PathReadGrantsPatterns | libkite/permissions.go:687-713 | with every matcher and on every file system, a plain directory not written with slashes alone grants what its two stored patterns match |
| Grants.PathReadGrants | libkite/permissions.go:687-713 | whether or not the canonical directory is stable, if no star, bracket or backslash is stored: q is granted iff the stored directory covers its canonical form segment by segment; nothing if the stored text begins with two slashes, and of a root only the root, unless it was written with slashes alone |
| Boundaries.RespectsBoundariesIff | libkite/permissions.go:687-713 | the segment boundary rule holds for every q iff no star is stored, the stored text singles out the canonical directory, and that is not the root or was written so; where the laws of the matcher do not decide, the "if" |
| Boundaries.LiteralBoundariesIff | libkite/permissions.go:687-713 | for a canonical directory without special characters the rule holds iff canonicalising it again changes nothing and it does not merely resolve to the root |
| Boundaries.UnsafeFails | libkite/permissions.go:687-713 | for every unsafe directory a path on which the rule fails |
| Boundaries.MistakenFails | libkite/permissions.go:335-379 | a stored text that does not single out the directory shows at the directory itself, at its parent part or at a path that looks like it |
| Boundaries.StarFails | libkite/permissions.go:335-379 | a stable directory with a star in it grants some free name that is not below it |
| Boundaries.DotDotGrantsOnlyRoot | libkite/permissions.go:700-710 | "/.." breaks the rule on every file system |
| Boundaries.WildLinkGrantsSiblings | libkite/permissions.go:427-442 | a link to a directory named a? grants the tree of ab |
| GrantPatterns.CompilePathRule | libkite/permissions.go:237-284 | a rule for an absolute pattern is parsed as unscoped by function and stored with its canonical pattern |
| GrantPatterns.RuleIsItsPattern | libkite/permissions.go:319-391 | such a rule matches what its pattern, canonicalised a second time, matches |
| GrantPatterns.CanonicalizeLiteral | libkite/permissions.go:427-442 | a pattern without wildcards is canonicalised whole, and one ending in a recursive wildcard up to it |
| GrantPatterns.StoredIs | libkite/permissions.go:427-442 | of a directory that holds wildcards, and of everything below it, only the part before the first wildcard is resolved |
| GrantPatterns.StableIsStored | libkite/permissions.go:427-442 | a stable directory is stored as it is, wildcards or not |
| GrantPatterns.BelowMatches | libkite/permissions.go:335-379 | a directory without stars followed by `/**` matches exactly the paths it covers, except that the root's pattern matches the root alone |
| GrantPatterns.SelfMatches | libkite/permissions.go:335-379 | the directory itself as a pattern matches exactly what is like it |
| GrantPatterns.CollapsedMatchesNothing | libkite/permissions.go:335-379 | a stored text that begins with two slashes matches no path |
| Graphs.OrderedIsAcyclic | libkite/loader.go:43-91 | what completes after everything it loads is on no cycle |
| Graphs.ClosedUnderReach | libkite/preload.go:82-219 | a set closed under load edges that holds the root holds everything reachable |
| StaticClosure.ResolveStaticLoadClosure | libkite/preload.go:29-241 | ends on every finite file system, cyclic or not; fails iff the script is unreadable; otherwise files, directories and read list are exactly the reachable part, with true contents, sorted lists and no duplicates |
| StaticClosure.Walker.WalkFile | libkite/preload.go:85-185 | afterwards every load target of the file that resolves was walked, even with outer files still under way |
| StaticClosure.Walker.WalkModuleDir | libkite/preload.go:187-219 | a directory may be entered again before it is recorded, and still ends up recorded with all its files walked |
| StaticClosure.Walker.WalkEntries | libkite/preload.go:207-214 | every .star file of the directory is walked and listed |
| StaticClosure.Walker.FollowTarget | libkite/preload.go:108-182 | the target is followed to where the candidate order leads, or nowhere if nothing resolves |
| StaticClosure.Walker.FindCandidate | libkite/preload.go:124-133 | the loop stops at the first candidate that is a file or a module directory |
| StaticClosure.Walker.EverythingReached | libkite/preload.go:82-227 | with nothing under way, every node the root reaches was walked |
| StaticClosure.PathTargetResolves | libkite/preload.go:114-135 | a path or .star target leads to the first file or directory with a manifest among the caller's directory, the working directory and the module paths in order |
| StaticClosure.ModuleTargetResolves | libkite/preload.go:137-182 | any other target leads to the first module directory there, else, if it is a namespace and a name, to the revision the lock pins, else to the first installed one |
| StaticClosure.DirLeadsTo | libkite/preload.go:187-219 | a directory with a readable manifest leads to its .star files and to nothing else |
| StaticClosure.ReadSeeds | libkite/preload.go:50-80 | exactly the script and the readable manifests of the search directories are read first |
| StaticClosure.Dedup | libkite/preload.go:229-238 | the read list keeps every path once and adds none |
| Sorting.SortSorts | libkite/preload.go:215 | the stand-in for the library sort returns a sorted rearrangement |
| Sorting.SortedUnique | libkite/preload.go:215 | a sorted rearrangement under a total order is unique, so the library's algorithm does not matter |
| Sorting.DictionaryOrder | libkite/preload.go:215 | the order of texts: beginnings first, then the smaller character where two first differ |
| ModuleLoader.LoadFresh | libkite/loader.go:43-91 | from an empty cache, loading ends; it succeeds iff the reference resolves and no cycle and no failing module is reachable; then each reachable module was started exactly once and completed after what it loads; nothing that failed is cached |
| ModuleLoader.Runtime.LoadModule | libkite/loader.go:23-34 | a load() statement succeeds for built-ins, else leads to a cached module; it fails only for a broken statement or an unloadable module |
| ModuleLoader.Runtime.LoadExternalModuleFrom | libkite/loader.go:43-91 | success means cached, failure means not loadable and not cached; `loading` is as at entry both ways, and only reachable modules were added |
| ModuleLoader.Runtime.LoadUncached | libkite/loader.go:54-91 | the same after a cache miss, with the cycle test, the load and the clean-up |
| ModuleLoader.Runtime.Begin | libkite/loader.go:55-58 | refuses exactly what is under way, and then the module is on a cycle |
| ModuleLoader.Runtime.Finish | libkite/loader.go:62-90 | caches on success only, and takes the module off the set under way both ways |
| ModuleLoader.Runtime.LoadModuleFromPath | libkite/loader.go:278-392 | a module's files run in order; success means none is broken and everything they load completed |
| ModuleLoader.Runtime.LoadSingleFileModule | libkite/loader.go:295-331 | a file's statements run until one fails |
| ModuleLoader.Runtime.CompletedIsLoadable | libkite/loader.go:43-91 | whatever is cached reaches no cycle and no failing module |
| ModuleLoader.ModuleCache.Get | libkite/cache.go:26-31 | answers what is cached, without changing anything |
| ModuleLoader.ModuleCache.Set | libkite/cache.go:34-39 | stores the module and ends its loading |
| ModuleLoader.ModuleCache.StartLoading | libkite/cache.go:43-51 | marks the path, or refuses and changes nothing |
| ModuleLoader.ModuleCache.StopLoading | libkite/cache.go:54-58 | ends the loading and caches nothing |
| Resolver.EnsureClosure | basekite/resolver/resolver.go:33-48 | resolution ends on every finite graph, cyclic or not, and a failure has a reachable cause; on success every locked module is the entry of the lock whose cached tree is intact, or what its source installs: that has the locked identity, revision and hash, its own or that of its tree; each one's manifest can be read and what it declares is locked; a reachable source that installs another identity is fatal; only what could not be reused was installed |
| Resolver.EnsureAgain | basekite/resolver/resolver.go:33-48 | with the previous lock and intact trees, a second run returns the same lock and installs nothing |
| Resolver.ClosureIsReachable | basekite/resolver/resolver.go:155-178 | with one source per identity, the lock holds exactly the identities reachable from the root |
| Resolver.ClosureUnique | basekite/resolver/resolver.go:158-159 | the lock does not depend on the order in which the dependency map is walked |
| Resolver.RereachedIsLocked | basekite/resolver/resolver.go:184-193 | on the second run every reachable declaration is reusable and was reachable before |
| Resolver.ReresolutionIsFixpoint | basekite/resolver/resolver.go:180-227 | the previous lock is the only possible result of the second run |
| Resolver.Resolver.ResolveDeps | basekite/resolver/resolver.go:158-178 | all declared dependencies and theirs are locked, each as it resolves, or something reachable fails |
| Resolver.Resolver.ResolveNew | basekite/resolver/resolver.go:163-176 | locking before walking the dependencies keeps everything outside the entries under way complete |
| Resolver.Resolver.ResolveOne | basekite/resolver/resolver.go:184-208 | a locked, present and intact revision of the same source is reused, anything else is installed and must have the declared identity |
| LooseResolver.SyncLoose | basekite/resolver/resolver.go:77-107 | succeeds iff everything the script needs, at any depth, is installed; then locks exactly that, each with its source, revision and hash, and with each what it depends on |
| LooseResolver.InstalledRefsAre | basekite/resolver/resolver.go:137-153 | a namespace and a name make an installed reference; relative and absolute paths, .star files and single names do not |
| LooseResolver.Locker.LockInstalled | basekite/resolver/resolver.go:112-135 | locks the module and whatever it depends on, cyclic or not, or something needed is not installed |
| CommandLine.Split | libkite/exec/parse.go:43-145 | the one loop with three flags computes the scanner the theorems are about, errors included |
| CommandLine.SplitFollowsGrammar | libkite/exec/parse.go:43-145 | every line written with the grammar of blanks, quotes, escapes and continuations gets the words, or the error, that the grammar gives it |
| CommandLine.EveryStringParses | libkite/exec/parse.go:43-145 | every string whatever is such a line |
| CommandLine.SplitSucceedsIff | libkite/exec/parse.go:43-145 | Split returns these tokens iff the string is a complete line that means them |
| CommandLine.SplitConcat | libkite/exec/parse.go:43-145 | splitting `a`, whitespace, `b` is splitting `a` and then `b`, errors of `b` included |
| CommandLine.BackslashMeans | libkite/exec/parse.go:43-145 | what a backslash does before each character, between double quotes and outside |
| CommandLine.ErrorsAre | libkite/exec/parse.go:43-145 | which error an open single quote, an open double quote and a last backslash give |
| CommandLine.SeparatorIs | libkite/exec/parse.go:43-145 | exactly the white space characters separate words |
| CommandLine.Quote | libkite/exec/parse.go:165-190 | the output is the string itself if it is not empty and has no space or special character, else the string between double quotes with a backslash before each quote, backslash, dollar sign and backtick; either way it is a text of the grammar |
| CommandLine.SplitQuote | libkite/exec/parse.go:165-190 | splitting a quoted string gives that string as the only token |
| CommandLine.Join | libkite/exec/parse.go:149-161 | the printed line is the quoted words with spaces between them, an empty command left out |
| CommandLine.SplitJoined | libkite/exec/parse.go:149-161 | splitting such a line gives back the words |
| CommandLine.Parse | libkite/exec/parse.go:26-39 | the first token and the rest, or Split's error |
| CommandLine.ParseJoinIff | libkite/exec/parse.go:26-39 | parsing undoes joining iff the command is not empty or there are no arguments |
| Drift.FindDriftedFields | cloudkite/modules/k8s/diff.go:193-235 | the reported paths are exactly those of the places where a field is missing on one side or the values differ and no compared field inside them does; for two objects there are none iff they agree in every compared field |
| Drift.DriftOfKeys | cloudkite/modules/k8s/diff.go:198-229 | the same whatever the order of the keys |
| Drift.DriftOfKey | cloudkite/modules/k8s/diff.go:211-227 | for one field the reported paths are exactly those of such places that begin with it |
| Drift.PathTextIs | cloudkite/modules/k8s/diff.go:211-214 | the text of a path is its names with dots between them |
| Drift.FormatUnifiedDiff | cloudkite/modules/k8s/diff.go:238-267 | ends on all inputs; read back from the text, the diff without added lines is the old text and without removed lines the new one; each line is what the lines used up so far call for: kept iff both sides have the same line next, added iff the next new line occurs in no old line left, else removed; so everything both texts begin with is kept |
| Drift.DiffBody | cloudkite/modules/k8s/diff.go:251-266 | the loop writes an edit list that consumes both sides completely and in order, each edit the choice at the place reached |
| Drift.NextEdit | cloudkite/modules/k8s/diff.go:253-265 | a line is kept iff both sides have it here, and added iff it does not occur later on the old side |
| Drift.ContainsFrom | cloudkite/modules/k8s/diff.go:269-276 | true iff the line occurs at or after the position |
| Drift.LinesAre | cloudkite/modules/k8s/diff.go:239-246 | a line ends at its newline, and what is left after the last one is a line unless it is empty |
| Drift.ReadBack | cloudkite/modules/k8s/diff.go:248-266 | the lines after the header are the edits |
| Drift.DroppingIs | cloudkite/modules/k8s/diff.go:253-265 | filtering by tag recovers each side of the edits |
| Mounts.CompilePaths | libkite/sandbox/profile.go:410-522 | fails at the first mount that does not decode; otherwise destinations are pairwise distinct, the list equals the layered map, and among path entries ancestors come first |
| Mounts.LayersAre | libkite/sandbox/profile.go:410-522 | the mounts of such a list, one by one: the last explicit one to a destination, else the path mounted on itself, writable for write paths, else the first base mount, else the scratch /tmp; and nothing else |
| Mounts.DecodesTo | libkite/sandbox/profile.go:524-572 | which explicit mounts decode, and to what |
| Mounts.ExpandPathIs | libkite/sandbox/profile.go:627-652 | which directory an entry stands for |
| Mounts.CollectPaths | libkite/sandbox/profile.go:411-440 | the collected paths are exactly what the entries expand and clean to, once each, without known ones |
| Mounts.PathMounts | libkite/sandbox/profile.go:442-469 | write paths win over read paths, and the list is sorted |
| Mounts.AddBase | libkite/sandbox/profile.go:471-484 | base mounts fill in only destinations that are free, the first of each |
| Mounts.AddExplicit | libkite/sandbox/profile.go:485-503 | explicit mounts replace what is mounted there, the last one winning |
| Mounts.FrontIsOrdered | libkite/sandbox/profile.go:454-459 | sorting by length puts every ancestor before its descendants |
| Mounts.FirstToUpdate | libkite/sandbox/profile.go:491-497 | overwriting one entry of a list without duplicates changes that destination only |
| BoundedBuffer.Buffer.Write | basekite/cmd/exec.go:280-296 | reports the full length, and the buffer is the end of everything written so far, as long as the capacity allows |
| BoundedBuffer.Buffer.WriteAll | basekite/cmd/exec.go:280-296 | after any sequence of writes it holds exactly the last min(total, capacity) bytes |
| BoundedBuffer.LastOfLast | basekite/cmd/exec.go:284-294 | keeping the tail after every write is keeping the tail of everything |

## Left out

- Grants.PathReadGrants: what a stored star, bracket or backslash grants is stated by Grants.PathReadGrantsPatterns only, as what the pattern matches.
- Boundaries.RespectsBoundariesIff: the "only if" is open where a bracket or a backslash is stored, and where a star is stored and a second canonicalisation moves a canonical directory that holds wildcards; a path with space at its end is the trimmed path, by Grants.SpaceIsTrimmed.
- Profiles.SandboxWorkspace: the text of the working directory holds no wildcard, `$CWD` or `$HOME`, and no star, bracket or backslash is stored for it; other texts are covered by Profiles.RungIsItsRules and Profiles.WorkspaceRule only as what their pattern matches.
- Profiles.ExecByName: the name holds no special character, slash or colon; other patterns are matched as Permissions.PatternVerdict says.
- filepath.Match is a parameter. Of patterns without brackets and backslashes it is assumed that they mean what its documentation says (`Globs.WildMatches`); nothing is assumed of the others.
- Children.ChildrenAreDesired: speaks of the children that the listings show; children in another namespace than a namespaced parent are never listed by the code.
- Finalizers.RunsAreSafe: assumes that names are not reused; RunIsSafeIff and ReusedNameLosesFinalizer say what happens when they are.
- Resolver.ClosureIsReachable: assumes one source per identity, as the lock keeps the first source it meets.
- BoundedBuffer.Buffer.constructor: a negative capacity is excluded, because making the slice panics.
- Seccomp.BuildSeccompFilter: system call numbers are parameters in lists of the documented lengths, as they differ by architecture; other architectures are the unsupported case.
- The kernel's side of sandboxing: attaching filters, Landlock, Seatbelt, AppContainer, containers, gVisor and process execution.
- The Starlark interpreter: scripts are lists of load statements and failures, handlers are calls that succeed or fail.
- Module exports, private symbols, module names, per-module configuration and permission labels in the loader; the cached value is identified by its path.
- How a module reference becomes a path at run time (resolveModulePathFrom) is a table in ModuleLoader; StaticClosure models the candidate order of the static walk.
- ResolveStaticLoadClosure starts from the absolute script and working directory paths; an empty script path and the default for an empty working directory come before that.
- Children arrive as manifests; parsing what a handler returned, and its errors, come before ReconcileDesiredChildren.
- The parser behind extractLoadTargets, directory listings and file contents are a fixed world; files do not change during a walk.
- filepath.Join, Clean, Dir, Base and Abs are parameters in StaticClosure and Mounts; Paths models Clean and EvalSymlinks for absolute Unix paths.
- Windows paths, volume names, drive letters and case folding; the case-insensitive comparison of executable names is a parameter.
- Strings are sequences of Unicode characters: invalid UTF-8 and the difference between byte and character counts are not captured (compilePaths compares byte lengths).
- The difference between nil and empty slices.
- sort.Strings and slices.SortFunc are an insertion sort with the same unique result.
- A Rule is a value: setResource returns the updated rule instead of filling fields in place.
- Error texts, capability hints, the list of allowed patterns in errors and the cache of the suggestion ladder.
- PathWriteRules, the executable and network rule generators, and profile compilation around them.
- Locks and goroutines of the loader, the cache and the checker; the controller's concurrency is modelled as interleaved steps.
- The work queue with its retries and polling, events, self-echo suppression, readiness conditions, related watches, health server and leader election; watch and resync are the delivery of any version there ever was.
- Server-side apply is a merge of owner references and a spec; garbage collection and background deletion are immediate removal.
- cleanObjectForDiff and the assembly of the k8s.diff result; numbers are integers.
- Sync and the writing of lock files; manifests, tree hashes and installation are a fixed world, and so is manager.Install.
- Errors of EnsureClosure and SyncLoose while reading the manifest, the lock or the script, which end the call before the modelled part.
- CLI overrides of mounts, environment and resource limits of sandbox profiles.
