# Proofs about the schema compiler

A Dafny model of the parts of the compiler that reason, and proofs of what they are for.

**The check engine** (`cli/check.go`, `cli/check_watch.go`, `internal/buildplan/buildplan.go`). `check` loads every
service of a tree on demand: a load asks for other services' schemas, which may start their loads, through state that
several loads share. `CheckTypes` holds what a load reads and returns, `LeastLoads` says which services of a tree load
(the least set of schemas closed under loading), `CheckRun` gives the engine as functions of its state, and `CheckEngine`
gives it as the program has it, in objects, each method equal to its function. `CheckProofs` and `CheckTheorems` prove
that a run ends with exactly the least set whatever the order and the cycles, each service loaded once; `CheckScope`
that a run of one service and what it depends on is right for those alone; `CheckBlame` that every failure is blamed
along a path that ends at an error, also when the failure is left from an earlier run; and `BuildPlan` finds both the
services an edit affects and those a service depends on. What a run records beside schemas is proved without the engine's
own functions: `ErrorLeaves` says which findings and which blockers an error holds, `CheckFindings` whose each finding of a
load is, and `CheckTrace` gives every schema, failure, finding, blocker and rewritten sentinel of a state in terms of what
each load read.

A watch is runs without end. `WatchFiles` turns two looks at the files into the services to check; `WatchRuns` proves
that any sequence of runs, some of them failing to discover anything, leaves what a check from nothing would; `Watch` has
the settled run, which repeats while sentinels are rewritten, and the loop of looks; `SettledRuns` says why a settled run
ends, in terms of its loads; and `WatchTheorems` joins them: when what is on disk changes only as the files a look finds
edited allow, and each run finds out what that can change, the checker stays right after every look. `WatchReferences`
proves when a run does: it follows the services that decorator arguments name only from the schemas it holds, so it misses
edits that reach a failed service through them alone.

**The graph of generated packages** (`schemadeps/graph.go`). `SchemaDeps` proves the closure's recursive walk against
reachability, `ClosureOrder` says in which order a closure lists what it reaches, cycles and all, and `NormalGraph` which
closures of a graph its normal form, which is what is written, keeps.

**The derived-value codec** (`ir/derived_value.go`, `ir/service_auth.go`, `ir/resource_graph.go`). `Values` is JSON with
references, their encoding and decoding; `ValueRefs` the references a value holds, and `ReferenceOrder` the order they are
found in; `DerivedVariables` the flattening of a value into environment variables, and `VariablePlaces` which variables
those are, from the places of the value (`Places`) and the texts of the names; `JoinedLists` what a joined list renders to.
`Shapes` and `ShapeReader` prove, for any shape of optional members and nested lists, that names never collide and that a
reader recovers the value. `DerivedContracts` and `ServiceAuth` are the checks, and `ContractForms` the forms of what they
accept; `DerivedFields` and `CallersFields` join the two halves: what the checks accept encodes, under the documented names,
and reads back. `CamelNames` and `FieldNames` are about names alone.

**Graphs of declarations** (`ir/env_vars.go`, `cli/build_all.go`, `ir/reference.go`): `EnvVars`, `Scaffold`, `References`, and
`ReferenceRules`, what the lookup of a reference goes by.

**Names and indexes** (`ir/scalar_identity.go`, `ir/memorystore.go`, `ir/job.go`, `ir/docs.go`): `ScalarAliases`,
`MemoryStoreNames`, `KebabCase` and `KebabWords`, where kebab case puts its hyphens, `Capabilities`.

`Basics`, `Order` and `Text` are what the rest stands on: options, sorted names, splitting, joining and decimals.

## How the program is modelled

- A load is a fixed list of services it asks for, the services its decorator arguments name, and a function of the
  schemas it got: `internal/loader/loader.go:372-550` asks for the auth database, the database and the declared
  dependencies in turn and stops at the first that fails. The function may return anything, so every later check of a
  load is in it: warnings, findings in other services' files, `queries.lock` and, but for what they read beside it,
  projection stamps, and whether the load rewrote its sentinel.
- An error is a tree of located findings, failed dependencies, joins and wrappings. A message that begins with a schema
  file's path counts as a located finding. A finding's key is the finding without its owner rather than a joined string.
- Theorems about runs ask for a valid tree (no two services of one name, which discovery refuses,
  `internal/buildplan/buildplan.go:281-300`), that a refused load has a finding (`RefusalsAreExplained`; `ErrorsAreReported`
  says which errors have none), and, for a run of some services, that a load reads only services its config names
  (`ReadsAreEdges`) and records in its schema what its decorator arguments name (`NamesAreRecorded`). Those about blame
  across runs ask that a load's findings be in files of its own service or of one it depends on (`FindingsAreNear`): by
  its config, and for a check of every service by its decorator arguments too. Those about reports ask that a failed
  discovery have a finding.
- Theorems about the findings of a run ask that those kept are tidy: each service's are its own, and each is there once.
  Nothing recorded is tidy, and every run keeps it so (`CheckTrace.RunKeepsPlaces`, `SettledRuns.LooksStayTidy`).
- An edit that names services may change the loads of those services and of the services that depend on them, by their
  configs or by what their decorator arguments name, whatever the checker holds (`SoundEdit`). What a watch's disk may do
  between looks is the same in terms of files (`FollowsFiles`): while no edited file is a config or without an owner, the
  services stay as discovered, and a load changes only when a file of its service, or of one it depends on, was edited.
  Between the runs of one look, each run's disk differs from the last by the sentinels that run rewrote. A watch is right
  for the disk its last run found: if the third run of a look rewrites another sentinel, that write is not yet in it.
- The theorems about runs of what an edit affects ask that the run find out what the edit can change (`IsFollowed`): what
  the checker answers for and depends on a changed service does so by edges it knows, the configs' and those of the
  schemas it holds. `WatchReferences.FollowedExactly` proves that nothing less will do.
- Discovery, the file system and the clock are parameters: a run is given what it would find on disk.
- JSON numbers are reals, and text is characters; a memory store's names are bytes. Case mapping is ASCII's.
- Literal keys' kids are a parameter (`KeyReader`) in place of JWK and PEM parsing.
- A lifetime of 2^63 seconds or more, whose conversion Go leaves to the platform, is refused.

## Where the code does not do what it says

- `docs/src/content/docs/reference/cli.md:199-203` says a watch re-checks every service that depends on an edited one,
  through the configs and what decorator arguments name. `cli/check.go:495-510` takes the latter from the last clean load,
  so a service that fails loses those edges. Where a stack fails because an API it names only in decorators lost a job,
  giving the job back re-checks the API and not the stack, whose failure stays
  (`WatchReferences.RestoredJobIsMissed`, and `RemovedThenRestored` from a tree in order).
  `WatchReferences.FollowedExactly` and `OnlyFailuresAreMissed` give the exact condition: a run is right for whatever the
  edit leaves exactly when no service it answers for depends on a changed one only through edges it does not know, and
  when it answers for every service only those held without a schema can. After an OK report of every service there are
  none (`WatchReferences.OkIsFollowed`).
- `ir/derived_value.go:621-657` says a list with references is joined into a concatenation the platform renders. A
  concatenation in the list that has a comma in a literal part splits in two when the variable is read
  (`JoinedLists.LiteralCommaSplits`); `JoinedLists.ListSplits` gives the exact condition.
- `ir/env_vars.go:8-19` says the class returned holds every `@envVars` field. Two classes that extend each other make
  the search return an unrelated third (`EnvVars.MutualPairMisleads`). `EnvVars.ConfigHoldsEvery` gives the exact
  condition on the schema: of every two classes that extend each other, each is extended by a class it does not extend.
- `ir/service_auth.go:191-199` accepts any whole lifetime, and the encoding refuses one above 2^53
  (`CallersFields.LongLifetimeIsRefused`); `CallersFields.AcceptedCallersDerive` gives the exact condition.
- `ir/service_auth.go:30-34` says a callers field begins with no other derived field's name and an underscore. As a
  statement about names it fails: the field of a call to `shop` begins the callers field of `shop-service-api`
  (`FieldNames.AnotherFieldClaimsCallers`), and `FieldNames.CallersFieldIsClaimed` gives the exact condition. A server
  with both does not get past `internal/stack/callers.go:45-67`, which refuses the collision: the comment is wrong, and
  what is deployed is not.
- `schemadeps/graph.go:131-145` trims dependencies and not ids, so nothing depends any more on a package whose id begins
  with a space once the graph is written (`NormalGraph.UntrimmedIsLost`); `NormalGraph.NormalClosures` says exactly
  when a closure is kept.
- `ir/job.go:67-69` and `ir/memorystore.go:224-225` describe one rule, kebab case, and differ: `KebabCase.KebabsDiffer`
  says by how much and when.

## Model

| member | source | states |
|---|---|---|
| `CheckTypes.ErrorsAreReported` | cli/check.go:216-267 | Splitting a load's error leaves neither finding nor blocker exactly when the error holds nothing |
| `CheckTypes.OwnerIsFirst` | cli/check.go:512-519 | A file's owner is the first discovered service whose directory holds the file; it is "" when none does, and, where services have names, only then |
| `ErrorLeaves.LocationIsThere` | cli/check.go:276-284 | An error carries a location exactly when a located error, a list of them or a failed dependency is somewhere in it, through joins and wrappings |
| `ErrorLeaves.FindingsAreLeaves` | cli/check.go:216-274 | The findings of an error are exactly its leaves that are no dependency, one each, from left to right, with absolute files and as errors; a wrapping around no location is one leaf, its message |
| `ErrorLeaves.BlockersAreLeaves` | cli/check.go:216-274 | Its blockers are exactly the dependencies among its leaves |
| `LeastLoads.StagesEnd` | cli/check.go:575-653 | Loading in rounds from nothing ends, at services that load with exactly each other's schemas, and that every set of schemas closed under loading holds: the least such set |
| `LeastLoads.LoadsAreTheLastStage` | cli/check.go:575-653 | So there is one such set, `Loads` |
| `LeastLoads.CyclesNeverLoad` | cli/check.go:676-699 | Services that each read one of themselves never load |
| `LeastLoads.AgreementOutside` | cli/check.go:375-464 | Two trees whose loads agree outside some services, which no other load reads, load the same services outside them |
| `CheckFindings.OwnerBelongs` | cli/check.go:637-643 | A finding belongs to the first service whose directory holds its file, and to the service loaded when none does |
| `CheckFindings.AllAreAttributed` | cli/check.go:637-652 | Attribution gives each finding to the service it belongs to, once and with that service as owner, after what is kept; adds nothing else; changes no failure; and blocks the load by exactly the other services its findings belong to |
| `CheckFindings.AttributionKeepsOrder` | cli/check.go:637-652 | Of two findings it gives to one service the one found first comes first |
| `CheckFindings.FindingsAreListed` | cli/check.go:594-642 | A load lists its warnings first, then what it has against its schema or the leaves of the error it is refused with |
| `CheckTrace.RunIsTraced` | cli/check.go:575-699 | After any run there is one reading for each service it loaded, all the schemas it asks for or where it stopped and why, by which every schema, failure, finding and blocker is what its loads say or was held before; a load told that a service is being loaded closes a cycle of loads, each stopped because the next failed |
| `CheckTrace.CheckListsFirst` | cli/check.go:577-586 | A service is listed as checked when its load begins, before those it starts |
| `CheckTrace.RecordKeepsOrder` | cli/check.go:594-652 | What a load adds to the findings of a service comes after those kept, in the order listed |
| `CheckTrace.FindingsReachOwners` | cli/check.go:637-652 | So whatever a load finds is kept by the service it belongs to, which blocks the load when it is another |
| `CheckTrace.RunKeepsPlaces` | cli/check.go:637-652 | And what is kept of a service, each finding once, has it as owner and is in no file that another service's directory holds first |
| `CheckTrace.RunListsRewrites` | cli/check.go:628-635 | A run lists as rewritten, each once, exactly the services it checked that have a schema and whose loads, reading the schemas held, find their sentinels out of date |
| `CheckProofs.CheckKeeps` | cli/check.go:575-653 | Checking one service keeps the engine's invariant and forgets nothing: each service started once, schemas only of services that load, every failure caused by a lost read or a refusal, and blamed |
| `CheckProofs.ReadAllKeeps` | cli/check.go:676-699 | So does reading the services a load asks for, whatever loads that starts |
| `CheckProofs.DependencyKeeps` | cli/check.go:676-699 | So does one call of the dependency loader |
| `CheckProofs.AttributeGrows` | cli/check.go:637-652 | Recording findings under their owners only adds, and an error among them explains the load: its own, or an owner's that blocks it |
| `CheckTheorems.CheckAllKeeps` | cli/check.go:460-462 | A run over any list of services keeps the invariant |
| `CheckTheorems.SettledIsRight` | cli/check.go:575-653 | When no load is under way, every service checked that should load has its schema |
| `CheckTheorems.RunSettles` | cli/check.go:431-463 | A run that checks some services of a scope that reads nothing outside it, the scope's others being right, makes the scope right, loading exactly those it checks and each once |
| `CheckTheorems.ReadsAreRight` | cli/check.go:676-699 | At any point of a run of a scope a dependency's schema, when one is answered, is the one the tree gives it: never a stale one, whatever is still held of services outside the scope |
| `CheckTheorems.RunsKeepReadsRight` | cli/check.go:431-463 | Every point of a run between checks is such a point, also of a run of part of a scope whose rest is right |
| `CheckTheorems.FullRun` | cli/check.go:375-464 | After a full run, in any order and from anything an earlier run left, the schemas are the least set closed under loading, each service was loaded once, and every failure is blamed along a path ending at an error |
| `CheckTheorems.FullRunFindsTheLeast` | cli/check.go:375-464 | So those schemas load with exactly each other, and every set closed under loading holds them |
| `CheckTheorems.FullRunsAgree` | cli/check.go:375-464 | Two full runs of a tree find the same schemas, whatever their orders and whatever each began from |
| `CheckTheorems.FullRunFailsCycles` | cli/check.go:692-697 | A full run, from anything an earlier one left, fails every service on or above a cycle of reads |
| `CheckTheorems.BlockedNamesAnother` | cli/check.go:537-552 | A service reported blocked names at least one service, never itself |
| `CheckTheorems.OkMeansLoaded` | cli/check.go:523-559 | A full report that is OK means every service loaded |
| `CheckTheorems.IncrementalRun` | cli/check.go:375-464 | A run of the services of a scope that an edit affects leaves the schemas and failures that checking all of it would on the edited tree, and loads only those, each once; the scope is any that holds what its configs name |
| `CheckScope.CheckAllStays` | cli/check.go:407-463 | A run of services of such a scope is the same on any two trees that agree on it, through every load it starts, and starts none outside it |
| `CheckScope.OverlaidLoads` | cli/check.go:407-463 | Replacing the loads outside a scope by what is known of them changes no schema in it |
| `CheckScope.CheckAllLeaves` | cli/check.go:460-462 | A run leaves the schema or the failure of a service it does not check as it was, whatever its own load would now do |
| `CheckBlame.PathStays` | cli/check.go:637-652 | A path of blame never leaves a set of services that holds what its members depend on |
| `CheckBlame.CheckAllNear` | cli/check.go:637-652 | Whatever a run records as blocking a service of the scope is that service or one it depends on, when what blocked it before was and findings are near |
| `CheckBlame.RunAccounts` | cli/check.go:375-464 | After a run of part of a scope, the rest being right and depending on none of it, every failure of the scope, new or left from before, is blamed along a path that ends at an error |
| `CheckBlame.OkMeansScopeLoaded` | cli/check.go:523-559 | Where that is so and the scope is right, an OK report of the scope means every service of it loads |
| `CheckReport.OkMeansNoErrors` | cli/check.go:523-559 | A report is OK exactly when no general finding and no finding of a service in scope is an error |
| `CheckReport.DiagnosticsHold` | cli/check.go:521-536 | A report holds exactly the general findings and those of the services in scope |
| `CheckReport.DiagnosticsAreInOrder` | cli/check.go:521-536 | The general findings come first, then those of each service in the order of the scope |
| `CheckReport.ErrorsAreCounted` | cli/check.go:523-559 | The errors reported are as many as the findings that are errors |
| `CheckReport.StatusMeans` | cli/check.go:537-552 | A service is failing exactly when a finding of its own is an error, and blocked exactly when it failed without one, by the sorted others |
| `CheckEngine.ServiceCheck.Add` | cli/check.go:292-298 | Adds a finding to a service's unless one with its key is there |
| `CheckEngine.Checker.Select` | cli/check.go:417-429 | The services a run checks: the scope, or what the changed services affect of it, in build order |
| `CheckEngine.Checker.Discover` | cli/check.go:391-401 | What a run knows of the services: found again when it is of everything, forgotten with all that was held when discovery fails, whose findings are then the general ones, else as before |
| `CheckEngine.Checker.FindScope` | cli/check.go:402-416 | The scope of a run: every service, or the target and all it depends on, or none, with a general finding, when one of those is missing |
| `CheckEngine.ScopeMeans` | cli/check.go:402-416 | Without a target every service is in scope; with one exactly those its closure reaches, when none of them is missing |
| `CheckEngine.RootIsLast` | cli/check.go:402-416 | The target is the last of the services in its directory |
| `CheckEngine.Checker.Reset` | cli/check.go:431-444 | What a run keeps of the last one |
| `CheckEngine.Checker.Load` | cli/check.go:431-463 | The objects after a run's loads are the state of `CheckRun.Run` from what they held before |
| `CheckEngine.Checker.Run` | cli/check.go:381-464 | A whole run, of everything or of what some services affect, of one target or of all, discovery failing or not: what the checker holds after it, the general findings included, what it rewrote, and a report of the scope |
| `CheckEngine.Checker.Fill` | cli/check.go:523-559 | The report of a state: a status for each service in scope, every finding once, in build order, counted |
| `CheckEngine.Checker.StatusNow` | cli/check.go:537-552 | A service's status: failing when it has an error, else blocked when it failed, naming the others that block it, sorted |
| `CheckEngine.CheckLoad.CheckEach` | cli/check.go:460-462 | Checking each service in turn is `CheckRun.CheckAll` |
| `CheckEngine.CheckLoad.Check` | cli/check.go:575-591 | Loading a service is `CheckRun.Check`, through every load it starts |
| `CheckEngine.CheckLoad.ReadDependencies` | internal/loader/loader.go:372-550 | A load's reads are `CheckRun.ReadAll`: in order, up to the first that is not ready |
| `CheckEngine.CheckLoad.Dependency` | cli/check.go:676-699 | The dependency loader's answer and its effect are `CheckRun.Dependency` |
| `CheckEngine.CheckLoad.RecordLoad` | cli/check.go:607-652 | What a load found is recorded as `CheckRun.Record` says: what that adds to each field is part of `CheckTrace.RunIsTraced` and `CheckTrace.RunListsRewrites` |
| `CheckEngine.CheckLoad.AttributeFindings` | cli/check.go:637-652 | Findings are given out as `CheckRun.Attribute` says: to the services they belong to, by `CheckFindings.AllAreAttributed` |
| `BuildPlan.AffectedIsLeast` | internal/buildplan/buildplan.go:428-462 | The affected services are the least set that holds the changed ones and every service that depends on one it holds |
| `BuildPlan.ReverseEdges` | internal/buildplan/buildplan.go:437-447 | The services that depend on each service |
| `BuildPlan.FindAffected` | internal/buildplan/buildplan.go:447-456 | The worklist finds exactly the names a chain of dependents leads to, whatever cycles there are |
| `BuildPlan.FindDependents` | internal/buildplan/buildplan.go:437-462 | The services an edit to some can change the load of, in order |
| `BuildPlan.NeededIsLeast` | internal/buildplan/buildplan.go:386-426 | What a service depends on is the least set that holds it and what the configs of its members name |
| `BuildPlan.WithNameIsLast` | internal/buildplan/buildplan.go:386-426 | Of two services of one name the config of the later counts |
| `BuildPlan.FindClosure` | internal/buildplan/buildplan.go:386-426 | Fails exactly when the service or one it depends on is not there; else gives exactly those, in build order; of two services of one name the config of the later counts |
| `WatchFiles.ChangedFiles` | cli/check_watch.go:154-168 | Exactly the files whose stamps differ between two snapshots, each once, sorted |
| `WatchFiles.DiffersUnlessSame` | cli/check_watch.go:154-168 | A file differs unless both snapshots have it, of one size and time, or neither does |
| `WatchFiles.ServicesOf` | cli/check_watch.go:175-191 | Everything when there is no file, or one is a config or has no owner; else the owners of the files, each once, in order of appearance |
| `WatchFiles.EverythingWhen` | cli/check_watch.go:175-191 | An edit is of everything exactly when it is of no file, of a config, or of a file in no service's directory |
| `WatchFiles.ConfigsAreNamed` | cli/check_watch.go:175-191 | A file is a config by what follows its last slash: a schema config, a package's or its compiler's |
| `WatchFiles.OwnersComeInOrder` | cli/check_watch.go:175-191 | Of two owners the one with the earlier file comes first |
| `WatchRuns.RunStaysUpToDate` | cli/check.go:375-464 | One run, of everything or of what an edit names, of a target or of all, leaves what the checker holds right for the disk the run found, also when nothing is discovered; of an edit by names, when it finds out what that can change |
| `WatchRuns.WatchStaysUpToDate` | cli/check_watch.go:47-99 | So does any sequence of such runs, failed discoveries among them |
| `WatchRuns.RunStaysAccounted` | cli/check.go:375-464 | Such a run leaves every failure in scope blamed along a path that ends at an error |
| `WatchRuns.WatchStaysAccounted` | cli/check_watch.go:47-99 | So does any sequence of such runs |
| `WatchRuns.WatchAgreesWithAFullCheck` | cli/check_watch.go:47-99 | After any sequence of such runs the checker holds the services, and of each in scope the schema and the failure, that a check of the last disk from nothing would |
| `WatchRuns.RunTells` | cli/check.go:391-416 | A run whose discovery fails, or whose target's closure is not whole, leaves a general finding that is an error |
| `WatchRuns.WatchedOkMeansLoaded` | cli/check.go:523-559 | An OK report of what a right and accountable checker holds is of some scope, every service of which loads |
| `WatchReferences.FollowedExactly` | cli/check.go:417-429 | A run of what an edit to some services affects is right for every disk the edit may leave exactly when whatever is in scope and depends on one of them does so by edges the checker knows |
| `WatchReferences.OnlyFailuresAreMissed` | cli/check.go:495-510 | Where every service is in scope that is so exactly when it is of those held without a schema |
| `WatchReferences.OkIsFollowed` | cli/check.go:495-510 | After an OK report of every service any edit is followed |
| `WatchReferences.UnaffectedIsKept` | cli/check.go:417-463 | A run leaves what is held of a service in scope that the edit does not affect by known edges, whatever its load would now do |
| `WatchReferences.RestoredJobIsMissed` | cli/check.go:495-510 | An edit after which a failed stack loads, and the run of what it affects that leaves the stack failed |
| `WatchReferences.RemovedThenRestored` | cli/check.go:495-510 | Two edits that give a tree in order back, after which the watch holds a failure that a check from nothing does not find |
| `Watch.CheckedIn` | cli/check_watch.go:33-41 | The services a settled run reports checked are exactly those some run of it checked |
| `Watch.MissingComeInOrder` | cli/check_watch.go:35-39 | The last run's come first; what it lacks of the others' follows in their order |
| `Watch.RunSettled` | cli/check_watch.go:26-46 | One run, then one of each service the last lists as rewritten, three in all at most: the checker holds what the last of them leaves, and the report is of that and of all they checked; `SettledRuns.SettledRunEnds` says which those are |
| `SettledRuns.SettledRunEnds` | cli/check_watch.go:20-46 | Each run of a settled run lists exactly the services it checked whose loads rewrite their sentinels on the schemas it ends with; each but the first is of those the one before lists, which has some; and the last is the third, or no load checked in it rewrote a sentinel |
| `SettledRuns.LooksStayTidy` | cli/check_watch.go:54-99 | However long a watch goes on, what is kept of a service are findings it owns, each once |
| `Watch.RunsFollowEdits` | cli/check_watch.go:26-46 | What a settled run leaves is what a sequence of edits leaves: the one it was told of, then each rewriting of sentinels, when each run finds out what those can change |
| `Watch.Follow` | cli/check_watch.go:76-88 | One look: when no file differs nothing is touched or printed; else a settled run of what the files belong to, and its report |
| `Watch.Watch` | cli/check_watch.go:54-99 | The whole loop: what the checker holds after any number of looks, of which the last report printed is a report |
| `WatchTheorems.FileEditIsSound` | cli/check_watch.go:170-191 | The answer of `ServicesOf` for the files that differ names every service whose files they are: every load they can have changed is of one of those or of a service that depends on one, or the answer is everything |
| `WatchTheorems.LookStaysUpToDate` | cli/check_watch.go:76-88 | A look whose edits its runs find out leaves the checker right for the disk it, or the last run after it, finds |
| `WatchTheorems.LooksStayUpToDate` | cli/check_watch.go:54-99 | So do any number of such looks |
| `WatchTheorems.LooksStayAccounted` | cli/check_watch.go:54-99 | They leave every failure in scope blamed along a path that ends at an error |
| `WatchTheorems.WatchIsRight` | cli/check_watch.go:47-99 | A watch begun with nothing holds after any number of looks what a check from nothing of what it last found would, as long as no run misses an edit that reaches a service only through decorator arguments it does not know |
| `WatchTheorems.WatchedOkMeansAllLoad` | cli/check_watch.go:47-99 | And whenever a report of what it holds is OK there is a scope, and every service in it loads |
| `SchemaDeps.LastIsKept` | schemadeps/graph.go:90-98 | Of a language's packages of one id the last is the one known by it |
| `SchemaDeps.ByLanguage` | schemadeps/graph.go:90-98 | The loop builds that map |
| `SchemaDeps.Walker.VisitPackage` | schemadeps/graph.go:105-121 | The recursive walk's effect on its two shared variables |
| `SchemaDeps.Closure` | schemadeps/graph.go:101-129 | The method's result is `ClosureOf` |
| `SchemaDeps.VisitKeeps` | schemadeps/graph.go:105-121 | A visit adds only what it reaches, and keeps dependencies first but for those that reach back |
| `SchemaDeps.ClosureIsReachable` | schemadeps/graph.go:101-129 | A closure succeeds exactly when every id reached is a known package; it lists exactly those, each once, a dependency after its dependent only when it reaches it back; a failure names an unknown id that is reached |
| `SchemaDeps.ClosureOfAcyclicIsTopological` | schemadeps/graph.go:101-129 | Without cycles every dependency comes strictly before its dependents |
| `SchemaDeps.ClosureGrowsWithRoots` | schemadeps/graph.go:122-128 | The closure of some roots is a prefix of the closure of more |
| `ClosureOrder.ClosureOfOneMore` | schemadeps/graph.go:101-129 | The closure of some roots and one more is that of the first, then what the closure of the last adds to it, in its order |
| `ClosureOrder.ClosureOfOne` | schemadeps/graph.go:105-121 | The closure of one package is that of its dependencies as they are listed, in the graph where it has none and without it, and then itself: the two laws fix the order of every closure, cycles or not |
| `NormalGraph.UniqueStrings` | schemadeps/graph.go:147-163 | The trimmed, non-empty dependencies, each once, sorted |
| `NormalGraph.NormalDepsAreKept` | schemadeps/graph.go:147-163 | Normalizing twice is normalizing once |
| `NormalGraph.NormalDepsAreTrims` | schemadeps/graph.go:147-163 | They are what is left of the dependencies without the spaces around them, of each where anything is |
| `NormalGraph.OrderIsByLanguage` | schemadeps/graph.go:131-145 | In order means by language, and by id within one |
| `NormalGraph.Graph.Normalize` | schemadeps/graph.go:131-145 | The packages are the same but for their normal dependencies, sorted by language and id |
| `NormalGraph.NormalIsOfPick` | schemadeps/graph.go:131-145 | A language's packages of the normal form are the normal forms of one package for each id of it; when no two share a language and an id, of the very packages a closure reads |
| `NormalGraph.NormalClosures` | schemadeps/graph.go:76-87 | A closure that succeeds is, but for order, that of the normal form exactly when each dependency it reads is trimmed, or a root whose trimmed form is reached too; one that fails fails there exactly when an unknown id is reached through trimmed dependencies |
| `NormalGraph.UntrimmedIsLost` | schemadeps/graph.go:131-145 | A closure that succeeds in a graph and is another in its normal form |
| `EnvVars.FindBases` | ir/env_vars.go:59-72 | The walk along `extends` ends on any graph, cycles and missing bases included, with the bases in order |
| `EnvVars.BasesAreExtended` | ir/env_vars.go:56-58 | A class's bases are the other classes of the schema it extends, directly or not |
| `EnvVars.BasesAreInTurn` | ir/env_vars.go:56-72 | They come nearest first, each what the one before extends, none twice |
| `EnvVars.EnvVarsType` | ir/env_vars.go:20-54 | The answer in terms of which classes extend which: the one class no other extends, or the several, or the cycle |
| `EnvVars.FoundLists` | ir/env_vars.go:20-54 | The class returned is the only one no other extends; several are listed sorted when none of them is extended by another; and all, sorted, as a cycle when each is |
| `EnvVars.ConfigHoldsEvery` | ir/env_vars.go:8-19 | The class returned extends every other exactly when each class of each pair that extend each other is extended by a class it does not extend back |
| `EnvVars.ConfigWithoutMutual` | ir/env_vars.go:8-19 | With no such pair a class is returned exactly when it extends all the others, and no cycle is reported |
| `EnvVars.CyclicIsMutual` | ir/env_vars.go:47-50 | A cycle is reported only where two classes extend each other |
| `EnvVars.MutualIsACycle` | ir/env_vars.go:47-50 | Two such classes make a cycle of `extends` |
| `EnvVars.MutualPairMisleads` | ir/env_vars.go:20-54 | Two such classes and an unrelated third: the third is returned and holds the fields of neither |
| `Scaffold.ByName` | cli/build_all.go:629-632 | Services by name, the later of two kept |
| `Scaffold.LatestIsLast` | cli/build_all.go:629-632 | Of the services of one name the last is the one known by it |
| `Scaffold.NeedsImplementationScaffold` | cli/build_all.go:625-651 | True exactly when the service is a stack and an API reached from its references, by calls through known APIs only, needs a scaffold |
| `Scaffold.AnyNeeded` | cli/build_all.go:633-650 | The worklist decides that, and ends whatever repeats and cycles the calls have |
| `Values.DecodeUndoesEncode` | ir/resource_graph.go:121-192 | Decoding the JSON form of a well-formed value gives the value back |
| `Values.EncodeUndoesDecode` | ir/resource_graph.go:149-226 | What decodes is well formed, and its JSON form is the JSON decoded |
| `Values.DecodesExactlyForms` | ir/resource_graph.go:149-226 | JSON decodes exactly when it is some well-formed value's form, of one value only |
| `Values.DecodeIsIdempotent` | ir/resource_graph.go:152-192 | Decoding what is decoded changes nothing |
| `Values.JsonFormIsWellFormed` | ir/derived_value.go:519-532 | A value's JSON form is well formed, and its own |
| `Values.ReferencesAreWritten` | ir/resource_graph.go:121-148 | The members each kind of reference is written with |
| `ValueRefs.FindValueRefs` | ir/resource_graph.go:230-267 | The outputs and the parameters of `References`, later repeats dropped: which those are and in what order the next two say |
| `ValueRefs.ValueRefsAreHeld` | ir/resource_graph.go:228-229 | They are exactly those inside the value, each once |
| `ReferenceOrder.ValueRefsAppearInOrder` | ir/resource_graph.go:228-267 | Each comes where it first appears: of two outputs, or two parameters, the first stands at some place of the value before every place of the second, items and parts in their order and members in the order of their keys |
| `Order.LessIsLexicographic` | ir/resource_graph.go:247-252 | The order of keys: a string comes before another at the first character where they differ, or as its beginning |
| `DerivedVariables.BuildSegment` | ir/derived_value.go:683-696 | The loop writes a member's segment |
| `DerivedVariables.BuildVariableName` | ir/derived_value.go:928-937 | The loop writes the name of a dotted path |
| `DerivedVariables.Walker.Visit` | ir/derived_value.go:594-669 | The recursive walk appends a value's variables, or fails, as `Walk` says |
| `DerivedVariables.Derive` | ir/derived_value.go:586-675 | The variables of the JSON form as `Walk` gives them, sorted by name: `VariablePlaces.DerivedVariablesAreOfPlaces` says which they are |
| `VariablePlaces.SegmentIsSnake` | ir/derived_value.go:677-696 | A segment is the member's characters as capitals, an underscore before each word that starts at a capital after a small letter or a digit, and nothing else |
| `VariablePlaces.WalkIsOfPlaces` | ir/derived_value.go:566-669 | Encoding gives one variable for each place of the value that holds one, no place twice: its name is what the field's begins with, then for each step an underscore and the member's segment or the decimal of the index from 0; its value is the string or reference there, a list's length or joined text, or a decimal; and it is secret exactly at the two secret members |
| `VariablePlaces.EncodesExactly` | ir/derived_value.go:594-669 | A value is refused exactly when something in it is an empty object, a list of objects and others, a list with a comma in a string, a number that is not whole or beyond 2^53, a boolean or nothing |
| `VariablePlaces.DerivedVariablesAreOfPlaces` | ir/derived_value.go:534-675 | So a derived field's variables are those of the places of its JSON form, as many as there are, or none when something there cannot be encoded |
| `CamelNames.SegmentsApart` | ir/derived_value.go:683-696 | Members named in camel case have different segments, and one begins another before an underscore only where its name begins the other's |
| `JoinedLists.JoinedIsFlat` | ir/derived_value.go:642-657 | A joined list is a concatenation of strings, outputs and parameters |
| `JoinedLists.ListRenders` | ir/derived_value.go:621-657 | A list's variable renders to its elements' text joined with commas |
| `JoinedLists.ListSplits` | ir/derived_value.go:621-657 | For comma-free references, splitting the rendering gives the elements exactly when no concatenation has a comma in a literal part |
| `JoinedLists.LiteralCommaSplits` | ir/derived_value.go:621-657 | A list the encoding accepts whose one element splits in two |
| `Shapes.WalkFits` | ir/derived_value.go:566-585 | A value of any shape whose members are told apart encodes, exactly when its numbers are in range, to at least one variable, under names it claims, no two alike |
| `ShapeReader.ReadRecovers` | ir/derived_value.go:566-585 | Reading by the naming rule undoes the encoding, from any variables that agree with the value |
| `ShapeReader.WalkAgrees` | ir/derived_value.go:586-675 | A value's variables agree with it wherever only they are set under the names it claims |
| `ShapeReader.VariablesReadBack` | ir/derived_value.go:566-585 | So a server set exactly those variables reads the value back |
| `DerivedContracts.CheckHeaders` | ir/derived_value.go:432-453 | Accepts exactly the non-empty lists of header names, no two alike but for case, that hold the service authorization header |
| `DerivedContracts.CheckCredential` | ir/derived_value.go:399-429 | Accepts exactly a source's own members and no other source's |
| `DerivedContracts.CheckDatabaseConnection` | ir/derived_value.go:355-381 | Accepts exactly the objects that set one of the four forms, to a string or to all the strings that form has and no more |
| `DerivedContracts.CheckDerivedValue` | ir/derived_value.go:225-243 | Accepts exactly the values whose JSON form meets the contract of the edge's kind |
| `ContractForms.AcceptedHasForm` | ir/derived_value.go:225-453 | What is accepted is exactly what has one of its kind's forms: which members an object must and may have together, and what each is |
| `DerivedFields.AcceptedFits` | ir/derived_value.go:245-430 | What is accepted has the shape of its kind |
| `DerivedFields.AcceptedDerives` | ir/derived_value.go:566-675 | What is accepted encodes; each variable is named after a different listed member and secret exactly when that member is; and the variables read back as the value |
| `DerivedFields.VariablesAreClaimed` | ir/derived_value.go:830-836 | A derived field claims each of its variables |
| `DerivedFields.FieldsShareNoVariable` | ir/derived_value.go:830-836 | Two derived fields, neither claiming the other, share no variable |
| `FieldNames.BuildEnvName` | ir/derived_value.go:818-828 | The loop writes a service's name in upper snake case |
| `FieldNames.EnvNameIsUpper` | ir/derived_value.go:818-828 | Its letters are capitals, its digits stay, and anything else is an underscore, one for one |
| `FieldNames.DocumentedNames` | ir/derived_value.go:566-585 | The fields of the documentation's examples |
| `FieldNames.CallersFieldIsClaimed` | ir/service_auth.go:30-37 | A derived field claims an API's callers field exactly when it is that field or claims the API's name |
| `FieldNames.OwnFieldsLeaveCallers` | ir/service_auth.go:30-37 | No field an edge to an API fills by the core's templates claims that API's callers field |
| `FieldNames.AnotherFieldClaimsCallers` | ir/service_auth.go:30-37 | A field of another service that does |
| `ServiceAuth.CheckLiteralList` | ir/service_auth.go:405-425 | Accepts exactly the non-empty lists of distinct, allowed, comma-free strings |
| `ServiceAuth.CheckKeys` | ir/service_auth.go:267-324 | Accepts exactly the non-empty lists of keys, no two literal ones with one kid |
| `ServiceAuth.CheckCallers` | ir/service_auth.go:367-400 | Accepts exactly the non-empty lists of callers, no two with one literal subject |
| `ServiceAuth.CheckIssuer` | ir/service_auth.go:208-262 | Accepts exactly the issuers of the contract |
| `ServiceAuth.CheckIssuers` | ir/service_auth.go:170-187 | Accepts exactly the lists of issuers no two of which share an issuer or an alias |
| `ServiceAuth.CheckServiceAuth` | ir/service_auth.go:157-189 | Accepts exactly the values whose JSON form is a callers field |
| `ContractForms.AcceptedCallersHaveForm` | ir/service_auth.go:157-425 | What is accepted is exactly a list of issuers with either keys or a URL, their other members as documented, no two called by one name, no two keys with one kid, no two callers with one literal subject |
| `CallersFields.AcceptedCallersFit` | ir/service_auth.go:157-189 | What is accepted has the callers field's shape, through nested lists of issuers, keys and callers |
| `CallersFields.AcceptedCallersDerive` | ir/derived_value.go:566-675 | What is accepted encodes exactly when no lifetime is above 2^53; the names are then distinct and the variables read back as the value |
| `CallersFields.LongLifetimeIsRefused` | ir/service_auth.go:256-260 | A callers field that is accepted and does not encode |
| `MemoryStoreNames.CheckSegment` | ir/memorystore.go:274-291 | Accepts exactly 1 to 128 bytes, none refused |
| `MemoryStoreNames.SegmentBytes` | ir/memorystore.go:268-291 | Those bytes are all but the control bytes and seven marks |
| `MemoryStoreNames.Name` | ir/memorystore.go:300-314 | Fails exactly when the declaration or a part breaks the rule; else joins them with colons |
| `MemoryStoreNames.FullNameSplits` | ir/memorystore.go:293-323 | A full name's pieces between colons are its prefix, its declaration and its parts |
| `MemoryStoreNames.FullNameIsInjective` | ir/memorystore.go:293-323 | No two entries of valid segments share a full name |
| `KebabCase.Kebab` | ir/job.go:70-91 | The loop writes a job's name in kebab case |
| `KebabCase.DeclarationName` | ir/memorystore.go:226-248 | The loop writes a declaration's name in kebab case |
| `KebabCase.KebabsDiffer` | ir/job.go:67-91 | The job rule's result is longer by one for each two capitals before a digit; the two agree exactly when there are none |
| `KebabCase.KebabIsIdempotent` | ir/job.go:67-91 | Each rule keeps exactly the names without capitals and underscores, and gives such a name |
| `KebabCase.KebabKeepsLetters` | ir/job.go:67-91 | Each rule changes only hyphens, underscores and case |
| `KebabWords.KebabIsHyphenated` | ir/job.go:67-91 | By either rule the result is the name in small letters with a hyphen for each underscore and before each word but the first, and nothing else: the words of a declaration's name are those of a job's but at a second capital before a digit |
| `Capabilities.SegmentMatches` | ir/docs.go:124 | A segment of the pattern is letters, digits and hyphens, each hyphen between two others |
| `Capabilities.CapabilityMatches` | ir/docs.go:124 | The pattern is two or more segments between dots |
| `Capabilities.CapabilityIsSegments` | ir/docs.go:124-156 | The pattern accepts exactly the names of allowed characters with two or more segments, none empty or with a misplaced hyphen |
| `Capabilities.CapabilityProblem` | ir/docs.go:126-150 | The last explanation is given exactly to names the pattern accepts, so never to a refused one; each other one is of the first character or segment that is wrong, after the checks before it |
| `ScalarAliases.GroupNames` | ir/scalar_identity.go:166-190 | The canonical names, and those of each alias, whatever order the scalars are taken in |
| `ScalarAliases.CanonicalNamesAreOf` | ir/scalar_identity.go:64-75 | A scalar's name is what its definition's says without the spaces around it, or its key when that says nothing |
| `ScalarAliases.CanonicalIsDotted` | ir/scalar_identity.go:28-47 | A canonical name is letters and digits with a capital first and after each dot, and no dot last |
| `ScalarAliases.BuildIndex` | ir/scalar_identity.go:157-203 | The index of the schema's canonical names |
| `ScalarAliases.ResolveIsSearch` | ir/scalar_identity.go:205-242 | Resolving with the index is searching the names: a dotted token must be one, another must end exactly one, and is ambiguous between the sorted names it ends |
| `References.LookupScopes` | ir/reference.go:209-225 | The scopes a name is looked up in |
| `References.ScopesAreDependencies` | ir/reference.go:200-208 | They are the schema, the imported dependency, then every other loaded dependency once, in name order |
| `ReferenceRules.ImportedIsOfFirstImport` | ir/reference.go:252-273 | The imported one is the loaded service, another than the schema's own, that the last part of the package of the first import to list the name says |
| `References.ReferenceTarget` | ir/reference.go:231-250 | What the first scope that declares the name says it is |
| `ReferenceRules.TargetIsOfFirstScope` | ir/reference.go:227-250 | The target is what the first scope that declares the name says, a type, or not one when it is a trait or something else; none is found exactly when no scope declares it |
| `References.TargetIsStable` | ir/reference.go:200-208 | Other dependencies never change the target of a name the schema or the imported dependency declares |
| `References.EligibleOptions` | ir/reference.go:360-373 | Exactly the operations that list a target and a UI may call, each once |
| `References.NamedOptions` | ir/reference.go:377-390 | Exactly the operations of a name, each once |
| `References.ReferenceOptions` | ir/reference.go:295-356 | The operation found is the only eligible one, or the only one named and eligible, of the schema; of the dependency only when the schema has none; nothing is found exactly when there is no such one |
| `ReferenceRules.EligibleUnlessRefused` | ir/reference.go:410-445 | An operation is eligible exactly when there is none of eight reasons to refuse it |
| `ReferenceRules.OptionsAreOfAnAPI` | ir/reference.go:293-299 | The dependency searched is the loaded API, another than the schema, that declares the target |
| `ReferenceRules.UnsaidByCount` | ir/reference.go:300-321 | Unsaid, an operation is found exactly when it is the one eligible operation of the schema, or, when that has none, of the dependency |
| `ReferenceRules.NamedByCount` | ir/reference.go:323-356 | Named, exactly when it is the one of its name there, or, when there is none, in the dependency, and is eligible |

## Left out

- Equality of findings between an incremental run and a full one: a finding in another service's file stays with its
  owner until the owner is checked again.
- Text: the wording of diagnostics, and the patterns that find a path in a message.
- The loads themselves: parsing, the TypeScript program, the rest of `internal/loader`.
- What the check of projection stamps reads: the schemas held of dependencies the load did not ask for
  (`cli/check.go:655-670`), so that its findings can depend on the order of loads. A load here reports them as a
  function of the schemas it asked for. Which findings those are is up to the load: theorems say where they go.
- Discovery, the registry, the naming file, snapshots of the file system, polling, signals and timing.
- JWK, PEM and thumbprints: `KeyReader` stands for them.
- Templates of derived fields other than the core's, and the checks of a setting's name against a derived field.
- The value, the label, the lookup and the search of a resolved reference, which are single tests of a field.
- Nil schemas' members: an operation, a set or a type is present in the model.
- Characters beyond ASCII in case mapping, trimming and kebab case.
- Reading and writing of the graph's file, and the shape checks of documentation other than capabilities.
- NormalGraph.NormalIsOfPick: which of two packages of one language and id the normal form's closures read, because the
  sort of the packages is not stable.
- References.TargetIsStable: asks that the import names one loaded dependency before and after, which is what it means
  for the others to be added.
