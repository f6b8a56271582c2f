# Verified models of the Konflux e2e-tests tooling

The Konflux end-to-end test repository carries, beside its test bodies, a number
of small algorithms that decide which tests run, when they may run, and how their
outlines are kept. This project models those algorithms in Dafny and proves what
they are for. `dafny verify dfyconfig.toml` checks everything.

## What is modelled

**Test outlines** (`Outline`, `OutlineRoundTrip`, `OutlineLines`, `OffSide`, `Pruner`). A forest of
test nodes is printed as indented text and read back line by line along the
rightmost spine. `RoundTrip` says for *every* forest that reading its print gives
it back (levels twice the depth, container flags dropped, one space more after a
non-empty text in front of labels) if and only if names, texts and labels keep
clear of the delimiters; `ParsePrintable` says the parser builds no others, and
`LineReads` what is read from a line written by hand.
`ParseRefinesOffSide` says that, for every text, spine insertion is the off-side
rule. The pruner deletes from a slice while indexing it and restarts on what
remains; `Prune` shows that it equals the recursive filter and stays in bounds
exactly on slices that nowhere end in a removed node; `FilteredPaths` says which
nodes are gone.

**The rules engine** (`RulesEngine`, `EngineMeaning`, `EngineReplay`,
`EngineFailure`, `EngineRelations`). Conditions are nested `Any`/`All`/`None` trees
whose leaves may be rules that act while they are checked. The engine is a class
that updates a rule context; its meaning is a state-threading evaluator over
arbitrary condition and action functions, failures and dry runs included. On it:
the value is that of the pure formula and the actions are a recursive trace; a
failing run made a prefix of the calls of any repaired run and returns that
failure; and two principles, for invariants and for relations between states, that
the catalogs use.

**The catalogs** (`ChangedFiles`, `PathShapes`, `E2ECatalog`, `E2EFocus`, `E2ERun`,
`CICatalogs`, `CIOrder`, `CIRuns`, `InfraLabels`, `InfraCatalog`, `InfraComponents`,
`InfraPaths`). The e2e rules are a decision table over changed files; what a run of
them leaves (focus files, suites, label filter, timeout) is given for every diff in
terms of the paths in it. The six `ci` catalogs do the same in whichever order the
map iteration loads them, and `ExecutedInAnyOrder` lists what, repository by
repository. The infra-deployments rules choose one rule and list each label once, for
exactly the directories that changed.

**The repository lock** (`RepoLock`, `LockProgress`). One ConfigMap, any number of
tests, a clock, crashes and failing calls, as a step relation.

**Label filters** (`LabelFilter`, `FilterComposition`). Filters are strings; what the
string combinators produce is lexed and parsed with the usual precedences.

**Tag cleanup, retriggers, HTTP retries** (`TagCleanup`, `Retrigger`,
`RetryTransport`). A page loop with strided workers under every interleaving; the
bounded retrigger loop over a pipeline run; exponential backoff in 64-bit arithmetic.

## Where the code falls short of what it promises

Each of these is proved of the code as it is, with the exact condition beside it.

- A labelled text gains a trailing space; a non-blank line without a colon makes the
  parser index out of range (`ParsePanics`); a sibling list that ends in a setup or
  teardown node makes the pruner do so (`Prune`).
- A line that holds only a carriage return becomes an empty node
  (`CarriageReturnLine`), and whatever follows a second colon of a line is dropped
  (`LineReads`).
- The e2e decision table has a hole: a diff with a file whose name only *contains*
  `tests/build/const.go` may match no rule (`StrayDiffIsNotCovered`). `Coverage` says
  exactly which diffs fall through, in terms of their files.
- The lock's Delete calls look at nothing: two tests can hold it after a stale
  takeover (`StaleRace`), or after a test that polled for its 60 minutes in vain gives
  up (`GiveUpBreaksExclusion`). `ExclusionIffRespectful` is the exact condition: there
  is exclusion, now and for as long as nobody deletes blindly again, if and only if no
  lock of a live holder was deleted by a test that does not hold it.
- A label is dropped from the infra filter when it is part of an earlier one;
  `FilterListsEachOnce` says exactly when that does not happen, and `RealFilter` that
  it never happens with the components as registered.
- A comma is an or operator in a label filter, but neither combinator protects it: with
  `E2E_EXTRA_LABEL_FILTER=github,gitlab` a build-service job selects every gitlab test,
  and so does a run of any other suite (`BuildServiceCommaEscapes`,
  `RunTestsCommaEscapes`). `BuildLabelFilterExactly` and `RunTestsExactly` say for all
  filters exactly which tests are selected as by the conjunction.
- The paired catalog's exclusions bind to the last alternative of the filter only
  (`PairedExclusions`, `FirstCaseEscapes`).
- Deletion errors of the tag workers never reach the caller (`WorkerErrorsLost`),
  and a page error names the page after the one that failed (`PageErrors`).
- A round that times out right after a failed lookup dereferences a nil run
  (`NilRunExactly`); negative `Retries` means no bound (`UnboundedRetriggers`).
- The comment on `RetryTransport` lists 500, 502, 503 and 504; the code retries every
  status from 500 up, and the model follows the code. A request body that cannot be
  rewound is sent empty from the second attempt on (`BodiesSent`).

## Model

| member | source | states |
|---|---|---|
| `OutlineRoundTrip.RoundTrip` | pkg/testspecs/types.go:36-75 | for every forest: printing and parsing gives the normalised forest if and only if the forest is printable |
| `OutlineRoundTrip.ParsePrintable` | pkg/testspecs/textspec.go:81-117 | whatever the text, the parser only builds printable outlines, so what was parsed can be printed and parsed again |
| `OutlineRoundTrip.InsertRebuilds` | pkg/testspecs/textspec.go:121-144 | inserting the printed lines of a forest one by one rebuilds that forest behind what is already there |
| `Outline.PrintOutline` | pkg/testspecs/types.go:41-75 | the recursive string builder, with its width counter, produces the printed form |
| `Outline.FormatNode` | pkg/testspecs/types.go:46-60 | one node's line, with and without labels |
| `Outline.CreateNode` | pkg/testspecs/textspec.go:81-117 | the node of a line, or the out-of-range index when there is no colon |
| `Outline.ReadLabels` | pkg/testspecs/textspec.go:98-105 | the labels between the at-signs, commas and edge spaces removed |
| `Outline.FromText` | pkg/testspecs/textspec.go:33-48 | the line loop, byte order mark included, computes `Parse` |
| `OutlineLines.LineReads` | pkg/testspecs/textspec.go:81-117 | for any spacing, any commas and spaces between labels and anything after a second colon: the name and the text without the spaces around them, the labels bare and in order, the number of leading spaces as level |
| `OutlineLines.HandWrittenLabels` | pkg/testspecs/textspec.go:98-105 | two labels with a comma only, or spaces only, between them |
| `OutlineLines.CarriageReturnLine` | pkg/testspecs/textspec.go:40-44 | a line of one carriage return is not skipped and gives an empty node |
| `OutlineLines.BlankLineIgnored` | pkg/testspecs/textspec.go:40-44 | an empty line changes nothing |
| `OutlineLines.ByteOrderMarkIgnored` | pkg/testspecs/textspec.go:35-38 | a byte order mark in front of the text is not part of it |
| `OutlineLines.BlankLinesPrinted` | pkg/testspecs/types.go:46-75 | wherever a node stands, its line is followed by its children and then by an empty line exactly when it is a marked container other than `It` and `By` |
| `OffSide.ParseRefinesOffSide` | pkg/testspecs/textspec.go:40-46 | for every accepted text: siblings share one indentation and children are deeper, the preorder is the kept lines in order, the outline is the top-down layout of them, and each line's parent is the nearest earlier kept line that is shallower |
| `OffSide.InsertKeeps` | pkg/testspecs/textspec.go:121-144 | a line is appended to the preorder, or dropped exactly when it is shallower than the last kept line and lines up with no open one |
| `OffSide.LayoutPreorder` | pkg/testspecs/textspec.go:121-144 | the independent top-down layout inverts preorder on well-indented forests |
| `OffSide.ParentsNearest` | pkg/testspecs/textspec.go:121-144 | the parent of every node in a well-indented forest is the nearest earlier shallower line |
| `OffSide.ParsePanics` | pkg/testspecs/textspec.go:95-96 | parsing indexes out of range if and only if some line is not blank and has no colon |
| `Pruner.Prune` | pkg/testspecs/ginkgosspec.go:92-111 | the in-place pruner ends without indexing past the slice if and only if the slice is safe, and then leaves the recursive filter of it |
| `Pruner.RemoveAt` | pkg/testspecs/ginkgosspec.go:97 | the append idiom removes one element in place and keeps the order of the others |
| `Pruner.FilteredClean` | pkg/testspecs/ginkgosspec.go:90-111 | no setup or teardown node is left at any depth |
| `Pruner.FilteredFixpoint` | pkg/testspecs/ginkgosspec.go:90-111 | filtering changes nothing exactly on clean forests, and twice is the same as once |
| `Pruner.FilteredPaths` | pkg/testspecs/ginkgosspec.go:92-111 | exactly the nodes with one of the six setup and teardown names on their path are gone; every other is where it was, in the same order |
| `Pruner.MarkInner` | pkg/testspecs/ginkgosspec.go:83-88 | every top-level node is marked, nothing else changes |
| `Pruner.FromGinkgo` | pkg/testspecs/ginkgosspec.go:42-54 | mark, prune in place and wrap in the framework's describe node if there is one: no index past the end if and only if the outline is safe |
| `Pruner.Export` | magefiles/magefile.go:982-1004 | the whole chain to the text: it works exactly on safe outlines, and the text is read back as the wrapped, filtered outline exactly if that is printable |
| `Pruner.ExportRoundTrip` | magefiles/magefile.go:982-1004 | what that rests on: marking commutes with filtering and is invisible in the text, printable outlines stay printable, and no setup or teardown node comes back |
| `RulesEngine.Engine.Check` | magefiles/rulesengine/types.go:212-273 | checking a condition in place yields the evaluator's answer, error and new context |
| `RulesEngine.Engine.CheckAnyOf` | magefiles/rulesengine/types.go:218-237 | `Any` looks at all conditions and stops on an error only |
| `RulesEngine.Engine.CheckAllOf` | magefiles/rulesengine/types.go:241-255 | `All` stops at the first that does not hold |
| `RulesEngine.Engine.CheckNoneOf` | magefiles/rulesengine/types.go:259-273 | `None` stops at the first that holds |
| `RulesEngine.Engine.CheckNested` | magefiles/rulesengine/types.go:338-355 | a rule used as a condition acts when it holds, in dry-run mode too |
| `RulesEngine.Engine.Apply` | magefiles/rulesengine/types.go:311-322 | actions in order up to the first that fails |
| `RulesEngine.Engine.DryRun` | magefiles/rulesengine/types.go:324-336 | the same with the dry-run flag set first |
| `RulesEngine.Engine.RunLoadedCatalog` | magefiles/rulesengine/types.go:125-164 | the engine loop over a catalog: rule chains that hold end it, matched rules are applied afterwards, one of them in a dry run |
| `EngineMeaning.Meaning` | magefiles/rulesengine/types.go:216-273 | for every nesting with stable conditions: no error, the value is the formula's (exists, for all, not exists), and the actions executed are the recursive trace |
| `EngineMeaning.RunMeaning` | magefiles/rulesengine/types.go:125-193 | a run of the whole engine executes exactly its trace: the traces of the rules it reaches, then the actions of the matched ones |
| `EngineMeaning.OptionalStep` | magefiles/rulesengine/repos/release_service.go:15-20 | both optional-step idioms hold always and evaluate the rule twice |
| `EngineReplay.OptionalStepOnce` | magefiles/rulesengine/repos/common.go:403-411 | with idempotent actions, which may depend on the dry-run flag, the idiom leaves the context that checking the rule once leaves |
| `EngineReplay.RunReplays` | magefiles/rulesengine/types.go:311-336 | the final context is the replay of the executed actions, in every run, dry or not |
| `EngineFailure.RunFaithful` | magefiles/rulesengine/types.go:125-193 | every call but the last succeeded, and the run returns the error of the last |
| `EngineFailure.FailurePrefix` | magefiles/rulesengine/types.go:218-355 | for every catalog, the calls of a failing run are a prefix of those of any run in which failing calls succeed instead; a run without failures is unchanged |
| `EngineRelations.RunKeeps` | magefiles/rulesengine/types.go:125-193 | what every call keeps, every run keeps, even one that fails half-way |
| `EngineRelations.RunAlike` | magefiles/rulesengine/types.go:125-193 | a relation that all calls respect relates whole runs, with the same errors |
| `ChangedFiles.FilterByDirGlob` | magefiles/rulesengine/types.go:381-397 | the files that match the pattern, in order |
| `ChangedFiles.FilterByDirString` | magefiles/rulesengine/types.go:364-379 | the files whose name contains the text, in order |
| `E2ECatalog.DecisionTable` | magefiles/rulesengine/repos/e2e_repo.go:15-67 | some rule holds, and two hold exactly when the second is reached only through the release helpers |
| `E2ECatalog.OverlapNeedsNestedFile` | magefiles/rulesengine/repos/e2e_repo.go:69-73 | that overlap needs a nested file under tests/release/pipelines and no file matching tests/release/*/*.go |
| `E2ECatalog.Coverage` | magefiles/rulesengine/repos/e2e_repo.go:81-173 | for an arbitrary diff, no rule holds if and only if some file has the path of the build constants in its name, every file is one that no rule looks for, and release helpers and nested pipeline files did not change together |
| `E2ECatalog.StrayDiffIsNotCovered` | magefiles/rulesengine/repos/e2e_repo.go:84-88 | a concrete diff for which no rule holds |
| `E2EFocus.DedupeAppendFiles` | magefiles/rulesengine/repos/e2e_repo.go:387-397 | a file is appended unless it is there |
| `E2EFocus.AppendFocusFiles` | magefiles/rulesengine/repos/e2e_repo.go:89-98 | the loop over changed files adds each in turn |
| `E2EFocus.FocusOnlyGrows` | magefiles/rulesengine/repos/e2e_repo.go:89-282 | in every run of every catalog over these functions, failing or not, also when a glob fails or the diff is replaced on the way, the focus list only grows at its end and has no duplicate |
| `E2ERun.SuitesExecuted` | magefiles/rulesengine/repos/e2e_repo.go:344-372 | on any diff, a run without failures adds to the focus list and then executes the suites, and nothing else: which suites is a table over the changed paths |
| `E2ERun.FocusLeft` | magefiles/rulesengine/repos/e2e_repo.go:81-282 | after a run on any diff, exactly these files are in the focus list: those that were there, and, rule by rule in terms of the paths, the changed tests and the tests on disk that the diff calls for |
| `E2ERun.FilterLeft` | magefiles/rulesengine/repos/e2e_repo.go:374-385 | which labels the filter of a run leaves out, and its timeout, for any diff |
| `CIOrder.OrderIndependence` | magefiles/rulesengine/types.go:102-123 | for every two orders of the six catalogs: the same error, the same calls but for lookups by guards, the same actions and the same final context but for the pairing flag |
| `CIOrder.OwnCatalogDecides` | magefiles/rulesengine/engine/engine.go:17-26 | in any order the catalogs do what the repository's own catalog does alone |
| `CIOrder.NoCatalogNoEffect` | magefiles/rulesengine/engine/engine.go:17-26 | nothing happens for a repository without a catalog |
| `CIOrder.OtherCatalogInert` | magefiles/rulesengine/repos/build_service.go:13-22 | no rule of another repository's catalog holds, fails or changes anything but the pairing flag |
| `CIOrder.ExactlyOneGuard` | magefiles/rulesengine/repos/release_service_catalog.go:16-44 | exactly one of the paired and unpaired guards passes if and only if the pairing lookups agree or it is a rehearsal |
| `CIRuns.ExecutedInAnyOrder` | magefiles/rulesengine/engine/engine.go:17-26 | for every repository and every order of the catalogs, in a world without failures whose answers are fixed once the settings are made: the full list of executed actions, and none for a repository without a catalog |
| `CIRuns.BootstrapMeans` | magefiles/rulesengine/repos/common.go:403-406 | the bootstrap chain executes its three steps in order and stops before the first that is not wanted |
| `CIRuns.SelectionMeans` | magefiles/rulesengine/repos/e2e_repo.go:322 | test selection as part of the chain: the actions of all three rules, suites between focus files |
| `CIRuns.PairedOrNot` | magefiles/rulesengine/repos/release_service_catalog.go:16-44 | in any order, a paired request that is no rehearsal ends with the paired tests and never executes the others; any other request the reverse; neither without Ginkgo |
| `CIRuns.CountingIsSmooth` | magefiles/rulesengine/repos/release_service_catalog.go:103-116 | such worlds exist, for every repository and whatever the pairing |
| `CICatalogs.CountingWorldIsOne` | magefiles/rulesengine/repos/release_service_catalog.go:103-116 | the assumptions about condition and action functions can be met together |
| `InfraCatalog.Selection` | magefiles/rulesengine/repos/infra_deployments.go:11-52 | for any components and any diff: neither rule on an empty diff, otherwise exactly one, the components rule when a component changed |
| `InfraCatalog.CatalogRun` | magefiles/rulesengine/repos/infra_deployments.go:161 | what a run executes, including the first match that the default rule's `None` applies, and the context it leaves |
| `InfraCatalog.FinalFilter` | magefiles/rulesengine/repos/infra_deployments.go:27-52 | the label filter after a run, for every diff |
| `InfraCatalog.FilterListsEachOnce` | magefiles/rulesengine/repos/infra_deployments.go:33-52 | the filter lists the changed components' labels and `konflux`, each once and nothing else, if and only if no label is part of an earlier one when first added |
| `InfraPaths.FilterByPaths` | magefiles/rulesengine/repos/infra_deployments.go:11-159 | for every diff but the empty one, the comma-separated filter that the tests run with holds `konflux` and exactly the labels whose directories have a changed file, for each of the nine |
| `InfraPaths.ConditionMeans` | magefiles/rulesengine/repos/infra_deployments.go:54-159 | each component's condition in terms of the segments of the changed paths |
| `InfraLabels.LabelContext.AddLabelToLabelFilter` | magefiles/rulesengine/repos/infra_deployments.go:164-172 | the filter with the label appended unless it occurs in it |
| `InfraLabels.FilterIsKept` | magefiles/rulesengine/repos/infra_deployments.go:164-172 | adding labels one by one gives the comma-separated list of those that are part of no earlier one |
| `InfraLabels.KeptOnceExactly` | magefiles/rulesengine/repos/infra_deployments.go:165 | the kept labels are the distinct labels if and only if each is fresh |
| `InfraComponents.RealFilter` | magefiles/rulesengine/repos/infra_deployments.go:54-159 | with the registered components the filter lists each label once, for every diff |
| `InfraComponents.BuildServiceCondition` | magefiles/rulesengine/repos/infra_deployments.go:123-128 | comparing the two counts means that a file outside the pipeline configuration changed |
| `RepoLock.IntactIffRespectful` | tests/integration-service/group-snapshots-tests.go:75-121 | for every run: each holder's lock stays in place throughout if and only if no live lock is deleted blindly |
| `RepoLock.ExclusionIffRespectful` | tests/integration-service/group-snapshots-tests.go:75-121 | for every run: at most one live holder in all its states and in all their continuations without blind deletions, if and only if the run deletes no live lock blindly |
| `RepoLock.ExclusionWhileFresh` | tests/integration-service/group-snapshots-tests.go:80-97 | with Get and Delete separate: at most one live holder in every run in which no lock is seen stale and only holders release |
| `RepoLock.ExclusionWhenAtomic` | tests/integration-service/group-snapshots-tests.go:56-58 | with Get and stale Delete one step: at most one live holder when holders release in time and only holders release |
| `RepoLock.StaleRace` | tests/integration-service/group-snapshots-tests.go:87-90 | a run of the protocol as coded, with prompt holders, that ends with two holders |
| `RepoLock.GiveUpBreaksExclusion` | tests/integration-service/group-snapshots-tests.go:189-196 | a run with prompt holders and no takeover in which a test that polled for 60 minutes in vain deletes the lock all the same, and two tests hold it |
| `LockProgress.PollIsRun` | tests/integration-service/group-snapshots-tests.go:75-119 | one call of the polling closure is a run of the lock's steps |
| `LockProgress.Cluster.Poll` | tests/integration-service/group-snapshots-tests.go:75-119 | the closure moves the cluster as that run does and succeeds exactly when it made the lock |
| `LockProgress.Cluster.AcquireAlone` | tests/integration-service/group-snapshots-tests.go:75-121 | a lone waiter gets the lock after the time computed, at most 46 minutes, inside the limit |
| `LockProgress.WaitBound` | tests/integration-service/group-snapshots-tests.go:58 | that time is at most 46 minutes for every age of the lock |
| `LockProgress.WaitBoundTight` | tests/integration-service/group-snapshots-tests.go:120 | a lock taken as the waiter starts costs the full 46 minutes |
| `FilterComposition.ComposeRunFilter` | magefiles/magefile.go:1366-1375 | the filter string handed on |
| `FilterComposition.TrimSpaceMeans` | magefiles/magefile.go:1367 | the extra filter without a prefix and a suffix of white space, and no white space left at its edges |
| `FilterComposition.TrimmedUnique` | magefiles/magefile.go:1367 | there is only one such text |
| `FilterComposition.RunTestsIsConjunction` | magefiles/magefile.go:1366-1375 | it parses to the conjunction of both filters for all filters, unless the extra one uses commas without an or operator |
| `FilterComposition.RunTestsExactly` | magefiles/magefile.go:1366-1375 | for all filters, with an extra one or none, a test is selected as by the conjunction exactly when the base selects it or no later alternative of the extra filter does |
| `FilterComposition.BuildLabelFilterExactly` | magefiles/rulesengine/repos/build_service.go:68-80 | for all filters, with an extra one or none, a test is selected as by the conjunction exactly when the extra filter selects it or no earlier alternative of the base does, and the base selects it or no later alternative of the extra filter does |
| `FilterComposition.BuildLabelFilterMeans` | magefiles/rulesengine/repos/build_service.go:68-80 | what is selected in terms of the alternatives of both filters: only the last of the one and the first of the other are joined |
| `FilterComposition.BuildLabelFilterIsConjunction` | magefiles/rulesengine/repos/build_service.go:54-66 | the conjunction for every test, for a base without a top-level or and an extra filter that uses commas at most beside an or operator |
| `FilterComposition.CommaEscapes` | magefiles/rulesengine/repos/build_service.go:57-58 | with two labels joined by a comma, either combinator selects whatever has the second label |
| `FilterComposition.BuildServiceCommaEscapes` | magefiles/rulesengine/repos/build_service.go:33 | a build-service job given `github,gitlab` selects a test that has the label `gitlab` only |
| `FilterComposition.RunTestsCommaEscapes` | magefiles/magefile.go:1366-1375 | so does the disaster-recovery run |
| `FilterComposition.PairedExclusions` | magefiles/rulesengine/repos/release_service_catalog.go:118-121 | tests with an excluded label are selected exactly if an alternative other than the last selects them; others as before |
| `FilterComposition.FirstCaseEscapes` | magefiles/rulesengine/repos/release_service_catalog.go:59 | of two test cases joined by or, the first escapes the exclusions |
| `TagCleanup.FetchTags` | magefiles/utils.go:260-272 | the loop ends at the first page that is read and is the last; tag `j` of page `i` stands behind all tags of the pages read before it, and nothing else is there; likewise one error per failed page, naming the page after it |
| `TagCleanup.PagesMean` | magefiles/utils.go:260-272 | the same of the recursive form, for any number of answers |
| `TagCleanup.FailedPageSkipped` | magefiles/utils.go:264-267 | a failed page, wherever it comes, takes nothing from the tags of the others |
| `TagCleanup.EachTagOnce` | magefiles/utils.go:277-294 | for any number of tags and workers and every interleaving: each tag is visited exactly once, by the worker of its residue, and deletion requested exactly if it is past the cutoff then |
| `TagCleanup.RunsEnd` | magefiles/utils.go:280 | no interleaving takes more turns than there are tags |
| `TagCleanup.OldTagsGo` | magefiles/utils.go:282-283 | tags old when the cleanup starts are deleted, tags not old when it ends are not, whatever the schedule |
| `TagCleanup.WorkerErrorsLost` | magefiles/utils.go:278-306 | however the workers append to the shared backing array, the caller reports the page errors and nothing else |
| `Retrigger.PollRun` | pkg/clients/has/components.go:218-260 | the polls up to the first that decides, and what it decides |
| `Retrigger.OutcomeExactly` | pkg/clients/has/components.go:218-288 | for each outcome of a round that is not retried, exactly which poll answers give it |
| `Retrigger.EndingUnique` | pkg/clients/has/components.go:218-260 | a round has exactly one ending |
| `Retrigger.PlayRound` | pkg/clients/has/components.go:214-285 | one round and the reaction to its failure, call by call |
| `Retrigger.WaitForPipeline` | pkg/clients/has/components.go:204-297 | the whole loop computes `Wait`, and the succeeded run, and only that, is copied to the caller's object |
| `Retrigger.FirstSettledDecides` | pkg/clients/has/components.go:262-288 | the first round that is not retried, or the one after the last retry, decides; the retriggers are those of the rounds before it, with their runs and shas |
| `Retrigger.BoundedRetriggers` | pkg/clients/has/components.go:269-271 | at most `Retries` retriggers, and `Retries + 1` rounds always settle the outcome |
| `Retrigger.StillWaiting` | pkg/clients/has/components.go:262-285 | while every round is retried the loop goes on |
| `Retrigger.UnboundedRetriggers` | pkg/clients/has/components.go:269 | with negative `Retries` any number of failing rounds is retriggered |
| `Retrigger.CallsDisciplined` | pkg/clients/has/components.go:269-280 | each retrigger directly follows finalizer removal and deletion of that run, which did not succeed; without `Always` its reason is one of the two |
| `Retrigger.LookupsFollow` | pkg/clients/has/components.go:278-285 | every lookup uses the sha of the latest retrigger and, from then on, no event type |
| `Retrigger.SuccessIsReal` | pkg/clients/has/components.go:241-243 | success is returned only for a succeeded run found by the last poll of the round after the last retrigger |
| `Retrigger.NilRunExactly` | pkg/clients/has/components.go:266 | the nil run is dereferenced if and only if nothing decides, some lookup found a run and the last one failed |
| `RetryTransport.RoundTrip` | pkg/utils/retry_transport.go:19-52 | which attempt is the last, what it answers, the bodies sent, the time slept and the bodies closed; no call at all for negative `MaxRetries` |
| `RetryTransport.CallsMade` | pkg/utils/retry_transport.go:23-37 | with `k` leading 5xx responses there are min(k, MaxRetries) + 1 calls |
| `RetryTransport.LastAttempt` | pkg/utils/retry_transport.go:23-37 | the last attempt is the first that is not answered by a status of 500 or more, or the one after the last retry; a first answer below 500 means one call |
| `RetryTransport.BodiesClosed` | pkg/utils/retry_transport.go:39-43 | each discarded response body is closed once, the returned one is not |
| `RetryTransport.TotalSleep` | pkg/utils/retry_transport.go:45-48 | the waits add up to BaseDelay * (2^m - 1) if and only if the last of them fits an int64 |
| `RetryTransport.DefaultSleep` | pkg/utils/retry_transport.go:54-65 | at most 62 seconds with the default settings, and all of them against a server that keeps failing |
| `RetryTransport.BodiesSent` | pkg/utils/retry_transport.go:24-28 | all attempts send the original body if and only if there is none, or every rewind works, or an unrewindable one is sent once |
| `RetryTransport.Request.Send` | pkg/utils/retry_transport.go:25-30 | the body an attempt sends, and that it is used up afterwards |

## Left out

- Kubernetes, Git, Quay and HTTP calls: their answers are parameters, universally quantified.
- Test bodies, object builders, log collection, templates, `ginkgo outline`, installation: nothing beyond one function to state.
- Ginkgo's label parser and the doublestar matcher are not part of this repository: small grammars of their own stand for them (`LabelFilter`; `ChangedFiles`, with literal, one-star and double-star segments); regular-expression labels and label sets are not modelled.
- FilterComposition.TrimSpace: trims ASCII white space only.
- Strings are sequences of characters: the bytes of an encoding are not modelled.
- Pruner.Prune: the sibling slice is an array updated in place; the children of a node are values, so two nodes that share a backing array are not modelled.
- EngineMeaning.Meaning: for conditions that actions do not change; the other engine theorems have no such assumption.
- E2ERun.SuitesExecuted: for runs without failing actions, as are E2ERun.FocusLeft and E2ERun.FilterLeft; RunFaithful and FailurePrefix cover the others.
- CIRuns.ExecutedInAnyOrder: for worlds without failures in which no condition changes its answer once the settings are made; OrderIndependence covers the others.
- CIOrder.OrderIndependence: what the settings and bootstrap actions do to the rest of the context, environment variables included, is left open apart from not changing the repository name and not reading the pairing flag (but for release-service-catalog's own settings). Answers may change from call to call, but not with how often catalogs asked for the repository name, the pairing or the rehearsal: a lookup that answers differently the second time can make another rule match, and only `ExactlyOneGuard` is about that. The same holds for CIOrder.OwnCatalogDecides.
- E2EFocus.FocusOnlyGrows: the two flags that the settings action sets are not part of the context.
- InfraCatalog.CatalogRun: executing the tests is an action that does not fail.
- RepoLock: one clock for all tests, and any time may pass between two polls, not only 30 seconds; timestamps are cut to whole seconds as RFC 3339 prints them and always parse.
- LockProgress.Cluster.AcquireAlone: a poll takes no time; other tests do not compete.
- TagCleanup: the cutoff is an arbitrary function of the time of the visit, so calendar days and time zones are not computed; a worker's turn is one step, as the workers share nothing but the error array.
- TagCleanup.FetchTags: is stated on the answers given so far; the source's loop does not end if no last page ever comes.
- Retrigger.WaitForPipeline: is stated on the rounds given so far; the text of the returned error and the stored logs are not modelled, and how a retrigger reaches the Git provider is one call.
- RetryTransport.RoundTrip: a base transport that returns a response together with an error is not modelled.
- `retry`, `SetupMultiPlatformTests`, `FilterByStatus` and the `demo` category: a loop or a test each, with no property across functions.
