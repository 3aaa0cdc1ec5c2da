# A verified model of CDP's deterministic core

CDP turns a repository into an index: it extracts facts from files, layers the modules, cuts the files into scopes,
schedules the scopes in waves, runs an agent on each scope, and folds the patches that come back into one state whose
every claim cites text in the tree. This project models the algorithms that the pipeline's promises rest on and proves
what they compute, for every input.

The model follows the form of the source. Loops are methods with invariants, each proved against a specification;
objects that update their fields (`Budget`, the task table, the extraction accumulators) are classes; what is promised
about a result is proved as lemmas about the specification functions, which describe it by the inputs and never by the
functions that compute it. The modules build on each other in this order:

| file | component |
|---|---|
| `Options.dfy`, `Orders.dfy`, `Text.dfy` | missing values; stable sorts, lexicographic orders, permutations; whitespace normalisation |
| `Reachability.dfy`, `Cycles.dfy`, `Layering.dfy`, `Schedule.dfy` | iterative Tarjan, longest-path levels, waves |
| `Merge.dfy`, `Fold.dfy` | claim merge, the fold over the patch log |
| `Unions.dfy`, `Resolution.dfy`, `MergeResult.dfy` | what a merged claim, the resolution of a group and the whole merge say, in terms of the claims alone |
| `QuestionOrder.dfy`, `FoldOrder.dfy`, `History.dfy` | when the fold depends on the order of the log, generations, the two history commands |
| `FoldedState.dfy` | what the folded state says, in terms of the log alone |
| `Counterexamples.dfy` | logs and claims for which what is said of the merge, the fold and the history commands fails |
| `Supervisor.dfy`, `AppliedWaves.dfy` | supervised dispatch with retries, how its results enter the log, and what the log then says |
| `Anchors.dfy`, `AnchorSearch.dfy`, `Citations.dfy`, `Evidence.dfy` | the anchor index and search, building and verifying anchors, verifying a patch |
| `Extract.dfy`, `ExtractRows.dfy` | full extraction, and which fact ends in which list |
| `Refresh.dfy`, `RefreshEquivalence.dfy` | incremental extraction, and when it agrees with full extraction |
| `Trace.dfy`, `TraceSearch.dfy`, `Walks.dfy`, `BreadthFirst.dfy` | bounded path enumeration, closure, breadth-first walk |
| `FairSplit.dfy`, `Budgets.dfy` | fair allocation of a row limit, the draw-down budget |
| `Scopes.dfy`, `Cutting.dfy`, `CutScopes.dfy`, `CutNodes.dfy`, `ModuleCuts.dfy` | the scope record, the tree cut of a module, which scopes it makes and when their nodes differ, the cuts of all modules |
| `Coalescing.dfy`, `Packing.dfy`, `PackingOrder.dfy`, `Partition.dfy` | bottom-up merging, first-fit packing, in what order scopes are packed, the whole partition |
| `PartitionExamples.dfy` | inventories whose partition fails or leaves a scope over budget unflagged |

Values that come from outside are parameters: an attempt of the runner and its lease are an arbitrary sequence
(`world`), file lines an arbitrary tree, the language extractor an arbitrary function of path, lines and module, the
lines of code of a file an arbitrary `size`, and hashes arbitrary functions (where a proof needs it, without collisions
on the log at hand).

## Where the code and its description differ

The model follows the code. Each of these is a lemma, or a case of a contract, below.

- A tie on evidence does not always escalate: `sorted(leaders)` compares tuples that can hold both `None` and strings,
  and then raises a `TypeError` (cdp/merge.py:181). `Merge.MergeRaisesExactly` says when,
  `Counterexamples.MissingChannelRaises` shows two claims that do it.
- Cycle members are raised after the levels of their dependents were memoised, so a module can share the level of a
  raised dependency (cdp/graph.py:271-274). `Layering.StrictExactly` says when, in terms of the longest dependency
  chains out of the two cycles; `Layering.RaisedTargetNotStrict` shows the smallest case.
- The fold is independent of the log's order only up to ties: a node with two statuses that are both unranked, a node
  with two error texts, claims of different selected patches with equal sort keys, or one question first asked in
  different words can make it depend on the order. `FoldOrder.StatusOrderExactly`, `FoldOrder.ErrorOrderExactly`,
  `FoldOrder.ClaimOrderExactly` and `FoldOrder.UnknownOrderExactly` are the exact conditions;
  `Counterexamples.TiedClaimsShowOrder` is a log of two patches whose two orders fold to different claims.
- Incremental extraction keeps the declared dependencies and notes of a file that was deleted or moved out of an
  unchanged module (cdp/refresh.py:160-167). `RefreshEquivalence.IncrementalEqualsFullExactly` says when this shows,
  `RefreshEquivalence.DeletedFileLeavesItsDependency` is the smallest case.
- `--as-of` and `rollback --to-snapshot` do not answer alike. They select different patches when one run has patches
  on both sides of the cut, or when an earlier rollback excluded a run before it; `History.CutsAgreeExactly` is the
  exact condition, `Counterexamples.EarlierRollbackShows` a log of the second kind. And `--as-of` folds the claims as
  recorded, while rollback verifies them against the tree (cdp/cli.py:899-906, 2574-2578):
  `Counterexamples.StaleAnchorShows` is a log where only that makes the difference, and `History.AsOfMatchesRollback`
  has the states equal where verification leaves the kept patches as they are. (Rolling back to the newest run excludes
  nothing new and returns without folding.)
- Nothing makes the nodes of cut scopes distinct: a directory called `(files)` beside loose files yields a repeated
  node, as does a module named like a directory of another; the scope that comes first is dropped by the dict in
  `_coalesce`, and `assert_partition` raises (cdp/partition.py:105-108, 126). `ModuleCuts.AllCutDiffersExactly` is the
  exact condition and `Partition.MakePartition` fails exactly then; `ModuleCuts.PlainInventoryCutsClean` gives a
  condition on names alone that rules it out, and `PartitionExamples.FilesDirectoryFails` two files that fail.
- A scope of loose files is never flagged oversized (cdp/partition.py:105-106). `CutNodes.ScopesExactly` says which
  scopes a cut makes, with which flags; `PartitionExamples.LooseFilesUnflagged` and
  `PartitionExamples.LooseFilesOverBudget` exhibit scopes over budget without a flag. `CutScopes.CutIsGood` and
  `Partition.MakePartition` except these.
- Verifying a relocated anchor again can find it ambiguous. `Citations.ReverifiesExactly` says when,
  `Citations.RelocatedBecomesAmbiguous` shows a file where it does.
- `_trace` reports truncation when exactly the limit of paths exists, although none was lost (cdp/dataflow.py:189-198).
  `TraceSearch.TracePaths` states the bound as the code has it.
- `Budget.note` can only ever report a limit of zero: once a row was elided under a positive limit, a row was emitted
  (cdp/query.py:161-171). `Budgets.Budget.Note` says so.
- A concurrency cap of zero raises and a negative one schedules nothing (cdp/schedule.py:52-53).
  `Schedule.BuildSchedule` covers both.
- `_walk` sorts the edges of a node, not the frontier as its description says (cdp/query.py:1032-1060). The result
  is a shortest-path tree either way.

## Model

| member | source | states |
|---|---|---|
| Cycles.FindCycles | cdp/graph.py:281-329 | on every finite graph the iterative search ends and lists exactly the strongly connected components of more than one module, each sorted, in order |
| Cycles.CycleListIsUnique | cdp/graph.py:281-329 | that description determines the list, so nothing depends on the order in which Tarjan visits the graph |
| Layering.BuildDeps | cdp/graph.py:234-243 | the dependency map has every module as key and exactly the given edges |
| Layering.Depth | cdp/graph.py:254-267 | the memoised recursion computes the longest chain of counted dependencies; its `seen` guard can only answer for a module that depends on itself |
| Layering.AllDepths | cdp/graph.py:252-270 | after the loop over the modules, every module has its depth and nothing else has one |
| Layering.RaiseCycles | cdp/graph.py:271-274 | every member of a cycle is lifted to the deepest member's depth; nothing else moves |
| Layering.Layer | cdp/graph.py:234-278 | the returned layers list the modules level by level, each sorted, without empty layers |
| Layering.DepthIsUnique | cdp/graph.py:254-267 | a module has one depth, whatever order the memo is filled in |
| Layering.DeepestDependency | cdp/graph.py:254-267 | without self-edges, before raising, a module is strictly deeper than each counted dependency and exactly one deeper than some |
| Layering.CycleSharesLevel | cdp/graph.py:271-274 | all members of a cycle share one level |
| Layering.StrictExactly | cdp/graph.py:254-274 | of two modules one ends on a strictly higher level if and only if some chain of dependencies out of its cycle is longer than every chain out of the other's cycle |
| Layering.StrictWhenNotRaised | cdp/graph.py:254-274 | in particular a module is strictly above every other module it depends on outside its cycle that was not raised |
| Layering.RaisedTargetNotStrict | cdp/graph.py:271-274 | with A and B in a cycle, A on C and X on B, the modules X and B share a level |
| Layering.LowerLevelsInhabited | cdp/graph.py:254-278 | below a module's depth, every level holds some module |
| Layering.LayersHaveNoGap | cdp/graph.py:275-278 | without self-edges the filter for empty layers drops nothing, so a level is a layer's position |
| Layering.AcyclicLevels | cdp/graph.py:234-278 | on an acyclic graph there are no cycles, nothing is raised, and a level is the length of a longest dependency path |
| Schedule.CutWaves | cdp/schedule.py:45-73 | the waves chunk the sorted scopes in order, one level each, at most the cap each, and only the last wave of a level is not full |
| Schedule.ScheduledInOrder | cdp/schedule.py:40-73 | the waves hold every scope as often as given, lower levels first, and one level in order of node |
| Schedule.AssignWaves | cdp/schedule.py:75-78 | every scheduled node is assigned the last wave that holds it |
| Schedule.BuildSchedule | cdp/schedule.py:25-95 | with a positive cap the sorted scopes are cut so; a cap of zero raises; a negative one schedules nothing |
| Schedule.NodeWaveHasLevel | cdp/schedule.py:40-78 | a scope's node is assigned a wave of its module's level |
| Schedule.LowerLevelRunsEarlier | cdp/schedule.py:40-78 | a scope of a lower level is in a strictly earlier wave |
| Schedule.SchedulerSeesLevels | cdp/schedule.py:30-33 | the levels the scheduler reads off the layers are the levels the layering computed |
| Schedule.DependenciesRunFirst | cdp/schedule.py:40-78 | end to end: every scope of a dependency that lies outside the cycle and was not raised runs in a strictly earlier wave; on an acyclic graph that is every dependency |
| Schedule.CycleScheduledTogether | cdp/schedule.py:40-78 | mutually dependent modules are scheduled on one level |
| Merge.MergeClaims | cdp/merge.py:46-121 | the grouping and merging loops compute the merge that the rows below describe |
| MergeResult.MergeSettles | cdp/merge.py:46-188 | unless the merge raises, for every subject and kind with claims: one signature is unanimous; else if the owners' claims have one signature, it wins by ownership; else if one signature has more distinct anchors than any other, it wins by evidence; the merged claim unites exactly the claims of the winning signature, or all claims, contested, if none wins, and a conflict lists every position with its nodes, statements, evidence count and whether it won |
| MergeResult.MergeTabulates | cdp/merge.py:46-121 | the lists hold one claim per subject and kind, sorted, and the counters are the numbers of groups, of conflicts by reason and of near misses |
| Resolution.GroupFollows | cdp/merge.py:46-121 | one group's merged claim, conflict and near miss follow from who made which claim with what evidence |
| Resolution.VerdictFollows | cdp/merge.py:150-188 | the resolution picks a signature exactly when ownership, or else evidence, singles it out |
| Unions.UnionUnites | cdp/merge.py:191-227 | the union takes id, signature and the rest from the first claim in order, cites each (file, text) once and sorted, leads with the first statement that is not blank and lists all when there are more, has the strongest confidence, and names every source node |
| Merge.NodesLieInModules | cdp/merge.py:158-166 | a node below `root/` lies in the module named by its next segment, any other in the module of its own name |
| Merge.MergeIgnoresOrder | cdp/merge.py:46-121 | a permuted claim list merges to the same claims, conflicts, near misses and counts, provided claims tied inside one group keep their order |
| Merge.MergeRaisesExactly | cdp/merge.py:169-188 | the merge raises if and only if some group's evidence tie holds signatures Python cannot compare |
| Merge.ResolveRaisesExactly | cdp/merge.py:150-188 | resolving a group raises if and only if no one signature is its owners', and two of its claims whose signatures both have the most distinct anchors have signatures Python cannot compare |
| Counterexamples.MissingChannelRaises | cdp/merge.py:169-188 | two claims of one group with equal evidence, one with a channel and one without, make the merge raise |
| Merge.MergeAccounts | cdp/merge.py:46-121 | one merged claim per group; unanimous groups and conflicts add up to the groups, and the three resolutions to the conflicts |
| Merge.MergeCoversGroups | cdp/merge.py:46-121 | the merged claims are about exactly the subjects and kinds the claims were about |
| Merge.UnionKeepsEvidence | cdp/merge.py:191-227 | a merged claim cites every (file, text) some member cites, and nothing else |
| Merge.DistinctAnchorsKeepAll | cdp/merge.py:191-227 | deduplicated evidence keeps every key exactly once |
| Fold.CollectStatuses | cdp/state.py:116-134 | the loop computes each node's best-ranked status and last error text |
| Fold.CollectBest | cdp/state.py:146-158 | the loop selects per node the complete patch of the greatest generation, ties broken by hash |
| Fold.FoldLog | cdp/state.py:51-224 | the fold's loops together compute the state that the next rows describe |
| FoldedState.StateSays | cdp/state.py:51-224 | node by node: the status is a best-ranked one of its patches, the error its last; the coverage has all files, the files of exactly the scopes whose node has a complete patch that is not excluded, and the sorted nodes of the others |
| FoldedState.ClaimsComeFrom | cdp/state.py:146-181 | where hashes do not collide, a claim reaches the merge if and only if a node's best complete patch brings it, under that node unless it names another, and its source is a node with a complete patch or without patches |
| FoldedState.RowsSay | cdp/state.py:164-204 | the questions before deduplication are exactly those a complete patch asks and the gap of every node that was not examined, with its status and error |
| FoldedState.DedupeSays | cdp/state.py:272-284 | deduplication keeps, of each question of each node, the row that came first, and sorts the rows by node and question |
| FoldedState.DedupeKeepsQuestions | cdp/state.py:272-284 | deduplication drops no question |
| FoldedState.QuestionsReachState | cdp/state.py:164-204 | a question that a complete, not excluded patch asks is asked in the folded state, where the later passes keep every question |
| FoldOrder.StatusOrderExactly | cdp/state.py:116-132 | every order of the log gives the same statuses if and only if no node has two different statuses and only unranked ones |
| FoldOrder.ErrorOrderExactly | cdp/state.py:133-134 | every order gives the same error texts if and only if no node has two |
| FoldOrder.BestIgnoresOrder | cdp/state.py:146-158 | without hash collisions the selected patches do not depend on the order |
| FoldOrder.BestOfLog | cdp/state.py:146-158 | the selected patches are complete ones of the log, one per node that has any, each with no complete patch of its node of a greater generation, or of its generation and a greater hash |
| FoldOrder.ClaimOrderExactly | cdp/state.py:146-181 | where the statuses do not depend on the order and hashes do not collide, every order of the log brings the merge the same claims, class of ties by class, if and only if the rows any two selected patches of different nodes bring to a class commute; superseded generations do not matter |
| FoldOrder.ClaimsIgnoreOrder | cdp/state.py:146-181 | then the claims that reach the merge are permuted, and each group's ties keep their order |
| FoldOrder.EqualTiesCommute | cdp/state.py:146-181 | which holds when tied claims of different selected patches are equal |
| FoldOrder.OwnSourcesAgree | cdp/state.py:160-164 | and when no claim of a selected patch names a source node of its own |
| Counterexamples.TiedClaimsShowOrder | cdp/state.py:146-181 | two complete patches whose claims share source node, id and evidence and differ in statement: the two orders of the log fold to different claims |
| QuestionOrder.DedupeExactly | cdp/state.py:272-284 | two lists deduplicate to the same list if and only if each question's first row is the same in both |
| FoldOrder.UnknownOrderExactly | cdp/state.py:164-204 | where the statuses do not depend on the order, every order of the log leaves the same unknowns if and only if patches that ask one question first ask it in the same words, and each superseded node whose gap nobody asks has one error text |
| FoldOrder.FoldIgnoresOrder | cdp/state.py:51-224 | for every permutation of the log: same claims, conflicts, near misses, counts, nodes and coverage under the exact conditions on statuses and claims; unknowns too under theirs |
| FoldOrder.HashPartsExactly | cdp/state.py:227-243 | with equal other inputs, `fold_hash` digests the same parts for two logs if and only if one is a permutation of the other |
| History.NextGeneration | cdp/cli.py:648-654 | the stamp is above every generation the node has in the log |
| History.NextIsGreatestPlusOne | cdp/cli.py:648-654 | for a node with patches, it is one more than the greatest |
| History.StampKeepsAscending | cdp/cli.py:1161-1177 | appending a stamped patch keeps complete generations strictly increasing per node |
| History.LastCompleteWins | cdp/state.py:100-181 | in such a log, read in any order and with any hashes, the claims that reach the merge after exclusion and verification are exactly the live claims of each node's last complete patch that is not excluded |
| History.LateFailureChangesNothing | cdp/state.py:116-197 | a patch that is not complete, appended to a node that is, changes no claim, conflict, unknown, status or coverage figure |
| History.PatchesUpToRun | cdp/rollback.py:54-76 | the scan cuts after the last patch of the run and excludes the runs of what follows, or reports the run as unknown |
| History.CutsAgreeExactly | cdp/rollback.py:54-76 | filtering the log by the runs excluded before and now selects a subsequence of the kept prefix, and all of it if and only if no run has patches on both sides of the cut and no kept run was excluded before |
| History.AsOfMatchesRollback | cdp/cli.py:899-906 | then, and where verification leaves the kept patches as they are, the unverified fold as of a run and the verified fold after a rollback to it are the same state |
| Counterexamples.StaleAnchorShows | cdp/cli.py:899-906 | a claim the tree no longer supports is in the state as of a run and not in the state after a rollback to it, though both read the same patches |
| Counterexamples.EarlierRollbackShows | cdp/cli.py:2573-2578 | a run rolled back before is in the state as of that run, and missing after a rollback to it |
| Supervisor.DispatchScope | cdp/supervisor.py:110-191 | the retry loop returns the row of the first attempt that is not retried, the table records it, and no other task changes |
| Supervisor.EndingCharacterised | cdp/supervisor.py:158-191 | a dispatch is dropped only at a held lease, validated only with an accepted attempt's patch, and abandoned only after the last allowed attempt, with that attempt's error and no patch |
| Supervisor.RunWave | cdp/supervisor.py:194-236 | a wave returns the rows of the chosen, not skipped scopes, in partition order |
| Supervisor.WaveReturns | cdp/supervisor.py:194-236 | the rows are those of the scopes of the wave that are not skipped, each as its dispatch ended, in partition order |
| Supervisor.RowsAreTerminal | cdp/supervisor.py:158-236 | with at least one attempt allowed, every returned row is validated with a patch or abandoned without one, within the limit, and belongs to a chosen scope |
| Supervisor.MarkFolded | cdp/supervisor.py:239-244 | exactly the validated rows' tasks become folded |
| Supervisor.ApplyWaveResults | cdp/cli.py:1455-1520 | the loop appends what the next rows describe |
| AppliedWaves.WaveAppends | cdp/cli.py:1463-1499 | the log grows by exactly one patch per validated or abandoned row, in order: for a validated row its patch, complete, under the row's node and this run, with a generation, the stamped claims and gated unknowns and every other field as it was; for an abandoned row a failed patch without claims or unknowns, with the row's error or the number of attempts |
| AppliedWaves.ValidatedClaimsReachMerge | cdp/cli.py:1455-1520 | end to end: every stamped claim of a node's last validated row reaches the merge of the fold, under that node if it names none, provided generations ascend in the log, verification keeps the patch, the run is not excluded and the claim's source is not superseded |
| AppliedWaves.ValidatedQuestionsReachState | cdp/cli.py:1455-1520 | and every gated question of a validated row is asked in the folded state, where the later passes keep every question |
| Supervisor.ApplyKeepsGenerations | cdp/cli.py:1463-1496 | applying a wave only appends, and keeps complete generations strictly increasing |
| Supervisor.EveryRowAccounted | cdp/cli.py:1455-1520 | after a wave is applied and folded, each returned scope's node is complete, or the state holds the unknown that names it; a validated one is complete |
| Text.WordsSplitAtSpace | cdp/util.py:196-202 | whitespace separates words wherever it stands |
| Text.NormaliseIdempotent | cdp/util.py:196-202 | normalising twice is normalising once |
| Text.StripExactly | cdp/merge.py:205 | stripping removes blank text at both ends only, and what is left begins and ends with something else |
| Anchors.NormalisedIndex | cdp/anchor.py:101-134 | the loop builds the joined text of the non-blank lines, their offsets and their line numbers |
| Anchors.EntryWindow | cdp/anchor.py:41-86 | the normalised window that starts on an entry's line is the join of the entries within the span |
| Anchors.OccurrenceInWindow | cdp/anchor.py:77-84 | an occurrence in the whole text lies in the window of its first line if and only if its last line is within the span |
| AnchorSearch.Find | cdp/anchor.py:74 | the first occurrence at or after a position, or none |
| AnchorSearch.BisectRight | cdp/anchor.py:77-78 | how many offsets are at most the position |
| AnchorSearch.FindMatches | cdp/anchor.py:41-86 | the indexed search returns, strictly ascending, exactly the lines where the normalised anchor occurs in the normalised window, starting inside the line's own text |
| Citations.Qualifies | cdp/anchor.py:137-145 | a text qualifies for a line exactly when it is long enough and its only close match is that line |
| Citations.BuildAnchor | cdp/anchor.py:148-183 | the result is the first qualifying span in the order the code tries them, or none if none qualifies |
| Citations.VerifyAnchor | cdp/anchor.py:206-233 | the finding: too short, missing, too far, ambiguous, or accepted with its line |
| Citations.FindingIsUnique | cdp/anchor.py:206-233 | an anchor has one finding |
| Citations.AcceptedIsCited | cdp/anchor.py:206-233 | an accepted anchor is long enough and begins on the returned line, close to the cited one |
| Citations.ReverifiesExactly | cdp/anchor.py:206-233 | with its corrected line an accepted anchor is accepted again if and only if no other hit is close to that line; otherwise it is ambiguous |
| Citations.RelocatedBecomesAmbiguous | cdp/anchor.py:206-233 | in a file with a text on lines 10 and 15, an anchor that cites line 5 is relocated to line 10, and ambiguous when verified again there |
| Citations.BuiltVerifies | cdp/anchor.py:148-233 | whatever `build_anchor` returns, `verify_anchor` accepts on the same lines |
| Citations.BuiltVerifiesInPlace | cdp/anchor.py:148-233 | with a span within the limit it is accepted at the cited line, or at the first non-blank line after it |
| Citations.ReformattingKeepsFindings | cdp/anchor.py:206-233 | an edit that keeps each line's normalised text changes no finding |
| Citations.ReformattingKeepsAnchors | cdp/anchor.py:148-183 | nor any built anchor |
| Evidence.CheckAnchors | cdp/verify.py:93-118 | of a claim's evidence, the corrected anchors that were found, the failures, and the count of relocated ones |
| Evidence.VerifyClaim | cdp/verify.py:93-150 | a claim is kept or demoted as its mode demands, and the counters move with it |
| Evidence.VerifyPatch | cdp/verify.py:49-154 | the kept claims, the demotions and counters that agree with them, including how many more claims lenient mode would keep |
| Evidence.ClaimFate | cdp/verify.py:93-150 | strict mode keeps a claim if and only if all its anchors are found, lenient mode if and only if some anchor is; it keeps exactly the found anchors, in order, at the lines where they are; a demotion names the first anchor that was not found and why |
| Evidence.PatchFate | cdp/verify.py:49-154 | the kept claims and the demotions of a patch are those of its claims, in order, each claim in exactly one list |
| Evidence.RelocatedAreMoved | cdp/verify.py:93-118 | the relocated count is the number of anchors found on another line than the cited one |
| Evidence.KeptClaimsCite | cdp/verify.py:93-150 | every kept claim has only evidence that is where it says it is, and in strict mode lost no anchor |
| Evidence.BuiltClaimsSurvive | cdp/verify.py:93-150 | a patch that cites only built anchors loses no claim, even in strict mode |
| Evidence.BuiltInPlaceUnchanged | cdp/verify.py:93-150 | evidence built in place is returned unchanged, and nothing counts as relocated |
| Extract.Accumulators.Absorb | cdp/extract.py:55-94 | a file's facts are appended to the shared accumulators, and nothing already there changes |
| Extract.AbsorbEntry | cdp/extract.py:130-148 | binary, oversized and empty files are skipped, others absorbed |
| Extract.RunExtract | cdp/extract.py:97-184 | the loop and the final sorts compute the extraction that the next rows describe |
| ExtractRows.FullExtracts | cdp/extract.py:50-201 | the defines, uses, io edges and imports are, each sorted by its key, with multiplicities, exactly the facts of that kind of the files that were read, with their file and module; per-file records, declared dependencies, notes and totals come from the same files |
| ExtractRows.ListedExactly | cdp/extract.py:50-94 | a row is in such a list if and only if some file that was read gives it |
| ExtractRows.ReadExactly | cdp/extract.py:97-184 | that is, a file that is neither binary nor oversized nor empty; skipped files give nothing |
| Extract.TiesLieInOneFile | cdp/extract.py:168-201 | every sort key holds the file, so only rows of one file can tie |
| Extract.RowOrderIsOrder | cdp/extract.py:187-201 | every sort key orders all rows |
| Refresh.IncrementalExtract | cdp/refresh.py:134-225 | carrying, re-extracting and sorting compute incremental extraction |
| Refresh.SortForgetsCarrying | cdp/refresh.py:134-225 | a stable sort whose ties lie inside single files has one result, whether a file's rows were carried sorted or extracted again |
| Refresh.RowsAgree | cdp/refresh.py:134-225 | rows agree with full extraction when the prior one was full and every new, edited or moved file is named as changed |
| Refresh.FilesAgree | cdp/refresh.py:154-207 | under the same conditions the per-file records agree |
| RefreshEquivalence.AggregatesAgreeExactly | cdp/refresh.py:160-217 | a per-module aggregate agrees if and only if what lost files contributed to carried modules is contributed by a file that is still there |
| RefreshEquivalence.IncrementalEqualsFullExactly | cdp/refresh.py:134-225 | incremental extraction equals full extraction if and only if both aggregates are so covered |
| RefreshEquivalence.NothingLostNothingStale | cdp/refresh.py:134-225 | which holds when every carried module still has all its files |
| RefreshEquivalence.DeletedFileLeavesItsDependency | cdp/refresh.py:160-217 | deleting a module's only file, with no changed file, leaves its dependency behind |
| Trace.FrontierSound | cdp/dataflow.py:156-201 | every frontier entry is a simple traversable walk of its level's length |
| Trace.FrontierComplete | cdp/dataflow.py:156-201 | and every such walk is on the frontier |
| Trace.SourcePathsExactly | cdp/dataflow.py:156-201 | the paths of one source are exactly the node-simple walks within the hop limit that end in a sink edge |
| Trace.AllPathsExactly | cdp/dataflow.py:156-201 | the same over all sources |
| Trace.RecordsExactly | cdp/dataflow.py:204-247 | a path record has its source's trigger, channel and node, the last hop's target as sink, exactly the modules of source and hops, the representation chain of its `map` hops, and says whether every hop is anchored and any has medium confidence |
| TraceSearch.ExpandEdges | cdp/dataflow.py:177-194 | the innermost loop extends the frontier by every continuing edge and records the sink walks up to the cap |
| TraceSearch.ExpandFrontier | cdp/dataflow.py:175-195 | one hop from every frontier entry |
| TraceSearch.TraceLevels | cdp/dataflow.py:169-198 | the level loop records what all levels up to the hop limit hold, and stops early only when that changes nothing |
| TraceSearch.TraceSource | cdp/dataflow.py:168-198 | one source adds its paths up to the cap |
| TraceSearch.TraceSources | cdp/dataflow.py:156-201 | the sources in turn, up to the cap, and when truncation is reported |
| TraceSearch.DedupePaths | cdp/dataflow.py:250-267 | one path per trigger, source and sink, in that order, each a recorded one; every recorded path has one of its ends with fewer hops, or as many and a hop sequence that does not come after its own |
| TraceSearch.TracePaths | cdp/dataflow.py:156-201 | the search as a whole: truncation is reported if and only if at least the limit of paths exists; then the reported paths stand so for the recorded ones, otherwise for every walk from a source into a sink |
| TraceSearch.NoWorseStandsFor | cdp/dataflow.py:250-267 | the comparison of the loop prefers fewer hops, then the sequence of (source, target, channel) that comes first |
| TraceSearch.ReportedIsWalk | cdp/dataflow.py:156-267 | truncated or not, every reported path is a simple walk within the limit from a source into a sink |
| TraceSearch.UntruncatedReportsEveryWalk | cdp/dataflow.py:156-267 | untruncated, every such walk has a reported one with its trigger, source and sink and fewer hops, or as many and a hop sequence that does not come after its own |
| Walks.WithinExactly | cdp/dataflow.py:364-373 | the balls around a module hold exactly what walks of bounded length lead to |
| Walks.DistanceIsUnique | cdp/query.py:1032-1060 | a node has one distance from the start |
| Walks.Closure | cdp/dataflow.py:364-373 | the closure is exactly the reachable set |
| BreadthFirst.VisitEdges | cdp/query.py:1048-1058 | visiting a node's edges keeps the tree and adds exactly its unvisited targets |
| BreadthFirst.ExpandLevel | cdp/query.py:1045-1059 | a level turns the ball of one radius into the next, in order of distance |
| BreadthFirst.Walk | cdp/query.py:1032-1060 | the whole search: tree, ball, order and the flag; the stored edge leaves the first visited node with one, and is the first of that node's by channel, file and line |
| BreadthFirst.ReachedExactly | cdp/query.py:1032-1060 | the reached keys are exactly the nodes other than the start within the hop limit |
| BreadthFirst.UnlimitedIsComplete | cdp/query.py:1032-1060 | when the flag is false, everything reachable was found |
| BreadthFirst.ParentsAreCloser | cdp/query.py:1032-1060 | the stored edge into a node at distance d leaves a node at distance d - 1 |
| FairSplit.Pass | cdp/query.py:341-374 | one pass gives each active bucket its share in turn, as demand and remaining rows allow |
| FairSplit.FairSplitBudget | cdp/query.py:341-374 | allocations stay within demand, sum to the lesser of limit and demand, leave no unsatisfied bucket more than one row below another, in at most one pass more than there are buckets |
| Budgets.Budget.constructor | cdp/query.py:130-135 | a new budget has offered and spent nothing |
| Budgets.Budget.Take | cdp/query.py:139-152 | spent is the lesser of limit and rows offered; what is kept is an original-order selection, and no row left out has more evidence than a kept one, or as much and a place before it by subject, identity and position |
| Budgets.Budget.Note | cdp/query.py:154-171 | only a limit of zero is ever remarked on |
| Budgets.RankIsStrict | cdp/query.py:174-182 | no two rows tie in rank |
| Budgets.RankedOutranks | cdp/query.py:174-182 | ranking earlier means more evidence, or as much and first by subject, identity and position |
| Budgets.FirstRanksAreBest | cdp/query.py:139-152 | taking the first ranks and sorting the indexes drops no row that outranks a kept one |
| Budgets.TakeAll | cdp/query.py:139-152 | over any sequence of lists each answer is an original-order selection of its list's best ranked rows, the lists are served in turn, and the allowance is conserved |
| Budgets.SearchRows | cdp/query.py:740-758 | the four sub-budgets are a fair split, each list is cut to its best rows, and the totals are their sums |
| Cutting.Group | cdp/partition.py:88-96 | the files here and in each directory below, in order |
| Cutting.Cut | cdp/partition.py:72-108 | the recursion, which ends because the remaining path depth shrinks, computes the cut of the specification |
| Cutting.CutKeepsFiles | cdp/partition.py:72-108 | the scopes of a cut list every path exactly as often as it was given |
| CutScopes.CutIsGood | cdp/partition.py:72-108 | every scope has the right counts; one over budget is flagged, unless it holds a directory's loose files |
| CutNodes.ScopesExactly | cdp/partition.py:72-108 | a scope is in the cut if and only if it is a reached directory taken whole, flagged exactly when over budget, or the loose files of a reached directory that is cut, never flagged |
| CutNodes.NodesDifferExactly | cdp/partition.py:72-108 | the nodes of one module's cut are distinct if and only if no reached directory has loose files beside a directory `(files)` that is one scope |
| ModuleCuts.CutEveryModule | cdp/partition.py:48-54 | the modules are cut one by one, in the given order |
| ModuleCuts.AllCutDiffersExactly | cdp/partition.py:48-108 | all cut scopes have distinct nodes if and only if each module's do and no two modules have leaves of the same name |
| ModuleCuts.PlainInventoryCutsClean | cdp/partition.py:48-108 | which holds, whatever the budget, when no directory or module is called `(files)` and a module named below another has that directory to itself |
| PartitionExamples.FilesDirectoryFails | cdp/partition.py:105-108 | with one file per scope, the files `(files)/x` and `y` get one node, so their partition fails |
| PartitionExamples.LooseFilesUnflagged | cdp/partition.py:105-106 | whenever a module's own loose files exceed the budget and it has directories too, they become a scope over budget that is not flagged |
| PartitionExamples.LooseFilesOverBudget | cdp/partition.py:105-106 | such as `x` and `y` beside `d/z` with one file per scope |
| Coalescing.FindMergeable | cdp/partition.py:130-153 | the parent found is mergeable and no deeper one is, or none is mergeable |
| Coalescing.MergeableExactly | cdp/partition.py:130-153 | a parent is mergeable if and only if at least two scopes lie at or under it, all of one module, none flagged, and together they fit both budgets |
| Coalescing.NothingLeftToMerge | cdp/partition.py:130-177 | so at the end no parent has such scopes under it |
| Coalescing.MergeReplaces | cdp/partition.py:154-174 | a merge replaces exactly the scopes at or under the parent by one scope of the parent's node, their module, and their files and lines together |
| Coalescing.DepthCountsSlashes | cdp/partition.py:130-133 | the depth by which parents are tried is their number of slashes |
| Coalescing.Coalesce | cdp/partition.py:111-177 | the loop ends, having merged deepest mergeable parents one after another until none is left; sizes, modules, flags and every path's listing are kept |
| Coalescing.MergeKeepsFiles | cdp/partition.py:154-174 | a merge loses no file and moves none to another module |
| Coalescing.MergeKeeps | cdp/partition.py:126-177 | a merge keeps nodes distinct, counts right, merged scopes within both budgets and flagged scopes untouched |
| Coalescing.ByNodeOfDistinct | cdp/partition.py:126 | with distinct nodes the dict holds the list unchanged |
| Coalescing.RepeatedNodeLosesFile | cdp/partition.py:126 | when a node repeats, some file is listed less often than it was cut |
| Packing.PackBins | cdp/partition.py:217-227 | the loop computes first fit |
| Packing.FirstFitIsPacked | cdp/partition.py:205-229 | no bin exceeds a budget, and every bin but the last is more than half full in files or in lines |
| Packing.FirstFitKeepsWeight | cdp/partition.py:205-229 | the bins together hold what the small scopes held, by any measure |
| Packing.FirstFitBound | cdp/partition.py:205-229 | all bins but one number at most twice the small scopes' files over the file budget plus twice their lines over the line budget |
| Packing.PackModule | cdp/partition.py:204-229 | one module: large scopes stay, small ones are packed |
| PackingOrder.FirstFitFitsFirst | cdp/partition.py:204-229 | each small scope goes to the first bin that had room for it, and to a new bin only if none had |
| PackingOrder.PacksByFirstFit | cdp/partition.py:204-229 | of a module with two or more small scopes (unflagged and at most half of both budgets), those are taken from most lines down, then most files, then by node; the others stay as they are, and each bin becomes one scope, or stays the scope it holds |
| Packing.PackedModuleHolds | cdp/partition.py:204-270 | packing a module lists every path as often as before |
| Partition.PackSiblings | cdp/partition.py:180-230 | the modules are packed one by one, in order of name |
| Partition.PackingKeepsFiles | cdp/partition.py:180-270 | packing keeps every file, in its module |
| Partition.AllCutIsPartition | cdp/partition.py:33-54 | the cuts of all modules together list every tracked file exactly once and nothing else |
| Partition.AssertPartition | cdp/partition.py:292-312 | it passes if and only if every tracked path is in exactly one scope, once, and nothing else is in any |
| Partition.MakePartition | cdp/partition.py:33-69 | the partition fails if and only if the leaves of two directories share a name; it never fails on an inventory with plain names and no shared ground; otherwise it is the packed end of a run of merges, in order of node, every tracked file is in exactly one scope, and scopes over budget are flagged or loose files |

## Left out

- Git, the file system, databases, subprocesses, locks and clocks: their results are parameters.
- The lease table and its heartbeat (`cdp/store`): an attempt either gets its lease or does not; mutual exclusion
  between processes is not claimed.
- The language extractors (`cdp/lang`): one arbitrary function of path, lines and module.
- The process pool of `run_extract`: it hands results back in submission order, so the model extracts in that order.
- JSON and SHA-256: hashes are arbitrary functions of what they digest.
- `entail_claims`, `discharge_unknowns`, `grandfather_needs` and `cluster_unknowns`: arbitrary functions of their
  arguments; where questions must survive, that they keep every question is a hypothesis.
- The fold's verification report, entailment summary, contradictions and rollback note.
- The coverage fraction and its rounding: the model has the counts it is computed from.
- `verify_all`'s totals, demotion texts and the descriptions of failures.
- The memo of the anchor index, which is keyed by object identity.
- `build_anchor_for_text`, a search over `build_anchor`'s own checks.
- `patches_excluding_run`, the rollback ledger and `load_excluded_run_ids`: plain filters and records; the runs that
  earlier rollbacks excluded are a parameter.
- `changed_scopes`, `scope_hash` and `classify_changes`: comparisons of hashes and of git's diff.
- How dataflow edges and sources are derived, and the pruning at process boundaries.
- Search matching and its rank key: the model starts from the matched lists.
- The name of a packed scope: an arbitrary function of its members. The code does not make such names unique, so the
  lemmas about schedules and folds ask for distinct nodes where they need them.
- Gating of unknowns and the trajectory records of `_apply_wave_results`: the gate is an arbitrary function.
- Cross-references and `cdp/link.py`, rendering, help, hooks, export, the web and protocol servers, agent adapters
  and benchmarks.
