# A verified model of the plan, adapter and ingest protocol

Spex Machina keeps a specification as a tree of content-addressed nodes and an append-only
journal that links those nodes to tasks in a tracker.  A *plan* compares the spec with the last
snapshot and compiles a changeset; an *adapter* carries the changeset out and reports receipts;
*ingest* turns changeset and receipts into journal lines; a *refresh* absorbs drift that owes no
task.  Runs may be partial, may be repeated, and may die between two writes, and event ids are
derived rather than allocated.  This project models that protocol, the compiler in front of it,
and the graph, tree and text algorithms both rest on, and proves what they promise.

Verify everything with `dafny verify dfyconfig.toml`.

## How the model is laid out

The journal is a `seq<Event>`; the line of an event is its position.  Text is `seq<char>`, and the
lexicographic order is the one the program sorts by.  Hashes are plain strings; the identity hash
is a function parameter.  Where the program walks a Go map the model picks elements in an
arbitrary order, and the results are proved not to depend on it.  Loops of the program are loops
here; each is proved against a function or predicate that says what it computes, and the laws are
lemmas about those.  The `*Laws` files named in the last row of the table below, and `IngestRecords`,
say a second time what each main operation answers, refusals included, by positions and fields of its
inputs and without those functions, and prove that the two readings agree.  The journal file (`Reconciler.JournalStore`), the proposals filed beside it
(`Protocol.Registry`) and the pair of files a refresh writes (`Refresh.Workspace`) are classes that
their methods update.

| file | what it holds |
|---|---|
| `Order`, `Bags`, `Results`, `Text` | sorting and canonical listings, concatenation over lists, optional values, strings and lines |
| `Graph`, `CycleDetector` | walks and cycles; the three-colour search |
| `PlanTypes`, `Topology`, `Kahn`, `Sorter` | actions and operations; topological orders; the layered sorter |
| `SpecGraph`, `Matcher`, `Classifier`, `PlanningLaws` | dependency closure; matching; classification; planning as a function of sets |
| `Resolver`, `Labeler`, `LayerEdges`, `Builder`, `ChangesetLaws` | the changeset builder and what holds of every changeset it returns |
| `Journal`, `FoldSpec`, `JournalGrowth` | the journal and its fold; latest-wins; how linkages move when lines are appended |
| `EventBuilder`, `InvariantChecker`, `Reconciler` | ingest: lines, gates, the run |
| `IngestLaws`, `Idempotence`, `RunSafety`, `Convergence` | what ingest runs do to the linkage; reruns; staged runs |
| `Merkle`, `Rebuild`, `Refresh`, `Protocol` | trees, snapshots, diffs; loading a snapshot; the refresh and its crashes; whole runs |
| `PlanIngest`, `RoundLaws`, `PlannedRounds` | the seams between plan and ingest; once round the loop; the laws for planned changesets |
| `MarkdownScanner`, `NodeRenamer`, `CommonMark`, `LineByLine`, `Corpus` | links and fences; the rename sweep; fences as CommonMark reads them; references compared line by line; the removed-name sweep |
| `LayerLaws`, `SpecLaws`, `ActionLaws`, `OpLaws`, `ViewLaws`, `FoldLaws`, `IngestRecords`, `DiffLaws`, `RefreshLaws`, `LinkLaws`, `CorpusLaws` | what a sort, a dependency closure, a plan, a changeset, the planner's view, a fold, an ingest run, a diff, a refresh, a scan and a tokenization answer, said independently of how they are computed |

## Where the code and its documentation part

The model follows the code.  Where a promise fails, a lemma holds an input on which it does, and
another says exactly when it is kept.

* Section 4.5 of CommonMark and the scanner read three kinds of lines differently, and the rename
  sweep goes with the scanner (`validator/markdown_scanner.go:101-119`, `author/node_renamer.go:465-479`).
  A fence that cannot close the open block is text of the block by section 4.5 and nothing to the
  scanner (`CommonMark.PassedByExample`).  White space other than spaces and tabs after a closing fence
  keeps the block open by section 4.5 and not for the scanner (`CommonMark.ClosedOddlyExample`).  Such
  white space around the language belongs to the language by section 4.5
  (`CommonMark.OpenedOddlyExample`).  `CommonMark.ReadExactly` and `CommonMark.BlocksExactly` say when
  the readings agree, `LineByLine.RefsLineByLine` when the references do, `CommonMark.StaleExactly` and
  `LineByLine.AgreesLineByLine` when a rename leaves the document as section 4.5 would have it.
* A snapshot with a loop makes the rebuild recurse without end (`Rebuild.LoopedSnapshot`), unless a
  missing key comes first (`Rebuild.LoopBehindMissing`); `Rebuild.EndsExactly` says when it ends.
* A cleanup receipt may stand before its removal (`mapping/mapping_store.go:246-258`), but another
  receipt of the node in between takes the cleanup's place (`FoldSpec.CleanupLost`);
  `FoldSpec.EitherSideExactly` says when both places come to the same.
* `plan/node_matcher.go:62-66` says all three lists are ordered by task id; matches and unmatched
  changes come in the order of the diff (`Matcher.MatchesByDiff`), only orphans are sorted.
  `Matcher.MatchesAscendExactly` says when the matches come out ordered all the same.  The order
  does not matter to the plan (`PlanningLaws.PlanningCanonical`), unless a task is paired with two
  nodes: then the orphan that is left is that of the later change (`Matcher.SharedTaskOrphan`).
* The refusal of an unplaced kind names the first such action of the batch, so the sort is free of the
  batch's order exactly when at most one action is unplaced (`Sorter.SortCanonicalExactly`).
* `ingest/refresh.go:36-45` names a `live_task_pairing` refusal; no code raises it, and the model
  has none.
* After a crash between the two writes of a refresh, a rerun skips an added leaf on the kind of its
  latest event alone (`ingest/refresh.go:262-277`), so a leaf edited in between keeps its first hash
  in the log.  `Refresh.RerunMayMiss` is a concrete case and `Refresh.RerunHealsExactly` the exact
  condition.
* The absorbed-entry builder does not see its own earlier lines (`ingest/event_builder.go:137-161`),
  and nothing refuses a node marked twice: `RoundLaws.AbsorbedDistinctExactly` says when eids stay
  distinct.

## Model

| member | source | states |
|---|---|---|
| CycleDetector.Detect | validator/dag_checker.go:526-568 | The search ends and returns nothing exactly when the graph is acyclic; every path is a simple closed walk along real edges, and every cycle of the graph uses the closing edge of a returned one |
| CycleDetector.SoundIsExact | validator/dag_checker.go:526-568 | A finished search whose open edges all lead to earlier finished nodes has missed no cycle |
| Topology.GreedyLeast | plan/sorter.go:132-190 | Taking the least ready node each time gives the least of all topological orders |
| Topology.StuckExactly | plan/sorter.go:175-188 | When nothing is ready, the nodes left are exactly those that run into a cycle |
| Kahn.KahnSort | plan/sorter.go:132-190 | Succeeds exactly on an acyclic layer, with the greedy order of all its actions; otherwise names, ascending, the nodes that run into a cycle |
| Sorter.Sort | plan/sorter.go:33-73 | Refuses an unplaced kind, then dependencies on later layers, then cycles; otherwise a permutation that is the greedy order by layer and id |
| Sorter.CheckNoForwardLayerDeps | plan/sorter.go:103-121 | Names, sorted, exactly the dependencies that point at a later layer |
| Sorter.SortCanonicalOutcome | plan/sorter.go:33-73 | With every kind placed, permuting the batch changes neither the order nor the refusal |
| Sorter.SortCanonicalExactly | plan/sorter.go:33-73 | The order or the refusal is the same for every arrangement of the batch exactly when at most one action is of an unplaced kind |
| Sorter.SortedLayersAscend | plan/sorter.go:58-70 | A successful sort is a permutation along which layers never go down |
| Sorter.SortedDepsFirst | plan/sorter.go:33-73 | Every in-batch dependency comes before its dependent |
| Sorter.SortedLeast | plan/sorter.go:33-73 | Any other topological order of the batch is later where it first differs, layers compared before ids |
| LayerLaws.SortSaysSo | plan/sorter.go:33-121 | The whole answer by the declared types: the epic before all others and cleanups after them, types as declared; refused for the first action without a place, for dependencies on an action of a later place, with their messages, or for a dependency cycle; otherwise each action least among those still possible |
| LayerLaws.TypesInOrder | plan/sorter.go:34-37 | In a successful sort the epic comes first, cleanups last, and actions of an earlier declared type before those of a later one |
| SpecGraph.CollectDeps | plan/action_classifier.go:322-367 | Ends on cyclic requirements too, with the ascending duplicate-free listing of the dependency set |
| SpecGraph.DepSetExactly | plan/action_classifier.go:322-367 | That set is the direct uses other than the node itself and all components of modules reached through requires_module other than the node's own |
| SpecGraph.RequiredPlainly | plan/action_classifier.go:340-356 | Leaving the own module out of the walk loses no module that plain reachability has |
| SpecGraph.CollectDescribes | plan/action_classifier.go:296-317 | The ascending listing of what the section describes |
| SpecLaws.NeedsExactly | plan/action_classifier.go:322-367 | A dependency is a use of the first component of that id other than itself, or a component of a module at the end of a way of requirements that leaves the own module out |
| Matcher.MatchNodes | plan/node_matcher.go:69-120 | Matches and unmatched changes in diff order; one orphan per task paired with a removed node and matched by no surviving change, ascending by task |
| Matcher.MatchesByDiff | plan/node_matcher.go:62-66 | Two changed nodes whose tasks stand in the other order: the matches come in the order of the diff |
| Matcher.MatchesAscendExactly | plan/node_matcher.go:62-66 | The matches are ordered by task exactly when, along the diff, each matched change's least task is no greater than a later one's |
| Matcher.SharedTaskOrphan | plan/node_matcher.go:69-120 | Two removed nodes paired with one task: the orphan left is that of the later change |
| ViewLaws.CorrelationSays | plan/node_matcher.go:69-120 | In diff order, a match for each living change whose node is paired, holding exactly that node's pairings by task, and the living changes whose nodes are not |
| Classifier.ClassifyActions | plan/action_classifier.go:34-69 | Refuses with every claimed task, sorted, before any action leaks; otherwise the sorted actions with the data-flow add-on applied |
| Classifier.ClassifyMatch | plan/action_classifier.go:86-118 | Fold-back first, then already tracked, then open, claimed or absent, for every pairing of the change |
| Classifier.ApplyDataFlowAddOn | plan/action_classifier.go:405-429 | Exactly the component creates that are no cleanups gain the changed data flows naming them, merged and sorted |
| PlanningLaws.PlanningCanonical | plan/action_classifier.go:34-69 | Permuting changes and pairings gives the same actions, or the same refusal naming all claimed tasks |
| PlanningLaws.ClassifiedDistinct | plan/action_classifier.go:34-69 | The action list names each node once |
| ActionLaws.PlanSaysSo | plan/action_classifier.go:34-230 | The whole answer by changes and pairings: an open task is retargeted, a finished one followed by a new create, a folded-back section's or removed node's open task closed, a removed node with a finished task cleaned up, an unpaired node that owes a task given its first; one in progress refuses the run and is named; with hash, name, reason and dependencies, in listing order, and nothing else |
| Resolver.ResolveDeps | plan/resolver.go:54-71 | Each dependency in order becomes an op of the batch, a live task or nothing, or the first unresolvable one is refused |
| Resolver.ResolvedExactly | plan/resolver.go:54-71 | Resolution succeeds exactly when every dependency is in the batch or tracked |
| LayerEdges.LayerEdgesFor | plan/builder.go:197-228 | The pass over runs gives each create the ops of the nearest non-empty layer below its own, the epic being no layer |
| Builder.ComposeDeps | plan/builder.go:316-368 | Resolved dependencies, layer edges and extra tasks united and arranged |
| Builder.Build | plan/builder.go:49-149 | A changeset composed in sorted order, or the first error, never both |
| ChangesetLaws.PassSucceeds | plan/builder.go:49-149 | One forward pass with a substitution table resolves every reference exactly when references only point back to creates |
| ChangesetLaws.OnePass | plan/builder.go:49-149 | Every changeset a build returns gets through one forward pass |
| ChangesetLaws.LayerBarrier | plan/builder.go:197-279 | Every create waits, directly or through others, for every create of every lower non-epic layer, and every cleanup for the task of every retarget |
| ChangesetLaws.DepsContents | plan/builder.go:316-368 | A dependency list holds the resolved dependencies, the layer edge and the extra tasks, and nothing else |
| ChangesetLaws.DepsCanonical | plan/builder.go:316-368 | Every dependency list is duplicate-free, op refs in file order before task refs in id order |
| ChangesetLaws.OpIdsDistinct | plan/builder.go:158-180 | Derived op ids are distinct across creates, retargets and closes |
| ChangesetLaws.BuildDeterministic | plan/builder.go:49-149 | The same inputs give the same changeset or the same error |
| OpLaws.ChangesetSaysSo | plan/builder.go:49-415 | Every field of every operation: creates in sorted order with id, kind, title, label, parent task or epic, and exactly the dependencies asked for; then retargets; then closes |
| OpLaws.EpicFirst | plan/resolver.go:109-121 | Where no task carries the proposal its epic is the first operation, and every other create names it as its parent |
| OpLaws.BuildSaysSo | plan/builder.go:49-149 | The whole answer: a changeset that says so with nothing dangling, or a missing registration, a refused sort, a dependency neither created nor tracked, or an action without a node |
| OpLaws.PlannedPlain | plan/action_classifier.go:440-515 | A plan holds no epics and retargets no cleanups, as the two laws above ask |
| Journal.FoldJournal | mapping/mapping_store.go:232-282 | The walk over the lines, the map and the sort give the entries strictly by line and the dangling receipts in order |
| Journal.FoldListsLinkage | mapping/mapping_store.go:232-282 | The listing holds exactly each key's current linkage, strictly by source line |
| FoldSpec.LinkageIsLatestWins | mapping/mapping_store.go:232-282 | With distinct eids each key's entry is the one its latest bearing line leaves, a removal giving way to its own receipt |
| FoldLaws.LinkageExactly | mapping/mapping_store.go:232-282 | With distinct eids: a key is linked as the last line that speaks for it has it, or, where that is a removal right after a receipt for it among these lines, as that receipt has it |
| FoldLaws.FoldSays | mapping/mapping_store.go:232-282 | The listing holds exactly these entries, strictly by line |
| FoldSpec.DanglingExactly | mapping/mapping_store.go:250-262 | Reported receipts are exactly the non-legacy task-bearing ones whose eid no line carries, wherever it stands |
| FoldSpec.EitherSideExactly | mapping/mapping_store.go:244-273 | A cleanup receipt before its removal, or anywhere after it: right after the later place every linkage is the same exactly when, of the lines between, the removal aside, the last one bearing on the node is a receipt for that removal naming the same task |
| FoldSpec.CleanupEitherSide | mapping/mapping_store.go:244-273 | Under that condition every linkage of the whole journal is the same, whatever follows |
| FoldSpec.CleanupLost | mapping/mapping_store.go:244-273 | A receipt for the node's earlier event in between: the early cleanup receipt is lost, the late one is not |
| EventBuilder.BuildAbsorbed | ingest/event_builder.go:134-167 | Events of the entries not carried yet, in order, closed by one receipt naming them, or nothing |
| InvariantChecker.CheckInvariant1 | ingest/invariant_checker.go:74-115 | Accepts exactly when no referent is paired twice across journal and batch |
| InvariantChecker.CheckInvariant2 | ingest/invariant_checker.go:123-150 | Accepts exactly when everything the batch's receipts name is in journal or batch |
| Reconciler.PairReceipts | ingest/reconciler.go:238-259 | Pairs receipts with operations, refusing duplicates, then missing, then foreign ones |
| Reconciler.Reconciler.Apply | ingest/reconciler.go:75-232 | The journal grows by exactly the gated batch, or on any refusal or failed write stays as it was; the summary is the tally of receipts and lines |
| Reconciler.JournalStore.Append | mapping/mapping_store.go:469-541 | A batch is appended whole or not at all |
| Reconciler.TallyComplete | ingest/reconciler.go:150-195 | Every operation is counted exactly once |
| IngestRecords.SummarySaysSo | ingest/reconciler.go:130-230 | Each counter is the number of operations with that kind and status, or of appended events or receipts |
| IngestRecords.RegisteredByExactly | ingest/reconciler.go:104-112 | The table of registrations holds each proposal's last one |
| IngestRecords.OpSaysSo | ingest/event_builder.go:59-352 | What one operation writes after the lines before it: the event with its kind, prior hash, new hash, name, type, module, path, head and proposal, and the receipt with its task; nothing when its eid is known; or the error |
| IngestRecords.RunSaysSo | ingest/reconciler.go:75-259 | The whole answer of a run: the batch falls into the operations' lines and the absorbed entries', each as it should be, or the first refusal of pairing, operations, absorbed entries and gates |
| IngestRecords.NodeCreateRecorded | ingest/event_builder.go:179-213 | A landed node create with a new eid: its event is modified with the last hash the journal has for the node, or added with none, and its receipt with the task comes right after |
| IngestLaws.OpMoves | ingest/event_builder.go:59-352 | One operation's lines keep the journal sound, move its own key as the operation says, and no other key |
| Idempotence.RerunAppendsNothing | ingest/reconciler.go:75-232 | A second run of the same changeset and receipts builds an empty batch |
| RunSafety.RunSound | ingest/reconciler.go:103-221 | A run keeps eids distinct and receipts answered, given distinct absorbed entries |
| RunSafety.AnsweredByConstruction | ingest/invariant_checker.go:123-150 | Invariant 2 never refuses what the builder builds |
| Convergence.StagedRunsConverge | ingest/reconciler.go:75-232 | Partial receipts followed by fuller ones succeed when the fuller ones do, and leave the same lines |
| Merkle.Diff | merkle/diff_engine.go:47-99 | Each changed key once, ascending, with the right kind and hashes; nothing else |
| Merkle.PatchYieldsCurrent | merkle/diff_engine.go:47-99 | Applying the diff to the old key-to-hash map gives the current one |
| Merkle.DiffUnique | merkle/diff_engine.go:47-99 | Two diffs of the same leaves are the same sequence |
| DiffLaws.LeavesExactly | merkle/diff_engine.go:103-116 | The leaves of a tree are its leaf nodes wherever they hang, each with its hash, type and module |
| DiffLaws.DiffSays | merkle/diff_engine.go:47-99 | A diff lists exactly the leaves that came, changed their hash or went, with both hashes and type, strictly by key |
| Merkle.FlattenTreeToSnapshot | merkle/snapshot_store.go:117-132 | The recursive flattening fills the map that the snapshot specification describes |
| DiffLaws.SnapshotLists | merkle/snapshot_store.go:117-132 | A snapshot holds one entry per node of the tree, with its fields and its children's keys in order |
| Rebuild.RebuildNode | merkle/snapshot_store.go:146-169 | The recursion over the children in order gives what the depth-bounded rebuild gives, a node or the first failure |
| Rebuild.RebuildTree | merkle/snapshot_store.go:135-144 | On every snapshot from whose root the recursion comes into no loop: the refusals for the root key, or the one result the rebuild ends with |
| Rebuild.EndsExactly | merkle/snapshot_store.go:146-169 | The rebuild from a key ends exactly when the recursion comes into no loop, children counting only as far as those before them are whole |
| Rebuild.OkExactly | merkle/snapshot_store.go:146-169 | It gives a tree exactly when every way down stays in the map and comes by no key twice |
| Rebuild.FailsExactly | merkle/snapshot_store.go:146-169 | It fails with a missing key exactly when the recursion comes to that key, every child passed on the way being whole |
| Rebuild.LoopedSnapshot | merkle/snapshot_store.go:146-169 | A key among its own children: the rebuild has no result |
| Rebuild.LoopBehindMissing | merkle/snapshot_store.go:146-169 | The same loop behind a missing key: the rebuild ends with that key |
| Rebuild.SnapshotRoundTrip | merkle/snapshot_store.go:117-169 | Loading the snapshot of a tree with distinct keys ends with that tree and nothing else, child order included |
| Rebuild.SelfDiffEmpty | merkle/diff_engine.go:47-116 | A tree shows no change against its own reloaded snapshot |
| Refresh.UniqueRefreshEid | ingest/refresh.go:443-450 | Ends with the first candidate no line carries |
| Refresh.BuildBatch | ingest/refresh.go:253-352 | One event per drift entry the journal does not already say, in order, with fresh eids, closed by the receipt naming them |
| Refresh.Workspace.Refresh | ingest/refresh.go:126-405 | The state of both files after every refusal, failed write, rollback, crash and success |
| Refresh.RefreshRestores | ingest/refresh.go:253-405 | A saved refresh restores the agreement of log and snapshot against the new tree |
| Refresh.RerunHealsExactly | ingest/refresh.go:253-405 | After a crash between the writes, a rerun restores agreement exactly when every change the first run logged still drifts and no leaf it logged as added has another hash |
| Refresh.RerunMayMiss | ingest/refresh.go:262-277 | A leaf added before the crash and edited after it: the rerun leaves log and snapshot apart |
| Refresh.RerunSameTree | ingest/refresh.go:253-405 | On the same tree a rerun adds no change event, only a receipt that absorbs nothing, and restores agreement |
| Refresh.RefreshSound | ingest/refresh.go:253-360 | A refresh keeps eids distinct and names only events it logged |
| RefreshLaws.RefreshSaysSo | ingest/refresh.go:107-352 | The whole answer before the writes: the refusals with the keys they name, or one event for each change the journal does not tell of, with kind, hashes, name, path and the first unused eid, and the receipt that names them |
| Protocol.Registry.Register | proposal/register.go:39-89 | Refusals come before either write; then the registration unless a registered line carries its eid, then the filed proposal; every outcome's journal and directory |
| Protocol.RegisterRepairs | proposal/register.go:34-38 | Registering again after a crash between the two writes appends nothing |
| Protocol.RegistrationSays | proposal/register.go:62-76 | Nothing when a registered line carries the eid, otherwise one line with the eid, the proposal and the head |
| Protocol.StepKeeps | ingest/reconciler.go:75-232 | Every step, successful or failed, keeps the old journal as a prefix and every journal invariant |
| Protocol.JournalSafe | ingest/invariant_checker.go:48-150 | Over every run from the empty journal: old journal a prefix, eids distinct, no referent paired twice, every line well shaped, nothing dangling |
| PlanIngest.PairingsForMatching | cmd/spex/plan.go:318-327 | The node entries that are no tombstones, in fold order, joined with live status |
| PlanIngest.NewPlanFold | cmd/spex/plan.go:339-350 | The lookup and removal tables of the fold |
| PlanIngest.ViewIsLinkage | cmd/spex/plan.go:339-350 | The planner's tables answer every key as the fold's linkage does |
| ViewLaws.ViewSaysSo | cmd/spex/plan.go:295-350 | A key that is linked and not buried is looked up with its task, the task's live status and what its event says; a buried one is found by the eid that buried it; no other key is found |
| ViewLaws.MatchesSaySo | cmd/spex/plan.go:318-327 | Matching sees one pairing for each linked node that is not buried, in journal order |
| ViewLaws.RegistrationSays | cmd/spex/plan.go:282-290 | The registration is the proposal's last in the journal, empty when there is none |
| ViewLaws.AbsorbSaysSo | cmd/spex/plan.go:203-230 | The first mark that is no node id or whose node's last change is no modification refuses; otherwise an entry per mark with that change's hashes, and exactly the changes of unmarked nodes remain |
| PlanIngest.ResolvePlanRegistration | cmd/spex/plan.go:282-290 | The eid of the proposal's latest registration |
| PlanIngest.ApplyAbsorb | cmd/spex/plan.go:203-230 | The first faulty mark refuses the run; otherwise entries in mark order and the unmarked changes in diff order |
| PlanIngest.LandedNotPlanned | plan/action_classifier.go:86-118 | A change whose hash or removal the journal carries yields no create, retarget or cleanup, whatever the task artifact says |
| RoundLaws.NoRework | plan/action_classifier.go:86-118 | After an ingest run in which an operation landed, the change it answered is not planned again |
| RoundLaws.EpicNotAgain | plan/resolver.go:87-100 | An epic whose create landed is not created again |
| RoundLaws.LabelIsEvent | plan/labeler.go:72-106 | For every task-bearing line ingest builds from an operation, "spex:" and the eid it answers is the label on the operation |
| RoundLaws.AbsorbedDistinctExactly | ingest/event_builder.go:134-167 | Absorbed eids are distinct exactly when no node is marked twice |
| RoundLaws.AbsorbConserves | cmd/spex/plan.go:203-230 | What is withheld is exactly the marked nodes' modifications, each carried by an entry |
| RoundLaws.PlannedIsWellFormed | plan/builder.go:49-180 | A planned changeset has the op ids, head and absorbed entries ingest and the protocol runs expect |
| RoundLaws.PlanCanonical | plan/builder.go:49-149 | Permuting changes and pairings gives the same changeset or the same refusal |
| PlannedRounds.PlannedKeysApart | plan/builder.go:93-149 | The operations of a planned changeset move different keys, whatever receipts they get |
| PlannedRounds.PlannedAnswers | plan/action_classifier.go:34-69 | Every operation of a planned changeset that landed on a key, the epic's aside, answers the change of its node, or closes the task of a folded-back section |
| PlannedRounds.PlannedOnce | plan/action_classifier.go:34-118 | Plan, ingest, plan: what landed of a plan is not planned again; that operations answer their changes and move their keys alone is derived |
| PlannedRounds.PlannedEpicOnce | plan/resolver.go:87-100 | Likewise for the epic |
| PlannedRounds.PlannedRerun | ingest/reconciler.go:75-232 | A second ingest of a planned changeset appends nothing |
| PlannedRounds.PlannedConverge | ingest/reconciler.go:75-232 | Staged ingests of a planned changeset converge when the creates report new tasks and no node is marked twice |
| PlannedRounds.PlannedLabel | plan/labeler.go:72-106 | In a planned changeset every label names the event ingest records |
| MarkdownScanner.FenceExactly | validator/markdown_scanner.go:166-194 | A line on its own is an opening fence to the scanner exactly when section 4.5 of CommonMark makes it one: indentation, run and info string without backticks |
| MarkdownScanner.ScanBareHashes | validator/markdown_scanner.go:261-279 | Leftmost non-overlapping matches with word neighbours dropped are exactly the standalone 12-hex tokens, in order |
| MarkdownScanner.ScanLinks | validator/markdown_scanner.go:85-133 | The line loop over fence and pending-link state returns the references of the document scan |
| LinkLaws.ScanSaysSo | validator/markdown_scanner.go:85-279 | The references are those of the places that no earlier one covers, in order: standalone ids on lines of dot blocks, openings in prose; each opening closed by the first brackets that may close it, across lines of its paragraph, or dangling; with line, raw text, target and display |
| LinkLaws.ScanOnce | validator/markdown_scanner.go:85-279 | No other list of references says so of the same lines |
| LinkLaws.WordExactly | validator/markdown_scanner.go:190-193 | The language is the info string up to the first space or tab |
| NodeRenamer.RepointBareHashLine | author/node_renamer.go:528-553 | Every standalone old id becomes the new one, every other character stays; reports whether there was one |
| NodeRenamer.RepointDotNodeRefs | author/node_renamer.go:457-486 | Only content lines of dot fences change |
| NodeRenamer.ScanAgrees | author/node_renamer.go:457-563 | Scanning the rewritten document gives the original scan with the old id replaced in dot-node references, line by line |
| NodeRenamer.NoneStale | author/node_renamer.go:457-486 | After a rename no dot node refers to the old id |
| LinkLaws.SweepSaysSo | author/node_renamer.go:457-563 | The sweep changes lines of dot blocks alone, and on them exactly the standalone old ids |
| CommonMark.BlocksExactly | validator/markdown_scanner.go:101-112 | Scanner and section 4.5 find the same blocks before every line exactly when no opening fence has an odd info string and no closing candidate ends in white space other than spaces and tabs |
| CommonMark.ReadExactly | validator/markdown_scanner.go:101-119 | They give every line the same part exactly when, besides, no fence stands in an open block without closing it |
| CommonMark.RefsExactly | validator/markdown_scanner.go:85-133 | Without odd fences, the scanner's references are those of section 4.5 exactly when no line it passes by in a dot block holds a node id |
| CommonMark.StaleExactly | author/node_renamer.go:457-486 | On every document: after the sweep section 4.5 reads a dot node with the old id exactly when a dot line naming it is none to the sweep |
| CommonMark.AgreesExactly | author/node_renamer.go:457-563 | Where the sweep changes no ordinary text, the swept document reads by section 4.5 as the original with the ids replaced exactly when no such line is left |
| CommonMark.PlainSweep | author/node_renamer.go:457-486 | Without odd fences the sweep changes no ordinary text, and what it leaves stands on the fences it passes by in dot blocks |
| CommonMark.PassedByExample | validator/markdown_scanner.go:104-112 | A tilde fence with a node id in a backtick dot block: a dot node by section 4.5, nothing to scanner and sweep |
| CommonMark.ClosedOddlyExample | validator/markdown_scanner.go:184-193 | A no-break space after the closing fence: the next line is a dot line by section 4.5 and not to scanner and sweep |
| CommonMark.OpenedOddlyExample | validator/markdown_scanner.go:184-193 | A no-break space after the language: a dot line to scanner and sweep and not by section 4.5 |
| LineByLine.RefsLineByLine | validator/markdown_scanner.go:85-133 | On every document: the scanner returns the references of section 4.5 exactly when every line holding node ids is text of a dot block to both or to neither, and every line opens the same links in both |
| LineByLine.DotNodesExactly | validator/markdown_scanner.go:114-119 | On every document: they find the same dot nodes exactly on the first of these conditions |
| LineByLine.AgreesLineByLine | author/node_renamer.go:457-563 | On every document: after the sweep section 4.5 reads the original with the ids replaced in dot nodes exactly when no dot line is left stale and every line opens the links it opened before |
| Corpus.NormalizeToken | validator/removed_name_checker.go:849-862 | The fixed-point loop ends with the normal form |
| Corpus.NormalizeTwice | validator/removed_name_checker.go:849-862 | Normalization is idempotent |
| Corpus.TokenizeCorpus | validator/removed_name_checker.go:764-788 | The index loop gives the normal words with their lines |
| CorpusLaws.TokensSaySo | validator/removed_name_checker.go:764-788 | One token for each maximal run without white space that has a normal form, in order, with the line it starts on |
| CorpusLaws.NormalSaysSo | validator/removed_name_checker.go:849-862 | The normal form is the word without its leading marks, peeled at its end of marks, periods and possessives until nothing comes off |
| Corpus.TokensOfSpaced | validator/removed_name_checker.go:811-841 | Tokenizing space-joined tokens gives them back |
| Corpus.PhraseDeclarable | validator/removed_name_checker.go:623-648 | Every phrase the sweep builds may be declared |
| Corpus.DeclarableFound | validator/removed_name_checker.go:623-648 | Every declarable name whose words stand between white space is built as a phrase |
| Corpus.DeclarableIffSweepable | validator/removed_name_checker.go:806-841 | The declarable names are exactly the phrases some corpus makes the sweep build |
| Corpus.CoveringLiveName | validator/removed_name_checker.go:731-744 | Looking only at the starts in reach finds a covering span exactly when some recorded span contains the hit |
| Corpus.BoundedIsUnbounded | validator/removed_name_checker.go:731-744 | With every live name declarable, the bounded window misses no occurrence of any length |
| Corpus.ScanFile | validator/removed_name_checker.go:623-666 | Keeps exactly the phrases that hash to a removed key and that no live name contains; the rest is set aside; each hit once, by start, length and group |
| Corpus.RemovedNameHit | validator/removed_name_checker.go:623-666 | A removed declarable name still standing in a file is hit |

## Left out

- LayerLaws.SortSaysSo: asks that the batch names each node once.
- ActionLaws.PlanSaysSo: asks for one change per key and one pairing per node and per task, as `PlanningLaws.PlanningCanonical` does.
- OpLaws.BuildSaysSo: asks that the batch names each node once and holds no epics and no retargeted cleanups; `RoundLaws.BatchDistinct` and `OpLaws.PlannedPlain` show a planned batch meets it.
- OpLaws.ChangesetSaysSo: asks of the actions that no retarget is an epic's or a cleanup's.
- FoldLaws.LinkageExactly: asks that eids are distinct, as `Protocol.JournalSafe` shows runs leave them.
- DiffLaws.DiffSays: asks that keys are distinct and leaves have no children.
- CorpusLaws.NormalSaysSo: takes the marks and the white space characters from the program's tables, as `LinkLaws` does.
- CycleDetector.Detect: is not claimed to list every cycle, because the search reports one path per closing edge; which paths it reports for equal graphs is not stated either.
- Builder.Build: asks that the batch, epic included, names each node once, as the sorter's maps do; `RoundLaws.BatchDistinct` and `PlanningLaws.ClassifiedDistinct` show a planned batch meets it.
- PlanningLaws.PlanningCanonical: asks for one change per key and one pairing per node and per task; `Matcher.SharedTaskOrphan` shows what a shared task does.
- Convergence.StagedRunsConverge: asks that op ids and absorbed eids are distinct, that the head starts with a hex digit, that landing operations file under different keys, that the fuller receipts repeat the partial ones' ok receipts, and that no close targets a task a create of the same run reports; `PlannedRounds.PlannedConverge` asks of a planned changeset only that absorbed eids are distinct, receipts are repeated and creates report new tasks.
- Idempotence.RerunAppendsNothing: asks that no other landed operation files under a cleanup's key; `PlannedRounds.PlannedRerun` asks nothing of a planned changeset.
- RoundLaws.NoRework: asks that the operation answers the change and moves its key alone; `PlannedRounds.PlannedOnce` derives both.
- RoundLaws.LabelIsEvent: asks that the profile names no node type `proposal_epic` or `cleanup`, which ingest tells apart by name alone; `PlannedRounds.PlannedLabel` reads it off the diff's node types.
- PlannedRounds.PlannedOnce: like all of `PlannedRounds` it asks for a sound journal of well-shaped lines, as `Protocol.JournalSafe` shows runs leave it, with no task paired twice, and for a diff that names each node once, none of them the proposal; where ingest knows a changed node, its hash is to be the one the diff saw.  Envelopes, requirements and whatever else ingest does not know may be in the diff.
- Refresh.RefreshRestores: asks that a leaf is meta in both trees or in neither; a key's node type is part of what it is derived from.
- Refresh.RerunHealsExactly: asks the same of the trees it compares.
- Refresh.RerunSameTree: asks the same of the trees it compares.
- CommonMark.AgreesExactly: asks that no line naming the old id is a dot line to the sweep and ordinary text by section 4.5, which takes an odd fence before it; `LineByLine.AgreesLineByLine` asks nothing, and has the links of such lines as a condition of its own.
- CommonMark.RefsExactly: asks that no fence is odd; `LineByLine.RefsLineByLine` asks nothing.
- CommonMark.BlocksExactly: reads section 4.5 alone: block quotes, list items, HTML blocks and other constructs a fence may stand in or be hidden by are not modelled, and a carriage return alone does not end a line.
- Rebuild.RebuildNode: takes a bound on its stack as a ghost argument; by `Rebuild.EndsExactly` there is one wherever the program returns.
- Protocol.Registry.Register: takes the verdict on the proposal's headings and its dated name as given.
- Corpus.ScanFile: reports hits rather than the sorted site strings and notes rendered from them.
- JSON reading and writing, JSON Schema composition and the profile's own validation; a line's shape is modelled by the predicate `InvariantChecker.LineShape`.
- SHA-256 and the building of trees from files; hashes arrive as strings.
- Files, temporary files and renames, fsync and locks: a write lands whole or not at all, and a refresh may die between its two writes.
- Clocks: snapshot timestamps and the date a proposal is filed under.
- Op priority, body and the absorbed entry's reason; they are copied or looked up and nothing depends on them.
- The action's change type, which no later step reads.
- `repointLinks` and `patchReferenceFields` of the renamer: the first also rewrites inside fences and display text, so it has no such agreement with the scanner; the second edits decoded JSON.
- The validator checks around the cycle detector that choose which edges it is given, and the declared-name gathering around the sweep.
- `MappingStore.Get` and `History`, the legacy store, renderers, proposal templates, drift reports, the command line and self-update.
- Bytes: text is a sequence of characters, and the byte-wise scanning of the program is the same on them because everything it looks for is ASCII or a whole character.
