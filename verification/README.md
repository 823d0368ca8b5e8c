# The knowledge version-control engine, modelled and verified

ThinkingRoot keeps a knowledge graph under version control.  A workspace holds a
main graph and any number of branches; a registry file lists the branches and an
audit log for each; a semantic diff decides which claims of a branch are new to a
target and which contradict it; a merge writes the difference into the target graph
under a write-ahead intent and a snapshot; and a startup pass rolls unfinished merges
back.  This project models that engine (`crates/thinkingroot-branch`, with the parts
of the graph store and of the command line that it relies on) and proves what its
protocols keep.

| file | what it models |
|---|---|
| `Registry.dfy` | `branches.toml`, its seven mutators, the branch lifecycle and the trimmed audit log |
| `RegistryProtocol.dfy` | any number of processes with stale copies sharing that file under its lock |
| `Graph.dfy` | the tables of the graph store that diff and merge read and write |
| `Diff.dfy`, `VectorPass.dfy` | the two-way diff and its three contradiction passes |
| `ThreeWay.dfy` | conflicts against the snapshot taken at the fork |
| `Gate.dfy` | the merge gate through every stage, and manual resolutions |
| `Apply.dfy`, `MergedGraph.dfy` | the apply loops, and the graph they produce |
| `Deletions.dfy` | deletions on the branch propagated to the target |
| `Rebase.dfy` | repeated rebases and their fixpoint |
| `Recovery.dfy` | intents, snapshot selection, recovery, rollback |
| `MergeProtocol.dfy` | the merge as steps over disk state, a crash after any of them |
| `MergeExecution.dfy` | `execute_merge_into_cancellable` with its gates, cancellation points and failures |
| `Layout.dfy`, `Gc.dfy` | data directories and garbage collection |
| `TreeDigest.dfy` | the identity token of a graph directory |
| `Replay.dfy` | replaying a pack into a branch |
| `UrlEncoding.dfy` | percent-encoding and UTF-8 |
| `Text.dfy`, `Sorting.dfy`, `Sequences.dfy`, `Wrappers.dfy` | slugs, decimal and lexicographic order, sorting, prefixes, result types |

`dafny verify dfyconfig.toml` checks all of it.

## How the model reads the code

Objects that the engine updates in place are classes (`RegistryStore`,
`BranchRegistry`, `GraphStore`, `Workspace`, `Tree`), and each loop of the engine is a
loop here, proved against a function of the old state; the theorems are about those
functions.  What a listing or a hash map returns in no fixed order is taken in any
order.  Clock values, new ids, which texts parse as ids, failures of I/O, the
cancellation token and the answers of the proposal layer are parameters.  The hash of a statement is taken as injective,
so the model compares normal forms; confidences, similarities and health are real
numbers.  File names are compared character by character, which for UTF-8 is the order
of their bytes.

Where the code and what is written about it differ, the model follows the code:

* `merge.rs:376-387` lists five cancellation points; the code has four (nothing is
  checked between writing the intent and applying).
* `recovery.rs:18-21` says that the intent is written after the snapshot; it is
  written before (`merge.rs:499-504`, then `:52`).  `CrashBeforeSnapshot` and
  `SecondCrashUndoesFirstMerge` say what that costs.
* `recovery.rs:129-134` says that intent writes are serialised by a lock; none is held
  there, and a busy merge lock is only found after the intent is written.  The crash
  theorems are therefore about one merger at a time.
* `merge.rs:531-535` gives reasons to clear the intent after the registry mark; in
  between, recovery rolls the graph back under a registry that says Merged
  (`MergeCrashPoints`).
* `recovery.rs:233-249` and `merge.rs:606-634` look for the newest snapshot of one
  branch; the prefix match also takes those of a longer slug (`PrefixClash`).
* `diff.rs:553-555` says that a change made only in the target is handled; the two-way
  diff writes the old statement back (`TargetOnlyChange`, `TargetEditIsUndone`).
* `diff.rs:44-66` looks for the words of a pair anywhere in the text; a negation that
  contains its positive form, as "is not" does, makes a statement contradict itself
  (`ContradictionIff`).
* `diff.rs:272-275` compares entity contexts, but the table it consults only holds the
  new claims (`Pass2Reach`).
* `branch_cmd.rs:372` says that keep-main leaves the branch claim out; that holds only
  for claims that the first pass flagged (`KeepMainInsertsIff`).
* `merge.rs:106-111` supersedes the loser by a winner that the merge need not have
  inserted (`WinnerPresentIff`), links claims to entities before the new entities
  exist (`ContextLinkedIff`), and then rebuilds the relations from the source-scoped
  ones alone (`RebuildKeepsOnlyScoped`).
* `types/branch.rs:87-90` trims the audit log, so that it starts with the creation only
  while it fits (`StoredLogIsSuffix`); the `into` of a merge comes from the first entry
  of the name (`MergedIntoIsOwnParentIff`, `ReusedNameRecordsOldParent`).
* `graph.rs:3396-3405` keeps nodes with `kind:name` ids out of the listing of entities,
  but not out of that of relations (`graph.rs:4942-4947`), so the merge drops a relation
  to such a node that the target lacks (`RelationArrivesIff`, `ForkEdgeIsDropped`).
* `diff.rs:240` draws a new id for a claim whose id does not parse, as those of witnesses
  do not, and `diff.rs:235-238` a new source id where the table has none: what the next
  rebase makes of such a claim is in `MovesIff` and `UnshownNeverConverges`.
* `diff.rs:715-732` looks claim ids up in vector stores that are written under
  `claim:<id>` (`pipeline.rs:2074`, `merge.rs:177`), where it finds nothing
  (`ForeignKeysFindNothing`).
* `lib.rs:351-370` collects by name, so a branch created again under an abandoned name
  loses its files (`RecreatedBranchIsSwept`).

## Model

| member | source | states |
|---|---|---|
| `MergeProtocol.CrashAtomic` | crates/thinkingroot-branch/src/merge.rs:499-553 | from a disk without intents and without a file of the run's prefix, a crash after any number of steps and then recovery: no intent is left, the target is the graph before the run unless the run had finished, other directories are untouched, and the registry is as the crash left it |
| `MergeProtocol.MergeCrashPoints` | crates/thinkingroot-branch/src/merge.rs:485-555 | the three stretches of crash points of a merge: before the mark, old graph and Active; between mark and clear, old graph and Merged; after, merged graph and Merged |
| `MergeProtocol.CrashThenRecover` | crates/thinkingroot-branch/src/recovery.rs:178-275 | with any files on disk, which content every crash point ends in: that of the last file matching the prefix, or what the crash left if there is none |
| `MergeProtocol.CrashAfterSnapshot` | crates/thinkingroot-branch/src/recovery.rs:239-262 | the graph before the run comes back when no other matching file sorts after the run's own snapshot, and otherwise the content of such a file |
| `MergeProtocol.CrashBeforeSnapshot` | crates/thinkingroot-branch/src/merge.rs:499-512 | a crash between intent and snapshot keeps the untouched graph when no file matches, and otherwise replaces it by the last file that does |
| `MergeProtocol.SecondCrashUndoesFirstMerge` | crates/thinkingroot-branch/src/merge.rs:499-512 | after a successful merge, a second one that dies right after its intent is recovered to the graph before the first |
| `MergeProtocol.CrashWithoutGraph` | crates/thinkingroot-branch/src/merge.rs:16-33 | a target that had no graph has no snapshot: recovery keeps what the crash left |
| `MergeProtocol.RollbackUndoesMerge` | crates/thinkingroot-branch/src/merge.rs:606-646 | a finished merge into main and then a rollback give the graph from before, under a registry that still says Merged |
| `MergeProtocol.AfterExactly` | crates/thinkingroot-branch/src/merge.rs:485-555 | graph, files, intents and registry after any number of steps, in closed form |
| `MergeProtocol.MarkedStatus` | crates/thinkingroot-branch/src/merge.rs:533-538 | the mark closes the active entry of the source and changes no other |
| `MergeProtocol.MarkedEvent` | crates/thinkingroot-branch/src/branch.rs:345-357 | the mark ends the log with when, by whom, into which branch and under which proposal |
| `MergeExecution.ExecuteMergeIntoCancellable` | crates/thinkingroot-branch/src/merge.rs:394-556 | for every gate, token and failure: the verdict returned, the disk left, and what was written to the target |
| `MergeExecution.LeftIsProtocolPoint` | crates/thinkingroot-branch/src/merge.rs:394-556 | unless the source is ephemeral, the disk that a run leaves is the one after exactly so many steps of the crash protocol |
| `MergeExecution.CheckGates` | crates/thinkingroot-branch/src/merge.rs:415-484 | the gates and the first three looks at the token, in order; only an ephemeral source changes the registry |
| `MergeExecution.ApplyToTarget` | crates/thinkingroot-branch/src/merge.rs:44-55 | name check, lock, snapshot and writes: what each failure leaves, and on success the graph that the apply loops produce |
| `MergeExecution.RunProtocol` | crates/thinkingroot-branch/src/merge.rs:492-555 | from the intent on, the error and the disk for each way of returning |
| `MergeExecution.FinishRun` | crates/thinkingroot-branch/src/merge.rs:521-555 | the fourth look at the token, then mark and clear: nothing, the mark, or both |
| `MergeExecution.WriteTarget` | crates/thinkingroot-branch/src/merge.rs:57-224 | the target holds what the apply loops produce, or what a failure left |
| `MergeExecution.SucceedsIff` | crates/thinkingroot-branch/src/merge.rs:394-556 | a merge succeeds exactly when the gate is open, the target unprotected or forced, the source active, its policy satisfied, the names differ, nothing fails, and none of the four checks sees the token cancelled |
| `MergeExecution.VerdictIsFirstFailure` | crates/thinkingroot-branch/src/merge.rs:394-556 | the verdict is the first failure in the order of sixteen checks, and success if none fails |
| `MergeExecution.EarlyErrorTouchesNoGraph` | crates/thinkingroot-branch/src/merge.rs:415-504 | an error before the intent leaves every graph, file and intent as it was, and the registry too, except that exactly an ephemeral source has its one active entry abandoned, with the event, and every other entry untouched |
| `MergeExecution.LateCancelIsRecoverable` | crates/thinkingroot-branch/src/merge.rs:521-527 | cancelled after apply, the run's intent and its own snapshot of the old graph are on disk and the registry has not moved |
| `MergeExecution.SuccessIsComplete` | crates/thinkingroot-branch/src/merge.rs:506-555 | on success the target holds what the apply loops make of the old target and source graphs, deleted files gone if asked for and only then, other directories are untouched, the branch is Merged with an event that names the approved proposal, and the run's intent is gone |
| `MergeExecution.RecoveryAfterAnyOutcome` | crates/thinkingroot-branch/src/merge.rs:415-555 | recovery after any outcome, an ephemeral source included: no intent is left, the target is the merge if the run succeeded and the old graph if not, other directories are untouched, and the registry is marked, abandoned or unchanged as the verdict says |
| `MergeExecution.CreatedPolicyGuards` | crates/thinkingroot-branch/src/merge.rs:438-478 | whatever happened since its creation, a branch created to merge under review never merges without an approved proposal, and one created ephemeral never merges |
| `MergeExecution.PolicyAsCreated` | crates/thinkingroot-branch/src/branch.rs:165-190 | over every run of the registry, a branch still active has the merge policy it was created with |
| `Recovery.RecoveryIsRestartSafe` | crates/thinkingroot-branch/src/recovery.rs:178-227 | any number of passes, each interrupted anywhere and even inside an import, and then a complete one, equal a single uninterrupted pass |
| `Recovery.RecoveryIsIdempotent` | crates/thinkingroot-branch/src/recovery.rs:174-183 | a second pass changes nothing, and no intent is left |
| `Recovery.RestoreAllExactly` | crates/thinkingroot-branch/src/recovery.rs:185-218 | each directory ends with the snapshot of the last intent that found one for it; files, intents and registry stay |
| `Recovery.ReportAccountsForAll` | crates/thinkingroot-branch/src/recovery.rs:187-211 | the report accounts for every intent and calls orphaned those without any matching snapshot |
| `Recovery.Workspace.RecoverOrphanMerges` | crates/thinkingroot-branch/src/recovery.rs:178-227 | the loop recovers the disk and reports every intent, or stops at a failing import and keeps the intent file |
| `Recovery.Workspace.RestoreOne` | crates/thinkingroot-branch/src/recovery.rs:233-275 | the target's graph becomes the chosen snapshot's content, or nothing changes |
| `Recovery.Workspace.SnapshotTarget` | crates/thinkingroot-branch/src/merge.rs:11-33 | an existing graph is copied under the run's name; nothing else changes |
| `Recovery.Workspace.WriteMergeIntent` | crates/thinkingroot-branch/src/recovery.rs:135-141 | the intent is appended and nothing else changes |
| `Recovery.Workspace.ClearMergeIntent` | crates/thinkingroot-branch/src/recovery.rs:147-168 | exactly the intents of that source and start time are removed |
| `Recovery.WithoutIntentInOrder` | crates/thinkingroot-branch/src/recovery.rs:147-168 | the intents left keep their order and number |
| `Recovery.Workspace.RollbackMerge` | crates/thinkingroot-branch/src/merge.rs:606-646 | main's graph from the newest pre-merge backup, or an error and no change |
| `Recovery.NewestSnapshot` | crates/thinkingroot-branch/src/recovery.rs:242-262 | filter, sort, take the last: the lexicographically greatest matching name, in whatever order the directory lists |
| `Recovery.ChosenIff` | crates/thinkingroot-branch/src/recovery.rs:239-262 | a file is chosen exactly when no other matching name has a later rest |
| `Recovery.NewestIsGreatestTimestamp` | crates/thinkingroot-branch/src/merge.rs:629-632 | with timestamps of one width, the file chosen is that of the numerically greatest one, and conversely |
| `Recovery.NewestIsChosen` | crates/thinkingroot-branch/src/recovery.rs:258-262 | for ten-digit Unix seconds the file chosen among the snapshots of one branch is the newest one, and only that |
| `Text.DecimalWidth` | crates/thinkingroot-branch/src/merge.rs:19-21 | how many digits a timestamp is printed with |
| `Recovery.LongerSlugWins` | crates/thinkingroot-branch/src/recovery.rs:239-249 | a snapshot of a slug that goes on with a letter beats every own snapshot |
| `Recovery.PrefixClash` | crates/thinkingroot-branch/src/recovery.rs:239-249 | after merges of `a` and `a-b`, the newest snapshot of `a` is never the one chosen for `a` |
| `Recovery.MergeAndRebaseApart` | crates/thinkingroot-branch/src/merge.rs:496-591 | a merge's snapshot is never taken for a rebase's |
| `Recovery.SnapshotNamesIff` | crates/thinkingroot-branch/src/merge.rs:19-21 | two branches share a prefix exactly when they share a slug, and two snapshots of one a name exactly when they were taken in one second |
| `Text.DecimalPreservesOrder` | crates/thinkingroot-branch/src/merge.rs:20-21 | among numbers of one printed width the order of texts is the order of numbers |
| `Sorting.LastIsGreatest` | crates/thinkingroot-branch/src/recovery.rs:258-262 | the last element after sorting belongs to the list and is its greatest |
| `Registry.BranchRegistry.CreateBranchFull` | crates/thinkingroot-branch/src/branch.rs:140-198 | however stale the copy, earlier entries stay and the last one has exactly the name, parent, time, description, owner, policy and redaction asked for, the slug of the name, no TTL, no fork hash and one Created event by its owner or the system; or the name is active, and nothing changes |
| `Registry.BranchRegistry.SetMaxAgeSecs` | crates/thinkingroot-branch/src/branch.rs:202-220 | however stale the copy, the TTL of the active entry of that name is set in the file and nothing else, or the file stays and the name is not found |
| `Registry.BranchRegistry.SetParentCommitHash` | crates/thinkingroot-branch/src/branch.rs:234-250 | the same for the fork-point hash |
| `Registry.BranchRegistry.SetDescription` | crates/thinkingroot-branch/src/branch.rs:263-281 | the same for the description |
| `Registry.BranchRegistry.SetRedaction` | crates/thinkingroot-branch/src/branch.rs:288-313 | the same for the redaction policy, with its event appended to the log |
| `Registry.BranchRegistry.MarkMergedInto` | crates/thinkingroot-branch/src/branch.rs:326-363 | the active entry of that name becomes Merged with its event, in the file as it is now, or the name is not found |
| `Registry.BranchRegistry.AbandonBranch` | crates/thinkingroot-branch/src/branch.rs:369-386 | the active entry becomes Abandoned with its event, or the name is not found |
| `Registry.FindActive` | crates/thinkingroot-branch/src/branch.rs:405-410 | the first active entry of a name, or no entry of that name is active |
| `Registry.RunKeepsLogs` | crates/thinkingroot-branch/src/branch.rs:140-386 | over every run: at most one active entry per name, and each status is the replay of its log, whose only terminal event is its last |
| `Registry.RunPreserves` | crates/thinkingroot-branch/src/branch.rs:263-386 | over every run: no entry is dropped, moved or renamed, and closed entries never change |
| `Registry.FieldIsLastSet` | crates/thinkingroot-branch/src/branch.rs:202-313 | over every run: TTL, fork hash, description and redaction of an entry hold what the last call that reached it set, or their old value if none did |
| `Registry.RunTellsRedaction` | crates/thinkingroot-branch/src/branch.rs:288-313 | over every run: the last redaction event in a log says whether a policy is set now |
| `Registry.CreateSucceedsIff` | crates/thinkingroot-branch/src/branch.rs:154-161 | a name can be created exactly when no entry of it is active |
| `Registry.EditsActiveEntry` | crates/thinkingroot-branch/src/branch.rs:202-386 | every other call edits the one active entry of its name, hands it back and leaves the others alone, or is refused when there is none |
| `Registry.StoredLogIsSuffix` | crates/thinkingroot-core/src/types/branch.rs:168-176 | the stored log is the last thousand events of the full history, and starts with the creation exactly while the history fits |
| `Registry.MergedIntoIsOwnParentIff` | crates/thinkingroot-branch/src/branch.rs:337-357 | a merge ends the log with its time, actor and proposal, and with the parent of the first entry of that name, which is the branch's own parent exactly when the two agree |
| `Registry.ReusedNameRecordsOldParent` | crates/thinkingroot-branch/src/branch.rs:337-345 | a name reused under another parent makes that record wrong |
| `Registry.ActorTellsMerger` | crates/thinkingroot-branch/src/branch.rs:20-30 | among mergers of one kind the recorded actor tells who merged, for connectors whose ids have no colon; a person and an agent of one name are not told apart |
| `RegistryProtocol.Linearizable` | crates/thinkingroot-branch/src/lock.rs:75-125 | in every interleaving of any number of processes the file is the sequential run of the committed calls in commit order, and every call takes effect once, between invocation and return, with the sequential reply |
| `RegistryProtocol.NoUpdateLost` | crates/thinkingroot-branch/src/lock.rs:75-83 | between two moments of a run the file moves by exactly the calls committed in between; every entry is still there, closed ones unchanged, and an entry that none of those calls names is the same in every field |
| `RegistryProtocol.StepKeepsInv` | crates/thinkingroot-branch/src/lock.rs:100-133 | each step keeps mutual exclusion, currency of the copy in the critical section, and the history |
| `ThreeWay.ThreeWayConflicts` | crates/thinkingroot-branch/src/diff.rs:534-601 | the two loops report an id exactly when the source has it and its three versions are pairwise different, once, with the kind that the absent version decides |
| `ThreeWay.StatementsAreLast` | crates/thinkingroot-branch/src/diff.rs:512-530 | the version of a claim is that of its last row in the listing |
| `ThreeWay.BothSidesLoop` | crates/thinkingroot-branch/src/diff.rs:538-573 | case 1 reports exactly the diverged ids that the target holds |
| `ThreeWay.DeletedLoop` | crates/thinkingroot-branch/src/diff.rs:577-601 | case 2 adds exactly the diverged ids that the target deleted |
| `ThreeWay.ComputeThreeWayDiff` | crates/thinkingroot-branch/src/diff.rs:490-614 | the two-way diff with those conflicts added and the gate closed if there are any |
| `ThreeWay.TargetOnlyChange` | crates/thinkingroot-branch/src/diff.rs:547-560 | a change made only in the target is no conflict, and is undone exactly when the two-way rule admits the source's old claim |
| `ThreeWay.TargetEditIsUndone` | crates/thinkingroot-branch/src/diff.rs:553-555 | an instance: the edit of the only claim is reverted without any review |
| `Diff.NewRows` | crates/thinkingroot-branch/src/diff.rs:158-168 | exactly the source rows whose normal form no target row has |
| `Diff.NewRowsInOrder` | crates/thinkingroot-branch/src/diff.rs:158-168 | new rows keep the order and number in which they are listed |
| `Diff.NormForgetsSpacing` | crates/thinkingroot-branch/src/diff.rs:33-41 | two statements have one normal form exactly when they have the same words in the same order, up to case |
| `Diff.WordsExactly` | crates/thinkingroot-branch/src/diff.rs:33-41 | white space of any kind and length only separates words |
| `Diff.FirstContradiction` | crates/thinkingroot-branch/src/diff.rs:189-228 | the first target row that contradicts a statement, or none does |
| `Diff.ContainsIff` | crates/thinkingroot-branch/src/diff.rs:61 | a text contains a part exactly when the part stands between two texts that make it up |
| `Diff.ContradictionIff` | crates/thinkingroot-branch/src/diff.rs:44-66 | which statements contradict each other, in either order: those that cross one of the ten pairs; one with a negation that contains its own positive form contradicts itself |
| `Diff.JaccardMeasures` | crates/thinkingroot-branch/src/diff.rs:70-79 | the overlap of two statements lies between 0, for no common word, and 1, for the same words, in either order |
| `Diff.NewEntities` | crates/thinkingroot-branch/src/diff.rs:343-358 | exactly the source entities whose name no target entity has |
| `Diff.NewEntitiesInOrder` | crates/thinkingroot-branch/src/diff.rs:343-358 | in the order and number of the listing |
| `Diff.NewRelations` | crates/thinkingroot-branch/src/diff.rs:360-382 | exactly the source relations, by names and type, that the target lacks |
| `Diff.NewRelationsInOrder` | crates/thinkingroot-branch/src/diff.rs:360-382 | in the order and number of the listing |
| `Diff.ComputeDiffInto` | crates/thinkingroot-branch/src/diff.rs:141-440 | the loops compute the two-way diff |
| `Diff.NegationPass` | crates/thinkingroot-branch/src/diff.rs:186-270 | pass 1, row by row, stopping at the first contradiction |
| `Diff.OverlapPass` | crates/thinkingroot-branch/src/diff.rs:276-341 | pass 2 over all pairs not yet flagged |
| `VectorPass.ApplyVectorContradictionPass` | crates/thinkingroot-branch/src/diff.rs:649-798 | pass 3 with its set of flagged pairs: the findings added, their number, and nothing else changed |
| `VectorPass.HitIff` | crates/thinkingroot-branch/src/diff.rs:722-753 | what pass 3 flags for a new row: its first neighbour that is close enough, says something else about a common entity in a target row, and is not flagged yet |
| `VectorPass.VectorFlagsExactly` | crates/thinkingroot-branch/src/diff.rs:682-798 | with distinct ids pass 3 adds, in any order of rows, exactly each new row with its first qualifying neighbour, whatever it flags for other rows |
| `VectorPass.VectorFindsIff` | crates/thinkingroot-branch/src/diff.rs:682-798 | pass 3 leaves the findings as they are exactly when no row taken alone has a qualifying neighbour |
| `VectorPass.ForeignKeysFindNothing` | crates/thinkingroot-branch/src/diff.rs:711-735 | on stores whose keys are not claim ids, on either side, pass 3 finds nothing |
| `VectorPass.Pass1Conserves` | crates/thinkingroot-branch/src/diff.rs:186-270 | every new row is, with multiplicity, in exactly one of new claims, automatic resolutions and reviews |
| `VectorPass.NoPairFlaggedTwice` | crates/thinkingroot-branch/src/diff.rs:276-341 | with distinct ids no pair is flagged twice across both lists, after two passes and after three |
| `VectorPass.FindingsJustified` | crates/thinkingroot-branch/src/diff.rs:186-341 | after two passes and after three, every finding is about a source row and a target row, quotes them, and is resolved, for the more confident one, exactly when their confidences differ by more than the threshold |
| `VectorPass.NewClaimsExactly` | crates/thinkingroot-branch/src/diff.rs:159-270 | the new claims are exactly the source rows whose normal form the target lacks and which contradict no target row; later passes change nothing |
| `VectorPass.Pass2FlagsExactly` | crates/thinkingroot-branch/src/diff.rs:276-341 | pass 2 adds exactly the pairs with a common entity and over 60% common words that are not one statement, in any order of rows |
| `Diff.OverlapsIff` | crates/thinkingroot-branch/src/diff.rs:294-306 | counted in words the overlap threshold is exact: more than three of every five, about a common entity |
| `VectorPass.Pass2Reach` | crates/thinkingroot-branch/src/diff.rs:292-303 | pass 2 only ever flags target ids that are also ids of new rows |
| `Gate.DiffForMerge` | crates/thinkingroot-branch/src/lib.rs:427-473 | whichever way the diff is computed, allowed means no reasons, and holds exactly when forced, or healthy with no blocking review and no three-way conflict; added to the two-way diff are, with a fork snapshot, exactly one conflict for each diverged claim, quoting its versions, and without one exactly the vector hits of each row |
| `Gate.DivergedIsBlocked` | crates/thinkingroot-branch/src/diff.rs:597-611 | one claim that diverged since the fork closes the gate of an unforced merge |
| `Gate.TwoWayGate` | crates/thinkingroot-branch/src/diff.rs:384-400 | the same for the two-way diff |
| `Gate.VectorGate` | crates/thinkingroot-branch/src/diff.rs:857-876 | the refreshed gate after the vector pass is exact again |
| `Gate.ThreeWayGate` | crates/thinkingroot-branch/src/diff.rs:603-611 | the gate after the three-way conflicts is exact |
| `Gate.ResolveManually` | crates/thinkingroot-cli/src/branch_cmd.rs:330-427 | succeeds exactly when every argument is valid and every promoted claim exists; a review stays exactly when no argument names its branch claim, each keep-branch adds that claim and a resolution it wins, and without force the gate is again what its reasons say |
| `Gate.UnnamedStaysBlocked` | crates/thinkingroot-cli/src/branch_cmd.rs:414-426 | while a review is left that no argument names, the gate stays as it was, with its reasons |
| `Gate.ResolvedGate` | crates/thinkingroot-cli/src/branch_cmd.rs:414-426 | after manual resolutions, forced or not, the gate is exact |
| `Gate.KeepMainInsertsIff` | crates/thinkingroot-cli/src/branch_cmd.rs:370-410 | a source claim is inserted, under the id the diff gives it, exactly when a keep-branch names that id or the two-way diff had admitted it, so keep-main does not keep an admitted one out |
| `Apply.ApplyBranchDiff` | crates/thinkingroot-branch/src/merge.rs:57-224 | the loops produce the applied graph; without the flag nothing of the target goes, with it exactly the files that the branch lacks go, with their claims, witnesses and scoped relations; either way the relations left are those of the scoped rows |
| `Deletions.PropagateDeletions` | crates/thinkingroot-branch/src/merge.rs:140-222 | in any listing order, exactly the sources that share a URI with a file the branch lacks are removed, with exactly their claims, edges, witnesses and relations; the entities that go are orphans of those claims, and an orphan that stays was overlooked |
| `Deletions.OrphanGoesIff` | crates/thinkingroot-graph/src/graph.rs:6670-6762 | unless overlooked, an entity goes exactly when a removed claim named it and only removed claims and relations of removed sources used it |
| `Deletions.OrderDecidesOverlooked` | crates/thinkingroot-graph/src/graph.rs:6670-6762 | an entity named by one removed source and related by another stays or goes with the order of the two removals |
| `Deletions.RemoveSourceByUri` | crates/thinkingroot-graph/src/graph.rs:3999-4010 | the sources of one URI, in any order |
| `Graph.GraphStore.RemoveSourceById` | crates/thinkingroot-graph/src/graph.rs:6670-6762 | one source with its claims, their edges, its witnesses and relations, and the entities left without use |
| `Deletions.NothingDoomedIff` | crates/thinkingroot-branch/src/merge.rs:149-153 | nothing is removed exactly when the branch still has every file of the target |
| `Deletions.PropagationIsIdempotent` | crates/thinkingroot-branch/src/merge.rs:140-222 | a second propagation finds nothing to remove |
| `Deletions.SharedSourcesStay` | crates/thinkingroot-branch/src/merge.rs:142-153 | a claim whose source record the branch has stays |
| `MergedGraph.MergedClaimsSurvive` | crates/thinkingroot-branch/src/merge.rs:57-222 | propagation never takes out a claim that the same merge brought in with its source |
| `Apply.CopySourcesLoop` | crates/thinkingroot-branch/src/merge.rs:57-91 | source records copied once, unless their URI is present |
| `Apply.InsertClaimsLoop` | crates/thinkingroot-branch/src/merge.rs:93-104 | claims, source edges and entity edges written |
| `Apply.SupersedeLoop` | crates/thinkingroot-branch/src/merge.rs:106-111 | losers recorded for branch winners only |
| `Apply.LinkRelationsLoop` | crates/thinkingroot-branch/src/merge.rs:117-128 | every relation whose two names resolve is linked, and no other |
| `Graph.GraphStore.FindEntityIdByName` | crates/thinkingroot-graph/src/graph.rs:7299-7313 | some entity of that name, or there is none |
| `Graph.GraphStore.SupersedeClaim` | crates/thinkingroot-graph/src/graph.rs:6004-6029 | the loser is recorded and every claim row stays |
| `Graph.GraphStore.RebuildEntityRelations` | crates/thinkingroot-graph/src/graph.rs:3609-3649 | the aggregated relations become those of the source-scoped rows |
| `MergedGraph.ExactMergedClaims` | crates/thinkingroot-branch/src/merge.rs:94-104 | diff then apply, at every id: it takes the claim of the admitted source row it stands for, under a new id where the row's own does not parse, and otherwise keeps its value |
| `MergedGraph.MergeWithoutFindings` | crates/thinkingroot-branch/src/diff.rs:159-270 | when the passes report nothing, the merged table is the target's overridden by exactly the source claims whose normal form the target lacks |
| `MergedGraph.AdmittedIsCarried` | crates/thinkingroot-branch/src/diff.rs:230-268 | diff and apply carry an admitted claim over with its text, confidence and source, linked to every entity of its context that the target knew |
| `MergedGraph.CopiedSources` | crates/thinkingroot-branch/src/merge.rs:57-91 | which source records the target holds after the copy |
| `MergedGraph.SourceLinkResolvesIff` | crates/thinkingroot-branch/src/merge.rs:64-75 | when the source edge of a merged claim resolves |
| `MergedGraph.RowsAfterMerge` | crates/thinkingroot-graph/src/graph.rs:5377-5381 | a merged claim is visible exactly when some source edge of it resolves; other rows are unchanged |
| `MergedGraph.WitnessesHideMerge` | crates/thinkingroot-graph/src/graph.rs:5320-5368 | a graph that answers from witnesses shows nothing of a merge |
| `MergedGraph.SupersededExactly` | crates/thinkingroot-branch/src/merge.rs:106-111 | exactly the target claims that lost are recorded, each against a claim it lost to |
| `MergedGraph.WinnerPresentIff` | crates/thinkingroot-branch/src/merge.rs:106-111 | the winner of a pass-1 resolution is in the merged target exactly when the target already held its id |
| `MergedGraph.EntityClosure` | crates/thinkingroot-branch/src/merge.rs:113-115 | when no id is reused, the names afterwards are the target's and those the source lists, and old entities stay |
| `MergedGraph.NameAfterMergeIff` | crates/thinkingroot-graph/src/graph.rs:3101-3136 | the target has a name afterwards exactly when an entity of that name keeps its id, or the source lists the name and the target did not |
| `MergedGraph.RelationArrivesIff` | crates/thinkingroot-branch/src/merge.rs:117-128 | a source relation new to the target arrives exactly when both its names are kept by the target or listed by the source |
| `MergedGraph.RelationClosureIff` | crates/thinkingroot-branch/src/merge.rs:113-128 | when no id is reused, the target keeps its relations, and the source's all arrive exactly when the ends of the new ones are names of the target or listed by the source |
| `MergedGraph.RelationClosure` | crates/thinkingroot-branch/src/merge.rs:113-128 | so none is dropped when every entity that the source's relations join has an id that parses |
| `MergedGraph.ForkEdgeIsDropped` | crates/thinkingroot-graph/src/graph.rs:3396-3405 | the edge from a branch node that the target lacks: new in the diff, its entity not listed, and not in the target afterwards |
| `MergedGraph.RebuildKeepsOnlyScoped` | crates/thinkingroot-branch/src/merge.rs:224 | after the rebuild a relation is present exactly when a source-scoped row names it |
| `MergedGraph.ContextLinkedIff` | crates/thinkingroot-branch/src/merge.rs:99-103 | a merged claim is linked to a name of its context exactly when the target knew the name before |
| `Rebase.RebaseConverges` | crates/thinkingroot-branch/src/lib.rs:606-633 | from a branch and a parent that meet a condition on the two graphs alone, a run of rebases that each find a new claim is no longer than the number of parent statements the branch did not show |
| `Rebase.RoundStaysReady` | crates/thinkingroot-branch/src/merge.rs:57-104 | that condition (sources recorded under one id per URI, the branch not answering from witnesses) lasts over each round |
| `Rebase.RoundShrinks` | crates/thinkingroot-branch/src/lib.rs:622-631 | in any branch that answers from claims, no round makes more parent statements missing, and one that shows a claim it brings makes fewer |
| `Rebase.MovesIff` | crates/thinkingroot-branch/src/merge.rs:64-104 | a round shows some claim it brings exactly when, before it, an admitted claim has an id the branch shows, a source record in the branch, or one in the parent under a URI the branch lacks |
| `Rebase.RebaseSettles` | crates/thinkingroot-branch/src/lib.rs:606-633 | with no condition on records: a run longer than the number of missing statements ends in a round that changes nothing that shows |
| `Rebase.StuckForEver` | crates/thinkingroot-branch/src/diff.rs:235-240 | after such a round no later one changes a row, and the same claims are found new for ever |
| `Rebase.UnshownNeverConverges` | crates/thinkingroot-branch/src/diff.rs:235-240 | a branch in which no admitted claim can show, by a source id that does not resolve or a URI held under another id, finds new claims in every round and shows none |
| `Rebase.HeldTwiceNeverConverges` | crates/thinkingroot-branch/src/merge.rs:64-75 | an instance: one parent claim from a file the branch has under another source id is found new by every rebase and never shown |
| `Rebase.FixpointCovers` | crates/thinkingroot-branch/src/diff.rs:159-270 | at the fixpoint every parent statement is present up to normalisation or flagged against a branch claim it contradicts |
| `Rebase.FixpointLasts` | crates/thinkingroot-branch/src/merge.rs:94-104 | a round without new claims changes no row |
| `Rebase.WitnessBranchNeverMoves` | crates/thinkingroot-graph/src/graph.rs:5320-5368 | a branch that answers from witnesses never converges: no round changes a row it reports |
| `Text.SlugifyIsSlug` | crates/thinkingroot-branch/src/snapshot.rs:141-162 | every slug is non-empty, without leading, trailing or doubled dash, lowercase alphanumeric otherwise |
| `Text.SlugifyIdempotent` | crates/thinkingroot-branch/src/snapshot.rs:141-162 | slugifying a slug changes nothing |
| `Text.SplitJoin` | crates/thinkingroot-branch/src/snapshot.rs:153-156 | split, drop empties and join give a clean text back |
| `Text.SlugIsSqueezed` | crates/thinkingroot-branch/src/snapshot.rs:141-162 | the slug of every name, in one pass: its lowercase alphanumerics with one dash for whatever stands between two of them |
| `Layout.SharedPathIff` | crates/thinkingroot-branch/src/snapshot.rs:167-175 | two branch directories share a path exactly when the slugs are equal |
| `Gc.GcBranches` | crates/thinkingroot-branch/src/lib.rs:351-370 | removes exactly the paths below abandoned entries' directories; the count is the number of those entries, with or without a directory |
| `Gc.KeepsDataIff` | crates/thinkingroot-branch/src/lib.rs:357-368 | a branch keeps its files exactly when no abandoned entry is called main or has its slug |
| `Gc.MainKeptIff` | crates/thinkingroot-branch/src/lib.rs:363-368 | main's own files go exactly with an abandoned entry called main |
| `Gc.RecreatedBranchIsSwept` | crates/thinkingroot-branch/src/lib.rs:357-368 | after abandon and create, the active branch's files are collected |
| `TreeDigest.GraphIdentityEntries` | crates/thinkingroot-branch/src/lib.rs:132-155 | for every listing order the worklist ends with each file once, and the same sorted list |
| `TreeDigest.WalkGathersFiles` | crates/thinkingroot-branch/src/lib.rs:132-155 | an entry is gathered exactly when following its names from the root leads to a file of that length |
| `TreeDigest.PathAppends` | crates/thinkingroot-branch/src/lib.rs:144-150 | a path is its names with a slash between two of them |
| `TreeDigest.GraphIdentityInput` | crates/thinkingroot-branch/src/lib.rs:156-160 | the bytes hashed depend on the tree alone |
| `TreeDigest.DigestIsOrdered` | crates/thinkingroot-branch/src/lib.rs:155 | the list is in order of paths, and of lengths for one path |
| `TreeDigest.DigestIgnoresOrder` | crates/thinkingroot-branch/src/lib.rs:126-160 | rearranging the children of any directories, at any depth, does not change the digest |
| `TreeDigest.SameDigestIff` | crates/thinkingroot-branch/src/lib.rs:126-160 | for plain paths and files under 4 GiB, two trees have one digest input exactly when they hold the same files |
| `TreeDigest.DigestInputInjective` | crates/thinkingroot-branch/src/lib.rs:157-160 | for plain paths and files under 4 GiB, the bytes hashed determine the list although nothing separates its parts |
| `Replay.ReplayPack` | crates/thinkingroot-cli/src/mount_cmd.rs:642-820 | the storage is the replayed graph: a record whose file is present and whose id no later one shares is stored with its text, its file's source and its confidence, other claims are as they were, inserted and skipped add up to the records, and skipped are exactly those whose file is missing |
| `Replay.CollectEntities` | crates/thinkingroot-cli/src/mount_cmd.rs:681-691 | one entity for each distinct name, in order of first mention |
| `Replay.ClassifiesByExtension` | crates/thinkingroot-cli/src/mount_cmd.rs:825-832 | a path is a document exactly when it ends in one of three extensions, in any case, and otherwise a file |
| `Replay.ClaimNamesItsFile` | crates/thinkingroot-cli/src/mount_cmd.rs:708-766 | a record whose file is present is inserted, naming and linked to the source inserted for that file |
| `Replay.InsertedClaimsAreVisible` | crates/thinkingroot-cli/src/mount_cmd.rs:794-801 | every inserted claim can be read back |
| `Replay.EntitiesOneToOne` | crates/thinkingroot-cli/src/mount_cmd.rs:681-698 | entity ids and the distinct names of all records are inverse to each other |
| `Replay.EdgesNameInsertedEntities` | crates/thinkingroot-cli/src/mount_cmd.rs:804-813 | every edge attempted names an entity this replay inserted, and every mention has its edge |
| `Replay.EdgeClaimExistsIff` | crates/thinkingroot-cli/src/mount_cmd.rs:727-810 | the claim at the other end of an edge exists exactly when the record's own text is an inserted or older id |
| `UrlEncoding.UrlEncode` | crates/thinkingroot-cli/src/cortex_remote.rs:1019-1033 | the two loops compute the encoding |
| `UrlEncoding.EncodeRoundTrip` | crates/thinkingroot-cli/src/cortex_remote.rs:1019-1033 | decoding the output and reading the bytes as UTF-8 gives the text back, for every text |
| `UrlEncoding.EncodeInjective` | crates/thinkingroot-cli/src/cortex_remote.rs:1019-1033 | different texts have different encodings |
| `UrlEncoding.EncodeRange` | crates/thinkingroot-cli/src/cortex_remote.rs:1022-1028 | the outputs are exactly the canonical percent-encodings of well-formed UTF-8 |
| `UrlEncoding.EncodeText` | crates/thinkingroot-cli/src/cortex_remote.rs:1021-1029 | the output holds only percent signs, letters, digits and four marks, and a text comes out unchanged exactly when it has nothing else |
| `UrlEncoding.Utf8RoundTrip` | crates/thinkingroot-cli/src/cortex_remote.rs:1026 | UTF-8 as in section 3 of RFC 3629 reads back |

## Left out

- Deletions.PropagateDeletions: covers the tables of `Graph.dfy`; the derived tables that the store cascades through, and the purge of vectors, are not modelled.
- Vector stores beyond a list of neighbours; recovery restores the graph only, not `vectors.bin`.
- Root Functions in the diff and in the apply loops: one more list carried over like the others.
- Claim schema migrations (lib.rs:511-533): rewrite claims by registered functions that are not part of the engine.
- CozoDB and RocksDB: tables are maps and sets; importing a backup is taken to restore the graph it was made from, as merge.rs:636-638 says, and a backup that the library refuses is one of the failures of a run. Opening a store that does not exist creates an empty one; that alone is not counted as a write.
- Columns that no decision reads (claim type, spans, dates, tiers, relation strength), explanation texts, branch kinds and permissions. A blocking reason is modelled by which of its three texts it is.
- Health scores beyond one real number for each graph; the verifier that computes them is not part of this model.
- The proposal layer: its answer to the gate is a parameter, and its own status update, whose failure is only logged, is not modelled.
- Concurrent merges: intent writes hold no lock, so the crash theorems take one merger at a time; a merge lock held elsewhere is a failure a run can meet.
- TOML and JSON text, atomic rename, file cloning, symlinks, branch layout creation, the legacy migration, templates, tags and HEAD: input and output, or simple keyed lists.
- Lowercasing in context: Rust lowers a final capital sigma differently; the model lowers character by character, from any table.
- Ties between snapshots: two snapshots taken in one second have one name; the model lets the later replace the earlier.
- Snapshot timestamps before 1970 and data directories on case-insensitive file systems.
- Recovery.NewestIsGreatestTimestamp: assumes timestamps of one printed width, as `Recovery.NewestIsChosen` has them from 2001 to 2286; without it the exact order is that of `Recovery.ChosenIff`.
- Rebase.RebaseConverges: is about branches that answer from claims and meet its condition at the start; `Rebase.MovesIff` and `Rebase.StuckForEver` say what any other such branch does, and `Rebase.WitnessBranchNeverMoves` what one that answers from witnesses does. In the rounds the claim-to-source table is read in full; the empty one that `graph.rs:5531-5534` falls back to on an older schema is not considered.
- MergedGraph.RelationClosureIff: is about the graph before the rebuild, and about diffs that reuse no entity id; `MergedGraph.RebuildKeepsOnlyScoped`, `MergedGraph.RelationArrivesIff` and `MergedGraph.NameAfterMergeIff` say what happens otherwise.
