/** The merge protocol on disk: intent, snapshot, graph writes, registry mark,
    intent cleared; what a crash after any of them leaves for recovery, and what
    each way of returning leaves behind. */
module MergeProtocol {
  import opened Wrappers
  import opened Text
  import opened Graph
  import opened Layout
  import opened Recovery
  import R = Registry

  /** One run.  `writes` are the contents the target graph passes through, the last
      being the merged one; a merge marks the registry, a rebase does not. */
  datatype Run = Run(intent: MergeIntent, snapshotAt: nat, writes: seq<GraphState>, mark: Option<R.Op>)

  datatype Step = WriteIntent | TakeSnapshot | WriteGraph(content: GraphState) | Mark(op: R.Op) | ClearIntent

  function Target(t: CharTable, run: Run): DataDir {
    ResolveDataDir(t, run.intent.targetBranch)
  }

  function Prefix(t: CharTable, run: Run): string {
    SnapshotPrefix(t, run.intent.snapshotPrefix, run.intent.snapshotSubject)
  }

  function OwnSnapshot(t: CharTable, run: Run): string {
    Prefix(t, run) + SnapshotSuffix(run.snapshotAt)
  }

  function Length(run: Run): nat {
    |run.writes| + if run.mark.Some? then 4 else 3
  }

  function StepAt(run: Run, k: nat): Step
    requires k < Length(run)
  {
    if k == 0 then WriteIntent
    else if k == 1 then TakeSnapshot
    else if k < |run.writes| + 2 then WriteGraph(run.writes[k - 2])
    else if k == Length(run) - 1 then ClearIntent
    else Mark(run.mark.value)
  }

  function MarkedBranches(t: CharTable, branches: seq<R.BranchRef>, op: R.Op): seq<R.BranchRef> {
    R.Apply(R.Config(t, Some(R.MAX_EVENTS)), branches, op).branches
  }

  function Do(t: CharTable, run: Run, step: Step, d: Disk): Disk {
    match step
    case WriteIntent => d.(intents := d.intents + [run.intent])
    case TakeSnapshot => WithSnapshot(d, Target(t, run), OwnSnapshot(t, run))
    case WriteGraph(g) => WithGraph(d, Target(t, run), g)
    case Mark(op) => d.(branches := MarkedBranches(t, d.branches, op))
    case ClearIntent => d.(intents := WithoutIntent(d.intents, run.intent.sourceBranch, run.intent.startedAt))
  }

  /** The disk once the first `k` steps are done. */
  function After(t: CharTable, run: Run, d: Disk, k: nat): Disk
    requires k <= Length(run)
  {
    if k == 0 then d else Do(t, run, StepAt(run, k - 1), After(t, run, d, k - 1))
  }

  // ---- The disk at each point, in closed form ----

  function GraphAfter(t: CharTable, run: Run, d: Disk, k: nat): Option<GraphState> {
    if k <= 2 || run.writes == [] then DirAt(d, Target(t, run)).graph
    else Some(run.writes[if k < |run.writes| + 2 then k - 3 else |run.writes| - 1])
  }

  function FilesAfter(t: CharTable, run: Run, d: Disk, k: nat): map<string, GraphState> {
    var gd := DirAt(d, Target(t, run));
    if k >= 2 && gd.graph.Some? then gd.files[OwnSnapshot(t, run) := gd.graph.value] else gd.files
  }

  function BranchesAfter(t: CharTable, run: Run, d: Disk, k: nat): seq<R.BranchRef> {
    if run.mark.Some? && k >= |run.writes| + 3 then MarkedBranches(t, d.branches, run.mark.value) else d.branches
  }

  function IntentsAfter(run: Run, d: Disk, k: nat): seq<MergeIntent> {
    if k == 0 then d.intents
    else if k < Length(run) then d.intents + [run.intent]
    else WithoutIntent(d.intents + [run.intent], run.intent.sourceBranch, run.intent.startedAt)
  }

  lemma NothingLeft(run: Run, d: Disk)
    requires d.intents == []
    ensures IntentsAfter(run, d, Length(run)) == []
  {
    assert d.intents + [run.intent] == [run.intent] && [run.intent][..0] == [];
    assert WithoutIntent([run.intent][..0], run.intent.sourceBranch, run.intent.startedAt) == [];
  }

  /** What one step does to intents and registry. */
  lemma DoToRecords(t: CharTable, run: Run, step: Step, d: Disk)
    ensures var e := Do(t, run, step, d);
      && e.intents == (match step
           case WriteIntent => d.intents + [run.intent]
           case ClearIntent => WithoutIntent(d.intents, run.intent.sourceBranch, run.intent.startedAt)
           case _ => d.intents)
      && e.branches == match step case Mark(op) => MarkedBranches(t, d.branches, op) case _ => d.branches
  {
  }

  lemma {:induction false} RecordsAfter(t: CharTable, run: Run, d: Disk, k: nat)
    requires k <= Length(run)
    ensures After(t, run, d, k).intents == IntentsAfter(run, d, k)
    ensures After(t, run, d, k).branches == BranchesAfter(t, run, d, k)
  {
    if k > 0 {
      RecordsAfter(t, run, d, k - 1);
      DoToRecords(t, run, StepAt(run, k - 1), After(t, run, d, k - 1));
    }
  }

  /** What one step does to the target directory. */
  lemma DoAtTarget(t: CharTable, run: Run, step: Step, d: Disk)
    ensures var gd := DirAt(d, Target(t, run));
      DirAt(Do(t, run, step, d), Target(t, run)) ==
        match step
        case TakeSnapshot =>
          if gd.graph.Some? then gd.(files := gd.files[OwnSnapshot(t, run) := gd.graph.value]) else gd
        case WriteGraph(g) => gd.(graph := Some(g))
        case _ => gd
  {
  }

  lemma {:induction false} TargetAfter(t: CharTable, run: Run, d: Disk, k: nat)
    requires k <= Length(run)
    ensures DirAt(After(t, run, d, k), Target(t, run)) == GraphDir(GraphAfter(t, run, d, k), FilesAfter(t, run, d, k))
  {
    if k > 0 {
      TargetAfter(t, run, d, k - 1);
      DoAtTarget(t, run, StepAt(run, k - 1), After(t, run, d, k - 1));
    }
  }

  lemma {:induction false} OthersAfter(t: CharTable, run: Run, d: Disk, k: nat, other: DataDir)
    requires k <= Length(run) && other != Target(t, run)
    ensures DirAt(After(t, run, d, k), other) == DirAt(d, other)
  {
    if k > 0 { OthersAfter(t, run, d, k - 1, other); }
  }

  lemma {:induction false} AfterExactly(t: CharTable, run: Run, d: Disk, k: nat)
    requires k <= Length(run)
    ensures var e, dir := After(t, run, d, k), Target(t, run);
      && DirAt(e, dir) == GraphDir(GraphAfter(t, run, d, k), FilesAfter(t, run, d, k))
      && (forall other | other != dir :: DirAt(e, other) == DirAt(d, other))
      && e.intents == IntentsAfter(run, d, k)
      && e.branches == BranchesAfter(t, run, d, k)
  {
    RecordsAfter(t, run, d, k);
    TargetAfter(t, run, d, k);
    forall other | other != Target(t, run) ensures DirAt(After(t, run, d, k), other) == DirAt(d, other) {
      OthersAfter(t, run, d, k, other);
    }
  }

  // ---- A crash, then recovery ----

  /** Recovery of one intent, seen from its target directory. */
  lemma OneIntentRecovers(t: CharTable, e: Disk, intent: MergeIntent)
    requires e.intents == [intent]
    ensures var r, dir := Recovered(t, e), ResolveDataDir(t, intent.targetBranch);
      var files := DirAt(e, dir).files;
      && r.intents == [] && r.branches == e.branches
      && (forall other | other != dir :: DirAt(r, other) == DirAt(e, other))
      && DirAt(r, dir).files == files
      && DirAt(r, dir).graph ==
           match Latest(files.Keys, SnapshotPrefix(t, intent.snapshotPrefix, intent.snapshotSubject))
           case Some(n) => Some(files[n])
           case None => DirAt(e, dir).graph
  {
    assert e.intents[..0] == [];
    assert RestoreAll(t, e, []) == e;
    assert Recovered(t, e) == Restored(t, e, intent).(intents := []);
  }

  /** The general form: no outstanding intent before the run, a crash after any
      `k` steps, and recovery.  The target then holds the content of the last file
      that matches the run's prefix, if there is one; the registry is as the crash
      left it, and other directories are untouched. */
  lemma CrashThenRecover(t: CharTable, run: Run, d: Disk, k: nat)
    requires d.intents == [] && k <= Length(run)
    ensures var r, dir := Recovered(t, After(t, run, d, k)), Target(t, run);
      && r.intents == []
      && r.branches == BranchesAfter(t, run, d, k)
      && (forall other | other != dir :: DirAt(r, other) == DirAt(d, other))
      && DirAt(r, dir).files == FilesAfter(t, run, d, k)
      && DirAt(r, dir).graph ==
           if k == 0 || k == Length(run) then GraphAfter(t, run, d, k)
           else match Latest(FilesAfter(t, run, d, k).Keys, Prefix(t, run))
             case Some(n) => Some(FilesAfter(t, run, d, k)[n])
             case None => GraphAfter(t, run, d, k)
  {
    AfterExactly(t, run, d, k);
    if k == 0 || k == Length(run) {
      NothingLeft(run, d);
    } else {
      OneIntentRecovers(t, After(t, run, d, k), run.intent);
    }
  }

  predicate NoMatch(files: map<string, GraphState>, prefix: string) {
    forall n | n in files :: !(prefix <= n)
  }

  lemma OnlyOwnMatches(t: CharTable, run: Run, d: Disk, k: nat)
    requires DirAt(d, Target(t, run)).graph.Some? && NoMatch(DirAt(d, Target(t, run)).files, Prefix(t, run)) && k >= 2
    ensures var files, own := FilesAfter(t, run, d, k), OwnSnapshot(t, run);
      && own in files && files[own] == DirAt(d, Target(t, run)).graph.value
      && Prefix(t, run) <= own && !NoMatch(files, Prefix(t, run))
      && (forall n | n in files && Prefix(t, run) <= n :: n == own)
  {
  }

  /** Crash atomicity.  From a disk without outstanding intents, whose target graph
      exists and has no file with the run's prefix: a crash at any point before the
      intent is cleared ends in the graph before the run, and only a finished run
      ends in the merged graph.  Between mark and clear the registry has moved and
      the graph has not. */
  lemma CrashAtomic(t: CharTable, run: Run, d: Disk, k: nat)
    requires d.intents == [] && k <= Length(run)
    requires DirAt(d, Target(t, run)).graph.Some? && NoMatch(DirAt(d, Target(t, run)).files, Prefix(t, run))
    ensures var r, dir := Recovered(t, After(t, run, d, k)), Target(t, run);
      && r.intents == []
      && DirAt(r, dir).graph == (if k == Length(run) then GraphAfter(t, run, d, k) else DirAt(d, dir).graph)
      && r.branches == BranchesAfter(t, run, d, k)
      && forall other | other != dir :: DirAt(r, other) == DirAt(d, other)
  {
    CrashThenRecover(t, run, d, k);
    var files, own := FilesAfter(t, run, d, k), OwnSnapshot(t, run);
    if 2 <= k < Length(run) {
      assert Prefix(t, run) <= own;
      LexReflexive(own);
      LatestUnique(files.Keys, Prefix(t, run), own);
    } else if k == 1 {
      assert Candidates(files.Keys, Prefix(t, run)) == {};
    }
  }

  predicate Merges(run: Run, who: R.MergedBy, at: int) {
    run.mark.Some? && run.mark.value.MarkMerged?
    && run.mark.value.name == run.intent.sourceBranch && run.mark.value.who == who && run.mark.value.at == at
  }

  lemma MarkedStatus(t: CharTable, run: Run, branches: seq<R.BranchRef>, i: nat, who: R.MergedBy, at: int)
    requires Merges(run, who, at) && R.FindActive(branches, run.intent.sourceBranch) == Some(i)
    ensures var marked := MarkedBranches(t, branches, run.mark.value);
      && |marked| == |branches| && marked[i].status == R.Merged(at, who)
      && forall j | 0 <= j < |branches| && j != i :: marked[j] == branches[j]
  {
  }

  /** The mark also ends the entry's log with the event of this merge: when, by whom,
      into which branch and under which proposal. */
  lemma MarkedEvent(t: CharTable, branches: seq<R.BranchRef>, op: R.Op, i: nat)
    requires op.MarkMerged? && R.FindActive(branches, op.name) == Some(i)
    ensures var log, first := MarkedBranches(t, branches, op)[i].events, R.FindNamed(branches, op.name);
      && log != [] && first.Some?
      && log[|log| - 1] ==
           R.MergedEvent(op.at, R.MergerIdentity(op.who), branches[first.value].parent, op.proposal)
  {
    R.MergedIntoIsOwnParentIff(R.Config(t, Some(R.MAX_EVENTS)), branches, op);
  }

  /** The same said of a merge of an active branch: three stretches of crash
      points, and no other outcome. */
  lemma MergeCrashPoints(t: CharTable, run: Run, d: Disk, i: nat, who: R.MergedBy, at: int, k: nat)
    requires d.intents == [] && k <= Length(run) && run.writes != []
    requires Merges(run, who, at) && R.FindActive(d.branches, run.intent.sourceBranch) == Some(i)
    requires DirAt(d, Target(t, run)).graph.Some? && NoMatch(DirAt(d, Target(t, run)).files, Prefix(t, run))
    ensures var r, n := Recovered(t, After(t, run, d, k)), |run.writes|;
      var before, now := DirAt(d, Target(t, run)).graph, DirAt(r, Target(t, run)).graph;
      && r.intents == [] && |r.branches| == |d.branches|
      && (k <= n + 2 ==> now == before && r.branches == d.branches && r.branches[i].status == R.Active)
      && (k == n + 3 ==> now == before && r.branches[i].status == R.Merged(at, who))
      && (k == n + 4 ==> now == Some(run.writes[n - 1]) && r.branches[i].status == R.Merged(at, who))
  {
    CrashAtomic(t, run, d, k);
    MarkedStatus(t, run, d.branches, i, who, at);
  }

  /** Without the assumption about files: a crash once the snapshot is taken ends
      in the graph before the run when no other matching file sorts after it, and
      otherwise in the content of the file that does. */
  lemma CrashAfterSnapshot(t: CharTable, run: Run, d: Disk, k: nat)
    requires d.intents == [] && 2 <= k < Length(run) && DirAt(d, Target(t, run)).graph.Some?
    ensures var files := DirAt(d, Target(t, run)).files;
      var after := DirAt(Recovered(t, After(t, run, d, k)), Target(t, run)).graph;
      if forall x | Prefix(t, run) + x in files :: LexLeq(x, SnapshotSuffix(run.snapshotAt))
      then after == DirAt(d, Target(t, run)).graph
      else exists n | n in files && n != OwnSnapshot(t, run) && Prefix(t, run) <= n :: after == Some(files[n])
  {
    CrashThenRecover(t, run, d, k);
    var before, files := DirAt(d, Target(t, run)).files, FilesAfter(t, run, d, k);
    var p, rest := Prefix(t, run), SnapshotSuffix(run.snapshotAt);
    assert p <= OwnSnapshot(t, run);
    ChosenIff(files.Keys, p, rest);
    LexReflexive(rest);
    if forall x | p + x in before :: LexLeq(x, rest) {
      forall x | p + x in files.Keys ensures LexLeq(x, rest) {
        if p + x !in before { assert x == OwnSnapshot(t, run)[|p|..] == rest; }
      }
    } else {
      var x :| p + x in before && !LexLeq(x, rest);
      assert p + x in files.Keys;
      assert OwnSnapshot(t, run) in Candidates(files.Keys, p);
    }
  }

  /** A crash between intent and snapshot: the graph was never touched, and yet
      recovery replaces it by any older file of the prefix. */
  lemma CrashBeforeSnapshot(t: CharTable, run: Run, d: Disk)
    requires d.intents == []
    ensures var gd := DirAt(d, Target(t, run));
      var after := DirAt(Recovered(t, After(t, run, d, 1)), Target(t, run)).graph;
      && (NoMatch(gd.files, Prefix(t, run)) ==> after == gd.graph)
      && (!NoMatch(gd.files, Prefix(t, run)) ==>
            exists n | IsLatest(gd.files.Keys, Prefix(t, run), n) :: after == Some(gd.files[n]))
  {
    CrashThenRecover(t, run, d, 1);
    var files := DirAt(d, Target(t, run)).files;
    if NoMatch(files, Prefix(t, run)) {
      assert Candidates(files.Keys, Prefix(t, run)) == {};
    } else {
      var n :| n in files && Prefix(t, run) <= n;
      assert n in Candidates(files.Keys, Prefix(t, run));
    }
  }

  /** So a second merge of a branch that dies right after its intent undoes the
      first one, which had succeeded. */
  lemma SecondCrashUndoesFirstMerge(t: CharTable, first: Run, second: Run, d: Disk)
    requires d.intents == [] && DirAt(d, Target(t, first)).graph.Some?
    requires NoMatch(DirAt(d, Target(t, first)).files, Prefix(t, first))
    requires Target(t, second) == Target(t, first) && Prefix(t, second) == Prefix(t, first)
    ensures var merged := After(t, first, d, Length(first));
      && DirAt(merged, Target(t, first)).graph == GraphAfter(t, first, d, Length(first))
      && DirAt(Recovered(t, After(t, second, merged, 1)), Target(t, first)).graph == DirAt(d, Target(t, first)).graph
  {
    var merged := After(t, first, d, Length(first));
    NothingLeft(first, d);
    assert merged.intents == [] && DirAt(merged, Target(t, first)).files == FilesAfter(t, first, d, Length(first)) by {
      AfterExactly(t, first, d, Length(first));
    }
    assert DirAt(merged, Target(t, first)).graph == GraphAfter(t, first, d, Length(first)) by {
      AfterExactly(t, first, d, Length(first));
    }
    OnlyOwnMatches(t, first, d, Length(first));
    CrashBeforeSnapshot(t, second, merged);
  }

  /** A target without a graph has no snapshot to go back to: what the crash left
      there stays. */
  lemma CrashWithoutGraph(t: CharTable, run: Run, d: Disk, k: nat)
    requires d.intents == [] && k <= Length(run) && DirAt(d, Target(t, run)) == GraphDir(None, map[])
    ensures DirAt(Recovered(t, After(t, run, d, k)), Target(t, run)).graph == GraphAfter(t, run, d, k)
  {
    CrashThenRecover(t, run, d, k);
    assert Candidates({}, Prefix(t, run)) == {};
  }

  /** Merge into main, then roll back: the graph is the one before the merge, and
      the registry still says Merged. */
  lemma RollbackUndoesMerge(t: CharTable, run: Run, d: Disk)
    requires Target(t, run) == MainDir && run.intent.snapshotPrefix == "pre-merge"
    requires DirAt(d, MainDir).graph.Some? && run.mark.Some?
    requires forall x | Prefix(t, run) + x in DirAt(d, MainDir).files :: LexLeq(x, SnapshotSuffix(run.snapshotAt))
    ensures var e := After(t, run, d, Length(run));
      var n := Latest(DirAt(e, MainDir).files.Keys, SnapshotPrefix(t, "pre-merge", run.intent.snapshotSubject));
      && n.Some?
      && DirAt(WithGraph(e, MainDir, DirAt(e, MainDir).files[n.value]), MainDir).graph == DirAt(d, MainDir).graph
      && e.branches == MarkedBranches(t, d.branches, run.mark.value)
  {
    AfterExactly(t, run, d, Length(run));
    var files, p, rest := FilesAfter(t, run, d, Length(run)), Prefix(t, run), SnapshotSuffix(run.snapshotAt);
    forall x | p + x in files.Keys ensures LexLeq(x, rest) {
      if p + x !in DirAt(d, MainDir).files {
        assert x == OwnSnapshot(t, run)[|p|..] == rest;
        LexReflexive(rest);
      }
    }
    ChosenIff(files.Keys, p, rest);
  }
}
