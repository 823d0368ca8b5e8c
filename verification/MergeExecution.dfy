/** `execute_merge_into_cancellable`: the gates, the four points where it looks at
    the cancellation token, every way it can fail, and what each leaves on disk. */
module MergeExecution {
  import opened Wrappers
  import opened Text
  import opened Graph
  import opened Layout
  import opened Recovery
  import opened MergeProtocol
  import R = Registry
  import D = Diff
  import A = Apply

  datatype Request = Request(
    source: string, target: Option<string>, diff: D.KnowledgeDiff, who: R.MergedBy, propagate: bool, force: bool)

  datatype ProposalLookup = LookupFailed | NoneApproved | Approved(id: string)

  /** An apply that fails: before its first write, or leaving anything behind. */
  datatype ApplyFault = BeforeWrites | Partway(content: GraphState)

  /** Everything outside the engine that a call meets.  A token, once cancelled,
      stays cancelled: `cancelledFrom` is the first of the four checks that sees it,
      and any number from four on means that none does. */
  datatype World = World(
    cancelledFrom: nat,
    protectedTarget: bool,
    proposal: ProposalLookup,
    intentFails: bool,
    lockBusy: bool,
    snapshotFails: bool,
    applyFault: Option<ApplyFault>,
    clearFails: bool,
    abandonAt: int, startedAt: int, snapshotAt: nat, mergedAt: int)

  datatype MergeError =
    | Cancelled
    | GateClosed
    | ProtectedTarget
    | EphemeralAbandoned
    | ProposalLookupFailed
    | NoApprovedProposal
    | IntentWriteFailed
    | SameBranch
    | LockBusy
    | SnapshotFailed
    | ApplyFailed
    | NotRegistered
    | IntentClearFailed

  // ---- The verdict ----

  /** The merge policy of the active source branch; a source that is not registered
      has none. */
  function Policy(branches: seq<R.BranchRef>, source: string): R.MergePolicy {
    match R.FindActive(branches, source)
    case Some(i) => branches[i].mergePolicy
    case None => R.Manual
  }

  function GateError(req: Request, world: World, branches: seq<R.BranchRef>): Option<MergeError> {
    var policy := Policy(branches, req.source);
    if world.cancelledFrom == 0 then Some(Cancelled)
    else if !req.diff.mergeAllowed then Some(GateClosed)
    else if !req.force && world.protectedTarget then Some(ProtectedTarget)
    else if world.cancelledFrom == 1 then Some(Cancelled)
    else if policy.Ephemeral? then Some(EphemeralAbandoned)
    else if policy.RequiresProposal? && world.proposal.LookupFailed? then Some(ProposalLookupFailed)
    else if policy.RequiresProposal? && world.proposal.NoneApproved? then Some(NoApprovedProposal)
    else if world.cancelledFrom == 2 then Some(Cancelled)
    else None
  }

  function TargetName(req: Request): string {
    if req.target.Some? then req.target.value else "main"
  }

  function ApplyError(req: Request, world: World): Option<MergeError> {
    if req.source == TargetName(req) then Some(SameBranch)
    else if world.lockBusy then Some(LockBusy)
    else if world.snapshotFails then Some(SnapshotFailed)
    else if world.applyFault.Some? then Some(ApplyFailed)
    else None
  }

  function FinishError(req: Request, world: World, branches: seq<R.BranchRef>): Option<MergeError> {
    if world.cancelledFrom <= 3 then Some(Cancelled)
    else if R.FindActive(branches, req.source).None? then Some(NotRegistered)
    else if world.clearFails then Some(IntentClearFailed)
    else None
  }

  /** What goes wrong once the intent is written. */
  function ProtocolError(req: Request, world: World, branches: seq<R.BranchRef>): Option<MergeError> {
    if ApplyError(req, world).Some? then ApplyError(req, world) else FinishError(req, world, branches)
  }

  /** What a run returns: the first of these that goes wrong. */
  function FirstError(req: Request, world: World, branches: seq<R.BranchRef>): Option<MergeError> {
    if GateError(req, world, branches).Some? then GateError(req, world, branches)
    else if world.intentFails then Some(IntentWriteFailed)
    else ProtocolError(req, world, branches)
  }

  function Verdict(req: Request, world: World, branches: seq<R.BranchRef>): Result<(), MergeError> {
    match FirstError(req, world, branches)
    case Some(e) => Err(e)
    case None => Ok(())
  }

  /** A merge succeeds exactly when nothing stands in its way; a token cancelled
      after the fourth check does not. */
  lemma SucceedsIff(req: Request, world: World, branches: seq<R.BranchRef>)
    ensures Verdict(req, world, branches).Ok? <==>
      && world.cancelledFrom >= 4
      && req.diff.mergeAllowed && (req.force || !world.protectedTarget)
      && (exists i | 0 <= i < |branches| :: R.IsActive(branches[i], req.source))
      && !Policy(branches, req.source).Ephemeral?
      && (Policy(branches, req.source).RequiresProposal? ==> world.proposal.Approved?)
      && req.source != TargetName(req)
      && !world.intentFails && !world.lockBusy && !world.snapshotFails && world.applyFault == None && !world.clearFails
  {
    if R.FindActive(branches, req.source).None? {
      forall i | 0 <= i < |branches| ensures !R.IsActive(branches[i], req.source) {
        assert branches[i] in branches;
      }
    }
  }

  datatype Check = Check(fails: bool, error: MergeError)

  /** Everything a run looks at, in the order it does. */
  function Checks(req: Request, world: World, branches: seq<R.BranchRef>): seq<Check> {
    var policy := Policy(branches, req.source);
    [ Check(world.cancelledFrom <= 0, Cancelled),
      Check(!req.diff.mergeAllowed, GateClosed),
      Check(world.protectedTarget && !req.force, ProtectedTarget),
      Check(world.cancelledFrom <= 1, Cancelled),
      Check(policy.Ephemeral?, EphemeralAbandoned),
      Check(policy.RequiresProposal? && world.proposal.LookupFailed?, ProposalLookupFailed),
      Check(policy.RequiresProposal? && world.proposal.NoneApproved?, NoApprovedProposal),
      Check(world.cancelledFrom <= 2, Cancelled),
      Check(world.intentFails, IntentWriteFailed),
      Check(req.target == Some(req.source) || (req.target == None && req.source == "main"), SameBranch),
      Check(world.lockBusy, LockBusy),
      Check(world.snapshotFails, SnapshotFailed),
      Check(world.applyFault.Some?, ApplyFailed),
      Check(world.cancelledFrom <= 3, Cancelled),
      Check(forall b | b in branches :: !R.IsActive(b, req.source), NotRegistered),
      Check(world.clearFails, IntentClearFailed) ]
  }

  /** The verdict is the first of them that fails, and success if none does. */
  lemma VerdictIsFirstFailure(req: Request, world: World, branches: seq<R.BranchRef>, k: nat)
    requires k <= |Checks(req, world, branches)|
    requires forall j | 0 <= j < k :: !Checks(req, world, branches)[j].fails
    ensures var checks := Checks(req, world, branches);
      if k == |checks| then Verdict(req, world, branches) == Ok(())
      else checks[k].fails ==> Verdict(req, world, branches) == Err(checks[k].error)
  {
    var checks := Checks(req, world, branches);
    NothingBefore(checks, k);
    if R.FindActive(branches, req.source).Some? {
      assert branches[R.FindActive(branches, req.source).value] in branches;
    }
  }

  lemma NothingBefore(checks: seq<Check>, k: nat)
    requires |checks| == 16 && k <= 16 && forall j | 0 <= j < k :: !checks[j].fails
    ensures (k > 0 ==> !checks[0].fails) && (k > 1 ==> !checks[1].fails) && (k > 2 ==> !checks[2].fails)
    ensures (k > 3 ==> !checks[3].fails) && (k > 4 ==> !checks[4].fails) && (k > 5 ==> !checks[5].fails)
    ensures (k > 6 ==> !checks[6].fails) && (k > 7 ==> !checks[7].fails) && (k > 8 ==> !checks[8].fails)
    ensures (k > 9 ==> !checks[9].fails) && (k > 10 ==> !checks[10].fails) && (k > 11 ==> !checks[11].fails)
    ensures (k > 12 ==> !checks[12].fails) && (k > 13 ==> !checks[13].fails) && (k > 14 ==> !checks[14].fails)
    ensures k > 15 ==> !checks[15].fails
  {
  }

  // ---- How far a run gets ----

  /** The proposal that a merge under review was authorised by. */
  function AuthorisedBy(req: Request, world: World, branches: seq<R.BranchRef>): Option<string> {
    if Policy(branches, req.source).RequiresProposal? && world.proposal.Approved? then Some(world.proposal.id) else None
  }

  function RunWith(req: Request, world: World, proposal: Option<string>, writes: seq<GraphState>): Run {
    Run(MergeIntent(req.source, req.target, world.startedAt, req.source, "pre-merge"), world.snapshotAt, writes,
        Some(R.MarkMerged(req.source, req.who, proposal, world.mergedAt)))
  }

  function RunFor(req: Request, world: World, branches: seq<R.BranchRef>, writes: seq<GraphState>): Run {
    RunWith(req, world, AuthorisedBy(req, world, branches), writes)
  }

  /** The protocol steps done when a run that wrote its intent returns. */
  function ProtocolSteps(e: Option<MergeError>, writes: seq<GraphState>): nat {
    match e
    case None => |writes| + 4
    case Some(IntentClearFailed) => |writes| + 3
    case Some(SameBranch) => 1
    case Some(LockBusy) => 1
    case Some(SnapshotFailed) => 1
    case Some(_) => |writes| + 2
  }

  /** And when any run returns. */
  function StepsDone(req: Request, world: World, branches: seq<R.BranchRef>, writes: seq<GraphState>): nat {
    if GateError(req, world, branches).Some? || world.intentFails then 0
    else ProtocolSteps(ProtocolError(req, world, branches), writes)
  }

  const EMPTY_GRAPH := GraphState(map[], map[], {}, {}, map[], map[], {}, {}, map[])

  function GraphIn(graphs: map<DataDir, GraphDir>, dir: DataDir): GraphState {
    if dir in graphs && graphs[dir].graph.Some? then graphs[dir].graph.value else EMPTY_GRAPH
  }

  /** What the run writes to the target: the merged graph if apply succeeds,
      otherwise whatever the failure left. */
  ghost predicate WritesFrom(before: GraphState, source: GraphState, req: Request, fault: Option<ApplyFault>,
                             writes: seq<GraphState>)
  {
    match fault
    case Some(BeforeWrites) => writes == []
    case Some(Partway(g)) => writes == [g]
    case None => |writes| == 1 && A.MergeOf(before, source, req.diff, req.propagate, writes[0])
  }

  ghost predicate WritesOf(t: CharTable, req: Request, world: World, graphs: map<DataDir, GraphDir>,
                           writes: seq<GraphState>)
  {
    WritesFrom(GraphIn(graphs, ResolveDataDir(t, req.target)), GraphIn(graphs, ResolveDataDir(t, Some(req.source))),
               req, world.applyFault, writes)
  }

  // ---- The imperative code ----

  method CheckGates(w: Workspace, req: Request, world: World) returns (e: Option<MergeError>, proposal: Option<string>)
    requires !w.store.locked
    modifies w.store
    ensures e == GateError(req, world, old(w.store.branches)) && !w.store.locked
    ensures e == None ==> proposal == AuthorisedBy(req, world, old(w.store.branches))
    ensures w.store.branches ==
      if e == Some(EphemeralAbandoned)
      then MarkedBranches(w.chars, old(w.store.branches), R.Abandon(req.source, world.abandonAt))
      else old(w.store.branches)
  {
    proposal := None;
    if world.cancelledFrom == 0 {
      return Some(Cancelled), None;
    }
    if !req.diff.mergeAllowed {
      return Some(GateClosed), None;
    }
    if !req.force && world.protectedTarget {
      return Some(ProtectedTarget), None;
    }
    if world.cancelledFrom <= 1 {
      return Some(Cancelled), None;
    }
    var registry := new R.BranchRegistry.LoadOrCreate(w.store, w.chars);
    var active := R.FindActive(registry.data, req.source);
    if active.Some? {
      var policy := registry.data[active.value].mergePolicy;
      if policy.Ephemeral? {
        registry := new R.BranchRegistry.LoadOrCreate(w.store, w.chars);
        var reply := registry.AbandonBranch(req.source, world.abandonAt);
        return Some(EphemeralAbandoned), None;
      }
      if policy.RequiresProposal? {
        if world.proposal.LookupFailed? {
          return Some(ProposalLookupFailed), None;
        }
        if world.proposal.NoneApproved? {
          return Some(NoApprovedProposal), None;
        }
        proposal := Some(world.proposal.id);
      }
    }
    if world.cancelledFrom <= 2 {
      return Some(Cancelled), None;
    }
    e := None;
  }

  /** The failures that come before the snapshot is taken. */
  predicate BeforeSnapshot(e: Option<MergeError>) {
    e == Some(SameBranch) || e == Some(LockBusy) || e == Some(SnapshotFailed)
  }

  /** The disk after apply, as far as it got. */
  function Written(t: CharTable, run: Run, d: Disk, e: Option<MergeError>): Disk {
    if BeforeSnapshot(e) then d
    else if run.writes == [] then Do(t, run, TakeSnapshot, d)
    else Do(t, run, WriteGraph(run.writes[0]), Do(t, run, TakeSnapshot, d))
  }

  /** The apply loops on the target's store, or what a failure leaves of them. */
  method WriteTarget(w: Workspace, dir: DataDir, before: GraphState, source: GraphState, req: Request,
                     fault: Option<ApplyFault>)
    returns (ghost writes: seq<GraphState>)
    modifies w`graphs
    ensures WritesFrom(before, source, req, fault, writes) && |writes| <= 1
    ensures w.OnDisk() == if writes == [] then old(w.OnDisk()) else WithGraph(old(w.OnDisk()), dir, writes[0])
  {
    if fault == Some(BeforeWrites) {
      return [];
    }
    if fault.Some? {
      w.Import(dir, fault.value.content);
      return [fault.value.content];
    }
    var store := new GraphStore(before);
    A.ApplyBranchDiff(store, source, req.diff, req.propagate);
    w.Import(dir, store.State());
    writes := [store.State()];
  }

  /** `apply_branch_diff`: the name check, the merge lock, the snapshot, then the
      writes. */
  method ApplyToTarget(w: Workspace, req: Request, world: World, ghost proposal: Option<string>)
    returns (e: Option<MergeError>, ghost writes: seq<GraphState>)
    modifies w`graphs
    ensures e == ApplyError(req, world)
    ensures !BeforeSnapshot(e) ==> WritesOf(w.chars, req, world, old(w.graphs), writes)
    ensures |writes| <= 1 && w.OnDisk() == Written(w.chars, RunWith(req, world, proposal, writes), old(w.OnDisk()), e)
  {
    writes := [];
    var target := if req.target.Some? then req.target.value else "main";
    if req.source == target {
      return Some(SameBranch), writes;
    }
    if world.lockBusy {
      return Some(LockBusy), writes;
    }
    if world.snapshotFails {
      return Some(SnapshotFailed), writes;
    }
    var dir := ResolveDataDir(w.chars, req.target);
    var source := GraphIn(w.graphs, ResolveDataDir(w.chars, Some(req.source)));
    var before := GraphIn(w.graphs, dir);
    w.SnapshotTarget(dir, "pre-merge", req.source, world.snapshotAt);
    writes := WriteTarget(w, dir, before, source, req, world.applyFault);
    e := if world.applyFault.Some? then Some(ApplyFailed) else None;
  }

  /** The disk after the registry mark and the removal of the intent, as far as
      they got. */
  function Finished(t: CharTable, run: Run, d: Disk, e: Option<MergeError>): Disk
    requires run.mark.Some?
  {
    if e == None then Do(t, run, ClearIntent, Do(t, run, Mark(run.mark.value), d))
    else if e == Some(IntentClearFailed) then Do(t, run, Mark(run.mark.value), d)
    else d
  }

  /** The fourth look at the token, the registry mark and the removal of the intent. */
  method FinishRun(w: Workspace, req: Request, world: World, proposal: Option<string>, ghost writes: seq<GraphState>)
    returns (e: Option<MergeError>)
    requires !w.store.locked
    modifies w`intents, w.store
    ensures !w.store.locked && e == FinishError(req, world, old(w.store.branches)) && !BeforeSnapshot(e)
    ensures w.OnDisk() == Finished(w.chars, RunWith(req, world, proposal, writes), old(w.OnDisk()), e)
  {
    if world.cancelledFrom <= 3 {
      return Some(Cancelled);
    }
    var registry := new R.BranchRegistry.LoadOrCreate(w.store, w.chars);
    var reply := registry.MarkMergedInto(req.source, req.who, proposal, world.mergedAt);
    if reply.Err? {
      return Some(NotRegistered);
    }
    if world.clearFails {
      return Some(IntentClearFailed);
    }
    w.ClearMergeIntent(req.source, world.startedAt);
    e := None;
  }

  /** The disk on which a run that wrote its intent returns. */
  function Reached(t: CharTable, run: Run, d: Disk, e: Option<MergeError>): Disk
    requires run.mark.Some?
  {
    Finished(t, run, Written(t, run, Do(t, run, WriteIntent, d), e), e)
  }

  /** Everything after the gates. */
  method RunProtocol(w: Workspace, req: Request, world: World, proposal: Option<string>)
    returns (e: Option<MergeError>, ghost writes: seq<GraphState>)
    requires !w.store.locked
    modifies w, w.store
    ensures !w.store.locked && e == ProtocolError(req, world, old(w.store.branches))
    ensures |writes| <= 1 && w.OnDisk() == Reached(w.chars, RunWith(req, world, proposal, writes), old(w.OnDisk()), e)
    ensures !BeforeSnapshot(e) ==> WritesOf(w.chars, req, world, old(w.graphs), writes)
  {
    w.WriteMergeIntent(MergeIntent(req.source, req.target, world.startedAt, req.source, "pre-merge"));
    e, writes := ApplyToTarget(w, req, world, proposal);
    if e.Some? {
      return e, writes;
    }
    e := FinishRun(w, req, world, proposal, writes);
  }

  // ---- The points of the protocol ----

  lemma FirstSteps(t: CharTable, run: Run, d: Disk, e: Option<MergeError>)
    requires |run.writes| <= 1
    ensures After(t, run, d, if BeforeSnapshot(e) then 1 else 2 + |run.writes|) ==
      Written(t, run, Do(t, run, WriteIntent, d), e)
  {
    assert After(t, run, d, 0) == d;
    assert After(t, run, d, 1) == Do(t, run, WriteIntent, d);
    assert After(t, run, d, 2) == Do(t, run, TakeSnapshot, After(t, run, d, 1));
    if run.writes != [] {
      assert After(t, run, d, 3) == Do(t, run, WriteGraph(run.writes[0]), After(t, run, d, 2));
    }
  }

  lemma LastSteps(t: CharTable, run: Run, d: Disk, e: Option<MergeError>)
    requires run.mark.Some? && !BeforeSnapshot(e)
    ensures After(t, run, d, ProtocolSteps(e, run.writes)) == Finished(t, run, After(t, run, d, |run.writes| + 2), e)
  {
  }

  /** However a run that wrote its intent returns, it leaves the disk at a point of
      the protocol. */
  lemma ReachedIsProtocolPoint(t: CharTable, run: Run, d: Disk, e: Option<MergeError>)
    requires |run.writes| <= 1 && run.mark.Some?
    ensures ProtocolSteps(e, run.writes) <= Length(run)
    ensures After(t, run, d, ProtocolSteps(e, run.writes)) == Reached(t, run, d, e)
  {
    FirstSteps(t, run, d, e);
    if !BeforeSnapshot(e) {
      LastSteps(t, run, d, e);
    }
  }

  /** The disk on which any run returns. */
  function Left(t: CharTable, req: Request, world: World, d: Disk, writes: seq<GraphState>): Disk {
    var gate := GateError(req, world, d.branches);
    if gate == Some(EphemeralAbandoned) then
      d.(branches := MarkedBranches(t, d.branches, R.Abandon(req.source, world.abandonAt)))
    else if gate.Some? || world.intentFails then d
    else Reached(t, RunFor(req, world, d.branches, writes), d, ProtocolError(req, world, d.branches))
  }

  /** Unless the source is ephemeral, that is exactly a point of the protocol. */
  lemma LeftIsProtocolPoint(t: CharTable, req: Request, world: World, d: Disk, writes: seq<GraphState>)
    requires |writes| <= 1 && Verdict(req, world, d.branches) != Err(EphemeralAbandoned)
    ensures var run, k := RunFor(req, world, d.branches, writes), StepsDone(req, world, d.branches, writes);
      k <= Length(run) && Left(t, req, world, d, writes) == After(t, run, d, k)
  {
    ReachedIsProtocolPoint(t, RunFor(req, world, d.branches, writes), d, ProtocolError(req, world, d.branches));
  }

  /** Whatever the gates, the token and the failures do, the run returns the verdict
      and leaves the disk that goes with it. */
  method ExecuteMergeIntoCancellable(w: Workspace, req: Request, world: World)
    returns (r: Result<(), MergeError>, ghost writes: seq<GraphState>)
    requires !w.store.locked
    modifies w, w.store
    ensures r == Verdict(req, world, old(w.store.branches)) && !w.store.locked
    ensures |writes| <= 1 && w.OnDisk() == Left(w.chars, req, world, old(w.OnDisk()), writes)
    ensures StepsDone(req, world, old(w.store.branches), writes) >= 2 ==>
      WritesOf(w.chars, req, world, old(w.graphs), writes)
  {
    writes := [];
    var gate, proposal := CheckGates(w, req, world);
    if gate.Some? {
      return Err(gate.value), writes;
    }
    if world.intentFails {
      return Err(IntentWriteFailed), writes;
    }
    var e;
    e, writes := RunProtocol(w, req, world, proposal);
    r := if e == None then Ok(()) else Err(e.value);
  }

  // ---- What the outcomes mean ----

  /** An error before the intent, be it a gate, a token seen by one of the first three
      checks or a failing intent write, leaves graphs, files and intents as they were.
      It changes the registry exactly when an ephemeral source is abandoned, and then
      in that one entry's status and log. */
  lemma EarlyErrorTouchesNoGraph(t: CharTable, req: Request, world: World, d: Disk, writes: seq<GraphState>)
    requires GateError(req, world, d.branches).Some? || world.intentFails
    ensures var v, e, found := Verdict(req, world, d.branches), Left(t, req, world, d, writes),
                               R.FindActive(d.branches, req.source);
      && v.Err? && e == d.(branches := e.branches)
      && (v.error == EphemeralAbandoned <==> e.branches != d.branches)
      && (e.branches != d.branches ==>
            found.Some? && |e.branches| == |d.branches|
            && AbandonedAs(d.branches[found.value], e.branches[found.value], world.abandonAt)
            && forall j | 0 <= j < |d.branches| && j != found.value :: e.branches[j] == d.branches[j])
  {
    if GateError(req, world, d.branches) == Some(EphemeralAbandoned) {
      AbandonClosesOne(t, d.branches, req.source, world.abandonAt);
    }
  }

  predicate AbandonedAs(before: R.BranchRef, after: R.BranchRef, at: int) {
    after.status == R.Abandoned(at) && after == before.(status := after.status, events := after.events)
    && after.events != [] && after.events[|after.events| - 1] == R.AbandonedEvent(at, "system")
  }

  lemma AbandonClosesOne(t: CharTable, branches: seq<R.BranchRef>, name: string, at: int)
    requires R.FindActive(branches, name).Some?
    ensures var i, after := R.FindActive(branches, name).value, MarkedBranches(t, branches, R.Abandon(name, at));
      && |after| == |branches| && after != branches && AbandonedAs(branches[i], after[i], at)
      && forall j | 0 <= j < |branches| && j != i :: after[j] == branches[j]
  {
    var i := R.FindActive(branches, name).value;
    assert branches[i].status == R.Active;
    assert MarkedBranches(t, branches, R.Abandon(name, at))[i].status == R.Abandoned(at);
  }

  lemma StepsOfVerdict(req: Request, world: World, branches: seq<R.BranchRef>, writes: seq<GraphState>)
    ensures Verdict(req, world, branches) == Err(Cancelled) && world.cancelledFrom >= 3 ==>
      StepsDone(req, world, branches, writes) == |writes| + 2
  {
  }

  /** Cancelled after apply: this run's intent and its own snapshot, with the graph
      from before, are on disk, and the registry has not moved. */
  lemma LateCancelIsRecoverable(t: CharTable, req: Request, world: World, d: Disk, writes: seq<GraphState>)
    requires Verdict(req, world, d.branches) == Err(Cancelled) && world.cancelledFrom >= 3 && |writes| <= 1
    requires DirAt(d, ResolveDataDir(t, req.target)).graph.Some?
    ensures var run, e := RunFor(req, world, d.branches, writes), Left(t, req, world, d, writes);
      var files := DirAt(e, Target(t, run)).files;
      && e.branches == d.branches
      && run.intent in e.intents
      && OwnSnapshot(t, run) in files && Some(files[OwnSnapshot(t, run)]) == DirAt(d, Target(t, run)).graph
  {
    var run, k := RunFor(req, world, d.branches, writes), |writes| + 2;
    LeftIsProtocolPoint(t, req, world, d, writes);
    StepsOfVerdict(req, world, d.branches, writes);
    RecordsAfter(t, run, d, k);
    TargetAfter(t, run, d, k);
  }

  /** The graph that the apply loops make of the target's, for this request. */
  ghost predicate IsMerged(t: CharTable, req: Request, d: Disk, g: GraphState) {
    A.MergeOf(GraphIn(d.graphs, ResolveDataDir(t, req.target)), GraphIn(d.graphs, ResolveDataDir(t, Some(req.source))),
              req.diff, req.propagate, g)
  }

  /** A run that succeeds wrote once, and what it wrote is the merge. */
  lemma SuccessWritesMerge(t: CharTable, req: Request, world: World, d: Disk, writes: seq<GraphState>)
    requires Verdict(req, world, d.branches).Ok? && WritesOf(t, req, world, d.graphs, writes)
    ensures |writes| == 1 && IsMerged(t, req, d, writes[0])
  {
    assert world.applyFault == None;
  }

  /** Only a run that succeeds takes every step. */
  lemma AllStepsIffOk(req: Request, world: World, branches: seq<R.BranchRef>, writes: seq<GraphState>)
    ensures StepsDone(req, world, branches, writes) == Length(RunFor(req, world, branches, writes)) <==>
      Verdict(req, world, branches).Ok?
  {
  }

  /** The log ends with this merge, under the approved proposal if the source's policy
      asks for one, and under none otherwise. */
  ghost predicate LogsMerge(req: Request, world: World, branches: seq<R.BranchRef>, i: nat, log: seq<R.BranchEvent>)
    requires i < |branches|
  {
    && log != [] && log[|log| - 1].MergedEvent?
    && log[|log| - 1].at == world.mergedAt && log[|log| - 1].actor == R.MergerIdentity(req.who)
    && log[|log| - 1].proposal ==
         if branches[i].mergePolicy.RequiresProposal? && world.proposal.Approved? then Some(world.proposal.id) else None
  }

  lemma SuccessIsLogged(t: CharTable, req: Request, world: World, branches: seq<R.BranchRef>, i: nat)
    requires R.FindActive(branches, req.source) == Some(i)
    ensures var op := R.MarkMerged(req.source, req.who, AuthorisedBy(req, world, branches), world.mergedAt);
      LogsMerge(req, world, branches, i, MarkedBranches(t, branches, op)[i].events)
  {
    MarkedEvent(t, branches, R.MarkMerged(req.source, req.who, AuthorisedBy(req, world, branches), world.mergedAt), i);
  }

  lemma AllStepsDone(t: CharTable, run: Run, d: Disk, i: nat, who: R.MergedBy, at: int)
    requires |run.writes| == 1 && Merges(run, who, at) && R.FindActive(d.branches, run.intent.sourceBranch) == Some(i)
    ensures var e := After(t, run, d, Length(run));
      && DirAt(e, Target(t, run)).graph == Some(run.writes[0])
      && (forall other | other != Target(t, run) :: DirAt(e, other) == DirAt(d, other))
      && run.intent !in e.intents
      && e.branches == MarkedBranches(t, d.branches, run.mark.value)
      && i < |e.branches| && e.branches[i].status == R.Merged(at, who)
  {
    AfterExactly(t, run, d, Length(run));
    MarkedStatus(t, run, d.branches, i, who, at);
  }

  /** What a merge of this request leaves of the target: everything, but for the files
      that the branch lacks if those are to go. */
  ghost predicate KeepsAsAsked(t: CharTable, req: Request, d: Disk, g: GraphState) {
    A.MergeLeaves(GraphIn(d.graphs, ResolveDataDir(t, req.target)),
                  GraphIn(d.graphs, ResolveDataDir(t, Some(req.source))), req.diff, req.propagate, g)
  }

  lemma MergedKeepsAsAsked(t: CharTable, req: Request, d: Disk, g: GraphState)
    requires IsMerged(t, req, d, g)
    ensures KeepsAsAsked(t, req, d, g)
  {
    A.MergeMeans(GraphIn(d.graphs, ResolveDataDir(t, req.target)),
                 GraphIn(d.graphs, ResolveDataDir(t, Some(req.source))), req.diff, req.propagate, g);
  }

  /** Success: the target holds what the apply loops make of the old graphs, deleted
      files gone if asked for and only then, every other directory is as it was, the
      branch is merged and its log says so, and no intent of this run is left. */
  lemma SuccessIsComplete(t: CharTable, req: Request, world: World, d: Disk, writes: seq<GraphState>, i: nat)
    requires Verdict(req, world, d.branches).Ok? && R.FindActive(d.branches, req.source) == Some(i)
    requires WritesOf(t, req, world, d.graphs, writes)
    ensures var run, e := RunFor(req, world, d.branches, writes), Left(t, req, world, d, writes);
      var merged := DirAt(e, ResolveDataDir(t, req.target)).graph;
      && merged.Some? && IsMerged(t, req, d, merged.value) && KeepsAsAsked(t, req, d, merged.value)
      && (forall other | other != ResolveDataDir(t, req.target) :: DirAt(e, other) == DirAt(d, other))
      && run.intent !in e.intents
      && i < |e.branches| && e.branches[i].status == R.Merged(world.mergedAt, req.who)
      && LogsMerge(req, world, d.branches, i, e.branches[i].events)
  {
    var run := RunFor(req, world, d.branches, writes);
    SuccessWritesMerge(t, req, world, d, writes);
    LeftIsProtocolPoint(t, req, world, d, writes);
    AllStepsIffOk(req, world, d.branches, writes);
    AllStepsDone(t, run, d, i, req.who, world.mergedAt);
    SuccessIsLogged(t, req, world, d.branches, i);
    MergedKeepsAsAsked(t, req, d, writes[0]);
  }

  /** The registry that a run leaves, by its verdict. */
  function LeftBranches(t: CharTable, req: Request, world: World, branches: seq<R.BranchRef>): seq<R.BranchRef> {
    match Verdict(req, world, branches)
    case Err(EphemeralAbandoned) => MarkedBranches(t, branches, R.Abandon(req.source, world.abandonAt))
    case Err(IntentClearFailed) => MarkedBranches(t, branches, RunFor(req, world, branches, []).mark.value)
    case Ok(_) => MarkedBranches(t, branches, RunFor(req, world, branches, []).mark.value)
    case Err(_) => branches
  }

  lemma LeftBranchesAfter(t: CharTable, req: Request, world: World, d: Disk, writes: seq<GraphState>)
    requires Verdict(req, world, d.branches) != Err(EphemeralAbandoned)
    ensures var k := StepsDone(req, world, d.branches, writes);
      BranchesAfter(t, RunFor(req, world, d.branches, writes), d, k) == LeftBranches(t, req, world, d.branches)
  {
  }

  lemma PointRecovers(t: CharTable, run: Run, d: Disk, k: nat, finished: bool)
    requires |run.writes| <= 1 && k <= Length(run) && (finished <==> k == Length(run))
      && (finished ==> run.writes != [])
    requires d.intents == [] && DirAt(d, Target(t, run)).graph.Some?
    requires NoMatch(DirAt(d, Target(t, run)).files, Prefix(t, run))
    ensures var r, dir := Recovered(t, After(t, run, d, k)), Target(t, run);
      && r.intents == [] && r.branches == BranchesAfter(t, run, d, k)
      && DirAt(r, dir).graph == (if finished then Some(run.writes[0]) else DirAt(d, dir).graph)
      && forall other | other != dir :: DirAt(r, other) == DirAt(d, other)
  {
    CrashAtomic(t, run, d, k);
  }

  lemma LeftRecovers(t: CharTable, req: Request, world: World, d: Disk, writes: seq<GraphState>)
    requires |writes| <= 1 && d.intents == [] && DirAt(d, ResolveDataDir(t, req.target)).graph.Some?
    requires NoMatch(DirAt(d, ResolveDataDir(t, req.target)).files, SnapshotPrefix(t, "pre-merge", req.source))
    requires Verdict(req, world, d.branches) != Err(EphemeralAbandoned)
    requires Verdict(req, world, d.branches).Ok? ==> writes != []
    ensures var r, dir := Recovered(t, Left(t, req, world, d, writes)), ResolveDataDir(t, req.target);
      && r.intents == [] && r.branches == LeftBranches(t, req, world, d.branches)
      && DirAt(r, dir).graph ==
           (if Verdict(req, world, d.branches).Ok? then Some(writes[0]) else DirAt(d, dir).graph)
      && forall other | other != dir :: DirAt(r, other) == DirAt(d, other)
  {
    var run, k := RunFor(req, world, d.branches, writes), StepsDone(req, world, d.branches, writes);
    LeftIsProtocolPoint(t, req, world, d, writes);
    LeftBranchesAfter(t, req, world, d, writes);
    AllStepsIffOk(req, world, d.branches, writes);
    PointRecovers(t, run, d, k, Verdict(req, world, d.branches).Ok?);
  }

  lemma NothingToRecover(t: CharTable, d: Disk)
    requires d.intents == []
    ensures Recovered(t, d) == d
  {
  }

  /** Recovery after any outcome whatever: no intent is left, the target holds the
      merge when the run succeeded and its old graph when it did not, no other
      directory has changed, and the registry is as the run left it. */
  lemma RecoveryAfterAnyOutcome(t: CharTable, req: Request, world: World, d: Disk, writes: seq<GraphState>)
    requires d.intents == [] && DirAt(d, ResolveDataDir(t, req.target)).graph.Some?
    requires NoMatch(DirAt(d, ResolveDataDir(t, req.target)).files, SnapshotPrefix(t, "pre-merge", req.source))
    requires |writes| <= 1 && (Verdict(req, world, d.branches).Ok? ==> WritesOf(t, req, world, d.graphs, writes))
    ensures var r, dir := Recovered(t, Left(t, req, world, d, writes)), ResolveDataDir(t, req.target);
      var now := DirAt(r, dir).graph;
      && r.intents == [] && r.branches == LeftBranches(t, req, world, d.branches)
      && (if Verdict(req, world, d.branches).Ok? then now.Some? && IsMerged(t, req, d, now.value)
          else now == DirAt(d, dir).graph)
      && forall other | other != dir :: DirAt(r, other) == DirAt(d, other)
  {
    if Verdict(req, world, d.branches) == Err(EphemeralAbandoned) {
      NothingToRecover(t, Left(t, req, world, d, writes));
    } else {
      if Verdict(req, world, d.branches).Ok? {
        SuccessWritesMerge(t, req, world, d, writes);
      }
      LeftRecovers(t, req, world, d, writes);
    }
  }

  // ---- The policy a branch was created with ----

  /** A branch still active has the merge policy it was created with, whatever happened
      in the registry since. */
  lemma PolicyAsCreated(t: CharTable, before: seq<R.BranchRef>, create: R.Op, later: seq<R.Op>)
    requires create.Create? && R.WellLogged(before)
    requires R.Apply(R.Config(t, Some(R.MAX_EVENTS)), before, create).reply.Ok?
    ensures var cfg := R.Config(t, Some(R.MAX_EVENTS));
      var now := R.Run(cfg, R.Apply(cfg, before, create).branches, later);
      && |before| < |now|
      && (now[|before|].status == R.Active ==> Policy(now, create.name) == create.policy)
  {
    var cfg := R.Config(t, Some(R.MAX_EVENTS));
    var start := R.Apply(cfg, before, create).branches;
    R.ApplyCreates(cfg, before, create);
    R.ApplyKeepsLogs(cfg, before, create);
    R.RunKeepsLogs(cfg, start, later);
    R.RunPreserves(cfg, start, later);
    if R.Run(cfg, start, later)[|before|].status == R.Active {
      ActiveIsFound(R.Run(cfg, start, later), |before|);
    }
  }

  lemma ActiveIsFound(branches: seq<R.BranchRef>, i: nat)
    requires R.OneActivePerName(branches) && i < |branches| && branches[i].status == R.Active
    ensures R.FindActive(branches, branches[i].name) == Some(i)
  {
    assert branches[i] in branches;
  }

  /** So a branch created to merge under review never merges without an approved
      proposal, and an ephemeral one never merges at all. */
  lemma CreatedPolicyGuards(t: CharTable, before: seq<R.BranchRef>, create: R.Op, later: seq<R.Op>,
                            req: Request, world: World)
    requires create.Create? && R.WellLogged(before) && req.source == create.name
    requires R.Apply(R.Config(t, Some(R.MAX_EVENTS)), before, create).reply.Ok?
    requires create.policy.Ephemeral? || (create.policy.RequiresProposal? && !world.proposal.Approved?)
    ensures var cfg := R.Config(t, Some(R.MAX_EVENTS));
      var now := R.Run(cfg, R.Apply(cfg, before, create).branches, later);
      && |before| < |now|
      && (now[|before|].status == R.Active ==> Verdict(req, world, now).Err?)
  {
    PolicyAsCreated(t, before, create, later);
  }
}
