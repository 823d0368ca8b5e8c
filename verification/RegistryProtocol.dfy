/** Many processes sharing one registry file: every mutator takes the registry
    lock, reloads the file, edits its copy, saves and releases.  The steps of
    different processes interleave freely, copies may be arbitrarily stale, and
    a process may die at any step (the system then drops its lock). */
module RegistryProtocol {
  import opened Wrappers
  import opened Registry

  type Pid = nat
  type Reply = Result<BranchRef, RegistryError>

  datatype Pc =
    | Idle
    | Calling(op: Op)
    | Holding(op: Op)
    | Fresh(op: Op)
    | Edited(op: Op, reply: Reply)
    | Finished(op: Op, reply: Reply)

  datatype Proc = Proc(pc: Pc, data: seq<BranchRef>)

  /** What an observer sees: calls, their one effect on the file, and returns. */
  datatype Event =
    | Invoked(p: Pid, op: Op)
    | Committed(p: Pid, op: Op, reply: Reply)
    | Returned(p: Pid, op: Op, reply: Reply)
    | Died(p: Pid)

  datatype System = System(file: seq<BranchRef>, lock: Option<Pid>, procs: map<Pid, Proc>, trace: seq<Event>)

  datatype Action =
    | Invoke(p: Pid, op: Op)   // a caller enters a mutator
    | Peek(p: Pid)             // `load_or_create`: an unlocked read
    | Acquire(p: Pid)
    | Reload(p: Pid)
    | EditCopy(p: Pid)
    | Save(p: Pid)
    | Release(p: Pid)
    | Die(p: Pid, leftover: seq<BranchRef>)

  predicate Enabled(s: System, a: Action) {
    && a.p in s.procs
    && var pc := s.procs[a.p].pc;
       match a
       case Invoke(_, _) => pc.Idle?
       case Peek(_) => pc.Idle?
       case Acquire(_) => pc.Calling? && s.lock == None
       case Reload(_) => pc.Holding?
       case EditCopy(_) => pc.Fresh?
       case Save(_) => pc.Edited?
       case Release(_) => pc.Finished?
       case Die(_, _) => true
  }

  function Step(cfg: Config, s: System, a: Action): System
    requires Enabled(s, a)
  {
    var proc := s.procs[a.p];
    match a
    case Invoke(p, op) =>
      s.(procs := s.procs[p := proc.(pc := Calling(op))], trace := s.trace + [Invoked(p, op)])
    case Peek(p) =>
      s.(procs := s.procs[p := proc.(data := s.file)])
    case Acquire(p) =>
      s.(procs := s.procs[p := proc.(pc := Holding(proc.pc.op))], lock := Some(p))
    case Reload(p) =>
      s.(procs := s.procs[p := Proc(Fresh(proc.pc.op), s.file)])
    case EditCopy(p) =>
      var op := proc.pc.op;
      var result := Apply(cfg, proc.data, op);
      if result.reply.Ok? then
        s.(procs := s.procs[p := Proc(Edited(op, result.reply), result.branches)])
      else
        s.(procs := s.procs[p := proc.(pc := Finished(op, result.reply))],
           trace := s.trace + [Committed(p, op, result.reply)])
    case Save(p) =>
      s.(file := proc.data,
         procs := s.procs[p := proc.(pc := Finished(proc.pc.op, proc.pc.reply))],
         trace := s.trace + [Committed(p, proc.pc.op, proc.pc.reply)])
    case Release(p) =>
      s.(lock := None, procs := s.procs[p := proc.(pc := Idle)],
         trace := s.trace + [Returned(p, proc.pc.op, proc.pc.reply)])
    case Die(p, leftover) =>
      s.(lock := if s.lock == Some(p) then None else s.lock,
         procs := s.procs[p := Proc(Idle, leftover)],
         trace := s.trace + [Died(p)])
  }

  // ---- The sequential history a trace stands for ----

  function CommittedOps(trace: seq<Event>): seq<Op> {
    if trace == [] then []
    else
      var before := CommittedOps(trace[..|trace| - 1]);
      var e := trace[|trace| - 1];
      if e.Committed? then before + [e.op] else before
  }

  /** Each reply is the one the sequential registry gives at that point. */
  ghost predicate RepliesAreSequential(cfg: Config, init: seq<BranchRef>, trace: seq<Event>) {
    forall i | 0 <= i < |trace| && trace[i].Committed? ::
      trace[i].reply == Apply(cfg, Run(cfg, init, CommittedOps(trace[..i])), trace[i].op).reply
  }

  /** Where one process stands according to the trace. */
  datatype CallState = NoCall | Pending(op: Op) | Effected(op: Op, reply: Reply) | Broken

  function CallAfter(c: CallState, p: Pid, e: Event): CallState {
    if e.p != p then c
    else match e
      case Invoked(_, op) => if c == NoCall then Pending(op) else Broken
      case Committed(_, op, reply) => if c == Pending(op) then Effected(op, reply) else Broken
      case Returned(_, op, reply) => if c == Effected(op, reply) then NoCall else Broken
      case Died(_) => NoCall
  }

  /** Folding a trace: a call is invoked, takes effect once with some reply, and
      returns that same reply; `Broken` if the trace ever says otherwise. */
  function CallOf(trace: seq<Event>, p: Pid): CallState {
    if trace == [] then NoCall else CallAfter(CallOf(trace[..|trace| - 1], p), p, trace[|trace| - 1])
  }

  function CallAt(pc: Pc): CallState {
    match pc
    case Idle => NoCall
    case Calling(op) => Pending(op)
    case Holding(op) => Pending(op)
    case Fresh(op) => Pending(op)
    case Edited(op, _) => Pending(op)
    case Finished(op, reply) => Effected(op, reply)
  }

  // ---- The invariant ----

  predicate Critical(pc: Pc) {
    pc.Holding? || pc.Fresh? || pc.Edited? || pc.Finished?
  }

  ghost predicate CopyIsCurrent(cfg: Config, s: System, p: Pid)
    requires p in s.procs
  {
    var proc := s.procs[p];
    match proc.pc
    case Fresh(_) => proc.data == s.file
    case Edited(op, reply) => reply.Ok? && Outcome(proc.data, reply) == Apply(cfg, s.file, op)
    case _ => true
  }

  /** Mutual exclusion: the lock names the one process in its critical section. */
  ghost predicate LockInv(s: System) {
    forall p | p in s.procs :: Critical(s.procs[p].pc) <==> s.lock == Some(p)
  }

  ghost predicate CopyInv(cfg: Config, s: System) {
    forall p | p in s.procs :: CopyIsCurrent(cfg, s, p)
  }

  ghost predicate CallInv(s: System) {
    forall p | p in s.procs :: CallOf(s.trace, p) == CallAt(s.procs[p].pc)
  }

  ghost predicate HistoryInv(cfg: Config, init: seq<BranchRef>, s: System) {
    s.file == Run(cfg, init, CommittedOps(s.trace)) && RepliesAreSequential(cfg, init, s.trace)
  }

  ghost predicate Inv(cfg: Config, init: seq<BranchRef>, s: System) {
    LockInv(s) && CopyInv(cfg, s) && CallInv(s) && HistoryInv(cfg, init, s)
  }

  ghost predicate Initial(init: seq<BranchRef>, s: System) {
    && s.file == init && s.lock == None && s.trace == []
    && forall p | p in s.procs :: s.procs[p].pc == Idle
  }

  lemma {:induction false} RunConcat(cfg: Config, bs: seq<BranchRef>, a: seq<Op>, b: seq<Op>)
    ensures Run(cfg, bs, a + b) == Run(cfg, Run(cfg, bs, a), b)
    decreases a
  {
    if a == [] {
      assert a + b == b;
    } else {
      assert (a + b)[1..] == a[1..] + b;
      RunConcat(cfg, Apply(cfg, bs, a[0]).branches, a[1..], b);
    }
  }

  /** A commit extends the sequential history by its operation. */
  lemma CommitExtendsHistory(cfg: Config, init: seq<BranchRef>, s: System, p: Pid, op: Op, reply: Reply)
    requires s.file == Run(cfg, init, CommittedOps(s.trace)) && RepliesAreSequential(cfg, init, s.trace)
    requires reply == Apply(cfg, s.file, op).reply
    ensures var trace := s.trace + [Committed(p, op, reply)];
      && Run(cfg, init, CommittedOps(trace)) == Apply(cfg, s.file, op).branches
      && RepliesAreSequential(cfg, init, trace)
  {
    var trace := s.trace + [Committed(p, op, reply)];
    assert trace[..|s.trace|] == s.trace;
    RunSnoc(cfg, init, CommittedOps(s.trace), op);
    forall i | 0 <= i < |trace| && trace[i].Committed?
      ensures trace[i].reply == Apply(cfg, Run(cfg, init, CommittedOps(trace[..i])), trace[i].op).reply
    {
      assert trace[..i] == s.trace[..i];
      if i < |s.trace| { assert trace[i] == s.trace[i]; }
    }
  }

  /** Any other event leaves the sequential history as it was. */
  lemma OtherEventKeepsHistory(cfg: Config, init: seq<BranchRef>, trace0: seq<Event>, e: Event)
    requires !e.Committed? && RepliesAreSequential(cfg, init, trace0)
    ensures CommittedOps(trace0 + [e]) == CommittedOps(trace0)
    ensures RepliesAreSequential(cfg, init, trace0 + [e])
  {
    var trace := trace0 + [e];
    assert trace[..|trace0|] == trace0;
    forall i | 0 <= i < |trace| && trace[i].Committed?
      ensures trace[i].reply == Apply(cfg, Run(cfg, init, CommittedOps(trace[..i])), trace[i].op).reply
    {
      assert trace[..i] == trace0[..i] && trace[i] == trace0[i];
    }
  }

  lemma CallsAfter(trace: seq<Event>, e: Event)
    ensures forall p :: CallOf(trace + [e], p) == CallAfter(CallOf(trace, p), p, e)
  {
    assert (trace + [e])[..|trace|] == trace;
  }

  lemma StepKeepsLock(cfg: Config, s: System, a: Action)
    requires LockInv(s) && Enabled(s, a)
    ensures LockInv(Step(cfg, s, a))
  {
  }

  lemma StepKeepsCopies(cfg: Config, s: System, a: Action)
    requires LockInv(s) && CopyInv(cfg, s) && Enabled(s, a)
    ensures CopyInv(cfg, Step(cfg, s, a))
  {
    var t := Step(cfg, s, a);
    forall q | q in t.procs ensures CopyIsCurrent(cfg, t, q) {
      assert CopyIsCurrent(cfg, s, q);
      if q != a.p {
        assert t.procs[q] == s.procs[q];
        assert t.file == s.file || !Critical(s.procs[q].pc);
      }
    }
  }

  lemma StepKeepsCalls(cfg: Config, s: System, a: Action)
    requires CallInv(s) && Enabled(s, a)
    ensures CallInv(Step(cfg, s, a))
  {
    var t := Step(cfg, s, a);
    if t.trace != s.trace {
      CallsAfter(s.trace, t.trace[|s.trace|]);
      assert t.trace == s.trace + [t.trace[|s.trace|]];
    }
    forall q | q in t.procs ensures CallOf(t.trace, q) == CallAt(t.procs[q].pc) {
      assert CallOf(s.trace, q) == CallAt(s.procs[q].pc);
    }
  }

  lemma StepKeepsHistory(cfg: Config, init: seq<BranchRef>, s: System, a: Action)
    requires CopyInv(cfg, s) && HistoryInv(cfg, init, s) && Enabled(s, a)
    ensures HistoryInv(cfg, init, Step(cfg, s, a))
  {
    var proc, p := s.procs[a.p], a.p;
    assert CopyIsCurrent(cfg, s, p);
    match a {
      case Invoke(_, op) =>
        OtherEventKeepsHistory(cfg, init, s.trace, Invoked(p, op));
      case EditCopy(_) =>
        var op, result := proc.pc.op, Apply(cfg, s.file, proc.pc.op);
        if result.reply.Err? {
          RefusedChangesNothing(cfg, s.file, op);
          CommitExtendsHistory(cfg, init, s, p, op, result.reply);
        }
      case Save(_) =>
        CommitExtendsHistory(cfg, init, s, p, proc.pc.op, proc.pc.reply);
      case Release(_) =>
        OtherEventKeepsHistory(cfg, init, s.trace, Returned(p, proc.pc.op, proc.pc.reply));
      case Die(_, _) =>
        OtherEventKeepsHistory(cfg, init, s.trace, Died(p));
      case _ =>
    }
  }

  lemma RefusedChangesNothing(cfg: Config, bs: seq<BranchRef>, op: Op)
    requires Apply(cfg, bs, op).reply.Err?
    ensures Apply(cfg, bs, op).branches == bs
  {
  }

  lemma StepKeepsInv(cfg: Config, init: seq<BranchRef>, s: System, a: Action)
    requires Inv(cfg, init, s) && Enabled(s, a)
    ensures Inv(cfg, init, Step(cfg, s, a))
  {
    StepKeepsLock(cfg, s, a);
    StepKeepsCopies(cfg, s, a);
    StepKeepsCalls(cfg, s, a);
    StepKeepsHistory(cfg, init, s, a);
  }

  // ---- Whole runs ----

  ghost predicate IsRun(cfg: Config, states: seq<System>, actions: seq<Action>) {
    && |states| == |actions| + 1
    && forall i | 0 <= i < |actions| ::
      Enabled(states[i], actions[i]) && states[i + 1] == Step(cfg, states[i], actions[i])
  }

  lemma {:induction false} InvAlongRun(cfg: Config, init: seq<BranchRef>, states: seq<System>, actions: seq<Action>,
                                       n: nat)
    requires IsRun(cfg, states, actions) && Initial(init, states[0]) && n < |states|
    ensures Inv(cfg, init, states[n])
  {
    if n > 0 {
      InvAlongRun(cfg, init, states, actions, n - 1);
      StepKeepsInv(cfg, init, states[n - 1], actions[n - 1]);
    }
  }

  /** Linearizability.  In every interleaving the file is the sequential run of
      the committed calls in commit order, every call that takes effect gets the
      reply the sequential registry gives at that point, and it takes effect
      once, between its invocation and its return, which carries that reply. */
  lemma Linearizable(cfg: Config, init: seq<BranchRef>, states: seq<System>, actions: seq<Action>, n: nat)
    requires IsRun(cfg, states, actions) && Initial(init, states[0]) && n < |states|
    ensures var s := states[n];
      && s.file == Run(cfg, init, CommittedOps(s.trace))
      && RepliesAreSequential(cfg, init, s.trace)
      && forall p | p in s.procs :: CallOf(s.trace, p) != Broken
  {
    InvAlongRun(cfg, init, states, actions, n);
    forall p | p in states[n].procs ensures CallOf(states[n].trace, p) != Broken {
      assert CallOf(states[n].trace, p) == CallAt(states[n].procs[p].pc);
    }
  }

  lemma {:induction false} TraceGrows(cfg: Config, states: seq<System>, actions: seq<Action>, m: nat, n: nat)
    requires IsRun(cfg, states, actions) && m <= n < |states|
    ensures states[m].trace <= states[n].trace
  {
    if m < n {
      TraceGrows(cfg, states, actions, m, n - 1);
      assert states[n - 1].trace <= Step(cfg, states[n - 1], actions[n - 1]).trace;
    }
  }

  lemma {:induction false} CommittedPrefix(a: seq<Event>, b: seq<Event>)
    requires a <= b
    ensures CommittedOps(a) <= CommittedOps(b)
  {
    if |a| < |b| {
      CommittedPrefix(a, b[..|b| - 1]);
    } else {
      assert a == b;
    }
  }

  /** Operations on other names leave an entry exactly as it was. */
  lemma {:induction false} OthersLeaveEntry(cfg: Config, bs: seq<BranchRef>, ops: seq<Op>, i: nat)
    requires i < |bs| && forall op | op in ops :: op.name != bs[i].name
    ensures i < |Run(cfg, bs, ops)| && Run(cfg, bs, ops)[i] == bs[i]
    decreases ops
  {
    if ops != [] {
      assert ops[0] in ops && forall op | op in ops[1..] :: op in ops;
      OthersLeaveEntry(cfg, Apply(cfg, bs, ops[0]).branches, ops[1..], i);
    }
  }

  /** No update is lost: between two moments of a run the file moves by exactly the
      calls committed in between, in that order, whoever made them.  So every entry is
      still there, closed branches are unchanged, and an entry none of those calls
      names still has every field a setter gave it. */
  lemma NoUpdateLost(cfg: Config, init: seq<BranchRef>, states: seq<System>, actions: seq<Action>, m: nat, n: nat)
    requires IsRun(cfg, states, actions) && Initial(init, states[0]) && m <= n < |states|
    ensures var early, late := CommittedOps(states[m].trace), CommittedOps(states[n].trace);
      var before, after := states[m].file, states[n].file;
      && early <= late && after == Run(cfg, before, late[|early|..])
      && Preserves(before, after)
      && forall i | 0 <= i < |before| && (forall op | op in late[|early|..] :: op.name != before[i].name) ::
           i < |after| && after[i] == before[i]
  {
    InvAlongRun(cfg, init, states, actions, m);
    InvAlongRun(cfg, init, states, actions, n);
    TraceGrows(cfg, states, actions, m, n);
    var early, late := CommittedOps(states[m].trace), CommittedOps(states[n].trace);
    CommittedPrefix(states[m].trace, states[n].trace);
    assert late == early + late[|early|..];
    RunConcat(cfg, init, early, late[|early|..]);
    RunPreserves(cfg, states[m].file, late[|early|..]);
    forall i | 0 <= i < |states[m].file| && (forall op | op in late[|early|..] :: op.name != states[m].file[i].name)
      ensures i < |states[n].file| && states[n].file[i] == states[m].file[i]
    {
      OthersLeaveEntry(cfg, states[m].file, late[|early|..], i);
    }
  }
}
