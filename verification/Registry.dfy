/** The branch registry: `branches.toml`, its mutators and the audit log each
    entry carries. */
module Registry {
  import opened Wrappers
  import opened Text

  datatype MergedBy =
    | Human(user: string)
    | Agent(agentId: string)
    | Connector(connectorId: string, installId: string)
    | System

  function MergerIdentity(who: MergedBy): string {
    match who
    case Human(user) => user
    case Agent(agentId) => agentId
    case Connector(connectorId, installId) => connectorId + ":" + installId
    case System => "system"
  }

  datatype BranchStatus = Active | Merged(mergedAt: int, mergedBy: MergedBy) | Abandoned(abandonedAt: int)

  datatype BranchEvent =
    | CreatedEvent(at: int, actor: string, parent: string)
    | MergedEvent(at: int, actor: string, into: string, proposal: Option<string>)
    | AbandonedEvent(at: int, actor: string)
    | RedactionEvent(at: int, actor: string, enabled: bool)

  datatype MergePolicy = Manual | AutoOnSessionEnd | Ephemeral | RequiresProposal(minReviewers: nat)

  datatype BranchRef = BranchRef(
    name: string,
    slug: string,
    parent: string,
    createdAt: int,
    status: BranchStatus,
    description: Option<string>,
    owner: Option<string>,
    mergePolicy: MergePolicy,
    redaction: Option<string>,
    parentCommitHash: Option<string>,
    maxAgeSecs: Option<nat>,
    events: seq<BranchEvent>)

  datatype RegistryError = BranchAlreadyExists(name: string) | BranchNotFound(name: string)

  /** Character tables for slugs, and how many events an entry keeps: the code
      keeps `MAX_EVENTS`; `None` is the untrimmed log used as a yardstick. */
  datatype Config = Config(chars: CharTable, cap: Option<nat>)

  const MAX_EVENTS: nat := 1000

  /** One call of a mutator, with the clock value it reads. */
  datatype Op =
    | Create(name: string, parent: string, description: Option<string>, owner: Option<string>,
             policy: MergePolicy, redaction: Option<string>, at: int)
    | SetMaxAge(name: string, maxAgeSecs: Option<nat>)
    | SetParentHash(name: string, hash: string)
    | SetDescription(name: string, description: Option<string>)
    | SetRedaction(name: string, redaction: Option<string>, at: int)
    | MarkMerged(name: string, who: MergedBy, proposal: Option<string>, at: int)
    | Abandon(name: string, at: int)

  // ---- What each mutator does to the list of entries ----

  function LastEvents(events: seq<BranchEvent>, cap: Option<nat>): (kept: seq<BranchEvent>)
    ensures kept <= events || cap.Some?
  {
    if cap.Some? && |events| > cap.value then events[|events| - cap.value..] else events
  }

  function AppendEvent(cfg: Config, b: BranchRef, e: BranchEvent): BranchRef {
    b.(events := LastEvents(b.events + [e], cfg.cap))
  }

  predicate IsActive(b: BranchRef, name: string) {
    b.name == name && b.status == Active
  }

  function FindActive(bs: seq<BranchRef>, name: string): (i: Option<nat>)
    ensures i.Some? ==> i.value < |bs| && IsActive(bs[i.value], name)
    ensures i.Some? ==> forall j | 0 <= j < i.value :: !IsActive(bs[j], name)
    ensures i.None? ==> forall b | b in bs :: !IsActive(b, name)
  {
    if bs == [] then None
    else if IsActive(bs[0], name) then Some(0)
    else match FindActive(bs[1..], name)
      case Some(k) => Some(k + 1)
      case None => None
  }

  function FindNamed(bs: seq<BranchRef>, name: string): (i: Option<nat>)
    ensures i.Some? ==> i.value < |bs| && bs[i.value].name == name
    ensures i.Some? ==> forall j | 0 <= j < i.value :: bs[j].name != name
    ensures i.None? ==> forall b | b in bs :: b.name != name
  {
    if bs == [] then None
    else if bs[0].name == name then Some(0)
    else match FindNamed(bs[1..], name)
      case Some(k) => Some(k + 1)
      case None => None
  }

  function NewBranch(cfg: Config, op: Op): BranchRef
    requires op.Create?
  {
    var actor := if op.owner.Some? then op.owner.value else "system";
    AppendEvent(cfg,
      BranchRef(op.name, Slugify(cfg.chars, op.name), op.parent, op.at, Active, op.description, op.owner,
                op.policy, op.redaction, None, None, []),
      CreatedEvent(op.at, actor, op.parent))
  }

  /** The edit of the one active entry a setter or closer finds; `into` is the
      parent that a `Merged` event records. */
  function Edit(cfg: Config, b: BranchRef, op: Op, into: string): BranchRef
    requires !op.Create?
  {
    match op
    case SetMaxAge(_, v) => b.(maxAgeSecs := v)
    case SetParentHash(_, h) => b.(parentCommitHash := Some(h))
    case SetDescription(_, d) => b.(description := d)
    case SetRedaction(_, p, at) => AppendEvent(cfg, b.(redaction := p), RedactionEvent(at, "system", p.Some?))
    case MarkMerged(_, who, proposal, at) =>
      AppendEvent(cfg, b, MergedEvent(at, MergerIdentity(who), into, proposal)).(status := Merged(at, who))
    case Abandon(_, at) =>
      AppendEvent(cfg, b, AbandonedEvent(at, "system")).(status := Abandoned(at))
  }

  ghost predicate KeepsEvents(cfg: Config) {
    cfg.cap.Some? ==> cfg.cap.value > 0
  }

  datatype Outcome = Outcome(branches: seq<BranchRef>, reply: Result<BranchRef, RegistryError>)

  function Apply(cfg: Config, bs: seq<BranchRef>, op: Op): Outcome {
    match (op, FindActive(bs, op.name))
    case (Create(name, _, _, _, _, _, _), Some(_)) => Outcome(bs, Err(BranchAlreadyExists(name)))
    case (Create(_, _, _, _, _, _, _), None) =>
      var b := NewBranch(cfg, op);
      Outcome(bs + [b], Ok(b))
    case (_, None) => Outcome(bs, Err(BranchNotFound(op.name)))
    case (_, Some(i)) =>
      var b := Edit(cfg, bs[i], op, bs[FindNamed(bs, op.name).value].parent);
      Outcome(bs[i := b], Ok(b))
  }

  function Run(cfg: Config, bs: seq<BranchRef>, ops: seq<Op>): seq<BranchRef>
    decreases ops
  {
    if ops == [] then bs else Run(cfg, Apply(cfg, bs, ops[0]).branches, ops[1..])
  }

  /** The entry that an accepted creation adds: what the caller asked for and
      nothing set yet, with the creation as its whole log. */
  predicate IsNewEntry(t: CharTable, op: Op, b: BranchRef)
    requires op.Create?
  {
    && (b.name, b.parent, b.createdAt, b.status) == (op.name, op.parent, op.at, Active)
    && (b.description, b.owner, b.mergePolicy, b.redaction) == (op.description, op.owner, op.policy, op.redaction)
    && b.slug == Slugify(t, op.name) && b.parentCommitHash == None && b.maxAgeSecs == None
    && b.events == [CreatedEvent(op.at, if op.owner == None then "system" else op.owner.value, op.parent)]
  }

  /** A creation adds one entry at the end, or is refused and changes nothing. */
  ghost predicate Creates(t: CharTable, before: seq<BranchRef>, op: Op, o: Outcome)
    requires op.Create?
  {
    match o.reply
    case Ok(b) => o.branches == before + [b] && IsNewEntry(t, op, b)
    case Err(e) =>
      && o.branches == before && e == BranchAlreadyExists(op.name)
      && exists x | x in before :: IsActive(x, op.name)
  }

  lemma ApplyCreates(cfg: Config, bs: seq<BranchRef>, op: Op)
    requires op.Create? && KeepsEvents(cfg)
    ensures Creates(cfg.chars, bs, op, Apply(cfg, bs, op))
  {
    var found := FindActive(bs, op.name);
    if found.Some? {
      assert bs[found.value] in bs;
    }
  }

  // ---- The file, its lock and the in-memory copy ----

  /** `branches.toml` and `registry.lock`. */
  class RegistryStore {
    var branches: seq<BranchRef>
    var locked: bool

    constructor ()
      ensures branches == [] && !locked
    {
      branches := [];
      locked := false;
    }

    method AcquireLock()
      requires !locked
      modifies this
      ensures locked && branches == old(branches)
    {
      locked := true;
    }

    method ReleaseLock()
      requires locked
      modifies this
      ensures !locked && branches == old(branches)
    {
      locked := false;
    }
  }

  class BranchRegistry {
    const store: RegistryStore
    const chars: CharTable
    var data: seq<BranchRef>

    function Cfg(): Config {
      Config(chars, Some(MAX_EVENTS))
    }

    constructor LoadOrCreate(store: RegistryStore, chars: CharTable)
      ensures this.store == store && this.chars == chars && data == store.branches
    {
      this.store := store;
      this.chars := chars;
      this.data := store.branches;
    }

    method Save()
      modifies store
      ensures store.branches == data && store.locked == old(store.locked)
    {
      store.branches := data;
    }

    /** However stale `data` was, the file moves by exactly one operation. */
    method CreateBranchFull(name: string, parent: string, description: Option<string>, owner: Option<string>,
                            policy: MergePolicy, redaction: Option<string>, now: int)
      returns (reply: Result<BranchRef, RegistryError>)
      requires !store.locked
      modifies this, store
      ensures var op := Create(name, parent, description, owner, policy, redaction, now);
        && Outcome(store.branches, reply) == Apply(Cfg(), old(store.branches), op)
        && Creates(chars, old(store.branches), op, Outcome(store.branches, reply))
      ensures !store.locked && data == store.branches
    {
      store.AcquireLock();
      data := store.branches;
      ApplyCreates(Cfg(), data, Create(name, parent, description, owner, policy, redaction, now));
      if FindActive(data, name).Some? {
        reply := Err(BranchAlreadyExists(name));
      } else {
        var branch := BranchRef(name, Slugify(chars, name), parent, now, Active, description, owner, policy,
                                redaction, None, None, []);
        var actor := if owner.Some? then owner.value else "system";
        branch := AppendEvent(Cfg(), branch, CreatedEvent(now, actor, parent));
        data := data + [branch];
        Save();
        reply := Ok(branch);
      }
      store.ReleaseLock();
    }

    method SetMaxAgeSecs(name: string, maxAgeSecs: Option<nat>) returns (reply: Result<BranchRef, RegistryError>)
      requires !store.locked
      modifies this, store
      ensures Outcome(store.branches, reply) == Apply(Cfg(), old(store.branches), SetMaxAge(name, maxAgeSecs))
      ensures !store.locked && data == store.branches
    {
      store.AcquireLock();
      data := store.branches;
      var found := FindActive(data, name);
      if found.None? {
        reply := Err(BranchNotFound(name));
      } else {
        var branch := data[found.value].(maxAgeSecs := maxAgeSecs);
        data := data[found.value := branch];
        Save();
        reply := Ok(branch);
      }
      store.ReleaseLock();
    }

    method SetParentCommitHash(name: string, hash: string) returns (reply: Result<BranchRef, RegistryError>)
      requires !store.locked
      modifies this, store
      ensures Outcome(store.branches, reply) == Apply(Cfg(), old(store.branches), SetParentHash(name, hash))
      ensures !store.locked && data == store.branches
    {
      store.AcquireLock();
      data := store.branches;
      var found := FindActive(data, name);
      if found.None? {
        reply := Err(BranchNotFound(name));
      } else {
        var branch := data[found.value].(parentCommitHash := Some(hash));
        data := data[found.value := branch];
        Save();
        reply := Ok(branch);
      }
      store.ReleaseLock();
    }

    method SetDescription(name: string, description: Option<string>) returns (reply: Result<BranchRef, RegistryError>)
      requires !store.locked
      modifies this, store
      ensures Outcome(store.branches, reply) == Apply(Cfg(), old(store.branches), Op.SetDescription(name, description))
      ensures !store.locked && data == store.branches
    {
      store.AcquireLock();
      data := store.branches;
      var found := FindActive(data, name);
      if found.None? {
        reply := Err(BranchNotFound(name));
      } else {
        var branch := data[found.value].(description := description);
        data := data[found.value := branch];
        Save();
        reply := Ok(branch);
      }
      store.ReleaseLock();
    }

    method SetRedaction(name: string, policy: Option<string>, now: int)
      returns (reply: Result<BranchRef, RegistryError>)
      requires !store.locked
      modifies this, store
      ensures Outcome(store.branches, reply) == Apply(Cfg(), old(store.branches), Op.SetRedaction(name, policy, now))
      ensures !store.locked && data == store.branches
    {
      store.AcquireLock();
      data := store.branches;
      var found := FindActive(data, name);
      if found.None? {
        reply := Err(BranchNotFound(name));
      } else {
        var branch := AppendEvent(Cfg(), data[found.value].(redaction := policy),
                                  RedactionEvent(now, "system", policy.Some?));
        data := data[found.value := branch];
        Save();
        reply := Ok(branch);
      }
      store.ReleaseLock();
    }

    method MarkMergedInto(name: string, who: MergedBy, proposal: Option<string>, now: int)
      returns (reply: Result<BranchRef, RegistryError>)
      requires !store.locked
      modifies this, store
      ensures Outcome(store.branches, reply) == Apply(Cfg(), old(store.branches), MarkMerged(name, who, proposal, now))
      ensures !store.locked && data == store.branches
    {
      store.AcquireLock();
      data := store.branches;
      var named := FindNamed(data, name);
      var found := FindActive(data, name);
      if named.None? || found.None? {
        reply := Err(BranchNotFound(name));
      } else {
        var event := MergedEvent(now, MergerIdentity(who), data[named.value].parent, proposal);
        var branch := AppendEvent(Cfg(), data[found.value], event).(status := Merged(now, who));
        data := data[found.value := branch];
        Save();
        reply := Ok(branch);
      }
      store.ReleaseLock();
    }

    method AbandonBranch(name: string, now: int) returns (reply: Result<BranchRef, RegistryError>)
      requires !store.locked
      modifies this, store
      ensures Outcome(store.branches, reply) == Apply(Cfg(), old(store.branches), Abandon(name, now))
      ensures !store.locked && data == store.branches
    {
      store.AcquireLock();
      data := store.branches;
      var found := FindActive(data, name);
      if found.None? {
        reply := Err(BranchNotFound(name));
      } else {
        var branch := AppendEvent(Cfg(), data[found.value], AbandonedEvent(now, "system")).(status := Abandoned(now));
        data := data[found.value := branch];
        Save();
        reply := Ok(branch);
      }
      store.ReleaseLock();
    }
  }

  // ---- Lifecycle over every run ----

  ghost predicate OneActivePerName(bs: seq<BranchRef>) {
    forall i, j | 0 <= i < j < |bs| && bs[i].status == Active && bs[j].status == Active :: bs[i].name != bs[j].name
  }

  /** What an event log says about its branch. */
  datatype Phase = Open | ClosedByMerge(at: int, actor: string) | ClosedByAbandon(at: int)

  function PhaseAfter(p: Phase, e: BranchEvent): Phase {
    match e
    case MergedEvent(at, actor, _, _) => ClosedByMerge(at, actor)
    case AbandonedEvent(at, _) => ClosedByAbandon(at)
    case _ => p
  }

  function Replay(events: seq<BranchEvent>): Phase {
    if events == [] then Open else PhaseAfter(Replay(events[..|events| - 1]), events[|events| - 1])
  }

  function PhaseOf(s: BranchStatus): Phase {
    match s
    case Active => Open
    case Merged(at, who) => ClosedByMerge(at, MergerIdentity(who))
    case Abandoned(at) => ClosedByAbandon(at)
  }

  predicate Terminal(e: BranchEvent) {
    e.MergedEvent? || e.AbandonedEvent?
  }

  /** The status is the replay of the log, and a terminal event ends the log. */
  ghost predicate LogTellsStatus(b: BranchRef) {
    && PhaseOf(b.status) == Replay(b.events)
    && (forall i | 0 <= i < |b.events| :: Terminal(b.events[i]) ==> i == |b.events| - 1)
    && (b.status != Active ==> b.events != [] && Terminal(b.events[|b.events| - 1]))
    && (b.events != [] && Terminal(b.events[|b.events| - 1]) ==> b.status != Active)
  }

  /** Creation is the first event and the only one of its kind. */
  ghost predicate CreatedFirst(b: BranchRef) {
    && b.events != []
    && forall i | 0 <= i < |b.events| :: b.events[i].CreatedEvent? <==> i == 0
  }

  lemma {:induction false} OpenLog(events: seq<BranchEvent>)
    requires forall e | e in events :: !Terminal(e)
    ensures Replay(events) == Open
  {
    if events != [] {
      assert events[|events| - 1] in events;
      assert forall e | e in events[..|events| - 1] :: e in events;
      OpenLog(events[..|events| - 1]);
    }
  }

  lemma AppendKeepsLog(cfg: Config, b: BranchRef, e: BranchEvent, status: BranchStatus)
    requires KeepsEvents(cfg) && b.status == Active && LogTellsStatus(b)
    requires if Terminal(e) then status != Active && PhaseOf(status) == PhaseAfter(Open, e) else status == Active
    ensures LogTellsStatus(AppendEvent(cfg, b, e).(status := status))
  {
    var all := b.events + [e];
    var kept := LastEvents(all, cfg.cap);
    var drop := |all| - |kept|;
    assert kept == all[drop..] && kept[|kept| - 1] == e;
    var before := kept[..|kept| - 1];
    forall x | x in before ensures !Terminal(x) {
      var i :| 0 <= i < |before| && before[i] == x;
      assert x == b.events[drop + i];
    }
    OpenLog(before);
  }

  lemma EditKeepsLog(cfg: Config, b: BranchRef, op: Op, into: string)
    requires KeepsEvents(cfg) && b.status == Active && LogTellsStatus(b) && !op.Create?
    ensures LogTellsStatus(Edit(cfg, b, op, into))
  {
    match op {
      case SetRedaction(_, p, at) =>
        AppendKeepsLog(cfg, b.(redaction := p), RedactionEvent(at, "system", p.Some?), Active);
      case MarkMerged(_, who, proposal, at) =>
        AppendKeepsLog(cfg, b, MergedEvent(at, MergerIdentity(who), into, proposal), Merged(at, who));
      case Abandon(_, at) =>
        AppendKeepsLog(cfg, b, AbandonedEvent(at, "system"), Abandoned(at));
      case _ =>
    }
  }

  lemma NewBranchLog(cfg: Config, op: Op)
    requires KeepsEvents(cfg) && op.Create?
    ensures LogTellsStatus(NewBranch(cfg, op)) && IsActive(NewBranch(cfg, op), op.name)
  {
    var actor := if op.owner.Some? then op.owner.value else "system";
    AppendKeepsLog(cfg, NewBranch(cfg, op).(events := []), CreatedEvent(op.at, actor, op.parent), Active);
  }

  /** At most one active entry a name, each status what its log says. */
  ghost predicate WellLogged(bs: seq<BranchRef>) {
    OneActivePerName(bs) && forall b | b in bs :: LogTellsStatus(b)
  }

  lemma CreateKeepsLogs(cfg: Config, bs: seq<BranchRef>, op: Op)
    requires KeepsEvents(cfg) && WellLogged(bs) && op.Create? && FindActive(bs, op.name).None?
    ensures WellLogged(bs + [NewBranch(cfg, op)])
  {
    NewBranchLog(cfg, op);
    forall i | 0 <= i < |bs| ensures !IsActive(bs[i], op.name) {
      assert bs[i] in bs;
    }
  }

  lemma EditKeepsLogs(cfg: Config, bs: seq<BranchRef>, op: Op, i: nat, into: string)
    requires KeepsEvents(cfg) && WellLogged(bs) && !op.Create? && FindActive(bs, op.name) == Some(i)
    ensures WellLogged(bs[i := Edit(cfg, bs[i], op, into)])
  {
    assert bs[i] in bs;
    EditKeepsLog(cfg, bs[i], op, into);
    assert forall x | x in bs[i := Edit(cfg, bs[i], op, into)] :: x in bs || x == Edit(cfg, bs[i], op, into);
  }

  lemma ApplyKeepsLogs(cfg: Config, bs: seq<BranchRef>, op: Op)
    requires KeepsEvents(cfg) && WellLogged(bs)
    ensures WellLogged(Apply(cfg, bs, op).branches)
  {
    match (op, FindActive(bs, op.name)) {
      case (Create(_, _, _, _, _, _, _), None) => CreateKeepsLogs(cfg, bs, op);
      case (Create(_, _, _, _, _, _, _), Some(_)) =>
      case (_, None) =>
      case (_, Some(i)) => EditKeepsLogs(cfg, bs, op, i, bs[FindNamed(bs, op.name).value].parent);
    }
  }

  /** Over every run from an empty registry: at most one active entry per name,
      and every entry's status is what its log says. */
  lemma {:induction false} RunKeepsLogs(cfg: Config, bs: seq<BranchRef>, ops: seq<Op>)
    requires KeepsEvents(cfg) && WellLogged(bs)
    ensures WellLogged(Run(cfg, bs, ops))
    decreases ops
  {
    if ops != [] {
      ApplyKeepsLogs(cfg, bs, ops[0]);
      RunKeepsLogs(cfg, Apply(cfg, bs, ops[0]).branches, ops[1..]);
    }
  }

  /** What no run undoes: entries are never dropped, moved or renamed, and a
      merged or abandoned entry never changes again. */
  ghost predicate Preserves(before: seq<BranchRef>, after: seq<BranchRef>) {
    && |before| <= |after|
    && forall i | 0 <= i < |before| ::
         var b, a := before[i], after[i];
         && (a.name, a.slug, a.parent, a.createdAt, a.owner, a.mergePolicy)
         == (b.name, b.slug, b.parent, b.createdAt, b.owner, b.mergePolicy)
         && (b.status != Active ==> a == b)
  }

  lemma {:induction false} RunPreserves(cfg: Config, bs: seq<BranchRef>, ops: seq<Op>)
    ensures Preserves(bs, Run(cfg, bs, ops))
    decreases ops
  {
    if ops != [] {
      var next := Apply(cfg, bs, ops[0]).branches;
      assert Preserves(bs, next);
      RunPreserves(cfg, next, ops[1..]);
    }
  }

  lemma {:induction false} RunSnoc(cfg: Config, bs: seq<BranchRef>, ops: seq<Op>, op: Op)
    ensures Run(cfg, bs, ops + [op]) == Apply(cfg, Run(cfg, bs, ops), op).branches
    decreases ops
  {
    if ops == [] {
      assert Run(cfg, bs, [op]) == Run(cfg, Apply(cfg, bs, op).branches, [op][1..]);
    } else {
      assert (ops + [op])[1..] == ops[1..] + [op];
      RunSnoc(cfg, Apply(cfg, bs, ops[0]).branches, ops[1..], op);
    }
  }

  // ---- What an entry's fields hold ----

  /** The fields that callers set after creation. */
  datatype Field = MaxAgeField | ParentHashField | DescriptionField | RedactionField

  datatype Value = Seconds(seconds: Option<nat>) | Text(text: Option<string>)

  function FieldOf(b: BranchRef, f: Field): Value {
    match f
    case MaxAgeField => Seconds(b.maxAgeSecs)
    case ParentHashField => Text(b.parentCommitHash)
    case DescriptionField => Text(b.description)
    case RedactionField => Text(b.redaction)
  }

  function SetBy(op: Op, f: Field): Option<Value> {
    match (op, f)
    case (SetMaxAge(_, v), MaxAgeField) => Some(Seconds(v))
    case (SetParentHash(_, h), ParentHashField) => Some(Text(Some(h)))
    case (SetDescription(_, d), DescriptionField) => Some(Text(d))
    case (SetRedaction(_, p, _), RedactionField) => Some(Text(p))
    case _ => None
  }

  /** The `k`-th call of a run that sets the field of the `i`-th entry. */
  predicate SetsAt(cfg: Config, bs: seq<BranchRef>, ops: seq<Op>, i: nat, f: Field, k: nat) {
    k < |ops| && SetBy(ops[k], f).Some? && FindActive(Run(cfg, bs, ops[..k]), ops[k].name) == Some(i)
  }

  ghost predicate LastSetAt(cfg: Config, bs: seq<BranchRef>, ops: seq<Op>, i: nat, f: Field, k: nat) {
    SetsAt(cfg, bs, ops, i, f, k) && forall j: nat | k < j :: !SetsAt(cfg, bs, ops, i, f, j)
  }

  lemma ApplyKeepsField(cfg: Config, bs: seq<BranchRef>, op: Op, i: nat, f: Field)
    requires i < |bs|
    ensures var after := Apply(cfg, bs, op).branches;
      var sets := SetBy(op, f).Some? && FindActive(bs, op.name) == Some(i);
      i < |after| && FieldOf(after[i], f) == if sets then SetBy(op, f).value else FieldOf(bs[i], f)
  {
  }

  lemma SetsInPrefix(cfg: Config, bs: seq<BranchRef>, ops: seq<Op>, op: Op, i: nat, f: Field, k: nat)
    requires k < |ops|
    ensures SetsAt(cfg, bs, ops + [op], i, f, k) <==> SetsAt(cfg, bs, ops, i, f, k)
  {
    assert (ops + [op])[..k] == ops[..k] && (ops + [op])[k] == ops[k];
  }

  /** Over every run: a field holds the value of the last call that set it for this
      entry, or its old value if none did. */
  lemma {:induction false} FieldIsLastSet(cfg: Config, bs: seq<BranchRef>, ops: seq<Op>, i: nat, f: Field)
    requires i < |bs|
    ensures i < |Run(cfg, bs, ops)|
    ensures var now := FieldOf(Run(cfg, bs, ops)[i], f);
      || (exists k: nat :: LastSetAt(cfg, bs, ops, i, f, k) && SetBy(ops[k], f) == Some(now))
      || (now == FieldOf(bs[i], f) && forall k: nat :: !SetsAt(cfg, bs, ops, i, f, k))
  {
    if ops != [] {
      var n := |ops| - 1;
      var before, last := ops[..n], ops[n];
      assert ops == before + [last];
      FieldIsLastSet(cfg, bs, before, i, f);
      RunSnoc(cfg, bs, before, last);
      ApplyKeepsField(cfg, Run(cfg, bs, before), last, i, f);
      forall k: nat | k < n ensures SetsAt(cfg, bs, ops, i, f, k) <==> SetsAt(cfg, bs, before, i, f, k) {
        SetsInPrefix(cfg, bs, before, last, i, f, k);
      }
      if SetsAt(cfg, bs, ops, i, f, n) {
        assert LastSetAt(cfg, bs, ops, i, f, n);
      } else if k: nat :| LastSetAt(cfg, bs, before, i, f, k) {
        assert LastSetAt(cfg, bs, ops, i, f, k);
      }
    }
  }

  /** Whether the log says that redaction is on: what its last event about it says. */
  function RedactionSaid(events: seq<BranchEvent>): Option<bool> {
    if events == [] then None
    else if events[|events| - 1].RedactionEvent? then Some(events[|events| - 1].enabled)
    else RedactionSaid(events[..|events| - 1])
  }

  ghost predicate LogTellsRedaction(b: BranchRef) {
    RedactionSaid(b.events).Some? ==> RedactionSaid(b.events).value == b.redaction.Some?
  }

  lemma {:induction false} RedactionSaidInTail(events: seq<BranchEvent>, n: nat)
    requires n <= |events|
    ensures RedactionSaid(events[n..]).Some? ==> RedactionSaid(events[n..]) == RedactionSaid(events)
  {
    if n < |events| {
      assert events[n..][..|events| - n - 1] == events[..|events| - 1][n..];
      RedactionSaidInTail(events[..|events| - 1], n);
    }
  }

  lemma AppendTellsRedaction(cfg: Config, b: BranchRef, e: BranchEvent)
    requires if e.RedactionEvent? then e.enabled == b.redaction.Some? else LogTellsRedaction(b)
    ensures LogTellsRedaction(AppendEvent(cfg, b, e))
  {
    var all := b.events + [e];
    assert all[..|all| - 1] == b.events;
    var kept := LastEvents(all, cfg.cap);
    assert kept == all[|all| - |kept|..];
    RedactionSaidInTail(all, |all| - |kept|);
  }

  lemma ApplyTellsRedaction(cfg: Config, bs: seq<BranchRef>, op: Op)
    requires forall b | b in bs :: LogTellsRedaction(b)
    ensures forall b | b in Apply(cfg, bs, op).branches :: LogTellsRedaction(b)
  {
    var after := Apply(cfg, bs, op).branches;
    forall b | b in after && b !in bs ensures LogTellsRedaction(b) {
      match op {
        case Create(_, _, _, _, _, _, _) =>
          var actor := if op.owner.Some? then op.owner.value else "system";
          AppendTellsRedaction(cfg, NewBranch(cfg, op).(events := []), CreatedEvent(op.at, actor, op.parent));
        case _ =>
          var i := FindActive(bs, op.name).value;
          var into := bs[FindNamed(bs, op.name).value].parent;
          assert bs[i] in bs && b == Edit(cfg, bs[i], op, into);
          EditTellsRedaction(cfg, bs[i], op, into);
      }
    }
  }

  lemma EditTellsRedaction(cfg: Config, b: BranchRef, op: Op, into: string)
    requires !op.Create? && LogTellsRedaction(b)
    ensures LogTellsRedaction(Edit(cfg, b, op, into))
  {
    match op {
      case SetRedaction(_, p, at) =>
        AppendTellsRedaction(cfg, b.(redaction := p), RedactionEvent(at, "system", p.Some?));
      case MarkMerged(_, who, proposal, at) =>
        AppendTellsRedaction(cfg, b, MergedEvent(at, MergerIdentity(who), into, proposal));
      case Abandon(_, at) =>
        AppendTellsRedaction(cfg, b, AbandonedEvent(at, "system"));
      case _ =>
    }
  }

  /** Over every run: as long as a log holds an event about redaction, the last one
      says whether a policy is set now. */
  lemma {:induction false} RunTellsRedaction(cfg: Config, bs: seq<BranchRef>, ops: seq<Op>)
    requires forall b | b in bs :: LogTellsRedaction(b)
    ensures forall b | b in Run(cfg, bs, ops) :: LogTellsRedaction(b)
    decreases ops
  {
    if ops != [] {
      ApplyTellsRedaction(cfg, bs, ops[0]);
      RunTellsRedaction(cfg, Apply(cfg, bs, ops[0]).branches, ops[1..]);
    }
  }

  /** A name can be created exactly when no entry of that name is active, and a
      closed name can be opened again. */
  lemma CreateSucceedsIff(cfg: Config, bs: seq<BranchRef>, op: Op)
    requires op.Create?
    ensures Apply(cfg, bs, op).reply.Ok? <==> forall b | b in bs :: !IsActive(b, op.name)
    ensures Apply(cfg, bs, op).reply.Ok? ==>
      var after := Apply(cfg, bs, op).branches; |after| == |bs| + 1 && IsActive(after[|bs|], op.name)
  {
    var found := FindActive(bs, op.name);
    if found.Some? {
      assert bs[found.value] in bs;
    }
  }

  /** Any other call edits the one active entry of its name and hands it back, or
      is refused when there is none, and leaves every other entry alone. */
  lemma EditsActiveEntry(cfg: Config, bs: seq<BranchRef>, op: Op)
    requires !op.Create?
    ensures var o := Apply(cfg, bs, op);
      && |o.branches| == |bs|
      && (o.reply.Ok? <==> exists b | b in bs :: IsActive(b, op.name))
      && (o.reply.Err? ==> o.branches == bs && o.reply.error == BranchNotFound(op.name))
      && (o.reply.Ok? ==> exists i | 0 <= i < |bs| && IsActive(bs[i], op.name) ::
            o.branches[i] == o.reply.value && forall j | 0 <= j < |bs| && j != i :: o.branches[j] == bs[j])
  {
    var found := FindActive(bs, op.name);
    if found.Some? {
      assert bs[found.value] in bs;
    }
  }

  // ---- The trimmed log against the full one ----

  /** The same entry, with only the last `n` events of its log. */
  function Trimmed(b: BranchRef, n: nat): BranchRef {
    b.(events := LastEvents(b.events, Some(n)))
  }

  ghost predicate TrimOf(short: seq<BranchRef>, full: seq<BranchRef>, n: nat) {
    |short| == |full| && forall i | 0 <= i < |full| :: short[i] == Trimmed(full[i], n)
  }

  lemma AppendCommutesWithTrim(chars: CharTable, n: nat, b: BranchRef, e: BranchEvent)
    requires n > 0
    ensures AppendEvent(Config(chars, Some(n)), Trimmed(b, n), e)
         == Trimmed(AppendEvent(Config(chars, None), b, e), n)
  {
    if |b.events| > n {
      assert b.events[|b.events| - n..] + [e] == (b.events + [e])[|b.events| - n..];
    }
  }

  lemma {:induction false} FindsCommuteWithTrim(short: seq<BranchRef>, full: seq<BranchRef>, n: nat, name: string)
    requires TrimOf(short, full, n)
    ensures FindActive(short, name) == FindActive(full, name)
    ensures FindNamed(short, name) == FindNamed(full, name)
  {
    if full != [] {
      assert short[0] == Trimmed(full[0], n);
      FindsCommuteWithTrim(short[1..], full[1..], n, name);
    }
  }

  lemma EditCommutesWithTrim(chars: CharTable, n: nat, b: BranchRef, op: Op, into: string)
    requires n > 0 && !op.Create?
    ensures Edit(Config(chars, Some(n)), Trimmed(b, n), op, into) == Trimmed(Edit(Config(chars, None), b, op, into), n)
  {
    match op {
      case SetRedaction(_, p, at) =>
        AppendCommutesWithTrim(chars, n, b.(redaction := p), RedactionEvent(at, "system", p.Some?));
      case MarkMerged(_, who, proposal, at) =>
        AppendCommutesWithTrim(chars, n, b, MergedEvent(at, MergerIdentity(who), into, proposal));
      case Abandon(_, at) =>
        AppendCommutesWithTrim(chars, n, b, AbandonedEvent(at, "system"));
      case _ =>
    }
  }

  lemma NewBranchCommutesWithTrim(chars: CharTable, n: nat, op: Op)
    requires n > 0 && op.Create?
    ensures NewBranch(Config(chars, Some(n)), op) == Trimmed(NewBranch(Config(chars, None), op), n)
  {
    var actor := if op.owner.Some? then op.owner.value else "system";
    var bare := NewBranch(Config(chars, None), op).(events := []);
    assert Trimmed(bare, n) == bare;
    AppendCommutesWithTrim(chars, n, bare, CreatedEvent(op.at, actor, op.parent));
  }

  lemma ApplyCommutesWithTrim(chars: CharTable, n: nat, short: seq<BranchRef>, full: seq<BranchRef>, op: Op)
    requires n > 0 && TrimOf(short, full, n)
    ensures TrimOf(Apply(Config(chars, Some(n)), short, op).branches, Apply(Config(chars, None), full, op).branches, n)
  {
    FindsCommuteWithTrim(short, full, n, op.name);
    var found := FindActive(full, op.name);
    if op.Create? {
      NewBranchCommutesWithTrim(chars, n, op);
    } else if found.Some? {
      EditCommutesWithTrim(chars, n, full[found.value], op, full[FindNamed(full, op.name).value].parent);
    }
  }

  lemma {:induction false} RunCommutesWithTrim(chars: CharTable, n: nat, short: seq<BranchRef>, full: seq<BranchRef>,
                                               ops: seq<Op>)
    requires n > 0 && TrimOf(short, full, n)
    ensures TrimOf(Run(Config(chars, Some(n)), short, ops), Run(Config(chars, None), full, ops), n)
    decreases ops
  {
    if ops != [] {
      ApplyCommutesWithTrim(chars, n, short, full, ops[0]);
      RunCommutesWithTrim(chars, n, Apply(Config(chars, Some(n)), short, ops[0]).branches,
                          Apply(Config(chars, None), full, ops[0]).branches, ops[1..]);
    }
  }

  lemma {:induction false} FullLogsStartWithCreation(chars: CharTable, bs: seq<BranchRef>, ops: seq<Op>)
    requires forall b | b in bs :: CreatedFirst(b)
    ensures forall b | b in Run(Config(chars, None), bs, ops) :: CreatedFirst(b)
    decreases ops
  {
    if ops != [] {
      var cfg := Config(chars, None);
      var next := Apply(cfg, bs, ops[0]).branches;
      var found := FindActive(bs, ops[0].name);
      if !ops[0].Create? && found.Some? {
        assert CreatedFirst(bs[found.value]);
        assert CreatedFirst(next[found.value]);
        assert forall b | b in next :: b in bs || b == next[found.value];
      }
      FullLogsStartWithCreation(chars, next, ops[1..]);
    }
  }

  /** The stored log is the last thousand events of the full history, so the log
      starts with the creation exactly while the history fits. */
  lemma StoredLogIsSuffix(chars: CharTable, ops: seq<Op>, i: nat)
    requires i < |Run(Config(chars, None), [], ops)|
    ensures var full, stored := Run(Config(chars, None), [], ops), Run(Config(chars, Some(MAX_EVENTS)), [], ops);
      && |stored| == |full| && stored[i] == Trimmed(full[i], MAX_EVENTS)
      && CreatedFirst(full[i])
      && (CreatedFirst(stored[i]) <==> |full[i].events| <= MAX_EVENTS)
  {
    RunCommutesWithTrim(chars, MAX_EVENTS, [], [], ops);
    FullLogsStartWithCreation(chars, [], ops);
    var full, stored := Run(Config(chars, None), [], ops), Run(Config(chars, Some(MAX_EVENTS)), [], ops);
    assert full[i] in full && stored[i] == Trimmed(full[i], MAX_EVENTS);
    if |full[i].events| > MAX_EVENTS {
      assert stored[i].events[0] == full[i].events[|full[i].events| - MAX_EVENTS];
    }
  }

  // ---- The recorded merge target ----

  /** A `Merged` event records the parent of the first entry of that name, which
      is the merged branch's own parent exactly when the two agree. */
  lemma MergedIntoIsOwnParentIff(cfg: Config, bs: seq<BranchRef>, op: Op)
    requires KeepsEvents(cfg) && op.MarkMerged? && FindActive(bs, op.name).Some?
    ensures var i, first := FindActive(bs, op.name).value, bs[FindNamed(bs, op.name).value];
      var log := Apply(cfg, bs, op).branches[i].events;
      && log != []
      && log[|log| - 1] == MergedEvent(op.at, MergerIdentity(op.who), first.parent, op.proposal)
      && (log[|log| - 1].into == bs[i].parent <==> first.parent == bs[i].parent)
  {
    var i := FindActive(bs, op.name).value;
    var e := MergedEvent(op.at, MergerIdentity(op.who), bs[FindNamed(bs, op.name).value].parent, op.proposal);
    var all := bs[i].events + [e];
    assert LastEvents(all, cfg.cap)[|LastEvents(all, cfg.cap)| - 1] == e;
  }

  /** Among mergers of one kind the recorded actor tells who merged, for connectors as
      long as their ids have no colon; a person and an agent of one name are not told
      apart. */
  lemma ActorTellsMerger(x: MergedBy, y: MergedBy)
    ensures (x.Human? && y.Human?) || (x.Agent? && y.Agent?) || (x.System? && y.System?) ==>
      (MergerIdentity(x) == MergerIdentity(y) <==> x == y)
    ensures x.Connector? && y.Connector? && ':' !in x.connectorId && ':' !in y.connectorId ==>
      (MergerIdentity(x) == MergerIdentity(y) <==> x == y)
    ensures x.Human? && y.Agent? ==> (MergerIdentity(x) == MergerIdentity(y) <==> x.user == y.agentId)
  {
    if x.Connector? && y.Connector? && MergerIdentity(x) == MergerIdentity(y)
       && ':' !in x.connectorId && ':' !in y.connectorId {
      FirstColon(x.connectorId, x.installId, y.connectorId, y.installId);
    }
  }

  lemma {:induction false} FirstColon(a: string, b: string, c: string, d: string)
    requires ':' !in a && ':' !in c && a + ":" + b == c + ":" + d
    ensures a == c && b == d
  {
    var x, y := a + ":" + b, c + ":" + d;
    assert a != "" ==> x[0] == a[0] && a[0] in a;
    assert c != "" ==> y[0] == c[0] && c[0] in c;
    if a != "" {
      assert x[1..] == a[1..] + ":" + b && y[1..] == c[1..] + ":" + d;
      FirstColon(a[1..], b, c[1..], d);
      assert a == [a[0]] + a[1..] && c == [c[0]] + c[1..];
    } else {
      assert b == x[1..] && d == y[1..];
    }
  }

  /** Reusing a name under another parent makes the record wrong. */
  lemma ReusedNameRecordsOldParent(cfg: Config, closed: BranchRef, op: Op, merge: Op)
    requires KeepsEvents(cfg) && closed.status != Active
    requires op.Create? && op.name == closed.name && op.parent != closed.parent
    requires merge.MarkMerged? && merge.name == op.name
    ensures var after := Run(cfg, [closed], [op, merge]);
      && |after| == 2 && after[1].parent == op.parent && after[1].events != []
      && var last := after[1].events[|after[1].events| - 1];
         last.MergedEvent? && last.into == closed.parent
  {
    var reopened := [closed, NewBranch(cfg, op)];
    assert [closed][1..] == [] && reopened[1..] == [NewBranch(cfg, op)];
    assert FindActive([closed], op.name) == None;
    assert Apply(cfg, [closed], op).branches == reopened;
    assert FindActive(reopened[1..], op.name) == Some(0);
    assert FindActive(reopened, op.name) == Some(1) && FindNamed(reopened, op.name) == Some(0);
    MergedIntoIsOwnParentIff(cfg, reopened, merge);
    assert [op, merge][1..] == [merge] && [merge][1..] == [];
    assert Run(cfg, reopened, [merge]) == Run(cfg, Apply(cfg, reopened, merge).branches, []);
  }
}
