/** The merge gate: what decides `merge_allowed`, from the diff that a merge
    computes to the manual resolutions of the command line. */
module Gate {
  import opened Wrappers
  import opened Text
  import opened Graph
  import opened Diff
  import opened VectorPass
  import opened ThreeWay

  /** The gate and its explanation never disagree. */
  predicate Explained(d: KnowledgeDiff) {
    d.mergeAllowed <==> d.blockingReasons == []
  }

  predicate Healthy(s: Settings, target: View, source: View) {
    target.health - source.health <= s.maxHealthDrop
  }

  /** When a diff lets the merge through, said without its reasons. */
  predicate Clear(s: Settings, target: View, source: View, reviews: seq<ContradictionPair>) {
    && Healthy(s, target, source)
    && (s.blockOnContradictions ==> reviews == [])
    && forall p | p in reviews :: p.kind == None
  }

  ghost predicate GateExact(s: Settings, target: View, source: View, d: KnowledgeDiff, force: bool) {
    Explained(d) && (d.mergeAllowed <==> force || Clear(s, target, source, d.needsReview))
  }

  // ---- What the passes can add ----

  predicate OnlyGrows(f: Findings, g: Findings) {
    f.autoResolved <= g.autoResolved && f.needsReview <= g.needsReview
  }

  predicate NoKinds(reviews: seq<ContradictionPair>) {
    forall p | p in reviews :: p.kind == None
  }

  lemma {:induction false} Pass1NoKinds(t: CharTable, threshold: real, main: seq<Row>, rows: seq<Row>)
    ensures NoKinds(Pass1(t, threshold, main, rows).findings.needsReview)
  {
    if rows != [] { Pass1NoKinds(t, threshold, main, rows[..|rows| - 1]); }
  }

  lemma {:induction false} Pass2RowNoKinds(t: CharTable, threshold: real, names: EntityContext, row: Row,
                                           main: seq<Row>, f: Findings)
    requires NoKinds(f.needsReview)
    ensures NoKinds(Pass2Row(t, threshold, names, row, main, f).needsReview)
  {
    if main != [] { Pass2RowNoKinds(t, threshold, names, row, main[..|main| - 1], f); }
  }

  lemma {:induction false} Pass2NoKinds(t: CharTable, threshold: real, names: EntityContext, rows: seq<Row>,
                                        main: seq<Row>, f: Findings)
    requires NoKinds(f.needsReview)
    ensures NoKinds(Pass2(t, threshold, names, rows, main, f).needsReview)
  {
    if rows != [] {
      var before := Pass2(t, threshold, names, rows[..|rows| - 1], main, f);
      Pass2NoKinds(t, threshold, names, rows[..|rows| - 1], main, f);
      Pass2RowNoKinds(t, threshold, names, rows[|rows| - 1], main, before);
    }
  }

  lemma {:induction false} VectorGrows(t: CharTable, v: VectorInput, newClaims: seq<DiffClaim>, rows: seq<Row>,
                                       f: Findings)
    ensures var g := VectorFindings(t, v, newClaims, rows, f);
      OnlyGrows(f, g) && (NoKinds(f.needsReview) ==> NoKinds(g.needsReview))
  {
    if rows != [] {
      VectorGrows(t, v, newClaims, rows[..|rows| - 1], f);
    }
  }

  lemma TwoWayGate(t: CharTable, s: Settings, target: View, source: View)
    ensures var d := TwoWayDiff(t, s, target, source);
      NoKinds(d.needsReview) && GateExact(s, target, source, d, false)
  {
    var added := NewRows(t, target.rows, source.rows);
    Pass1NoKinds(t, s.threshold, target.rows, added);
    Pass2NoKinds(t, s.threshold, ContextOfNew(source, added), added, target.rows,
                 Pass1(t, s.threshold, target.rows, added).findings);
  }

  // ---- The diff a merge computes ----

  /** Both graphs' vector stores, when both exist. */
  datatype Vectors = Vectors(indexed: bool, nearest: Index)

  const VECTOR_CONTRADICTION_THRESHOLD := 0.75

  /** The gate is looked at again only when the vector pass found something. */
  function RefreshGate(s: Settings, d: KnowledgeDiff, added: nat): KnowledgeDiff {
    if added == 0 || !s.blockOnContradictions || d.needsReview == [] then d
    else
      var explained := exists r | r in d.blockingReasons :: r.Contradictions?;
      d.(mergeAllowed := false,
         blockingReasons := d.blockingReasons + if explained then [] else [Contradictions(|d.needsReview|)])
  }

  lemma VectorGate(t: CharTable, s: Settings, target: View, source: View, v: VectorInput, f: Findings)
    requires f == if v.indexed
                  then VectorFindings(t, v, TwoWayDiff(t, s, target, source).newClaims, v.branch,
                                      TwoWayFindings(t, s, target, source))
                  else TwoWayFindings(t, s, target, source)
    ensures var two := TwoWayDiff(t, s, target, source);
      var added := Total(f) - Total(FindingsOf(two));
      && added >= 0
      && OnlyGrows(FindingsOf(two), f)
      && GateExact(s, target, source,
                   RefreshGate(s, two.(autoResolved := f.autoResolved, needsReview := f.needsReview), added), false)
  {
    var two := TwoWayDiff(t, s, target, source);
    TwoWayGate(t, s, target, source);
    if v.indexed {
      VectorGrows(t, v, two.newClaims, v.branch, TwoWayFindings(t, s, target, source));
    }
    if Total(f) == Total(FindingsOf(two)) {
      assert f.needsReview == two.needsReview;
    } else if two.blockingReasons != [] {
      assert two.blockingReasons[0] in two.blockingReasons;
    }
  }

  lemma ThreeWayGate(t: CharTable, s: Settings, base: Statements, ours: Statements, theirs: Statements,
                     ids: set<ClaimId>, target: View, source: View, conflicts: seq<ContradictionPair>)
    requires ReportsExactly(base, ours, theirs, ids, conflicts)
    ensures GateExact(s, target, source, WithConflicts(TwoWayDiff(t, s, target, source), conflicts), false)
  {
    TwoWayGate(t, s, target, source);
    if conflicts != [] {
      var p := conflicts[0];
      assert p in conflicts;
      assert p == ConflictPair(base, ours, theirs, p.branchId, KindOf(base, ours, p.branchId));
      assert p in WithConflicts(TwoWayDiff(t, s, target, source), conflicts).needsReview;
    }
  }

  // ---- Which reviews the later stages add ----

  /** One conflict for each source claim whose versions at the fork, in the target and in
      the source are pairwise different, an absent one counting as a version. */
  ghost predicate NamesDiverged(b: Statements, o: Statements, h: Statements, added: seq<ContradictionPair>) {
    && (forall i, j | 0 <= i < j < |added| :: added[i].branchId != added[j].branchId)
    && (forall p | p in added :: p.branchId in h && Diverged(b, o, h, p.branchId))
    && (forall id | id in h && Diverged(b, o, h, id) :: exists p | p in added :: p.branchId == id)
  }

  /** Each quotes the versions it is about, and says which of them is absent. */
  predicate QuotesVersions(b: Statements, o: Statements, h: Statements, p: ContradictionPair) {
    var id := p.branchId;
    && p.mainId == id && id in h && p.branchStatement == h[id] && (id in o ==> p.mainStatement == o[id])
    && p.kind == Some(if id !in b then AddAdd else if id !in o then DeleteModify else ModifyModify)
  }

  ghost predicate ReportsDiverged(forkRows: seq<Row>, target: View, source: View, added: seq<ContradictionPair>) {
    var b, o, h := StatementsOf(forkRows), StatementsOf(target.rows), StatementsOf(source.rows);
    NamesDiverged(b, o, h, added) && forall p | p in added :: QuotesVersions(b, o, h, p)
  }

  lemma ExactReportsDiverge(b: Statements, o: Statements, h: Statements, added: seq<ContradictionPair>)
    requires ReportsExactly(b, o, h, AllDiverged(b, o, h), added)
    ensures NamesDiverged(b, o, h, added) && forall p | p in added :: QuotesVersions(b, o, h, p)
  {
    forall id | id in h && Diverged(b, o, h, id) ensures exists p | p in added :: p.branchId == id {
      assert id in AllDiverged(b, o, h);
    }
    forall p | p in added ensures QuotesVersions(b, o, h, p) {
      assert p == ConflictPair(b, o, h, p.branchId, KindOf(b, o, p.branchId));
    }
  }

  function MergeVectors(s: Settings, target: View, source: View, vectors: Vectors): VectorInput {
    VectorInput(vectors.indexed, vectors.nearest, target.rows, source.rows,
                target.entityNames, source.entityNames, s.threshold, VECTOR_CONTRADICTION_THRESHOLD)
  }

  /** The vector pass adds each row's hit, in the findings of the two-way diff, and
      nothing else; and nothing at all without indexes. */
  ghost predicate AddsHits(t: CharTable, s: Settings, target: View, source: View, vectors: Option<Vectors>,
                           f: Findings)
  {
    var two := TwoWayDiff(t, s, target, source);
    forall b, m :: Flagged(f, b, m) <==>
      || Flagged(FindingsOf(two), b, m)
      || (vectors.Some? && vectors.value.indexed && exists r | r in source.rows ::
            r.id == b
            && Hit(t, MergeVectors(s, target, source, vectors.value), two.newClaims, FindingsOf(two), r) == Some(m))
  }

  lemma VectorAddsHits(t: CharTable, s: Settings, target: View, source: View, vectors: Vectors)
    requires DistinctIds(source.rows) && vectors.indexed
    ensures var v, two := MergeVectors(s, target, source, vectors), TwoWayDiff(t, s, target, source);
      AddsHits(t, s, target, source, Some(vectors), VectorFindings(t, v, two.newClaims, source.rows, FindingsOf(two)))
  {
    var v, two := MergeVectors(s, target, source, vectors), TwoWayDiff(t, s, target, source);
    var f := VectorFindings(t, v, two.newClaims, source.rows, FindingsOf(two));
    forall b, m ensures Flagged(f, b, m) <==>
      Flagged(FindingsOf(two), b, m)
      || exists r | r in source.rows :: r.id == b && Hit(t, v, two.newClaims, FindingsOf(two), r) == Some(m)
    {
      VectorFlagsExactly(t, v, two.newClaims, source.rows, FindingsOf(two), b, m);
    }
  }

  /** The part of the contract below that all ways of computing the diff share. */
  ghost predicate ExtendsTwoWay(two: KnowledgeDiff, diff: KnowledgeDiff) {
    && diff.newClaims == two.newClaims && diff.newEntities == two.newEntities && diff.newRelations == two.newRelations
    && OnlyGrows(FindingsOf(two), FindingsOf(diff))
  }

  /** The reasons are those of the two-way diff, and the number of conflicts if any. */
  predicate CountsConflicts(two: KnowledgeDiff, diff: KnowledgeDiff) {
    var n := |diff.needsReview| - |two.needsReview|;
    diff.blockingReasons == two.blockingReasons + if n > 0 then [Reason.ThreeWayConflicts(n)] else []
  }

  /** Without a fork snapshot the reasons are a drop in health, and reviews where they block. */
  ghost predicate NamesReasons(s: Settings, target: View, source: View, d: KnowledgeDiff) {
    && (HealthDrop in d.blockingReasons <==> !Healthy(s, target, source))
    && ((exists r | r in d.blockingReasons :: r.Contradictions?) <==> s.blockOnContradictions && d.needsReview != [])
    && forall r | r in d.blockingReasons :: !r.ThreeWayConflicts?
  }

  lemma TwoWayReasons(t: CharTable, s: Settings, target: View, source: View)
    ensures NamesReasons(s, target, source, TwoWayDiff(t, s, target, source))
  {
    var two := TwoWayDiff(t, s, target, source);
    var reasons := Reasons(s, target, source, |two.needsReview|);
    if two.needsReview != [] && s.blockOnContradictions {
      assert Contradictions(|two.needsReview|) in reasons;
    }
  }

  lemma RefreshedReasons(s: Settings, target: View, source: View, two: KnowledgeDiff, d: KnowledgeDiff, added: nat)
    requires NamesReasons(s, target, source, two) && d.blockingReasons == two.blockingReasons
    requires two.needsReview <= d.needsReview && (added == 0 ==> d.needsReview == two.needsReview)
    ensures NamesReasons(s, target, source, RefreshGate(s, d, added))
  {
    var r := RefreshGate(s, d, added);
    if r.blockingReasons != d.blockingReasons {
      assert Contradictions(|d.needsReview|) in r.blockingReasons;
    }
  }

  lemma ConflictsAreCounted(two: KnowledgeDiff, conflicts: seq<ContradictionPair>)
    ensures var d := WithConflicts(two, conflicts);
      && ExtendsTwoWay(two, d) && CountsConflicts(two, d)
      && d.autoResolved == two.autoResolved && d.needsReview[|two.needsReview|..] == conflicts
  {
  }

  method ThreeWayStage(t: CharTable, s: Settings, forkRows: seq<Row>, target: View, source: View)
    returns (diff: KnowledgeDiff)
    ensures var two := TwoWayDiff(t, s, target, source);
      && GateExact(s, target, source, diff, false) && ExtendsTwoWay(two, diff)
      && diff.autoResolved == two.autoResolved
      && ReportsDiverged(forkRows, target, source, diff.needsReview[|two.needsReview|..])
      && CountsConflicts(two, diff)
  {
    var conflicts;
    diff, conflicts := ComputeThreeWayDiff(t, s, forkRows, target, source);
    ThreeWayGate(t, s, StatementsOf(forkRows), StatementsOf(target.rows), StatementsOf(source.rows),
                 AllDiverged(StatementsOf(forkRows), StatementsOf(target.rows), StatementsOf(source.rows)),
                 target, source, conflicts);
    ExactReportsDiverge(StatementsOf(forkRows), StatementsOf(target.rows), StatementsOf(source.rows), conflicts);
    ConflictsAreCounted(TwoWayDiff(t, s, target, source), conflicts);
  }

  method VectorStage(t: CharTable, s: Settings, target: View, source: View, vectors: Option<Vectors>)
    returns (diff: KnowledgeDiff)
    ensures var two := TwoWayDiff(t, s, target, source);
      && GateExact(s, target, source, diff, false) && ExtendsTwoWay(two, diff) && NoKinds(diff.needsReview)
      && (DistinctIds(source.rows) ==> AddsHits(t, s, target, source, vectors, FindingsOf(diff)))
      && NamesReasons(s, target, source, diff)
  {
    TwoWayGate(t, s, target, source);
    TwoWayReasons(t, s, target, source);
    diff := ComputeDiffInto(t, s, target, source);
    if vectors.Some? {
      var v := MergeVectors(s, target, source, vectors.value);
      var added;
      diff, added := ApplyVectorContradictionPass(t, v, diff);
      VectorGate(t, s, target, source, v, FindingsOf(diff));
      if v.indexed {
        VectorGrows(t, v, diff.newClaims, v.branch, TwoWayFindings(t, s, target, source));
        if DistinctIds(source.rows) {
          VectorAddsHits(t, s, target, source, vectors.value);
        }
      }
      RefreshedReasons(s, target, source, TwoWayDiff(t, s, target, source), diff, added);
      if added > 0 && s.blockOnContradictions && diff.needsReview != [] {
        diff := RefreshGate(s, diff, added);
      }
    }
  }

  /** The diff that a merge acts on.  Whichever way it is computed, the gate is
      open exactly when it is forced, or the health holds, no review is left that
      blocks and no three-way conflict was found; its new claims and resolutions start
      from those of the two-way diff; and added are exactly the conflicts against the
      fork, or without one the hits of the vector pass. */
  method DiffForMerge(t: CharTable, s: Settings, forkRows: Option<seq<Row>>, target: View, source: View,
                      vectors: Option<Vectors>, force: bool)
    returns (diff: KnowledgeDiff)
    ensures GateExact(s, target, source, diff, force)
    ensures ExtendsTwoWay(TwoWayDiff(t, s, target, source), diff)
    ensures forkRows.Some? ==>
      var two := TwoWayDiff(t, s, target, source);
      && diff.autoResolved == two.autoResolved
      && ReportsDiverged(forkRows.value, target, source, diff.needsReview[|two.needsReview|..])
      && (!force ==> CountsConflicts(two, diff))
    ensures forkRows.None? ==>
      && NoKinds(diff.needsReview) && (!force ==> NamesReasons(s, target, source, diff))
      && (DistinctIds(source.rows) ==> AddsHits(t, s, target, source, vectors, FindingsOf(diff)))
  {
    if forkRows.Some? {
      diff := ThreeWayStage(t, s, forkRows.value, target, source);
    } else {
      diff := VectorStage(t, s, target, source, vectors);
    }
    if force {
      diff := diff.(mergeAllowed := true, blockingReasons := []);
    }
  }

  /** So an unforced merge is blocked as soon as one claim diverged since the fork. */
  lemma DivergedIsBlocked(s: Settings, forkRows: seq<Row>, target: View, source: View, two: KnowledgeDiff,
                          diff: KnowledgeDiff, id: ClaimId)
    requires GateExact(s, target, source, diff, false) && ExtendsTwoWay(two, diff)
    requires ReportsDiverged(forkRows, target, source, diff.needsReview[|two.needsReview|..])
    requires id in StatementsOf(source.rows)
    requires Diverged(StatementsOf(forkRows), StatementsOf(target.rows), StatementsOf(source.rows), id)
    ensures !diff.mergeAllowed && exists p | p in diff.needsReview :: p.branchId == id && p.kind.Some?
  {
    var added := diff.needsReview[|two.needsReview|..];
    var p :| p in added && p.branchId == id;
    assert p in diff.needsReview;
  }

  // ---- Manual resolutions: --resolve <index>=keep-main|keep-branch ----

  datatype Choice = KeepMain | KeepBranch

  /** One argument, split at `=` and parsed; `choice` is `None` for any other word. */
  datatype Spec = Malformed | Spec(index: nat, choice: Option<Choice>)

  datatype ResolveError = InvalidSpec | ClaimNotFound(id: ClaimId)

  /** The source graph's claims by id, and the entity names of each. */
  datatype ClaimTable = ClaimTable(claims: map<ClaimId, Claim>, entityNames: EntityContext)

  predicate ValidSpec(spec: Spec, reviews: seq<ContradictionPair>) {
    spec.Spec? && spec.index < |reviews| && spec.choice.Some?
  }

  predicate AllValid(specs: seq<Spec>, reviews: seq<ContradictionPair>) {
    forall x | x in specs :: ValidSpec(x, reviews)
  }

  predicate Promotes(spec: Spec, reviews: seq<ContradictionPair>, id: ClaimId) {
    ValidSpec(spec, reviews) && spec.choice == Some(KeepBranch) && reviews[spec.index].branchId == id
  }

  predicate AllFound(specs: seq<Spec>, reviews: seq<ContradictionPair>, table: ClaimTable) {
    forall x | x in specs :: ValidSpec(x, reviews) && x.choice == Some(KeepBranch) ==>
      reviews[x.index].branchId in table.claims
  }

  function Removed(specs: seq<Spec>, reviews: seq<ContradictionPair>): set<ClaimId> {
    set x | x in specs && ValidSpec(x, reviews) :: reviews[x.index].branchId
  }

  function Unresolved(reviews: seq<ContradictionPair>, removed: set<ClaimId>): (left: seq<ContradictionPair>)
    ensures forall p :: p in left <==> p in reviews && p.branchId !in removed
  {
    if reviews == [] then []
    else
      var before := Unresolved(reviews[..|reviews| - 1], removed);
      var last := reviews[|reviews| - 1];
      assert reviews == reviews[..|reviews| - 1] + [last];
      if last.branchId in removed then before else before + [last]
  }

  function WithoutContradictions(reasons: seq<Reason>): (left: seq<Reason>)
    ensures forall r :: r in left <==> r in reasons && !r.Contradictions?
  {
    if reasons == [] then []
    else
      var before := WithoutContradictions(reasons[..|reasons| - 1]);
      var last := reasons[|reasons| - 1];
      assert reasons == reasons[..|reasons| - 1] + [last];
      if last.Contradictions? then before else before + [last]
  }

  /** The claims and resolutions that keep-branch choices add, in order. */
  function Promoted(specs: seq<Spec>, reviews: seq<ContradictionPair>,
                    table: ClaimTable): (added: (seq<DiffClaim>, seq<AutoResolution>))
    requires AllValid(specs, reviews) && AllFound(specs, reviews, table)
  {
    if specs == [] then ([], [])
    else
      var last := specs[|specs| - 1];
      assert last in specs && specs == specs[..|specs| - 1] + [last];
      var before := Promoted(specs[..|specs| - 1], reviews, table);
      if last.choice.value == KeepMain then before
      else
        var pair := reviews[last.index];
        (before.0 + [DiffClaim(table.claims[pair.branchId], table.entityNames(pair.branchId))],
         before.1 + [AutoResolution(pair.mainId, pair.branchId, pair.branchId)])
  }

  function Resolved(d: KnowledgeDiff, force: bool, specs: seq<Spec>, table: ClaimTable): KnowledgeDiff
    requires AllValid(specs, d.needsReview) && AllFound(specs, d.needsReview, table)
  {
    if specs == [] then d
    else
      var added := Promoted(specs, d.needsReview, table);
      var left := Unresolved(d.needsReview, Removed(specs, d.needsReview));
      var reasons := if left == [] then WithoutContradictions(d.blockingReasons) else d.blockingReasons;
      d.(newClaims := d.newClaims + added.0, autoResolved := d.autoResolved + added.1, needsReview := left,
         blockingReasons := reasons, mergeAllowed := if force then d.mergeAllowed else reasons == [])
  }

  // ---- What the arguments do, one by one ----

  predicate NamedBy(specs: seq<Spec>, reviews: seq<ContradictionPair>, id: ClaimId) {
    exists x | x in specs :: ValidSpec(x, reviews) && reviews[x.index].branchId == id
  }

  /** A review stays, as often as it was there, exactly when no argument names a review
      of its branch claim. */
  ghost predicate KeepsUnnamed(reviews: seq<ContradictionPair>, specs: seq<Spec>, left: seq<ContradictionPair>) {
    forall p :: multiset(left)[p] == if NamedBy(specs, reviews, p.branchId) then 0 else multiset(reviews)[p]
  }

  /** Which arguments choose the branch's claim. */
  function KeepBranches(specs: seq<Spec>): set<nat> {
    set i: nat | i < |specs| && specs[i].Spec? && specs[i].choice == Some(KeepBranch)
  }

  predicate Chosen(specs: seq<Spec>, reviews: seq<ContradictionPair>, id: ClaimId) {
    exists x | x in specs :: Promotes(x, reviews, id)
  }

  /** Each of them adds that claim, with its text and context, and nothing else is added. */
  ghost predicate AddsChosen(specs: seq<Spec>, reviews: seq<ContradictionPair>, table: ClaimTable,
                             claims: seq<DiffClaim>)
  {
    && |claims| == |KeepBranches(specs)|
    && (forall id | Chosen(specs, reviews, id) ::
          id in table.claims && DiffClaim(table.claims[id], table.entityNames(id)) in claims)
    && (forall c | c in claims :: exists id | Chosen(specs, reviews, id) && id in table.claims ::
          c == DiffClaim(table.claims[id], table.entityNames(id)))
  }

  predicate ChosenOver(specs: seq<Spec>, reviews: seq<ContradictionPair>, id: ClaimId, main: ClaimId) {
    exists x | x in specs :: Promotes(x, reviews, id) && reviews[x.index].mainId == main
  }

  /** And a resolution that it wins against the claim it was reviewed with. */
  ghost predicate AddsWins(specs: seq<Spec>, reviews: seq<ContradictionPair>, wins: seq<AutoResolution>) {
    && |wins| == |KeepBranches(specs)|
    && (forall w :: w in wins <==> w.winner == w.branchId && ChosenOver(specs, reviews, w.branchId, w.mainId))
  }

  /** Without force the gate is what its reasons say, and reasons go only when no
      review is left, and then only those about contradictions. */
  ghost predicate Regates(d: KnowledgeDiff, force: bool, r: KnowledgeDiff) {
    && (r.mergeAllowed <==> if force then d.mergeAllowed else r.blockingReasons == [])
    && (r.needsReview != [] ==> r.blockingReasons == d.blockingReasons)
    && (r.needsReview == [] ==>
          forall x :: x in r.blockingReasons <==> x in d.blockingReasons && !x.Contradictions?)
  }

  ghost predicate ResolvesTo(d: KnowledgeDiff, force: bool, specs: seq<Spec>, table: ClaimTable, r: KnowledgeDiff) {
    if specs == [] then r == d
    else
      && d.newClaims <= r.newClaims && d.autoResolved <= r.autoResolved
      && AddsChosen(specs, d.needsReview, table, r.newClaims[|d.newClaims|..])
      && AddsWins(specs, d.needsReview, r.autoResolved[|d.autoResolved|..])
      && KeepsUnnamed(d.needsReview, specs, r.needsReview)
      && Regates(d, force, r)
      && r.newEntities == d.newEntities && r.newRelations == d.newRelations
  }

  lemma {:induction false} UnresolvedCounts(reviews: seq<ContradictionPair>, removed: set<ClaimId>,
                                            p: ContradictionPair)
    ensures multiset(Unresolved(reviews, removed))[p] == if p.branchId in removed then 0 else multiset(reviews)[p]
  {
    if reviews != [] {
      assert reviews == reviews[..|reviews| - 1] + [reviews[|reviews| - 1]];
      UnresolvedCounts(reviews[..|reviews| - 1], removed, p);
    }
  }

  lemma UnresolvedKeepsUnnamed(reviews: seq<ContradictionPair>, specs: seq<Spec>)
    ensures KeepsUnnamed(reviews, specs, Unresolved(reviews, Removed(specs, reviews)))
  {
    forall p ensures multiset(Unresolved(reviews, Removed(specs, reviews)))[p] ==
      if NamedBy(specs, reviews, p.branchId) then 0 else multiset(reviews)[p]
    {
      UnresolvedCounts(reviews, Removed(specs, reviews), p);
    }
  }

  lemma KeepBranchesSnoc(specs: seq<Spec>, x: Spec)
    ensures KeepBranches(specs + [x]) ==
      KeepBranches(specs) + if x.Spec? && x.choice == Some(KeepBranch) then {|specs|} else {}
  {
  }

  lemma ChosenSnoc(specs: seq<Spec>, x: Spec, reviews: seq<ContradictionPair>)
    ensures forall id :: Chosen(specs + [x], reviews, id) <==> Chosen(specs, reviews, id) || Promotes(x, reviews, id)
    ensures forall id, main :: ChosenOver(specs + [x], reviews, id, main) <==>
      ChosenOver(specs, reviews, id, main) || (Promotes(x, reviews, id) && reviews[x.index].mainId == main)
  {
    assert x in specs + [x] && forall y | y in specs :: y in specs + [x];
  }

  lemma ChosenClaimsSnoc(specs: seq<Spec>, x: Spec, reviews: seq<ContradictionPair>, table: ClaimTable,
                         claims: seq<DiffClaim>, id: ClaimId)
    requires AddsChosen(specs, reviews, table, claims)
    requires Promotes(x, reviews, id) && id in table.claims
    ensures AddsChosen(specs + [x], reviews, table, claims + [DiffClaim(table.claims[id], table.entityNames(id))])
  {
    KeepBranchesSnoc(specs, x);
    ChosenSnoc(specs, x, reviews);
    var longer := claims + [DiffClaim(table.claims[id], table.entityNames(id))];
    forall k | Chosen(specs + [x], reviews, k)
      ensures k in table.claims && DiffClaim(table.claims[k], table.entityNames(k)) in longer
    {
      assert k == id || Chosen(specs, reviews, k);
    }
    forall c | c in longer ensures exists k | Chosen(specs + [x], reviews, k) && k in table.claims ::
      c == DiffClaim(table.claims[k], table.entityNames(k))
    {
      if c in claims {
        var k :| Chosen(specs, reviews, k) && k in table.claims
          && c == DiffClaim(table.claims[k], table.entityNames(k));
        assert Chosen(specs + [x], reviews, k);
      } else {
        assert Chosen(specs + [x], reviews, id);
      }
    }
  }

  lemma WinsSnoc(specs: seq<Spec>, x: Spec, reviews: seq<ContradictionPair>, wins: seq<AutoResolution>, id: ClaimId)
    requires AddsWins(specs, reviews, wins) && Promotes(x, reviews, id)
    ensures AddsWins(specs + [x], reviews, wins + [AutoResolution(reviews[x.index].mainId, id, id)])
  {
    KeepBranchesSnoc(specs, x);
    ChosenSnoc(specs, x, reviews);
  }

  lemma KeepMainSnoc(specs: seq<Spec>, x: Spec, reviews: seq<ContradictionPair>, table: ClaimTable,
                     claims: seq<DiffClaim>, wins: seq<AutoResolution>)
    requires AddsChosen(specs, reviews, table, claims) && AddsWins(specs, reviews, wins)
    requires x.Spec? && x.choice != Some(KeepBranch)
    ensures AddsChosen(specs + [x], reviews, table, claims) && AddsWins(specs + [x], reviews, wins)
  {
    KeepBranchesSnoc(specs, x);
    ChosenSnoc(specs, x, reviews);
    forall c | c in claims ensures exists k | Chosen(specs + [x], reviews, k) && k in table.claims ::
      c == DiffClaim(table.claims[k], table.entityNames(k))
    {
      var k :| Chosen(specs, reviews, k) && k in table.claims && c == DiffClaim(table.claims[k], table.entityNames(k));
      assert Chosen(specs + [x], reviews, k);
    }
  }

  lemma {:induction false} PromotedAddsChosen(specs: seq<Spec>, reviews: seq<ContradictionPair>, table: ClaimTable)
    requires AllValid(specs, reviews) && AllFound(specs, reviews, table)
    ensures AddsChosen(specs, reviews, table, Promoted(specs, reviews, table).0)
    ensures AddsWins(specs, reviews, Promoted(specs, reviews, table).1)
  {
    if specs != [] {
      var n := |specs| - 1;
      assert specs == specs[..n] + [specs[n]] && specs[n] in specs;
      PromotedAddsChosen(specs[..n], reviews, table);
      var before := Promoted(specs[..n], reviews, table);
      if specs[n].choice == Some(KeepBranch) {
        var id := reviews[specs[n].index].branchId;
        ChosenClaimsSnoc(specs[..n], specs[n], reviews, table, before.0, id);
        WinsSnoc(specs[..n], specs[n], reviews, before.1, id);
      } else {
        KeepMainSnoc(specs[..n], specs[n], reviews, table, before.0, before.1);
      }
    }
  }

  lemma ResolvedMeans(d: KnowledgeDiff, force: bool, specs: seq<Spec>, table: ClaimTable)
    requires AllValid(specs, d.needsReview) && AllFound(specs, d.needsReview, table)
    ensures ResolvesTo(d, force, specs, table, Resolved(d, force, specs, table))
  {
    var r, added := Resolved(d, force, specs, table), Promoted(specs, d.needsReview, table);
    UnresolvedKeepsUnnamed(d.needsReview, specs);
    PromotedAddsChosen(specs, d.needsReview, table);
    if specs != [] {
      assert r.newClaims[|d.newClaims|..] == added.0 && r.autoResolved[|d.autoResolved|..] == added.1;
    }
  }

  /** A review that no argument names stays, and while there is one the gate stays as
      closed as it was. */
  lemma UnnamedStaysBlocked(d: KnowledgeDiff, specs: seq<Spec>, table: ClaimTable, r: KnowledgeDiff,
                            p: ContradictionPair)
    requires Explained(d) && ResolvesTo(d, false, specs, table, r)
    requires p in d.needsReview && !NamedBy(specs, d.needsReview, p.branchId)
    ensures p in r.needsReview && (r.mergeAllowed <==> d.mergeAllowed) && r.blockingReasons == d.blockingReasons
  {
    if specs != [] {
      assert p in multiset(d.needsReview);
      assert multiset(r.needsReview)[p] == multiset(d.needsReview)[p];
      assert p in multiset(r.needsReview);
    }
  }

  method ValidateSpecs(specs: seq<Spec>, reviews: seq<ContradictionPair>) returns (ok: bool)
    ensures ok <==> AllValid(specs, reviews)
  {
    for i := 0 to |specs|
      invariant forall k | 0 <= k < i :: ValidSpec(specs[k], reviews)
    {
      if !ValidSpec(specs[i], reviews) {
        assert specs[i] in specs;
        return false;
      }
    }
    ok := true;
  }

  /** Every argument is checked before any is applied, so a bad one changes
      nothing; a keep-branch whose claim is not in the source's claims table fails. */
  method ResolveManually(d: KnowledgeDiff, force: bool, specs: seq<Spec>, table: ClaimTable)
    returns (r: Result<KnowledgeDiff, ResolveError>)
    ensures r.Ok? <==> AllValid(specs, d.needsReview) && AllFound(specs, d.needsReview, table)
    ensures r.Ok? ==> r.value == Resolved(d, force, specs, table) && ResolvesTo(d, force, specs, table, r.value)
    ensures r.Err? && AllValid(specs, d.needsReview) ==>
      && r.error.ClaimNotFound? && r.error.id !in table.claims
      && exists x | x in specs :: Promotes(x, d.needsReview, r.error.id)
  {
    if specs == [] {
      return Ok(d);
    }
    var reviews := d.needsReview;
    var ok := ValidateSpecs(specs, reviews);
    if !ok {
      return Err(InvalidSpec);
    }
    var diff, removed := d, {};
    for i := 0 to |specs|
      invariant AllValid(specs[..i], reviews) && AllFound(specs[..i], reviews, table)
      invariant removed == Removed(specs[..i], reviews)
      invariant var added := Promoted(specs[..i], reviews, table);
        diff == d.(newClaims := d.newClaims + added.0, autoResolved := d.autoResolved + added.1)
    {
      assert specs[..i + 1] == specs[..i] + [specs[i]];
      assert specs[..i + 1][..i] == specs[..i];
      assert specs[i] in specs;
      var pair := reviews[specs[i].index];
      if specs[i].choice.value == KeepBranch {
        if pair.branchId !in table.claims {
          assert Promotes(specs[i], reviews, pair.branchId);
          return Err(ClaimNotFound(pair.branchId));
        }
        diff := diff.(
          newClaims := diff.newClaims + [DiffClaim(table.claims[pair.branchId], table.entityNames(pair.branchId))],
          autoResolved := diff.autoResolved + [AutoResolution(pair.mainId, pair.branchId, pair.branchId)]);
      }
      removed := removed + {pair.branchId};
    }
    assert specs[..|specs|] == specs;
    diff := diff.(needsReview := Unresolved(reviews, removed));
    if diff.needsReview == [] {
      diff := diff.(blockingReasons := WithoutContradictions(diff.blockingReasons));
    }
    if !force {
      diff := diff.(mergeAllowed := diff.blockingReasons == []);
    }
    ResolvedMeans(d, force, specs, table);
    r := Ok(diff);
  }

  /** The two-way diff as the command line forces it. */
  function Forced(d: KnowledgeDiff, force: bool): KnowledgeDiff {
    if force then d.(mergeAllowed := true, blockingReasons := []) else d
  }

  /** After the resolutions the gate is again open exactly when forced, or the
      health holds and no blocking review is left. */
  lemma ResolvedGate(t: CharTable, s: Settings, target: View, source: View, force: bool, specs: seq<Spec>,
                     table: ClaimTable)
    requires var d := Forced(TwoWayDiff(t, s, target, source), force);
      AllValid(specs, d.needsReview) && AllFound(specs, d.needsReview, table)
    ensures var diff := Forced(TwoWayDiff(t, s, target, source), force);
      GateExact(s, target, source, Resolved(diff, force, specs, table), force)
  {
    var two := TwoWayDiff(t, s, target, source);
    var d := Resolved(Forced(two, force), force, specs, table);
    TwoWayGate(t, s, target, source);
    assert NoKinds(d.needsReview);
    if !force && specs != [] {
      var reasons := Reasons(s, target, source, |two.needsReview|);
      assert HealthDrop in reasons <==> !Healthy(s, target, source);
      if d.needsReview != [] {
        assert d.needsReview[0] in two.needsReview;
      } else if d.blockingReasons != [] {
        assert d.blockingReasons[0] in reasons;
      }
    }
  }

  // ---- What a manual choice inserts ----

  lemma IsNewConcat(a: seq<DiffClaim>, b: seq<DiffClaim>, id: ClaimId)
    ensures IsNew(a + b, id) <==> IsNew(a, id) || IsNew(b, id)
  {
    if c :| c in a && c.claim.id == id { assert c in a + b; }
    if c :| c in b && c.claim.id == id { assert c in a + b; }
  }

  lemma {:induction false} PromotedExactly(specs: seq<Spec>, reviews: seq<ContradictionPair>, table: ClaimTable,
                                           id: ClaimId)
    requires AllValid(specs, reviews) && AllFound(specs, reviews, table)
    requires forall k | k in table.claims :: table.claims[k].id == k
    ensures IsNew(Promoted(specs, reviews, table).0, id) <==> exists x | x in specs :: Promotes(x, reviews, id)
  {
    if specs != [] {
      var n := |specs| - 1;
      assert specs == specs[..n] + [specs[n]];
      PromotedExactly(specs[..n], reviews, table, id);
      var before := Promoted(specs[..n], reviews, table).0;
      assert specs[n] in specs;
      var pair := reviews[specs[n].index];
      if specs[n].choice == Some(KeepBranch) {
        var last := [DiffClaim(table.claims[pair.branchId], table.entityNames(pair.branchId))];
        assert Promoted(specs, reviews, table).0 == before + last;
        assert last[0].claim.id == pair.branchId;
        IsNewConcat(before, last, id);
      }
    }
  }

  lemma OneRowPerId(rows: seq<Row>, a: Row, b: Row)
    requires DistinctIds(rows) && a in rows && b in rows && a.id == b.id
    ensures a == b
  {
    var i :| 0 <= i < |rows| && rows[i] == a;
    var j :| 0 <= j < |rows| && rows[j] == b;
    assert i == j;
  }

  /** A source claim is inserted when a keep-branch choice names it or when the
      two-way diff had admitted it, which the later passes do not undo.  So
      keep-main drops exactly the claims that pass 1 had flagged: a claim only
      flagged by token overlap is inserted although the target's was chosen. */
  lemma KeepMainInsertsIff(t: CharTable, s: Settings, target: View, source: View, force: bool, specs: seq<Spec>,
                           table: ClaimTable, r: Row)
    requires DistinctIds(source.rows) && r in source.rows
    requires forall q | q in source.rows && source.claimId(q.id) == source.claimId(r.id) :: q.id == r.id
    requires forall k | k in table.claims :: table.claims[k].id == k
    requires var d := Forced(TwoWayDiff(t, s, target, source), force);
      AllValid(specs, d.needsReview) && AllFound(specs, d.needsReview, table)
    ensures var d := Forced(TwoWayDiff(t, s, target, source), force);
      IsNew(Resolved(d, force, specs, table).newClaims, source.claimId(r.id))
      <==> Admitted(t, target.rows, r) || exists x | x in specs :: Promotes(x, d.needsReview, source.claimId(r.id))
  {
    var two := TwoWayDiff(t, s, target, source);
    var d := Forced(two, force);
    var id := source.claimId(r.id);
    PromotedExactly(specs, d.needsReview, table, id);
    NewClaimsExactly(t, s, target, source, ClaimFor(source, r));
    if c :| c in two.newClaims && c.claim.id == id {
      NewClaimsExactly(t, s, target, source, c);
      var q :| q in source.rows && Admitted(t, target.rows, q) && c == ClaimFor(source, q);
      OneRowPerId(source.rows, q, r);
    }
    IsNewConcat(two.newClaims, Promoted(specs, d.needsReview, table).0, id);
    if specs == [] { assert two.newClaims + [] == two.newClaims; }
  }
}
