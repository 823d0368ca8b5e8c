/** The third contradiction pass (vector neighbours), and what all three passes
    keep: no source claim is lost and no pair is flagged twice. */
module VectorPass {
  import opened Wrappers
  import opened Text
  import opened Graph
  import opened Diff

  datatype Neighbour = Neighbour(id: string, similarity: real)

  /** The two vector stores as the pass uses them: for a key that the source store has
      an embedding for, the nearest keys of the target store, in order.  The pass looks
      claim ids up as keys, and looks the keys it gets up as claim ids. */
  type Index = string -> Option<seq<Neighbour>>

  datatype VectorInput = VectorInput(
    indexed: bool, nearest: Index, target: seq<Row>, branch: seq<Row>,
    targetNames: EntityContext, branchNames: EntityContext,
    threshold: real, cosine: real)

  /** A lookup table built from a list: the last row of an id wins. */
  function ById(rows: seq<Row>, id: ClaimId): (r: Option<Row>)
    ensures r.Some? ==> r.value in rows && r.value.id == id
    ensures r.None? ==> forall x | x in rows :: x.id != id
  {
    if rows == [] then None
    else if rows[|rows| - 1].id == id then Some(rows[|rows| - 1])
    else ById(rows[..|rows| - 1], id)
  }

  predicate IsConflict(t: CharTable, v: VectorInput, f: Findings, row: Row, n: Neighbour) {
    && n.similarity >= v.cosine
    && !Flagged(f, row.id, n.id)
    && var main := ById(v.target, n.id);
       && main.Some?
       && Norm(t, row.statement) != Norm(t, main.value.statement)
       && ShareEntity(v.branchNames(row.id), v.targetNames(n.id))
  }

  /** At most one conflict a source claim: the first neighbour that qualifies. */
  function FirstConflict(t: CharTable, v: VectorInput, f: Findings, row: Row, near: seq<Neighbour>): (i: Option<nat>)
    ensures i.Some? ==> i.value < |near| && IsConflict(t, v, f, row, near[i.value])
    ensures i.Some? ==> forall j | 0 <= j < i.value :: !IsConflict(t, v, f, row, near[j])
    ensures i.None? <==> forall n | n in near :: !IsConflict(t, v, f, row, n)
  {
    if near == [] then None
    else if IsConflict(t, v, f, row, near[0]) then Some(0)
    else match FirstConflict(t, v, f, row, near[1..])
      case Some(k) => Some(k + 1)
      case None => None
  }

  predicate IsNew(newClaims: seq<DiffClaim>, id: ClaimId) {
    exists c | c in newClaims :: c.claim.id == id
  }

  function VectorRow(t: CharTable, v: VectorInput, newClaims: seq<DiffClaim>, row: Row, f: Findings): Findings {
    if !IsNew(newClaims, row.id) || v.branchNames(row.id) == [] || v.nearest(row.id) == None then f
    else
      var near := v.nearest(row.id).value;
      match FirstConflict(t, v, f, row, near)
      case Some(i) => Report(f, v.threshold, row, ById(v.target, near[i].id).value)
      case None => f
  }

  function VectorFindings(t: CharTable, v: VectorInput, newClaims: seq<DiffClaim>, rows: seq<Row>,
                          f: Findings): Findings
  {
    if rows == [] then f
    else VectorRow(t, v, newClaims, rows[|rows| - 1], VectorFindings(t, v, newClaims, rows[..|rows| - 1], f))
  }

  function FindingsOf(diff: KnowledgeDiff): Findings {
    Findings(diff.autoResolved, diff.needsReview)
  }

  function Total(f: Findings): nat {
    |f.autoResolved| + |f.needsReview|
  }

  /** The pairs a list of findings names, with multiplicity. */
  function AutoPairs(a: seq<AutoResolution>): multiset<(ClaimId, ClaimId)> {
    if a == [] then multiset{}
    else AutoPairs(a[..|a| - 1]) + multiset{(a[|a| - 1].branchId, a[|a| - 1].mainId)}
  }

  function ReviewPairs(r: seq<ContradictionPair>): multiset<(ClaimId, ClaimId)> {
    if r == [] then multiset{}
    else ReviewPairs(r[..|r| - 1]) + multiset{(r[|r| - 1].branchId, r[|r| - 1].mainId)}
  }

  function Pairs(f: Findings): multiset<(ClaimId, ClaimId)> {
    AutoPairs(f.autoResolved) + ReviewPairs(f.needsReview)
  }

  ghost predicate NoneTwice(f: Findings) {
    forall p :: Pairs(f)[p] <= 1
  }

  lemma {:induction false} AutoPairsMembers(a: seq<AutoResolution>, b: ClaimId, m: ClaimId)
    ensures (b, m) in AutoPairs(a) <==> exists r | r in a :: r.branchId == b && r.mainId == m
  {
    if a != [] {
      AutoPairsMembers(a[..|a| - 1], b, m);
      assert a == a[..|a| - 1] + [a[|a| - 1]];
    }
  }

  lemma {:induction false} ReviewPairsMembers(a: seq<ContradictionPair>, b: ClaimId, m: ClaimId)
    ensures (b, m) in ReviewPairs(a) <==> exists r | r in a :: r.branchId == b && r.mainId == m
  {
    if a != [] {
      ReviewPairsMembers(a[..|a| - 1], b, m);
      assert a == a[..|a| - 1] + [a[|a| - 1]];
    }
  }

  lemma FlaggedIsPair(f: Findings, b: ClaimId, m: ClaimId)
    ensures Flagged(f, b, m) <==> (b, m) in Pairs(f)
  {
    AutoPairsMembers(f.autoResolved, b, m);
    ReviewPairsMembers(f.needsReview, b, m);
  }

  /** A report adds its pair, once, and one finding. */
  lemma ReportAddsPair(f: Findings, threshold: real, row: Row, main: Row)
    ensures var g := Report(f, threshold, row, main);
      Pairs(g) == Pairs(f) + multiset{(row.id, main.id)} && Total(g) == Total(f) + 1
  {
    var g := Report(f, threshold, row, main);
    if g.autoResolved != f.autoResolved {
      assert g.autoResolved[..|g.autoResolved| - 1] == f.autoResolved;
    } else {
      assert g.needsReview[..|g.needsReview| - 1] == f.needsReview;
    }
  }

  ghost predicate Mirrors(flagged: set<(ClaimId, ClaimId)>, f: Findings) {
    forall b, m :: (b, m) in flagged <==> Flagged(f, b, m)
  }

  /** The inner loop: skip what cannot conflict, stop at the first that does. */
  method SearchNeighbours(t: CharTable, v: VectorInput, ghost f: Findings, flagged: set<(ClaimId, ClaimId)>, row: Row,
                          near: seq<Neighbour>)
    returns (hit: Option<nat>)
    requires Mirrors(flagged, f)
    ensures hit == FirstConflict(t, v, f, row, near)
  {
    for j := 0 to |near|
      invariant forall k | 0 <= k < j :: !IsConflict(t, v, f, row, near[k])
    {
      if near[j].similarity < v.cosine || (row.id, near[j].id) in flagged {
        continue;
      }
      var main := ById(v.target, near[j].id);
      if main == None || Norm(t, row.statement) == Norm(t, main.value.statement) {
        continue;
      }
      if !ShareEntity(v.branchNames(row.id), v.targetNames(near[j].id)) {
        continue;
      }
      assert IsConflict(t, v, f, row, near[j]);
      return Some(j);
    }
    hit := None;
  }

  lemma ReportKeepsMirror(flagged: set<(ClaimId, ClaimId)>, f: Findings, threshold: real, row: Row, main: Row)
    requires Mirrors(flagged, f)
    ensures Mirrors(flagged + {(row.id, main.id)}, Report(f, threshold, row, main))
  {
    var g := Report(f, threshold, row, main);
    ReportAddsPair(f, threshold, row, main);
    forall b, m ensures (b, m) in flagged + {(row.id, main.id)} <==> Flagged(g, b, m) {
      FlaggedIsPair(f, b, m);
      FlaggedIsPair(g, b, m);
    }
  }

  lemma FirstMirror(f: Findings)
    ensures Mirrors((set r | r in f.autoResolved :: (r.branchId, r.mainId))
                    + (set p | p in f.needsReview :: (p.branchId, p.mainId)), f)
  {
  }

  /** What the pass does for one source claim. */
  method VectorStep(t: CharTable, v: VectorInput, newClaims: seq<DiffClaim>, row: Row, f0: Findings,
                    flagged0: set<(ClaimId, ClaimId)>)
    returns (f: Findings, flagged: set<(ClaimId, ClaimId)>, found: nat)
    requires Mirrors(flagged0, f0)
    ensures f == VectorRow(t, v, newClaims, row, f0) && Mirrors(flagged, f)
    ensures Total(f) == Total(f0) + found
  {
    f, flagged, found := f0, flagged0, 0;
    if !IsNew(newClaims, row.id) || v.branchNames(row.id) == [] || v.nearest(row.id) == None {
      return;
    }
    var near := v.nearest(row.id).value;
    var hit := SearchNeighbours(t, v, f, flagged, row, near);
    if hit.Some? {
      var main := ById(v.target, near[hit.value].id).value;
      ReportAddsPair(f, v.threshold, row, main);
      ReportKeepsMirror(flagged, f, v.threshold, row, main);
      f, flagged, found := Report(f, v.threshold, row, main), flagged + {(row.id, main.id)}, 1;
    }
  }

  /** The pass with its own set of flagged pairs, as the code keeps it. */
  method ApplyVectorContradictionPass(t: CharTable, v: VectorInput, diff0: KnowledgeDiff)
    returns (diff: KnowledgeDiff, added: nat)
    ensures var f := if v.indexed then VectorFindings(t, v, diff0.newClaims, v.branch, FindingsOf(diff0))
                     else FindingsOf(diff0);
      && diff == diff0.(autoResolved := f.autoResolved, needsReview := f.needsReview)
      && added == Total(f) - Total(FindingsOf(diff0))
  {
    diff, added := diff0, 0;
    if !v.indexed {
      return;
    }
    var f := FindingsOf(diff0);
    var flagged := (set r | r in f.autoResolved :: (r.branchId, r.mainId))
                   + (set p | p in f.needsReview :: (p.branchId, p.mainId));
    FirstMirror(f);
    for i := 0 to |v.branch|
      invariant f == VectorFindings(t, v, diff0.newClaims, v.branch[..i], FindingsOf(diff0))
      invariant Mirrors(flagged, f)
      invariant Total(f) == Total(FindingsOf(diff0)) + added
    {
      assert v.branch[..i + 1][..i] == v.branch[..i];
      var found;
      f, flagged, found := VectorStep(t, v, diff0.newClaims, v.branch[i], f, flagged);
      added := added + found;
    }
    assert v.branch[..|v.branch|] == v.branch;
    diff := diff0.(autoResolved := f.autoResolved, needsReview := f.needsReview);
  }

  // ---- Every finding has its reason ----

  /** A resolution names a source row and a target row whose confidences differ by
      more than the threshold, and the more confident one wins. */
  ghost predicate AutoJustified(threshold: real, rows: seq<Row>, main: seq<Row>, r: AutoResolution) {
    exists row, m | row in rows && m in main ::
      && r.branchId == row.id && r.mainId == m.id
      && Abs(row.confidence - m.confidence) > threshold
      && r.winner == if row.confidence > m.confidence then row.id else m.id
  }

  /** A review quotes two rows whose confidences are within the threshold. */
  ghost predicate ReviewJustified(threshold: real, rows: seq<Row>, main: seq<Row>, p: ContradictionPair) {
    exists row, m | row in rows && m in main ::
      && p.branchId == row.id && p.mainId == m.id
      && p.branchStatement == row.statement && p.mainStatement == m.statement
      && Abs(row.confidence - m.confidence) <= threshold
  }

  ghost predicate Justified(threshold: real, rows: seq<Row>, main: seq<Row>, f: Findings) {
    && (forall r | r in f.autoResolved :: AutoJustified(threshold, rows, main, r))
    && (forall p | p in f.needsReview :: ReviewJustified(threshold, rows, main, p))
  }

  lemma ReportJustified(threshold: real, rows: seq<Row>, main: seq<Row>, f: Findings, row: Row, m: Row)
    requires Justified(threshold, rows, main, f) && row in rows && m in main
    ensures Justified(threshold, rows, main, Report(f, threshold, row, m))
  {
    var g := Report(f, threshold, row, m);
    forall r | r in g.autoResolved ensures AutoJustified(threshold, rows, main, r) {
      if r !in f.autoResolved { assert r.branchId == row.id && r.mainId == m.id; }
    }
    forall p | p in g.needsReview ensures ReviewJustified(threshold, rows, main, p) {
      if p !in f.needsReview { assert p.branchId == row.id && p.mainId == m.id; }
    }
  }

  lemma {:induction false} Pass1Justified(t: CharTable, threshold: real, main: seq<Row>, rows: seq<Row>, all: seq<Row>)
    requires forall r | r in rows :: r in all
    ensures Justified(threshold, all, main, Pass1(t, threshold, main, rows).findings)
  {
    if rows != [] {
      var n := |rows| - 1;
      Pass1Justified(t, threshold, main, rows[..n], all);
      var hit := FirstContradiction(t, rows[n].statement, main);
      if hit.Some? {
        ReportJustified(threshold, all, main, Pass1(t, threshold, main, rows[..n]).findings, rows[n], main[hit.value]);
      }
    }
  }

  lemma {:induction false} Pass2RowJustified(t: CharTable, threshold: real, names: EntityContext, row: Row,
                                             main: seq<Row>, f: Findings, all: seq<Row>, allMain: seq<Row>)
    requires Justified(threshold, all, allMain, f) && row in all && forall m | m in main :: m in allMain
    ensures Justified(threshold, all, allMain, Pass2Row(t, threshold, names, row, main, f))
  {
    if main != [] {
      var n := |main| - 1;
      Pass2RowJustified(t, threshold, names, row, main[..n], f, all, allMain);
      ReportJustified(threshold, all, allMain, Pass2Row(t, threshold, names, row, main[..n], f), row, main[n]);
    }
  }

  lemma {:induction false} Pass2Justified(t: CharTable, threshold: real, names: EntityContext, rows: seq<Row>,
                                          main: seq<Row>, f: Findings, all: seq<Row>)
    requires Justified(threshold, all, main, f) && forall r | r in rows :: r in all
    ensures Justified(threshold, all, main, Pass2(t, threshold, names, rows, main, f))
  {
    if rows != [] {
      var n := |rows| - 1;
      Pass2Justified(t, threshold, names, rows[..n], main, f, all);
      Pass2RowJustified(t, threshold, names, rows[n], main, Pass2(t, threshold, names, rows[..n], main, f), all, main);
    }
  }

  lemma {:induction false} VectorJustified(t: CharTable, v: VectorInput, newClaims: seq<DiffClaim>, rows: seq<Row>,
                                           f: Findings)
    requires Justified(v.threshold, v.branch, v.target, f) && forall r | r in rows :: r in v.branch
    ensures Justified(v.threshold, v.branch, v.target, VectorFindings(t, v, newClaims, rows, f))
  {
    if rows != [] {
      var n := |rows| - 1;
      var before := VectorFindings(t, v, newClaims, rows[..n], f);
      VectorJustified(t, v, newClaims, rows[..n], f);
      if v.nearest(rows[n].id).Some? {
        var near := v.nearest(rows[n].id).value;
        var hit := FirstConflict(t, v, before, rows[n], near);
        if hit.Some? {
          ReportJustified(v.threshold, v.branch, v.target, before, rows[n], ById(v.target, near[hit.value].id).value);
        }
      }
    }
  }

  /** After two passes and after three, every finding is about a source row and a
      target row, resolved for the more confident one exactly when the gap between
      them exceeds the threshold. */
  lemma FindingsJustified(t: CharTable, s: Settings, target: View, source: View, v: VectorInput)
    requires v.target == target.rows && v.branch == source.rows && v.threshold == s.threshold
    ensures var two := TwoWayFindings(t, s, target, source);
      && Justified(s.threshold, source.rows, target.rows, two)
      && Justified(s.threshold, source.rows, target.rows,
                   VectorFindings(t, v, TwoWayDiff(t, s, target, source).newClaims, v.branch, two))
  {
    var added := NewRows(t, target.rows, source.rows);
    Pass1Justified(t, s.threshold, target.rows, added, source.rows);
    Pass2Justified(t, s.threshold, ContextOfNew(source, added), added, target.rows,
                   Pass1(t, s.threshold, target.rows, added).findings, source.rows);
    VectorJustified(t, v, TwoWayDiff(t, s, target, source).newClaims, v.branch, TwoWayFindings(t, s, target, source));
  }

  // ---- What pass 3 finds ----

  /** The target claim that pass 3 flags for a row, given the findings before it. */
  function Hit(t: CharTable, v: VectorInput, newClaims: seq<DiffClaim>, f: Findings, row: Row): (m: Option<ClaimId>)
    ensures m.Some? ==> v.nearest(row.id).Some? && exists n | n in v.nearest(row.id).value :: n.id == m.value
    ensures m.Some? ==> IsNew(newClaims, row.id) && !Flagged(f, row.id, m.value) && ById(v.target, m.value).Some?
  {
    if !IsNew(newClaims, row.id) || v.branchNames(row.id) == [] || v.nearest(row.id) == None then None
    else
      var near := v.nearest(row.id).value;
      match FirstConflict(t, v, f, row, near)
      case Some(i) => Some(near[i].id)
      case None => None
  }

  /** The neighbour is close enough, its id is that of a target row (the last, if there
      are several) which says something else about a common entity, and the pair is not
      flagged yet. */
  ghost predicate Qualifies(t: CharTable, v: VectorInput, f: Findings, row: Row, n: Neighbour) {
    && n.similarity >= v.cosine && !Flagged(f, row.id, n.id)
    && (exists e :: e in v.branchNames(row.id) && e in v.targetNames(n.id))
    && exists i | 0 <= i < |v.target| :: v.target[i].id == n.id
         && (forall j | i < j < |v.target| :: v.target[j].id != n.id)
         && Norm(t, row.statement) != Norm(t, v.target[i].statement)
  }

  lemma {:induction false} ByIdIsLast(rows: seq<Row>, i: nat)
    requires i < |rows| && forall j | i < j < |rows| :: rows[j].id != rows[i].id
    ensures ById(rows, rows[i].id) == Some(rows[i])
  {
    if i < |rows| - 1 { ByIdIsLast(rows[..|rows| - 1], i); }
  }

  lemma {:induction false} SomeLast(rows: seq<Row>, id: ClaimId) returns (i: nat)
    requires exists r | r in rows :: r.id == id
    ensures i < |rows| && rows[i].id == id && forall j | i < j < |rows| :: rows[j].id != id
  {
    var n := |rows| - 1;
    i := n;
    if rows[n].id != id {
      assert rows == rows[..n] + [rows[n]];
      i := SomeLast(rows[..n], id);
    }
  }

  lemma ConflictIff(t: CharTable, v: VectorInput, f: Findings, row: Row, n: Neighbour)
    ensures IsConflict(t, v, f, row, n) <==> Qualifies(t, v, f, row, n)
  {
    if exists r | r in v.target :: r.id == n.id {
      var i := SomeLast(v.target, n.id);
      ByIdIsLast(v.target, i);
      forall k | 0 <= k < |v.target| && v.target[k].id == n.id
                 && (forall j | k < j < |v.target| :: v.target[j].id != n.id)
        ensures k == i
      {
      }
    }
  }

  /** What pass 3 flags for a new row: its first neighbour that qualifies, if any does. */
  lemma HitIff(t: CharTable, v: VectorInput, newClaims: seq<DiffClaim>, f: Findings, row: Row)
    ensures Hit(t, v, newClaims, f, row) == None <==>
      (exists c | c in newClaims :: c.claim.id == row.id) && v.nearest(row.id).Some? ==>
        forall n | n in v.nearest(row.id).value :: !Qualifies(t, v, f, row, n)
    ensures Hit(t, v, newClaims, f, row).Some? ==>
      && (exists c | c in newClaims :: c.claim.id == row.id) && v.nearest(row.id).Some?
      && var near := v.nearest(row.id).value;
         exists i | 0 <= i < |near| :: Hit(t, v, newClaims, f, row) == Some(near[i].id)
           && Qualifies(t, v, f, row, near[i]) && forall j | 0 <= j < i :: !Qualifies(t, v, f, row, near[j])
  {
    forall n ensures IsConflict(t, v, f, row, n) <==> Qualifies(t, v, f, row, n) {
      ConflictIff(t, v, f, row, n);
    }
  }

  lemma VectorRowHits(t: CharTable, v: VectorInput, newClaims: seq<DiffClaim>, row: Row, f: Findings)
    ensures var g, hit := VectorRow(t, v, newClaims, row, f), Hit(t, v, newClaims, f, row);
      && (hit == None ==> g == f)
      && (hit.Some? ==> Total(g) == Total(f) + 1 && Pairs(g) == Pairs(f) + multiset{(row.id, hit.value)})
  {
    var hit := Hit(t, v, newClaims, f, row);
    if hit.Some? {
      ReportAddsPair(f, v.threshold, row, ById(v.target, hit.value).value);
    }
  }

  /** Pass 3 adds a finding exactly when it would for some row taken alone. */
  lemma {:induction false} VectorFindsIff(t: CharTable, v: VectorInput, newClaims: seq<DiffClaim>, rows: seq<Row>,
                                          f: Findings)
    ensures var g := VectorFindings(t, v, newClaims, rows, f);
      && Total(f) <= Total(g) && (Total(f) == Total(g) ==> f == g)
      && (g == f <==> forall row | row in rows :: Hit(t, v, newClaims, f, row) == None)
  {
    if rows != [] {
      var n := |rows| - 1;
      assert rows == rows[..n] + [rows[n]];
      VectorFindsIff(t, v, newClaims, rows[..n], f);
      VectorRowHits(t, v, newClaims, rows[n], VectorFindings(t, v, newClaims, rows[..n], f));
    }
  }

  lemma {:induction false} FirstConflictSame(t: CharTable, v: VectorInput, f: Findings, g: Findings, row: Row,
                                             near: seq<Neighbour>)
    requires forall m :: Flagged(f, row.id, m) <==> Flagged(g, row.id, m)
    ensures FirstConflict(t, v, f, row, near) == FirstConflict(t, v, g, row, near)
  {
    if near != [] { FirstConflictSame(t, v, f, g, row, near[1..]); }
  }

  predicate DistinctIds(rows: seq<Row>) {
    forall i, j | 0 <= i < j < |rows| :: rows[i].id != rows[j].id
  }

  lemma HitSame(t: CharTable, v: VectorInput, newClaims: seq<DiffClaim>, f: Findings, g: Findings, row: Row)
    requires forall m :: Flagged(f, row.id, m) <==> Flagged(g, row.id, m)
    ensures Hit(t, v, newClaims, f, row) == Hit(t, v, newClaims, g, row)
  {
    if v.nearest(row.id).Some? { FirstConflictSame(t, v, f, g, row, v.nearest(row.id).value); }
  }

  lemma VectorRowFlags(t: CharTable, v: VectorInput, newClaims: seq<DiffClaim>, row: Row, f: Findings, b: ClaimId,
                       m: ClaimId)
    ensures Flagged(VectorRow(t, v, newClaims, row, f), b, m) <==>
      Flagged(f, b, m) || (row.id == b && Hit(t, v, newClaims, f, row) == Some(m))
  {
    VectorRowHits(t, v, newClaims, row, f);
    FlaggedIsPair(f, b, m);
    FlaggedIsPair(VectorRow(t, v, newClaims, row, f), b, m);
  }

  /** The pairs that pass 3 adds, in any order of rows: each row with its first
      qualifying neighbour.  What it flags for one row never bears on another. */
  lemma {:induction false} VectorFlagsExactly(t: CharTable, v: VectorInput, newClaims: seq<DiffClaim>, rows: seq<Row>,
                                              f: Findings, b: ClaimId, m: ClaimId)
    requires DistinctIds(rows)
    ensures Flagged(VectorFindings(t, v, newClaims, rows, f), b, m) <==>
      Flagged(f, b, m) || exists r | r in rows :: r.id == b && Hit(t, v, newClaims, f, r) == Some(m)
  {
    if rows != [] {
      var n := |rows| - 1;
      var row, before := rows[n], VectorFindings(t, v, newClaims, rows[..n], f);
      assert rows == rows[..n] + [row];
      VectorFlagsExactly(t, v, newClaims, rows[..n], f, b, m);
      forall k ensures Flagged(before, row.id, k) <==> Flagged(f, row.id, k) {
        VectorFlagsExactly(t, v, newClaims, rows[..n], f, row.id, k);
      }
      HitSame(t, v, newClaims, f, before, row);
      VectorRowFlags(t, v, newClaims, row, before, b, m);
    }
  }

  /** On stores whose keys are not claim ids pass 3 finds nothing: it is enough that
      no source row's id is a key of the source store, or that no key of the target
      store is a target row's id. */
  lemma ForeignKeysFindNothing(t: CharTable, v: VectorInput, newClaims: seq<DiffClaim>, f: Findings)
    requires (forall row | row in v.branch :: v.nearest(row.id) == None)
      || (forall id, n, row | v.nearest(id).Some? && n in v.nearest(id).value && row in v.target :: n.id != row.id)
    ensures VectorFindings(t, v, newClaims, v.branch, f) == f
  {
    VectorFindsIff(t, v, newClaims, v.branch, f);
  }

  // ---- What pass 2 flags ----

  lemma ReportFlags(f: Findings, threshold: real, row: Row, main: Row, b: ClaimId, m: ClaimId)
    ensures Flagged(Report(f, threshold, row, main), b, m) <==> Flagged(f, b, m) || (b == row.id && m == main.id)
  {
    ReportAddsPair(f, threshold, row, main);
    FlaggedIsPair(f, b, m);
    FlaggedIsPair(Report(f, threshold, row, main), b, m);
  }

  ghost predicate OverlapsSome(t: CharTable, names: EntityContext, row: Row, main: seq<Row>, m: ClaimId) {
    exists x | x in main :: x.id == m && Overlaps(t, names, row, x)
  }

  lemma OverlapFlags(t: CharTable, threshold: real, names: EntityContext, row: Row, last: Row, f: Findings,
                     b: ClaimId, m: ClaimId)
    ensures Flagged(if Overlapping(t, names, f, row, last) then Report(f, threshold, row, last) else f, b, m)
       <==> Flagged(f, b, m) || (b == row.id && last.id == m && Overlaps(t, names, row, last))
  {
    ReportFlags(f, threshold, row, last, b, m);
  }

  lemma {:induction false} Pass2RowFlags(t: CharTable, threshold: real, names: EntityContext, row: Row, main: seq<Row>,
                                         f: Findings, b: ClaimId, m: ClaimId)
    ensures Flagged(Pass2Row(t, threshold, names, row, main, f), b, m)
       <==> Flagged(f, b, m) || (b == row.id && OverlapsSome(t, names, row, main, m))
  {
    if main != [] {
      var n := |main| - 1;
      var before := Pass2Row(t, threshold, names, row, main[..n], f);
      Pass2RowFlags(t, threshold, names, row, main[..n], f, b, m);
      OverlapFlags(t, threshold, names, row, main[n], before, b, m);
      OverlapsSomeSnoc(t, names, row, main[..n], main[n], m);
      assert main == main[..n] + [main[n]];
    }
  }

  lemma OverlapsSomeSnoc(t: CharTable, names: EntityContext, row: Row, main: seq<Row>, last: Row, m: ClaimId)
    ensures OverlapsSome(t, names, row, main + [last], m)
       <==> OverlapsSome(t, names, row, main, m) || (last.id == m && Overlaps(t, names, row, last))
  {
    if x :| x in main && x.id == m && Overlaps(t, names, row, x) { assert x in main + [last]; }
    if last.id == m && Overlaps(t, names, row, last) { assert last in main + [last]; }
  }

  /** Pass 2 adds exactly the pairs that overlap, whatever order the rows come in and
      whatever was flagged before. */
  lemma {:induction false} Pass2FlagsExactly(t: CharTable, threshold: real, names: EntityContext, rows: seq<Row>,
                                             main: seq<Row>, f: Findings, b: ClaimId, m: ClaimId)
    ensures Flagged(Pass2(t, threshold, names, rows, main, f), b, m)
       <==> Flagged(f, b, m) || exists row | row in rows :: row.id == b && OverlapsSome(t, names, row, main, m)
  {
    if rows != [] {
      var n := |rows| - 1;
      var before := Pass2(t, threshold, names, rows[..n], main, f);
      Pass2FlagsExactly(t, threshold, names, rows[..n], main, f, b, m);
      Pass2RowFlags(t, threshold, names, rows[n], main, before, b, m);
      assert rows == rows[..n] + [rows[n]];
      if names(rows[n].id) == [] {
        assert !OverlapsSome(t, names, rows[n], main, m);
      }
    }
  }

  // ---- No pair is flagged twice ----

  lemma ReportKeepsNoneTwice(f: Findings, threshold: real, row: Row, main: Row)
    requires NoneTwice(f) && !Flagged(f, row.id, main.id)
    ensures NoneTwice(Report(f, threshold, row, main))
  {
    ReportAddsPair(f, threshold, row, main);
    FlaggedIsPair(f, row.id, main.id);
    forall p ensures Pairs(Report(f, threshold, row, main))[p] <= 1 {
      assert Pairs(f)[p] <= 1;
      if p == (row.id, main.id) { assert Pairs(f)[p] == 0; }
    }
  }

  /** Pass 1 flags at most one pair a row, under that row's id. */
  lemma {:induction false} Pass1NoneTwice(t: CharTable, threshold: real, main: seq<Row>, rows: seq<Row>)
    requires DistinctIds(rows)
    ensures var f := Pass1(t, threshold, main, rows).findings;
      NoneTwice(f) && forall p | p in Pairs(f) :: exists r | r in rows :: r.id == p.0
  {
    if rows != [] {
      var n := |rows| - 1;
      var before := Pass1(t, threshold, main, rows[..n]).findings;
      Pass1NoneTwice(t, threshold, main, rows[..n]);
      match FirstContradiction(t, rows[n].statement, main) {
        case None =>
        case Some(i) =>
          FlaggedIsPair(before, rows[n].id, main[i].id);
          ReportKeepsNoneTwice(before, threshold, rows[n], main[i]);
          ReportAddsPair(before, threshold, rows[n], main[i]);
          assert rows[n] in rows;
      }
    }
  }

  lemma {:induction false} Pass2RowNoneTwice(t: CharTable, threshold: real, names: EntityContext, row: Row,
                                             main: seq<Row>, f: Findings)
    requires NoneTwice(f)
    ensures NoneTwice(Pass2Row(t, threshold, names, row, main, f))
  {
    if main != [] {
      var n := |main| - 1;
      Pass2RowNoneTwice(t, threshold, names, row, main[..n], f);
      var before := Pass2Row(t, threshold, names, row, main[..n], f);
      if Overlapping(t, names, before, row, main[n]) {
        ReportKeepsNoneTwice(before, threshold, row, main[n]);
      }
    }
  }

  lemma {:induction false} Pass2NoneTwice(t: CharTable, threshold: real, names: EntityContext, rows: seq<Row>,
                                          main: seq<Row>, f: Findings)
    requires NoneTwice(f)
    ensures NoneTwice(Pass2(t, threshold, names, rows, main, f))
  {
    if rows != [] {
      var n := |rows| - 1;
      Pass2NoneTwice(t, threshold, names, rows[..n], main, f);
      Pass2RowNoneTwice(t, threshold, names, rows[n], main, Pass2(t, threshold, names, rows[..n], main, f));
    }
  }

  lemma {:induction false} VectorNoneTwice(t: CharTable, v: VectorInput, newClaims: seq<DiffClaim>, rows: seq<Row>,
                                           f: Findings)
    requires NoneTwice(f)
    ensures NoneTwice(VectorFindings(t, v, newClaims, rows, f))
  {
    if rows != [] {
      var n := |rows| - 1;
      var before := VectorFindings(t, v, newClaims, rows[..n], f);
      VectorNoneTwice(t, v, newClaims, rows[..n], f);
      if v.nearest(rows[n].id).Some? {
        var near := v.nearest(rows[n].id).value;
        match FirstConflict(t, v, before, rows[n], near) {
          case None =>
          case Some(i) => ReportKeepsNoneTwice(before, v.threshold, rows[n], ById(v.target, near[i].id).value);
        }
      }
    }
  }

  lemma {:induction false} NewRowsDistinct(t: CharTable, main: seq<Row>, branch: seq<Row>)
    requires DistinctIds(branch)
    ensures DistinctIds(NewRows(t, main, branch))
  {
    if branch != [] {
      var n := |branch| - 1;
      NewRowsDistinct(t, main, branch[..n]);
      var before := NewRows(t, main, branch[..n]);
      forall i | 0 <= i < |before| ensures before[i].id != branch[n].id {
        assert before[i] in branch[..n];
      }
    }
  }

  /** Through all three passes, no (source claim, target claim) pair is flagged
      twice, provided the source graph lists each claim once. */
  lemma NoPairFlaggedTwice(t: CharTable, s: Settings, target: View, source: View, v: VectorInput)
    requires DistinctIds(source.rows)
    ensures var two := TwoWayFindings(t, s, target, source);
      && NoneTwice(two)
      && NoneTwice(VectorFindings(t, v, TwoWayDiff(t, s, target, source).newClaims, v.branch, two))
  {
    var added := NewRows(t, target.rows, source.rows);
    NewRowsDistinct(t, target.rows, source.rows);
    Pass1NoneTwice(t, s.threshold, target.rows, added);
    var one := Pass1(t, s.threshold, target.rows, added).findings;
    Pass2NoneTwice(t, s.threshold, ContextOfNew(source, added), added, target.rows, one);
    VectorNoneTwice(t, v, TwoWayDiff(t, s, target, source).newClaims, v.branch, TwoWayFindings(t, s, target, source));
  }

  // ---- Nothing is lost ----

  function Ids(rows: seq<Row>): multiset<ClaimId> {
    if rows == [] then multiset{} else Ids(rows[..|rows| - 1]) + multiset{rows[|rows| - 1].id}
  }

  function BranchIds(f: Findings): multiset<ClaimId> {
    AutoIds(f.autoResolved) + ReviewIds(f.needsReview)
  }

  function AutoIds(a: seq<AutoResolution>): multiset<ClaimId> {
    if a == [] then multiset{} else AutoIds(a[..|a| - 1]) + multiset{a[|a| - 1].branchId}
  }

  function ReviewIds(r: seq<ContradictionPair>): multiset<ClaimId> {
    if r == [] then multiset{} else ReviewIds(r[..|r| - 1]) + multiset{r[|r| - 1].branchId}
  }

  lemma ReportAddsId(f: Findings, threshold: real, row: Row, main: Row)
    ensures BranchIds(Report(f, threshold, row, main)) == BranchIds(f) + multiset{row.id}
  {
    var g := Report(f, threshold, row, main);
    if g.autoResolved != f.autoResolved {
      assert g.autoResolved[..|g.autoResolved| - 1] == f.autoResolved;
    } else {
      assert g.needsReview[..|g.needsReview| - 1] == f.needsReview;
    }
  }

  ghost predicate ContradictsNone(t: CharTable, r: Row, main: seq<Row>) {
    forall m | m in main :: !IsContradictionPair(t, r.statement, m.statement)
  }

  /** Pass 1 keeps a row exactly when it contradicts no target row. */
  lemma {:induction false} Pass1Keeps(t: CharTable, threshold: real, main: seq<Row>, rows: seq<Row>, r: Row)
    ensures r in Pass1(t, threshold, main, rows).kept <==> r in rows && ContradictsNone(t, r, main)
  {
    if rows != [] {
      var n := |rows| - 1;
      Pass1Keeps(t, threshold, main, rows[..n], r);
      assert rows == rows[..n] + [rows[n]];
    }
  }

  /** After pass 1 every new row sits in exactly one of the three lists: the ids
      of the rows are, with multiplicity, the ids of the lists together. */
  lemma {:induction false} Pass1Conserves(t: CharTable, threshold: real, main: seq<Row>, rows: seq<Row>)
    ensures var p := Pass1(t, threshold, main, rows);
      Ids(rows) == Ids(p.kept) + BranchIds(p.findings)
  {
    if rows != [] {
      var n := |rows| - 1;
      Pass1Conserves(t, threshold, main, rows[..n]);
      var before := Pass1(t, threshold, main, rows[..n]);
      match FirstContradiction(t, rows[n].statement, main) {
        case None =>
          assert (before.kept + [rows[n]])[..|before.kept|] == before.kept;
        case Some(i) =>
          ReportAddsId(before.findings, threshold, rows[n], main[i]);
      }
    }
  }

  /** Pass 2 looks target claims up among the new source claims' entities, so it
      can only flag a target claim whose id a new source claim carries. */
  lemma {:induction false} Pass2RowReach(t: CharTable, threshold: real, source: View, added: seq<Row>, row: Row,
                                         main: seq<Row>, f: Findings)
    ensures forall p | p in Pairs(Pass2Row(t, threshold, ContextOfNew(source, added), row, main, f)) ::
      p in Pairs(f) || exists r | r in added :: r.id == p.1
  {
    if main != [] {
      var n := |main| - 1;
      var names := ContextOfNew(source, added);
      var before := Pass2Row(t, threshold, names, row, main[..n], f);
      Pass2RowReach(t, threshold, source, added, row, main[..n], f);
      if Overlapping(t, names, before, row, main[n]) {
        ReportAddsPair(before, threshold, row, main[n]);
        assert names(main[n].id) != [];
      }
    }
  }

  lemma {:induction false} Pass2Reach(t: CharTable, threshold: real, source: View, added: seq<Row>, rows: seq<Row>,
                                      main: seq<Row>, f: Findings)
    ensures forall p | p in Pairs(Pass2(t, threshold, ContextOfNew(source, added), rows, main, f)) ::
      p in Pairs(f) || exists r | r in added :: r.id == p.1
  {
    if rows != [] {
      var n := |rows| - 1;
      var names := ContextOfNew(source, added);
      Pass2Reach(t, threshold, source, added, rows[..n], main, f);
      Pass2RowReach(t, threshold, source, added, rows[n], main, Pass2(t, threshold, names, rows[..n], main, f));
    }
  }

  /** A source row a merge brings over: no target row has its normal form and
      none contradicts it. */
  ghost predicate Admitted(t: CharTable, main: seq<Row>, r: Row) {
    Norm(t, r.statement) !in Norms(t, main) && ContradictsNone(t, r, main)
  }

  lemma KeptExactly(t: CharTable, s: Settings, target: View, source: View, r: Row)
    ensures r in Pass1(t, s.threshold, target.rows, NewRows(t, target.rows, source.rows)).kept
       <==> r in source.rows && Admitted(t, target.rows, r)
  {
    Pass1Keeps(t, s.threshold, target.rows, NewRows(t, target.rows, source.rows), r);
  }

  // ---- Contradictions are flagged, and stay flagged ----

  lemma {:induction false} Pass2RowGrows(t: CharTable, threshold: real, names: EntityContext, row: Row, main: seq<Row>,
                                         f: Findings)
    ensures Pairs(f) <= Pairs(Pass2Row(t, threshold, names, row, main, f))
  {
    if main != [] {
      var n := |main| - 1;
      Pass2RowGrows(t, threshold, names, row, main[..n], f);
      ReportAddsPair(Pass2Row(t, threshold, names, row, main[..n], f), threshold, row, main[n]);
    }
  }

  lemma {:induction false} Pass2Grows(t: CharTable, threshold: real, names: EntityContext, rows: seq<Row>,
                                      main: seq<Row>, f: Findings)
    ensures Pairs(f) <= Pairs(Pass2(t, threshold, names, rows, main, f))
  {
    if rows != [] {
      var n := |rows| - 1;
      Pass2Grows(t, threshold, names, rows[..n], main, f);
      Pass2RowGrows(t, threshold, names, rows[n], main, Pass2(t, threshold, names, rows[..n], main, f));
    }
  }

  /** Some target row contradicts `r`, and the pair is flagged. */
  ghost predicate FlaggedAgainstOne(t: CharTable, f: Findings, main: seq<Row>, r: Row) {
    exists m | m in main :: IsContradictionPair(t, r.statement, m.statement) && (r.id, m.id) in Pairs(f)
  }

  lemma MoreFindingsFlagMore(t: CharTable, f: Findings, g: Findings, main: seq<Row>, r: Row)
    requires FlaggedAgainstOne(t, f, main, r) && Pairs(f) <= Pairs(g)
    ensures FlaggedAgainstOne(t, g, main, r)
  {
  }

  lemma FirstIsFlagged(t: CharTable, threshold: real, f: Findings, main: seq<Row>, r: Row)
    requires !ContradictsNone(t, r, main)
    ensures FirstContradiction(t, r.statement, main).Some?
    ensures FlaggedAgainstOne(t, Report(f, threshold, r, main[FirstContradiction(t, r.statement, main).value]), main, r)
  {
    var i := FirstContradiction(t, r.statement, main).value;
    ReportAddsPair(f, threshold, r, main[i]);
    assert main[i] in main;
  }

  lemma {:induction false} Pass1Flags(t: CharTable, threshold: real, main: seq<Row>, rows: seq<Row>, k: nat)
    requires k < |rows| && !ContradictsNone(t, rows[k], main)
    ensures FlaggedAgainstOne(t, Pass1(t, threshold, main, rows).findings, main, rows[k])
  {
    var n := |rows| - 1;
    var before, hit := Pass1(t, threshold, main, rows[..n]).findings, FirstContradiction(t, rows[n].statement, main);
    if k == n {
      FirstIsFlagged(t, threshold, before, main, rows[n]);
    } else {
      Pass1Flags(t, threshold, main, rows[..n], k);
      if hit.Some? {
        ReportAddsPair(before, threshold, rows[n], main[hit.value]);
        MoreFindingsFlagMore(t, before, Report(before, threshold, rows[n], main[hit.value]), main, rows[k]);
      }
    }
  }

  /** When the two passes find nothing, no new row contradicts a target row. */
  lemma NoFindingsNoContradictions(t: CharTable, s: Settings, target: View, source: View, r: Row)
    requires TwoWayFindings(t, s, target, source) == Findings([], [])
    requires r in NewRows(t, target.rows, source.rows)
    ensures ContradictsNone(t, r, target.rows)
  {
    var added := NewRows(t, target.rows, source.rows);
    var one := Pass1(t, s.threshold, target.rows, added).findings;
    if !ContradictsNone(t, r, target.rows) {
      var k :| 0 <= k < |added| && added[k] == r;
      Pass1Flags(t, s.threshold, target.rows, added, k);
      Pass2Grows(t, s.threshold, ContextOfNew(source, added), added, target.rows, one);
      MoreFindingsFlagMore(t, one, Findings([], []), target.rows, r);
      assert false;
    }
  }

  /** What becomes a new claim, exactly: the admitted source rows; the later
      passes do not change it. */
  lemma NewClaimsExactly(t: CharTable, s: Settings, target: View, source: View, c: DiffClaim)
    ensures c in TwoWayDiff(t, s, target, source).newClaims <==>
      exists r | r in source.rows && Admitted(t, target.rows, r) :: c == ClaimFor(source, r)
  {
    var kept := Pass1(t, s.threshold, target.rows, NewRows(t, target.rows, source.rows)).kept;
    var claims := ClaimsFor(source, kept);
    if c in claims {
      var i :| 0 <= i < |claims| && claims[i] == c;
      KeptExactly(t, s, target, source, kept[i]);
    }
    if r :| r in source.rows && Admitted(t, target.rows, r) && c == ClaimFor(source, r) {
      KeptExactly(t, s, target, source, r);
      var i :| 0 <= i < |kept| && kept[i] == r;
      assert claims[i] == c;
    }
  }
}
