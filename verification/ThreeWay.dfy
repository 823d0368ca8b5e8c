/** The three-way diff: conflicts against the snapshot taken at the fork, on top
    of the two-way diff. */
module ThreeWay {
  import opened Wrappers
  import opened Text
  import opened Graph
  import opened Diff
  import opened VectorPass
  import opened Apply
  import opened MergedGraph

  type Statements = map<ClaimId, string>

  /** `(id, statement)` pairs collected into a table: the last row wins. */
  function StatementsOf(rows: seq<Row>): Statements {
    if rows == [] then map[]
    else StatementsOf(rows[..|rows| - 1])[rows[|rows| - 1].id := rows[|rows| - 1].statement]
  }

  /** That is: an id has the statement of its last row. */
  lemma {:induction false} StatementsAreLast(rows: seq<Row>, id: ClaimId)
    ensures id in StatementsOf(rows) <==> exists i | 0 <= i < |rows| :: rows[i].id == id
    ensures forall i | 0 <= i < |rows| && rows[i].id == id && (forall j | i < j < |rows| :: rows[j].id != id) ::
      id in StatementsOf(rows) && StatementsOf(rows)[id] == rows[i].statement
  {
    if rows != [] {
      var n := |rows| - 1;
      StatementsAreLast(rows[..n], id);
      assert forall i | 0 <= i < n :: rows[..n][i] == rows[i];
      if rows[n].id == id {
      } else if i :| 0 <= i < |rows| && rows[i].id == id {
        assert rows[..n][i].id == id;
      }
    }
  }

  function At(m: Statements, id: ClaimId): Option<string> {
    if id in m then Some(m[id]) else None
  }

  function ConflictPair(base: Statements, ours: Statements, theirs: Statements, id: ClaimId,
                        kind: ConflictKind): ContradictionPair
    requires id in theirs
  {
    var main := if id in ours then ours[id]
                else "(deleted in ours; was: " + (if id in base then base[id] else "") + ")";
    ContradictionPair(id, id, main, theirs[id], Some(kind))
  }

  // ---- The rule ----

  /** The three versions of a claim, an absent one counting as a version, are
      pairwise different. */
  predicate Diverged(base: Statements, ours: Statements, theirs: Statements, id: ClaimId) {
    var b, o, t := At(base, id), At(ours, id), At(theirs, id);
    b != o && o != t && b != t
  }

  function AllDiverged(base: Statements, ours: Statements, theirs: Statements): set<ClaimId> {
    set id | id in theirs && Diverged(base, ours, theirs, id)
  }

  function KindOf(base: Statements, ours: Statements, id: ClaimId): ConflictKind {
    if id !in base then AddAdd else if id !in ours then DeleteModify else ModifyModify
  }

  ghost predicate ReportsExactly(base: Statements, ours: Statements, theirs: Statements, ids: set<ClaimId>,
                                 conflicts: seq<ContradictionPair>)
  {
    && (forall i, j | 0 <= i < j < |conflicts| :: conflicts[i].branchId != conflicts[j].branchId)
    && (forall p | p in conflicts ::
          p.branchId in ids && p.branchId in theirs
          && p == ConflictPair(base, ours, theirs, p.branchId, KindOf(base, ours, p.branchId)))
    && (forall id | id in ids :: exists p | p in conflicts :: p.branchId == id)
  }

  lemma ReportOne(base: Statements, ours: Statements, theirs: Statements, ids: set<ClaimId>,
                  conflicts: seq<ContradictionPair>, id: ClaimId)
    requires ReportsExactly(base, ours, theirs, ids, conflicts) && id !in ids && id in theirs
    ensures ReportsExactly(base, ours, theirs, ids + {id},
                           conflicts + [ConflictPair(base, ours, theirs, id, KindOf(base, ours, id))])
  {
    var p := ConflictPair(base, ours, theirs, id, KindOf(base, ours, id));
    var longer := conflicts + [p];
    forall i, j | 0 <= i < j < |longer| ensures longer[i].branchId != longer[j].branchId {
      assert longer[i] in conflicts;
    }
    assert p in longer;
    forall x | x in ids + {id} ensures exists q | q in longer :: q.branchId == x {
      if x in ids {
        var q :| q in conflicts && q.branchId == x;
        assert q in longer;
      }
    }
  }

  /** What has to be reported once case 1 has looked at the claims in `seen`. */
  function FoundInBoth(base: Statements, ours: Statements, theirs: Statements, seen: set<ClaimId>): set<ClaimId> {
    set id | id in theirs && id in seen && id in ours && Diverged(base, ours, theirs, id)
  }

  /** And once case 2, which follows case 1, has looked at them. */
  function FoundDeleted(base: Statements, ours: Statements, theirs: Statements, seen: set<ClaimId>): set<ClaimId> {
    set id | id in theirs && (id in seen || id in ours) && Diverged(base, ours, theirs, id)
  }

  /** Case 1 goes on to its report exactly for the diverged claims of both sides. */
  lemma BothSidesStep(base: Statements, ours: Statements, theirs: Statements, seen: set<ClaimId>, id: ClaimId,
                      conflicts: seq<ContradictionPair>)
    requires id in theirs && id !in seen
    requires ReportsExactly(base, ours, theirs, FoundInBoth(base, ours, theirs, seen), conflicts)
    ensures var skips := id !in ours || theirs[id] == ours[id]
                         || (id in base && (base[id] == ours[id] || base[id] == theirs[id]));
      var kind := if id in base then ModifyModify else AddAdd;
      var next := if skips then conflicts else conflicts + [ConflictPair(base, ours, theirs, id, kind)];
      ReportsExactly(base, ours, theirs, FoundInBoth(base, ours, theirs, seen + {id}), next)
  {
    var found, longer := FoundInBoth(base, ours, theirs, seen), FoundInBoth(base, ours, theirs, seen + {id});
    if id in ours && Diverged(base, ours, theirs, id) {
      assert longer == found + {id};
      ReportOne(base, ours, theirs, found, conflicts, id);
    } else {
      assert longer == found;
    }
  }

  lemma DeletedStep(base: Statements, ours: Statements, theirs: Statements, seen: set<ClaimId>, id: ClaimId,
                    conflicts: seq<ContradictionPair>)
    requires id in theirs && id !in seen
    requires ReportsExactly(base, ours, theirs, FoundDeleted(base, ours, theirs, seen), conflicts)
    ensures var skips := id !in base || id in ours || base[id] == theirs[id];
      var next := if skips then conflicts else conflicts + [ConflictPair(base, ours, theirs, id, DeleteModify)];
      ReportsExactly(base, ours, theirs, FoundDeleted(base, ours, theirs, seen + {id}), next)
  {
    var found, longer := FoundDeleted(base, ours, theirs, seen), FoundDeleted(base, ours, theirs, seen + {id});
    if id !in ours && Diverged(base, ours, theirs, id) {
      assert longer == found + {id};
      ReportOne(base, ours, theirs, found, conflicts, id);
    } else {
      assert longer == found;
    }
  }

  /** Case 1: claims both sides hold, taken in any order. */
  method BothSidesLoop(base: Statements, ours: Statements, theirs: Statements)
    returns (conflicts: seq<ContradictionPair>)
    ensures ReportsExactly(base, ours, theirs, FoundInBoth(base, ours, theirs, theirs.Keys), conflicts)
  {
    conflicts := [];
    var todo := theirs.Keys;
    ghost var seen := {};
    while todo != {}
      invariant seen + todo == theirs.Keys && seen !! todo
      invariant ReportsExactly(base, ours, theirs, FoundInBoth(base, ours, theirs, seen), conflicts)
      decreases |todo|
    {
      var id :| id in todo;
      BothSidesStep(base, ours, theirs, seen, id, conflicts);
      todo, seen := todo - {id}, seen + {id};
      if id !in ours || theirs[id] == ours[id] {
        continue;
      }
      if id in base && (base[id] == ours[id] || base[id] == theirs[id]) {
        continue;
      }
      var kind := if id in base then ModifyModify else AddAdd;
      conflicts := conflicts + [ConflictPair(base, ours, theirs, id, kind)];
    }
    assert seen == theirs.Keys;
  }

  /** Case 2: claims the target deleted, after those of case 1. */
  method DeletedLoop(base: Statements, ours: Statements, theirs: Statements, conflicts0: seq<ContradictionPair>)
    returns (conflicts: seq<ContradictionPair>)
    requires ReportsExactly(base, ours, theirs, FoundDeleted(base, ours, theirs, {}), conflicts0)
    ensures ReportsExactly(base, ours, theirs, FoundDeleted(base, ours, theirs, theirs.Keys), conflicts)
  {
    conflicts := conflicts0;
    var todo := theirs.Keys;
    ghost var seen := {};
    while todo != {}
      invariant seen + todo == theirs.Keys && seen !! todo
      invariant ReportsExactly(base, ours, theirs, FoundDeleted(base, ours, theirs, seen), conflicts)
      decreases |todo|
    {
      var id :| id in todo;
      DeletedStep(base, ours, theirs, seen, id, conflicts);
      todo, seen := todo - {id}, seen + {id};
      if id !in base || id in ours || base[id] == theirs[id] {
        continue;
      }
      conflicts := conflicts + [ConflictPair(base, ours, theirs, id, DeleteModify)];
    }
    assert seen == theirs.Keys;
  }

  /** Together the loops report an id exactly when the source has it and its three
      versions are pairwise different, once, with the kind the absent version
      decides. */
  method ThreeWayConflicts(base: Statements, ours: Statements, theirs: Statements)
    returns (conflicts: seq<ContradictionPair>)
    ensures ReportsExactly(base, ours, theirs, AllDiverged(base, ours, theirs), conflicts)
  {
    conflicts := BothSidesLoop(base, ours, theirs);
    assert FoundInBoth(base, ours, theirs, theirs.Keys) == FoundDeleted(base, ours, theirs, {});
    conflicts := DeletedLoop(base, ours, theirs, conflicts);
    assert FoundDeleted(base, ours, theirs, theirs.Keys) == AllDiverged(base, ours, theirs);
  }

  /** A diff with the three-way conflicts added to it. */
  function WithConflicts(two: KnowledgeDiff, conflicts: seq<ContradictionPair>): KnowledgeDiff {
    if conflicts == [] then two
    else two.(needsReview := two.needsReview + conflicts, mergeAllowed := false,
              blockingReasons := two.blockingReasons + [Reason.ThreeWayConflicts(|conflicts|)])
  }

  method ComputeThreeWayDiff(t: CharTable, s: Settings, base: seq<Row>, target: View, source: View)
    returns (diff: KnowledgeDiff, conflicts: seq<ContradictionPair>)
    ensures diff == WithConflicts(TwoWayDiff(t, s, target, source), conflicts)
    ensures var b, o, h := StatementsOf(base), StatementsOf(target.rows), StatementsOf(source.rows);
      ReportsExactly(b, o, h, AllDiverged(b, o, h), conflicts)
  {
    diff := ComputeDiffInto(t, s, target, source);
    conflicts := ThreeWayConflicts(StatementsOf(base), StatementsOf(target.rows), StatementsOf(source.rows));
    if conflicts != [] {
      diff := diff.(needsReview := diff.needsReview + conflicts, mergeAllowed := false,
                    blockingReasons := diff.blockingReasons + [Reason.ThreeWayConflicts(|conflicts|)]);
    }
  }

  lemma {:induction false} StatementsOfListed(rows: seq<Row>, m: map<ClaimId, Row>, id: ClaimId)
    requires forall r | r in rows :: r.id in m && m[r.id] == r
    ensures id in StatementsOf(rows) <==> exists r | r in rows :: r.id == id
    ensures id in StatementsOf(rows) ==> id in m && StatementsOf(rows)[id] == m[id].statement
  {
    if rows != [] {
      var n := |rows| - 1;
      assert rows == rows[..n] + [rows[n]];
      StatementsOfListed(rows[..n], m, id);
    }
  }

  // ---- Edits made only in the target ----

  /** When the source left a claim as it was at the fork and the target edited or
      deleted it, no conflict is reported, and yet the merge decides by the two-way
      rule: it writes the source's old version back exactly when the target lacks
      its normal form and no target claim contradicts it. */
  lemma TargetOnlyChange(t: CharTable, s: Settings, isId: IdCheck, claims: map<ClaimId, Claim>, base: seq<Row>,
                         target: View, sv: View, source: map<ClaimId, Row>, id: ClaimId)
    requires Lists(sv.rows, source) && DrawsIds(isId, sv, source) && id in source
    requires At(StatementsOf(base), id) == Some(source[id].statement)
    ensures !Diverged(StatementsOf(base), StatementsOf(target.rows), StatementsOf(sv.rows), id)
    ensures var merged := InsertClaims(claims, TwoWayDiff(t, s, target, sv).newClaims);
      var k := sv.claimId(id);
      if Admitted(t, target.rows, source[id]) then k in merged && merged[k].statement == source[id].statement
      else (id in merged <==> id in claims) && (id in merged ==> merged[id] == claims[id])
  {
    StatementsOfListed(sv.rows, source, id);
    assert source[id] in sv.rows;
    OwnIdOnly(isId, sv, source, id);
    ExactMergedClaims(t, s, isId, claims, target, sv, source,
                      if Admitted(t, target.rows, source[id]) then sv.claimId(id) else id);
  }

  /** The passes over one new row that nothing contradicts and that has no context. */
  lemma OneRowPasses(t: CharTable, s: Settings, sv: View, row: Row, main: Row)
    requires Norm(t, row.statement) != Norm(t, main.statement)
    requires !IsContradictionPair(t, row.statement, main.statement) && sv.entityNames(row.id) == []
    ensures NewRows(t, [main], [row]) == [row]
    ensures Pass1(t, s.threshold, [main], [row]) == PassOne([row], Findings([], []))
    ensures Pass2(t, s.threshold, ContextOfNew(sv, [row]), [row], [main], Findings([], [])) == Findings([], [])
    ensures ClaimsFor(sv, [row]) == [ClaimFor(sv, row)]
  {
    assert [row][..0] == [];
    assert FirstContradiction(t, row.statement, [main]) == None;
  }

  /** For instance: an edit of the only claim is undone without any review. */
  lemma TargetEditIsUndone(t: CharTable, s: Settings, target: View, sv: View, id: ClaimId, kept: string, edited: string,
                           c: real)
    requires sv.rows == [Row(id, kept, c)] && target.rows == [Row(id, edited, c)]
    requires Norm(t, kept) != Norm(t, edited) && !IsContradictionPair(t, kept, edited)
    requires sv.entityNames(id) == []
    ensures var diff := TwoWayDiff(t, s, target, sv);
      && diff.needsReview == [] && |diff.newClaims| == 1 && diff.newClaims[0].claim.id == sv.claimId(id)
      && diff.newClaims[0].claim.statement == kept
      && !Diverged(StatementsOf(sv.rows), StatementsOf(target.rows), StatementsOf(sv.rows), id)
  {
    OneRowPasses(t, s, sv, Row(id, kept, c), Row(id, edited, c));
    assert sv.rows[..0] == [];
    assert StatementsOf(sv.rows) == StatementsOf([])[id := kept];
  }
}
