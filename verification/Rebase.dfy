/** Repeating a rebase: each round pulls the parent's new claims into the branch,
    until there are none, or none that the branch would show. */
module Rebase {
  import opened Text
  import opened Graph
  import opened Diff
  import opened VectorPass
  import opened Apply
  import opened MergedGraph
  import opened Sequences

  /** One `rebase_branch`: the branch before, after the loops and after the
      rebuild, and what the diff read of branch and parent, in any order. */
  datatype Round = Round(before: GraphState, loops: GraphState, after: GraphState, branch: View, parent: View)

  function DiffOf(t: CharTable, s: Settings, r: Round): KnowledgeDiff {
    TwoWayDiff(t, s, r.branch, r.parent)
  }

  /** The claim-to-source table that the diff reads is the parent's own, as far as
      its ids parse. */
  ghost predicate ReadsSources(isId: IdCheck, parent: GraphState, v: View) {
    forall id ::
      && (id in v.sourceOf <==> id in parent.claims && isId(parent.claims[id].source))
      && (id in v.sourceOf ==> v.sourceOf[id] == parent.claims[id].source)
  }

  /** Ids that a round draws appear in neither graph. */
  ghost predicate DrawsNewIds(isId: IdCheck, parent: GraphState, branch: GraphState, v: View) {
    && DrawsIds(isId, v, Rows(parent))
    && (forall id :: v.freshSource(id) !in parent.sources && v.freshSource(id) !in branch.sources)
    && (forall id | id in Rows(parent) && !isId(id) ::
          v.claimId(id) !in branch.claims && forall x | x in branch.claimSources :: x.0 != v.claimId(id))
  }

  ghost predicate IsRound(t: CharTable, s: Settings, isId: IdCheck, parent: GraphState, r: Round) {
    && WellKeyed(r.before)
    && Lists(r.branch.rows, Rows(r.before)) && Lists(r.parent.rows, Rows(parent))
    && ReadsSources(isId, parent, r.parent) && DrawsNewIds(isId, parent, r.before, r.parent)
    && DiffOf(t, s, r).mergeAllowed
    && Applied(r.before, parent, DiffOf(t, s, r), r.loops)
    && r.after == r.loops.(relations := set x | x in r.loops.scopedRelations :: x.key)
  }

  ghost predicate IsRebaseRun(t: CharTable, s: Settings, isId: IdCheck, parent: GraphState, rounds: seq<Round>) {
    && (forall r | r in rounds :: IsRound(t, s, isId, parent, r))
    && (forall i, j | 0 <= i < j < |rounds| && j == i + 1 :: rounds[i].after == rounds[j].before)
  }

  /** No witness of the branch resolves, now or with the parent's source records: the
      branch answers from its claims. */
  ghost predicate Silent(parent: GraphState, branch: GraphState) {
    forall w | w in branch.witnesses :: branch.witnesses[w].source !in branch.sources + parent.sources
  }

  /** The round admits this parent row. */
  ghost predicate Admits(t: CharTable, parent: GraphState, r: Round, id: ClaimId) {
    Overrides(t, r.branch.rows, Rows(parent), id)
  }

  lemma AdmitsNewClaim(t: CharTable, s: Settings, isId: IdCheck, parent: GraphState, r: Round, id: ClaimId)
    requires IsRound(t, s, isId, parent, r) && Admits(t, parent, r, id)
    ensures var d := ClaimFor(r.parent, Rows(parent)[id]);
      && d in DiffOf(t, s, r).newClaims && d.claim.id == r.parent.claimId(id)
      && (r.parent.claimId(id), d.claim.source) in r.after.claimSources
  {
    NewClaimAt(t, s, r.branch, r.parent, Rows(parent), ClaimFor(r.parent, Rows(parent)[id]));
  }

  lemma NewClaimAdmitted(t: CharTable, s: Settings, isId: IdCheck, parent: GraphState, r: Round, d: DiffClaim)
    requires IsRound(t, s, isId, parent, r) && d in DiffOf(t, s, r).newClaims
    ensures exists id | Admits(t, parent, r, id) :: d == ClaimFor(r.parent, Rows(parent)[id])
  {
    NewClaimAt(t, s, r.branch, r.parent, Rows(parent), d);
  }

  // ---- One round ----

  lemma RowsIgnoreRelations(g: GraphState, h: GraphState)
    requires h == g.(relations := h.relations)
    ensures Rows(h) == Rows(g) && WitnessRows(h) == WitnessRows(g)
    ensures forall id :: Linked(h, id) <==> Linked(g, id)
  {
    assert LegacyRows(h) == LegacyRows(g);
  }

  lemma {:induction false} InsertClaimsKeyed(target: map<ClaimId, Claim>, claims: seq<DiffClaim>)
    requires forall id | id in target :: target[id].id == id
    ensures forall id | id in InsertClaims(target, claims) :: InsertClaims(target, claims)[id].id == id
  {
    if claims != [] { InsertClaimsKeyed(target, claims[..|claims| - 1]); }
  }

  lemma {:induction false} CopiedFromEither(target: map<SourceId, Source>, source: map<SourceId, Source>,
                                            claims: seq<DiffClaim>)
    ensures CopySources(target, source, claims).sources.Keys <= target.Keys + source.Keys
  {
    if claims != [] { CopiedFromEither(target, source, claims[..|claims| - 1]); }
  }

  /** A round keeps tables keyed and witnesses silent. */
  lemma RoundStaysSilent(t: CharTable, s: Settings, isId: IdCheck, parent: GraphState, r: Round)
    requires IsRound(t, s, isId, parent, r) && Silent(parent, r.before)
    ensures WellKeyed(r.after) && Silent(parent, r.after) && ReadsClaims(r.before) && ReadsClaims(r.after)
    ensures r.before.sources.Keys <= r.after.sources.Keys
  {
    InsertClaimsKeyed(r.before.claims, DiffOf(t, s, r).newClaims);
    CopiedFromEither(r.before.sources, parent.sources, DiffOf(t, s, r).newClaims);
    SourcesGrow(r.before.sources, parent.sources, DiffOf(t, s, r).newClaims);
  }

  /** What a round does to the row of one id. */
  lemma RoundRow(t: CharTable, s: Settings, isId: IdCheck, parent: GraphState, r: Round, k: ClaimId)
    requires IsRound(t, s, isId, parent, r) && Silent(parent, r.before)
    ensures var before, after := Rows(r.before), Rows(r.after);
      && (forall id | Admits(t, parent, r, id) && r.parent.claimId(id) == k ::
            (k in after <==> Linked(r.after, k)) && (k in after ==> after[k].statement == Rows(parent)[id].statement))
      && ((forall id | Admits(t, parent, r, id) :: r.parent.claimId(id) != k) && k in before ==>
            k in after && after[k] == before[k])
  {
    RoundStaysSilent(t, s, isId, parent, r);
    RowsIgnoreRelations(r.loops, r.after);
    RowsAfterMerge(t, s, isId, r.before, r.branch, parent, r.parent, r.loops, k);
  }

  /** Some claim that the round brings over shows in the branch afterwards. */
  ghost predicate Moves(t: CharTable, parent: GraphState, r: Round) {
    exists id | Admits(t, parent, r, id) :: Linked(r.after, r.parent.claimId(id))
  }

  // ---- A round that moves gets closer ----

  /** The branch shows the parent's statement, under the same id or under one that no
      parent row has, which no later round overwrites. */
  predicate Arrived(parent: map<ClaimId, Row>, branch: map<ClaimId, Row>, id: ClaimId)
    requires id in parent
  {
    || (id in branch && branch[id].statement == parent[id].statement)
    || exists k | k in branch && k !in parent :: branch[k].statement == parent[id].statement
  }

  /** The parent claims whose statement the branch does not show. */
  function Missing(parent: map<ClaimId, Row>, branch: map<ClaimId, Row>): set<ClaimId> {
    set id | id in parent && !Arrived(parent, branch, id)
  }

  /** Parent claims on which the branch differs: no fewer. */
  function Differing(parent: map<ClaimId, Row>, branch: map<ClaimId, Row>): set<ClaimId> {
    set id | id in parent && (id !in branch || branch[id].statement != parent[id].statement)
  }

  lemma ShownIsNotAdmitted(t: CharTable, listed: seq<Row>, branch: map<ClaimId, Row>, parent: map<ClaimId, Row>,
                           id: ClaimId)
    requires Lists(listed, branch) && Overrides(t, listed, parent, id)
    ensures id in Missing(parent, branch)
  {
    forall k | k in branch ensures branch[k].statement != parent[id].statement {
      assert branch[k] in listed;
      assert Norm(t, branch[k].statement) in Norms(t, listed);
    }
  }

  lemma AdmittedIsMissing(t: CharTable, s: Settings, isId: IdCheck, parent: GraphState, r: Round, id: ClaimId)
    requires IsRound(t, s, isId, parent, r) && Admits(t, parent, r, id)
    ensures id in Missing(Rows(parent), Rows(r.before))
  {
    ShownIsNotAdmitted(t, r.branch.rows, Rows(r.before), Rows(parent), id);
  }

  lemma ArrivedStays(t: CharTable, s: Settings, isId: IdCheck, parent: GraphState, r: Round, id: ClaimId)
    requires IsRound(t, s, isId, parent, r) && Silent(parent, r.before)
    requires id in Rows(parent) && Arrived(Rows(parent), Rows(r.before), id)
    ensures Arrived(Rows(parent), Rows(r.after), id)
  {
    var source, branch := Rows(parent), Rows(r.before);
    RoundStaysSilent(t, s, isId, parent, r);
    if Admits(t, parent, r, id) {
      AdmittedIsMissing(t, s, isId, parent, r, id);
    }
    if id in branch && branch[id].statement == source[id].statement {
      OwnIdOnly(isId, r.parent, source, id);
      RoundRow(t, s, isId, parent, r, id);
    } else {
      var k :| k in branch && k !in source && branch[k].statement == source[id].statement;
      assert branch == LegacyRows(r.before) && k in r.before.claims;
      RoundRow(t, s, isId, parent, r, k);
    }
  }

  lemma ShownArrives(t: CharTable, s: Settings, isId: IdCheck, parent: GraphState, r: Round, id: ClaimId)
    requires IsRound(t, s, isId, parent, r) && Silent(parent, r.before)
    requires Admits(t, parent, r, id) && Linked(r.after, r.parent.claimId(id))
    ensures Arrived(Rows(parent), Rows(r.after), id)
  {
    RoundRow(t, s, isId, parent, r, r.parent.claimId(id));
  }

  /** No round makes more statements missing, and one that moves makes fewer. */
  lemma RoundShrinks(t: CharTable, s: Settings, isId: IdCheck, parent: GraphState, r: Round)
    requires IsRound(t, s, isId, parent, r) && Silent(parent, r.before)
    ensures var before, after := Missing(Rows(parent), Rows(r.before)), Missing(Rows(parent), Rows(r.after));
      after <= before && (Moves(t, parent, r) ==> after < before)
  {
    var before, after := Missing(Rows(parent), Rows(r.before)), Missing(Rows(parent), Rows(r.after));
    forall id | id in after ensures id in before {
      if Arrived(Rows(parent), Rows(r.before), id) { ArrivedStays(t, s, isId, parent, r, id); }
    }
    if id :| Admits(t, parent, r, id) && Linked(r.after, r.parent.claimId(id)) {
      AdmittedIsMissing(t, s, isId, parent, r, id);
      ShownArrives(t, s, isId, parent, r, id);
      assert id in before && id !in after;
    }
  }

  // ---- A round that does not move changes nothing that shows ----

  /** When no new claim's source record ends up in the target, nothing is copied, and
      each of those records is unknown to the source graph or has a URI that the
      target already holds. */
  lemma {:induction false} NothingCopied(target: map<SourceId, Source>, source: map<SourceId, Source>,
                                         claims: seq<DiffClaim>)
    requires forall d | d in claims :: d.claim.source !in CopySources(target, source, claims).sources
    ensures CopySources(target, source, claims).sources == target
    ensures forall x | x in CopySources(target, source, claims).done :: x in source && source[x].uri in Uris(target)
    ensures forall d | d in claims && d.claim.source in source :: source[d.claim.source].uri in Uris(target)
  {
    if claims != [] {
      var n := |claims| - 1;
      assert claims == claims[..n] + [claims[n]];
      assert CopySources(target, source, claims[..n]).sources.Keys <= CopySources(target, source, claims).sources.Keys;
      NothingCopied(target, source, claims[..n]);
      assert claims[n] in claims;
    }
  }

  /** And conversely. */
  lemma {:induction false} NothingToCopy(target: map<SourceId, Source>, source: map<SourceId, Source>,
                                         claims: seq<DiffClaim>)
    requires forall d | d in claims :: d.claim.source !in source || source[d.claim.source].uri in Uris(target)
    ensures CopySources(target, source, claims).sources == target
  {
    if claims != [] {
      var n := |claims| - 1;
      assert claims == claims[..n] + [claims[n]];
      NothingToCopy(target, source, claims[..n]);
      assert claims[n] in claims;
    }
  }

  lemma StuckCopiesNothing(t: CharTable, s: Settings, isId: IdCheck, parent: GraphState, r: Round)
    requires IsRound(t, s, isId, parent, r) && !Moves(t, parent, r)
    ensures r.after.sources == r.before.sources
    ensures forall d | d in DiffOf(t, s, r).newClaims && d.claim.source in parent.sources ::
      parent.sources[d.claim.source].uri in Uris(r.before.sources)
  {
    forall d | d in DiffOf(t, s, r).newClaims ensures d.claim.source !in r.after.sources {
      NewClaimAdmitted(t, s, isId, parent, r, d);
      var id :| Admits(t, parent, r, id) && d == ClaimFor(r.parent, Rows(parent)[id]);
      AdmitsNewClaim(t, s, isId, parent, r, id);
      assert !Linked(r.after, r.parent.claimId(id));
    }
    NothingCopied(r.before.sources, parent.sources, DiffOf(t, s, r).newClaims);
  }

  predicate SameAt(before: map<ClaimId, Row>, after: map<ClaimId, Row>, k: ClaimId) {
    (k in before <==> k in after) && (k in before ==> after[k] == before[k])
  }

  lemma SameEverywhere(before: map<ClaimId, Row>, after: map<ClaimId, Row>)
    requires forall k :: SameAt(before, after, k)
    ensures before == after
  {
    forall k ensures (k in before <==> k in after) && (k in before ==> after[k] == before[k]) {
      assert SameAt(before, after, k);
    }
  }

  lemma StuckRow(t: CharTable, s: Settings, isId: IdCheck, parent: GraphState, r: Round, k: ClaimId)
    requires IsRound(t, s, isId, parent, r) && Silent(parent, r.before) && !Moves(t, parent, r)
    ensures SameAt(Rows(r.before), Rows(r.after), k)
  {
    RoundStaysSilent(t, s, isId, parent, r);
    RoundRow(t, s, isId, parent, r, k);
    StuckCopiesNothing(t, s, isId, parent, r);
    assert Rows(r.before) == LegacyRows(r.before) && Rows(r.after) == LegacyRows(r.after);
    if id :| Admits(t, parent, r, id) && r.parent.claimId(id) == k {
      if Linked(r.before, k) { LinksStay(r.before, parent, DiffOf(t, s, r), r.loops, k); }
    } else if k in Rows(r.after) {
      ExactMergedClaims(t, s, isId, r.before.claims, r.branch, r.parent, Rows(parent), k);
      var x :| x in r.after.sources && (k, x) in r.after.claimSources;
      assert (k, x) in r.before.claimSources by {
        forall d | d in DiffOf(t, s, r).newClaims ensures d.claim.id != k {
          NewClaimAdmitted(t, s, isId, parent, r, d);
        }
      }
    }
  }

  /** A round without a claim that shows leaves every row and every source record. */
  lemma StuckChangesNothing(t: CharTable, s: Settings, isId: IdCheck, parent: GraphState, r: Round)
    requires IsRound(t, s, isId, parent, r) && Silent(parent, r.before) && !Moves(t, parent, r)
    ensures Rows(r.after) == Rows(r.before) && r.after.sources == r.before.sources
  {
    var before, after := Rows(r.before), Rows(r.after);
    forall k ensures SameAt(before, after, k) {
      StuckRow(t, s, isId, parent, r, k);
    }
    SameEverywhere(before, after);
    StuckCopiesNothing(t, s, isId, parent, r);
  }

  // ---- When a round moves, said beforehand ----

  /** The branch will show this parent claim: it shows one of that id already, or the
      claim's source record is in the branch, or it is in the parent under a URI that
      the branch does not have. */
  predicate CanShow(isId: IdCheck, parent: GraphState, branch: GraphState, id: ClaimId) {
    || (isId(id) && Linked(branch, id))
    || (id in parent.claims && isId(parent.claims[id].source)
        && var x := parent.claims[id].source;
           x in branch.sources || (x in parent.sources && parent.sources[x].uri !in Uris(branch.sources)))
  }

  lemma ShowingMoves(t: CharTable, s: Settings, isId: IdCheck, parent: GraphState, r: Round, id: ClaimId)
    requires IsRound(t, s, isId, parent, r) && Silent(parent, r.before)
    requires Admits(t, parent, r, id) && CanShow(isId, parent, r.before, id)
    ensures Moves(t, parent, r)
  {
    var k := r.parent.claimId(id);
    RoundStaysSilent(t, s, isId, parent, r);
    AdmitsNewClaim(t, s, isId, parent, r, id);
    if !Moves(t, parent, r) {
      StuckCopiesNothing(t, s, isId, parent, r);
      if isId(id) && Linked(r.before, id) {
        LinksStay(r.before, parent, DiffOf(t, s, r), r.loops, id);
      }
      assert Linked(r.after, k);
    }
  }

  lemma NoneShowing(t: CharTable, s: Settings, isId: IdCheck, parent: GraphState, r: Round)
    requires IsRound(t, s, isId, parent, r) && Silent(parent, r.before)
    requires forall id | Admits(t, parent, r, id) :: !CanShow(isId, parent, r.before, id)
    ensures !Moves(t, parent, r)
  {
    forall d | d in DiffOf(t, s, r).newClaims
      ensures d.claim.source !in r.before.sources
      ensures d.claim.source !in parent.sources || parent.sources[d.claim.source].uri in Uris(r.before.sources)
    {
      NewClaimAdmitted(t, s, isId, parent, r, d);
    }
    NothingToCopy(r.before.sources, parent.sources, DiffOf(t, s, r).newClaims);
    forall id | Admits(t, parent, r, id) ensures !Linked(r.after, r.parent.claimId(id)) {
      var k := r.parent.claimId(id);
      forall x | x in r.after.sources ensures (k, x) !in r.after.claimSources {
        assert isId(id) ==> !Linked(r.before, id);
        assert (k, x) !in r.before.claimSources;
      }
    }
  }

  /** A round moves exactly when it admits a claim that can show. */
  lemma MovesIff(t: CharTable, s: Settings, isId: IdCheck, parent: GraphState, r: Round)
    requires IsRound(t, s, isId, parent, r) && Silent(parent, r.before)
    ensures Moves(t, parent, r) <==> exists id | Admits(t, parent, r, id) :: CanShow(isId, parent, r.before, id)
  {
    if id :| Admits(t, parent, r, id) && CanShow(isId, parent, r.before, id) {
      ShowingMoves(t, s, isId, parent, r, id);
    } else {
      NoneShowing(t, s, isId, parent, r);
    }
  }

  // ---- Runs ----

  lemma SameRowsAdmitSame(t: CharTable, parent: GraphState, r: Round, q: Round)
    requires Rows(r.before) == Rows(q.before)
    requires Lists(r.branch.rows, Rows(r.before)) && Lists(q.branch.rows, Rows(q.before))
    ensures forall id :: Admits(t, parent, r, id) <==> Admits(t, parent, q, id)
  {
    assert forall x :: x in r.branch.rows <==> x in q.branch.rows;
    assert Norms(t, r.branch.rows) == Norms(t, q.branch.rows);
  }

  /** After a round that does not move, the next one does not move either. */
  lemma StuckStays(t: CharTable, s: Settings, isId: IdCheck, parent: GraphState, r: Round, q: Round)
    requires IsRound(t, s, isId, parent, r) && Silent(parent, r.before) && !Moves(t, parent, r)
    requires IsRound(t, s, isId, parent, q) && q.before == r.after
    ensures !Moves(t, parent, q)
  {
    RoundStaysSilent(t, s, isId, parent, r);
    StuckChangesNothing(t, s, isId, parent, r);
    SameRowsAdmitSame(t, parent, r, q);
    MovesIff(t, s, isId, parent, r);
    forall id | Admits(t, parent, q, id) ensures !CanShow(isId, parent, q.before, id) {
      assert !CanShow(isId, parent, r.before, id);
      assert isId(id) ==> !Linked(r.after, id);
    }
    NoneShowing(t, s, isId, parent, q);
  }

  lemma {:induction false} SilentAlongRun(t: CharTable, s: Settings, isId: IdCheck, parent: GraphState,
                                          rounds: seq<Round>, i: nat)
    requires IsRebaseRun(t, s, isId, parent, rounds) && i < |rounds| && Silent(parent, rounds[0].before)
    ensures Silent(parent, rounds[i].before)
  {
    if i > 0 {
      SilentAlongRun(t, s, isId, parent, rounds, i - 1);
      assert rounds[i - 1] in rounds && rounds[i - 1].after == rounds[i].before;
      RoundStaysSilent(t, s, isId, parent, rounds[i - 1]);
    }
  }

  lemma RoundAt(t: CharTable, s: Settings, isId: IdCheck, parent: GraphState, rounds: seq<Round>, i: nat)
    requires IsRebaseRun(t, s, isId, parent, rounds) && i < |rounds| && Silent(parent, rounds[0].before)
    ensures IsRound(t, s, isId, parent, rounds[i]) && Silent(parent, rounds[i].before)
    ensures i > 0 ==> rounds[i - 1].after == rounds[i].before
  {
    assert rounds[i] in rounds;
    SilentAlongRun(t, s, isId, parent, rounds, i);
  }

  lemma StuckStep(t: CharTable, s: Settings, isId: IdCheck, parent: GraphState, rounds: seq<Round>, i: nat)
    requires IsRebaseRun(t, s, isId, parent, rounds) && 0 < i < |rounds| && Silent(parent, rounds[0].before)
    requires !Moves(t, parent, rounds[i - 1])
    ensures !Moves(t, parent, rounds[i]) && Rows(rounds[i].before) == Rows(rounds[i - 1].before)
  {
    RoundAt(t, s, isId, parent, rounds, i - 1);
    RoundAt(t, s, isId, parent, rounds, i);
    StuckStays(t, s, isId, parent, rounds[i - 1], rounds[i]);
    StuckChangesNothing(t, s, isId, parent, rounds[i - 1]);
  }

  lemma {:induction false} StuckAlongRun(t: CharTable, s: Settings, isId: IdCheck, parent: GraphState,
                                         rounds: seq<Round>, k: nat, i: nat)
    requires IsRebaseRun(t, s, isId, parent, rounds) && k <= i < |rounds| && Silent(parent, rounds[0].before)
    requires !Moves(t, parent, rounds[k])
    ensures !Moves(t, parent, rounds[i]) && Rows(rounds[i].before) == Rows(rounds[k].before)
  {
    if k < i {
      StuckAlongRun(t, s, isId, parent, rounds, k, i - 1);
      StuckStep(t, s, isId, parent, rounds, i);
    }
  }

  /** Once a round does not move, no later one does: nothing that shows ever changes
      again, and the same claims are found new, or none, for ever. */
  lemma StuckForEver(t: CharTable, s: Settings, isId: IdCheck, parent: GraphState, rounds: seq<Round>, k: nat, i: nat)
    requires IsRebaseRun(t, s, isId, parent, rounds) && k <= i < |rounds| && Silent(parent, rounds[0].before)
    requires !Moves(t, parent, rounds[k])
    ensures !Moves(t, parent, rounds[i]) && Rows(rounds[i].after) == Rows(rounds[k].before)
    ensures forall id :: Admits(t, parent, rounds[k], id) <==> Admits(t, parent, rounds[i], id)
  {
    RoundAt(t, s, isId, parent, rounds, k);
    RoundAt(t, s, isId, parent, rounds, i);
    StuckAlongRun(t, s, isId, parent, rounds, k, i);
    StuckChangesNothing(t, s, isId, parent, rounds[i]);
    SameRowsAdmitSame(t, parent, rounds[k], rounds[i]);
  }

  lemma SubsetIsSmaller(a: set<ClaimId>, b: set<ClaimId>)
    requires a < b
    ensures |a| < |b|
  {
    var x :| x in b && x !in a;
    assert a <= b - {x};
    SubsetSize(a, b - {x});
  }

  lemma {:induction false} MovingRunIsShort(t: CharTable, s: Settings, isId: IdCheck, parent: GraphState,
                                            rounds: seq<Round>)
    requires IsRebaseRun(t, s, isId, parent, rounds) && rounds != [] && Silent(parent, rounds[0].before)
    requires forall r | r in rounds :: Moves(t, parent, r)
    ensures |rounds| <= |Missing(Rows(parent), Rows(rounds[0].before))|
  {
    assert rounds[0] in rounds;
    RoundShrinks(t, s, isId, parent, rounds[0]);
    RoundStaysSilent(t, s, isId, parent, rounds[0]);
    SubsetIsSmaller(Missing(Rows(parent), Rows(rounds[0].after)), Missing(Rows(parent), Rows(rounds[0].before)));
    if |rounds| > 1 {
      var rest := rounds[1..];
      assert forall r | r in rest :: r in rounds;
      assert rounds[0].after == rounds[1].before;
      forall i, j | 0 <= i < j < |rest| && j == i + 1 ensures rest[i].after == rest[j].before {
        assert rounds[i + 1].after == rounds[j + 1].before;
      }
      MovingRunIsShort(t, s, isId, parent, rest);
    }
  }

  /** Every run settles, whatever branch and parent are like: when it is longer than
      the number of parent statements the branch did not show, its last round changes
      nothing that shows. */
  lemma RebaseSettles(t: CharTable, s: Settings, isId: IdCheck, parent: GraphState, rounds: seq<Round>)
    requires IsRebaseRun(t, s, isId, parent, rounds) && rounds != [] && Silent(parent, rounds[0].before)
    requires |rounds| > |Missing(Rows(parent), Rows(rounds[0].before))|
    ensures var last := rounds[|rounds| - 1]; !Moves(t, parent, last) && Rows(last.after) == Rows(last.before)
  {
    var n := |rounds| - 1;
    assert rounds[n] in rounds;
    SilentAlongRun(t, s, isId, parent, rounds, n);
    if Moves(t, parent, rounds[n]) {
      forall r | r in rounds ensures Moves(t, parent, r) {
        var i :| 0 <= i < |rounds| && rounds[i] == r;
        if !Moves(t, parent, r) { StuckForEver(t, s, isId, parent, rounds, i, n); }
      }
      MovingRunIsShort(t, s, isId, parent, rounds);
    }
    StuckChangesNothing(t, s, isId, parent, rounds[n]);
  }

  // ---- Convergence ----

  /** What a caller can check before the first rebase: every row of the parent is a
      claim whose source record the parent has, the two graphs agree on the URIs of
      shared records, the parent has one record for each URI, and a record whose URI
      the branch knows is in the branch under the parent's id. */
  ghost predicate Ready(isId: IdCheck, parent: GraphState, branch: GraphState) {
    && Silent(parent, branch)
    && SameUris(branch.sources, parent.sources) && OneIdPerUri(parent.sources)
    && (forall id | id in Rows(parent) ::
          id in parent.claims && isId(parent.claims[id].source) && parent.claims[id].source in parent.sources)
    && (forall x | x in parent.sources && parent.sources[x].uri in Uris(branch.sources) :: x in branch.sources)
  }

  lemma RoundStaysReady(t: CharTable, s: Settings, isId: IdCheck, parent: GraphState, r: Round)
    requires IsRound(t, s, isId, parent, r) && Ready(isId, parent, r.before)
    ensures Ready(isId, parent, r.after)
  {
    RoundStaysSilent(t, s, isId, parent, r);
    CopyKeepsUris(r.before.sources, parent.sources, DiffOf(t, s, r).newClaims);
    CopiedSources(r.before.sources, parent.sources, DiffOf(t, s, r).newClaims);
    forall x | x in parent.sources && parent.sources[x].uri in Uris(r.after.sources) ensures x in r.after.sources {
      var y :| y in r.after.sources && r.after.sources[y].uri == parent.sources[x].uri;
      if y in r.before.sources {
        assert r.before.sources[y].uri in Uris(r.before.sources);
      } else {
        assert y == x;
      }
    }
  }

  /** In a ready branch every round that finds a new claim moves. */
  lemma ReadyRoundMoves(t: CharTable, s: Settings, isId: IdCheck, parent: GraphState, r: Round)
    requires IsRound(t, s, isId, parent, r) && Ready(isId, parent, r.before)
    ensures DiffOf(t, s, r).newClaims != [] ==> Moves(t, parent, r)
  {
    if DiffOf(t, s, r).newClaims != [] {
      NewClaimAdmitted(t, s, isId, parent, r, DiffOf(t, s, r).newClaims[0]);
      var id :| Admits(t, parent, r, id);
      ShowingMoves(t, s, isId, parent, r, id);
    }
  }

  lemma {:induction false} ReadyAlongRun(t: CharTable, s: Settings, isId: IdCheck, parent: GraphState,
                                         rounds: seq<Round>, i: nat)
    requires IsRebaseRun(t, s, isId, parent, rounds) && i < |rounds| && Ready(isId, parent, rounds[0].before)
    ensures Ready(isId, parent, rounds[i].before)
  {
    if i > 0 {
      ReadyAlongRun(t, s, isId, parent, rounds, i - 1);
      assert rounds[i - 1] in rounds && rounds[i - 1].after == rounds[i].before;
      RoundStaysReady(t, s, isId, parent, rounds[i - 1]);
    }
  }

  /** Convergence.  From a ready branch, a run of rounds that each bring something over
      is no longer than the number of parent statements the branch did not show,
      whatever order the store lists its rows in. */
  lemma RebaseConverges(t: CharTable, s: Settings, isId: IdCheck, parent: GraphState, rounds: seq<Round>)
    requires IsRebaseRun(t, s, isId, parent, rounds) && rounds != [] && Ready(isId, parent, rounds[0].before)
    requires forall r | r in rounds :: DiffOf(t, s, r).newClaims != []
    ensures |rounds| <= |Missing(Rows(parent), Rows(rounds[0].before))|
         <= |Differing(Rows(parent), Rows(rounds[0].before))|
  {
    forall r | r in rounds ensures Moves(t, parent, r) {
      var i :| 0 <= i < |rounds| && rounds[i] == r;
      ReadyAlongRun(t, s, isId, parent, rounds, i);
      ReadyRoundMoves(t, s, isId, parent, r);
    }
    MovingRunIsShort(t, s, isId, parent, rounds);
    SubsetSize(Missing(Rows(parent), Rows(rounds[0].before)), Differing(Rows(parent), Rows(rounds[0].before)));
  }

  /** The other side: a branch that no admitted claim can show in, although some claim
      is admitted, never converges.  Every round finds new claims, writes them, and
      leaves every row as it was. */
  lemma UnshownNeverConverges(t: CharTable, s: Settings, isId: IdCheck, parent: GraphState, rounds: seq<Round>, i: nat)
    requires IsRebaseRun(t, s, isId, parent, rounds) && i < |rounds| && Silent(parent, rounds[0].before)
    requires exists id :: Admits(t, parent, rounds[0], id)
    requires forall id | Admits(t, parent, rounds[0], id) :: !CanShow(isId, parent, rounds[0].before, id)
    ensures DiffOf(t, s, rounds[i]).newClaims != [] && Rows(rounds[i].after) == Rows(rounds[0].before)
  {
    assert rounds[0] in rounds && rounds[i] in rounds;
    NoneShowing(t, s, isId, parent, rounds[0]);
    StuckForEver(t, s, isId, parent, rounds, 0, i);
    var id :| Admits(t, parent, rounds[0], id);
    AdmitsNewClaim(t, s, isId, parent, rounds[i], id);
  }

  /** For instance: the parent has one claim, from a file that the branch has under
      another source id. */
  predicate FileHeldTwice(parent: GraphState, branch: GraphState, c: Claim, held: SourceId, file: Source) {
    && held != c.source
    && parent.witnesses == map[] && parent.claims == map[c.id := c] && parent.claimSources == {(c.id, c.source)}
    && parent.sources == map[c.source := file]
    && branch.witnesses == map[] && branch.claims == map[] && branch.claimSources == {}
    && branch.sources == map[held := file]
  }

  lemma HeldTwiceRows(parent: GraphState, branch: GraphState, c: Claim, held: SourceId, file: Source)
    requires FileHeldTwice(parent, branch, c, held, file)
    ensures Rows(parent) == map[c.id := RowOf(c)] && Rows(branch) == map[] && Silent(parent, branch)
  {
    assert c.source in parent.sources && (c.id, c.source) in parent.claimSources;
    assert WitnessRows(parent) == map[] && WitnessRows(branch) == map[] && LegacyRows(branch) == map[];
  }

  lemma NoRowsAdmitAll(t: CharTable, listed: seq<Row>, source: map<ClaimId, Row>)
    requires Lists(listed, map[])
    ensures forall id :: Overrides(t, listed, source, id) <==> id in source
  {
    SomeMember(listed);
    assert listed == [];
  }

  lemma HeldTwiceCannotShow(isId: IdCheck, parent: GraphState, branch: GraphState, c: Claim, held: SourceId,
                            file: Source)
    requires FileHeldTwice(parent, branch, c, held, file)
    ensures !CanShow(isId, parent, branch, c.id)
  {
    assert branch.sources[held] == file;
  }

  lemma HeldTwiceAtStart(t: CharTable, s: Settings, isId: IdCheck, parent: GraphState, rounds: seq<Round>,
                         c: Claim, held: SourceId, file: Source)
    requires IsRebaseRun(t, s, isId, parent, rounds) && rounds != []
    requires FileHeldTwice(parent, rounds[0].before, c, held, file)
    ensures exists id :: Admits(t, parent, rounds[0], id)
    ensures forall id | Admits(t, parent, rounds[0], id) :: !CanShow(isId, parent, rounds[0].before, id)
  {
    assert rounds[0] in rounds;
    HeldTwiceRows(parent, rounds[0].before, c, held, file);
    NoRowsAdmitAll(t, rounds[0].branch.rows, Rows(parent));
    HeldTwiceCannotShow(isId, parent, rounds[0].before, c, held, file);
    assert Admits(t, parent, rounds[0], c.id);
  }

  /** Every rebase then reports the claim as new, and none ever shows it. */
  lemma HeldTwiceNeverConverges(t: CharTable, s: Settings, isId: IdCheck, parent: GraphState, rounds: seq<Round>,
                                i: nat, c: Claim, held: SourceId, file: Source)
    requires IsRebaseRun(t, s, isId, parent, rounds) && i < |rounds|
    requires FileHeldTwice(parent, rounds[0].before, c, held, file)
    ensures DiffOf(t, s, rounds[i]).newClaims != [] && Rows(rounds[i].after) == map[]
  {
    HeldTwiceRows(parent, rounds[0].before, c, held, file);
    HeldTwiceAtStart(t, s, isId, parent, rounds, c, held, file);
    UnshownNeverConverges(t, s, isId, parent, rounds, i);
  }

  // ---- The fixpoint ----

  /** At the fixpoint every parent statement is present in the branch up to
      normalisation, or is flagged against a branch claim it contradicts. */
  lemma FixpointCovers(t: CharTable, s: Settings, branch: View, parent: View, r: Row)
    requires TwoWayDiff(t, s, branch, parent).newClaims == [] && r in parent.rows
    ensures Norm(t, r.statement) in Norms(t, branch.rows)
      || exists m | m in branch.rows ::
           (IsContradictionPair(t, r.statement, m.statement)
             && Flagged(TwoWayFindings(t, s, branch, parent), r.id, m.id))
  {
    var added := NewRows(t, branch.rows, parent.rows);
    if Norm(t, r.statement) !in Norms(t, branch.rows) {
      NewClaimsExactly(t, s, branch, parent, ClaimFor(parent, r));
      assert r in added && !ContradictsNone(t, r, branch.rows);
      var k :| 0 <= k < |added| && added[k] == r;
      Pass1Flags(t, s.threshold, branch.rows, added, k);
      var one, two := Pass1(t, s.threshold, branch.rows, added).findings, TwoWayFindings(t, s, branch, parent);
      Pass2Grows(t, s.threshold, ContextOfNew(parent, added), added, branch.rows, one);
      MoreFindingsFlagMore(t, one, two, branch.rows, r);
      var m :| m in branch.rows && IsContradictionPair(t, r.statement, m.statement) && (r.id, m.id) in Pairs(two);
      FlaggedIsPair(two, r.id, m.id);
    }
  }

  /** A round without new claims changes no row, so the fixpoint lasts. */
  lemma FixpointLasts(t: CharTable, s: Settings, isId: IdCheck, parent: GraphState, r: Round)
    requires IsRound(t, s, isId, parent, r) && DiffOf(t, s, r).newClaims == []
    ensures Rows(r.after) == Rows(r.before)
  {
    NothingInserted(r.before, parent, DiffOf(t, s, r), r.loops);
    RowsDependOn(r.before, r.after);
  }

  lemma NothingInserted(g: GraphState, source: GraphState, diff: KnowledgeDiff, h: GraphState)
    requires Applied(g, source, diff, h) && diff.newClaims == []
    ensures (g.witnesses, g.claims, g.sources, g.claimSources) == (h.witnesses, h.claims, h.sources, h.claimSources)
  {
    assert SourceEdges(diff.newClaims) == {};
    assert g.claimSources + {} == g.claimSources;
  }

  lemma RowsDependOn(g: GraphState, h: GraphState)
    requires (g.witnesses, g.claims, g.sources, g.claimSources) == (h.witnesses, h.claims, h.sources, h.claimSources)
    ensures Rows(h) == Rows(g)
  {
    assert WitnessRows(h) == WitnessRows(g) && LegacyRows(h) == LegacyRows(g);
  }

  /** A branch that answers from witnesses, each with its source record. */
  ghost predicate AnswersFromWitnesses(g: GraphState) {
    !ReadsClaims(g) && forall id | id in g.witnesses :: g.witnesses[id].source in g.sources
  }

  lemma WitnessRoundIsInvisible(t: CharTable, s: Settings, isId: IdCheck, parent: GraphState, r: Round)
    requires IsRound(t, s, isId, parent, r) && AnswersFromWitnesses(r.before)
    ensures AnswersFromWitnesses(r.after) && Rows(r.after) == Rows(r.before)
  {
    SourcesGrow(r.before.sources, parent.sources, DiffOf(t, s, r).newClaims);
    WitnessesHideMerge(r.before, parent, DiffOf(t, s, r), r.loops);
    RowsIgnoreRelations(r.loops, r.after);
  }

  /** Such a branch never converges: no run of rounds changes a row it reports, so
      every round finds the same new claims again. */
  lemma {:induction false} WitnessBranchNeverMoves(t: CharTable, s: Settings, isId: IdCheck, parent: GraphState,
                                                   rounds: seq<Round>, i: nat)
    requires i < |rounds| && AnswersFromWitnesses(rounds[0].before)
    requires forall r | r in rounds :: IsRound(t, s, isId, parent, r)
    requires forall j, k | 0 <= j < k < |rounds| && k == j + 1 :: rounds[j].after == rounds[k].before
    ensures Rows(rounds[i].after) == Rows(rounds[0].before) && AnswersFromWitnesses(rounds[i].after)
  {
    if i > 0 {
      WitnessBranchNeverMoves(t, s, isId, parent, rounds, i - 1);
      assert rounds[i - 1].after == rounds[i].before;
    }
    assert rounds[i] in rounds;
    WitnessRoundIsInvisible(t, s, isId, parent, rounds[i]);
  }
}
