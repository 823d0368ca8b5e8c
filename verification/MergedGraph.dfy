/** What a target graph holds after a two-way merge: claims, sources, entities
    and relations, each characterised exactly. */
module MergedGraph {
  import opened Text
  import opened Graph
  import opened Diff
  import opened VectorPass
  import opened Apply
  import opened Deletions
  import opened Sequences

  /** A list of rows is the table `m`, in some order. */
  ghost predicate Lists(rows: seq<Row>, m: map<ClaimId, Row>) {
    && (forall r | r in rows :: r.id in m && m[r.id] == r)
    && (forall id | id in m :: m[id] in rows && m[id].id == id)
  }

  /** The listing leaves out every entity whose id does not parse. */
  ghost predicate ReadsEntities(isId: IdCheck, g: GraphState, v: View) {
    forall e :: e in v.entities <==> isId(e.id) && e.id in g.entities && g.entities[e.id] == e.name
  }

  function ListedNames(isId: IdCheck, g: GraphState): set<string> {
    set id | id in g.entities && isId(id) :: g.entities[id]
  }

  ghost predicate ReadsRelations(g: GraphState, v: View) {
    forall k :: k in v.relations <==> k in NamedRelations(g)
  }

  // ---- Claims ----

  lemma {:induction false} InsertClaimsAbsent(target: map<ClaimId, Claim>, claims: seq<DiffClaim>, id: ClaimId)
    requires forall c | c in claims :: c.claim.id != id
    ensures id in InsertClaims(target, claims) <==> id in target
    ensures id in target ==> InsertClaims(target, claims)[id] == target[id]
  {
    if claims != [] {
      assert claims[|claims| - 1] in claims;
      InsertClaimsAbsent(target, claims[..|claims| - 1], id);
    }
  }

  lemma {:induction false} InsertClaimsPresent(target: map<ClaimId, Claim>, claims: seq<DiffClaim>, d: DiffClaim)
    requires d in claims && forall c | c in claims && c.claim.id == d.claim.id :: c == d
    ensures d.claim.id in InsertClaims(target, claims) && InsertClaims(target, claims)[d.claim.id] == d.claim
  {
    var n := |claims| - 1;
    assert claims == claims[..n] + [claims[n]];
    if claims[n] != d {
      InsertClaimsPresent(target, claims[..n], d);
    }
  }

  /** The ids at which a merge writes the source's row. */
  ghost predicate Overrides(t: CharTable, main: seq<Row>, source: map<ClaimId, Row>, id: ClaimId) {
    id in source && Admitted(t, main, source[id])
  }

  /** The claim ids a reading of `source` hands out: a row's own id if it parses, and
      otherwise one that is new; no two rows share one. */
  ghost predicate DrawsIds(isId: IdCheck, sv: View, source: map<ClaimId, Row>) {
    && (forall x | x in source && isId(x) :: sv.claimId(x) == x)
    && (forall x | x in source && !isId(x) :: sv.claimId(x) !in source)
    && (forall x, y | x in source && y in source && sv.claimId(x) == sv.claimId(y) :: x == y)
  }

  lemma NewClaimAt(t: CharTable, s: Settings, target: View, sv: View, source: map<ClaimId, Row>, c: DiffClaim)
    requires Lists(sv.rows, source)
    ensures c in TwoWayDiff(t, s, target, sv).newClaims
       <==> exists id | Overrides(t, target.rows, source, id) :: c == ClaimFor(sv, source[id])
  {
    NewClaimsExactly(t, s, target, sv, c);
    if r :| r in sv.rows && Admitted(t, target.rows, r) && c == ClaimFor(sv, r) {
      assert source[r.id] == r;
    }
    if id :| Overrides(t, target.rows, source, id) && c == ClaimFor(sv, source[id]) {
      assert source[id] in sv.rows;
    }
  }

  /** At the id `k` the merged table has the claim of the admitted source row that `k`
      stands for, and otherwise the target's own entry, if any. */
  ghost predicate MergedAt(t: CharTable, main: seq<Row>, sv: View, source: map<ClaimId, Row>,
                           claims: map<ClaimId, Claim>, merged: map<ClaimId, Claim>, k: ClaimId)
  {
    && (forall id | Overrides(t, main, source, id) && sv.claimId(id) == k ::
          k in merged && merged[k] == ClaimFor(sv, source[id]).claim)
    && ((forall id | Overrides(t, main, source, id) :: sv.claimId(id) != k) ==>
          (k in merged <==> k in claims) && (k in merged ==> merged[k] == claims[k]))
  }

  /** The exact merged claim table, at every id. */
  lemma ExactMergedClaims(t: CharTable, s: Settings, isId: IdCheck, claims: map<ClaimId, Claim>, target: View, sv: View,
                          source: map<ClaimId, Row>, k: ClaimId)
    requires Lists(sv.rows, source) && DrawsIds(isId, sv, source)
    ensures MergedAt(t, target.rows, sv, source, claims,
                     InsertClaims(claims, TwoWayDiff(t, s, target, sv).newClaims), k)
  {
    var added := TwoWayDiff(t, s, target, sv).newClaims;
    forall c | c in added
      ensures exists id | Overrides(t, target.rows, source, id) :: c == ClaimFor(sv, source[id])
    {
      NewClaimAt(t, s, target, sv, source, c);
    }
    if id :| Overrides(t, target.rows, source, id) && sv.claimId(id) == k {
      NewClaimAt(t, s, target, sv, source, ClaimFor(sv, source[id]));
      InsertClaimsPresent(claims, added, ClaimFor(sv, source[id]));
    } else {
      InsertClaimsAbsent(claims, added, k);
    }
  }

  /** An id of a source row is only ever written for that row. */
  lemma OwnIdOnly(isId: IdCheck, sv: View, source: map<ClaimId, Row>, id: ClaimId)
    requires DrawsIds(isId, sv, source) && id in source
    ensures forall x | x in source && sv.claimId(x) == id :: x == id
  {
  }

  /** The source's claims whose normal form the target lacks. */
  function Absent(t: CharTable, main: seq<Row>, sv: View, source: map<ClaimId, Row>): map<ClaimId, Claim>
    requires forall x, y | x in source && y in source && sv.claimId(x) == sv.claimId(y) :: x == y
  {
    map id | id in source && Norm(t, source[id].statement) !in Norms(t, main) ::
      sv.claimId(id) := ClaimFor(sv, source[id]).claim
  }

  lemma AbsentAt(t: CharTable, main: seq<Row>, sv: View, source: map<ClaimId, Row>, k: ClaimId)
    requires forall x, y | x in source && y in source && sv.claimId(x) == sv.claimId(y) :: x == y
    requires forall id | id in source && Norm(t, source[id].statement) !in Norms(t, main) ::
      Overrides(t, main, source, id)
    ensures k in Absent(t, main, sv, source) <==> exists id | Overrides(t, main, source, id) :: sv.claimId(id) == k
    ensures forall id | Overrides(t, main, source, id) && sv.claimId(id) == k ::
      k in Absent(t, main, sv, source) && Absent(t, main, sv, source)[k] == ClaimFor(sv, source[id]).claim
  {
  }

  predicate AgreesAt(claims: map<ClaimId, Claim>, extra: map<ClaimId, Claim>, merged: map<ClaimId, Claim>, k: ClaimId) {
    if k in extra then k in merged && merged[k] == extra[k]
    else (k in merged <==> k in claims) && (k in merged ==> merged[k] == claims[k])
  }

  lemma AgreesEverywhere(claims: map<ClaimId, Claim>, extra: map<ClaimId, Claim>, merged: map<ClaimId, Claim>)
    requires forall k :: AgreesAt(claims, extra, merged, k)
    ensures merged == claims + extra
  {
    forall k ensures (k in merged <==> k in claims + extra) && (k in merged ==> merged[k] == (claims + extra)[k]) {
      assert AgreesAt(claims, extra, merged, k);
    }
  }

  /** When the passes find no contradiction, the merged table is the target's
      overridden by exactly the source claims whose normal form it lacked. */
  lemma MergeWithoutFindings(t: CharTable, s: Settings, isId: IdCheck, claims: map<ClaimId, Claim>, target: View,
                             sv: View, source: map<ClaimId, Row>)
    requires Lists(sv.rows, source) && DrawsIds(isId, sv, source)
    requires TwoWayDiff(t, s, target, sv).autoResolved == [] && TwoWayDiff(t, s, target, sv).needsReview == []
    ensures InsertClaims(claims, TwoWayDiff(t, s, target, sv).newClaims) == claims + Absent(t, target.rows, sv, source)
  {
    var merged := InsertClaims(claims, TwoWayDiff(t, s, target, sv).newClaims);
    forall id | id in source && Norm(t, source[id].statement) !in Norms(t, target.rows)
      ensures Overrides(t, target.rows, source, id)
    {
      NoFindingsNoContradictions(t, s, target, sv, source[id]);
    }
    forall k ensures AgreesAt(claims, Absent(t, target.rows, sv, source), merged, k) {
      AbsentAt(t, target.rows, sv, source, k);
      ExactMergedClaims(t, s, isId, claims, target, sv, source, k);
    }
    AgreesEverywhere(claims, Absent(t, target.rows, sv, source), merged);
  }

  /** What the target holds for an admitted source row: its text, its confidence, the
      source record its claim table names, and a link to every entity of its context
      that the target knew. */
  ghost predicate Carries(g: GraphState, sv: View, row: Row, h: GraphState) {
    var k := sv.claimId(row.id);
    && k in h.claims
    && h.claims[k].id == k && h.claims[k].statement == row.statement
    && (0.0 <= row.confidence <= 1.0 ==> h.claims[k].confidence == row.confidence)
    && h.claims[k].source == (if row.id in sv.sourceOf then sv.sourceOf[row.id] else sv.freshSource(row.id))
    && (k, h.claims[k].source) in h.claimSources
    && forall n | n in sv.entityNames(row.id) && n in EntityNames(g) ::
         exists e | e in g.entities :: g.entities[e] == n && (k, e) in h.claimEntities
  }

  /** The same statement, at the same confidence. */
  predicate SameFact(a: Claim, b: Claim) {
    a.statement == b.statement && (0.0 <= b.confidence <= 1.0 ==> a.confidence == b.confidence)
  }

  /** Diff and apply carry every admitted row over whole: the claim that the source has
      under that id, or its witness if it answers from witnesses. */
  lemma AdmittedIsCarried(t: CharTable, s: Settings, isId: IdCheck, g: GraphState, target: View, source: GraphState,
                          sv: View, h: GraphState, id: ClaimId)
    requires Lists(sv.rows, Rows(source)) && DrawsIds(isId, sv, Rows(source))
    requires Applied(g, source, TwoWayDiff(t, s, target, sv), h)
    requires Overrides(t, target.rows, Rows(source), id)
    ensures Carries(g, sv, Rows(source)[id], h)
    ensures ReadsClaims(source) ==> id in source.claims && SameFact(h.claims[sv.claimId(id)], source.claims[id])
    ensures !ReadsClaims(source) ==> id in source.witnesses && SameFact(h.claims[sv.claimId(id)], source.witnesses[id])
  {
    var row := Rows(source)[id];
    var d := ClaimFor(sv, row);
    NewClaimAt(t, s, target, sv, Rows(source), d);
    ExactMergedClaims(t, s, isId, g.claims, target, sv, Rows(source), sv.claimId(id));
    assert d in TwoWayDiff(t, s, target, sv).newClaims;
    assert ContextLinked(g, d.claim.id, d.entities, h.claimEntities);
  }

  // ---- Deletions ----

  lemma {:induction false} CopyKeepsUris(target: map<SourceId, Source>, source: map<SourceId, Source>,
                                         claims: seq<DiffClaim>)
    requires SameUris(target, source)
    ensures SameUris(CopySources(target, source, claims).sources, source)
  {
    if claims != [] { CopyKeepsUris(target, source, claims[..|claims| - 1]); }
  }

  /** Propagating deletions never takes out what the same merge brought in: a claim
      whose source record the branch has survives, whatever id the target's record of
      that URI has. */
  lemma MergedClaimsSurvive(g: GraphState, source: GraphState, diff: KnowledgeDiff, loops: GraphState, h: GraphState,
                            id: ClaimId)
    requires Applied(g, source, diff, loops) && SameUris(g.sources, source.sources)
    requires Removed(loops, Doomed(loops, source), h)
    requires id in loops.claims && loops.claims[id].source in source.sources
    ensures id in h.claims && h.claims[id] == loops.claims[id]
  {
    CopyKeepsUris(g.sources, source.sources, diff.newClaims);
    SharedSourcesStay(loops, source, h, id);
  }

  // ---- Sources ----

  ghost predicate SameUris(target: map<SourceId, Source>, source: map<SourceId, Source>) {
    forall id | id in target && id in source :: target[id].uri == source[id].uri
  }

  ghost predicate OneIdPerUri(source: map<SourceId, Source>) {
    forall x, y | x in source && y in source && source[x].uri == source[y].uri :: x == y
  }

  /** Which source records the target holds after the copy loop: its own, and a
      source record of a new claim exactly when its URI was not in the target. */
  lemma {:induction false} CopiedSources(target: map<SourceId, Source>, source: map<SourceId, Source>,
                                         claims: seq<DiffClaim>)
    requires SameUris(target, source) && OneIdPerUri(source)
    ensures var c := CopySources(target, source, claims);
      && (forall id :: id in c.done <==> id in source && exists d | d in claims :: d.claim.source == id)
      && (forall id :: id in c.sources <==> id in target || (id in c.done && source[id].uri !in Uris(target)))
      && (forall id | id in c.sources :: c.sources[id] == if id in target then target[id] else source[id])
  {
    if claims != [] {
      var n := |claims| - 1;
      CopiedSources(target, source, claims[..n]);
      assert claims == claims[..n] + [claims[n]];
      var c, id := CopySources(target, source, claims[..n]), claims[n].claim.source;
      if id in source && id !in c.done {
        if source[id].uri in Uris(c.sources) {
          var x :| x in c.sources && c.sources[x].uri == source[id].uri;
          assert x in target && source[id].uri in Uris(target);
        } else {
          forall x | x in target ensures target[x].uri != source[id].uri {
            assert c.sources[x] == target[x];
          }
        }
      }
    }
  }

  /** A merged claim's source record exists in the target exactly when the target
      had it, or the source graph has it under a URI new to the target. */
  lemma SourceLinkResolvesIff(g: GraphState, source: GraphState, claims: seq<DiffClaim>, d: DiffClaim)
    requires d in claims && SameUris(g.sources, source.sources) && OneIdPerUri(source.sources)
    ensures var x := d.claim.source;
      x in CopySources(g.sources, source.sources, claims).sources
      <==> x in g.sources || (x in source.sources && source.sources[x].uri !in Uris(g.sources))
  {
    CopiedSources(g.sources, source.sources, claims);
  }

  // ---- Rows: what the next diff will see ----

  /** A graph whose rows come from the claims table. */
  ghost predicate ReadsClaims(g: GraphState) {
    WitnessRows(g) == map[]
  }

  /** A graph that answers from witnesses does not see merged claims at all. */
  lemma WitnessesHideMerge(g: GraphState, source: GraphState, diff: KnowledgeDiff, h: GraphState)
    requires Applied(g, source, diff, h) && !ReadsClaims(g)
    requires forall id | id in g.witnesses :: g.witnesses[id].source in g.sources
    requires g.sources.Keys <= h.sources.Keys
    ensures Rows(h) == Rows(g) && WitnessRows(h) == WitnessRows(g)
  {
    assert h.witnesses == g.witnesses;
    assert WitnessRows(h) == WitnessRows(g);
  }

  lemma {:induction false} SourcesGrow(target: map<SourceId, Source>, source: map<SourceId, Source>,
                                       claims: seq<DiffClaim>)
    ensures target.Keys <= CopySources(target, source, claims).sources.Keys
  {
    if claims != [] { SourcesGrow(target, source, claims[..|claims| - 1]); }
  }

  lemma LinksStay(g: GraphState, source: GraphState, diff: KnowledgeDiff, h: GraphState, k: ClaimId)
    requires Applied(g, source, diff, h) && Linked(g, k)
    ensures Linked(h, k)
  {
    SourcesGrow(g.sources, source.sources, diff.newClaims);
    var x :| x in g.sources && (k, x) in g.claimSources;
    assert x in h.sources && (k, x) in h.claimSources;
  }

  /** In a graph that answers from claims, the row at the id of an admitted claim has
      the source's statement, and it is visible exactly when some source edge of the
      claim resolves; rows of other ids that were visible stay as they were. */
  lemma RowsAfterMerge(t: CharTable, s: Settings, isId: IdCheck, g: GraphState, target: View, source: GraphState,
                       sv: View, h: GraphState, k: ClaimId)
    requires WellKeyed(g) && Lists(sv.rows, Rows(source)) && DrawsIds(isId, sv, Rows(source))
    requires Applied(g, source, TwoWayDiff(t, s, target, sv), h) && ReadsClaims(g) && ReadsClaims(h)
    ensures forall id | Overrides(t, target.rows, Rows(source), id) && sv.claimId(id) == k ::
      && (k in Rows(h) <==> Linked(h, k))
      && (k in Rows(h) ==> Rows(h)[k] == Row(k, Rows(source)[id].statement, Clamp(Rows(source)[id].confidence)))
    ensures (forall id | Overrides(t, target.rows, Rows(source), id) :: sv.claimId(id) != k) && k in Rows(g) ==>
      k in Rows(h) && Rows(h)[k] == Rows(g)[k]
  {
    ExactMergedClaims(t, s, isId, g.claims, target, sv, Rows(source), k);
    if Linked(g, k) { LinksStay(g, source, TwoWayDiff(t, s, target, sv), h, k); }
    assert Rows(h) == LegacyRows(h) && Rows(g) == LegacyRows(g);
  }

  // ---- Superseded claims ----

  /** The resolution lets the source's claim win over the target's `id`. */
  predicate Loses(r: AutoResolution, id: ClaimId) {
    r.mainId == id && r.winner == r.branchId
  }

  /** Exactly the target claims that lost are recorded, each against a claim it lost
      to; older records stay unless replaced. */
  lemma {:induction false} SupersededExactly(target: map<ClaimId, ClaimId>, resolutions: seq<AutoResolution>,
                                             id: ClaimId)
    ensures var after := Supersede(target, resolutions);
      && ((exists r | r in resolutions :: Loses(r, id)) ==>
            id in after && exists r | r in resolutions :: Loses(r, id) && after[id] == r.branchId)
      && ((forall r | r in resolutions :: !Loses(r, id)) ==>
            (id in after <==> id in target) && (id in after ==> after[id] == target[id]))
  {
    if resolutions != [] {
      var n := |resolutions| - 1;
      assert resolutions == resolutions[..n] + [resolutions[n]];
      SupersededExactly(target, resolutions[..n], id);
      var before, after := Supersede(target, resolutions[..n]), Supersede(target, resolutions);
      assert resolutions[n] in resolutions;
      if !Loses(resolutions[n], id) {
        assert (id in after <==> id in before) && (id in after ==> after[id] == before[id]);
        if r :| r in resolutions && Loses(r, id) {
          assert r in resolutions[..n];
          var q :| q in resolutions[..n] && Loses(q, id) && before[id] == q.branchId;
          assert q in resolutions;
        }
      }
    }
  }

  /** A row that pass 1 found contradictory is not brought over, so the claim that
      wins an automatic resolution is in the merged target exactly when the target
      already held that id. */
  lemma WinnerPresentIff(t: CharTable, s: Settings, isId: IdCheck, claims: map<ClaimId, Claim>, target: View, sv: View,
                         source: map<ClaimId, Row>, r: AutoResolution)
    requires Lists(sv.rows, source) && DrawsIds(isId, sv, source)
    requires r in Pass1(t, s.threshold, target.rows, NewRows(t, target.rows, sv.rows)).findings.autoResolved
    ensures r.branchId in InsertClaims(claims, TwoWayDiff(t, s, target, sv).newClaims) <==> r.branchId in claims
  {
    var added := NewRows(t, target.rows, sv.rows);
    AutoResolvedContradicts(t, s.threshold, target.rows, added, r);
    var row :| row in added && row.id == r.branchId && !ContradictsNone(t, row, target.rows);
    assert source[r.branchId] == row;
    OwnIdOnly(isId, sv, source, r.branchId);
    ExactMergedClaims(t, s, isId, claims, target, sv, source, r.branchId);
  }

  ghost predicate HasContradictingRow(t: CharTable, main: seq<Row>, rows: seq<Row>, id: ClaimId) {
    exists row | row in rows :: row.id == id && !ContradictsNone(t, row, main)
  }

  lemma ReportedAuto(f: Findings, threshold: real, row: Row, main: Row, r: AutoResolution)
    requires r in Report(f, threshold, row, main).autoResolved
    ensures r in f.autoResolved || r.branchId == row.id
  {
  }

  lemma {:induction false} AutoResolvedContradicts(t: CharTable, threshold: real, main: seq<Row>, rows: seq<Row>,
                                                   r: AutoResolution)
    requires r in Pass1(t, threshold, main, rows).findings.autoResolved
    ensures HasContradictingRow(t, main, rows, r.branchId)
  {
    var n := |rows| - 1;
    var before, hit := Pass1(t, threshold, main, rows[..n]).findings, FirstContradiction(t, rows[n].statement, main);
    if hit.Some? {
      ReportedAuto(before, threshold, rows[n], main[hit.value], r);
    }
    if r in before.autoResolved {
      AutoResolvedContradicts(t, threshold, main, rows[..n], r);
      var row :| row in rows[..n] && row.id == r.branchId && !ContradictsNone(t, row, main);
      assert row in rows;
    } else {
      assert main[hit.value] in main;
      assert rows[n] in rows && !ContradictsNone(t, rows[n], main);
    }
  }

  // ---- Entities ----

  ghost predicate DistinctEntityIds(entities: seq<DiffEntity>) {
    forall x, y | x in entities && y in entities && x.id == y.id :: x == y
  }

  predicate Reused(entities: seq<DiffEntity>, id: EntityId) {
    exists e | e in entities :: e.id == id
  }

  lemma {:induction false} InsertedEntities(target: map<EntityId, string>, entities: seq<DiffEntity>, id: EntityId)
    requires DistinctEntityIds(entities)
    ensures var m := InsertEntities(target, entities);
      && (id in m <==> id in target || Reused(entities, id))
      && (forall e | e in entities && e.id == id :: id in m && m[id] == e.name)
      && (!Reused(entities, id) && id in target ==> m[id] == target[id])
  {
    if entities != [] {
      var n := |entities| - 1;
      assert entities == entities[..n] + [entities[n]];
      assert forall e | e in entities[..n] :: e in entities;
      InsertedEntities(target, entities[..n], id);
      assert entities[n] in entities;
    }
  }

  /** What inserting the new entities does to every id. */
  lemma NewEntitiesInserted(isId: IdCheck, g: GraphState, target: View, source: GraphState, sv: View)
    requires ReadsEntities(isId, g, target) && ReadsEntities(isId, source, sv)
    ensures var added := NewEntities(target, sv.entities);
      var m := InsertEntities(g.entities, added);
      && (forall id :: id in m <==> id in g.entities || Reused(added, id))
      && (forall e | e in added :: e.id in m && m[e.id] == e.name)
      && (forall id | id in g.entities && !Reused(added, id) :: m[id] == g.entities[id])
      && (forall e :: e in added <==> e in sv.entities && e.name !in ListedNames(isId, g))
  {
    var added := NewEntities(target, sv.entities);
    assert DistinctEntityIds(added);
    forall id ensures var m := InsertEntities(g.entities, added);
      && (id in m <==> id in g.entities || Reused(added, id))
      && (forall e | e in added && e.id == id :: id in m && m[id] == e.name)
      && (!Reused(added, id) && id in g.entities ==> m[id] == g.entities[id])
    {
      InsertedEntities(g.entities, added, id);
    }
    forall e: DiffEntity
      ensures (exists x | x in target.entities :: x.name == e.name) <==> e.name in ListedNames(isId, g)
    {
      if e.name in ListedNames(isId, g) {
        var id :| id in g.entities && isId(id) && g.entities[id] == e.name;
        assert DiffEntity(id, e.name) in target.entities;
      }
    }
  }

  /** A name of the target whose entity keeps its id, or one that the source lists and
      the target does not. */
  ghost predicate Known(isId: IdCheck, g: GraphState, source: GraphState, added: seq<DiffEntity>, name: string) {
    || (exists id | id in g.entities :: g.entities[id] == name && !Reused(added, id))
    || name in ListedNames(isId, source) - ListedNames(isId, g)
  }

  /** Those are the names that the target has after the merge.  Entities are stored by
      id, so a source entity renamed after the fork takes the old name with it. */
  lemma NameAfterMergeIff(isId: IdCheck, g: GraphState, target: View, source: GraphState, sv: View, name: string)
    requires ReadsEntities(isId, g, target) && ReadsEntities(isId, source, sv)
    ensures var added := NewEntities(target, sv.entities);
      name in InsertEntities(g.entities, added).Values <==> Known(isId, g, source, added, name)
  {
    NewEntitiesInserted(isId, g, target, source, sv);
    var added := NewEntities(target, sv.entities);
    var m := InsertEntities(g.entities, added);
    if name in m.Values {
      var id :| id in m && m[id] == name;
      if Reused(added, id) {
        var e :| e in added && e.id == id;
        assert isId(id) && source.entities[id] == name;
      }
    }
    if id :| id in g.entities && g.entities[id] == name && !Reused(added, id) {
      assert id in m && m[id] == name;
    }
    if name in ListedNames(isId, source) - ListedNames(isId, g) {
      var id :| id in source.entities && isId(id) && source.entities[id] == name;
      var e := DiffEntity(id, name);
      assert e in sv.entities && e in added;
      assert m[e.id] == name;
    }
  }

  /** The new entities bring ids the target does not use. */
  ghost predicate NoIdReused(g: GraphState, added: seq<DiffEntity>) {
    forall e | e in added :: e.id !in g.entities
  }

  /** Then no name of the target is lost, and exactly the listed names of the source
      come in. */
  lemma EntityClosure(isId: IdCheck, g: GraphState, target: View, source: GraphState, sv: View)
    requires ReadsEntities(isId, g, target) && ReadsEntities(isId, source, sv)
    requires NoIdReused(g, NewEntities(target, sv.entities))
    ensures var m := InsertEntities(g.entities, NewEntities(target, sv.entities));
      && m.Values == EntityNames(g) + ListedNames(isId, source)
      && forall id | id in g.entities :: id in m && m[id] == g.entities[id]
  {
    NewEntitiesInserted(isId, g, target, source, sv);
    var added := NewEntities(target, sv.entities);
    forall name
      ensures name in InsertEntities(g.entities, added).Values <==>
        name in EntityNames(g) + ListedNames(isId, source)
    {
      NameAfterMergeIff(isId, g, target, source, sv, name);
      if name in EntityNames(g) {
        var id :| id in g.entities && g.entities[id] == name;
        assert !Reused(added, id);
      }
    }
  }

  lemma OldRelationKept(g: GraphState, h: GraphState, r: NamedRelation)
    requires forall id | id in g.entities :: id in h.entities && h.entities[id] == g.entities[id]
    requires g.relations <= h.relations && r in NamedRelations(g)
    ensures r in NamedRelations(h)
  {
    var k :| k in g.relations && k.from in g.entities && k.to in g.entities
      && r == NamedRelation(g.entities[k.from], g.entities[k.to], k.kind);
    assert k in h.relations && k.from in h.entities && k.to in h.entities;
  }

  lemma NewRelationArrives(g: GraphState, relations: seq<NamedRelation>, h: GraphState, r: NamedRelation)
    requires LinksRelations(g.(entities := h.entities), relations, h.relations)
    requires r in relations && Resolves(h.entities, r)
    ensures r in NamedRelations(h)
  {
    var k :| k in h.relations && Names(h.entities, k, r);
  }

  lemma RelationEndsAreNames(g: GraphState, r: NamedRelation)
    requires r in NamedRelations(g)
    ensures r.from in EntityNames(g) && r.to in EntityNames(g)
  {
    var k :| k in g.relations && Names(g.entities, k, r);
  }

  /** A source relation that is new to the target arrives exactly when the names of
      both its ends are known: an end the source does not list is neither inserted nor
      found by name, and the loop passes the relation over. */
  lemma RelationArrivesIff(t: CharTable, s: Settings, isId: IdCheck, g: GraphState, target: View, source: GraphState,
                           sv: View, h: GraphState, r: NamedRelation)
    requires ReadsEntities(isId, g, target) && ReadsEntities(isId, source, sv)
    requires ReadsRelations(g, target) && ReadsRelations(source, sv)
    requires Applied(g, source, TwoWayDiff(t, s, target, sv), h)
    requires r in NamedRelations(source) && r !in NamedRelations(g)
    ensures var added := NewEntities(target, sv.entities);
      r in NamedRelations(h) <==> Known(isId, g, source, added, r.from) && Known(isId, g, source, added, r.to)
  {
    NameAfterMergeIff(isId, g, target, source, sv, r.from);
    NameAfterMergeIff(isId, g, target, source, sv, r.to);
    if r.from in EntityNames(h) && r.to in EntityNames(h) {
      NewRelationArrives(g, NewRelations(target, sv.relations), h, r);
    }
    if r in NamedRelations(h) {
      RelationEndsAreNames(h, r);
    }
  }

  /** Both ends of the relation are names that the target has or the source lists. */
  predicate EndsKnown(isId: IdCheck, g: GraphState, source: GraphState, r: NamedRelation) {
    && r.from in EntityNames(g) + ListedNames(isId, source)
    && r.to in EntityNames(g) + ListedNames(isId, source)
  }

  lemma KnownEnds(isId: IdCheck, g: GraphState, target: View, source: GraphState, sv: View, r: NamedRelation)
    requires ReadsEntities(isId, g, target) && ReadsEntities(isId, source, sv)
    requires NoIdReused(g, NewEntities(target, sv.entities))
    ensures var added := NewEntities(target, sv.entities);
      EndsKnown(isId, g, source, r) <==> Known(isId, g, source, added, r.from) && Known(isId, g, source, added, r.to)
  {
    EntityClosure(isId, g, target, source, sv);
    NameAfterMergeIff(isId, g, target, source, sv, r.from);
    NameAfterMergeIff(isId, g, target, source, sv, r.to);
  }

  /** Merge closure: when no entity id is reused, the loops keep every relation of the
      target, and bring all of the source's exactly when the ends of the new ones are
      known. */
  lemma RelationClosureIff(t: CharTable, s: Settings, isId: IdCheck, g: GraphState, target: View, source: GraphState,
                           sv: View, h: GraphState)
    requires ReadsEntities(isId, g, target) && ReadsEntities(isId, source, sv)
    requires ReadsRelations(g, target) && ReadsRelations(source, sv)
    requires NoIdReused(g, NewEntities(target, sv.entities))
    requires Applied(g, source, TwoWayDiff(t, s, target, sv), h)
    ensures EntityNames(h) == EntityNames(g) + ListedNames(isId, source)
    ensures NamedRelations(g) <= NamedRelations(h)
    ensures NamedRelations(source) <= NamedRelations(h)
       <==> forall r | r in NamedRelations(source) && r !in NamedRelations(g) :: EndsKnown(isId, g, source, r)
  {
    EntityClosure(isId, g, target, source, sv);
    forall r | r in NamedRelations(g) ensures r in NamedRelations(h) {
      OldRelationKept(g, h, r);
    }
    forall r | r in NamedRelations(source) && r !in NamedRelations(g)
      ensures r in NamedRelations(h) <==> EndsKnown(isId, g, source, r)
    {
      RelationArrivesIff(t, s, isId, g, target, source, sv, h, r);
      KnownEnds(isId, g, target, source, sv, r);
    }
  }

  /** So nothing is dropped when every entity that the source's relations join has an
      id that parses. */
  lemma RelationClosure(t: CharTable, s: Settings, isId: IdCheck, g: GraphState, target: View, source: GraphState,
                        sv: View, h: GraphState)
    requires ReadsEntities(isId, g, target) && ReadsEntities(isId, source, sv)
    requires ReadsRelations(g, target) && ReadsRelations(source, sv)
    requires NoIdReused(g, NewEntities(target, sv.entities))
    requires Applied(g, source, TwoWayDiff(t, s, target, sv), h)
    requires forall k | k in source.relations :: isId(k.from) && isId(k.to)
    ensures NamedRelations(g) + NamedRelations(source) <= NamedRelations(h)
  {
    RelationClosureIff(t, s, isId, g, target, source, sv, h);
    forall r | r in NamedRelations(source) ensures EndsKnown(isId, g, source, r) {
      var k :| k in source.relations && Names(source.entities, k, r);
    }
  }

  /** For instance: main has nodes for the branches `topic` and `child`, and the edge
      from `child` to the branch it was forked from; `topic` was forked before `child`
      existed, and is rebased onto main. */
  predicate ForkEdge(isId: IdCheck, g: GraphState, source: GraphState) {
    && !isId("branch:topic") && !isId("branch:child")
    && g.entities == map["branch:topic" := "topic"] && g.relations == {}
    && source.entities == map["branch:topic" := "topic", "branch:child" := "child"]
    && source.relations == {RelationKey("branch:child", "branch:topic", "forked_from")}
  }

  lemma ForkEdgeUnknown(isId: IdCheck, g: GraphState, target: View, source: GraphState, sv: View, r: NamedRelation)
    requires ForkEdge(isId, g, source) && r == NamedRelation("child", "topic", "forked_from")
    requires ReadsEntities(isId, source, sv)
    ensures NewEntities(target, sv.entities) == []
    ensures r in NamedRelations(source) && r !in NamedRelations(g) && !EndsKnown(isId, g, source, r)
  {
    var k := RelationKey("branch:child", "branch:topic", "forked_from");
    assert k in source.relations && Names(source.entities, k, r);
    NothingListed(isId, source, sv);
  }

  /** The diff finds the relation new and the loop drops it. */
  lemma ForkEdgeIsDropped(t: CharTable, s: Settings, isId: IdCheck, g: GraphState, target: View, source: GraphState,
                          sv: View, h: GraphState, r: NamedRelation)
    requires ForkEdge(isId, g, source) && r == NamedRelation("child", "topic", "forked_from")
    requires ReadsEntities(isId, g, target) && ReadsEntities(isId, source, sv)
    requires ReadsRelations(g, target) && ReadsRelations(source, sv)
    requires Applied(g, source, TwoWayDiff(t, s, target, sv), h)
    ensures r in NewRelations(target, sv.relations) && NewEntities(target, sv.entities) == [] && r !in NamedRelations(h)
  {
    ForkEdgeUnknown(isId, g, target, source, sv, r);
    KnownEnds(isId, g, target, source, sv, r);
    RelationArrivesIff(t, s, isId, g, target, source, sv, h, r);
  }

  lemma NothingListed(isId: IdCheck, g: GraphState, v: View)
    requires ReadsEntities(isId, g, v) && forall id | id in g.entities :: !isId(id)
    ensures v.entities == []
  {
    SomeMember(v.entities);
  }

  /** The rebuild then forgets them: afterwards the target has a relation exactly
      when one of its source-scoped rows names it, whatever the diff brought. */
  lemma RebuildKeepsOnlyScoped(g: GraphState, source: GraphState, diff: KnowledgeDiff, loops: GraphState, h: GraphState,
                               r: NamedRelation)
    requires Applied(g, source, diff, loops) && h == loops.(relations := set x | x in loops.scopedRelations :: x.key)
    ensures r in NamedRelations(h) <==> exists x | x in g.scopedRelations :: Names(h.entities, x.key, r)
  {
    if r in NamedRelations(h) {
      var k :| k in h.relations && Names(h.entities, k, r);
      var x :| x in loops.scopedRelations && x.key == k;
    }
    if x :| x in g.scopedRelations && Names(h.entities, x.key, r) {
      assert x.key in h.relations;
    }
  }

  /** Claims are linked before the new entities go in, so a merged claim without
      earlier edges is linked to an entity of its context exactly when the target
      already knew that name. */
  lemma ContextLinkedIff(g: GraphState, source: GraphState, diff: KnowledgeDiff, h: GraphState, c: DiffClaim,
                         name: string)
    requires Applied(g, source, diff, h) && NoIdReused(g, diff.newEntities) && DistinctEntityIds(diff.newEntities)
    requires c in diff.newClaims && name in c.entities && forall x | x in g.claimEntities :: x.0 != c.claim.id
    ensures (exists e | e in h.entities :: h.entities[e] == name && (c.claim.id, e) in h.claimEntities)
       <==> name in EntityNames(g)
  {
    forall id | id in g.entities ensures id in h.entities && h.entities[id] == g.entities[id] {
      InsertedEntities(g.entities, diff.newEntities, id);
    }
    assert ContextLinked(g, c.claim.id, c.entities, h.claimEntities);
    if e :| e in h.entities && h.entities[e] == name && (c.claim.id, e) in h.claimEntities {
      assert (c.claim.id, e) in h.claimEntities - g.claimEntities;
    }
  }
}
