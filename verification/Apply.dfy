/** Applying a diff to the target store (`apply_branch_diff`), and what the
    target holds afterwards. */
module Apply {
  import opened Graph
  import opened Diff
  import opened Deletions

  // ---- What each loop computes ----

  /** The source records of the target, and the ids the loop need not look at
      again. */
  datatype Copying = Copying(sources: map<SourceId, Source>, done: set<SourceId>)

  /** Copy one source record unless its URI is already present under any id. */
  function CopySource(c: Copying, source: map<SourceId, Source>, id: SourceId): Copying {
    if id in c.done || id !in source then c
    else
      Copying(if source[id].uri in Uris(c.sources) then c.sources else c.sources[id := source[id]], c.done + {id})
  }

  function CopySources(target: map<SourceId, Source>, source: map<SourceId, Source>, claims: seq<DiffClaim>): Copying {
    if claims == [] then Copying(target, {})
    else CopySource(CopySources(target, source, claims[..|claims| - 1]), source, claims[|claims| - 1].claim.source)
  }

  function InsertClaims(target: map<ClaimId, Claim>, claims: seq<DiffClaim>): map<ClaimId, Claim> {
    if claims == [] then target
    else InsertClaims(target, claims[..|claims| - 1])[claims[|claims| - 1].claim.id := claims[|claims| - 1].claim]
  }

  function SourceEdges(claims: seq<DiffClaim>): set<(ClaimId, SourceId)> {
    set c | c in claims :: (c.claim.id, c.claim.source)
  }

  function Supersede(target: map<ClaimId, ClaimId>, resolutions: seq<AutoResolution>): map<ClaimId, ClaimId> {
    if resolutions == [] then target
    else
      var before := Supersede(target, resolutions[..|resolutions| - 1]);
      var r := resolutions[|resolutions| - 1];
      if r.winner == r.branchId then before[r.mainId := r.branchId] else before
  }

  function InsertEntities(target: map<EntityId, string>, entities: seq<DiffEntity>): map<EntityId, string> {
    if entities == [] then target
    else
      var last := entities[|entities| - 1];
      InsertEntities(target, entities[..|entities| - 1])[last.id := last.name]
  }

  /** The claim-to-entity edges after the claim loop: none is lost, each added one
      links a new claim to an entity of its context that the target already had,
      and every context name the target knows is linked. */
  ghost predicate LinksClaims(g: GraphState, claims: seq<DiffClaim>, after: set<(ClaimId, EntityId)>) {
    && g.claimEntities <= after
    && (forall x | x in after - g.claimEntities ::
          x.1 in g.entities && exists c | c in claims :: c.claim.id == x.0 && g.entities[x.1] in c.entities)
    && (forall c | c in claims :: ContextLinked(g, c.claim.id, c.entities, after))
  }

  ghost predicate ContextLinked(g: GraphState, id: ClaimId, names: seq<string>, after: set<(ClaimId, EntityId)>) {
    forall n | n in names && n in EntityNames(g) :: exists e | e in g.entities :: g.entities[e] == n && (id, e) in after
  }

  predicate Names(entities: map<EntityId, string>, k: RelationKey, r: NamedRelation) {
    k.from in entities && k.to in entities && NamedRelation(entities[k.from], entities[k.to], k.kind) == r
  }

  predicate Resolves(entities: map<EntityId, string>, r: NamedRelation) {
    r.from in entities.Values && r.to in entities.Values
  }

  /** The relation edges after the relation loop: none is lost, each added one
      stands for a new relation, and every new relation whose ends resolve by name
      is there. */
  ghost predicate LinksRelations(g: GraphState, relations: seq<NamedRelation>, after: set<RelationKey>) {
    && g.relations <= after
    && (forall k | k in after - g.relations :: exists r | r in relations :: Names(g.entities, k, r))
    && (forall r | r in relations && Resolves(g.entities, r) :: exists k | k in after :: Names(g.entities, k, r))
  }

  // ---- The loops ----

  method CopySourcesLoop(target: GraphStore, source: GraphState, claims: seq<DiffClaim>)
    modifies target`sources
    ensures target.State() ==
      old(target.State()).(sources := CopySources(old(target.sources), source.sources, claims).sources)
  {
    var copied: set<SourceId> := {};
    ghost var before := target.sources;
    for i := 0 to |claims|
      invariant target.State() == old(target.State()).(sources := target.sources)
      invariant Copying(target.sources, copied) == CopySources(before, source.sources, claims[..i])
    {
      assert claims[..i + 1][..i] == claims[..i];
      var id := claims[i].claim.source;
      if id in copied {
        continue;
      }
      if id in source.sources {
        if source.sources[id].uri !in Uris(target.sources) {
          target.InsertSource(id, source.sources[id]);
        }
        copied := copied + {id};
      }
    }
    assert claims[..|claims|] == claims;
  }

  /** The links of one claim to the entities of its context. */
  method LinkContext(target: GraphStore, id: ClaimId, names: seq<string>)
    modifies target`claimEntities
    ensures target.State() == old(target.State()).(claimEntities := target.claimEntities)
    ensures old(target.claimEntities) <= target.claimEntities
    ensures forall x | x in target.claimEntities - old(target.claimEntities) ::
      x.0 == id && x.1 in target.entities && target.entities[x.1] in names
    ensures ContextLinked(old(target.State()), id, names, target.claimEntities)
  {
    for i := 0 to |names|
      invariant target.State() == old(target.State()).(claimEntities := target.claimEntities)
      invariant old(target.claimEntities) <= target.claimEntities
      invariant forall x | x in target.claimEntities - old(target.claimEntities) ::
        x.0 == id && x.1 in target.entities && target.entities[x.1] in names
      invariant ContextLinked(old(target.State()), id, names[..i], target.claimEntities)
    {
      assert names[..i + 1] == names[..i] + [names[i]];
      var entity := target.FindEntityIdByName(names[i]);
      if entity.Some? {
        target.LinkClaimToEntity(id, entity.value);
      }
    }
    assert names[..|names|] == names;
  }

  /** Insert the claims, their source edges and the entity edges that resolve now. */
  method InsertClaimsLoop(target: GraphStore, claims: seq<DiffClaim>)
    modifies target`claims, target`claimSources, target`claimEntities
    ensures var g := old(target.State());
      && target.State() == g.(claims := InsertClaims(g.claims, claims),
                              claimSources := g.claimSources + SourceEdges(claims),
                              claimEntities := target.claimEntities)
      && LinksClaims(g, claims, target.claimEntities)
  {
    ghost var g := target.State();
    for i := 0 to |claims|
      invariant target.State() == g.(claims := InsertClaims(g.claims, claims[..i]),
                                     claimSources := g.claimSources + SourceEdges(claims[..i]),
                                     claimEntities := target.claimEntities)
      invariant LinksClaims(g, claims[..i], target.claimEntities)
    {
      assert claims[..i + 1] == claims[..i] + [claims[i]];
      assert claims[..i + 1][..i] == claims[..i];
      var c := claims[i];
      target.InsertClaim(c.claim);
      target.LinkClaimToSource(c.claim.id, c.claim.source);
      ghost var before := target.claimEntities;
      LinkContext(target, c.claim.id, c.entities);
      LinksClaimsSnoc(g, claims[..i], c, before, target.claimEntities);
    }
    assert claims[..|claims|] == claims;
  }

  lemma LinksClaimsSnoc(g: GraphState, claims: seq<DiffClaim>, c: DiffClaim, before: set<(ClaimId, EntityId)>,
                        after: set<(ClaimId, EntityId)>)
    requires LinksClaims(g, claims, before) && before <= after
    requires forall x | x in after - before :: x.0 == c.claim.id && x.1 in g.entities && g.entities[x.1] in c.entities
    requires ContextLinked(g, c.claim.id, c.entities, after)
    ensures LinksClaims(g, claims + [c], after)
  {
    assert c in claims + [c];
    forall d | d in claims + [c] ensures ContextLinked(g, d.claim.id, d.entities, after) {
      if d != c { assert d in claims; }
    }
    forall x | x in after - g.claimEntities
      ensures x.1 in g.entities && exists d | d in claims + [c] :: d.claim.id == x.0 && g.entities[x.1] in d.entities
    {
      if x in before {
        assert x in before - g.claimEntities;
        var d :| d in claims && d.claim.id == x.0 && g.entities[x.1] in d.entities;
        assert d in claims + [c];
      }
    }
  }

  method SupersedeLoop(target: GraphStore, resolutions: seq<AutoResolution>)
    modifies target`superseded
    ensures target.State() == old(target.State()).(superseded := Supersede(old(target.superseded), resolutions))
  {
    for i := 0 to |resolutions|
      invariant target.State() ==
        old(target.State()).(superseded := Supersede(old(target.superseded), resolutions[..i]))
    {
      assert resolutions[..i + 1][..i] == resolutions[..i];
      var r := resolutions[i];
      if r.winner == r.branchId {
        target.SupersedeClaim(r.mainId, r.branchId);
      }
    }
    assert resolutions[..|resolutions|] == resolutions;
  }

  method InsertEntitiesLoop(target: GraphStore, entities: seq<DiffEntity>)
    modifies target`entities
    ensures target.State() == old(target.State()).(entities := InsertEntities(old(target.entities), entities))
  {
    for i := 0 to |entities|
      invariant target.State() == old(target.State()).(entities := InsertEntities(old(target.entities), entities[..i]))
    {
      assert entities[..i + 1][..i] == entities[..i];
      target.InsertEntity(entities[i].id, entities[i].name);
    }
    assert entities[..|entities|] == entities;
  }

  method LinkRelationsLoop(target: GraphStore, relations: seq<NamedRelation>)
    modifies target`relations
    ensures target.State() == old(target.State()).(relations := target.relations)
    ensures LinksRelations(old(target.State()), relations, target.relations)
  {
    ghost var g := target.State();
    for i := 0 to |relations|
      invariant target.State() == g.(relations := target.relations)
      invariant LinksRelations(g, relations[..i], target.relations)
    {
      assert relations[..i + 1] == relations[..i] + [relations[i]];
      var r := relations[i];
      ghost var before := target.relations;
      var from := target.FindEntityIdByName(r.from);
      var to := target.FindEntityIdByName(r.to);
      if from.Some? && to.Some? {
        target.LinkEntities(RelationKey(from.value, to.value, r.kind));
        assert Names(g.entities, RelationKey(from.value, to.value, r.kind), r);
      }
      LinksRelationsSnoc(g, relations[..i], r, before, target.relations);
    }
    assert relations[..|relations|] == relations;
  }

  lemma LinksRelationsSnoc(g: GraphState, relations: seq<NamedRelation>, r: NamedRelation, before: set<RelationKey>,
                           after: set<RelationKey>)
    requires LinksRelations(g, relations, before) && before <= after
    requires forall k | k in after - before :: Names(g.entities, k, r)
    requires Resolves(g.entities, r) ==> exists k | k in after :: Names(g.entities, k, r)
    ensures LinksRelations(g, relations + [r], after)
  {
    assert r in relations + [r];
    forall k | k in after - g.relations ensures exists x | x in relations + [r] :: Names(g.entities, k, x) {
      if k in before {
        assert k in before - g.relations;
        var x :| x in relations && Names(g.entities, k, x);
        assert x in relations + [r];
      }
    }
    forall x | x in relations + [r] && Resolves(g.entities, x)
      ensures exists k | k in after :: Names(g.entities, k, x)
    {
      if x != r {
        assert x in relations;
        var k :| k in before && Names(g.entities, k, x);
      }
    }
  }

  /** Everything `apply_branch_diff` writes before the aggregated relations are
      rebuilt, for a graph `g` before and `h` after. */
  ghost predicate Applied(g: GraphState, source: GraphState, diff: KnowledgeDiff, h: GraphState) {
    && h == g.(
         sources := CopySources(g.sources, source.sources, diff.newClaims).sources,
         claims := InsertClaims(g.claims, diff.newClaims),
         claimSources := g.claimSources + SourceEdges(diff.newClaims),
         superseded := Supersede(g.superseded, diff.autoResolved),
         entities := InsertEntities(g.entities, diff.newEntities),
         claimEntities := h.claimEntities,
         relations := h.relations)
    && LinksClaims(g, diff.newClaims, h.claimEntities)
    && LinksRelations(g.(entities := h.entities), diff.newRelations, h.relations)
  }

  method ApplyLoops(target: GraphStore, source: GraphState, diff: KnowledgeDiff)
    modifies target
    ensures Applied(old(target.State()), source, diff, target.State())
  {
    CopySourcesLoop(target, source, diff.newClaims);
    InsertClaimsLoop(target, diff.newClaims);
    SupersedeLoop(target, diff.autoResolved);
    InsertEntitiesLoop(target, diff.newEntities);
    LinkRelationsLoop(target, diff.newRelations);
  }

  /** The graph a merge leaves: the loops, the deletions if asked for, and the
      rebuild. */
  ghost predicate MergeOf(g: GraphState, source: GraphState, diff: KnowledgeDiff, propagate: bool, h: GraphState) {
    exists loops, swept: GraphState ::
      && Applied(g, source, diff, loops)
      && (if propagate then Removed(loops, Doomed(loops, source), swept) else swept == loops)
      && h == swept.(relations := set r | r in swept.scopedRelations :: r.key)
  }

  // ---- What that means for the target ----

  /** Nothing the target held is missing. */
  ghost predicate KeepsAll(g: GraphState, h: GraphState) {
    && g.sources.Keys <= h.sources.Keys && g.claims.Keys <= h.claims.Keys && g.entities.Keys <= h.entities.Keys
    && g.claimSources <= h.claimSources && g.claimEntities <= h.claimEntities
    && g.superseded.Keys <= h.superseded.Keys
    && h.witnesses == g.witnesses && h.scopedRelations == g.scopedRelations
  }

  /** The branch lacks the URI of this record, and one with that URI is a file. */
  ghost predicate FileDeleted(sources: map<SourceId, Source>, source: GraphState, s: SourceId) {
    && s in sources && (forall b | b in source.sources :: source.sources[b].uri != sources[s].uri)
    && exists x | x in sources :: sources[x].uri == sources[s].uri && IsFile(sources[x])
  }

  /** No file is left that the branch lacks, and the records missing are exactly those
      of the deleted files. */
  ghost predicate DropsSources(sources: map<SourceId, Source>, source: GraphState, h: GraphState) {
    && (forall s | s in h.sources && IsFile(h.sources[s]) :: h.sources[s].uri in Uris(source.sources))
    && (forall s :: s in h.sources <==> s in sources && !FileDeleted(sources, source, s))
    && (forall s | s in h.sources :: h.sources[s] == sources[s])
  }

  /** Of the claims in `merged`, and of the witnesses and scoped relations in `g`,
      exactly those of the deleted files are missing. */
  ghost predicate DropsRows(g: GraphState, merged: map<ClaimId, Claim>, sources: map<SourceId, Source>,
                            source: GraphState, h: GraphState)
  {
    && (forall c :: c in h.claims <==> c in merged && !FileDeleted(sources, source, merged[c].source))
    && (forall c | c in h.claims :: h.claims[c] == merged[c])
    && (forall w :: w in h.witnesses <==> w in g.witnesses && !FileDeleted(sources, source, g.witnesses[w].source))
    && (forall r :: r in h.scopedRelations <==> r in g.scopedRelations && !FileDeleted(sources, source, r.source))
  }

  /** Without the flag nothing of the target goes; with it, exactly the deleted files
      go; and either way the relations are those of the scoped rows left. */
  ghost predicate MergeLeaves(g: GraphState, source: GraphState, diff: KnowledgeDiff, propagate: bool, h: GraphState) {
    && (!propagate ==> KeepsAll(g, h))
    && (propagate ==>
          var sources := CopySources(g.sources, source.sources, diff.newClaims).sources;
          DropsSources(sources, source, h) && DropsRows(g, InsertClaims(g.claims, diff.newClaims), sources, source, h))
    && (forall k :: k in h.relations <==> exists r | r in h.scopedRelations :: r.key == k)
  }

  lemma {:induction false} CopyKeepsKeys(target: map<SourceId, Source>, source: map<SourceId, Source>,
                                         claims: seq<DiffClaim>)
    ensures target.Keys <= CopySources(target, source, claims).sources.Keys
  {
    if claims != [] { CopyKeepsKeys(target, source, claims[..|claims| - 1]); }
  }

  lemma {:induction false} InsertKeepsKeys(target: map<ClaimId, Claim>, claims: seq<DiffClaim>)
    ensures target.Keys <= InsertClaims(target, claims).Keys
  {
    if claims != [] { InsertKeepsKeys(target, claims[..|claims| - 1]); }
  }

  lemma {:induction false} EntitiesKeepKeys(target: map<EntityId, string>, entities: seq<DiffEntity>)
    ensures target.Keys <= InsertEntities(target, entities).Keys
  {
    if entities != [] { EntitiesKeepKeys(target, entities[..|entities| - 1]); }
  }

  lemma {:induction false} SupersedeKeepsKeys(target: map<ClaimId, ClaimId>, resolutions: seq<AutoResolution>)
    ensures target.Keys <= Supersede(target, resolutions).Keys
  {
    if resolutions != [] { SupersedeKeepsKeys(target, resolutions[..|resolutions| - 1]); }
  }

  lemma LoopsKeepAll(g: GraphState, source: GraphState, diff: KnowledgeDiff, loops: GraphState)
    requires Applied(g, source, diff, loops)
    ensures KeepsAll(g, loops)
  {
    CopyKeepsKeys(g.sources, source.sources, diff.newClaims);
    InsertKeepsKeys(g.claims, diff.newClaims);
    EntitiesKeepKeys(g.entities, diff.newEntities);
    SupersedeKeepsKeys(g.superseded, diff.autoResolved);
  }

  lemma DoomedAreDeleted(loops: GraphState, source: GraphState)
    ensures forall s :: s in Doomed(loops, source) <==> FileDeleted(loops.sources, source, s)
  {
  }

  lemma RemovedDropsSources(loops: GraphState, source: GraphState, h: GraphState)
    requires h.sources == loops.sources - Doomed(loops, source)
    ensures DropsSources(loops.sources, source, h)
  {
    DoomedAreDeleted(loops, source);
    forall s | s in h.sources && IsFile(h.sources[s]) ensures h.sources[s].uri in Uris(source.sources) {
      assert s !in Doomed(loops, source) && loops.sources[s] == h.sources[s];
    }
  }

  lemma RemovedDropsRows(g: GraphState, loops: GraphState, source: GraphState, h: GraphState)
    requires Removed(loops, Doomed(loops, source), h)
    requires loops.witnesses == g.witnesses && loops.scopedRelations == g.scopedRelations
    ensures DropsRows(g, loops.claims, loops.sources, source, h)
  {
    DoomedAreDeleted(loops, source);
  }

  lemma DropsSame(g: GraphState, merged: map<ClaimId, Claim>, sources: map<SourceId, Source>, source: GraphState,
                  swept: GraphState, h: GraphState)
    requires DropsSources(sources, source, swept) && DropsRows(g, merged, sources, source, swept)
    requires h == swept.(relations := h.relations)
    ensures DropsSources(sources, source, h) && DropsRows(g, merged, sources, source, h)
  {
  }

  lemma RebuildKeeps(g: GraphState, source: GraphState, diff: KnowledgeDiff, loops: GraphState, h: GraphState)
    requires Applied(g, source, diff, loops) && h == loops.(relations := h.relations)
    ensures KeepsAll(g, h)
  {
    LoopsKeepAll(g, source, diff, loops);
  }

  lemma RebuildDrops(g: GraphState, source: GraphState, diff: KnowledgeDiff, loops: GraphState, swept: GraphState,
                     h: GraphState)
    requires Applied(g, source, diff, loops) && Removed(loops, Doomed(loops, source), swept)
    requires h == swept.(relations := h.relations)
    ensures DropsSources(loops.sources, source, h) && DropsRows(g, loops.claims, loops.sources, source, h)
  {
    RemovedDropsSources(loops, source, swept);
    RemovedDropsRows(g, loops, source, swept);
    DropsSame(g, loops.claims, loops.sources, source, swept, h);
  }

  lemma MergeMeans(g: GraphState, source: GraphState, diff: KnowledgeDiff, propagate: bool, h: GraphState)
    requires MergeOf(g, source, diff, propagate, h)
    ensures MergeLeaves(g, source, diff, propagate, h)
  {
    var loops, swept: GraphState :|
      && Applied(g, source, diff, loops)
      && (if propagate then Removed(loops, Doomed(loops, source), swept) else swept == loops)
      && h == swept.(relations := set r | r in swept.scopedRelations :: r.key);
    if propagate {
      RebuildDrops(g, source, diff, loops, swept, h);
    } else {
      RebuildKeeps(g, source, diff, loops, h);
    }
  }

  /** The whole of it: the loops, the deletions if asked for, then the rebuild that
      keeps nothing but the source-scoped relations. */
  method ApplyBranchDiff(target: GraphStore, source: GraphState, diff: KnowledgeDiff, propagate: bool)
    modifies target
    ensures MergeOf(old(target.State()), source, diff, propagate, target.State())
    ensures MergeLeaves(old(target.State()), source, diff, propagate, target.State())
  {
    ApplyLoops(target, source, diff);
    ghost var loops := target.State();
    if propagate {
      PropagateDeletions(target, source);
    }
    ghost var swept := target.State();
    target.RebuildEntityRelations();
    MergeMeans(old(target.State()), source, diff, propagate, target.State());
  }
}
