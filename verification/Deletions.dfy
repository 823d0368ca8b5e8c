/** Deletion propagation: a file the branch no longer has takes its claims out of
    the target (`--propagate-deletions`). */
module Deletions {
  import opened Graph
  import opened Sequences

  predicate IsFile(s: Source) {
    s.sourceType in {"File", "Document", "Markdown", "Code"}
  }

  /** The source records to remove, given the listed rows: those that share their URI
      with a listed file, if the branch does not have that URI. */
  function DoomedBy(g: GraphState, source: GraphState, rows: seq<Source>): set<SourceId> {
    set s | s in g.sources && g.sources[s].uri !in Uris(source.sources)
            && exists r | r in rows :: r.uri == g.sources[s].uri && IsFile(r)
  }

  function Doomed(g: GraphState, source: GraphState): set<SourceId> {
    set s | s in g.sources && g.sources[s].uri !in Uris(source.sources)
            && exists x | x in g.sources :: g.sources[x].uri == g.sources[s].uri && IsFile(g.sources[x])
  }

  predicate ClaimGone(g: GraphState, doomed: set<SourceId>, id: ClaimId) {
    id in g.claims && g.claims[id].source in doomed
  }

  /** The tables after the removal of some sources: exactly their claims, with the
      edges of those, and their witnesses and relations are missing. */
  ghost predicate TablesWithout(g: GraphState, doomed: set<SourceId>, h: GraphState) {
    && h.sources == g.sources - doomed
    && h.claims == (map id | id in g.claims && !ClaimGone(g, doomed, id) :: g.claims[id])
    && h.witnesses == (map w | w in g.witnesses && g.witnesses[w].source !in doomed :: g.witnesses[w])
    && h.claimSources == (set x | x in g.claimSources && !ClaimGone(g, doomed, x.0))
    && h.claimEntities == (set x | x in g.claimEntities && !ClaimGone(g, doomed, x.0))
    && h.superseded == (map id | id in g.superseded && !ClaimGone(g, doomed, id) :: g.superseded[id])
    && h.scopedRelations == (set r | r in g.scopedRelations && r.source !in doomed)
  }

  /** A removed claim named the entity. */
  ghost predicate Touched(g: GraphState, doomed: set<SourceId>, e: EntityId) {
    exists x | x in g.claimEntities :: x.1 == e && ClaimGone(g, doomed, x.0)
  }

  /** A removed source related the entity although none of its claims named it: its
      removal does not look at the entity again. */
  ghost predicate Overlooked(g: GraphState, doomed: set<SourceId>, e: EntityId) {
    exists r | r in g.scopedRelations && r.source in doomed ::
      && (r.key.from == e || r.key.to == e)
      && forall x | x in g.claimEntities && x.1 == e :: x.0 !in ClaimsFrom(g, r.source)
  }

  /** Entities only go when a removed claim named them and nothing uses them any
      more, and those all go but for the overlooked ones, for which the order of
      removals decides. */
  ghost predicate OrphansGone(g: GraphState, doomed: set<SourceId>, h: GraphState) {
    && (forall e | e in h.entities :: e in g.entities && h.entities[e] == g.entities[e])
    && (forall e | e in g.entities && e !in h.entities ::
          Unused(h.claimEntities, h.scopedRelations, e) && Touched(g, doomed, e))
    && (forall e | e in h.entities && Touched(g, doomed, e) ::
          !Unused(h.claimEntities, h.scopedRelations, e) || Overlooked(g, doomed, e))
  }

  /** An aggregated relation goes exactly with one of its ends. */
  ghost predicate RelationsLeft(g: GraphState, h: GraphState) {
    && (forall k | k in h.relations :: k in g.relations
          && (k.from in g.entities ==> k.from in h.entities) && (k.to in g.entities ==> k.to in h.entities))
    && (forall k | k in g.relations && k.from in h.entities && k.to in h.entities :: k in h.relations)
  }

  ghost predicate Removed(g: GraphState, doomed: set<SourceId>, h: GraphState) {
    TablesWithout(g, doomed, h) && OrphansGone(g, doomed, h) && RelationsLeft(g, h)
  }

  // ---- The loops ----

  lemma GoneStep(g: GraphState, doomed: set<SourceId>, h: GraphState, id: SourceId)
    requires h.claims == (map c | c in g.claims && !ClaimGone(g, doomed, c) :: g.claims[c])
    ensures forall c :: ClaimGone(g, doomed + {id}, c) <==> ClaimGone(g, doomed, c) || c in ClaimsFrom(h, id)
    ensures h.claims - ClaimsFrom(h, id) == (map c | c in g.claims && !ClaimGone(g, doomed + {id}, c) :: g.claims[c])
  {
  }

  lemma EdgesStep(g: GraphState, doomed: set<SourceId>, gone: set<ClaimId>, id: SourceId, all: set<(string, string)>,
                  edges: set<(string, string)>)
    requires edges == (set x | x in all && !ClaimGone(g, doomed, x.0))
    requires forall c :: ClaimGone(g, doomed + {id}, c) <==> ClaimGone(g, doomed, c) || c in gone
    ensures EdgesWithout(edges, gone) == (set x | x in all && !ClaimGone(g, doomed + {id}, x.0))
  {
  }

  lemma TablesStep(g: GraphState, doomed: set<SourceId>, h: GraphState, id: SourceId)
    requires TablesWithout(g, doomed, h)
    ensures TablesWithout(g, doomed + {id}, WithoutSource(h, id))
    ensures forall c :: c in ClaimsFrom(h, id) ==> ClaimGone(g, doomed + {id}, c)
  {
    var gone := ClaimsFrom(h, id);
    GoneStep(g, doomed, h, id);
    EdgesStep(g, doomed, gone, id, g.claimSources, h.claimSources);
    EdgesStep(g, doomed, gone, id, g.claimEntities, h.claimEntities);
    assert h.superseded - gone == map c | c in g.superseded && !ClaimGone(g, doomed + {id}, c) :: g.superseded[c];
  }

  lemma TouchedStep(g: GraphState, doomed: set<SourceId>, h: GraphState, id: SourceId, e: EntityId)
    requires TablesWithout(g, doomed, h)
    ensures Touched(g, doomed + {id}, e) <==>
      Touched(g, doomed, e) || exists x | x in h.claimEntities :: x.1 == e && x.0 in ClaimsFrom(h, id)
  {
    GoneStep(g, doomed, h, id);
    if x :| x in g.claimEntities && x.1 == e && ClaimGone(g, doomed + {id}, x.0) {
      assert ClaimGone(g, doomed, x.0) || x in h.claimEntities;
    }
    if x :| x in g.claimEntities && x.1 == e && ClaimGone(g, doomed, x.0) {
      assert ClaimGone(g, doomed + {id}, x.0);
    }
    if x :| x in h.claimEntities && x.1 == e && x.0 in ClaimsFrom(h, id) {
      assert ClaimGone(g, doomed + {id}, x.0);
    }
  }

  lemma OrphansGo(g: GraphState, doomed: set<SourceId>, h: GraphState, id: SourceId)
    requires Removed(g, doomed, h)
    ensures var after := WithoutSource(h, id);
      forall e | e in g.entities && e !in after.entities ::
        Unused(after.claimEntities, after.scopedRelations, e) && Touched(g, doomed + {id}, e)
  {
    TablesStep(g, doomed, h, id);
    var after := WithoutSource(h, id);
    forall e | e in g.entities && e !in after.entities
      ensures Unused(after.claimEntities, after.scopedRelations, e) && Touched(g, doomed + {id}, e)
    {
      TouchedStep(g, doomed, h, id, e);
    }
  }

  lemma OrphanStays(g: GraphState, doomed: set<SourceId>, h: GraphState, id: SourceId, e: EntityId)
    requires Removed(g, doomed, h)
    requires var after := WithoutSource(h, id);
      e in after.entities && Unused(after.claimEntities, after.scopedRelations, e)
    requires Touched(g, doomed + {id}, e)
    ensures Overlooked(g, doomed + {id}, e)
  {
    TouchedStep(g, doomed, h, id, e);
    assert forall x | x in h.claimEntities :: x.1 != e;
    if Unused(h.claimEntities, h.scopedRelations, e) {
      var r :| r in g.scopedRelations && r.source in doomed && (r.key.from == e || r.key.to == e)
        && forall x | x in g.claimEntities && x.1 == e :: x.0 !in ClaimsFrom(g, r.source);
      assert r.source in doomed + {id};
    } else {
      var r :| r in h.scopedRelations && (r.key.from == e || r.key.to == e);
      assert r.source == id && r.source !in doomed;
      forall x | x in g.claimEntities && x.1 == e ensures x.0 !in ClaimsFrom(g, id) {
        assert x !in h.claimEntities;
      }
    }
  }

  lemma OrphansStep(g: GraphState, doomed: set<SourceId>, h: GraphState, id: SourceId)
    requires Removed(g, doomed, h)
    ensures OrphansGone(g, doomed + {id}, WithoutSource(h, id))
  {
    OrphansGo(g, doomed, h, id);
    var after := WithoutSource(h, id);
    forall e | e in after.entities && Touched(g, doomed + {id}, e)
      ensures !Unused(after.claimEntities, after.scopedRelations, e) || Overlooked(g, doomed + {id}, e)
    {
      if Unused(after.claimEntities, after.scopedRelations, e) { OrphanStays(g, doomed, h, id, e); }
    }
  }

  lemma RelationsStep(g: GraphState, h: GraphState, id: SourceId)
    requires RelationsLeft(g, h) && forall e | e in h.entities :: e in g.entities
    ensures RelationsLeft(g, WithoutSource(h, id))
  {
  }

  function WithUri(sources: map<SourceId, Source>, uri: string): set<SourceId> {
    set s | s in sources && sources[s].uri == uri
  }

  lemma RemoveStep(g: GraphState, doomed: set<SourceId>, h: GraphState, id: SourceId)
    requires Removed(g, doomed, h)
    ensures Removed(g, doomed + {id}, WithoutSource(h, id))
  {
    TablesStep(g, doomed, h, id);
    OrphansStep(g, doomed, h, id);
    RelationsStep(g, h, id);
  }

  method RemoveSourceByUri(target: GraphStore, uri: string, ghost g: GraphState, ghost doomed: set<SourceId>)
    requires Removed(g, doomed, target.State())
    modifies target
    ensures Removed(g, doomed + WithUri(g.sources, uri), target.State())
  {
    var todo := WithUri(target.sources, uri);
    ghost var now := doomed;
    assert doomed + todo == doomed + WithUri(g.sources, uri);
    while todo != {}
      invariant now + todo == doomed + WithUri(g.sources, uri) && Removed(g, now, target.State())
      decreases |todo|
    {
      var id :| id in todo;
      RemoveStep(g, now, target.State(), id);
      target.RemoveSourceById(id);
      now, todo := now + {id}, todo - {id};
    }
    assert now + {} == now;
  }

  /** `get_all_sources`, in any order. */
  method ListSources(target: GraphStore) returns (rows: seq<Source>)
    ensures forall r :: r in rows <==> exists s | s in target.sources :: target.sources[s] == r
  {
    rows := [];
    var todo := target.sources.Keys;
    while todo != {}
      invariant todo <= target.sources.Keys
      invariant forall r :: r in rows <==> exists s | s in target.sources && s !in todo :: target.sources[s] == r
      decreases |todo|
    {
      var id :| id in todo;
      ghost var before := rows;
      todo := todo - {id};
      rows := rows + [target.sources[id]];
      forall r ensures r in rows <==> exists s | s in target.sources && s !in todo :: target.sources[s] == r {
        if r in before {
          var s :| s in target.sources && s !in todo + {id} && target.sources[s] == r;
        }
        if s :| s in target.sources && s !in todo && target.sources[s] == r { assert s == id || r in before; }
      }
    }
  }

  lemma NothingRemoved(g: GraphState, source: GraphState)
    ensures DoomedBy(g, source, []) == {} && Removed(g, {}, g)
  {
  }

  lemma AllListed(g: GraphState, source: GraphState, rows: seq<Source>)
    requires forall r :: r in rows <==> exists s | s in g.sources :: g.sources[s] == r
    ensures DoomedBy(g, source, rows) == Doomed(g, source)
  {
    forall s | s in Doomed(g, source) ensures s in DoomedBy(g, source, rows) {
      var x :| x in g.sources && g.sources[x].uri == g.sources[s].uri && IsFile(g.sources[x]);
      assert g.sources[x] in rows;
    }
  }

  /** Every listed file whose URI the branch lacks takes the records of that URI with it. */
  method PropagateDeletions(target: GraphStore, source: GraphState)
    modifies target
    ensures Removed(old(target.State()), Doomed(old(target.State()), source), target.State())
  {
    ghost var g := target.State();
    var rows := ListSources(target);
    NothingRemoved(g, source);
    PrefixesOf(rows);
    ghost var gone: set<SourceId> := {};
    for i := 0 to |rows|
      invariant gone == DoomedBy(g, source, rows[..i]) && Removed(g, gone, target.State())
    {
      DoomedSnoc(g, source, rows[..i], rows[i]);
      if IsFile(rows[i]) && rows[i].uri !in Uris(source.sources) {
        RemoveSourceByUri(target, rows[i].uri, g, gone);
        gone := gone + WithUri(g.sources, rows[i].uri);
      }
    }
    AllListed(g, source, rows);
  }

  lemma DoomedSnoc(g: GraphState, source: GraphState, rows: seq<Source>, r: Source)
    ensures DoomedBy(g, source, rows + [r]) ==
      DoomedBy(g, source, rows) + if IsFile(r) && r.uri !in Uris(source.sources) then WithUri(g.sources, r.uri) else {}
  {
    var before, after := DoomedBy(g, source, rows), DoomedBy(g, source, rows + [r]);
    forall s | s in before ensures s in after {
      var x :| x in rows && x.uri == g.sources[s].uri && IsFile(x);
      assert x in rows + [r];
    }
    if IsFile(r) && r.uri !in Uris(source.sources) {
      forall s | s in WithUri(g.sources, r.uri) ensures s in after { assert r in rows + [r]; }
    }
  }

  // ---- What goes and what stays ----

  /** Nothing goes exactly when the branch still has every file of the target. */
  lemma NothingDoomedIff(g: GraphState, source: GraphState)
    ensures Doomed(g, source) == {} <==>
      forall s | s in g.sources && IsFile(g.sources[s]) :: g.sources[s].uri in Uris(source.sources)
  {
    forall s | s in g.sources && IsFile(g.sources[s]) && g.sources[s].uri !in Uris(source.sources)
      ensures s in Doomed(g, source)
    {
    }
  }

  /** A second propagation finds nothing to remove. */
  lemma PropagationIsIdempotent(g: GraphState, source: GraphState, h: GraphState)
    requires Removed(g, Doomed(g, source), h)
    ensures Doomed(h, source) == {}
  {
    forall s | s in h.sources && IsFile(h.sources[s]) ensures h.sources[s].uri in Uris(source.sources) {
      assert s in g.sources && s !in Doomed(g, source) && g.sources[s] == h.sources[s];
    }
    NothingDoomedIff(h, source);
  }

  /** A claim whose source the branch has, under one URI in both graphs, stays. */
  lemma SharedSourcesStay(g: GraphState, source: GraphState, h: GraphState, id: ClaimId)
    requires Removed(g, Doomed(g, source), h)
    requires id in g.claims && g.claims[id].source in source.sources
    requires forall s | s in g.sources && s in source.sources :: g.sources[s].uri == source.sources[s].uri
    ensures id in h.claims && h.claims[id] == g.claims[id]
  {
    var s := g.claims[id].source;
    assert source.sources[s].uri in Uris(source.sources);
    assert s !in Doomed(g, source);
  }

  /** Which entities go, in any order of removals: those that a removed claim named
      and that nothing left in the graph uses, unless overlooked. */
  lemma OrphanGoesIff(g: GraphState, doomed: set<SourceId>, h: GraphState, e: EntityId)
    requires Removed(g, doomed, h) && e in g.entities && !Overlooked(g, doomed, e)
    ensures e !in h.entities <==>
      && (exists x | x in g.claimEntities :: x.1 == e && ClaimGone(g, doomed, x.0))
      && (forall x | x in g.claimEntities && x.1 == e :: ClaimGone(g, doomed, x.0))
      && (forall r | r in g.scopedRelations && (r.key.from == e || r.key.to == e) :: r.source in doomed)
  {
    assert Unused(h.claimEntities, h.scopedRelations, e) <==>
      && (forall x | x in g.claimEntities && x.1 == e :: ClaimGone(g, doomed, x.0))
      && (forall r | r in g.scopedRelations && (r.key.from == e || r.key.to == e) :: r.source in doomed);
  }

  /** For an overlooked entity the order does decide: named by claims of one source
      and related only by another, it stays when the claims go first, with nothing
      left that uses it, and goes when they go last. */
  lemma OrderDecidesOverlooked(g: GraphState, named: SourceId, related: SourceId, e: EntityId)
    requires e in g.entities && named != related
    requires (exists x | x in g.claimEntities :: x.1 == e)
      && forall x | x in g.claimEntities && x.1 == e :: x.0 in ClaimsFrom(g, named)
    requires (exists r | r in g.scopedRelations :: r.key.from == e || r.key.to == e)
      && forall r | r in g.scopedRelations && (r.key.from == e || r.key.to == e) :: r.source == related
    ensures var h := WithoutSource(WithoutSource(g, named), related);
      e in h.entities && Unused(h.claimEntities, h.scopedRelations, e)
    ensures e !in WithoutSource(WithoutSource(g, related), named).entities
  {
    var x :| x in g.claimEntities && x.1 == e;
    var r :| r in g.scopedRelations && (r.key.from == e || r.key.to == e);
    var one, two := WithoutSource(g, named), WithoutSource(g, related);
    assert r in one.scopedRelations && e in one.entities;
    assert x in two.claimEntities && x.0 in ClaimsFrom(two, named);
    assert e in two.entities;
  }
}
