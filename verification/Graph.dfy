/** The part of the knowledge graph that diff and merge read and write. */
module Graph {
  import opened Wrappers

  type ClaimId = string
  type SourceId = string
  type EntityId = string

  /** Which texts parse as the engine's own ids.  Those of witnesses, of artifacts
      and of branch nodes do not. */
  type IdCheck = string -> bool

  datatype Claim = Claim(id: ClaimId, statement: string, source: SourceId, confidence: real)

  datatype Source = Source(uri: string, sourceType: string)

  /** One row of `get_all_claims_with_sources`. */
  datatype Row = Row(id: ClaimId, statement: string, confidence: real)

  datatype RelationKey = RelationKey(from: EntityId, to: EntityId, kind: string)

  datatype ScopedRelation = ScopedRelation(source: SourceId, key: RelationKey)

  /** A relation seen through the names of its ends. */
  datatype NamedRelation = NamedRelation(from: string, to: string, kind: string)

  datatype GraphState = GraphState(
    witnesses: map<ClaimId, Claim>,
    claims: map<ClaimId, Claim>, claimSources: set<(ClaimId, SourceId)>,
    claimEntities: set<(ClaimId, EntityId)>,
    sources: map<SourceId, Source>,
    entities: map<EntityId, string>,
    relations: set<RelationKey>,
    scopedRelations: set<ScopedRelation>,
    superseded: map<ClaimId, ClaimId>)

  // ---- What the queries see ----

  function RowOf(c: Claim): Row {
    Row(c.id, c.statement, c.confidence)
  }

  predicate Linked(g: GraphState, id: ClaimId) {
    exists s | s in g.sources :: (id, s) in g.claimSources
  }

  function WitnessRows(g: GraphState): map<ClaimId, Row> {
    map id | id in g.witnesses && g.witnesses[id].source in g.sources :: RowOf(g.witnesses[id])
  }

  function LegacyRows(g: GraphState): map<ClaimId, Row> {
    map id | id in g.claims && Linked(g, id) :: RowOf(g.claims[id])
  }

  /** The rows a diff reads: witnesses if the graph has any that resolve, and
      otherwise the claims whose source edge resolves. */
  function Rows(g: GraphState): map<ClaimId, Row> {
    if WitnessRows(g) != map[] then WitnessRows(g) else LegacyRows(g)
  }

  function Uris(sources: map<SourceId, Source>): set<string> {
    set id | id in sources :: sources[id].uri
  }

  function EntityNames(g: GraphState): set<string> {
    g.entities.Values
  }

  function NamedRelations(g: GraphState): set<NamedRelation> {
    set k | k in g.relations && k.from in g.entities && k.to in g.entities ::
      NamedRelation(g.entities[k.from], g.entities[k.to], k.kind)
  }

  /** Tables are keyed by the id their rows carry. */
  ghost predicate WellKeyed(g: GraphState) {
    && (forall id | id in g.claims :: g.claims[id].id == id)
    && (forall id | id in g.witnesses :: g.witnesses[id].id == id)
  }

  // ---- Removing a source ----

  function ClaimsFrom(g: GraphState, id: SourceId): set<ClaimId> {
    set c | c in g.claims && g.claims[c].source == id
  }

  /** No claim edge and no source-scoped relation names the entity. */
  predicate Unused(edges: set<(ClaimId, EntityId)>, scoped: set<ScopedRelation>, e: EntityId) {
    && (forall x | x in edges :: x.1 != e)
    && (forall r | r in scoped :: r.key.from != e && r.key.to != e)
  }

  function EdgesWithout(edges: set<(string, string)>, gone: set<ClaimId>): set<(string, string)> {
    set x | x in edges && x.0 !in gone
  }

  function ScopedWithout(scoped: set<ScopedRelation>, id: SourceId): set<ScopedRelation> {
    set r | r in scoped && r.source != id
  }

  function WitnessesWithout(witnesses: map<ClaimId, Claim>, id: SourceId): map<ClaimId, Claim> {
    map w | w in witnesses && witnesses[w].source != id :: witnesses[w]
  }

  /** The entities that some of the claims named and nothing uses any more. */
  function Orphans(edges: set<(ClaimId, EntityId)>, gone: set<ClaimId>, scoped: set<ScopedRelation>): set<EntityId> {
    set x | x in edges && x.0 in gone && Unused(EdgesWithout(edges, gone), scoped, x.1) :: x.1
  }

  function RelationsWithout(relations: set<RelationKey>, dead: set<EntityId>): set<RelationKey> {
    set k | k in relations && k.from !in dead && k.to !in dead
  }

  /** A source goes with its claims, their edges, its witnesses and relations; then
      go the entities of those claims that nothing uses any more. */
  function WithoutSource(g: GraphState, id: SourceId): GraphState {
    var gone, scoped := ClaimsFrom(g, id), ScopedWithout(g.scopedRelations, id);
    var dead := Orphans(g.claimEntities, gone, scoped);
    GraphState(WitnessesWithout(g.witnesses, id), g.claims - gone, EdgesWithout(g.claimSources, gone),
               EdgesWithout(g.claimEntities, gone), g.sources - {id}, g.entities - dead,
               RelationsWithout(g.relations, dead), scoped, g.superseded - gone)
  }

  // ---- The store ----

  class GraphStore {
    var witnesses: map<ClaimId, Claim>
    var claims: map<ClaimId, Claim>
    var claimSources: set<(ClaimId, SourceId)>
    var claimEntities: set<(ClaimId, EntityId)>
    var sources: map<SourceId, Source>
    var entities: map<EntityId, string>
    var relations: set<RelationKey>
    var scopedRelations: set<ScopedRelation>
    var superseded: map<ClaimId, ClaimId>

    function State(): GraphState
      reads this
    {
      GraphState(witnesses, claims, claimSources, claimEntities, sources, entities, relations, scopedRelations,
                 superseded)
    }

    constructor (g: GraphState)
      ensures State() == g
    {
      witnesses, claims, claimSources, claimEntities := g.witnesses, g.claims, g.claimSources, g.claimEntities;
      sources, entities, relations := g.sources, g.entities, g.relations;
      scopedRelations, superseded := g.scopedRelations, g.superseded;
    }

    method InsertClaim(c: Claim)
      modifies this`claims
      ensures State() == old(State()).(claims := old(claims)[c.id := c])
    {
      claims := claims[c.id := c];
    }

    method InsertSource(id: SourceId, s: Source)
      modifies this`sources
      ensures State() == old(State()).(sources := old(sources)[id := s])
    {
      sources := sources[id := s];
    }

    method InsertEntity(id: EntityId, name: string)
      modifies this`entities
      ensures State() == old(State()).(entities := old(entities)[id := name])
    {
      entities := entities[id := name];
    }

    method LinkClaimToSource(c: ClaimId, s: SourceId)
      modifies this`claimSources
      ensures State() == old(State()).(claimSources := old(claimSources) + {(c, s)})
    {
      claimSources := claimSources + {(c, s)};
    }

    method LinkClaimToEntity(c: ClaimId, e: EntityId)
      modifies this`claimEntities
      ensures State() == old(State()).(claimEntities := old(claimEntities) + {(c, e)})
    {
      claimEntities := claimEntities + {(c, e)};
    }

    method LinkEntities(k: RelationKey)
      modifies this`relations
      ensures State() == old(State()).(relations := old(relations) + {k})
    {
      relations := relations + {k};
    }

    /** Records the loser in `claim_temporal`; the claim rows stay. */
    method SupersedeClaim(loser: ClaimId, winner: ClaimId)
      modifies this`superseded
      ensures State() == old(State()).(superseded := old(superseded)[loser := winner])
    {
      superseded := superseded[loser := winner];
    }

    /** The first row of the name query: some entity of that name, if any. */
    method FindEntityIdByName(name: string) returns (id: Option<EntityId>)
      ensures id.Some? ==> id.value in entities && entities[id.value] == name
      ensures id.None? ==> name !in EntityNames(State())
    {
      if e :| e in entities && entities[e] == name {
        id := Some(e);
      } else {
        id := None;
      }
    }

    method RemoveSourceById(id: SourceId)
      modifies this
      ensures State() == WithoutSource(old(State()), id)
    {
      var gone := ClaimsFrom(State(), id);
      scopedRelations := ScopedWithout(scopedRelations, id);
      var dead := Orphans(claimEntities, gone, scopedRelations);
      claimEntities := EdgesWithout(claimEntities, gone);
      claimSources := EdgesWithout(claimSources, gone);
      superseded := superseded - gone;
      claims := claims - gone;
      witnesses := WitnessesWithout(witnesses, id);
      sources := sources - {id};
      relations := RelationsWithout(relations, dead);
      entities := entities - dead;
    }

    /** Clears the aggregated relations and derives them again from the
        source-scoped ones alone. */
    method RebuildEntityRelations()
      modifies this`relations
      ensures State() == old(State()).(relations := set r | r in old(scopedRelations) :: r.key)
    {
      relations := {};
      var todo := scopedRelations;
      while todo != {}
        invariant todo <= scopedRelations
        invariant relations == set r | r in scopedRelations - todo :: r.key
        decreases |todo|
      {
        var r :| r in todo;
        LinkEntities(r.key);
        todo := todo - {r};
      }
    }
  }
}
