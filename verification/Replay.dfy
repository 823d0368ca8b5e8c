/** Replaying a pack into a branch's storage: sources, entities, claims and their
    edges (`replay_pack_into_storage`). */
module Replay {
  import opened Wrappers
  import opened Graph
  import opened Diff

  datatype Record = Record(id: string, statement: string, ents: seq<string>, file: string, confidence: Option<real>)

  /** New ids in the order they are drawn, and the claim id a record's text stands for. */
  datatype Ids = Ids(sourceId: nat -> SourceId, entityId: nat -> EntityId, claimId: string -> ClaimId)

  datatype Counts = Counts(sources: nat, entities: nat, claims: nat)

  ghost predicate OneToOne(f: nat -> string) {
    forall i, j :: f(i) == f(j) ==> i == j
  }

  /** New ids differ from each other and from those in the storage. */
  ghost predicate NewIds(ids: Ids, g: GraphState) {
    && OneToOne(ids.sourceId) && OneToOne(ids.entityId)
    && (forall i :: ids.sourceId(i) !in g.sources) && (forall i :: ids.entityId(i) !in g.entities)
  }

  // ---- Numbered keys ----

  /** The lookup table that gives each key the id drawn for it, the last one if the
      key came twice. */
  function Table(keys: seq<string>, f: nat -> string): map<string, string> {
    if keys == [] then map[]
    else Table(keys[..|keys| - 1], f)[keys[|keys| - 1] := f(|keys| - 1)]
  }

  /** The rows inserted under those ids. */
  function PutAll<V>(m: map<string, V>, keys: seq<string>, f: nat -> string, row: string -> V): map<string, V> {
    if keys == [] then m
    else PutAll(m, keys[..|keys| - 1], f, row)[f(|keys| - 1) := row(keys[|keys| - 1])]
  }

  predicate LastAt(keys: seq<string>, k: string, i: nat) {
    i < |keys| && keys[i] == k && forall j | i < j < |keys| :: keys[j] != k
  }

  lemma {:induction false} TableAt(keys: seq<string>, f: nat -> string, k: string)
    ensures k in Table(keys, f) <==> k in keys
    ensures k in keys ==> exists i: nat :: LastAt(keys, k, i) && Table(keys, f)[k] == f(i)
  {
    if keys != [] {
      var n := |keys| - 1;
      assert keys == keys[..n] + [keys[n]];
      TableAt(keys[..n], f, k);
      if keys[n] == k {
        assert LastAt(keys, k, n);
      } else if k in keys {
        var i: nat :| LastAt(keys[..n], k, i) && Table(keys[..n], f)[k] == f(i);
        assert LastAt(keys, k, i);
      }
    }
  }

  lemma {:induction false} PutAllAt<V>(m: map<string, V>, keys: seq<string>, f: nat -> string, row: string -> V)
    requires OneToOne(f)
    ensures forall i: nat | i < |keys| ::
      f(i) in PutAll(m, keys, f, row) && PutAll(m, keys, f, row)[f(i)] == row(keys[i])
    ensures forall x :: x in PutAll(m, keys, f, row) <==> x in m || exists i: nat :: i < |keys| && x == f(i)
    ensures forall x | x in m && (forall i: nat | i < |keys| :: x != f(i)) :: PutAll(m, keys, f, row)[x] == m[x]
  {
    if keys != [] { PutAllAt(m, keys[..|keys| - 1], f, row); }
  }

  lemma TableKeys(keys: seq<string>, f: nat -> string)
    ensures Table(keys, f).Keys == set k | k in keys
  {
    forall k ensures k in Table(keys, f) <==> k in keys { TableAt(keys, f, k); }
  }

  // ---- Entity names ----

  /** All mentions, record by record. */
  function Mentions(records: seq<Record>): (names: seq<string>)
    ensures forall n :: n in names <==> exists r | r in records :: n in r.ents
  {
    if records == [] then []
    else
      assert records == records[..|records| - 1] + [records[|records| - 1]];
      Mentions(records[..|records| - 1]) + records[|records| - 1].ents
  }

  /** The names in order of first mention. */
  function Distinct(names: seq<string>): seq<string> {
    if names == [] then []
    else
      var before, last := Distinct(names[..|names| - 1]), names[|names| - 1];
      if last in before then before else before + [last]
  }

  lemma {:induction false} DistinctOnce(names: seq<string>)
    ensures forall n :: n in Distinct(names) <==> n in names
    ensures forall i, j | 0 <= i < j < |Distinct(names)| :: Distinct(names)[i] != Distinct(names)[j]
  {
    if names != [] {
      DistinctOnce(names[..|names| - 1]);
      assert names == names[..|names| - 1] + [names[|names| - 1]];
    }
  }

  // ---- The replayed graph ----

  function LowerAscii(c: char): char {
    if 'A' <= c <= 'Z' then c - 'A' + 'a' else c
  }

  predicate EndsWith(s: string, end: string) {
    |end| <= |s| && s[|s| - |end|..] == end
  }

  function LowerPath(path: string): (s: string)
    ensures |s| == |path|
  {
    seq(|path|, i requires 0 <= i < |path| => LowerAscii(path[i]))
  }

  function ClassifySourceType(uri: string): string {
    var lower := LowerPath(uri);
    if EndsWith(lower, ".md") || EndsWith(lower, ".markdown") || EndsWith(lower, ".rst") then "Document" else "File"
  }

  /** The second text is the first with its capitals lowered. */
  predicate SameButCase(a: string, b: string) {
    && |a| == |b|
    && forall i | 0 <= i < |a| :: b[i] as int == a[i] as int + if 65 <= a[i] as int <= 90 then 32 else 0
  }

  /** The path ends in an extension that is `end` but for its case. */
  ghost predicate HasExtension(path: string, end: string) {
    exists stem, ext: string :: path == stem + ext && SameButCase(ext, end)
  }

  lemma LowersCapitals(a: string, b: string)
    ensures LowerPath(a) == b <==> SameButCase(a, b)
  {
    forall c: char ensures LowerAscii(c) as int == c as int + if 65 <= c as int <= 90 then 32 else 0 {
    }
    if SameButCase(a, b) {
      forall i | 0 <= i < |a| ensures LowerPath(a)[i] == b[i] {
        assert LowerPath(a)[i] as int == b[i] as int;
      }
    }
  }

  lemma EndsInAnyCase(path: string, end: string)
    ensures EndsWith(LowerPath(path), end) <==> HasExtension(path, end)
  {
    var lower := LowerPath(path);
    if EndsWith(lower, end) {
      var k := |path| - |end|;
      assert LowerPath(path[k..]) == lower[k..];
      LowersCapitals(path[k..], end);
      assert path == path[..k] + path[k..];
    }
    if stem, ext: string :| path == stem + ext && SameButCase(ext, end) {
      LowersCapitals(ext, end);
      assert lower[|stem|..] == LowerPath(ext);
    }
  }

  /** A path is a document exactly when it ends in one of three extensions, and otherwise
      a plain file. */
  lemma ClassifiesByExtension(path: string)
    ensures ClassifySourceType(path) ==
      if HasExtension(path, ".md") || HasExtension(path, ".markdown") || HasExtension(path, ".rst")
      then "Document" else "File"
  {
    EndsInAnyCase(path, ".md");
    EndsInAnyCase(path, ".markdown");
    EndsInAnyCase(path, ".rst");
  }

  function SourceRow(path: string): Source {
    Source(path, ClassifySourceType(path))
  }

  function NameRow(name: string): string {
    name
  }

  function ClaimOf(r: Record, source: SourceId, ids: Ids): Claim {
    Claim(ids.claimId(r.id), r.statement, source, Clamp(if r.confidence.Some? then r.confidence.value else 0.8))
  }

  /** The claims built: one for each record whose file is in the table. */
  function Kept(records: seq<Record>, table: map<string, SourceId>, ids: Ids): seq<Claim> {
    if records == [] then []
    else
      var before, last := Kept(records[..|records| - 1], table, ids), records[|records| - 1];
      if last.file in table then before + [ClaimOf(last, table[last.file], ids)] else before
  }

  lemma {:induction false} KeptAre(records: seq<Record>, table: map<string, SourceId>, ids: Ids)
    ensures forall c :: c in Kept(records, table, ids) <==>
      exists r | r in records && r.file in table :: c == ClaimOf(r, table[r.file], ids)
  {
    if records != [] {
      KeptAre(records[..|records| - 1], table, ids);
      assert records == records[..|records| - 1] + [records[|records| - 1]];
    }
  }

  function PutClaims(m: map<ClaimId, Claim>, claims: seq<Claim>): map<ClaimId, Claim> {
    if claims == [] then m
    else PutClaims(m, claims[..|claims| - 1])[claims[|claims| - 1].id := claims[|claims| - 1]]
  }

  function Edges(records: seq<Record>, table: map<string, EntityId>): set<(ClaimId, EntityId)> {
    set r, e | r in records && e in r.ents && e in table :: (r.id, table[e])
  }

  function EntityTable(records: seq<Record>, ids: Ids): map<string, EntityId> {
    Table(Distinct(Mentions(records)), ids.entityId)
  }

  function Replayed(ids: Ids, g: GraphState, files: seq<string>, records: seq<Record>): GraphState {
    var claims := Kept(records, Table(files, ids.sourceId), ids);
    g.(sources := PutAll(g.sources, files, ids.sourceId, SourceRow),
       entities := PutAll(g.entities, Distinct(Mentions(records)), ids.entityId, NameRow),
       claims := PutClaims(g.claims, claims),
       claimSources := g.claimSources + (set c | c in claims :: (c.id, c.source)),
       claimEntities := g.claimEntities + Edges(records, EntityTable(records, ids)))
  }

  // ---- The loops ----

  method InsertSources(target: GraphStore, files: seq<string>, ids: Ids)
    returns (table: map<string, SourceId>, count: nat)
    modifies target`sources
    ensures target.State() ==
      old(target.State()).(sources := PutAll(old(target.sources), files, ids.sourceId, SourceRow))
    ensures table == Table(files, ids.sourceId) && count == |files|
  {
    table, count := map[], 0;
    for i := 0 to |files|
      invariant count == i && table == Table(files[..i], ids.sourceId)
      invariant target.sources == PutAll(old(target.sources), files[..i], ids.sourceId, SourceRow)
    {
      assert files[..i + 1][..i] == files[..i];
      target.InsertSource(ids.sourceId(count), SourceRow(files[i]));
      table := table[files[i] := ids.sourceId(count)];
      count := count + 1;
    }
    assert files[..|files|] == files;
  }

  lemma DistinctSnoc(before: seq<string>, name: string)
    ensures Distinct(before + [name]) ==
      if name in Distinct(before) then Distinct(before) else Distinct(before) + [name]
  {
    assert (before + [name])[..|before|] == before;
  }

  /** One more mention, in the names and in their table. */
  lemma CollectStep(seen: seq<string>, name: string, f: nat -> string)
    ensures var names, table := Distinct(seen), Table(Distinct(seen), f);
      if name in table then Distinct(seen + [name]) == names
      else Distinct(seen + [name]) == names + [name] && Table(names + [name], f) == table[name := f(|names|)]
  {
    TableKeys(Distinct(seen), f);
    DistinctSnoc(seen, name);
    TableSnoc(Distinct(seen), name, f);
  }

  lemma TableSnoc(names: seq<string>, name: string, f: nat -> string)
    ensures Table(names + [name], f) == Table(names, f)[name := f(|names|)]
  {
    assert (names + [name])[..|names|] == names;
  }

  /** An entity for a name not met before. */
  method CollectName(name: string, names0: seq<string>, table0: map<string, EntityId>, ids: Ids,
                     ghost seen: seq<string>)
    returns (names: seq<string>, table: map<string, EntityId>)
    requires names0 == Distinct(seen) && table0 == Table(names0, ids.entityId)
    ensures names == Distinct(seen + [name]) && table == Table(names, ids.entityId)
  {
    CollectStep(seen, name, ids.entityId);
    names, table := names0, table0;
    if name !in table {
      table := table[name := ids.entityId(|names|)];
      names := names + [name];
    }
  }

  lemma PrefixesOf(before: seq<string>, ents: seq<string>)
    ensures before + ents[..0] == before && before + ents[..|ents|] == before + ents
    ensures forall j | 0 <= j < |ents| :: before + ents[..j] + [ents[j]] == before + ents[..j + 1]
  {
  }

  /** The names of one record. */
  method CollectFrom(ents: seq<string>, names0: seq<string>, table0: map<string, EntityId>, ids: Ids,
                     ghost before: seq<string>)
    returns (names: seq<string>, table: map<string, EntityId>)
    requires names0 == Distinct(before) && table0 == Table(names0, ids.entityId)
    ensures names == Distinct(before + ents) && table == Table(names, ids.entityId)
  {
    names, table := names0, table0;
    PrefixesOf(before, ents);
    for j := 0 to |ents|
      invariant names == Distinct(before + ents[..j]) && table == Table(names, ids.entityId)
    {
      names, table := CollectName(ents[j], names, table, ids, before + ents[..j]);
    }
  }

  method CollectEntities(records: seq<Record>, ids: Ids) returns (names: seq<string>, table: map<string, EntityId>)
    ensures names == Distinct(Mentions(records)) && table == EntityTable(records, ids)
  {
    names, table := [], map[];
    for i := 0 to |records|
      invariant names == Distinct(Mentions(records[..i])) && table == Table(names, ids.entityId)
    {
      assert records[..i + 1][..i] == records[..i];
      names, table := CollectFrom(records[i].ents, names, table, ids, Mentions(records[..i]));
    }
    assert records[..|records|] == records;
  }

  method InsertEntities(target: GraphStore, names: seq<string>, ids: Ids)
    modifies target`entities
    ensures target.State() ==
      old(target.State()).(entities := PutAll(old(target.entities), names, ids.entityId, NameRow))
  {
    for i := 0 to |names|
      invariant target.entities == PutAll(old(target.entities), names[..i], ids.entityId, NameRow)
    {
      assert names[..i + 1][..i] == names[..i];
      target.InsertEntity(ids.entityId(i), names[i]);
    }
    assert names[..|names|] == names;
  }

  /** The positions, below `n`, of records whose file is not in the table. */
  function Skipped(records: seq<Record>, table: map<string, SourceId>, n: nat): set<nat> {
    set i: nat | i < n && i < |records| && records[i].file !in table
  }

  method BuildClaims(records: seq<Record>, table: map<string, SourceId>, ids: Ids)
    returns (claims: seq<Claim>, skipped: nat)
    ensures claims == Kept(records, table, ids)
    ensures |claims| + skipped == |records| && skipped == |Skipped(records, table, |records|)|
  {
    claims, skipped := [], 0;
    for i := 0 to |records|
      invariant claims == Kept(records[..i], table, ids)
      invariant |claims| + skipped == i && skipped == |Skipped(records, table, i)|
    {
      assert records[..i + 1][..i] == records[..i];
      assert Skipped(records, table, i + 1) ==
        Skipped(records, table, i) + if records[i].file in table then {} else {i};
      if records[i].file !in table {
        skipped := skipped + 1;
        continue;
      }
      claims := claims + [ClaimOf(records[i], table[records[i].file], ids)];
    }
    assert records[..|records|] == records;
  }

  method InsertClaimsAndEdges(target: GraphStore, claims: seq<Claim>)
    modifies target`claims, target`claimSources
    ensures target.State() == old(target.State()).(
      claims := PutClaims(old(target.claims), claims),
      claimSources := old(target.claimSources) + set c | c in claims :: (c.id, c.source))
  {
    for i := 0 to |claims|
      invariant target.claims == PutClaims(old(target.claims), claims[..i])
      invariant target.claimSources == old(target.claimSources)
    {
      assert claims[..i + 1][..i] == claims[..i];
      target.InsertClaim(claims[i]);
    }
    assert claims[..|claims|] == claims;
    for i := 0 to |claims|
      invariant target.claims == PutClaims(old(target.claims), claims)
      invariant target.claimSources == old(target.claimSources) + set c | c in claims[..i] :: (c.id, c.source)
    {
      assert claims[..i + 1] == claims[..i] + [claims[i]];
      target.LinkClaimToSource(claims[i].id, claims[i].source);
    }
  }

  /** For every record, also those skipped above, and under the record's own id. */
  method LinkEntities(target: GraphStore, records: seq<Record>, table: map<string, EntityId>)
    modifies target`claimEntities
    ensures target.State() == old(target.State()).(claimEntities := old(target.claimEntities) + Edges(records, table))
  {
    for i := 0 to |records|
      invariant target.claimEntities == old(target.claimEntities) + Edges(records[..i], table)
    {
      var r := records[i];
      ghost var before := target.claimEntities;
      for j := 0 to |r.ents|
        invariant target.claimEntities == before + set e | e in r.ents[..j] && e in table :: (r.id, table[e])
      {
        assert r.ents[..j + 1] == r.ents[..j] + [r.ents[j]];
        if r.ents[j] in table {
          target.LinkClaimToEntity(r.id, table[r.ents[j]]);
        }
      }
      assert r.ents[..|r.ents|] == r.ents;
      assert records[..i + 1] == records[..i] + [r];
      EdgesSnoc(records[..i], r, table);
    }
    assert records[..|records|] == records;
  }

  lemma EdgesSnoc(records: seq<Record>, r: Record, table: map<string, EntityId>)
    ensures Edges(records + [r], table) == Edges(records, table) + set e | e in r.ents && e in table :: (r.id, table[e])
  {
    var after := Edges(records, table) + set e | e in r.ents && e in table :: (r.id, table[e]);
    forall x | x in Edges(records + [r], table) ensures x in after {
      var q, e :| q in records + [r] && e in q.ents && e in table && x == (q.id, table[e]);
    }
    forall x | x in after ensures x in Edges(records + [r], table) {
      if x in Edges(records, table) {
        var q, e :| q in records && e in q.ents && e in table && x == (q.id, table[e]);
        assert q in records + [r];
      } else {
        assert r in records + [r];
      }
    }
  }

  // ---- What the storage holds for each record ----

  /** The source record of a path: a document by its extension, and otherwise a file. */
  ghost predicate IsRowOf(s: Source, path: string) {
    && s.uri == path
    && s.sourceType == if HasExtension(path, ".md") || HasExtension(path, ".markdown") || HasExtension(path, ".rst")
                       then "Document" else "File"
  }

  /** The claim stored for a record: its text, its file's source record (the last, if
      the path came twice), and its confidence, 0.8 when it has none. */
  ghost predicate Stores(ids: Ids, files: seq<string>, r: Record, g: GraphState) {
    var id := ids.claimId(r.id);
    && id in g.claims
    && g.claims[id].id == id && g.claims[id].statement == r.statement
    && (exists i: nat :: LastAt(files, r.file, i) && g.claims[id].source == ids.sourceId(i))
    && g.claims[id].source in g.sources && IsRowOf(g.sources[g.claims[id].source], r.file)
    && (r.confidence == None ==> g.claims[id].confidence == 0.8)
    && (r.confidence.Some? && 0.0 <= r.confidence.value <= 1.0 ==> g.claims[id].confidence == r.confidence.value)
  }

  /** A record whose file is in the bundle, followed by none that is stored under the
      same claim id. */
  predicate StoredLast(ids: Ids, files: seq<string>, records: seq<Record>, i: nat) {
    && i < |records| && records[i].file in files
    && forall j | i < j < |records| && records[j].file in files ::
         ids.claimId(records[j].id) != ids.claimId(records[i].id)
  }

  /** Every such record is stored, and any other claim is as it was. */
  ghost predicate StoresRecords(ids: Ids, g: GraphState, files: seq<string>, records: seq<Record>, after: GraphState) {
    && (forall i: nat | StoredLast(ids, files, records, i) :: Stores(ids, files, records[i], after))
    && (forall id | (forall r | r in records && r.file in files :: ids.claimId(r.id) != id) ::
          (id in after.claims <==> id in g.claims) && (id in after.claims ==> after.claims[id] == g.claims[id]))
  }

  lemma PutClaimsSnoc(m: map<ClaimId, Claim>, claims: seq<Claim>, c: Claim)
    ensures PutClaims(m, claims + [c]) == PutClaims(m, claims)[c.id := c]
  {
    assert (claims + [c])[..|claims|] == claims;
  }

  lemma {:induction false} KeptIsStored(m: map<ClaimId, Claim>, files: seq<string>, records: seq<Record>,
                                        table: map<string, SourceId>, ids: Ids, i: nat)
    requires StoredLast(ids, files, records, i) && forall f :: f in table <==> f in files
    ensures var stored, id := PutClaims(m, Kept(records, table, ids)), ids.claimId(records[i].id);
      id in stored && stored[id] == ClaimOf(records[i], table[records[i].file], ids)
  {
    var n := |records| - 1;
    var last := records[n];
    if last.file in table {
      PutClaimsSnoc(m, Kept(records[..n], table, ids), ClaimOf(last, table[last.file], ids));
    }
    if i < n {
      assert StoredLast(ids, files, records[..n], i);
      KeptIsStored(m, files, records[..n], table, ids, i);
    }
  }

  lemma {:induction false} OthersNotStored(m: map<ClaimId, Claim>, claims: seq<Claim>, id: ClaimId)
    requires forall c | c in claims :: c.id != id
    ensures id in PutClaims(m, claims) <==> id in m
    ensures id in m ==> PutClaims(m, claims)[id] == m[id]
  {
    if claims != [] {
      assert claims[|claims| - 1] in claims;
      OthersNotStored(m, claims[..|claims| - 1], id);
    }
  }

  lemma RecordIsStored(ids: Ids, g: GraphState, files: seq<string>, records: seq<Record>, i: nat)
    requires NewIds(ids, g) && StoredLast(ids, files, records, i)
    ensures Stores(ids, files, records[i], Replayed(ids, g, files, records))
  {
    var table := Table(files, ids.sourceId);
    forall f ensures f in table <==> f in files { TableAt(files, ids.sourceId, f); }
    KeptIsStored(g.claims, files, records, table, ids, i);
    TableAt(files, ids.sourceId, records[i].file);
    PutAllAt(g.sources, files, ids.sourceId, SourceRow);
    ClassifiesByExtension(records[i].file);
    var k: nat :| LastAt(files, records[i].file, k) && table[records[i].file] == ids.sourceId(k);
  }

  lemma ReplayStores(ids: Ids, g: GraphState, files: seq<string>, records: seq<Record>)
    requires NewIds(ids, g)
    ensures StoresRecords(ids, g, files, records, Replayed(ids, g, files, records))
  {
    var table := Table(files, ids.sourceId);
    forall i: nat | StoredLast(ids, files, records, i)
      ensures Stores(ids, files, records[i], Replayed(ids, g, files, records))
    {
      RecordIsStored(ids, g, files, records, i);
    }
    KeptAre(records, table, ids);
    forall f ensures f in table <==> f in files { TableAt(files, ids.sourceId, f); }
    forall id | forall r | r in records && r.file in files :: ids.claimId(r.id) != id
      ensures var after := Replayed(ids, g, files, records).claims;
        (id in after <==> id in g.claims) && (id in after ==> after[id] == g.claims[id])
    {
      OthersNotStored(g.claims, Kept(records, table, ids), id);
    }
  }

  /** Every record is inserted or skipped, and the storage is the replayed graph. */
  method ReplayPack(target: GraphStore, files: seq<string>, records: seq<Record>, ids: Ids)
    returns (counts: Counts, skipped: nat)
    modifies target
    ensures target.State() == Replayed(ids, old(target.State()), files, records)
    ensures NewIds(ids, old(target.State())) ==>
      StoresRecords(ids, old(target.State()), files, records, target.State())
    ensures counts.claims + skipped == |records|
    ensures skipped == |Skipped(records, Table(files, ids.sourceId), |records|)|
    ensures counts.claims == |Kept(records, Table(files, ids.sourceId), ids)|
    ensures counts.sources == |files| && counts.entities == |Distinct(Mentions(records))|
  {
    var sourceTable, sourceCount := InsertSources(target, files, ids);
    var names, entityTable := CollectEntities(records, ids);
    if names != [] {
      InsertEntities(target, names, ids);
    }
    var claims;
    claims, skipped := BuildClaims(records, sourceTable, ids);
    InsertClaimsAndEdges(target, claims);
    LinkEntities(target, records, entityTable);
    counts := Counts(sourceCount, |names|, |claims|);
    if NewIds(ids, old(target.State())) {
      ReplayStores(ids, old(target.State()), files, records);
    }
  }

  // ---- Integrity ----

  /** A record is skipped exactly when its file is not in the bundle, and otherwise
      its claim names the source inserted for that file (the last, if a path came
      twice). */
  lemma ClaimNamesItsFile(ids: Ids, g: GraphState, files: seq<string>, records: seq<Record>, r: Record)
    requires NewIds(ids, g) && r in records
    ensures r.file in Table(files, ids.sourceId) <==> r.file in files
    ensures r.file in files ==>
      var claims, after := Kept(records, Table(files, ids.sourceId), ids), Replayed(ids, g, files, records);
      exists i: nat :: LastAt(files, r.file, i)
        && (exists c | c in claims ::
              c.id == ids.claimId(r.id) && c.statement == r.statement && c.source == ids.sourceId(i)
              && (r.confidence.Some? && 0.0 <= r.confidence.value <= 1.0 ==> c.confidence == r.confidence.value))
        && ids.sourceId(i) in after.sources && after.sources[ids.sourceId(i)].uri == r.file
        && (ids.claimId(r.id), ids.sourceId(i)) in after.claimSources
  {
    TableAt(files, ids.sourceId, r.file);
    PutAllAt(g.sources, files, ids.sourceId, SourceRow);
    var table := Table(files, ids.sourceId);
    var claims := Kept(records, table, ids);
    KeptAre(records, table, ids);
    if r.file in files {
      var i: nat :| LastAt(files, r.file, i) && table[r.file] == ids.sourceId(i);
      var c := ClaimOf(r, ids.sourceId(i), ids);
      assert c in claims && c.statement == r.statement;
    }
  }

  /** Every inserted claim can be read back: its source edge resolves. */
  lemma InsertedClaimsAreVisible(ids: Ids, g: GraphState, files: seq<string>, records: seq<Record>, c: Claim)
    requires NewIds(ids, g) && c in Kept(records, Table(files, ids.sourceId), ids)
    ensures Linked(Replayed(ids, g, files, records), c.id)
  {
    var table, after := Table(files, ids.sourceId), Replayed(ids, g, files, records);
    KeptAre(records, table, ids);
    var r :| r in records && r.file in table && c == ClaimOf(r, table[r.file], ids);
    TableAt(files, ids.sourceId, r.file);
    PutAllAt(g.sources, files, ids.sourceId, SourceRow);
    assert c.source in after.sources && (c.id, c.source) in after.claimSources;
  }

  lemma DistinctTableAt(names: seq<string>, f: nat -> string, i: nat)
    requires i < |names| && forall j, k | 0 <= j < k < |names| :: names[j] != names[k]
    ensures names[i] in Table(names, f) && Table(names, f)[names[i]] == f(i)
  {
    TableAt(names, f, names[i]);
    var k: nat :| LastAt(names, names[i], k) && Table(names, f)[names[i]] == f(k);
    assert k == i;
  }

  /** With distinct keys, the table and the rows put in are inverse to each other. */
  lemma TableInvertsRows(m: map<string, string>, names: seq<string>, f: nat -> string)
    requires OneToOne(f) && (forall i: nat :: f(i) !in m)
    requires forall j, k | 0 <= j < k < |names| :: names[j] != names[k]
    ensures var table, rows := Table(names, f), PutAll(m, names, f, NameRow);
      && (forall n | n in table :: table[n] !in m && table[n] in rows && rows[table[n]] == n)
      && (forall e | e in rows && e !in m :: rows[e] in table && table[rows[e]] == e)
  {
    PutAllAt(m, names, f, NameRow);
    var table, rows := Table(names, f), PutAll(m, names, f, NameRow);
    forall n | n in table ensures table[n] !in m && table[n] in rows && rows[table[n]] == n {
      TableAt(names, f, n);
      var i: nat :| LastAt(names, n, i) && table[n] == f(i);
    }
    forall e | e in rows && e !in m ensures rows[e] in table && table[rows[e]] == e {
      var i: nat :| i < |names| && e == f(i);
      DistinctTableAt(names, f, i);
    }
  }

  /** Entity ids and the distinct names of all records, skipped ones included, are
      one to one, and each id is inserted under its name. */
  lemma EntitiesOneToOne(ids: Ids, g: GraphState, files: seq<string>, records: seq<Record>)
    requires NewIds(ids, g)
    ensures var table, after := EntityTable(records, ids), Replayed(ids, g, files, records);
      && (forall n :: n in table <==> exists r | r in records :: n in r.ents)
      && (forall n | n in table ::
            table[n] !in g.entities && table[n] in after.entities && after.entities[table[n]] == n)
      && (forall e | e in after.entities && e !in g.entities ::
            after.entities[e] in table && table[after.entities[e]] == e)
  {
    var names := Distinct(Mentions(records));
    DistinctOnce(Mentions(records));
    TableInvertsRows(g.entities, names, ids.entityId);
    TableKeys(names, ids.entityId);
  }

  /** Every edge attempted names an entity this replay inserted, and every mention
      has its edge. */
  lemma EdgesNameInsertedEntities(ids: Ids, g: GraphState, files: seq<string>, records: seq<Record>)
    requires NewIds(ids, g)
    ensures var table, after := EntityTable(records, ids), Replayed(ids, g, files, records);
      && (forall x | x in after.claimEntities - g.claimEntities ::
            x.1 in after.entities && x.1 !in g.entities
            && exists r | r in records :: r.id == x.0 && after.entities[x.1] in r.ents)
      && (forall r, n | r in records && n in r.ents :: n in table && (r.id, table[n]) in after.claimEntities)
  {
    EntitiesOneToOne(ids, g, files, records);
    var table, after := EntityTable(records, ids), Replayed(ids, g, files, records);
    forall x | x in after.claimEntities - g.claimEntities
      ensures x.1 in after.entities && x.1 !in g.entities
      ensures exists r | r in records :: r.id == x.0 && after.entities[x.1] in r.ents
    {
      var r, n :| r in records && n in r.ents && n in table && x == (r.id, table[n]);
    }
    forall r, n | r in records && n in r.ents ensures n in table && (r.id, table[n]) in after.claimEntities {
      assert n in table;
    }
  }

  lemma {:induction false} PutClaimsKeys(m: map<ClaimId, Claim>, claims: seq<Claim>, id: ClaimId)
    ensures id in PutClaims(m, claims) <==> id in m || exists c | c in claims :: c.id == id
  {
    if claims != [] {
      var n := |claims| - 1;
      assert claims == claims[..n] + [claims[n]];
      PutClaimsKeys(m, claims[..n], id);
    }
  }

  /** The claim at the other end of a record's edges exists exactly when it was in
      the storage before, or some record of the bundle's files parses to that id:
      the record's own text is the key, so one that is not an id by itself, or whose
      file is missing, leaves its edges hanging. */
  lemma EdgeClaimExistsIff(ids: Ids, g: GraphState, files: seq<string>, records: seq<Record>, r: Record)
    requires r in records
    ensures r.id in Replayed(ids, g, files, records).claims <==>
      r.id in g.claims || exists q | q in records && q.file in files :: ids.claimId(q.id) == r.id
  {
    var table := Table(files, ids.sourceId);
    var claims := Kept(records, table, ids);
    PutClaimsKeys(g.claims, claims, r.id);
    KeptAre(records, table, ids);
    forall q | q in records ensures q.file in table <==> q.file in files { TableAt(files, ids.sourceId, q.file); }
    if c :| c in claims && c.id == r.id {
      var q :| q in records && q.file in table && c == ClaimOf(q, table[q.file], ids);
      assert q.file in files;
    }
    if q :| q in records && q.file in files && ids.claimId(q.id) == r.id {
      assert ClaimOf(q, table[q.file], ids) in claims;
    }
  }
}
