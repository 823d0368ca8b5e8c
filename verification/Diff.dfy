/** The two-way semantic diff: which source claims are new to the target, and
    which of them contradict a target claim.  Three passes look for
    contradictions: negation keywords, token overlap and vector neighbours. */
module Diff {
  import opened Wrappers
  import opened Text
  import opened Graph

  // ---- Statements ----

  function WordLength(t: CharTable, s: string): (n: nat)
    ensures n <= |s|
  {
    if s == "" || t.space(s[0]) then 0 else 1 + WordLength(t, s[1..])
  }

  /** `split_whitespace` */
  function Words(t: CharTable, s: string): seq<string> {
    if s == "" then []
    else if t.space(s[0]) then Words(t, s[1..])
    else
      var n := WordLength(t, s);
      [s[..n]] + Words(t, s[n..])
  }

  function JoinSpace(words: seq<string>): string {
    if words == [] then "" else if |words| == 1 then words[0] else words[0] + " " + JoinSpace(words[1..])
  }

  /** What `semantic_hash` hashes.  The hash is injective, so two statements have
      one hash exactly when they have one normal form. */
  function Norm(t: CharTable, statement: string): string {
    JoinSpace(Words(t, Lowercase(t, statement)))
  }

  /** A word: not empty, and without white space. */
  ghost predicate IsWord(t: CharTable, w: string) {
    w != "" && forall c | c in w :: !t.space(c)
  }

  lemma {:induction false} WordLengthOf(t: CharTable, w: string, rest: string)
    requires forall c | c in w :: !t.space(c)
    requires rest == "" || t.space(rest[0])
    ensures WordLength(t, w + rest) == |w|
  {
    if w == "" {
      assert w + rest == rest;
    } else {
      assert w[0] in w && (w + rest)[1..] == w[1..] + rest;
      WordLengthOf(t, w[1..], rest);
    }
  }

  lemma {:induction false} WordsAreWords(t: CharTable, s: string)
    ensures forall w | w in Words(t, s) :: IsWord(t, w)
    decreases |s|
  {
    if s != "" {
      if t.space(s[0]) {
        WordsAreWords(t, s[1..]);
      } else {
        var n := WordLength(t, s);
        WordLengthSpaceFree(t, s);
        WordsAreWords(t, s[n..]);
      }
    }
  }

  lemma {:induction false} WordLengthSpaceFree(t: CharTable, s: string)
    ensures forall c | c in s[..WordLength(t, s)] :: !t.space(c)
    ensures WordLength(t, s) == |s| || t.space(s[WordLength(t, s)])
  {
    if s != "" && !t.space(s[0]) {
      WordLengthSpaceFree(t, s[1..]);
      assert s[..WordLength(t, s)] == [s[0]] + s[1..][..WordLength(t, s[1..])];
    }
  }

  lemma WordsOfWord(t: CharTable, w: string, rest: string)
    requires IsWord(t, w) && (rest == "" || t.space(rest[0]))
    ensures Words(t, w + rest) == [w] + Words(t, rest)
  {
    WordLengthOf(t, w, rest);
    assert w[0] in w && (w + rest)[..|w|] == w && (w + rest)[|w|..] == rest;
  }

  lemma ConcatAt(a: string, n: nat, rest: string)
    requires n <= |a|
    ensures a + rest == a[..n] + (a[n..] + rest)
  {
  }

  lemma WordHead(t: CharTable, a: string, rest: string)
    requires a != "" && !t.space(a[0]) && (rest == "" || t.space(rest[0]))
    ensures var n := WordLength(t, a);
      0 < n <= |a| && Words(t, a + rest) == [a[..n]] + Words(t, a[n..] + rest)
  {
    var n := WordLength(t, a);
    var w, tail := a[..n], a[n..] + rest;
    WordLengthSpaceFree(t, a);
    assert IsWord(t, w) by { assert w[0] == a[0]; }
    assert tail == "" || t.space(tail[0]);
    ConcatAt(a, n, rest);
    WordsOfWord(t, w, tail);
  }

  /** White space separates: the words on its two sides are listed in turn. */
  lemma {:induction false} WordsSplitAtSpace(t: CharTable, a: string, rest: string)
    requires rest == "" || t.space(rest[0])
    ensures Words(t, a + rest) == Words(t, a) + Words(t, rest)
    decreases |a|
  {
    if a == "" {
      assert a + rest == rest;
    } else if t.space(a[0]) {
      assert (a + rest)[1..] == a[1..] + rest;
      WordsSplitAtSpace(t, a[1..], rest);
    } else {
      var n := WordLength(t, a);
      WordHead(t, a, rest);
      WordHead(t, a, "");
      assert a + "" == a && a[n..] + "" == a[n..];
      WordsSplitAtSpace(t, a[n..], rest);
    }
  }

  /** The words of a single word are that word, and white space between two texts, of any
      kind and however often, does nothing but separate: that is all there is to `Words`. */
  lemma WordsExactly(t: CharTable, a: string, gap: char, b: string)
    ensures t.space(gap) ==> Words(t, a + [gap] + b) == Words(t, a) + Words(t, b)
    ensures IsWord(t, a) ==> Words(t, a) == [a]
    ensures Words(t, "") == []
  {
    if IsWord(t, a) {
      WordsOfWord(t, a, "");
      assert a + "" == a;
    }
    if t.space(gap) {
      assert a + [gap] + b == a + ([gap] + b) && ([gap] + b)[1..] == b;
      WordsSplitAtSpace(t, a, [gap] + b);
    }
  }

  lemma {:induction false} WordsOfJoin(t: CharTable, words: seq<string>)
    requires t.space(' ') && forall w | w in words :: IsWord(t, w)
    ensures Words(t, JoinSpace(words)) == words
  {
    if words != [] {
      var rest := if |words| == 1 then "" else " " + JoinSpace(words[1..]);
      assert words[0] in words && JoinSpace(words) == words[0] + rest;
      WordsOfWord(t, words[0], rest);
      if |words| > 1 {
        WordsOfJoin(t, words[1..]);
        assert rest[1..] == JoinSpace(words[1..]);
      }
    }
  }

  /** Two statements have one normal form exactly when they have the same words in the
      same order, up to case: nothing else is forgotten, and nothing else counts. */
  lemma NormForgetsSpacing(t: CharTable, a: string, b: string)
    requires t.space(' ')
    ensures Norm(t, a) == Norm(t, b) <==> Words(t, Lowercase(t, a)) == Words(t, Lowercase(t, b))
    ensures Words(t, Norm(t, a)) == Words(t, Lowercase(t, a))
  {
    WordsAreWords(t, Lowercase(t, a));
    WordsAreWords(t, Lowercase(t, b));
    WordsOfJoin(t, Words(t, Lowercase(t, a)));
    WordsOfJoin(t, Words(t, Lowercase(t, b)));
  }

  const NEGATION_PAIRS: seq<(string, string)> := [
    ("is", "is not"),
    ("uses", "does not use"),
    ("supports", "does not support"),
    ("requires", "does not require"),
    ("implements", "does not implement"),
    ("depends on", "does not depend on"),
    ("has", "does not have"),
    ("can", "cannot"),
    ("should", "should not"),
    ("must", "must not")]

  predicate Contains(text: string, part: string) {
    exists i | 0 <= i <= |text| - |part| :: part <= text[i..]
  }

  /** One side has the positive word of some pair and the other its negation. */
  predicate Opposed(pairs: seq<(string, string)>, x: string, y: string) {
    && pairs != []
    && var pos, neg := pairs[0].0, pairs[0].1;
       || (Contains(x, pos) && Contains(y, neg))
       || (Contains(x, neg) && Contains(y, pos))
       || Opposed(pairs[1..], x, y)
  }

  predicate IsContradictionPair(t: CharTable, a: string, b: string) {
    Opposed(NEGATION_PAIRS, Lowercase(t, a), Lowercase(t, b))
  }

  /** One text has the positive form and the other the negated one. */
  predicate Crosses(pair: (string, string), x: string, y: string) {
    (Contains(x, pair.0) && Contains(y, pair.1)) || (Contains(x, pair.1) && Contains(y, pair.0))
  }

  lemma {:induction false} OpposedIff(pairs: seq<(string, string)>, x: string, y: string)
    ensures Opposed(pairs, x, y) <==> exists p | p in pairs :: Crosses(p, x, y)
  {
    if pairs != [] {
      assert pairs == [pairs[0]] + pairs[1..];
      OpposedIff(pairs[1..], x, y);
      assert Opposed(pairs, x, y) <==> Crosses(pairs[0], x, y) || Opposed(pairs[1..], x, y);
      if p :| p in pairs && Crosses(p, x, y) {
        assert p == pairs[0] || p in pairs[1..];
      }
      if Crosses(pairs[0], x, y) {
        assert pairs[0] in pairs;
      } else if p :| p in pairs[1..] && Crosses(p, x, y) {
        assert p in pairs;
      }
    }
  }

  lemma {:induction false} OpposedEitherWay(pairs: seq<(string, string)>, x: string, y: string)
    ensures Opposed(pairs, x, y) <==> Opposed(pairs, y, x)
  {
    if pairs != [] { OpposedEitherWay(pairs[1..], x, y); }
  }

  /** Which statements contradict each other, in either order: those that cross one of
      the ten pairs.  A negation that contains its own positive form makes a statement
      contradict itself. */
  lemma ContradictionIff(t: CharTable, a: string, b: string)
    ensures IsContradictionPair(t, a, b) <==>
      exists p | p in NEGATION_PAIRS :: Crosses(p, Lowercase(t, a), Lowercase(t, b))
    ensures IsContradictionPair(t, a, b) <==> IsContradictionPair(t, b, a)
    ensures forall p | p in NEGATION_PAIRS && Contains(p.1, p.0) && Contains(Lowercase(t, a), p.1) ::
      IsContradictionPair(t, a, a)
  {
    OpposedIff(NEGATION_PAIRS, Lowercase(t, a), Lowercase(t, b));
    OpposedEitherWay(NEGATION_PAIRS, Lowercase(t, a), Lowercase(t, b));
    OpposedIff(NEGATION_PAIRS, Lowercase(t, a), Lowercase(t, a));
    forall p | p in NEGATION_PAIRS && Contains(p.1, p.0) && Contains(Lowercase(t, a), p.1)
      ensures Crosses(p, Lowercase(t, a), Lowercase(t, a))
    {
      ContainsIn(Lowercase(t, a), p.1, p.0);
    }
  }

  lemma Regroup(a: string, b: string, c: string, d: string, e: string)
    ensures a + (b + c + d) + e == (a + b) + c + (d + e)
  {
  }

  lemma ContainsAt(before: string, part: string, after: string)
    ensures Contains(before + part + after, part)
  {
    assert part <= (before + part + after)[|before|..];
  }

  lemma PartOf(text: string, part: string) returns (before: string, after: string)
    requires Contains(text, part)
    ensures text == before + part + after
  {
    var i :| 0 <= i <= |text| - |part| && part <= text[i..];
    before, after := text[..i], text[i + |part|..];
  }

  /** Containing is having the part somewhere in between. */
  lemma ContainsIff(text: string, part: string)
    ensures Contains(text, part) <==> exists before, after: string :: text == before + part + after
  {
    if Contains(text, part) {
      var before, after := PartOf(text, part);
    }
    if before, after: string :| text == before + part + after {
      ContainsAt(before, part, after);
    }
  }

  lemma ContainsIn(text: string, middle: string, part: string)
    requires Contains(text, middle) && Contains(middle, part)
    ensures Contains(text, part)
  {
    var a, b := PartOf(text, middle);
    var c, d := PartOf(middle, part);
    Regroup(a, c, part, d, b);
    ContainsAt(a + c, part, d + b);
  }

  function TokenSet(t: CharTable, s: string): set<string> {
    set w | w in Words(t, s)
  }

  function Jaccard(t: CharTable, a: string, b: string): real {
    var x, y := TokenSet(t, a), TokenSet(t, b);
    if |x + y| == 0 then 0.0 else |x * y| as real / |x + y| as real
  }

  lemma {:induction false} SubsetSize<T>(a: set<T>, b: set<T>)
    requires a <= b
    ensures |a| <= |b| && (|a| == |b| ==> a == b)
  {
    if a != {} {
      var x :| x in a;
      SubsetSize(a - {x}, b - {x});
      assert a == (a - {x}) + {x} && b == (b - {x}) + {x};
    }
  }

  lemma Ratio(m: nat, n: nat)
    requires m <= n && 0 < n
    ensures var q := m as real / n as real;
      0.0 <= q <= 1.0 && (q == 0.0 <==> m == 0) && (q == 1.0 <==> m == n)
  {
  }

  lemma MeetOverJoin<T>(x: set<T>, y: set<T>)
    requires x + y != {}
    ensures 0 < |x + y| && |x * y| <= |x + y|
    ensures |x * y| == 0 <==> x * y == {}
    ensures |x * y| == |x + y| <==> x == y
  {
    SubsetSize(x * y, x + y);
    SameMeetAndJoin(x, y);
  }

  /** The overlap of two statements lies between 0, when they share no word, and 1, when
      they have the same words, and does not depend on which comes first. */
  lemma JaccardMeasures(t: CharTable, a: string, b: string)
    ensures 0.0 <= Jaccard(t, a, b) <= 1.0 && Jaccard(t, a, b) == Jaccard(t, b, a)
    ensures Jaccard(t, a, b) == 0.0 <==> TokenSet(t, a) * TokenSet(t, b) == {}
    ensures Jaccard(t, a, b) == 1.0 <==> TokenSet(t, a) == TokenSet(t, b) != {}
  {
    var x, y := TokenSet(t, a), TokenSet(t, b);
    assert x + y == y + x && x * y == y * x;
    if x + y == {} {
      assert x == {} && y == {};
    } else {
      MeetOverJoin(x, y);
      Ratio(|x * y|, |x + y|);
    }
  }

  lemma SameMeetAndJoin<T>(x: set<T>, y: set<T>)
    ensures x * y == x + y <==> x == y
  {
    if x * y == x + y {
      forall w ensures w in x <==> w in y {
        assert w in x * y <==> w in x + y;
      }
    }
  }

  // ---- Findings ----

  datatype ConflictKind = AddAdd | ModifyModify | DeleteModify

  datatype AutoResolution = AutoResolution(mainId: ClaimId, branchId: ClaimId, winner: ClaimId)

  datatype ContradictionPair = ContradictionPair(
    mainId: ClaimId, branchId: ClaimId, mainStatement: string, branchStatement: string, kind: Option<ConflictKind>)

  datatype Findings = Findings(autoResolved: seq<AutoResolution>, needsReview: seq<ContradictionPair>)

  function Abs(x: real): real {
    if x < 0.0 then -x else x
  }

  /** A contradiction between a source row and a target row: resolved by
      confidence when the gap exceeds the threshold, otherwise left to review. */
  function Report(f: Findings, threshold: real, row: Row, main: Row): Findings {
    if Abs(row.confidence - main.confidence) > threshold then
      var winner := if row.confidence > main.confidence then row.id else main.id;
      f.(autoResolved := f.autoResolved + [AutoResolution(main.id, row.id, winner)])
    else
      f.(needsReview := f.needsReview + [ContradictionPair(main.id, row.id, main.statement, row.statement, None)])
  }

  predicate Flagged(f: Findings, branchId: ClaimId, mainId: ClaimId) {
    || (exists r | r in f.autoResolved :: r.branchId == branchId && r.mainId == mainId)
    || (exists p | p in f.needsReview :: p.branchId == branchId && p.mainId == mainId)
  }

  // ---- Pass 0: which source rows are new ----

  function Norms(t: CharTable, rows: seq<Row>): set<string> {
    set r | r in rows :: Norm(t, r.statement)
  }

  function NewRows(t: CharTable, main: seq<Row>, branch: seq<Row>): (rows: seq<Row>)
    ensures forall r | r in rows :: r in branch && Norm(t, r.statement) !in Norms(t, main)
    ensures forall r | r in branch && Norm(t, r.statement) !in Norms(t, main) :: r in rows
  {
    if branch == [] then []
    else
      var before := NewRows(t, main, branch[..|branch| - 1]);
      var last := branch[|branch| - 1];
      if Norm(t, last.statement) in Norms(t, main) then before else before + [last]
  }

  /** The new rows in the order and as often as they are listed. */
  lemma {:induction false} NewRowsInOrder(t: CharTable, main: seq<Row>, a: seq<Row>, b: seq<Row>)
    ensures NewRows(t, main, a + b) == NewRows(t, main, a) + NewRows(t, main, b)
    ensures |a| == 1 ==> NewRows(t, main, a) == if Norm(t, a[0].statement) in Norms(t, main) then [] else a
  {
    if |a| == 1 {
      assert a[..0] == [] && a == [a[0]];
    }
    if b == [] {
      assert a + b == a && NewRows(t, main, a) + [] == NewRows(t, main, a);
    } else {
      var n := |b| - 1;
      assert (a + b)[..|a + b| - 1] == a + b[..n] && (a + b)[|a + b| - 1] == b[n];
      NewRowsInOrder(t, main, a, b[..n]);
    }
  }

  // ---- Pass 1: negation keywords ----

  function FirstContradiction(t: CharTable, statement: string, main: seq<Row>): (i: Option<nat>)
    ensures i.Some? ==> i.value < |main| && IsContradictionPair(t, statement, main[i.value].statement)
    ensures i.Some? ==> forall j | 0 <= j < i.value :: !IsContradictionPair(t, statement, main[j].statement)
    ensures i.None? <==> forall r | r in main :: !IsContradictionPair(t, statement, r.statement)
  {
    if main == [] then None
    else if IsContradictionPair(t, statement, main[0].statement) then Some(0)
    else match FirstContradiction(t, statement, main[1..])
      case Some(k) => Some(k + 1)
      case None => None
  }

  datatype PassOne = PassOne(kept: seq<Row>, findings: Findings)

  function Pass1(t: CharTable, threshold: real, main: seq<Row>, rows: seq<Row>): PassOne {
    if rows == [] then PassOne([], Findings([], []))
    else
      var before := Pass1(t, threshold, main, rows[..|rows| - 1]);
      var row := rows[|rows| - 1];
      match FirstContradiction(t, row.statement, main)
      case Some(i) => before.(findings := Report(before.findings, threshold, row, main[i]))
      case None => before.(kept := before.kept + [row])
  }

  // ---- Pass 2: token overlap ----

  type EntityContext = ClaimId -> seq<string>

  predicate ShareEntity(a: seq<string>, b: seq<string>) {
    exists e | e in a :: e in b
  }

  /** Two statements about a common entity that share more than 60% of their words
      without being the same statement. */
  predicate Overlaps(t: CharTable, names: EntityContext, row: Row, main: Row) {
    && ShareEntity(names(row.id), names(main.id))
    && Jaccard(t, Lowercase(t, row.statement), Lowercase(t, main.statement)) > 0.6
    && Norm(t, row.statement) != Norm(t, main.statement)
  }

  lemma QuotientAbove(a: real, b: real, c: real)
    requires b > 0.0
    ensures a / b > c <==> a > c * b
  {
    var q := a / b;
    assert a == q * b;
    if q > c {
      assert (q - c) * b > 0.0;
    } else {
      assert (c - q) * b >= 0.0;
    }
  }

  lemma ThreeInFive(m: nat, n: nat)
    requires 0 < n
    ensures m as real / n as real > 0.6 <==> 5 * m > 3 * n
  {
    QuotientAbove(m as real, n as real, 0.6);
    assert (5 * m) as real == 5.0 * m as real && (3 * n) as real == 3.0 * n as real;
  }

  /** Counted in words, the threshold is exact: more than three of every five. */
  lemma OverlapsIff(t: CharTable, names: EntityContext, row: Row, main: Row)
    ensures var x, y := TokenSet(t, Lowercase(t, row.statement)), TokenSet(t, Lowercase(t, main.statement));
      Overlaps(t, names, row, main) <==>
        && 5 * |x * y| > 3 * |x + y|
        && Norm(t, row.statement) != Norm(t, main.statement)
        && exists e :: e in names(row.id) && e in names(main.id)
  {
    var x, y := TokenSet(t, Lowercase(t, row.statement)), TokenSet(t, Lowercase(t, main.statement));
    if |x + y| > 0 {
      ThreeInFive(|x * y|, |x + y|);
    } else {
      assert x * y == {};
    }
  }

  /** Whether pass 2 reports this pair, given what is flagged already. */
  predicate Overlapping(t: CharTable, names: EntityContext, f: Findings, row: Row, main: Row) {
    !Flagged(f, row.id, main.id) && Overlaps(t, names, row, main)
  }

  function Pass2Row(t: CharTable, threshold: real, names: EntityContext, row: Row, main: seq<Row>,
                    f: Findings): Findings
  {
    if main == [] then f
    else
      var before := Pass2Row(t, threshold, names, row, main[..|main| - 1], f);
      var last := main[|main| - 1];
      if Overlapping(t, names, before, row, last) then Report(before, threshold, row, last) else before
  }

  function Pass2(t: CharTable, threshold: real, names: EntityContext, rows: seq<Row>, main: seq<Row>,
                 f: Findings): Findings
  {
    if rows == [] then f
    else
      var before := Pass2(t, threshold, names, rows[..|rows| - 1], main, f);
      var row := rows[|rows| - 1];
      if names(row.id) == [] then before else Pass2Row(t, threshold, names, row, main, before)
  }

  // ---- The diff ----

  datatype DiffClaim = DiffClaim(claim: Claim, entities: seq<string>)

  datatype DiffEntity = DiffEntity(id: EntityId, name: string)

  /** Why a merge is blocked; `Contradictions` is the one reason whose text
      mentions a contradiction. */
  datatype Reason = HealthDrop | Contradictions(count: nat) | ThreeWayConflicts(count: nat)

  datatype KnowledgeDiff = KnowledgeDiff(
    newClaims: seq<DiffClaim>,
    newEntities: seq<DiffEntity>,
    newRelations: seq<NamedRelation>,
    autoResolved: seq<AutoResolution>,
    needsReview: seq<ContradictionPair>,
    mergeAllowed: bool,
    blockingReasons: seq<Reason>)

  /** The answers one graph gives to the diff's queries, in the order it lists
      its rows.  `claimId` is the id a row's claim gets: its own if that parses,
      otherwise a new one.  `sourceOf` is the claim-to-source table, as far as its
      ids parse; `freshSource` stands for the new source id a claim without an entry
      gets.  `entities` are those whose ids parse. */
  datatype View = View(
    rows: seq<Row>,
    claimId: ClaimId -> ClaimId,
    sourceOf: map<ClaimId, SourceId>,
    freshSource: ClaimId -> SourceId,
    entityNames: EntityContext,
    entities: seq<DiffEntity>,
    relations: seq<NamedRelation>,
    health: real)

  datatype Settings = Settings(threshold: real, maxHealthDrop: real, blockOnContradictions: bool)

  /** `Confidence::new` */
  function Clamp(c: real): (r: real)
    ensures 0.0 <= r <= 1.0
    ensures 0.0 <= c <= 1.0 ==> r == c
  {
    if c < 0.0 then 0.0 else if c > 1.0 then 1.0 else c
  }

  function ClaimFor(v: View, row: Row): DiffClaim {
    var source := if row.id in v.sourceOf then v.sourceOf[row.id] else v.freshSource(row.id);
    DiffClaim(Claim(v.claimId(row.id), row.statement, source, Clamp(row.confidence)), v.entityNames(row.id))
  }

  function ClaimsFor(v: View, rows: seq<Row>): (claims: seq<DiffClaim>)
    ensures |claims| == |rows|
  {
    seq(|rows|, i requires 0 <= i < |rows| => ClaimFor(v, rows[i]))
  }

  /** The entity names looked up for the new claims only: any other id has none. */
  function ContextOfNew(v: View, rows: seq<Row>): EntityContext {
    id => if exists r | r in rows :: r.id == id then v.entityNames(id) else []
  }

  function NewEntities(target: View, entities: seq<DiffEntity>): (found: seq<DiffEntity>)
    ensures forall e :: e in found <==> e in entities && forall x | x in target.entities :: x.name != e.name
  {
    if entities == [] then []
    else
      var before := NewEntities(target, entities[..|entities| - 1]);
      var e := entities[|entities| - 1];
      if exists x | x in target.entities :: x.name == e.name then before else before + [e]
  }

  function NewRelations(target: View, relations: seq<NamedRelation>): (found: seq<NamedRelation>)
    ensures forall k :: k in found <==> k in relations && k !in target.relations
  {
    if relations == [] then []
    else
      var before := NewRelations(target, relations[..|relations| - 1]);
      var k := relations[|relations| - 1];
      if k in target.relations then before else before + [k]
  }

  /** New entities and relations too are in order, and as often as they are listed. */
  lemma {:induction false} NewEntitiesInOrder(target: View, a: seq<DiffEntity>, b: seq<DiffEntity>)
    ensures NewEntities(target, a + b) == NewEntities(target, a) + NewEntities(target, b)
    ensures |a| == 1 ==> |NewEntities(target, a)| <= 1
  {
    if |a| == 1 {
      assert a[..0] == [];
    }
    if b == [] {
      assert a + b == a && NewEntities(target, a) + [] == NewEntities(target, a);
    } else {
      var n := |b| - 1;
      assert (a + b)[..|a + b| - 1] == a + b[..n] && (a + b)[|a + b| - 1] == b[n];
      NewEntitiesInOrder(target, a, b[..n]);
    }
  }

  lemma {:induction false} NewRelationsInOrder(target: View, a: seq<NamedRelation>, b: seq<NamedRelation>)
    ensures NewRelations(target, a + b) == NewRelations(target, a) + NewRelations(target, b)
    ensures |a| == 1 ==> |NewRelations(target, a)| <= 1
  {
    if |a| == 1 {
      assert a[..0] == [];
    }
    if b == [] {
      assert a + b == a && NewRelations(target, a) + [] == NewRelations(target, a);
    } else {
      var n := |b| - 1;
      assert (a + b)[..|a + b| - 1] == a + b[..n] && (a + b)[|a + b| - 1] == b[n];
      NewRelationsInOrder(target, a, b[..n]);
    }
  }

  function Reasons(s: Settings, target: View, source: View, reviews: nat): seq<Reason> {
    (if target.health - source.health > s.maxHealthDrop then [HealthDrop] else [])
    + (if s.blockOnContradictions && reviews > 0 then [Contradictions(reviews)] else [])
  }

  function TwoWayFindings(t: CharTable, s: Settings, target: View, source: View): Findings {
    var added := NewRows(t, target.rows, source.rows);
    Pass2(t, s.threshold, ContextOfNew(source, added), added, target.rows,
          Pass1(t, s.threshold, target.rows, added).findings)
  }

  function TwoWayDiff(t: CharTable, s: Settings, target: View, source: View): KnowledgeDiff {
    var added := NewRows(t, target.rows, source.rows);
    var found := TwoWayFindings(t, s, target, source);
    var reasons := Reasons(s, target, source, |found.needsReview|);
    KnowledgeDiff(
      ClaimsFor(source, Pass1(t, s.threshold, target.rows, added).kept),
      NewEntities(target, source.entities),
      NewRelations(target, source.relations),
      found.autoResolved, found.needsReview, reasons == [], reasons)
  }

  /** The inner loop of pass 1: stop at the first target row that contradicts. */
  method SearchContradiction(t: CharTable, statement: string, main: seq<Row>) returns (hit: Option<nat>)
    ensures hit == FirstContradiction(t, statement, main)
  {
    for j := 0 to |main|
      invariant forall k | 0 <= k < j :: !IsContradictionPair(t, statement, main[k].statement)
    {
      if IsContradictionPair(t, statement, main[j].statement) {
        return Some(j);
      }
    }
    hit := None;
  }

  method NegationPass(t: CharTable, s: Settings, target: View, source: View, added: seq<Row>)
    returns (newClaims: seq<DiffClaim>, f: Findings)
    ensures var p := Pass1(t, s.threshold, target.rows, added);
      newClaims == ClaimsFor(source, p.kept) && f == p.findings
  {
    newClaims, f := [], Findings([], []);
    for i := 0 to |added|
      invariant var p := Pass1(t, s.threshold, target.rows, added[..i]);
        newClaims == ClaimsFor(source, p.kept) && f == p.findings
    {
      var row := added[i];
      assert added[..i + 1][..i] == added[..i];
      var hit := SearchContradiction(t, row.statement, target.rows);
      if hit.Some? {
        f := Report(f, s.threshold, row, target.rows[hit.value]);
      } else {
        newClaims := newClaims + [ClaimFor(source, row)];
      }
    }
    assert added[..|added|] == added;
  }

  method OverlapPass(t: CharTable, s: Settings, names: EntityContext, added: seq<Row>, main: seq<Row>, f0: Findings)
    returns (f: Findings)
    ensures f == Pass2(t, s.threshold, names, added, main, f0)
  {
    f := f0;
    for i := 0 to |added|
      invariant f == Pass2(t, s.threshold, names, added[..i], main, f0)
    {
      assert added[..i + 1][..i] == added[..i];
      var row := added[i];
      if names(row.id) == [] {
        continue;
      }
      ghost var before := f;
      for j := 0 to |main|
        invariant f == Pass2Row(t, s.threshold, names, row, main[..j], before)
      {
        assert main[..j + 1][..j] == main[..j];
        if Overlapping(t, names, f, row, main[j]) {
          f := Report(f, s.threshold, row, main[j]);
        }
      }
      assert main[..|main|] == main;
    }
    assert added[..|added|] == added;
  }

  method ComputeDiffInto(t: CharTable, s: Settings, target: View, source: View) returns (diff: KnowledgeDiff)
    ensures diff == TwoWayDiff(t, s, target, source)
  {
    var added := NewRows(t, target.rows, source.rows);
    var newClaims, f := NegationPass(t, s, target, source, added);
    f := OverlapPass(t, s, ContextOfNew(source, added), added, target.rows, f);
    var reasons := [];
    if target.health - source.health > s.maxHealthDrop {
      reasons := reasons + [HealthDrop];
    }
    if s.blockOnContradictions && f.needsReview != [] {
      reasons := reasons + [Contradictions(|f.needsReview|)];
    }
    diff := KnowledgeDiff(newClaims, NewEntities(target, source.entities), NewRelations(target, source.relations),
                          f.autoResolved, f.needsReview, reasons == [], reasons);
  }
}
