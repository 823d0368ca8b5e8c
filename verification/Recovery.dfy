/** Merge intents, snapshots and the startup pass that rolls unfinished merges
    back (`recovery.rs`), over everything the engine keeps on disk. */
module Recovery {
  import opened Wrappers
  import opened Sequences
  import opened Sorting
  import opened Text
  import opened Graph
  import opened Layout
  import R = Registry

  /** What a data directory's `graph` directory holds: `graph.db`, if any, and
      the backup files beside it. */
  datatype GraphDir = GraphDir(graph: Option<GraphState>, files: map<string, GraphState>)

  datatype MergeIntent = MergeIntent(
    sourceBranch: string, targetBranch: Option<string>, startedAt: int, snapshotSubject: string, snapshotPrefix: string)

  datatype Disk = Disk(graphs: map<DataDir, GraphDir>, intents: seq<MergeIntent>, branches: seq<R.BranchRef>)

  /** A directory that does not exist holds nothing. */
  function DirAt(d: Disk, dir: DataDir): GraphDir {
    if dir in d.graphs then d.graphs[dir] else GraphDir(None, map[])
  }

  function WithGraph(d: Disk, dir: DataDir, g: GraphState): Disk {
    d.(graphs := d.graphs[dir := DirAt(d, dir).(graph := Some(g))])
  }

  /** A copy of the graph under a file name; only a graph that exists is copied. */
  function WithSnapshot(d: Disk, dir: DataDir, name: string): Disk {
    var gd := DirAt(d, dir);
    match gd.graph
    case None => d
    case Some(g) => d.(graphs := d.graphs[dir := gd.(files := gd.files[name := g])])
  }

  // ---- Choosing a snapshot ----

  function SnapshotPrefix(t: CharTable, prefix: string, subject: string): string {
    "graph.db." + prefix + "-" + Slugify(t, subject) + "-"
  }

  function SnapshotSuffix(ts: nat): string {
    Decimal(ts) + ".bak"
  }

  function SnapshotName(t: CharTable, prefix: string, subject: string, ts: nat): string {
    SnapshotPrefix(t, prefix, subject) + SnapshotSuffix(ts)
  }

  /** A merge's snapshot is never taken for a rebase's, nor the other way round. */
  lemma MergeAndRebaseApart(t: CharTable, subject: string, other: string, name: string)
    requires SnapshotPrefix(t, "pre-merge", subject) <= name
    ensures !(SnapshotPrefix(t, "pre-rebase", other) <= name)
  {
    assert name[13] == 'm';
    assert SnapshotPrefix(t, "pre-rebase", other)[13] == 'r';
  }

  lemma CutTail(a: string, b: string, tail: string)
    ensures a + tail == b + tail <==> a == b
  {
    if a + tail == b + tail {
      assert a == (a + tail)[..|a|] && b == (b + tail)[..|b|];
    }
  }

  lemma CutHead(head: string, a: string, b: string)
    ensures head + a == head + b <==> a == b
  {
    if head + a == head + b {
      assert a == (head + a)[|head|..] && b == (head + b)[|head|..];
    }
  }

  /** Two branches share a prefix exactly when they share a slug, and two snapshots of one
      branch a name exactly when they were taken in one second. */
  lemma SnapshotNamesIff(t: CharTable, prefix: string, a: string, b: string, m: nat, n: nat)
    ensures SnapshotPrefix(t, prefix, a) == SnapshotPrefix(t, prefix, b) <==> Slugify(t, a) == Slugify(t, b)
    ensures SnapshotName(t, prefix, a, m) == SnapshotName(t, prefix, a, n) <==> m == n
  {
    var head := "graph.db." + prefix + "-";
    assert SnapshotPrefix(t, prefix, a) == head + (Slugify(t, a) + "-");
    assert SnapshotPrefix(t, prefix, b) == head + (Slugify(t, b) + "-");
    CutHead(head, Slugify(t, a) + "-", Slugify(t, b) + "-");
    CutTail(Slugify(t, a), Slugify(t, b), "-");
    CutHead(SnapshotPrefix(t, prefix, a), SnapshotSuffix(m), SnapshotSuffix(n));
    CutTail(Decimal(m), Decimal(n), ".bak");
    if Decimal(m) == Decimal(n) {
      DecimalPreservesOrder(m, n);
    }
  }

  ghost predicate IsLatest(names: set<string>, prefix: string, n: string) {
    n in names && prefix <= n && forall m | m in names && prefix <= m :: LexLeq(m, n)
  }

  function Candidates(names: set<string>, prefix: string): set<string> {
    set n | n in names && prefix <= n
  }

  lemma {:induction false} SomeLatest(names: set<string>, prefix: string)
    requires Candidates(names, prefix) != {}
    ensures exists n :: IsLatest(names, prefix, n)
    decreases |names|
  {
    var x :| x in Candidates(names, prefix);
    var rest := names - {x};
    LexIsTotalOrder();
    if Candidates(rest, prefix) == {} {
      forall m | m in names && prefix <= m ensures m == x {
        assert m in rest ==> m in Candidates(rest, prefix);
      }
      assert IsLatest(names, prefix, x);
    } else {
      SomeLatest(rest, prefix);
      var y :| IsLatest(rest, prefix, y);
      assert IsLatest(names, prefix, if LexLeq(x, y) then y else x);
    }
  }

  /** The file the engine restores from: the last name, in order, of those that
      start with the prefix. */
  ghost function Latest(names: set<string>, prefix: string): (r: Option<string>)
    ensures r.None? <==> Candidates(names, prefix) == {}
    ensures r.Some? ==> IsLatest(names, prefix, r.value)
  {
    if Candidates(names, prefix) == {} then None else Some(SomeLatestOf(names, prefix))
  }

  ghost function SomeLatestOf(names: set<string>, prefix: string): (n: string)
    requires Candidates(names, prefix) != {}
    ensures IsLatest(names, prefix, n)
  {
    SomeLatest(names, prefix);
    var n :| IsLatest(names, prefix, n);
    n
  }

  lemma LatestUnique(names: set<string>, prefix: string, n: string)
    requires IsLatest(names, prefix, n)
    ensures Latest(names, prefix) == Some(n)
  {
    assert n in Candidates(names, prefix);
    LexAntisymmetric(n, Latest(names, prefix).value);
  }

  lemma LastCandidate(names: set<string>, prefix: string, candidates: seq<string>)
    requires forall n :: n in candidates <==> n in names && prefix <= n
    ensures candidates == [] ==> Latest(names, prefix) == None
    ensures candidates != [] ==>
      var sorted := Sort(LexLeq, candidates);
      sorted != [] && Latest(names, prefix) == Some(sorted[|sorted| - 1])
  {
    assert Candidates(names, prefix) == set n | n in candidates;
    if candidates != [] {
      LexIsTotalOrder();
      LastIsGreatest(LexLeq, candidates);
      LatestUnique(names, prefix, Sort(LexLeq, candidates)[|candidates| - 1]);
    }
  }

  /** Collect the matching names in whatever order the directory lists them, sort,
      take the last. */
  method NewestSnapshot(names: set<string>, prefix: string) returns (newest: Option<string>)
    ensures newest == Latest(names, prefix)
  {
    var candidates: seq<string> := [];
    var todo := names;
    while todo != {}
      invariant todo <= names
      invariant forall n :: n in candidates <==> n in names - todo && prefix <= n
      decreases |todo|
    {
      var n :| n in todo;
      todo := todo - {n};
      if prefix <= n {
        candidates := candidates + [n];
      }
    }
    LastCandidate(names, prefix, candidates);
    if candidates == [] {
      return None;
    }
    var sorted := Sort(LexLeq, candidates);
    newest := Some(sorted[|sorted| - 1]);
  }

  /** A snapshot is the one chosen exactly when no other matching name has a
      later rest. */
  lemma ChosenIff(names: set<string>, prefix: string, rest: string)
    requires prefix + rest in names
    ensures Latest(names, prefix) == Some(prefix + rest) <==> forall x | prefix + x in names :: LexLeq(x, rest)
  {
    var own := prefix + rest;
    if Latest(names, prefix) == Some(own) {
      forall x | prefix + x in names ensures LexLeq(x, rest) {
        assert prefix <= prefix + x;
        LexCommonPrefix(prefix, x, rest);
      }
    }
    if forall x | prefix + x in names :: LexLeq(x, rest) {
      forall m | m in names && prefix <= m ensures LexLeq(m, own) {
        assert m == prefix + m[|prefix|..];
        LexCommonPrefix(prefix, m[|prefix|..], rest);
      }
      LatestUnique(names, prefix, own);
    }
  }

  lemma SuffixOrder(m: nat, n: nat)
    requires |Decimal(m)| == |Decimal(n)|
    ensures LexLeq(SnapshotSuffix(m), SnapshotSuffix(n)) <==> m <= n
  {
    DecimalPreservesOrder(m, n);
    LexSplit(Decimal(m), Decimal(n), ".bak", ".bak");
    LexReflexive(".bak");
  }

  /** When every matching file ends in a timestamp of one width, the file chosen
      is the one with the numerically greatest timestamp. */
  lemma NewestIsGreatestTimestamp(names: set<string>, prefix: string, width: nat, ts: nat)
    requires prefix + SnapshotSuffix(ts) in names && |Decimal(ts)| == width
    requires forall x | prefix + x in names :: exists n: nat :: x == SnapshotSuffix(n) && |Decimal(n)| == width
    ensures Latest(names, prefix) == Some(prefix + SnapshotSuffix(ts))
       <==> forall n: nat | prefix + SnapshotSuffix(n) in names && |Decimal(n)| == width :: n <= ts
  {
    ChosenIff(names, prefix, SnapshotSuffix(ts));
    forall n: nat | prefix + SnapshotSuffix(n) in names && |Decimal(n)| == width
      ensures LexLeq(SnapshotSuffix(n), SnapshotSuffix(ts)) <==> n <= ts
    {
      SuffixOrder(n, ts);
    }
  }

  /** Unix seconds from September 2001 to November 2286. */
  predicate TenDigits(ts: nat) {
    1_000_000_000 <= ts < 10_000_000_000
  }

  lemma TenDigitsWide(ts: nat)
    requires TenDigits(ts)
    ensures |Decimal(ts)| == 10
  {
    assert PowerOfTen(3) == 1000 && PowerOfTen(6) == 1_000_000 && PowerOfTen(9) == 1_000_000_000;
    DecimalWidth(ts, 9);
  }

  /** So for the clock's range, the file chosen among snapshots of one branch is the
      newest one. */
  lemma NewestIsChosen(names: set<string>, prefix: string, ts: nat)
    requires TenDigits(ts) && prefix + SnapshotSuffix(ts) in names
    requires forall x | prefix + x in names :: exists n: nat :: x == SnapshotSuffix(n) && TenDigits(n)
    ensures Latest(names, prefix) == Some(prefix + SnapshotSuffix(ts))
       <==> forall n: nat | TenDigits(n) && prefix + SnapshotSuffix(n) in names :: n <= ts
  {
    TenDigitsWide(ts);
    ChosenIff(names, prefix, SnapshotSuffix(ts));
    forall n: nat | TenDigits(n) && prefix + SnapshotSuffix(n) in names
      ensures LexLeq(SnapshotSuffix(n), SnapshotSuffix(ts)) <==> n <= ts
    {
      TenDigitsWide(n);
      SuffixOrder(n, ts);
    }
  }

  lemma LongerName(t: CharTable, prefix: string, subject: string, other: string, more: string, ts: nat)
    requires Slugify(t, other) == Slugify(t, subject) + "-" + more
    ensures SnapshotName(t, prefix, other, ts) == SnapshotPrefix(t, prefix, subject) + (more + "-" + SnapshotSuffix(ts))
  {
  }

  lemma LetterAfterDigit(x: string, y: string)
    requires x != "" && y != "" && x[0] > '9' >= y[0]
    ensures !LexLeq(x, y)
  {
  }

  /** The prefix of one slug also matches the files of a longer slug, and those
      sort after its own whenever the longer slug goes on with a letter: then the
      other branch's snapshot is chosen, whatever the two timestamps. */
  lemma LongerSlugWins(t: CharTable, names: set<string>, prefix: string, subject: string, other: string, more: string,
                       ts: nat, otherTs: nat)
    requires Slugify(t, other) == Slugify(t, subject) + "-" + more
    requires more != "" && more[0] > '9'
    requires SnapshotName(t, prefix, subject, ts) in names && SnapshotName(t, prefix, other, otherTs) in names
    ensures Latest(names, SnapshotPrefix(t, prefix, subject)) != Some(SnapshotName(t, prefix, subject, ts))
  {
    var p := SnapshotPrefix(t, prefix, subject);
    var x := more + "-" + SnapshotSuffix(otherTs);
    LongerName(t, prefix, subject, other, more, otherTs);
    LetterAfterDigit(x, SnapshotSuffix(ts));
    ChosenIff(names, p, SnapshotSuffix(ts));
  }

  /** For instance, after `a` and `a-b` were both merged. */
  lemma PrefixClash(t: CharTable, names: set<string>, ts: nat, otherTs: nat)
    requires IsSlug(t, "a") && IsSlug(t, "a-b")
    requires SnapshotName(t, "pre-merge", "a", ts) in names && SnapshotName(t, "pre-merge", "a-b", otherTs) in names
    ensures Latest(names, SnapshotPrefix(t, "pre-merge", "a")) != Some(SnapshotName(t, "pre-merge", "a", ts))
  {
    SlugifyFixesSlugs(t, "a");
    SlugifyFixesSlugs(t, "a-b");
    LongerSlugWins(t, names, "pre-merge", "a", "a-b", "b", ts, otherTs);
  }

  // ---- One recovery pass ----

  ghost function SnapshotFor(t: CharTable, d: Disk, i: MergeIntent): Option<string> {
    Latest(DirAt(d, ResolveDataDir(t, i.targetBranch)).files.Keys,
           SnapshotPrefix(t, i.snapshotPrefix, i.snapshotSubject))
  }

  ghost function Restored(t: CharTable, d: Disk, i: MergeIntent): Disk {
    var dir := ResolveDataDir(t, i.targetBranch);
    match SnapshotFor(t, d, i)
    case Some(n) => WithGraph(d, dir, DirAt(d, dir).files[n])
    case None => d
  }

  ghost function RestoreAll(t: CharTable, d: Disk, intents: seq<MergeIntent>): Disk {
    if intents == [] then d
    else Restored(t, RestoreAll(t, d, intents[..|intents| - 1]), intents[|intents| - 1])
  }

  /** A complete pass: every intent in order, then the intent file is removed. */
  ghost function Recovered(t: CharTable, d: Disk): Disk {
    RestoreAll(t, d, d.intents).(intents := [])
  }

  /** The snapshot whose content a directory ends up with: that of the last intent
      which aims at it and finds one. */
  ghost function LastFor(t: CharTable, d: Disk, intents: seq<MergeIntent>, dir: DataDir): (n: Option<string>)
    ensures n.Some? ==> n.value in DirAt(d, dir).files
  {
    if intents == [] then None
    else
      var last := intents[|intents| - 1];
      if ResolveDataDir(t, last.targetBranch) == dir && SnapshotFor(t, d, last).Some? then SnapshotFor(t, d, last)
      else LastFor(t, d, intents[..|intents| - 1], dir)
  }

  /** Two disks with the same backup files in the same directories. */
  ghost predicate SameFiles(d: Disk, e: Disk) {
    d.graphs.Keys == e.graphs.Keys && forall dir | dir in d.graphs :: d.graphs[dir].files == e.graphs[dir].files
  }

  lemma SameFilesSameChoice(t: CharTable, d: Disk, e: Disk, i: MergeIntent)
    requires SameFiles(d, e)
    ensures SnapshotFor(t, d, i) == SnapshotFor(t, e, i)
  {
    var dir := ResolveDataDir(t, i.targetBranch);
    assert DirAt(d, dir).files == DirAt(e, dir).files;
  }

  lemma {:induction false} SameFilesSameLast(t: CharTable, d: Disk, e: Disk, intents: seq<MergeIntent>, dir: DataDir)
    requires SameFiles(d, e)
    ensures LastFor(t, d, intents, dir) == LastFor(t, e, intents, dir)
  {
    if intents != [] {
      SameFilesSameChoice(t, d, e, intents[|intents| - 1]);
      SameFilesSameLast(t, d, e, intents[..|intents| - 1], dir);
    }
  }

  lemma {:induction false} RestoreKeepsFiles(t: CharTable, d: Disk, intents: seq<MergeIntent>)
    ensures var r := RestoreAll(t, d, intents);
      SameFiles(d, r) && r.intents == d.intents && r.branches == d.branches
  {
    if intents != [] { RestoreKeepsFiles(t, d, intents[..|intents| - 1]); }
  }

  lemma {:induction false} RestoredGraphAt(t: CharTable, d: Disk, intents: seq<MergeIntent>, dir: DataDir)
    ensures DirAt(RestoreAll(t, d, intents), dir).graph ==
      match LastFor(t, d, intents, dir) case Some(n) => Some(DirAt(d, dir).files[n]) case None => DirAt(d, dir).graph
  {
    if intents != [] {
      var e, last := RestoreAll(t, d, intents[..|intents| - 1]), intents[|intents| - 1];
      RestoredGraphAt(t, d, intents[..|intents| - 1], dir);
      RestoreKeepsFiles(t, d, intents[..|intents| - 1]);
      SameFilesSameChoice(t, d, e, last);
      assert DirAt(e, dir).files == DirAt(d, dir).files;
    }
  }

  /** What a pass does, exactly: the content of each directory is that of the
      snapshot of the last intent that found one for it, and nothing else
      changes. */
  lemma {:induction false} RestoreAllExactly(t: CharTable, d: Disk, intents: seq<MergeIntent>)
    ensures var r := RestoreAll(t, d, intents);
      && SameFiles(d, r) && r.intents == d.intents && r.branches == d.branches
      && forall dir | dir in d.graphs :: r.graphs[dir].graph ==
           match LastFor(t, d, intents, dir)
           case Some(n) => Some(d.graphs[dir].files[n])
           case None => d.graphs[dir].graph
  {
    RestoreKeepsFiles(t, d, intents);
    forall dir | dir in d.graphs
      ensures DirAt(RestoreAll(t, d, intents), dir).graph ==
        match LastFor(t, d, intents, dir) case Some(n) => Some(DirAt(d, dir).files[n]) case None => DirAt(d, dir).graph
    {
      RestoredGraphAt(t, d, intents, dir);
    }
  }

  /** What an intent would restore is the same at every point of the pass. */
  lemma ChoiceKept(t: CharTable, d: Disk, done: seq<MergeIntent>, i: MergeIntent)
    ensures SnapshotFor(t, RestoreAll(t, d, done), i) == SnapshotFor(t, d, i)
  {
    RestoreKeepsFiles(t, d, done);
    SameFilesSameChoice(t, d, RestoreAll(t, d, done), i);
  }

  /** An interrupted pass: `done` intents were restored, and the import for the
      next one may have stopped half way, leaving anything in that graph. */
  datatype Interruption = Interruption(done: nat, torn: Option<GraphState>)

  ghost function Interrupted(t: CharTable, d: Disk, x: Interruption): Disk {
    if x.done >= |d.intents| then RestoreAll(t, d, d.intents)
    else
      var e := RestoreAll(t, d, d.intents[..x.done]);
      var next := d.intents[x.done];
      if x.torn.Some? && SnapshotFor(t, d, next).Some?
      then WithGraph(e, ResolveDataDir(t, next.targetBranch), x.torn.value) else e
  }

  ghost function InterruptedAll(t: CharTable, d: Disk, xs: seq<Interruption>): Disk {
    if xs == [] then d else Interrupted(t, InterruptedAll(t, d, xs[..|xs| - 1]), xs[|xs| - 1])
  }

  /** What an interrupted pass leaves alone: everything but graphs that a later
      pass rewrites. */
  ghost predicate Repairable(t: CharTable, d: Disk, e: Disk) {
    && SameFiles(d, e) && e.intents == d.intents && e.branches == d.branches
    && forall dir | dir in d.graphs && LastFor(t, d, d.intents, dir).None? :: e.graphs[dir].graph == d.graphs[dir].graph
  }

  lemma {:induction false} LastForOfPrefix(t: CharTable, d: Disk, intents: seq<MergeIntent>, k: nat, dir: DataDir)
    requires k <= |intents| && LastFor(t, d, intents, dir).None?
    ensures LastFor(t, d, intents[..k], dir).None?
    ensures k < |intents| && ResolveDataDir(t, intents[k].targetBranch) == dir ==> SnapshotFor(t, d, intents[k]).None?
  {
    if k == |intents| {
      assert intents[..k] == intents;
    } else {
      var shorter := intents[..|intents| - 1];
      LastForOfPrefix(t, d, shorter, k, dir);
      assert shorter[..k] == intents[..k];
    }
  }

  lemma InterruptedIsRepairable(t: CharTable, d: Disk, x: Interruption)
    ensures Repairable(t, d, Interrupted(t, d, x))
  {
    var k := if x.done >= |d.intents| then |d.intents| else x.done;
    assert d.intents[..|d.intents|] == d.intents;
    RestoreAllExactly(t, d, d.intents[..k]);
    forall dir | dir in d.graphs && LastFor(t, d, d.intents, dir).None?
      ensures LastFor(t, d, d.intents[..k], dir).None?
      ensures k < |d.intents| && ResolveDataDir(t, d.intents[k].targetBranch) == dir ==>
        SnapshotFor(t, d, d.intents[k]).None?
    {
      LastForOfPrefix(t, d, d.intents, k, dir);
    }
  }

  lemma RepairableTrans(t: CharTable, d: Disk, e: Disk, f: Disk)
    requires Repairable(t, d, e) && Repairable(t, e, f)
    ensures Repairable(t, d, f)
  {
    forall dir | dir in d.graphs && LastFor(t, d, d.intents, dir).None?
      ensures f.graphs[dir].graph == d.graphs[dir].graph
    {
      SameFilesSameLast(t, d, e, d.intents, dir);
    }
  }

  lemma {:induction false} InterruptionsAreRepairable(t: CharTable, d: Disk, xs: seq<Interruption>)
    ensures Repairable(t, d, InterruptedAll(t, d, xs))
  {
    if xs != [] {
      var e := InterruptedAll(t, d, xs[..|xs| - 1]);
      InterruptionsAreRepairable(t, d, xs[..|xs| - 1]);
      InterruptedIsRepairable(t, e, xs[|xs| - 1]);
      RepairableTrans(t, d, e, InterruptedAll(t, d, xs));
    }
  }

  /** Any number of passes, each interrupted anywhere, then a complete one: the
      disk is that of one uninterrupted pass. */
  lemma RecoveryIsRestartSafe(t: CharTable, d: Disk, xs: seq<Interruption>)
    ensures Recovered(t, InterruptedAll(t, d, xs)) == Recovered(t, d)
  {
    var e := InterruptedAll(t, d, xs);
    InterruptionsAreRepairable(t, d, xs);
    RestoreAllExactly(t, d, d.intents);
    RestoreAllExactly(t, e, d.intents);
    var r, s := RestoreAll(t, d, d.intents), RestoreAll(t, e, d.intents);
    forall dir | dir in d.graphs ensures r.graphs[dir] == s.graphs[dir] {
      SameFilesSameLast(t, d, e, d.intents, dir);
    }
    assert r.graphs == s.graphs;
  }

  /** A second complete pass finds nothing to do. */
  lemma RecoveryIsIdempotent(t: CharTable, d: Disk)
    ensures Recovered(t, Recovered(t, d)) == Recovered(t, d) && Recovered(t, d).intents == []
  {
  }

  // ---- The report ----

  datatype Report = Report(recovered: seq<(MergeIntent, string)>, orphaned: seq<MergeIntent>)

  ghost function ReportOf(t: CharTable, d: Disk, intents: seq<MergeIntent>): Report {
    if intents == [] then Report([], [])
    else
      var before := ReportOf(t, d, intents[..|intents| - 1]);
      var last := intents[|intents| - 1];
      match SnapshotFor(t, d, last)
      case Some(n) => before.(recovered := before.recovered + [(last, n)])
      case None => before.(orphaned := before.orphaned + [last])
  }

  /** The report accounts for every intent, and calls orphaned those without any
      matching snapshot. */
  lemma {:induction false} ReportAccountsForAll(t: CharTable, d: Disk, intents: seq<MergeIntent>)
    ensures var report := ReportOf(t, d, intents);
      && |report.recovered| + |report.orphaned| == |intents|
      && (forall i | i in report.orphaned :: i in intents && SnapshotFor(t, d, i) == None)
      && (forall r | r in report.recovered :: r.0 in intents && SnapshotFor(t, d, r.0) == Some(r.1))
  {
    if intents != [] {
      var last := intents[|intents| - 1];
      var before := ReportOf(t, d, intents[..|intents| - 1]);
      ReportAccountsForAll(t, d, intents[..|intents| - 1]);
      assert last in intents && forall i | i in intents[..|intents| - 1] :: i in intents;
      var n := SnapshotFor(t, d, last);
      AddsToReport(before, last, n, if n.Some? then before.(recovered := before.recovered + [(last, n.value)])
                                    else before.(orphaned := before.orphaned + [last]));
    }
  }

  lemma AddsToReport(before: Report, i: MergeIntent, n: Option<string>, after: Report)
    requires after == if n.Some? then before.(recovered := before.recovered + [(i, n.value)])
                      else before.(orphaned := before.orphaned + [i])
    ensures |after.recovered| + |after.orphaned| == |before.recovered| + |before.orphaned| + 1
    ensures forall x | x in after.orphaned :: x in before.orphaned || (x == i && n == None)
    ensures forall r | r in after.recovered :: r in before.recovered || (r.0 == i && n == Some(r.1))
  {
  }

  // ---- The workspace ----

  function WithoutIntent(intents: seq<MergeIntent>, sourceBranch: string, startedAt: int): (left: seq<MergeIntent>)
    ensures forall i :: i in left <==> i in intents && !(i.sourceBranch == sourceBranch && i.startedAt == startedAt)
  {
    if intents == [] then []
    else
      var before := WithoutIntent(intents[..|intents| - 1], sourceBranch, startedAt);
      var last := intents[|intents| - 1];
      assert intents == intents[..|intents| - 1] + [last];
      if last.sourceBranch == sourceBranch && last.startedAt == startedAt then before else before + [last]
  }

  /** The intents left keep their order and number. */
  lemma {:induction false} WithoutIntentInOrder(a: seq<MergeIntent>, b: seq<MergeIntent>, source: string, at: int)
    ensures WithoutIntent(a + b, source, at) == WithoutIntent(a, source, at) + WithoutIntent(b, source, at)
    ensures |a| == 1 ==> |WithoutIntent(a, source, at)| <= 1
  {
    if |a| == 1 {
      assert a[..0] == [];
    }
    if b == [] {
      assert a + b == a && WithoutIntent(a, source, at) + [] == WithoutIntent(a, source, at);
    } else {
      var n := |b| - 1;
      assert (a + b)[..|a + b| - 1] == a + b[..n] && (a + b)[|a + b| - 1] == b[n];
      WithoutIntentInOrder(a, b[..n], source, at);
    }
  }

  datatype RecoveryError = ImportFailed | NoBackup

  /** An import that fails, and what it leaves in the graph. */
  datatype Fault = Fault(intent: nat, torn: GraphState)

  /** The fault meets an import, that is, an intent that has a snapshot. */
  ghost predicate Fails(t: CharTable, d: Disk, fault: Option<Fault>) {
    fault.Some? && fault.value.intent < |d.intents| && SnapshotFor(t, d, d.intents[fault.value.intent]).Some?
  }

  class Workspace {
    const chars: CharTable
    const store: R.RegistryStore
    var graphs: map<DataDir, GraphDir>
    var intents: seq<MergeIntent>

    function OnDisk(): Disk
      reads this, store
    {
      Disk(graphs, intents, store.branches)
    }

    constructor (chars: CharTable, store: R.RegistryStore)
      ensures this.chars == chars && this.store == store && graphs == map[] && intents == []
    {
      this.chars, this.store, this.graphs, this.intents := chars, store, map[], [];
    }

    method WriteMergeIntent(intent: MergeIntent)
      modifies this`intents
      ensures OnDisk() == old(OnDisk()).(intents := old(intents) + [intent])
    {
      intents := intents + [intent];
    }

    method ClearMergeIntent(sourceBranch: string, startedAt: int)
      modifies this`intents
      ensures OnDisk() == old(OnDisk()).(intents := WithoutIntent(old(intents), sourceBranch, startedAt))
    {
      intents := WithoutIntent(intents, sourceBranch, startedAt);
    }

    /** `snapshot_target_db` */
    method SnapshotTarget(dir: DataDir, prefix: string, subject: string, at: nat)
      modifies this`graphs
      ensures OnDisk() == WithSnapshot(old(OnDisk()), dir, SnapshotName(chars, prefix, subject, at))
    {
      if dir in graphs && graphs[dir].graph.Some? {
        var gd := graphs[dir];
        graphs := graphs[dir := gd.(files := gd.files[SnapshotName(chars, prefix, subject, at) := gd.graph.value])];
      }
    }

    method FindSnapshot(dir: DataDir, prefix: string) returns (name: Option<string>)
      ensures name == Latest(DirAt(OnDisk(), dir).files.Keys, prefix)
    {
      if dir !in graphs {
        return None;
      }
      name := NewestSnapshot(graphs[dir].files.Keys, prefix);
    }

    method Import(dir: DataDir, g: GraphState)
      modifies this`graphs
      ensures OnDisk() == WithGraph(old(OnDisk()), dir, g)
    {
      graphs := graphs[dir := DirAt(OnDisk(), dir).(graph := Some(g))];
    }

    method RestoreOne(intent: MergeIntent) returns (name: Option<string>)
      modifies this`graphs
      ensures OnDisk() == Restored(chars, old(OnDisk()), intent)
      ensures name == SnapshotFor(chars, old(OnDisk()), intent)
    {
      var dir := ResolveDataDir(chars, intent.targetBranch);
      name := FindSnapshot(dir, SnapshotPrefix(chars, intent.snapshotPrefix, intent.snapshotSubject));
      if name.Some? {
        Import(dir, graphs[dir].files[name.value]);
      }
    }

    /** An import that fails half way. */
    method TornRestore(intent: MergeIntent, torn: GraphState) returns (failed: bool)
      modifies this`graphs
      ensures failed <==> SnapshotFor(chars, old(OnDisk()), intent).Some?
      ensures OnDisk() ==
        if failed then WithGraph(old(OnDisk()), ResolveDataDir(chars, intent.targetBranch), torn) else old(OnDisk())
    {
      var dir := ResolveDataDir(chars, intent.targetBranch);
      var name := FindSnapshot(dir, SnapshotPrefix(chars, intent.snapshotPrefix, intent.snapshotSubject));
      failed := name.Some?;
      if failed {
        Import(dir, torn);
      }
    }

    /** One intent of a pass that has processed those in `done`. */
    method RecoverNext(intent: MergeIntent, torn: Option<GraphState>, report0: Report, ghost d: Disk,
                       ghost done: seq<MergeIntent>)
      returns (failed: bool, report: Report)
      requires OnDisk() == RestoreAll(chars, d, done) && report0 == ReportOf(chars, d, done)
      modifies this`graphs
      ensures failed <==> torn.Some? && SnapshotFor(chars, d, intent).Some?
      ensures failed ==>
        OnDisk() == WithGraph(RestoreAll(chars, d, done), ResolveDataDir(chars, intent.targetBranch), torn.value)
      ensures !failed ==>
        OnDisk() == RestoreAll(chars, d, done + [intent]) && report == ReportOf(chars, d, done + [intent])
    {
      ChoiceKept(chars, d, done, intent);
      assert (done + [intent])[..|done|] == done;
      report := report0;
      if torn.Some? {
        failed := TornRestore(intent, torn.value);
        if failed {
          return;
        }
      }
      failed := false;
      var name := RestoreOne(intent);
      report := if name.Some? then report.(recovered := report.recovered + [(intent, name.value)])
                else report.(orphaned := report.orphaned + [intent]);
    }

    /** The loop over all intents; it stops at a failing import. */
    method RecoverAll(fault: Option<Fault>) returns (failed: bool, report: Report)
      modifies this`graphs
      ensures failed <==> Fails(chars, old(OnDisk()), fault)
      ensures failed ==> OnDisk() == WithGraph(RestoreAll(chars, old(OnDisk()), old(intents)[..fault.value.intent]),
                                               ResolveDataDir(chars, old(intents)[fault.value.intent].targetBranch),
                                               fault.value.torn)
      ensures !failed ==>
        && OnDisk() == RestoreAll(chars, old(OnDisk()), old(intents))
        && report == ReportOf(chars, old(OnDisk()), old(intents))
    {
      ghost var d := OnDisk();
      ghost var fails := Fails(chars, d, fault);
      PrefixesOf(d.intents);
      report := Report([], []);
      for k := 0 to |intents|
        invariant intents == d.intents && (fails ==> k <= fault.value.intent)
        invariant OnDisk() == RestoreAll(chars, d, d.intents[..k])
        invariant report == ReportOf(chars, d, d.intents[..k])
      {
        var torn := if fault.Some? && fault.value.intent == k then Some(fault.value.torn) else None;
        failed, report := RecoverNext(intents[k], torn, report, d, d.intents[..k]);
        if failed {
          return;
        }
      }
      failed := false;
    }

    /** A pass that completes recovers the disk and reports every intent; one that
        meets a failing import stops there and keeps the intent file, so the next
        pass starts over. */
    method RecoverOrphanMerges(fault: Option<Fault>) returns (r: Result<Report, RecoveryError>)
      modifies this`graphs, this`intents
      ensures r.Err? <==> Fails(chars, old(OnDisk()), fault)
      ensures r.Err? ==>
        OnDisk() == Interrupted(chars, old(OnDisk()), Interruption(fault.value.intent, Some(fault.value.torn)))
      ensures r.Ok? ==>
        OnDisk() == Recovered(chars, old(OnDisk())) && r.value == ReportOf(chars, old(OnDisk()), old(intents))
    {
      if intents == [] {
        return Ok(Report([], []));
      }
      var failed, report := RecoverAll(fault);
      if failed {
        return Err(ImportFailed);
      }
      intents := [];
      r := Ok(report);
    }

    /** `rollback_merge`: main's graph from the newest pre-merge backup of a branch,
        found by the same rule. */
    method RollbackMerge(branch: string) returns (r: Result<string, RecoveryError>)
      modifies this`graphs
      ensures var before := old(OnDisk());
        match Latest(DirAt(before, MainDir).files.Keys, SnapshotPrefix(chars, "pre-merge", branch))
        case None => r == Err(NoBackup) && OnDisk() == before
        case Some(n) => r == Ok(n) && OnDisk() == WithGraph(before, MainDir, DirAt(before, MainDir).files[n])
    {
      var name := FindSnapshot(MainDir, SnapshotPrefix(chars, "pre-merge", branch));
      if name.None? {
        return Err(NoBackup);
      }
      Import(MainDir, graphs[MainDir].files[name.value]);
      r := Ok(name.value);
    }
  }
}
