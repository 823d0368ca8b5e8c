/** Garbage collection of abandoned branches' data directories. */
module Gc {
  import opened Wrappers
  import opened Text
  import opened Layout
  import R = Registry

  function AbandonedNames(branches: seq<R.BranchRef>): (names: seq<string>)
    ensures forall n :: n in names <==> exists b | b in branches :: b.status.Abandoned? && b.name == n
  {
    if branches == [] then []
    else
      var before, last := AbandonedNames(branches[..|branches| - 1]), branches[|branches| - 1];
      assert branches == branches[..|branches| - 1] + [last];
      if last.status.Abandoned? then before + [last.name] else before
  }

  /** One name for each abandoned entry. */
  lemma {:induction false} AbandonedCounted(branches: seq<R.BranchRef>)
    ensures |AbandonedNames(branches)| == |set i: nat | i < |branches| && branches[i].status.Abandoned?|
  {
    var found := set i: nat | i < |branches| && branches[i].status.Abandoned?;
    if branches == [] {
      assert found == {};
    } else {
      var n := |branches| - 1;
      AbandonedCounted(branches[..n]);
      var before := set i: nat | i < n && branches[..n][i].status.Abandoned?;
      assert found == before + if branches[n].status.Abandoned? then {n} else {};
    }
  }

  function Outside(paths: set<Path>, dir: DataDir): set<Path> {
    set p | p in paths && !Under(p, dir)
  }

  predicate Swept(t: CharTable, names: seq<string>, p: Path) {
    exists n | n in names :: Under(p, ResolveDataDir(t, Some(n)))
  }

  /** Everything below the workspace root. */
  class Tree {
    var paths: set<Path>

    constructor (paths: set<Path>)
      ensures this.paths == paths
    {
      this.paths := paths;
    }

    predicate Exists(dir: DataDir)
      reads this
    {
      exists p | p in paths :: Under(p, dir)
    }

    method RemoveDirAll(dir: DataDir)
      modifies this
      ensures paths == Outside(old(paths), dir)
    {
      paths := Outside(paths, dir);
    }
  }

  /** Exactly the paths below the directory of some abandoned entry are removed; the
      count is that of abandoned entries, whether or not they had a directory. */
  method GcBranches(t: CharTable, tree: Tree, registry: Option<seq<R.BranchRef>>) returns (count: nat)
    modifies tree
    ensures registry == None ==> count == 0 && tree.paths == old(tree.paths)
    ensures registry.Some? ==>
      count == |set i: nat | i < |registry.value| && registry.value[i].status.Abandoned?|
    ensures registry.Some? ==>
      tree.paths == set p | p in old(tree.paths) && !Swept(t, AbandonedNames(registry.value), p)
  {
    if registry.None? {
      return 0;
    }
    var abandoned := AbandonedNames(registry.value);
    count := |abandoned|;
    AbandonedCounted(registry.value);
    for i := 0 to |abandoned|
      invariant tree.paths == set p | p in old(tree.paths) && !Swept(t, abandoned[..i], p)
    {
      assert abandoned[..i + 1] == abandoned[..i] + [abandoned[i]];
      var dir := ResolveDataDir(t, Some(abandoned[i]));
      ghost var before := tree.paths;
      if tree.Exists(dir) {
        tree.RemoveDirAll(dir);
      }
      assert tree.paths == Outside(before, dir);
      SweptSnoc(t, abandoned[..i], abandoned[i]);
    }
    assert abandoned[..|abandoned|] == abandoned;
  }

  lemma SweptSnoc(t: CharTable, names: seq<string>, n: string)
    ensures forall p :: Swept(t, names + [n], p) <==> Swept(t, names, p) || Under(p, ResolveDataDir(t, Some(n)))
  {
    forall p ensures Swept(t, names + [n], p) <==> Swept(t, names, p) || Under(p, ResolveDataDir(t, Some(n))) {
      if x :| x in names && Under(p, ResolveDataDir(t, Some(x))) { assert x in names + [n]; }
      if Under(p, ResolveDataDir(t, Some(n))) { assert n in names + [n]; }
    }
  }

  /** A branch keeps a file exactly when no abandoned entry is called main or has the
      branch's slug; it does not help the branch to be active. */
  lemma KeepsDataIff(t: CharTable, branches: seq<R.BranchRef>, name: string, p: Path)
    requires name != "main" && Under(p, ResolveDataDir(t, Some(name)))
    ensures !Swept(t, AbandonedNames(branches), p) <==>
      forall b | b in branches && b.status.Abandoned? :: b.name != "main" && Slugify(t, b.name) != Slugify(t, name)
  {
    MainHoldsAll(p, ResolveDataDir(t, Some(name)));
    forall b | b in branches && b.status.Abandoned?
      ensures Under(p, ResolveDataDir(t, Some(b.name))) <==> b.name == "main" || Slugify(t, b.name) == Slugify(t, name)
      ensures b.name in AbandonedNames(branches)
    {
      if b.name != "main" {
        SharedPathIff(t, b.name, name);
      }
    }
  }

  lemma InsideBranches(p: Path, slug: string)
    ensures Under(p, BranchDir(slug)) ==> |p| >= 2 && p[1] == "branches"
  {
    if Under(p, BranchDir(slug)) { assert p[1] == PathOf(BranchDir(slug))[1]; }
  }

  /** Main's own files go exactly with an abandoned entry called main. */
  lemma MainKeptIff(t: CharTable, branches: seq<R.BranchRef>, p: Path)
    requires Under(p, MainDir) && (|p| < 2 || p[1] != "branches")
    ensures !Swept(t, AbandonedNames(branches), p) <==>
      forall b | b in branches && b.status.Abandoned? :: b.name != "main"
  {
    forall n | n in AbandonedNames(branches) ensures Under(p, ResolveDataDir(t, Some(n))) <==> n == "main" {
      InsideBranches(p, Slugify(t, n));
    }
    if b :| b in branches && b.status.Abandoned? && b.name == "main" {
      assert b.name in AbandonedNames(branches);
    }
  }

  /** Abandon a branch and create one of the same name: the next collection takes the
      files of the active one. */
  lemma RecreatedBranchIsSwept(cfg: R.Config, branches: seq<R.BranchRef>, name: string, at: int, create: R.Op, p: Path)
    requires create.Create? && create.name == name && name != "main"
    requires R.OneActivePerName(branches) && R.FindActive(branches, name).Some?
    requires Under(p, ResolveDataDir(cfg.chars, Some(name)))
    ensures var after := R.Run(cfg, branches, [R.Abandon(name, at), create]);
      R.FindActive(after, name).Some? && Swept(cfg.chars, AbandonedNames(after), p)
  {
    var ops := [R.Abandon(name, at), create];
    var i := R.FindActive(branches, name).value;
    var abandoned := R.Apply(cfg, branches, ops[0]).branches;
    assert abandoned[i].status.Abandoned? && abandoned[i].name == name;
    forall j | 0 <= j < |abandoned| ensures !R.IsActive(abandoned[j], name) {
      if j != i { assert abandoned[j] == branches[j]; }
    }
    assert R.FindActive(abandoned, name).None?;
    var after := R.Apply(cfg, abandoned, create).branches;
    assert after == abandoned + [R.NewBranch(cfg, create)];
    assert ops[1..] == [create] && [create][1..] == [];
    assert R.Run(cfg, branches, ops) == R.Run(cfg, abandoned, [create]) == R.Run(cfg, after, []) == after;
    assert after[i] == abandoned[i] && after[i] in after;
    assert after[|abandoned|] in after && R.IsActive(after[|abandoned|], name);
    assert name in AbandonedNames(after);
  }
}
