/** Where each branch keeps its data below the workspace root. */
module Layout {
  import opened Wrappers
  import opened Text

  /** A data directory: main's own, or the one named by a slug. */
  datatype DataDir = MainDir | BranchDir(slug: string)

  function ResolveDataDir(t: CharTable, branch: Option<string>): DataDir {
    if branch == None || branch == Some("main") then MainDir else BranchDir(Slugify(t, branch.value))
  }

  /** A path below the root, as its components. */
  type Path = seq<string>

  function PathOf(d: DataDir): Path {
    match d
    case MainDir => [".thinkingroot"]
    case BranchDir(slug) => [".thinkingroot", "branches", slug]
  }

  predicate Under(p: Path, d: DataDir) {
    PathOf(d) <= p
  }

  /** Two branch directories share a path exactly when they are one directory,
      that is, when the two names have one slug. */
  lemma SharedPathIff(t: CharTable, a: string, b: string)
    requires a != "main" && b != "main"
    ensures (exists p :: Under(p, ResolveDataDir(t, Some(a))) && Under(p, ResolveDataDir(t, Some(b))))
       <==> Slugify(t, a) == Slugify(t, b)
  {
    var x, y := ResolveDataDir(t, Some(a)), ResolveDataDir(t, Some(b));
    if p :| Under(p, x) && Under(p, y) {
      assert p[2] == PathOf(x)[2] == PathOf(y)[2];
    }
    if Slugify(t, a) == Slugify(t, b) {
      assert Under(PathOf(x), x) && Under(PathOf(x), y);
    }
  }

  /** Every branch directory lies inside main's. */
  lemma MainHoldsAll(p: Path, d: DataDir)
    requires Under(p, d)
    ensures Under(p, MainDir)
  {
    assert p[0] == PathOf(d)[0];
  }
}
