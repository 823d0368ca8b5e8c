/** The identity token of a graph directory: a worklist walk gathers
    (relative path, length) of every file, sorts the list and hashes it. */
module TreeDigest {
  import opened Sorting
  import opened Text
  import opened UrlEncoding

  datatype Node = File(name: string, len: nat) | Dir(name: string, children: seq<Node>)

  datatype FileEntry = FileEntry(path: string, len: nat)

  datatype Pending = Pending(path: string, children: seq<Node>)

  /** What `read_dir` may do: list the children of a directory in any order. */
  type Listing = (string, seq<Node>) -> seq<Node>

  ghost predicate IsListing(listing: Listing) {
    forall p, c :: multiset(listing(p, c)) == multiset(c)
  }

  function Join(dir: string, name: string): string {
    if dir == "" then name else dir + "/" + name
  }

  // ---- What the walk should find ----

  /** Every file below `children`, depth first. */
  function Walk(dir: string, children: seq<Node>): seq<FileEntry>
    decreases children
  {
    if children == [] then []
    else WalkNode(dir, children[0]) + Walk(dir, children[1..])
  }

  function WalkNode(dir: string, node: Node): seq<FileEntry>
    decreases node
  {
    match node
    case File(name, len) => [FileEntry(Join(dir, name), len)]
    case Dir(name, children) => Walk(Join(dir, name), children)
  }

  /** The names on the way from the root to a file, and the file's length. */
  ghost predicate FileAt(children: seq<Node>, names: seq<string>, len: nat)
    decreases names
  {
    && names != []
    && if |names| == 1 then File(names[0], len) in children
       else exists d | d in children :: d.Dir? && d.name == names[0] && FileAt(d.children, names[1..], len)
  }

  function PathOf(dir: string, names: seq<string>): string
    decreases names
  {
    if names == [] then dir else PathOf(Join(dir, names[0]), names[1..])
  }

  lemma {:induction false} WalkMembers(dir: string, children: seq<Node>, e: FileEntry)
    ensures e in Walk(dir, children) <==> exists n | n in children :: e in WalkNode(dir, n)
  {
    if children != [] {
      WalkMembers(dir, children[1..], e);
      assert children == [children[0]] + children[1..];
      if e in WalkNode(dir, children[0]) {
        assert children[0] in children;
      } else if e in Walk(dir, children[1..]) {
        var n :| n in children[1..] && e in WalkNode(dir, n);
        assert n in children;
      }
      if n :| n in children && e in WalkNode(dir, n) {
        assert n == children[0] || n in children[1..];
      }
    }
  }

  lemma {:induction false} WalkFinds(dir: string, children: seq<Node>, names: seq<string>, len: nat)
    requires FileAt(children, names, len)
    ensures FileEntry(PathOf(dir, names), len) in Walk(dir, children)
    decreases names
  {
    var e := FileEntry(PathOf(dir, names), len);
    WalkMembers(dir, children, e);
    if |names| == 1 {
      assert names[1..] == [] && PathOf(dir, names) == Join(dir, names[0]);
      assert e in WalkNode(dir, File(names[0], len));
    } else {
      var d :| d in children && d.Dir? && d.name == names[0] && FileAt(d.children, names[1..], len);
      WalkFinds(Join(dir, d.name), d.children, names[1..], len);
      assert e in WalkNode(dir, d);
    }
  }

  lemma {:induction false} WalkOnlyFinds(dir: string, children: seq<Node>, e: FileEntry) returns (names: seq<string>)
    requires e in Walk(dir, children)
    ensures FileAt(children, names, e.len) && e.path == PathOf(dir, names)
    decreases children
  {
    WalkMembers(dir, children, e);
    var n :| n in children && e in WalkNode(dir, n);
    if n.File? {
      names := [n.name];
    } else {
      var below := WalkOnlyFinds(Join(dir, n.name), n.children, e);
      names := [n.name] + below;
      assert names[1..] == below;
    }
  }

  /** The walk gathers exactly the files of the tree, each with its length, under the
      names on the way to it. */
  lemma WalkGathersFiles(root: seq<Node>, e: FileEntry)
    ensures e in Walk("", root) <==> exists names :: FileAt(root, names, e.len) && e.path == PathOf("", names)
  {
    if e in Walk("", root) {
      var names := WalkOnlyFinds("", root, e);
    }
    if names :| FileAt(root, names, e.len) && e.path == PathOf("", names) {
      WalkFinds("", root, names, e.len);
    }
  }

  /** A path is its names with a slash between two of them. */
  lemma {:induction false} PathAppends(dir: string, names: seq<string>, last: string)
    ensures PathOf(dir, names + [last]) ==
      if PathOf(dir, names) == "" then last else PathOf(dir, names) + "/" + last
    decreases names
  {
    if names == [] {
      assert (names + [last])[0] == last && (names + [last])[1..] == [];
    } else {
      assert (names + [last])[1..] == names[1..] + [last];
      PathAppends(Join(dir, names[0]), names[1..], last);
    }
  }

  function Count(children: seq<Node>): nat {
    if children == [] then 0 else CountNode(children[0]) + Count(children[1..])
  }

  function CountNode(node: Node): nat {
    match node
    case File(_, _) => 1
    case Dir(_, children) => 1 + Count(children)
  }

  predicate EntryLeq(a: FileEntry, b: FileEntry) {
    if a.path == b.path then a.len <= b.len else LexLeq(a.path, b.path)
  }

  function DigestEntries(root: seq<Node>): seq<FileEntry> {
    Sort(EntryLeq, Walk("", root))
  }

  lemma EntryOrderIsTotal()
    ensures TotalOrder(EntryLeq)
  {
    LexIsTotalOrder();
    forall a, b | EntryLeq(a, b) && EntryLeq(b, a) ensures a == b {
      if a.path != b.path { LexAntisymmetric(a.path, b.path); }
    }
    forall a, b, c | EntryLeq(a, b) && EntryLeq(b, c) ensures EntryLeq(a, c) {
      if a.path != b.path && b.path != c.path {
        LexTransitive(a.path, b.path, c.path);
        if a.path == c.path { LexAntisymmetric(a.path, b.path); }
      }
    }
    forall a, b ensures EntryLeq(a, b) || EntryLeq(b, a) {
      LexTotal(a.path, b.path);
    }
  }

  // ---- Listing order does not matter ----

  lemma {:induction false} WalkConcat(dir: string, a: seq<Node>, b: seq<Node>)
    ensures Walk(dir, a + b) == Walk(dir, a) + Walk(dir, b)
    ensures Count(a + b) == Count(a) + Count(b)
  {
    if a == [] {
      assert a + b == b;
    } else {
      assert (a + b)[1..] == a[1..] + b;
      WalkConcat(dir, a[1..], b);
    }
  }

  lemma WalkWithout(dir: string, b: seq<Node>, j: nat)
    requires j < |b|
    ensures var rest := b[..j] + b[j + 1..];
      && multiset(Walk(dir, b)) == multiset(WalkNode(dir, b[j])) + multiset(Walk(dir, rest))
      && Count(b) == CountNode(b[j]) + Count(rest)
  {
    var tail := b[j..];
    assert b == b[..j] + tail && tail[1..] == b[j + 1..];
    WalkConcat(dir, b[..j], tail);
    WalkConcat(dir, b[..j], b[j + 1..]);
  }

  /** The same tree, with the children of any directory at any depth rearranged. */
  ghost predicate SameTree(a: seq<Node>, b: seq<Node>)
    decreases a
  {
    if a == [] then b == []
    else exists j | 0 <= j < |b| :: SameNode(a[0], b[j]) && SameTree(a[1..], b[..j] + b[j + 1..])
  }

  ghost predicate SameNode(x: Node, y: Node)
    decreases x
  {
    match x
    case File(_, _) => x == y
    case Dir(name, children) => y.Dir? && y.name == name && SameTree(children, y.children)
  }

  lemma {:induction false} SameTreeWalks(dir: string, a: seq<Node>, b: seq<Node>)
    requires SameTree(a, b)
    ensures multiset(Walk(dir, a)) == multiset(Walk(dir, b)) && Count(a) == Count(b)
    decreases a
  {
    if a != [] {
      var j :| 0 <= j < |b| && SameNode(a[0], b[j]) && SameTree(a[1..], b[..j] + b[j + 1..]);
      SameNodeWalks(dir, a[0], b[j]);
      SameTreeWalks(dir, a[1..], b[..j] + b[j + 1..]);
      WalkWithout(dir, b, j);
    }
  }

  lemma {:induction false} SameNodeWalks(dir: string, x: Node, y: Node)
    requires SameNode(x, y)
    ensures multiset(WalkNode(dir, x)) == multiset(WalkNode(dir, y)) && CountNode(x) == CountNode(y)
    decreases x
  {
    if x.Dir? { SameTreeWalks(Join(dir, x.name), x.children, y.children); }
  }

  lemma {:induction false} SameNodeReflexive(x: Node)
    ensures SameNode(x, x)
    decreases x
  {
    if x.Dir? { PermutedIsSame(x.children, x.children); }
  }

  lemma {:induction false} PermutedIsSame(a: seq<Node>, b: seq<Node>)
    requires multiset(a) == multiset(b)
    ensures SameTree(a, b)
    decreases a
  {
    if a == [] {
      assert |multiset(b)| == 0;
    } else {
      assert a[0] in multiset(b);
      var j :| 0 <= j < |b| && b[j] == a[0];
      WithoutSame(a, b, j);
      SameNodeReflexive(a[0]);
      PermutedIsSame(a[1..], b[..j] + b[j + 1..]);
    }
  }

  lemma WithoutSame(a: seq<Node>, b: seq<Node>, j: nat)
    requires a != [] && j < |b| && b[j] == a[0] && multiset(a) == multiset(b)
    ensures multiset(a[1..]) == multiset(b[..j] + b[j + 1..])
  {
    var x, y, z := multiset(a[1..]), multiset(b[..j]), multiset(b[j + 1..]);
    assert a == [a[0]] + a[1..];
    assert b == (b[..j] + [b[j]]) + b[j + 1..];
    assert multiset(b) == multiset(b[..j] + [b[j]]) + z == y + multiset{a[0]} + z;
    assert multiset{a[0]} + x == multiset{a[0]} + (y + z);
    assert x == (multiset{a[0]} + x) - multiset{a[0]};
    assert y + z == (multiset{a[0]} + (y + z)) - multiset{a[0]};
    assert multiset(b[..j] + b[j + 1..]) == y + z;
  }

  // ---- The worklist ----

  function StackFiles(stack: seq<Pending>): multiset<FileEntry> {
    if stack == [] then multiset{}
    else multiset(Walk(stack[|stack| - 1].path, stack[|stack| - 1].children)) + StackFiles(stack[..|stack| - 1])
  }

  function StackWeight(stack: seq<Pending>): nat {
    if stack == [] then 0
    else 1 + Count(stack[|stack| - 1].children) + StackWeight(stack[..|stack| - 1])
  }

  lemma StackPush(stack: seq<Pending>, top: Pending)
    ensures StackFiles(stack + [top]) == StackFiles(stack) + multiset(Walk(top.path, top.children))
    ensures StackWeight(stack + [top]) == StackWeight(stack) + 1 + Count(top.children)
  {
    assert (stack + [top])[..|stack|] == stack;
  }

  /** For every listing order the loop ends, having gathered each file of the
      tree exactly once, and the sorted list is the same. */
  method GraphIdentityEntries(root: seq<Node>, listing: Listing) returns (entries: seq<FileEntry>)
    requires IsListing(listing)
    ensures entries == DigestEntries(root)
  {
    entries := [];
    var stack := [Pending("", root)];
    StackPush([], Pending("", root));
    while stack != []
      invariant multiset(entries) + StackFiles(stack) == multiset(Walk("", root))
      decreases StackWeight(stack)
    {
      var dir := stack[|stack| - 1];
      stack := stack[..|stack| - 1];
      var listed := listing(dir.path, dir.children);
      PermutedIsSame(listed, dir.children);
      SameTreeWalks(dir.path, listed, dir.children);
      entries, stack := ReadDirectory(dir.path, listed, entries, stack);
    }
    EntryOrderIsTotal();
    SortIgnoresOrder(EntryLeq, entries, Walk("", root));
    entries := Sort(EntryLeq, entries);
  }

  /** The inner loop: one directory's children become entries or pending
      directories, and nothing already gathered or pending is lost. */
  method ReadDirectory(dir: string, listed: seq<Node>, entries0: seq<FileEntry>, stack0: seq<Pending>)
    returns (entries: seq<FileEntry>, stack: seq<Pending>)
    ensures multiset(entries) + StackFiles(stack)
         == multiset(entries0) + StackFiles(stack0) + multiset(Walk(dir, listed))
    ensures StackWeight(stack) <= StackWeight(stack0) + Count(listed)
  {
    entries, stack := entries0, stack0;
    assert listed[0..] == listed;
    for i := 0 to |listed|
      invariant multiset(entries) + StackFiles(stack) + multiset(Walk(dir, listed[i..]))
             == multiset(entries0) + StackFiles(stack0) + multiset(Walk(dir, listed))
      invariant StackWeight(stack) + Count(listed[i..]) <= StackWeight(stack0) + Count(listed)
    {
      assert listed[i..][1..] == listed[i + 1..];
      match listed[i] {
        case File(name, len) =>
          entries := entries + [FileEntry(Join(dir, name), len)];
        case Dir(name, children) =>
          StackPush(stack, Pending(Join(dir, name), children));
          stack := stack + [Pending(Join(dir, name), children)];
      }
    }
  }

  // ---- The hashed bytes ----

  /** `len.to_le_bytes()` of a 64-bit length. */
  function LittleEndian(n: nat, width: nat): (bs: seq<Byte>)
    ensures |bs| == width
  {
    if width == 0 then [] else [n % 256] + LittleEndian(n / 256, width - 1)
  }

  function DigestInput(entries: seq<FileEntry>): seq<Byte> {
    if entries == [] then []
    else Utf8(entries[0].path) + LittleEndian(entries[0].len, 8) + DigestInput(entries[1..])
  }

  lemma {:induction false} DigestInputSnoc(entries: seq<FileEntry>, e: FileEntry)
    ensures DigestInput(entries + [e]) == DigestInput(entries) + Utf8(e.path) + LittleEndian(e.len, 8)
  {
    if entries == [] {
      assert entries + [e] == [e];
      assert DigestInput([e]) == Utf8(e.path) + LittleEndian(e.len, 8) + DigestInput([e][1..]);
    } else {
      assert (entries + [e])[1..] == entries[1..] + [e];
      DigestInputSnoc(entries[1..], e);
    }
  }

  /** The bytes fed to the hasher depend on the tree alone. */
  method GraphIdentityInput(root: seq<Node>, listing: Listing) returns (input: seq<Byte>)
    requires IsListing(listing)
    ensures input == DigestInput(DigestEntries(root))
  {
    var entries := GraphIdentityEntries(root, listing);
    input := [];
    for i := 0 to |entries|
      invariant input == DigestInput(entries[..i])
    {
      assert entries[..i + 1] == entries[..i] + [entries[i]];
      DigestInputSnoc(entries[..i], entries[i]);
      input := input + Utf8(entries[i].path) + LittleEndian(entries[i].len, 8);
    }
    assert entries[..|entries|] == entries;
  }

  /** Rearranging a tree at any depth does not change its digest. */
  lemma DigestIgnoresOrder(a: seq<Node>, b: seq<Node>)
    requires SameTree(a, b)
    ensures DigestInput(DigestEntries(a)) == DigestInput(DigestEntries(b))
  {
    SameTreeWalks("", a, b);
    EntryOrderIsTotal();
    SortIgnoresOrder(EntryLeq, Walk("", a), Walk("", b));
  }

  /** The list is in order: by path, and by length for one path. */
  lemma DigestIsOrdered(root: seq<Node>, i: nat, j: nat)
    requires i < j < |DigestEntries(root)|
    ensures var x, y := DigestEntries(root)[i], DigestEntries(root)[j];
      if x.path == y.path then x.len <= y.len else LexLeq(x.path, y.path) && !LexLeq(y.path, x.path)
  {
    EntryOrderIsTotal();
    SortSorts(EntryLeq, Walk("", root));
    var x, y := DigestEntries(root)[i], DigestEntries(root)[j];
    if x.path != y.path && LexLeq(y.path, x.path) {
      LexAntisymmetric(x.path, y.path);
    }
  }

  // ---- When the hashed bytes determine the listing ----

  /** A path as a file system can hold it, and a file under 4 GiB. */
  ghost predicate Plain(e: FileEntry) {
    e.path != "" && (forall c | c in e.path :: c != '\0') && e.len < 0x1_0000_0000
  }

  lemma {:induction false} Utf8HasNoZero(s: string)
    requires forall c | c in s :: c != '\0'
    ensures forall b | b in Utf8(s) :: b != 0
    ensures s != "" ==> Utf8(s) != []
  {
    if s != [] {
      assert s[0] in s;
      assert forall c | c in s[1..] :: c in s;
      Utf8HasNoZero(s[1..]);
      assert forall b | b in Utf8(s) :: b in Utf8Char(s[0]) || b in Utf8(s[1..]);
    }
  }

  lemma {:induction false} LittleEndianInjective(m: nat, n: nat, width: nat)
    requires m < Power256(width) && n < Power256(width)
    requires LittleEndian(m, width) == LittleEndian(n, width)
    ensures m == n
  {
    if width > 0 {
      var a, b := LittleEndian(m, width), LittleEndian(n, width);
      assert a[0] == b[0] && a[1..] == b[1..];
      LittleEndianInjective(m / 256, n / 256, width - 1);
    }
  }

  function Power256(k: nat): nat {
    if k == 0 then 1 else 256 * Power256(k - 1)
  }

  /** Four high bytes of a small length are zero. */
  lemma SmallLength(n: nat)
    requires n < 0x1_0000_0000
    ensures forall i | 4 <= i < 8 :: LittleEndian(n, 8)[i] == 0
    ensures n < Power256(8)
  {
    LittleEndianTail(n, 4, 8);
    assert Power256(4) == 0x1_0000_0000;
    assert Power256(8) == 0x1_0000_0000 * Power256(4);
  }

  lemma {:induction false} LittleEndianTail(n: nat, low: nat, width: nat)
    requires low <= width && n < Power256(low)
    ensures forall i | low <= i < width :: LittleEndian(n, width)[i] == 0
  {
    if low == 0 {
      LittleEndianZero(width);
    } else {
      LittleEndianTail(n / 256, low - 1, width - 1);
      forall i | low <= i < width ensures LittleEndian(n, width)[i] == 0 {
        assert LittleEndian(n, width)[i] == LittleEndian(n / 256, width - 1)[i - 1];
      }
    }
  }

  lemma {:induction false} LittleEndianZero(width: nat)
    ensures forall i | 0 <= i < width :: LittleEndian(0, width)[i] == 0
  {
    if width > 0 {
      LittleEndianZero(width - 1);
      assert LittleEndian(0, width) == [0] + LittleEndian(0, width - 1);
    }
  }

  /** The input has no separators, but for plain files it can be read back: equal
      inputs come from equal lists. */
  lemma {:induction false} DigestInputInjective(a: seq<FileEntry>, b: seq<FileEntry>)
    requires (forall e | e in a :: Plain(e)) && (forall e | e in b :: Plain(e))
    requires DigestInput(a) == DigestInput(b)
    ensures a == b
  {
    if a == [] || b == [] {
    } else {
      var x, y := DigestInput(a), DigestInput(b);
      var p, q := Utf8(a[0].path), Utf8(b[0].path);
      assert a[0] in a && b[0] in b;
      NextByte(a);
      NextByte(b);
      if |p| < |q| {
        HeadsAlign(a, b);
      } else if |q| < |p| {
        HeadsAlign(b, a);
      }
      assert p == x[..|p|] && q == y[..|q|];
      Utf8RoundTrip(a[0].path);
      Utf8RoundTrip(b[0].path);
      var l, m := LittleEndian(a[0].len, 8), LittleEndian(b[0].len, 8);
      assert l == x[|p|..|p| + 8] && m == y[|p|..|p| + 8];
      SmallLength(a[0].len);
      SmallLength(b[0].len);
      LittleEndianInjective(a[0].len, b[0].len, 8);
      assert DigestInput(a[1..]) == x[|p| + 8..] && DigestInput(b[1..]) == y[|p| + 8..];
      assert forall e | e in a[1..] :: e in a;
      assert forall e | e in b[1..] :: e in b;
      DigestInputInjective(a[1..], b[1..]);
      assert a == [a[0]] + a[1..] && b == [b[0]] + b[1..];
    }
  }

  /** The shape of the input after its first path: eight length bytes, the upper
      four zero, then nothing or the first byte of a path. */
  lemma NextByte(a: seq<FileEntry>)
    requires a != [] && forall e | e in a :: Plain(e)
    ensures var p, x := Utf8(a[0].path), DigestInput(a);
      && p != [] && |x| >= |p| + 8
      && (forall i | 0 <= i < |p| :: x[i] != 0)
      && (forall i | |p| + 4 <= i < |p| + 8 :: x[i] == 0)
      && (|x| > |p| + 8 ==> x[|p| + 8] != 0)
  {
    var p, x := Utf8(a[0].path), DigestInput(a);
    assert a[0] in a;
    Utf8HasNoZero(a[0].path);
    SmallLength(a[0].len);
    forall i | |p| + 4 <= i < |p| + 8 ensures x[i] == 0 {
      assert x[i] == LittleEndian(a[0].len, 8)[i - |p|];
    }
    forall i | 0 <= i < |p| ensures x[i] != 0 {
      assert x[i] == p[i] && p[i] in p;
    }
    if |a| > 1 {
      assert a[1] in a;
      Utf8HasNoZero(a[1].path);
      assert x[|p| + 8] == DigestInput(a[1..])[0] == Utf8(a[1].path)[0];
    }
  }

  ghost predicate NonZeroAt(x: seq<Byte>, i: int) {
    0 <= i < |x| && x[i] != 0
  }

  lemma HeadsAlign(a: seq<FileEntry>, b: seq<FileEntry>)
    requires a != [] && b != [] && DigestInput(a) == DigestInput(b)
    requires (forall e | e in a :: Plain(e)) && (forall e | e in b :: Plain(e))
    ensures |Utf8(a[0].path)| >= |Utf8(b[0].path)|
  {
    var p, q, x := Utf8(a[0].path), Utf8(b[0].path), DigestInput(a);
    NextByte(a);
    NextByte(b);
    assert |p| + 4 < |q| ==> NonZeroAt(x, |p| + 4);
    assert !NonZeroAt(x, |p| + 4);
    assert |p| < |q| ==> NonZeroAt(x, |p| + 8);
  }
  lemma SortedArePlain(entries: seq<FileEntry>)
    requires forall e | e in entries :: Plain(e)
    ensures forall e | e in Sort(EntryLeq, entries) :: Plain(e)
  {
    EntryOrderIsTotal();
    SortSorts(EntryLeq, entries);
    forall e | e in Sort(EntryLeq, entries) ensures e in entries {
      assert e in multiset(Sort(EntryLeq, entries));
    }
  }

  lemma SameInputSameList(a: seq<FileEntry>, b: seq<FileEntry>)
    requires (forall e | e in a :: Plain(e)) && (forall e | e in b :: Plain(e))
    ensures DigestInput(Sort(EntryLeq, a)) == DigestInput(Sort(EntryLeq, b)) ==> Sort(EntryLeq, a) == Sort(EntryLeq, b)
  {
    SortedArePlain(a);
    SortedArePlain(b);
    if DigestInput(Sort(EntryLeq, a)) == DigestInput(Sort(EntryLeq, b)) {
      DigestInputInjective(Sort(EntryLeq, a), Sort(EntryLeq, b));
    }
  }

  /** Two trees of plain files have one digest input exactly when they hold the same
      files: nothing else counts, neither order nor empty directories. */
  lemma SameDigestIff(a: seq<Node>, b: seq<Node>)
    requires (forall e | e in Walk("", a) :: Plain(e)) && (forall e | e in Walk("", b) :: Plain(e))
    ensures DigestInput(DigestEntries(a)) == DigestInput(DigestEntries(b)) <==>
      multiset(Walk("", a)) == multiset(Walk("", b))
  {
    EntryOrderIsTotal();
    SameInputSameList(Walk("", a), Walk("", b));
    SortSorts(EntryLeq, Walk("", a));
    SortSorts(EntryLeq, Walk("", b));
    if multiset(Walk("", a)) == multiset(Walk("", b)) {
      SortIgnoresOrder(EntryLeq, Walk("", a), Walk("", b));
    }
  }
}
