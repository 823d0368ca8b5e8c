/** File-name text: the lexicographic order of names, decimal printing of
    timestamps, and the slugs that name branch directories. */
module Text {
  import opened Sorting

  // ---- Lexicographic order ----

  /** The order of two file names in one directory, character by character. */
  predicate LexLeq(a: string, b: string) {
    a == [] || (b != [] && (a[0] < b[0] || (a[0] == b[0] && LexLeq(a[1..], b[1..]))))
  }

  lemma {:induction false} LexReflexive(a: string)
    ensures LexLeq(a, a)
  {
    if a != [] { LexReflexive(a[1..]); }
  }

  lemma {:induction false} LexAntisymmetric(a: string, b: string)
    requires LexLeq(a, b) && LexLeq(b, a)
    ensures a == b
  {
    if a != [] {
      LexAntisymmetric(a[1..], b[1..]);
      assert a == [a[0]] + a[1..] && b == [b[0]] + b[1..];
    }
  }

  lemma {:induction false} LexTransitive(a: string, b: string, c: string)
    requires LexLeq(a, b) && LexLeq(b, c)
    ensures LexLeq(a, c)
  {
    if a != [] && a[0] == b[0] && b[0] == c[0] { LexTransitive(a[1..], b[1..], c[1..]); }
  }

  lemma {:induction false} LexTotal(a: string, b: string)
    ensures LexLeq(a, b) || LexLeq(b, a)
  {
    if a != [] && b != [] && a[0] == b[0] { LexTotal(a[1..], b[1..]); }
  }

  lemma LexIsTotalOrder()
    ensures TotalOrder(LexLeq)
  {
    forall a ensures LexLeq(a, a) { LexReflexive(a); }
    forall a, b | LexLeq(a, b) && LexLeq(b, a) ensures a == b { LexAntisymmetric(a, b); }
    forall a, b, c | LexLeq(a, b) && LexLeq(b, c) ensures LexLeq(a, c) { LexTransitive(a, b, c); }
    forall a, b ensures LexLeq(a, b) || LexLeq(b, a) { LexTotal(a, b); }
  }

  /** A common prefix never decides the order. */
  lemma {:induction false} LexCommonPrefix(p: string, a: string, b: string)
    ensures LexLeq(p + a, p + b) <==> LexLeq(a, b)
  {
    if p == [] {
      assert p + a == a && p + b == b;
    } else {
      assert (p + a)[1..] == p[1..] + a && (p + b)[1..] == p[1..] + b;
      LexCommonPrefix(p[1..], a, b);
    }
  }

  /** Heads of equal length decide the order unless they are equal. */
  lemma {:induction false} LexSplit(u: string, v: string, x: string, y: string)
    requires |u| == |v|
    ensures LexLeq(u + x, v + y) <==> if u == v then LexLeq(x, y) else LexLeq(u, v)
  {
    if u == [] {
      assert u + x == x && v + y == y;
    } else {
      assert (u + x)[1..] == u[1..] + x && (v + y)[1..] == v[1..] + y;
      assert u == [u[0]] + u[1..] && v == [v[0]] + v[1..];
      LexSplit(u[1..], v[1..], x, y);
    }
  }

  // ---- Decimal printing ----

  function Digit(d: nat): (c: char)
    requires d < 10
    ensures '0' <= c <= '9'
  {
    ('0' as int + d) as char
  }

  function Decimal(n: nat): (s: string)
    ensures s != [] && '0' <= s[0] <= '9'
  {
    if n < 10 then [Digit(n)] else Decimal(n / 10) + [Digit(n % 10)]
  }

  /** Among numbers of one printed width, the order of the texts is the order
      of the numbers. */
  lemma {:induction false} DecimalPreservesOrder(m: nat, n: nat)
    requires |Decimal(m)| == |Decimal(n)|
    ensures LexLeq(Decimal(m), Decimal(n)) <==> m <= n
    ensures Decimal(m) == Decimal(n) <==> m == n
  {
    if m < 10 {
      assert n < 10;
    } else {
      assert n >= 10;
      DecimalPreservesOrder(m / 10, n / 10);
      LexSplit(Decimal(m / 10), Decimal(n / 10), [Digit(m % 10)], [Digit(n % 10)]);
      assert Decimal(m)[..|Decimal(m / 10)|] == Decimal(m / 10);
      assert Decimal(n)[..|Decimal(n / 10)|] == Decimal(n / 10);
      assert Decimal(m)[|Decimal(m / 10)|] == Digit(m % 10);
      assert Decimal(n)[|Decimal(n / 10)|] == Digit(n % 10);
    }
  }

  function PowerOfTen(k: nat): nat {
    if k == 0 then 1 else 10 * PowerOfTen(k - 1)
  }

  /** A number is printed with as many digits as its decimal magnitude says. */
  lemma {:induction false} DecimalWidth(n: nat, k: nat)
    requires PowerOfTen(k) <= n < PowerOfTen(k + 1)
    ensures |Decimal(n)| == k + 1
  {
    if k > 0 { DecimalWidth(n / 10, k - 1); }
  }

  // ---- Slugs ----

  /** What the character tables of the standard library say: the lowercase form
      of a character (possibly several characters), whether it is alphanumeric
      and whether it is white space. */
  datatype CharTable = CharTable(lower: char -> string, alphanumeric: char -> bool, space: char -> bool)

  /** The facts about those tables that slugs rely on: lowercase output is
      already lowercase, `-` is its own lowercase and not alphanumeric, and the
      letters of the fallback slug are lowercase letters. */
  ghost predicate ValidTable(t: CharTable) {
    && (forall c, d | d in t.lower(c) :: t.lower(d) == [d])
    && t.lower('-') == ['-'] && !t.alphanumeric('-')
    && (forall c | c in "branch" :: t.lower(c) == [c] && t.alphanumeric(c))
  }

  function Lowercase(t: CharTable, s: string): string {
    if s == [] then [] else t.lower(s[0]) + Lowercase(t, s[1..])
  }

  function Dashed(t: CharTable, s: string): (r: string)
    ensures |r| == |s|
  {
    seq(|s|, i requires 0 <= i < |s| => if t.alphanumeric(s[i]) || s[i] == '-' then s[i] else '-')
  }

  /** `split('-')`: the pieces between dashes, always at least one. */
  function SplitDash(s: string): (pieces: seq<string>)
    ensures pieces != []
  {
    if s == [] then [""]
    else
      var rest := SplitDash(s[1..]);
      if s[0] == '-' then [""] + rest else [[s[0]] + rest[0]] + rest[1..]
  }

  function NonEmptyOf(pieces: seq<string>): seq<string> {
    if pieces == [] then []
    else (if pieces[0] == "" then [] else [pieces[0]]) + NonEmptyOf(pieces[1..])
  }

  function JoinDash(pieces: seq<string>): string {
    if pieces == [] then ""
    else if |pieces| == 1 then pieces[0]
    else pieces[0] + "-" + JoinDash(pieces[1..])
  }

  function Slugify(t: CharTable, name: string): string {
    var slug := JoinDash(NonEmptyOf(SplitDash(Dashed(t, Lowercase(t, name)))));
    if slug == "" then "branch" else slug
  }

  /** A slug: non-empty, made of lowercase alphanumerics and single inner dashes. */
  ghost predicate IsSlug(t: CharTable, s: string) {
    && s != [] && s[0] != '-' && s[|s| - 1] != '-'
    && (forall i | 0 <= i < |s| - 1 :: !(s[i] == '-' && s[i + 1] == '-'))
    && (forall c | c in s :: t.lower(c) == [c] && (t.alphanumeric(c) || c == '-'))
  }

  ghost predicate CleanPiece(t: CharTable, p: string) {
    p != [] && forall c | c in p :: c != '-' && t.lower(c) == [c] && t.alphanumeric(c)
  }

  lemma {:induction false} LowercaseIsStable(t: CharTable, s: string)
    requires ValidTable(t)
    ensures forall c | c in Lowercase(t, s) :: t.lower(c) == [c]
  {
    if s != [] { LowercaseIsStable(t, s[1..]); }
  }

  lemma {:induction false} PiecesAreClean(t: CharTable, s: string)
    requires forall c | c in s :: t.lower(c) == [c] && (t.alphanumeric(c) || c == '-')
    ensures forall p | p in SplitDash(s) :: p != "" ==> CleanPiece(t, p)
  {
    if s != [] {
      PiecesAreClean(t, s[1..]);
      var rest := SplitDash(s[1..]);
      assert rest[0] in rest;
      forall p | p in SplitDash(s) && p != "" ensures CleanPiece(t, p) {
        if s[0] != '-' && p == [s[0]] + rest[0] {
          assert s[0] in s;
        } else {
          assert p in rest;
        }
      }
    }
  }

  lemma {:induction false} NonEmptyOfIsClean(t: CharTable, pieces: seq<string>)
    requires forall p | p in pieces :: p != "" ==> CleanPiece(t, p)
    ensures forall p | p in NonEmptyOf(pieces) :: CleanPiece(t, p)
  {
    if pieces != [] { NonEmptyOfIsClean(t, pieces[1..]); }
  }

  lemma {:induction false} JoinOfCleanIsSlug(t: CharTable, pieces: seq<string>)
    requires ValidTable(t) && pieces != [] && forall p | p in pieces :: CleanPiece(t, p)
    ensures IsSlug(t, JoinDash(pieces))
  {
    assert pieces[0] in pieces;
    if |pieces| > 1 {
      JoinOfCleanIsSlug(t, pieces[1..]);
      var head, tail := pieces[0], JoinDash(pieces[1..]);
      var s := JoinDash(pieces);
      assert s == head + ("-" + tail);
      forall i | 0 <= i < |s| - 1 ensures !(s[i] == '-' && s[i + 1] == '-') {
        if i < |head| {
          assert s[i] == head[i] && head[i] in head;
        } else if i == |head| {
          assert s[i + 1] == tail[0];
        } else {
          assert s[i] == tail[i - |head| - 1] && s[i + 1] == tail[i - |head|];
        }
      }
      assert s[0] == head[0] && head[0] in head;
      assert s[|s| - 1] == tail[|tail| - 1];
    } else {
      var s := pieces[0];
      assert JoinDash(pieces) == s;
      assert forall i | 0 <= i < |s| :: s[i] in s;
    }
  }

  /** Every slug is well formed, for every name. */
  lemma SlugifyIsSlug(t: CharTable, name: string)
    requires ValidTable(t)
    ensures IsSlug(t, Slugify(t, name))
  {
    var l := Lowercase(t, name);
    LowercaseIsStable(t, name);
    var d := Dashed(t, l);
    forall c | c in d ensures t.lower(c) == [c] && (t.alphanumeric(c) || c == '-') {
      var i :| 0 <= i < |d| && d[i] == c;
      assert l[i] in l;
    }
    PiecesAreClean(t, d);
    NonEmptyOfIsClean(t, SplitDash(d));
    var kept := NonEmptyOf(SplitDash(d));
    if kept == [] {
      assert IsSlug(t, "branch");
    } else {
      JoinOfCleanIsSlug(t, kept);
    }
  }

  lemma {:induction false} LowercaseFixesSlugs(t: CharTable, s: string)
    requires forall c | c in s :: t.lower(c) == [c]
    ensures Lowercase(t, s) == s
  {
    if s != [] {
      assert s[0] in s;
      LowercaseFixesSlugs(t, s[1..]);
    }
  }

  /** Joining the kept pieces of a text without outer or doubled dashes gives
      the text back; a leading dash costs exactly that dash. */
  lemma {:induction false} SplitJoin(s: string)
    requires forall i | 0 <= i < |s| - 1 :: !(s[i] == '-' && s[i + 1] == '-')
    requires s != [] ==> s[|s| - 1] != '-'
    ensures s == [] ==> NonEmptyOf(SplitDash(s)) == []
    ensures s != [] && s[0] != '-' ==>
      NonEmptyOf(SplitDash(s)) != [] && SplitDash(s)[0] != "" && JoinDash(NonEmptyOf(SplitDash(s))) == s
    ensures s != [] && s[0] == '-' ==>
      NonEmptyOf(SplitDash(s)) != [] && JoinDash(NonEmptyOf(SplitDash(s))) == s[1..]
  {
    if s != [] {
      var tail := s[1..];
      var rest := SplitDash(tail);
      forall i | 0 <= i < |tail| - 1 ensures !(tail[i] == '-' && tail[i + 1] == '-') {
        assert !(s[i + 1] == '-' && s[i + 2] == '-');
      }
      SplitJoin(tail);
      if s[0] == '-' {
        assert !(s[0] == '-' && s[1] == '-');
        assert SplitDash(s)[1..] == rest;
        assert NonEmptyOf(SplitDash(s)) == NonEmptyOf(rest);
      } else {
        TailJoin(tail);
        SplitJoinLetter(s);
      }
    }
  }

  /** The first piece of a text, kept even if empty, and the later ones, joined. */
  lemma TailJoin(tail: string)
    requires tail != [] && tail[0] != '-' ==> SplitDash(tail)[0] != "" && JoinDash(NonEmptyOf(SplitDash(tail))) == tail
    requires tail != [] && tail[0] == '-' ==>
      NonEmptyOf(SplitDash(tail)) != [] && JoinDash(NonEmptyOf(SplitDash(tail))) == tail[1..]
    ensures JoinDash([SplitDash(tail)[0]] + NonEmptyOf(SplitDash(tail)[1..])) == tail
  {
    var rest := SplitDash(tail);
    var later := NonEmptyOf(rest[1..]);
    if tail != [] && tail[0] == '-' {
      assert rest[0] == "" && NonEmptyOf(rest) == later;
      assert ([rest[0]] + later)[1..] == later;
      assert tail == "-" + tail[1..];
    } else if tail != [] {
      assert NonEmptyOf(rest) == [rest[0]] + later;
    }
  }

  /** A text that starts with a letter, given its tail. */
  lemma SplitJoinLetter(s: string)
    requires s != [] && s[0] != '-'
    requires JoinDash([SplitDash(s[1..])[0]] + NonEmptyOf(SplitDash(s[1..])[1..])) == s[1..]
    ensures NonEmptyOf(SplitDash(s)) != [] && SplitDash(s)[0] != "" && JoinDash(NonEmptyOf(SplitDash(s))) == s
  {
    var rest := SplitDash(s[1..]);
    var first, later := [s[0]] + rest[0], NonEmptyOf(rest[1..]);
    assert SplitDash(s) == [first] + rest[1..] && SplitDash(s)[1..] == rest[1..];
    assert NonEmptyOf(SplitDash(s)) == [first] + later;
    JoinPrefix(s[0], rest[0], later);
    assert s == [s[0]] + s[1..];
  }

  lemma JoinPrefix(c: char, first: string, later: seq<string>)
    ensures JoinDash([[c] + first] + later) == [c] + JoinDash([first] + later)
  {
    assert ([[c] + first] + later)[1..] == later && ([first] + later)[1..] == later;
    if later != [] {
      assert ([c] + first) + "-" + JoinDash(later) == [c] + (first + "-" + JoinDash(later));
    }
  }

  /** `slugify` leaves every well-formed slug alone ... */
  lemma SlugifyFixesSlugs(t: CharTable, s: string)
    requires IsSlug(t, s)
    ensures Slugify(t, s) == s
  {
    LowercaseFixesSlugs(t, s);
    assert Dashed(t, s) == s by {
      assert forall i | 0 <= i < |s| :: s[i] in s;
    }
    SplitJoin(s);
  }

  /** ... and so it is idempotent on every name. */
  lemma SlugifyIdempotent(t: CharTable, name: string)
    requires ValidTable(t)
    ensures Slugify(t, Slugify(t, name)) == Slugify(t, name)
  {
    SlugifyIsSlug(t, name);
    SlugifyFixesSlugs(t, Slugify(t, name));
  }

  // ---- What a slug keeps of a name ----

  /** In one pass: the alphanumerics of the text, with one dash between two of them for
      whatever stood between them.  `started` says that one was met before, `gap` that
      something else came since. */
  function Squeeze(t: CharTable, s: string, started: bool, gap: bool): string {
    if s == "" then ""
    else if t.alphanumeric(s[0]) then (if started && gap then "-" else "") + [s[0]] + Squeeze(t, s[1..], true, false)
    else Squeeze(t, s[1..], started, true)
  }

  /** The dashed text from a piece on: its pieces joined, after a dash if there are any. */
  function JoinAfter(pieces: seq<string>): string {
    if pieces == [] then "" else "-" + JoinDash(pieces)
  }

  lemma DashedStep(t: CharTable, s: string)
    requires s != "" && !t.alphanumeric('-')
    ensures var rest, pieces := SplitDash(Dashed(t, s[1..])), SplitDash(Dashed(t, s));
      if t.alphanumeric(s[0]) then pieces[0] == [s[0]] + rest[0] && pieces[1..] == rest[1..]
      else pieces[0] == "" && pieces[1..] == rest
  {
    assert Dashed(t, s)[1..] == Dashed(t, s[1..]);
  }

  lemma JoinLater(head: string, later: seq<string>)
    ensures JoinDash([head] + later) == head + JoinAfter(later)
  {
    assert ([head] + later)[1..] == later;
    if later != [] {
      assert head + "-" + JoinDash(later) == head + ("-" + JoinDash(later));
    } else {
      assert head + "" == head;
    }
  }

  /** What the pieces of a text give, by what came before them. */
  predicate Squeezes(t: CharTable, s: string, pieces: seq<string>)
    requires pieces != []
  {
    && Squeeze(t, s, false, false) == Squeeze(t, s, false, true) == JoinDash(NonEmptyOf(pieces))
    && Squeeze(t, s, true, true) == JoinAfter(NonEmptyOf(pieces))
    && Squeeze(t, s, true, false) == pieces[0] + JoinAfter(NonEmptyOf(pieces[1..]))
  }

  lemma SqueezeKeeps(t: CharTable, s: string, pieces: seq<string>, rest: seq<string>)
    requires s != "" && t.alphanumeric(s[0]) && pieces != [] && rest != []
    requires pieces[0] == [s[0]] + rest[0] && pieces[1..] == rest[1..] && Squeezes(t, s[1..], rest)
    ensures Squeezes(t, s, pieces)
  {
    var later, tail := NonEmptyOf(pieces[1..]), Squeeze(t, s[1..], true, false);
    assert NonEmptyOf(pieces) == [pieces[0]] + later;
    JoinLater(pieces[0], later);
    assert pieces[0] + JoinAfter(later) == [s[0]] + (rest[0] + JoinAfter(later)) == [s[0]] + tail;
    assert "" + [s[0]] + tail == [s[0]] + tail && "-" + [s[0]] + tail == "-" + ([s[0]] + tail);
  }

  lemma SqueezeDrops(t: CharTable, s: string, pieces: seq<string>, rest: seq<string>)
    requires s != "" && !t.alphanumeric(s[0]) && pieces != [] && rest != []
    requires pieces[0] == "" && pieces[1..] == rest && Squeezes(t, s[1..], rest)
    ensures Squeezes(t, s, pieces)
  {
    assert NonEmptyOf(pieces) == NonEmptyOf(rest);
    assert "" + JoinAfter(NonEmptyOf(rest)) == JoinAfter(NonEmptyOf(rest));
  }

  /** Splitting at dashes, dropping the empty pieces and joining the others is that pass. */
  lemma {:induction false} JoinIsSqueeze(t: CharTable, s: string)
    requires !t.alphanumeric('-')
    ensures Squeezes(t, s, SplitDash(Dashed(t, s)))
  {
    if s == "" {
      assert SplitDash(Dashed(t, s)) == [""];
    } else {
      JoinIsSqueeze(t, s[1..]);
      DashedStep(t, s);
      if t.alphanumeric(s[0]) {
        SqueezeKeeps(t, s, SplitDash(Dashed(t, s)), SplitDash(Dashed(t, s[1..])));
      } else {
        SqueezeDrops(t, s, SplitDash(Dashed(t, s)), SplitDash(Dashed(t, s[1..])));
      }
    }
  }

  /** The slug of every name, in one pass over its lowercase form. */
  lemma SlugIsSqueezed(t: CharTable, name: string)
    requires !t.alphanumeric('-')
    ensures var kept := Squeeze(t, Lowercase(t, name), false, false);
      Slugify(t, name) == if kept == "" then "branch" else kept
  {
    JoinIsSqueeze(t, Lowercase(t, name));
  }
}
