/** Facts about lists that loops and listings use. */
module Sequences {
  lemma PrefixesOf<T>(s: seq<T>)
    ensures s[..0] == [] && s[..|s|] == s
    ensures forall k | 0 <= k < |s| :: s[..k] + [s[k]] == s[..k + 1]
  {
  }

  lemma SomeMember<T>(s: seq<T>)
    ensures s != [] ==> exists x :: x in s
  {
    if s != [] { assert s[0] in s; }
  }
}
