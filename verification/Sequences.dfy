/** Facts about slices that the solver is better told than left to find. */
module Sequences {

  lemma SliceExtend<T>(s: seq<T>, a: nat, n: nat)
    requires a <= n < |s|
    ensures s[a..n + 1] == s[a..n] + [s[n]]
  {
  }

  lemma SplitLast<T>(s: seq<T>)
    requires s != []
    ensures s == s[..|s| - 1] + [s[|s| - 1]]
  {
  }

  lemma SliceOfPrefix<T>(s: seq<T>, n: nat, a: nat, b: nat)
    requires a <= b <= n <= |s|
    ensures s[..n][a..b] == s[a..b]
  {
  }

  lemma PrefixOfPrefix<T>(s: seq<T>, n: nat, i: nat)
    requires i <= n <= |s|
    ensures s[..n][..i] == s[..i]
  {
  }

  lemma PrefixBelow<T>(p: seq<T>, s: seq<T>, n: nat)
    requires p <= s && |p| <= n <= |s|
    ensures p <= s[..n]
  {
  }

  lemma EmptyConcat<T>(s: seq<T>)
    ensures [] + s == s
  {
  }

  lemma LastSlice<T>(s: seq<T>)
    requires s != []
    ensures s[|s| - 1..|s|] == [s[|s| - 1]]
  {
  }

  lemma WholeSlice<T>(s: seq<T>)
    ensures s[..|s|] == s && s[0..|s|] == s && s[0..] == s
  {
  }

  lemma DropDrop<T>(s: seq<T>, a: nat, b: nat)
    requires a + b <= |s|
    ensures s[a..][b..] == s[a + b..]
  {
  }

  lemma DropFirst<T>(a: seq<T>, b: seq<T>)
    ensures (a + b)[|a|..] == b && (a + b)[..|a|] == a
  {
  }

  lemma SliceDrop<T>(s: seq<T>, a: nat, b: nat, n: nat)
    requires a + n <= b <= |s|
    ensures s[a..b][n..] == s[a + n..b]
  {
  }

  lemma SliceTake<T>(s: seq<T>, a: nat, b: nat, n: nat)
    requires a + n <= b <= |s|
    ensures s[a..b][..n] == s[a..a + n]
  {
  }
}
