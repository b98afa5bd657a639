/** Facts about slices that the format proofs share. */
module Sequences {

  ghost predicate Distinct<T>(s: seq<T>) {
    forall i, j :: 0 <= i < j < |s| ==> s[i] != s[j]
  }

  lemma SliceOfSlice<T>(s: seq<T>, a: nat, b: nat, c: nat, d: nat)
    requires a <= b <= |s| && c <= d <= b - a
    ensures s[a..b][c..d] == s[a + c..a + d]
  {
    forall i | 0 <= i < d - c ensures s[a..b][c..d][i] == s[a + c..a + d][i] {
      assert s[a..b][c..d][i] == s[a..b][c + i] == s[a + c + i];
    }
  }

  lemma SliceOfPrefix<T>(f: seq<T>, s: seq<T>, a: nat, b: nat)
    requires f <= s && a <= b <= |f|
    ensures f[a..b] == s[a..b]
  {
  }

  /** x stands in s at position a. */
  ghost predicate At<T>(s: seq<T>, a: nat, x: seq<T>) {
    a + |x| <= |s| && s[a..a + |x|] == x
  }

  /** If a concatenation stands in s, so do its two parts. */
  lemma SplitAt<T>(s: seq<T>, a: nat, x: seq<T>, y: seq<T>)
    requires At(s, a, x + y)
    ensures At(s, a, x) && At(s, a + |x|, y)
  {
    SliceOfSlice(s, a, a + |x + y|, 0, |x|);
    SliceOfSlice(s, a, a + |x + y|, |x|, |x| + |y|);
    assert (x + y)[0..|x|] == x && (x + y)[|x|..|x| + |y|] == y;
  }

  lemma AtPrefix<T>(f: seq<T>, s: seq<T>, a: nat, x: seq<T>)
    requires f <= s && At(s, a, x) && a + |x| <= |f|
    ensures At(f, a, x)
  {
    SliceOfPrefix(f, s, a, a + |x|);
  }
}
