/** Slices of slices. */
module Slices {
  lemma SliceOfSlice<T>(s: seq<T>, i: nat, j: nat, k: nat, l: nat)
    requires i <= j <= |s| && k <= l <= j - i
    ensures s[i..j][k..l] == s[i + k..i + l]
  {
    var a, b := s[i..j][k..l], s[i + k..i + l];
    assert |a| == |b|;
    forall n | 0 <= n < |a| ensures a[n] == b[n] {
      assert a[n] == s[i..j][k + n];
    }
  }

  lemma SliceOfPrefix<T>(s: seq<T>, j: nat, k: nat, l: nat)
    requires k <= l <= j <= |s|
    ensures s[..j][k..l] == s[k..l]
  {
    assert s[..j] == s[0..j];
    SliceOfSlice(s, 0, j, k, l);
  }

  lemma SliceOfSuffix<T>(s: seq<T>, i: nat, k: nat, l: nat)
    requires i <= |s| && k <= l <= |s| - i
    ensures s[i..][k..l] == s[i + k..i + l]
  {
    assert s[i..] == s[i..|s|];
    SliceOfSlice(s, i, |s|, k, l);
  }
}
