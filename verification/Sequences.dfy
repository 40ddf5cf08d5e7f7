/** Facts about sequences that the verifier needs to be told one at a time. */
module Sequences {

  lemma Regroup<T>(a: seq<T>, b: seq<T>, c: seq<T>)
    ensures (a + b) + c == a + (b + c)
  {
  }

  lemma SliceOfSlice<T>(s: seq<T>, i: nat, j: nat, k: nat, m: nat)
    requires i <= j <= |s| && k <= m <= j - i
    ensures s[i..j][k..m] == s[i + k..i + m]
  {
    forall t | 0 <= t < m - k
      ensures s[i..j][k..m][t] == s[i + k..i + m][t]
    {
      assert s[i..j][k..m][t] == s[i..j][k + t];
    }
    assert |s[i..j][k..m]| == |s[i + k..i + m]|;
  }
}
