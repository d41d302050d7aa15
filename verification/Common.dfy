/** What several parts of the model share. */
module Common {
  datatype Option<T> = None | Some(value: T)

  function Below(n: nat): (S: set<nat>)
    ensures |S| == n && forall x: nat :: x in S <==> x < n
  {
    if n == 0 then {} else Below(n - 1) + {n - 1}
  }

  lemma SubsetSize<T>(A: set<T>, B: set<T>)
    requires A <= B
    ensures |A| <= |B|
  {
    assert B == A + (B - A);
  }

  ghost predicate Distinct<T(!new)>(s: seq<T>) {
    forall i, j :: 0 <= i < j < |s| ==> s[i] != s[j]
  }
}
