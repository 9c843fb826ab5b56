/** Subsequences: a history with some of its members left out. */
module Subsequences {
  import opened Domain

  ghost predicate Subsequence<T>(a: seq<T>, b: seq<T>) {
    || a == []
    || (b != [] &&
        (|| (a[|a| - 1] == b[|b| - 1] && Subsequence(a[..|a| - 1], b[..|b| - 1]))
         || Subsequence(a, b[..|b| - 1])))
  }

  lemma SubsequenceSkips<T>(a: seq<T>, b: seq<T>, x: T)
    requires Subsequence(a, b)
    ensures Subsequence(a, b + [x])
  {
    assert (b + [x])[..|b|] == b;
  }

  lemma SubsequenceKeeps<T>(a: seq<T>, b: seq<T>, x: T)
    requires Subsequence(a, b)
    ensures Subsequence(a + [x], b + [x])
  {
    assert (b + [x])[..|b|] == b && (a + [x])[..|a|] == a;
  }

  /** A subsequence keeps the order: there are ever later places in b that hold a's members. */
  lemma {:induction false} SubsequencePlaces<T>(a: seq<T>, b: seq<T>) returns (at: seq<nat>)
    requires Subsequence(a, b)
    ensures |at| == |a| && (forall k :: 0 <= k < |a| ==> at[k] < |b| && b[at[k]] == a[k])
    ensures forall j, k :: 0 <= j < k < |a| ==> at[j] < at[k]
  {
    if a == [] {
      at := [];
    } else {
      var n, m := |a| - 1, |b| - 1;
      if a[n] == b[m] && Subsequence(a[..n], b[..m]) {
        var before := SubsequencePlaces(a[..n], b[..m]);
        forall k | 0 <= k < n ensures before[k] < m && b[before[k]] == a[k] { assert a[..n][k] == a[k]; }
        at := before + [m];
      } else {
        at := SubsequencePlaces(a, b[..m]);
      }
    }
  }

  lemma {:induction false} SubsequenceElements<T>(a: seq<T>, b: seq<T>)
    requires Subsequence(a, b)
    ensures forall x :: x in a ==> x in b
  {
    if a != [] {
      if a[|a| - 1] == b[|b| - 1] && Subsequence(a[..|a| - 1], b[..|b| - 1]) {
        SubsequenceElements(a[..|a| - 1], b[..|b| - 1]);
        assert a == a[..|a| - 1] + [a[|a| - 1]];
      } else {
        SubsequenceElements(a, b[..|b| - 1]);
      }
    }
  }

  lemma {:induction false} SubsequenceDistinct<T>(a: seq<T>, b: seq<T>)
    requires Subsequence(a, b) && Distinct(b)
    ensures Distinct(a)
  {
    if a != [] {
      var n, m := |a| - 1, |b| - 1;
      if a[n] == b[m] && Subsequence(a[..n], b[..m]) {
        SubsequenceDistinct(a[..n], b[..m]);
        SubsequenceElements(a[..n], b[..m]);
        forall i | 0 <= i < n ensures a[i] != a[n] { assert a[i] in a[..n]; }
        assert forall i, j :: 0 <= i < j < n ==> a[..n][i] != a[..n][j];
      } else {
        SubsequenceDistinct(a, b[..m]);
      }
    }
  }
}
