/** What every part of the model shares: options, the smaller and larger of two
    numbers, and sequences without repetition. */
module Basics {

  datatype Option<+T> = None | Some(value: T)

  function Min(a: int, b: int): int { if a < b then a else b }

  function Max(a: int, b: int): int { if a < b then b else a }

  /** Named, so that distinctness of a sequence is only ever used for pairs asked about. */
  ghost predicate Differ<T>(s: seq<T>, i: int, j: int) { 0 <= i < j < |s| ==> s[i] != s[j] }

  ghost predicate Distinct<T>(s: seq<T>) {
    forall i, j {:trigger Differ(s, i, j)} :: Differ(s, i, j)
  }

  lemma DistinctIndices<T>(s: seq<T>)
    requires Distinct(s)
    ensures forall i, j :: 0 <= i < j < |s| ==> s[i] != s[j]
  {
    forall i, j | 0 <= i < j < |s|
      ensures s[i] != s[j]
    {
      assert Differ(s, i, j);
    }
  }

  /** Position `k`, if there is one, holds something found nowhere else. */
  ghost predicate Apart<T>(s: seq<T>, k: int) {
    0 <= k < |s| ==> forall i :: 0 <= i < |s| && i != k ==> s[i] != s[k]
  }

  lemma DistinctApart<T>(s: seq<T>, k: int)
    requires Distinct(s)
    ensures Apart(s, k)
  {
    DistinctIndices(s);
  }

  lemma IndicesDistinct<T>(s: seq<T>)
    requires forall i, j :: 0 <= i < j < |s| ==> s[i] != s[j]
    ensures Distinct(s)
  {
  }
}
