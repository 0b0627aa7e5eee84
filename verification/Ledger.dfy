/** Sums over finite maps: the arithmetic behind every shared byte budget. */
module Ledger {

  /** The sum of all values held in `m`. */
  ghost function Total<K>(m: map<K, int>): int
    decreases |m|
  {
    if |m| == 0 then 0
    else
      var k := Pick(m);
      m[k] + Total(m - {k})
  }

  ghost function Pick<K>(m: map<K, int>): (k: K)
    requires |m| != 0
    ensures k in m
  {
    var k :| k in m;
    k
  }

  /** Any key may be taken out first. */
  lemma {:induction false} TotalRemove<K>(m: map<K, int>, k: K)
    requires k in m
    ensures Total(m) == m[k] + Total(m - {k})
    decreases |m|
  {
    var p := Pick(m);
    if p != k {
      TotalRemove(m - {p}, k);
      TotalRemove(m - {k}, p);
      assert m - {p} - {k} == m - {k} - {p};
    }
  }

  /** Writing one key moves the sum by the difference of that key's values. */
  lemma TotalUpdate<K>(m: map<K, int>, k: K, v: int)
    ensures Total(m[k := v]) == Total(m) - (if k in m then m[k] else 0) + v
  {
    var n := m[k := v];
    TotalRemove(n, k);
    assert n - {k} == m - {k};
    if k in m {
      TotalRemove(m, k);
    } else {
      assert m - {k} == m;
    }
  }

  /** A ledger without debts is worth at least any one of its items. */
  lemma {:induction false} TotalAtLeast<K>(m: map<K, int>)
    requires forall k :: k in m ==> 0 <= m[k]
    ensures 0 <= Total(m)
    ensures forall k :: k in m ==> m[k] <= Total(m)
    decreases |m|
  {
    if |m| != 0 {
      forall k | k in m
        ensures m[k] <= Total(m)
      {
        TotalRemove(m, k);
        TotalAtLeast(m - {k});
      }
      var k :| k in m;
      assert 0 <= m[k] <= Total(m);
    }
  }

  lemma {:induction false} AllZero<K>(m: map<K, int>)
    requires forall k :: k in m ==> m[k] == 0
    ensures Total(m) == 0
    decreases |m|
  {
    if |m| != 0 {
      AllZero(m - {Pick(m)});
    }
  }
}
