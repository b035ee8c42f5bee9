/** Sums over finite maps, and walking a map entry by entry. */
module Sums {

  ghost function Sum<K(!new)>(m: map<K, nat>): nat {
    if m == map[] then 0
    else
      var k :| k in m;
      m[k] + Sum(m - {k})
  }

  lemma {:induction false} SumRemove<K(!new)>(m: map<K, nat>, k: K)
    requires k in m
    ensures Sum(m) == m[k] + Sum(m - {k})
    decreases |m|
  {
    var j :| j in m && Sum(m) == m[j] + Sum(m - {j});
    if j != k {
      SumRemove(m - {j}, k);
      SumRemove(m - {k}, j);
      assert m - {j} - {k} == m - {k} - {j};
    }
  }

  lemma SumPut<K(!new)>(m: map<K, nat>, k: K, v: nat)
    ensures Sum(m[k := v]) + (if k in m then m[k] else 0) == Sum(m) + v
  {
    SumRemove(m[k := v], k);
    assert m[k := v] - {k} == m - {k};
    if k in m { SumRemove(m, k); } else { assert m - {k} == m; }
  }

  lemma SumDrop<K(!new)>(m: map<K, nat>, k: K)
    ensures Sum(m - {k}) + (if k in m then m[k] else 0) == Sum(m)
  {
    if k in m { SumRemove(m, k); } else { assert m - {k} == m; }
  }

  lemma SumAtLeast<K(!new)>(m: map<K, nat>, k: K)
    requires k in m
    ensures m[k] <= Sum(m)
  {
    SumRemove(m, k);
  }

  lemma {:induction false} SumPositive<K(!new)>(m: map<K, nat>)
    requires Sum(m) > 0
    ensures exists k | k in m :: m[k] > 0
    decreases |m|
  {
    var k :| k in m;
    SumRemove(m, k);
    if m[k] == 0 {
      SumPositive(m - {k});
    }
  }

  /** Moving one entry from what is left to what has been seen. */
  lemma MoveEntry<K, V>(seen: map<K, V>, rest: map<K, V>, key: K)
    requires key in rest && key !in seen
    ensures seen + rest == seen[key := rest[key]] + (rest - {key})
    ensures seen + rest - {key} == seen + (rest - {key})
  {
  }
}
