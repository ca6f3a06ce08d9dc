/**
 * Sums of the counts held in a finite map. `Sum` is the specification (any
 * order of summation); `Accumulate` is the fold the model runs over a
 * successor map, visiting the characters in ascending order as a `std::map`
 * iteration does.
 */
module Sums {

  /** The sum of all values of `m`. */
  ghost function Sum<K>(m: map<K, nat>): nat
    decreases |m|
  {
    if m == map[] then 0
    else
      var x :| x in m;
      assert |m - {x}| < |m| by { assert (m - {x}).Keys == m.Keys - {x}; }
      m[x] + Sum(m - {x})
  }

  /** Any key may be taken out first: the sum does not depend on the order. */
  lemma {:induction false} SumRemove<K>(m: map<K, nat>, y: K)
    requires y in m
    ensures Sum(m) == m[y] + Sum(m - {y})
    decreases |m|
  {
    var x :| x in m && Sum(m) == m[x] + Sum(m - {x});
    if x != y {
      assert (m - {x}).Keys == m.Keys - {x};
      assert (m - {y}).Keys == m.Keys - {y};
      SumRemove(m - {x}, y);
      SumRemove(m - {y}, x);
      assert m - {x} - {y} == m - {y} - {x};
    }
  }

  /** Setting one entry changes the sum by the difference of old and new value. */
  lemma SumUpdate<K>(m: map<K, nat>, x: K, v: nat)
    ensures Sum(m[x := v]) + (if x in m then m[x] else 0) == Sum(m) + v
  {
    SumRemove(m[x := v], x);
    if x in m {
      SumRemove(m, x);
      assert m[x := v] - {x} == m - {x};
    } else {
      assert m[x := v] - {x} == m;
    }
  }

  /** No single value exceeds the sum. */
  lemma SumAtLeastEntry<K>(m: map<K, nat>, x: K)
    requires x in m
    ensures m[x] <= Sum(m)
  {
    SumRemove(m, x);
  }

  /** Every non-empty set of characters has a least element. */
  lemma {:induction false} MinCharExists(s: set<char>)
    requires s != {}
    ensures exists c :: c in s && forall d :: d in s ==> c <= d
  {
    var x :| x in s;
    if s != {x} {
      MinCharExists(s - {x});
      var y :| y in s - {x} && forall d :: d in s - {x} ==> y <= d;
      var m := if x < y then x else y;
      forall d | d in s ensures m <= d {
        if d != x { assert d in s - {x}; }
      }
      assert m in s;
    } else {
      assert forall d :: d in s ==> x <= d;
    }
  }

  /**
   * The fold `std::accumulate` performs over a successor map: add up the
   * counts, smallest character first. Its result is the order-free sum.
   */
  function Accumulate(row: map<char, nat>): (total: nat)
    ensures total == Sum(row)
    decreases |row|
  {
    if row == map[] then 0
    else
      MinCharExists(row.Keys);
      var c :| c in row && forall d :: d in row ==> c <= d;
      assert |row - {c}| < |row| by { assert (row - {c}).Keys == row.Keys - {c}; }
      SumRemove(row, c);
      row[c] + Accumulate(row - {c})
  }
}
