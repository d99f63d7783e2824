/** Sums over the values of a finite map: the model of Python's `sum(... for k in keys)`
    over a set, whose result does not depend on the order the set is visited in. */
module Sums {

  /** The sum of the values of `m`, taken in an unspecified key order. */
  ghost function SumValues<K>(m: map<K, int>): int
    decreases |m.Keys|
  {
    if m.Keys == {} then 0
    else
      var k :| k in m.Keys;
      m[k] + SumValues(m - {k})
  }

  /** Any key can be taken out first: the sum does not depend on the visiting order. */
  lemma {:induction false} SumValuesRemove<K>(m: map<K, int>, k: K)
    requires k in m
    ensures SumValues(m) == m[k] + SumValues(m - {k})
    decreases |m.Keys|
  {
    var j :| j in m.Keys && SumValues(m) == m[j] + SumValues(m - {j});
    if j != k {
      var mj := m - {j};
      var mk := m - {k};
      assert mj.Keys == m.Keys - {j} && |mj.Keys| < |m.Keys|;
      assert mk.Keys == m.Keys - {k} && |mk.Keys| < |m.Keys|;
      assert k in mj && mj[k] == m[k];
      assert j in mk && mk[j] == m[j];
      SumValuesRemove(mj, k);
      SumValuesRemove(mk, j);
      assert mj - {k} == mk - {j};
    }
  }

  /** Changing or adding one entry changes the sum by the difference. */
  lemma SumValuesUpdate<K>(m: map<K, int>, k: K, v: int)
    ensures SumValues(m[k := v]) == SumValues(m) - (if k in m then m[k] else 0) + v
  {
    SumValuesRemove(m[k := v], k);
    assert m[k := v] - {k} == m - {k};
    if k in m {
      SumValuesRemove(m, k);
    } else {
      assert m - {k} == m;
    }
  }

  /** A map that extends `m` by one new key sums to the old sum plus the new value. */
  lemma SumValuesExtend<K>(m: map<K, int>, m': map<K, int>, k: K)
    requires k !in m && k in m'
    requires forall j :: j in m' <==> j in m || j == k
    requires forall j :: j in m ==> m'[j] == m[j]
    ensures SumValues(m') == SumValues(m) + m'[k]
  {
    assert m' == m[k := m'[k]];
    SumValuesUpdate(m, k, m'[k]);
  }

  lemma {:induction false} SumValuesNonNegative<K>(m: map<K, int>)
    requires forall k :: k in m ==> m[k] >= 0
    ensures SumValues(m) >= 0
    decreases |m.Keys|
  {
    if m.Keys != {} {
      var k :| k in m.Keys;
      assert (m - {k}).Keys == m.Keys - {k};
      SumValuesRemove(m, k);
      SumValuesNonNegative(m - {k});
    }
  }

  lemma {:induction false} SumValuesZero<K>(m: map<K, int>)
    requires forall k :: k in m ==> m[k] == 0
    ensures SumValues(m) == 0
    decreases |m.Keys|
  {
    if m.Keys != {} {
      var k :| k in m.Keys;
      assert (m - {k}).Keys == m.Keys - {k};
      SumValuesRemove(m, k);
      SumValuesZero(m - {k});
    }
  }

  /** A sum of non-negative values is positive as soon as one value is. */
  lemma SumValuesPositive<K>(m: map<K, int>, k: K)
    requires forall j :: j in m ==> m[j] >= 0
    requires k in m && m[k] > 0
    ensures SumValues(m) > 0
  {
    SumValuesRemove(m, k);
    SumValuesNonNegative(m - {k});
  }

  /** A sum of values each at most `b` is at most `b` times the number of keys. */
  lemma {:induction false} SumValuesAtMost<K>(m: map<K, int>, b: int)
    requires forall k :: k in m ==> m[k] <= b
    ensures SumValues(m) <= b * |m.Keys|
    decreases |m.Keys|
  {
    if m.Keys != {} {
      var k :| k in m.Keys;
      var rest := m - {k};
      assert rest.Keys == m.Keys - {k};
      assert |rest.Keys| == |m.Keys| - 1;
      SumValuesRemove(m, k);
      SumValuesAtMost(rest, b);
      MulSucc(b, |rest.Keys|);
    }
  }

  lemma MulSucc(b: int, n: nat)
    ensures b * (n + 1) == b * n + b
  {
  }

  /** The smallest element of a non-empty finite set of integers. */
  function MinOf(s: set<int>): (m: int)
    requires s != {}
    ensures m in s && forall y :: y in s ==> m <= y
  {
    MinExists(s);
    var m :| m in s && forall y :: y in s ==> m <= y;
    m
  }

  /** A non-empty set has an element to choose. */
  lemma NonEmptyHasElement(s: set<int>)
    requires s != {}
    ensures exists x :: x in s
  {
    if forall x :: x !in s {
      assert false;
    }
  }

  lemma {:induction false} MinExists(s: set<int>)
    requires s != {}
    ensures exists m :: m in s && forall y :: y in s ==> m <= y
    decreases |s|
  {
    NonEmptyHasElement(s);
    var x :| x in s;
    var t := s - {x};
    if t == {} {
      forall y | y in s ensures x <= y {
        assert y == x || y in t;
      }
    } else {
      MinExists(t);
      var m :| m in t && forall y :: y in t ==> m <= y;
      var w := if x < m then x else m;
      forall y | y in s ensures w <= y {
        if y != x { assert y in t; }
      }
      assert w in s;
    }
  }

  /** An executable sum over integer keys, visiting them in increasing order; it agrees
      with `SumValues`, so the order does not matter. */
  function SumInts(m: map<int, int>): (r: int)
    ensures r == SumValues(m)
    decreases |m.Keys|
  {
    if m.Keys == {} then 0
    else
      var k := MinOf(m.Keys);
      assert (m - {k}).Keys == m.Keys - {k};
      SumValuesRemove(m, k);
      m[k] + SumInts(m - {k})
  }
}
