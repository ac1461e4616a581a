/** Sums over finite maps, in an order nobody can observe.

    The recursion takes any key; `TakeAny` shows that the choice does not matter, and with it a write to
    one entry moves the sum by the difference of the two values, which is all that the stores' invariants
    need. */
module Sums {

  ghost function Sum<K>(m: map<K, int>): int
    decreases |m|
  {
    if m == map[] then 0 else
      var k :| k in m;
      m[k] + Sum(m - {k})
  }

  lemma OfNone<K>(m: map<K, int>)
    ensures m.Keys == {} ==> Sum(m) == 0
  {
    assert m.Keys == {} ==> m == map[];
  }

  /** The sum does not depend on which key is taken first. */
  lemma {:induction false} TakeAny<K>(m: map<K, int>, k: K)
    requires k in m
    ensures Sum(m) == m[k] + Sum(m - {k})
    decreases |m|
  {
    var c :| c in m && Sum(m) == m[c] + Sum(m - {c});
    if c != k {
      TakeAny(m - {c}, k);
      TakeAny(m - {k}, c);
      assert m - {c} - {k} == m - {k} - {c};
    }
  }

  /** Writing one entry moves the sum by the difference. */
  lemma Write<K>(m: map<K, int>, k: K, v: int)
    ensures Sum(m[k := v]) == Sum(m) + v - (if k in m then m[k] else 0)
  {
    TakeAny(m[k := v], k);
    assert m[k := v] - {k} == m - {k};
    if k in m {
      TakeAny(m, k);
    } else {
      assert m - {k} == m;
    }
  }

  /** A sum of non-negative entries bounds each of them. */
  lemma {:induction false} Bounds<K>(m: map<K, int>, k: K)
    requires k in m
    requires forall x :: x in m ==> m[x] >= 0
    ensures 0 <= m[k] <= Sum(m)
    decreases |m|
  {
    TakeAny(m, k);
    NonNegative(m - {k});
  }

  lemma {:induction false} NonNegative<K>(m: map<K, int>)
    requires forall x :: x in m ==> m[x] >= 0
    ensures Sum(m) >= 0
    decreases |m|
  {
    if m != map[] {
      var c :| c in m && Sum(m) == m[c] + Sum(m - {c});
      NonNegative(m - {c});
    }
  }
}
