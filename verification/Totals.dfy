/** Sums of the values of a map. */
module Totals {

  ghost function Total<T(!new)>(m: map<T, nat>): nat
    decreases |m|
  {
    if m == map[] then 0
    else
      var x :| x in m;
      m[x] + Total(m - {x})
  }

  lemma {:induction false} TotalSplit<T(!new)>(m: map<T, nat>, x: T)
    requires x in m
    ensures Total(m) == m[x] + Total(m - {x})
    decreases |m|
  {
    var y :| y in m && Total(m) == m[y] + Total(m - {y});
    if x != y {
      TotalSplit(m - {y}, x);
      TotalSplit(m - {x}, y);
      assert m - {y} - {x} == m - {x} - {y};
    }
  }

  lemma {:induction false} TotalAtMost<T(!new)>(m: map<T, nat>, n: map<T, nat>)
    requires m.Keys == n.Keys && forall x :: x in m ==> m[x] <= n[x]
    ensures Total(m) <= Total(n)
    decreases |m|
  {
    if x :| x in m {
      TotalSplit(m, x);
      TotalSplit(n, x);
      TotalAtMost(m - {x}, n - {x});
    }
  }

  /** Changing one value changes the sum by as much. */
  lemma TotalChange<T(!new)>(m: map<T, nat>, x: T, v: nat)
    requires x in m
    ensures Total(m[x := v]) == Total(m) - m[x] + v
  {
    TotalSplit(m, x);
    TotalSplit(m[x := v], x);
    assert m[x := v] - {x} == m - {x};
  }

  lemma {:induction false} TotalConstant<T(!new)>(m: map<T, nat>, k: nat)
    requires forall x :: x in m ==> m[x] == k
    ensures Total(m) == |m| * k
    decreases |m|
  {
    if x :| x in m {
      TotalSplit(m, x);
      TotalConstant(m - {x}, k);
      assert |m - {x}| == |m| - 1;
    }
  }

  /** A smaller sum is smaller somewhere. */
  lemma SmallerSomewhere<T(!new)>(m: map<T, nat>, n: map<T, nat>) returns (x: T)
    requires m.Keys == n.Keys && Total(m) < Total(n)
    ensures x in m && m[x] < n[x]
  {
    if forall y :: y in m ==> n[y] <= m[y] {
      TotalAtMost(n, m);
      assert false;
    }
    x :| x in m && m[x] < n[x];
  }
}
