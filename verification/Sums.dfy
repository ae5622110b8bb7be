/** Products, finite sums and counts, shared by the other modules. */
module Sums {

  function Times(x: real, y: real): real {
    x * y
  }

  function Square(x: real): real {
    x * x
  }

  lemma Distribute(k: real, x: real, y: real)
    ensures Times(k, x + y) == Times(k, x) + Times(k, y)
  {
  }

  lemma TimesNonNegative(x: real, y: real)
    requires x >= 0.0 && y >= 0.0
    ensures Times(x, y) >= 0.0
  {
  }

  lemma SquareOfDifference(x: real, y: real)
    ensures Square(x - y) == Square(x) - 2.0 * Times(y, x) + Square(y)
  {
  }

  lemma SquareZero(x: real)
    ensures Square(x) >= 0.0
    ensures Square(x) == 0.0 <==> x == 0.0
  {
    if x != 0.0 {
      assert (1.0 / x) * (1.0 / x) * (x * x) == 1.0;
    }
  }

  /** Sum of a sequence, last element outermost (the order in which a loop accumulates it). */
  function Sum(s: seq<real>): real {
    if s == [] then 0.0 else Sum(s[..|s| - 1]) + s[|s| - 1]
  }

  lemma SumSnoc(s: seq<real>, x: real)
    ensures Sum(s + [x]) == Sum(s) + x
  {
    assert (s + [x])[..|s|] == s;
  }

  /** Sum of the first m elements. */
  function SumTo(s: seq<real>, m: nat): real
    requires m <= |s|
  {
    if m == 0 then 0.0 else SumTo(s, m - 1) + s[m - 1]
  }

  /** Sum of the values of a finite map; the order in which keys are taken does not matter (SumRemove). */
  ghost function SumVals<K(!new)>(m: map<K, real>): real
    decreases |m|
  {
    if m == map[] then 0.0
    else
      var k :| k in m;
      m[k] + SumVals(m - {k})
  }

  lemma {:induction false} SumRemove<K(!new)>(m: map<K, real>, k: K)
    requires k in m
    ensures SumVals(m) == m[k] + SumVals(m - {k})
    decreases |m|
  {
    var j :| j in m && SumVals(m) == m[j] + SumVals(m - {j});
    if j != k {
      SumRemove(m - {j}, k);
      SumRemove(m - {k}, j);
      assert m - {j} - {k} == m - {k} - {j};
    }
  }

  lemma SumAdd<K(!new)>(m: map<K, real>, k: K, x: real)
    requires k !in m
    ensures SumVals(m[k := x]) == SumVals(m) + x
  {
    SumRemove(m[k := x], k);
    assert m[k := x] - {k} == m;
  }

  lemma {:induction false} SumValsNonNegative<K(!new)>(m: map<K, real>)
    requires forall k :: k in m ==> m[k] >= 0.0
    ensures SumVals(m) >= 0.0
    decreases |m|
  {
    if m != map[] {
      var k :| k in m;
      SumRemove(m, k);
      SumValsNonNegative(m - {k});
    }
  }

  /** Number of occurrences of c in s. */
  function Count<T(==)>(s: seq<T>, c: T): nat {
    if s == [] then 0 else Count(s[..|s| - 1], c) + (if s[|s| - 1] == c then 1 else 0)
  }

  lemma CountSnoc<T>(s: seq<T>, x: T, c: T)
    ensures Count(s + [x], c) == Count(s, c) + (if x == c then 1 else 0)
  {
    assert (s + [x])[..|s|] == s;
  }

  lemma {:induction false} CountUpdate<T>(s: seq<T>, i: nat, x: T, c: T)
    requires i < |s|
    ensures Count(s[i := x], c) == Count(s, c) - (if s[i] == c then 1 else 0) + (if x == c then 1 else 0)
  {
    var n := |s| - 1;
    if i == n {
      assert s[i := x][..n] == s[..n];
    } else {
      CountUpdate(s[..n], i, x, c);
      assert s[i := x][..n] == s[..n][i := x];
    }
  }

  lemma {:induction false} CountPositive<T>(s: seq<T>, c: T)
    ensures Count(s, c) > 0 <==> c in s
  {
    if s != [] {
      CountPositive(s[..|s| - 1], c);
      assert s == s[..|s| - 1] + [s[|s| - 1]];
    }
  }
}
