/** Sums over sequences and over the values of maps. */
module Sums {

  function Sum(a: seq<int>): int {
    if a == [] then 0 else Sum(a[..|a| - 1]) + a[|a| - 1]
  }

  lemma {:induction false} SumUpdate(a: seq<int>, s: nat, x: int)
    requires s < |a|
    ensures Sum(a[s := x]) == Sum(a) - a[s] + x
  {
    var n := |a| - 1;
    if s == n {
      assert a[s := x][..n] == a[..n];
    } else {
      assert a[s := x][..n] == a[..n][s := x];
      SumUpdate(a[..n], s, x);
    }
  }

  lemma {:induction false} SumOfZeros(a: seq<int>)
    requires forall s :: 0 <= s < |a| ==> a[s] == 0
    ensures Sum(a) == 0
  {
    if a != [] { SumOfZeros(a[..|a| - 1]); }
  }

  function Product(a: seq<int>): int {
    if a == [] then 1 else Product(a[..|a| - 1]) * a[|a| - 1]
  }

  ghost function SomeKey<K>(m: map<K, int>): (k: K)
    requires m != map[]
    ensures k in m
  {
    var k :| k in m;
    k
  }

  ghost function Total(m: map<int, int>): int {
    if m == map[] then 0 else m[SomeKey(m)] + Total(m - {SomeKey(m)})
  }

  /** The order of summation does not matter. */
  lemma {:induction false} TotalWithout(m: map<int, int>, k: int)
    requires k in m
    ensures Total(m) == m[k] + Total(m - {k})
    decreases |m|
  {
    var l := SomeKey(m);
    if l != k {
      TotalWithout(m - {l}, k);
      TotalWithout(m - {k}, l);
      assert m - {l} - {k} == m - {k} - {l};
    }
  }

  lemma TotalWith(m: map<int, int>, k: int, x: int)
    requires k !in m
    ensures Total(m[k := x]) == Total(m) + x
  {
    TotalWithout(m[k := x], k);
    assert m[k := x] - {k} == m;
  }

  lemma TotalUpdate(m: map<int, int>, k: int, x: int)
    requires k in m
    ensures Total(m[k := x]) == Total(m) - m[k] + x
  {
    TotalWithout(m, k);
    TotalWithout(m[k := x], k);
    assert m[k := x] - {k} == m - {k};
  }

  lemma {:induction false} TotalAtLeast(m: map<int, int>, k: int)
    requires forall j :: j in m ==> m[j] >= 0
    ensures Total(m) >= 0 && (k in m ==> Total(m) >= m[k])
    decreases |m|
  {
    if m != map[] {
      var l := SomeKey(m);
      TotalAtLeast(m - {l}, k);
    }
  }

  lemma {:induction false} TotalOrder(m: map<int, int>, n: map<int, int>)
    requires m.Keys == n.Keys && forall j :: j in m ==> m[j] <= n[j]
    ensures Total(m) <= Total(n)
    decreases |m|
  {
    if m == map[] {
      assert n == map[];
    } else {
      var l := SomeKey(m);
      TotalWithout(n, l);
      TotalOrder(m - {l}, n - {l});
    }
  }
}
