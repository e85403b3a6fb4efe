/** Counting the integers of an interval. */
module Intervals {

  predicate Within(lo: int, hi: int, t: int) {
    lo <= t < hi
  }

  lemma {:induction false} IntervalSize(lo: int, hi: int)
    requires lo <= hi
    ensures |set t | lo <= t < hi && Within(lo, hi, t)| == hi - lo
    decreases hi - lo
  {
    var last := hi - 1;
    if lo < hi {
      IntervalSize(lo, last);
      assert (set t | lo <= t < hi && Within(lo, hi, t)) == (set t | lo <= t < last && Within(lo, last, t)) + {last};
    }
  }

  // x lies between lo and hi, and is the r-th step of some round of p steps from lo on.
  predicate Stepped(lo: int, hi: int, p: nat, r: int, x: int)
    requires p > 0
  {
    lo <= x < hi && (x - lo) % p == r
  }

  lemma {:induction false} StepCount(lo: int, hi: int, p: nat, r: nat)
    requires r < p && lo <= hi
    ensures |set x | lo <= x < hi && Stepped(lo, hi, p, r, x)| == Share(hi - lo, p, r)
    decreases hi - lo
  {
    var all := set x | lo <= x < hi && Stepped(lo, hi, p, r, x);
    if lo == hi {
      assert all == {};
    } else {
      var last := hi - 1;
      StepCount(lo, last, p, r);
      StepMore(lo, last, p, r);
      ShareMore(last - lo, p, r);
    }
  }

  // The r-th of p parts of n.
  function Share(n: nat, p: nat, r: nat): nat
    requires p > 0
  {
    n / p + if r < n % p then 1 else 0
  }

  lemma ShareMore(n: nat, p: nat, r: nat)
    requires r < p
    ensures Share(n + 1, p, r) == Share(n, p, r) + if n % p == r then 1 else 0
  {
    NextQuotient(n, p);
  }

  lemma StepMore(lo: int, last: int, p: nat, r: nat)
    requires r < p && lo <= last
    ensures var hi := last + 1;
            |set x | lo <= x < hi && Stepped(lo, hi, p, r, x)| ==
            |set x | lo <= x < last && Stepped(lo, last, p, r, x)| + if (last - lo) % p == r then 1 else 0
  {
    var hi := last + 1;
    var all := set x | lo <= x < hi && Stepped(lo, hi, p, r, x);
    var most := set x | lo <= x < last && Stepped(lo, last, p, r, x);
    if (last - lo) % p == r {
      assert all == most + {last};
    } else {
      assert all == most;
    }
  }

  lemma NextQuotient(n: nat, p: nat)
    requires p > 0
    ensures n % p + 1 < p ==> (n + 1) / p == n / p && (n + 1) % p == n % p + 1
    ensures n % p + 1 == p ==> (n + 1) / p == n / p + 1 && (n + 1) % p == 0
  {
    var q, r := n / p, n % p;
    if r + 1 < p {
      QuotientIs(n + 1, p, q, r + 1);
    } else {
      assert p * (q + 1) == p * q + p;
      QuotientIs(n + 1, p, q + 1, 0);
    }
  }

  lemma QuotientIs(n: nat, d: nat, q: nat, r: nat)
    requires d > 0 && n == d * q + r && r < d
    ensures n / d == q && n % d == r
  {
    if n / d < q { MulStep(d, n / d, q); }
    if n / d > q { MulStep(d, q, n / d); }
  }

  lemma MulStep(d: nat, p: nat, q: nat)
    requires p < q
    ensures d * p + d <= d * q
  {
    var k := q - p - 1;
    assert d * k >= 0;
    assert d * q == d * (p + 1 + k) == d * p + d + d * k;
  }
}
