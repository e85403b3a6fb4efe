/** Which levels a new barrier tree can be built from without leaving its arrays,
    told from the levels alone. */
module HierarchyFit {
  import opened Intervals
  import opened Sums
  import opened TreeLevels

  function Shift(x: nat, d: nat): nat {
    if d == 0 then x else Shift(x, d - 1) / 2
  }

  // The branching factor when level d is reached. It is larger than four only where the
  // first level has one node, and halves from level to level.
  function BranchAt(levels: seq<int>, numAddrs: nat, d: nat): (branch: nat)
    requires levels != []
    ensures branch >= MIN_BRANCH
  {
    if levels[0] == 1 && Shift(numAddrs / MAX_LEAVES, d) > MIN_BRANCH then Shift(numAddrs / MAX_LEAVES, d) else MIN_BRANCH
  }

  function LimitAt(levels: seq<int>, numAddrs: nat, d: nat): (limit: nat)
    requires levels != []
    ensures limit >= MIN_BRANCH
  {
    Limit(d, BranchAt(levels, numAddrs, d))
  }

  // How often v can be doubled within the limit.
  function Room(v: int, limit: nat): nat
    requires v > 0
    decreases limit - v
  {
    if 2 * v > limit then 0 else 1 + Room(2 * v, limit)
  }

  // How often v must be halved to come within the limit, or minus how often it can be doubled.
  function Excess(v: int, limit: nat): int
    requires v > 0 && limit > 0
  {
    var room: int := Room(v, limit);
    if v > limit then Halvings(v, limit) else -room
  }

  predicate Positive(levels: seq<int>) {
    levels != [] && forall i :: 0 <= i < |levels| ==> levels[i] > 0
  }

  // The excess of the levels from i on and below d.
  function ExcessSum(levels: seq<int>, numAddrs: nat, i: nat, d: nat): int
    requires Positive(levels) && i <= d <= |levels|
  {
    if i == d then 0 else ExcessSum(levels, numAddrs, i, d - 1) + Excess(levels[d - 1], LimitAt(levels, numAddrs, d - 1))
  }

  // Level d will be halved: it, or it and some levels just below it, have too many nodes together.
  predicate Crowded(levels: seq<int>, numAddrs: nat, d: nat)
    requires Positive(levels) && d < |levels|
  {
    var e := d + 1;
    exists i :: 0 <= i <= d && ExcessSum(levels, numAddrs, i, e) > 0
  }

  // The levels from d on whose halving puts nodes on a level that has had one.
  function Risers(levels: seq<int>, numAddrs: nat, d: nat): nat
    requires Positive(levels) && d < |levels|
    decreases |levels| - d
  {
    if d + 1 == |levels| then 0
    else (if levels[d + 1] == 1 && Crowded(levels, numAddrs, d) then 1 else 0) + Risers(levels, numAddrs, d + 1)
  }

  // ---------- what arrives at a level from below ----------

  // How often level d has been doubled when its turn comes.
  function Carry(levels: seq<int>, numAddrs: nat, d: nat): nat
    requires Positive(levels) && d <= |levels|
  {
    if d == 0 then 0 else
      var x := Carry(levels, numAddrs, d - 1) + Excess(levels[d - 1], LimitAt(levels, numAddrs, d - 1));
      if x < 0 then 0 else x
  }

  lemma {:induction false} CarryAtLeast(levels: seq<int>, numAddrs: nat, i: nat, d: nat)
    requires Positive(levels) && i <= d <= |levels|
    ensures Carry(levels, numAddrs, d) >= ExcessSum(levels, numAddrs, i, d)
  {
    if i < d { CarryAtLeast(levels, numAddrs, i, d - 1); }
  }

  lemma {:induction false} CarryFrom(levels: seq<int>, numAddrs: nat, d: nat) returns (i: nat)
    requires Positive(levels) && d <= |levels|
    ensures i <= d && Carry(levels, numAddrs, d) == ExcessSum(levels, numAddrs, i, d)
  {
    if Carry(levels, numAddrs, d) == 0 {
      i := d;
    } else {
      i := CarryFrom(levels, numAddrs, d - 1);
    }
  }

  lemma CrowdedCarries(levels: seq<int>, numAddrs: nat, d: nat)
    requires Positive(levels) && d < |levels|
    ensures Crowded(levels, numAddrs, d) <==> Carry(levels, numAddrs, d + 1) > 0
  {
    var e := d + 1;
    var i := CarryFrom(levels, numAddrs, e);
    if j: nat :| j <= d && ExcessSum(levels, numAddrs, j, e) > 0 { CarryAtLeast(levels, numAddrs, j, e); }
  }

  // Doublings before a level is halved: each makes for one more halving, once its room is used up.
  lemma {:induction false} HalvingsDoubled(v: int, limit: nat, k: nat)
    requires v > 0 && limit > 0
    ensures Halvings(v * Pow2(k), limit) == var x := k + Excess(v, limit); if x < 0 then 0 else x
    decreases k
  {
    if k == 0 {
      assert v * Pow2(0) == v;
    } else {
      HalvingsDoubled(2 * v, limit, k - 1);
      DoubleFirst(v, k);
      assert (2 * v + 1) / 2 == v;
      assert Excess(2 * v, limit) == Excess(v, limit) + 1;
    }
  }

  lemma {:induction false} HalvingsAtMost(v: int, limit: nat, k: nat)
    requires limit > 0
    ensures Halvings(v, limit) <= k <==> v <= limit * Pow2(k)
    decreases k
  {
    if v <= limit {
      Grows(limit, k);
    } else if k == 0 {
      assert limit * Pow2(0) == limit;
    } else {
      HalvingsAtMost((v + 1) / 2, limit, k - 1);
      DoubleFirst(limit, k);
      TwiceRound(v, limit * Pow2(k - 1));
      assert 2 * limit * Pow2(k - 1) == 2 * (limit * Pow2(k - 1)) by { Twice(limit, Pow2(k - 1)); }
    }
  }

  lemma TwiceRound(v: int, x: int)
    ensures (v + 1) / 2 <= x <==> v <= 2 * x
  {
  }

  /** The excess is the logarithm of v over the limit, rounded up: the least e
      with v no more than the limit times 2 to the power e. */
  lemma ExcessIs(v: int, limit: nat, k: nat)
    requires v > 0 && limit > 0
    ensures Excess(v, limit) <= k <==> v <= limit * Pow2(k)
    ensures Excess(v, limit) + k <= 0 <==> v * Pow2(k) <= limit
  {
    HalvingsAtMost(v, limit, k);
    HalvingsDoubled(v, limit, k);
    if v <= limit { Grows(limit, k); }
  }

  lemma Grows(x: nat, k: nat)
    ensures x * Pow2(k) >= x
  {
  }

  lemma DoubleFirst(v: int, k: nat)
    requires k > 0
    ensures v * Pow2(k) == 2 * v * Pow2(k - 1)
  {
    assert Pow2(k) == 2 * Pow2(k - 1);
    Twice(v, Pow2(k - 1));
  }

  lemma Twice(v: int, x: int)
    ensures v * (2 * x) == 2 * v * x
  {
  }

  // ---------- the loop ----------

  // The levels when the turn of level d comes.
  ghost predicate Reached(levels: seq<int>, numAddrs: nat, now: seq<int>, d: nat, depth: nat)
    requires Positive(levels) && d < |levels|
  {
    && |now| == |levels| && now[d] == levels[d] * Pow2(Carry(levels, numAddrs, d))
    && (forall j :: d < j < |levels| ==> now[j] == levels[j])
    && (forall j :: 0 < depth <= j + 1 && d <= j < |levels| ==> now[j] == 1)
    && (now[0] == 1 <==> levels[0] == 1)
  }

  lemma LevelHalved(levels: seq<int>, numAddrs: nat, now: seq<int>, d: nat, depth: nat)
    requires Positive(levels) && d + 1 < |levels| && Reached(levels, numAddrs, now, d, depth)
    ensures Halvings(now[d], LimitAt(levels, numAddrs, d)) == Carry(levels, numAddrs, d + 1)
    ensures now[d] > LimitAt(levels, numAddrs, d) <==> Crowded(levels, numAddrs, d)
  {
    HalvingsDoubled(levels[d], LimitAt(levels, numAddrs, d), Carry(levels, numAddrs, d));
    CrowdedCarries(levels, numAddrs, d);
  }

  lemma HalvedStaysAbove(v: int, limit: nat)
    requires v > 0 && limit >= 4
    ensures Halved(v, limit) == 1 <==> v == 1
  {
    if v > limit { HalvedStaysAbove((v + 1) / 2, limit); }
  }

  lemma BranchNext(levels: seq<int>, numAddrs: nat, now: seq<int>, d: nat)
    requires levels != [] && now != [] && (now[0] == 1 <==> levels[0] == 1)
    ensures NextBranch(now, BranchAt(levels, numAddrs, d)) == BranchAt(levels, numAddrs, d + 1)
  {
  }

  lemma PowOne(v: int, k: nat)
    requires v > 0
    ensures v * Pow2(k) == 1 ==> v == 1 && k == 0
  {
    if k > 0 {
      DoubleFirst(v, k);
      var x := v * Pow2(k - 1);
      assert 2 * v * Pow2(k - 1) == 2 * x by { Twice(v, Pow2(k - 1)); }
    } else {
      assert Pow2(0) == 1;
    }
  }

  // Above the depth nothing is halved.
  lemma {:induction false} NoRisers(levels: seq<int>, numAddrs: nat, d: nat)
    requires Positive(levels) && d < |levels| && Carry(levels, numAddrs, d) == 0
    requires forall j :: d <= j < |levels| ==> levels[j] == 1
    ensures Risers(levels, numAddrs, d) == 0
    decreases |levels| - d
  {
    if d + 1 < |levels| {
      assert Excess(1, LimitAt(levels, numAddrs, d)) <= 0;
      CrowdedCarries(levels, numAddrs, d);
      NoRisers(levels, numAddrs, d + 1);
    }
  }

  lemma ReachedNext(levels: seq<int>, numAddrs: nat, now: seq<int>, d: nat, depth: nat)
    requires Positive(levels) && d + 1 < |levels| && d + 1 < depth && Reached(levels, numAddrs, now, d, depth)
    ensures var limit := LimitAt(levels, numAddrs, d);
            Reached(levels, numAddrs, Next(now, d, limit), d + 1, NextDepth(now, d, limit, depth))
  {
    var limit := LimitAt(levels, numAddrs, d);
    var next := Next(now, d, limit);
    LevelHalved(levels, numAddrs, now, d, depth);
    if d == 0 {
      assert now[0] == levels[0] by { assert Pow2(0) == 1; }
      HalvedStaysAbove(now[0], limit);
    }
    var k := Carry(levels, numAddrs, d + 1);
    assert next[d + 1] == levels[d + 1] * Pow2(k);
    if k == 0 { CrowdedCarries(levels, numAddrs, d); assert Pow2(0) == 1; }
  }

  lemma {:induction false} FitsFrom(levels: seq<int>, numAddrs: nat, now: seq<int>, d: nat, depth: nat)
    requires Positive(levels) && d < |levels| && 1 <= depth && Reached(levels, numAddrs, now, d, depth)
    ensures Fits(now, d, depth, BranchAt(levels, numAddrs, d)) <==> depth + Risers(levels, numAddrs, d) <= |levels|
    decreases |levels| - d
  {
    if d + 1 >= depth {
      PowOne(levels[d], Carry(levels, numAddrs, d));
      NoRisers(levels, numAddrs, d);
    } else if depth <= |levels| {
      var limit := LimitAt(levels, numAddrs, d);
      ReachedNext(levels, numAddrs, now, d, depth);
      LevelHalved(levels, numAddrs, now, d, depth);
      var next, deeper := Next(now, d, limit), NextDepth(now, d, limit, depth);
      FitsStep(now, d, depth, BranchAt(levels, numAddrs, d));
      BranchNext(levels, numAddrs, next, d);
      FitsFrom(levels, numAddrs, next, d + 1, deeper);
    }
  }

  /** The tree can be built exactly if the machine has no more levels than the
      arrays, and the depth it starts from, with one more for each level that is
      halved while the next one has a single node, is no more either. */
  lemma FitsExactly(machine: seq<int>, numAddrs: nat)
    requires (machine == [] ==> numAddrs > 0) && forall i :: 0 <= i < |machine| ==> machine[i] > 0
    ensures |machine| <= LEVELS ==> Positive(StartLevels(machine, numAddrs))
    ensures InitFits(machine, numAddrs) <==>
      && |machine| <= LEVELS
      && var levels := StartLevels(machine, numAddrs);
         DepthOf(levels) + Risers(levels, numAddrs, 0) <= LEVELS
  {
    if |machine| <= LEVELS {
      var levels := StartLevels(machine, numAddrs);
      var depth := DepthOf(levels);
      assert Pow2(0) == 1;
      OnesFrom(levels);
      FitsFrom(levels, numAddrs, levels, 0, depth);
      assert BranchAt(levels, numAddrs, 0) == StartBranch(levels, numAddrs);
    }
  }

  lemma {:induction false} OnesFrom(levels: seq<int>)
    ensures forall j :: DepthOf(levels) <= j + 1 && 0 <= j < |levels| ==> levels[j] == 1
  {
    if levels != [] && levels[|levels| - 1] == 1 {
      OnesFrom(levels[..|levels| - 1]);
    }
  }

  // ---------- the levels that the optimization leaves ----------

  // v divided by 2 to the power k, rounded up.
  function Ceil(v: int, k: nat): int {
    (v + Pow2(k) - 1) / Pow2(k)
  }

  lemma CeilIs(v: int, k: nat, q: int)
    ensures Ceil(v, k) == q <==> (q - 1) * Pow2(k) < v <= q * Pow2(k)
  {
    var p := Pow2(k);
    var c := Ceil(v, k);
    assert c * p <= v + p - 1 < (c + 1) * p;
    Apart(c, q, p, v);
  }

  // Only one multiple of p is the first that is not below v.
  lemma Apart(c: int, q: int, p: int, v: int)
    requires p > 0 && (c - 1) * p < v <= c * p
    ensures (q - 1) * p < v <= q * p ==> q == c
  {
    if q < c { Times(q, c - 1, p); }
    if c < q { Times(c, q - 1, p); }
  }

  lemma Times(x: int, y: int, p: int)
    requires x <= y && p > 0
    ensures x * p <= y * p
  {
  }

  // Rounding up twice is rounding up once.
  lemma CeilOfHalf(v: int, k: nat)
    ensures Ceil((v + 1) / 2, k) == Ceil(v, k + 1)
  {
    var q := Ceil((v + 1) / 2, k);
    CeilIs((v + 1) / 2, k, q);
    TwiceRound(v, q * Pow2(k));
    TwiceRound(v, (q - 1) * Pow2(k));
    DoubleFirst(q, k + 1);
    DoubleFirst(q - 1, k + 1);
    Twice(q, Pow2(k));
    CeilIs(v, k + 1, q);
  }

  lemma {:induction false} HalvedIs(v: int, limit: nat)
    requires limit > 0
    ensures Halved(v, limit) == Ceil(v, Halvings(v, limit))
  {
    if v > limit {
      HalvedIs((v + 1) / 2, limit);
      CeilOfHalf(v, Halvings((v + 1) / 2, limit));
    } else {
      assert Pow2(0) == 1;
    }
  }

  // Level d in the end: doubled as often as the levels below make for, then halved as often as it
  // makes for the one above, rounding up.
  function Final(levels: seq<int>, numAddrs: nat, d: nat): int
    requires Positive(levels) && d < |levels|
  {
    Ceil(levels[d] * Pow2(Carry(levels, numAddrs, d)), Carry(levels, numAddrs, d + 1))
  }

  // Levels of one node that nothing arrives at stay as they are.
  lemma {:induction false} OnesStay(levels: seq<int>, numAddrs: nat, d: nat, j: nat)
    requires Positive(levels) && d <= j < |levels| && Carry(levels, numAddrs, d) == 0
    requires forall i :: d <= i < |levels| ==> levels[i] == 1
    ensures Carry(levels, numAddrs, j + 1) == 0 && Carry(levels, numAddrs, j) == 0 && Final(levels, numAddrs, j) == 1
    decreases j
  {
    if d < j { OnesStay(levels, numAddrs, d, j - 1); }
    assert levels[j] == 1 && Excess(1, LimitAt(levels, numAddrs, j)) <= 0;
    assert Pow2(0) == 1 && Ceil(1, 0) == 1;
  }

  // What the rest of the optimization does, from level d on.
  ghost predicate Spreads(levels: seq<int>, numAddrs: nat, now: seq<int>, d: nat, last: seq<int>, depth: nat)
    requires Positive(levels)
  {
    && |last| == |levels| == |now|
    && (forall j {:trigger last[j]} :: 0 <= j < d <= |levels| ==> last[j] == now[j])
    && (forall j {:trigger last[j]} :: d <= j < |levels| ==> last[j] == Final(levels, numAddrs, j))
    && (forall j {:trigger last[j]} :: d <= j < |levels| && j + 1 < depth ==> last[j] <= LimitAt(levels, numAddrs, j))
  }
  lemma LevelDone(levels: seq<int>, numAddrs: nat, now: seq<int>, d: nat, depth: nat)
    requires Positive(levels) && d + 1 < |levels| && Reached(levels, numAddrs, now, d, depth)
    ensures var limit := LimitAt(levels, numAddrs, d);
            Next(now, d, limit)[d] == Final(levels, numAddrs, d) <= limit && forall j :: 0 <= j < d ==> Next(now, d, limit)[j] == now[j]
  {
    LevelHalved(levels, numAddrs, now, d, depth);
    HalvedIs(now[d], LimitAt(levels, numAddrs, d));
  }

  lemma {:induction false} SpreadIs(levels: seq<int>, numAddrs: nat, now: seq<int>, d: nat, depth: nat)
    requires Positive(levels) && d < |levels| && 1 <= depth && Reached(levels, numAddrs, now, d, depth)
    requires Fits(now, d, depth, BranchAt(levels, numAddrs, d))
    ensures var (last, deep) := Spread(now, d, depth, BranchAt(levels, numAddrs, d)); Spreads(levels, numAddrs, now, d, last, deep)
    decreases |levels| - d
  {
    if d + 1 >= depth {
      PowOne(levels[d], Carry(levels, numAddrs, d));
      forall j | d <= j < |levels| ensures Final(levels, numAddrs, j) == now[j] { OnesStay(levels, numAddrs, d, j); }
    } else {
      var limit := LimitAt(levels, numAddrs, d);
      ReachedNext(levels, numAddrs, now, d, depth);
      LevelDone(levels, numAddrs, now, d, depth);
      var next, deeper := Next(now, d, limit), NextDepth(now, d, limit, depth);
      FitsStep(now, d, depth, BranchAt(levels, numAddrs, d));
      BranchNext(levels, numAddrs, next, d);
      SpreadIs(levels, numAddrs, next, d + 1, deeper);
    }
  }

  lemma {:induction false} DeepIs(levels: seq<int>, numAddrs: nat, now: seq<int>, d: nat, depth: nat)
    requires Positive(levels) && d < |levels| && 1 <= depth && Reached(levels, numAddrs, now, d, depth)
    requires Fits(now, d, depth, BranchAt(levels, numAddrs, d))
    ensures Spread(now, d, depth, BranchAt(levels, numAddrs, d)).1 == depth + Risers(levels, numAddrs, d) <= |levels|
    decreases |levels| - d
  {
    if d + 1 >= depth {
      PowOne(levels[d], Carry(levels, numAddrs, d));
      NoRisers(levels, numAddrs, d);
    } else {
      var limit := LimitAt(levels, numAddrs, d);
      ReachedNext(levels, numAddrs, now, d, depth);
      LevelHalved(levels, numAddrs, now, d, depth);
      var next, deeper := Next(now, d, limit), NextDepth(now, d, limit, depth);
      FitsStep(now, d, depth, BranchAt(levels, numAddrs, d));
      BranchNext(levels, numAddrs, next, d);
      DeepIs(levels, numAddrs, next, d + 1, deeper);
    }
  }

  predicate WithinLimits(levels: seq<int>, numAddrs: nat)
    requires levels != []
  {
    forall d: nat :: d < |levels| ==> levels[d] <= LimitAt(levels, numAddrs, d)
  }

  lemma {:induction false} NothingCarried(levels: seq<int>, numAddrs: nat, d: nat)
    requires Positive(levels) && d <= |levels| && WithinLimits(levels, numAddrs)
    ensures Carry(levels, numAddrs, d) == 0
    ensures d < |levels| ==> Final(levels, numAddrs, d) == levels[d]
  {
    if d > 0 { NothingCarried(levels, numAddrs, d - 1); }
    if d < |levels| {
      assert Excess(levels[d], LimitAt(levels, numAddrs, d)) <= 0;
      assert Carry(levels, numAddrs, d + 1) == 0 && Pow2(0) == 1;
    }
  }

  lemma {:induction false} NothingRises(levels: seq<int>, numAddrs: nat, d: nat)
    requires Positive(levels) && d < |levels| && WithinLimits(levels, numAddrs)
    ensures Risers(levels, numAddrs, d) == 0
    decreases |levels| - d
  {
    if d + 1 < |levels| {
      NothingCarried(levels, numAddrs, d + 1);
      CrowdedCarries(levels, numAddrs, d);
      NothingRises(levels, numAddrs, d + 1);
    }
  }

  // The levels of a new tree, and its depth.
  ghost predicate Built(machine: seq<int>, numAddrs: nat, num: seq<int>, depth: nat)
    requires |machine| <= LEVELS && Positive(StartLevels(machine, numAddrs))
  {
    var levels := StartLevels(machine, numAddrs);
    && |num| == LEVELS && depth == DepthOf(levels) + Risers(levels, numAddrs, 0) <= LEVELS
    && (forall d {:trigger num[d]} :: 0 <= d < LEVELS ==> num[d] == Final(levels, numAddrs, d))
    && (forall d {:trigger num[d]} :: 0 <= d < depth - 1 ==> num[d] <= LimitAt(levels, numAddrs, d))
  }

  /** The width optimization leaves no level beyond its limit, and each level as the levels
      that it starts from determine it. */
  lemma BuiltSo(machine: seq<int>, numAddrs: nat)
    requires InitFits(machine, numAddrs) && Positive(StartLevels(machine, numAddrs))
    ensures var levels := StartLevels(machine, numAddrs);
            var (num, depth) := Spread(levels, 0, DepthOf(levels), StartBranch(levels, numAddrs));
            Built(machine, numAddrs, num, depth)
  {
    var levels := StartLevels(machine, numAddrs);
    assert Pow2(0) == 1;
    OnesFrom(levels);
    assert BranchAt(levels, numAddrs, 0) == StartBranch(levels, numAddrs);
    SpreadIs(levels, numAddrs, levels, 0, DepthOf(levels));
    DeepIs(levels, numAddrs, levels, 0, DepthOf(levels));
  }

  /** A machine whose levels keep to their limits is taken as it is. */
  lemma TakenAsIs(machine: seq<int>, numAddrs: nat, num: seq<int>, depth: nat)
    requires |machine| <= LEVELS && Positive(StartLevels(machine, numAddrs)) && Built(machine, numAddrs, num, depth)
    requires WithinLimits(StartLevels(machine, numAddrs), numAddrs)
    ensures num == StartLevels(machine, numAddrs) && depth == DepthOf(num)
  {
    var levels := StartLevels(machine, numAddrs);
    NothingRises(levels, numAddrs, 0);
    forall d: nat | d < LEVELS ensures num[d] == levels[d] { NothingCarried(levels, numAddrs, d); }
  }

  /** Without a topology there are four threads to a leaf group. */
  lemma FourLeaves(numAddrs: nat, num: seq<int>, depth: nat)
    requires numAddrs > 0 && Positive(StartLevels([], numAddrs)) && Built([], numAddrs, num, depth)
    ensures num[0] == 4 && depth > 1
  {
    var levels := StartLevels([], numAddrs);
    assert levels[0] == 4 && LimitAt(levels, numAddrs, 0) == 4 && Excess(4, 4) <= 0;
    assert Carry(levels, numAddrs, 1) == 0 && Pow2(0) == 1;
    OnesFrom(levels);
  }

  /** Small machines can be too deep, also without levels of only children: seven
      levels of two leave no place for the root, and a level of eight on top of
      five levels of two is halved into the last one. */
  lemma SmallButTooDeep()
    ensures var machine := [2, 2, 2, 2, 2, 2, 2]; MachineLevels(machine, 128) && !InitFits(machine, 128)
    ensures var machine := [2, 2, 2, 2, 2, 8]; MachineLevels(machine, 256) && !InitFits(machine, 256)
  {
    Doubling(7);
    FitsExactly(Twos(7), 128);
    DepthIs(Twos(7), 8);
    assert Twos(7) == [2, 2, 2, 2, 2, 2, 2];
    SixLevels();
  }

  function Twos(n: nat): (r: seq<int>)
    ensures |r| == n && forall i :: 0 <= i < n ==> r[i] == 2
  {
    seq(n, _ => 2)
  }

  lemma {:induction false} Doubling(n: nat)
    ensures Product(Twos(n)) == Pow2(n)
  {
    if n > 0 {
      Doubling(n - 1);
      assert Twos(n)[..n - 1] == Twos(n - 1);
    }
  }

  lemma SixLevels()
    ensures var machine := [2, 2, 2, 2, 2, 8]; MachineLevels(machine, 256) && !InitFits(machine, 256)
  {
    var machine := [2, 2, 2, 2, 2, 8];
    var levels := StartLevels(machine, 256);
    Doubling(5);
    assert machine[..5] == Twos(5);
    assert levels == [2, 2, 2, 2, 2, 8, 1];
    FitsExactly(machine, 256);
    DepthIs(levels, 7);
    assert Halvings(8, 4) == 1 + Halvings(4, 4);
    assert ExcessSum(levels, 256, 5, 6) == ExcessSum(levels, 256, 5, 5) + Excess(8, 4) == 1;
    assert Crowded(levels, 256, 5);
    assert Risers(levels, 256, 5) >= 1;
    RisersMore(levels, 256, 5);
  }

  lemma {:induction false} RisersMore(levels: seq<int>, numAddrs: nat, d: nat)
    requires Positive(levels) && d < |levels|
    ensures Risers(levels, numAddrs, 0) >= Risers(levels, numAddrs, d)
  {
    if d > 0 { RisersMore(levels, numAddrs, d - 1); }
  }
}
