/** The tree of threads that barriers use: its levels, and how it grows when
    more threads arrive than it was built for. */
module Hierarchy {
  import opened HierarchyFit
  import opened Intervals
  import opened Sums
  import opened TreeLevels

  lemma {:induction false} ProductUpdate(a: seq<int>, i: nat, x: int)
    requires i < |a|
    ensures Product(a[i := x]) * a[i] == Product(a) * x
  {
    var n := |a| - 1;
    if i == n {
      assert a[i := x][..n] == a[..n];
    } else {
      assert a[i := x][..n] == a[..n][i := x];
      ProductUpdate(a[..n], i, x);
      var p, q, w, v := Product(a[..n][i := x]), Product(a[..n]), a[n], a[i];
      assert p * v == q * x;
      Swap(p, w, v);
      Swap(q, w, x);
    }
  }

  lemma Swap(p: int, w: int, v: int)
    ensures p * w * v == p * v * w
  {
  }

  lemma {:induction false} ProductPositive(a: seq<int>)
    requires forall i :: 0 <= i < |a| ==> a[i] > 0
    ensures Product(a) > 0
  {
    if a != [] { ProductPositive(a[..|a| - 1]); }
  }

  // One halving: what level d loses by it, level d + 1 more than makes up for.
  lemma HalvingKeepsProduct(a: seq<int>, d: nat)
    requires d + 1 < |a| && forall i :: 0 <= i < |a| ==> a[i] > 0
    ensures Product(a[d := (a[d] + 1) / 2][d + 1 := a[d + 1] * 2]) >= Product(a) > 0
  {
    var v, w, h := a[d], a[d + 1], (a[d] + 1) / 2;
    var b := a[d := h];
    var c := b[d + 1 := w * 2];
    ProductUpdate(a, d, h);
    ProductUpdate(b, d + 1, w * 2);
    ProductPositive(a);
    ProductPositive(b);
    Halving(Product(a), Product(b), Product(c), v, w, h);
  }

  lemma Halving(p: int, q: int, r: int, v: int, w: int, h: int)
    requires q * v == p * h && r * w == q * (w * 2) && v > 0 && w > 0 && 2 * h >= v && p > 0
    ensures r >= p
  {
    assert r * w == 2 * q * w;
    Cancel(r, 2 * q, w);
    assert 2 * q * v == p * (2 * h) >= p * v by { MulMono(p, v, 2 * h); }
    CancelLe(p, 2 * q, v);
  }

  lemma MulMono(p: int, x: int, y: int)
    requires p >= 0 && x <= y
    ensures p * x <= p * y
  {
  }

  lemma Cancel(x: int, y: int, w: int)
    requires x * w == y * w && w > 0
    ensures x == y
  {
    assert x < y ==> (y - x) * w > 0;
    assert y < x ==> (x - y) * w > 0;
  }

  lemma CancelLe(x: int, y: int, w: int)
    requires x * w <= y * w && w > 0
    ensures x <= y
  {
    assert y < x ==> (x - y) * w > 0;
  }

  // ---------- the tables ----------

  // skip[i] is the number of leaves below a node of level i: up to the depth the product of
  // the levels below, and from there on twice the one before.
  ghost predicate Skips(num: seq<int>, skip: seq<int>, depth: nat) {
    && |num| == |skip| && 1 <= depth <= |skip|
    && (forall i :: 0 <= i < depth ==> skip[i] == Product(num[..i]))
    && (forall i :: depth <= i < |skip| ==> skip[i] == 2 * skip[i - 1])
  }

  // What holds of every hierarchy, grown or not: each level's nodes are made of whole nodes of the level below.
  ghost predicate Divides(skip: seq<int>) {
    && |skip| > 0 && skip[0] == 1 && (forall i :: 0 <= i < |skip| ==> skip[i] > 0)
    && forall i :: 0 < i < |skip| ==> skip[i] % skip[i - 1] == 0
  }

  lemma {:induction false} SkipsDivide(num: seq<int>, skip: seq<int>, depth: nat)
    requires Skips(num, skip, depth) && Tree(num, |num|)
    ensures Divides(skip)
  {
    assert num[..0] == [];
    var i := 0;
    while i + 1 < |skip|
      invariant 0 <= i < |skip| && (forall k :: 0 <= k <= i ==> skip[k] > 0)
      invariant forall k :: 0 < k <= i ==> skip[k] % skip[k - 1] == 0
    {
      var j := i + 1;
      if j < depth {
        assert num[..j][..i] == num[..i];
        ProductPositive(num[..j]);
        Multiple(skip[i], num[i]);
      } else {
        Multiple(skip[i], 2);
      }
      i := j;
    }
  }

  lemma Multiple(x: nat, f: nat)
    requires x > 0
    ensures (x * f) % x == 0
  {
    QuotientIs(x * f, x, f, 0);
  }

  // Levels with one node do not matter to the product.
  lemma {:induction false} OnesAbove(num: seq<int>, d: nat)
    requires d <= |num| && Tree(num, d)
    ensures Product(num[..d]) == Product(num)
    decreases |num|
  {
    if d < |num| {
      var n := |num| - 1;
      OnesAbove(num[..n], d);
      assert num[..n][..d] == num[..d];
    } else {
      assert num[..d] == num;
    }
  }

  // The count of the non-empty levels: one more than the last level with several nodes, and one for the root.
  method CountDepth(num: array<int>) returns (depth: nat)
    requires Tree(num[..], num.Length)
    ensures 1 <= depth <= num.Length + 1 && Tree(num[..], depth - 1)
    ensures depth == 1 || num[depth - 2] != 1
  {
    depth := 1;
    var i := num.Length - 1;
    while i >= 0
      invariant -1 <= i < num.Length && Tree(num[..], num.Length)
      invariant 1 <= depth <= num.Length - i && Tree(num[..], i + depth)
      invariant depth > 1 ==> i + depth - 1 < num.Length && num[i + depth - 1] != 1
    {
      if num[i] != 1 || depth > 1 {
        depth := depth + 1;
      }
      i := i - 1;
    }
  }

  // Level d has been halved k times.
  ghost predicate HalvedSoFar(before: seq<int>, now: seq<int>, d: nat, limit: nat, k: nat)
    requires d + 1 < |before| == |now| && limit > 0
  {
    && now == before[d := now[d]][d + 1 := before[d + 1] * Pow2(k)] && (k == 0 ==> now == before)
    && k + Halvings(now[d], limit) == Halvings(before[d], limit) && Halved(now[d], limit) == Halved(before[d], limit)
    && (k > 0 ==> before[d] > limit && now[d + 1] > 1)
    && Tree(now, |now|) && Product(now) >= Product(before)
  }

  lemma HalveOnce(before: seq<int>, now: seq<int>, d: nat, limit: nat, k: nat)
    requires d + 1 < |before| == |now| && limit > 0 && HalvedSoFar(before, now, d, limit, k) && now[d] > limit
    ensures HalvedSoFar(before, now[d := (now[d] + 1) / 2][d + 1 := now[d + 1] * 2], d, limit, k + 1)
  {
    HalvingKeepsProduct(now, d);
    Pow2More(k, before[d + 1]);
    var h := (now[d] + 1) / 2;
    assert now[d := h][d + 1 := now[d + 1] * 2] == before[d := h][d + 1 := before[d + 1] * Pow2(k + 1)];
  }

  lemma Pow2More(k: nat, w: int)
    ensures w * Pow2(k) * 2 == w * Pow2(k + 1)
  {
  }

  method Halve(num: array<int>, d: nat, depth0: nat) returns (depth: nat)
    requires d + 1 < num.Length
    modifies num
    ensures num[..] == old(num[..])[d := old((num[d] + 1) / 2)][d + 1 := old(num[d + 1] * 2)]
    ensures depth == if old(num[d + 1]) == 1 then depth0 + 1 else depth0
  {
    depth := depth0;
    if num[d] % 2 == 1 {
      num[d] := num[d] + 1;
    }
    num[d] := num[d] / 2;
    if num[d + 1] == 1 {
      depth := depth + 1;
    }
    num[d + 1] := num[d + 1] * 2;
  }

  // The inner loop of the width optimization: halve level d until it is within the limit.
  method HalveLevel(num: array<int>, d: nat, branch: nat, depth0: nat) returns (depth: nat)
    requires d + 1 < num.Length && branch >= MIN_BRANCH && Tree(num[..], num.Length)
    modifies num
    ensures num[..] == Next(old(num[..]), d, Limit(d, branch))
    ensures depth == NextDepth(old(num[..]), d, Limit(d, branch), depth0)
    ensures Product(num[..]) >= old(Product(num[..])) && Tree(num[..], num.Length)
  {
    depth := depth0;
    ghost var limit := Limit(d, branch);
    ghost var before, k := num[..], 0;
    assert before == before[d := before[d]][d + 1 := before[d + 1] * Pow2(0)];
    while num[d] > branch || (d == 0 && num[d] > MAX_LEAVES)
      invariant HalvedSoFar(before, num[..], d, limit, k)
      invariant depth == if k > 0 && before[d + 1] == 1 then depth0 + 1 else depth0
      decreases num[d]
    {
      HalveOnce(before, num[..], d, limit, k);
      depth := Halve(num, d, depth);
      k := k + 1;
    }
    HalvedDone(before, num[..], d, limit, k);
  }

  lemma HalvedDone(before: seq<int>, now: seq<int>, d: nat, limit: nat, k: nat)
    requires d + 1 < |before| == |now| && limit > 0 && HalvedSoFar(before, now, d, limit, k) && now[d] <= limit
    ensures now == Next(before, d, limit) && (k > 0 <==> before[d] > limit)
  {
  }

  // The width optimization. It is stopped where it would go on outside the arrays.
  method SpreadOut(num: array<int>, depth0: nat, branch0: nat) returns (ok: bool, depth: nat)
    requires branch0 >= MIN_BRANCH && 1 <= depth0
    requires Tree(num[..], num.Length) && Tree(num[..], depth0 - 1)
    modifies num
    ensures ok <==> Fits(old(num[..]), 0, depth0, branch0)
    ensures ok ==> (num[..], depth) == Spread(old(num[..]), 0, depth0, branch0)
    ensures ok ==> 1 <= depth <= num.Length && Tree(num[..], num.Length) && Tree(num[..], depth - 1)
    ensures ok ==> Product(num[..]) >= old(Product(num[..]))
  {
    depth := depth0;
    var branch := branch0;
    var d := 0;
    ok := depth <= num.Length;
    while ok && d < depth - 1
      invariant branch >= MIN_BRANCH && 1 <= depth && (ok <==> depth <= num.Length)
      invariant Fits(old(num[..]), 0, depth0, branch0) <==> ok && Fits(num[..], d, depth, branch)
      invariant ok && Fits(num[..], d, depth, branch) ==>
        Spread(old(num[..]), 0, depth0, branch0) == Spread(num[..], d, depth, branch)
      invariant ok ==> Tree(num[..], num.Length) && Tree(num[..], depth - 1)
      invariant ok ==> Product(num[..]) >= old(Product(num[..]))
      decreases num.Length - d
    {
      TreeAfter(num[..], d, Limit(d, branch), depth);
      FitsStep(num[..], d, depth, branch);
      depth := HalveLevel(num, d, branch, depth);
      if num[0] == 1 {
        branch := branch / 2;
        if branch < 4 {
          branch := MIN_BRANCH;
        }
      }
      d := d + 1;
      ok := depth <= num.Length;
    }
  }

  // The skip table: products up to the depth, doubling above it.
  method FillSkips(num: array<int>, skip: array<int>, depth: nat)
    requires num.Length == skip.Length && num != skip && 1 <= depth <= num.Length && skip[0] == 1
    modifies skip
    ensures Skips(num[..], skip[..], depth)
  {
    assert num[..0] == [];
    var i := 1;
    while i < depth
      invariant 1 <= i <= depth && forall k :: 0 <= k < i ==> skip[k] == Product(num[..][..k])
    {
      assert num[..][..i][..i - 1] == num[..][..i - 1];
      skip[i] := num[i - 1] * skip[i - 1];
      i := i + 1;
    }
    i := depth;
    while i < skip.Length
      invariant depth <= i <= skip.Length
      invariant forall k :: 0 <= k < depth ==> skip[k] == Product(num[..][..k])
      invariant forall k :: depth <= k < i ==> skip[k] == 2 * skip[k - 1]
    {
      skip[i] := 2 * skip[i - 1];
      i := i + 1;
    }
  }

  // The levels kept for more threads than there are processors.
  ghost predicate DoublesAbove(skip: seq<int>, depth: nat) {
    forall i :: 0 < depth <= i < |skip| ==> skip[i] == 2 * skip[i - 1]
  }

  // hierarchy_info
  class HierarchyInfo {
    var maxLevels: nat
    var depth: nat
    var baseNumThreads: nat
    var initialized: bool
    var resizing: bool
    var numPerLevel: array<int>
    var skipPerLevel: array<int>

    // A tree that is in use: within its arrays, each level made of whole nodes of the one
    // below, and large enough for the threads it was made for.
    ghost predicate Holds(nproc: nat)
      reads this, skipPerLevel
    {
      && initialized && 1 <= depth <= maxLevels == skipPerLevel.Length == numPerLevel.Length
      && numPerLevel != skipPerLevel && Divides(skipPerLevel[..]) && skipPerLevel[depth - 1] >= nproc
      && DoublesAbove(skipPerLevel[..], depth)
    }

    ghost predicate Valid()
      reads this, skipPerLevel
    {
      initialized ==> Holds(baseNumThreads)
    }

    // Built without a topology: the leaves are in groups of four, also when the tree has grown.
    ghost predicate Fours()
      reads this, numPerLevel
    {
      initialized ==> depth > 1 && numPerLevel.Length > 0 && numPerLevel[0] == 4
    }

    constructor ()
      ensures Valid() && Fours() && !initialized && !resizing && fresh(numPerLevel) && fresh(skipPerLevel)
    {
      maxLevels, depth, baseNumThreads, initialized, resizing := LEVELS, 1, 0, false, false;
      numPerLevel := new int[0];
      skipPerLevel := new int[0];
    }

    /** init: the first call builds the tree. `machine` are the levels found for
        the machine, none if its topology is not known. It fails, here before
        anything is changed, exactly where the levels do not fit the arrays. */
    method Init(machine: seq<int>, numAddrs: nat) returns (ok: bool)
      requires numAddrs > 0 && (machine != [] ==> MachineLevels(machine, numAddrs))
      modifies this
      ensures ok <==> old(initialized) || InitFits(machine, numAddrs)
      ensures old(initialized) || !ok ==> unchanged(this)
      ensures !old(initialized) && ok ==>
        && Holds(numAddrs) && baseNumThreads == numAddrs && maxLevels == LEVELS && !resizing
        && Skips(numPerLevel[..], skipPerLevel[..], depth) && fresh(numPerLevel) && fresh(skipPerLevel)
      ensures !old(initialized) && ok ==>
        var levels := StartLevels(machine, numAddrs);
        && Positive(levels) && depth == DepthOf(levels) + Risers(levels, numAddrs, 0) <= LEVELS == numPerLevel.Length
        && (forall d :: 0 <= d < LEVELS ==> numPerLevel[d] == Final(levels, numAddrs, d))
        && (forall d :: 0 <= d < depth - 1 ==> numPerLevel[d] <= LimitAt(levels, numAddrs, d))
        && (WithinLimits(levels, numAddrs) ==> numPerLevel[..] == levels && depth == DepthOf(levels))
        && (machine == [] ==> numPerLevel[0] == 4 && depth > 1)
    {
      if initialized {
        return true;
      }
      var num, skip, d;
      ok, num, skip, d := NewTree(machine, numAddrs);
      if ok {
        depth, resizing, maxLevels := d, false, LEVELS;
        numPerLevel, skipPerLevel := num, skip;
        baseNumThreads := numAddrs;
        initialized := true;
        TreeIs(machine, numAddrs, num[..], d);
      }
    }

    lemma TreeIs(machine: seq<int>, numAddrs: nat, num: seq<int>, depth: nat)
      requires |machine| <= LEVELS && numAddrs > 0 && Positive(StartLevels(machine, numAddrs)) && Built(machine, numAddrs, num, depth)
      ensures WithinLimits(StartLevels(machine, numAddrs), numAddrs) ==>
        num == StartLevels(machine, numAddrs) && depth == DepthOf(StartLevels(machine, numAddrs))
      ensures machine == [] ==> num[0] == 4 && depth > 1
    {
      if WithinLimits(StartLevels(machine, numAddrs), numAddrs) { TakenAsIs(machine, numAddrs, num, depth); }
      if machine == [] { FourLeaves(numAddrs, num, depth); }
    }

    /** resize: double the tree until it holds nproc threads, first into the
        levels there are, then into new ones. A call that finds the tree large
        enough returns with the flag still set. */
    method Resize(nproc: nat)
      requires Valid() && initialized && !resizing
      modifies this, numPerLevel, skipPerLevel
      ensures Valid() && initialized
      ensures nproc <= old(baseNumThreads) ==>
        && resizing && baseNumThreads == old(baseNumThreads) && Grown(numPerLevel[..], skipPerLevel[..], old(numPerLevel[..]), old(skipPerLevel[..]), depth, depth)
        && depth == old(depth) && maxLevels == old(maxLevels)
      ensures nproc > old(baseNumThreads) ==>
        && !resizing && baseNumThreads == nproc && Holds(nproc)
        && Grown(numPerLevel[..], skipPerLevel[..], old(numPerLevel[..]), old(skipPerLevel[..]), old(depth), depth)
        && Enough(old(skipPerLevel[depth - 1]), depth - old(depth), nproc)
      ensures numPerLevel == old(numPerLevel) || (fresh(numPerLevel) && fresh(skipPerLevel))
      ensures skipPerLevel == old(skipPerLevel) || (fresh(numPerLevel) && fresh(skipPerLevel))
    {
      resizing := true;
      if nproc <= baseNumThreads {
        return;
      }
      Enlarge(nproc);
      baseNumThreads := nproc;
      resizing := false;
    }

    // First within the arrays, then in larger ones.
    method Enlarge(nproc: nat)
      requires Holds(0)
      modifies this`depth, this`maxLevels, this`numPerLevel, this`skipPerLevel, numPerLevel, skipPerLevel
      ensures Holds(nproc)
      ensures Grown(numPerLevel[..], skipPerLevel[..], old(numPerLevel[..]), old(skipPerLevel[..]), old(depth), depth)
      ensures Enough(old(skipPerLevel[depth - 1]), depth - old(depth), nproc)
      ensures (numPerLevel == old(numPerLevel) && skipPerLevel == old(skipPerLevel)) || (fresh(numPerLevel) && fresh(skipPerLevel))
    {
      ghost var size, first := skipPerLevel[depth - 1], depth;
      var oldSz := GrowWithin(nproc);
      ghost var within := depth - first;
      if nproc > oldSz {
        ghost var num, skip := numPerLevel[..], skipPerLevel[..];
        Expand(nproc, oldSz);
        EnoughOnTop(size, within, depth - first - within, nproc);
        GrownOnTop(numPerLevel[..], skipPerLevel[..], num, skip, old(numPerLevel[..]), old(skipPerLevel[..]), first, depth);
      }
    }

    // The levels of the arrays above the depth are put to use.
    method GrowWithin(nproc: nat) returns (oldSz: int)
      requires Holds(0)
      modifies this`depth, numPerLevel, skipPerLevel
      ensures Holds(0) && depth >= old(depth) && oldSz == skipPerLevel[depth - 1] == old(skipPerLevel[depth - 1]) * Pow2(depth - old(depth))
      ensures Grown(numPerLevel[..], skipPerLevel[..], old(numPerLevel[..]), old(skipPerLevel[..]), old(depth), depth)
      ensures nproc > oldSz ==> depth == maxLevels
      ensures depth > old(depth) ==> nproc > old(skipPerLevel[depth - 1]) * Pow2(depth - old(depth) - 1)
    {
      oldSz := skipPerLevel[depth - 1];
      ghost var num, skip, first := numPerLevel, skipPerLevel, depth;
      var i := depth;
      while i < maxLevels && nproc > oldSz
        invariant i == depth && depth >= first && Holds(0) && oldSz == skipPerLevel[depth - 1]
        invariant numPerLevel == num && skipPerLevel == skip
        invariant Grown(num[..], skip[..], old(numPerLevel[..]), old(skipPerLevel[..]), first, depth)
        invariant oldSz == old(skipPerLevel[depth - 1]) * Pow2(depth - first)
        invariant depth > first ==> nproc > old(skipPerLevel[depth - 1]) * Pow2(depth - first - 1)
        decreases maxLevels - i
      {
        TimesTwo(old(skipPerLevel[depth - 1]), depth - first);
        GrownOneMore(num[..], skip[..], old(numPerLevel[..]), old(skipPerLevel[..]), first, depth);
        UseLevel(i);
        oldSz := oldSz * 2;
        i := i + 1;
      }
    }

    method UseLevel(i: nat)
      requires Holds(0) && i == depth < maxLevels
      modifies this`depth, numPerLevel, skipPerLevel
      ensures Holds(0) && depth == i + 1 && skipPerLevel[..] == old(skipPerLevel[..]) && skipPerLevel[i] == 2 * skipPerLevel[i - 1]
      ensures numPerLevel[..] == old(numPerLevel[..])[i - 1 := 2 * old(numPerLevel[i - 1])]
    {
      ghost var before := skipPerLevel[..];
      skipPerLevel[i] := 2 * skipPerLevel[i - 1];
      assert skipPerLevel[..] == before;
      numPerLevel[i - 1] := numPerLevel[i - 1] * 2;
      depth := depth + 1;
    }

    // New levels, in larger arrays.
    method Expand(nproc: nat, oldSz0: int)
      requires Holds(0) && depth == maxLevels && oldSz0 == skipPerLevel[depth - 1] && nproc > oldSz0
      modifies this`depth, this`maxLevels, this`numPerLevel, this`skipPerLevel
      ensures Holds(nproc) && depth == maxLevels > old(depth) && fresh(numPerLevel) && fresh(skipPerLevel)
      ensures numPerLevel[..] == old(numPerLevel[..]) + Ones(depth - old(depth)) && skipPerLevel[..old(depth)] == old(skipPerLevel[..])
      ensures DoublesAbove(skipPerLevel[..], old(depth)) && Enough(oldSz0, depth - old(depth), nproc)
    {
      var oldSz, incs, oldMaxLevels := oldSz0, 0, maxLevels;
      ghost var first := depth;
      while nproc > oldSz
        invariant oldSz == oldSz0 * Pow2(incs) && oldSz > 0 && incs >= 0 && depth == first + incs
        invariant incs > 0 ==> nproc > oldSz0 * Pow2(incs - 1)
        invariant maxLevels == oldMaxLevels && numPerLevel == old(numPerLevel) && skipPerLevel == old(skipPerLevel)
        decreases nproc - oldSz
      {
        TimesTwo(oldSz0, incs);
        oldSz := oldSz * 2;
        incs := incs + 1;
        depth := depth + 1;
      }
      maxLevels := maxLevels + incs;
      var skip := Extend(skipPerLevel, maxLevels);
      var num := Extend(numPerLevel, maxLevels);
      FillNew(skip, oldMaxLevels, skipPerLevel[..]);
      numPerLevel, skipPerLevel := num, skip;
    }
  }

  // The tables after the depth has gone from `from` to `to`: levels that were there are doubled as
  // they come into use, new ones have one node, and the sizes go on doubling.
  ghost predicate Grown(num: seq<int>, skip: seq<int>, num0: seq<int>, skip0: seq<int>, from: nat, to: nat) {
    && |num0| == |skip0| && 1 <= from <= |num0| && from <= to
    && |num| == |skip| == (if to <= |num0| then |num0| else to)
    && (forall i :: 0 <= i < |num| ==>
         num[i] == if i >= |num0| then 1 else if from - 1 <= i < to - 1 && i < |num0| - 1 then 2 * num0[i] else num0[i])
    && skip[..|skip0|] == skip0 && DoublesAbove(skip, |skip0|)
  }

  lemma GrownOneMore(num: seq<int>, skip: seq<int>, num0: seq<int>, skip0: seq<int>, from: nat, to: nat)
    requires Grown(num, skip, num0, skip0, from, to) && to < |num0|
    ensures Grown(num[to - 1 := 2 * num[to - 1]], skip, num0, skip0, from, to + 1)
  {
  }

  lemma GrownOnTop(num: seq<int>, skip: seq<int>, num1: seq<int>, skip1: seq<int>, num0: seq<int>, skip0: seq<int>, from: nat, to: nat)
    requires Grown(num1, skip1, num0, skip0, from, |num0|) && to > |num0|
    requires num == num1 + Ones(to - |num0|) && |skip| == to && skip[..|num0|] == skip1 && DoublesAbove(skip, |num0|)
    ensures Grown(num, skip, num0, skip0, from, to)
  {
  }

  // k is the number of doublings that a tree for `size` threads needs to hold nproc.
  predicate Enough(size: int, k: int, nproc: nat) {
    k >= 0 && size * Pow2(k) >= nproc && (k > 0 ==> size * Pow2(k - 1) < nproc)
  }

  lemma EnoughOnTop(size: int, k: nat, more: int, nproc: nat)
    requires Enough(size * Pow2(k), more, nproc) && more > 0
    ensures Enough(size, k + more, nproc)
  {
    PowSum(k, more);
    PowSum(k, more - 1);
    TimesTimes(size, Pow2(k), Pow2(more));
    TimesTimes(size, Pow2(k), Pow2(more - 1));
  }

  lemma TimesTimes(x: int, y: int, z: int)
    ensures x * y * z == x * (y * z)
  {
  }

  lemma {:induction false} PowSum(k: nat, l: nat)
    ensures Pow2(k + l) == Pow2(k) * Pow2(l)
  {
    if l > 0 {
      PowSum(k, l - 1);
      assert Pow2(k + l) == 2 * Pow2(k + l - 1);
      TimesTwo(Pow2(k), l - 1);
    } else {
      assert Pow2(0) == 1;
    }
  }

  lemma TimesTwo(x: int, k: nat)
    ensures x * Pow2(k) * 2 == x * Pow2(k + 1)
  {
  }

  // A copy with room for more levels, of one node each.
  method Extend(a: array<int>, length: nat) returns (b: array<int>)
    requires a.Length <= length
    ensures fresh(b) && b.Length == length && b[..] == a[..] + Ones(length - a.Length)
  {
    b := new int[length](_ => 1);
    for i := 0 to a.Length
      invariant b[..i] == a[..i] && forall k :: a.Length <= k < length ==> b[k] == 1
    {
      b[i] := a[i];
    }
  }

  // Each new level holds twice as many threads as the one below it.
  method FillNew(skip: array<int>, from: nat, ghost was: seq<int>)
    requires 0 < from == |was| <= skip.Length && skip[..from] == was && Divides(was)
    modifies skip
    ensures skip[..from] == was && Divides(skip[..])
    ensures forall i :: from <= i < skip.Length ==> skip[i] == 2 * skip[i - 1]
    ensures skip[skip.Length - 1] == was[from - 1] * Pow2(skip.Length - from)
  {
    var i := from;
    assert skip[from - 1] == was[from - 1] * Pow2(0);
    while i < skip.Length
      invariant from <= i <= skip.Length && skip[..from] == was && Divides(skip[..i])
      invariant forall k :: from <= k < i ==> skip[k] == 2 * skip[k - 1]
      invariant skip[i - 1] == was[from - 1] * Pow2(i - from)
    {
      TimesTwo(was[from - 1], i - from);
      ghost var before := skip[..i];
      Multiple(skip[i - 1], 2);
      skip[i] := 2 * skip[i - 1];
      assert skip[..i + 1] == before + [skip[i]] && skip[..from] == before[..from];
      i := i + 1;
    }
    assert skip[..i] == skip[..];
  }

  method NewTree(machine: seq<int>, numAddrs: nat) returns (ok: bool, num: array<int>, skip: array<int>, depth: nat)
    requires numAddrs > 0 && (machine != [] ==> MachineLevels(machine, numAddrs))
    ensures ok <==> InitFits(machine, numAddrs)
    ensures fresh(num) && fresh(skip) && num != skip && num.Length == skip.Length == LEVELS
    ensures ok ==> Skips(num[..], skip[..], depth) && Divides(skip[..]) && skip[depth - 1] >= numAddrs
    ensures ok ==> Positive(StartLevels(machine, numAddrs)) && Built(machine, numAddrs, num[..], depth)
  {
    num := new int[LEVELS](_ => 1);
    skip := new int[LEVELS](_ => 1);
    ok, depth := |machine| <= LEVELS, 1;
    if !ok {
      return;
    }
    var levels := StartLevels(machine, numAddrs);
    for i := 0 to LEVELS
      invariant num[..i] == levels[..i] && skip[0] == 1
    {
      num[i] := levels[i];
    }
    assert num[..] == levels;
    StartHolds(machine, numAddrs);
    ok, depth := BuildTree(num, skip, numAddrs);
    if ok {
      BuiltSo(machine, numAddrs);
    }
  }

  // Depth, width optimization and skip table.
  method BuildTree(num: array<int>, skip: array<int>, numAddrs: nat) returns (ok: bool, depth: nat)
    requires num.Length == skip.Length == LEVELS && num != skip && skip[0] == 1 && Tree(num[..], LEVELS)
    requires Product(num[..]) >= numAddrs
    modifies num, skip
    ensures ok <==> old(Fits(num[..], 0, DepthOf(num[..]), StartBranch(num[..], numAddrs)))
    ensures ok ==> (num[..], depth) == old(Spread(num[..], 0, DepthOf(num[..]), StartBranch(num[..], numAddrs)))
    ensures ok ==> Skips(num[..], skip[..], depth) && Divides(skip[..]) && skip[depth - 1] >= numAddrs
  {
    depth := CountDepth(num);
    DepthIs(num[..], depth);
    var branch := MIN_BRANCH;
    if num[0] == 1 {
      branch := numAddrs / MAX_LEAVES;
    }
    if branch < MIN_BRANCH {
      branch := MIN_BRANCH;
    }
    ok, depth := SpreadOut(num, depth, branch);
    if ok {
      FillSkips(num, skip, depth);
      SkipsDivide(num[..], skip[..], depth);
      OnesAbove(num[..], depth - 1);
    }
  }

  lemma {:induction false} ProductOnes(a: seq<int>, n: nat)
    ensures Product(a + Ones(n)) == Product(a)
  {
    if n == 0 {
      assert a + Ones(0) == a;
    } else {
      ProductOnes(a, n - 1);
      assert (a + Ones(n))[..|a| + n - 1] == a + Ones(n - 1);
    }
  }

  lemma StartHolds(machine: seq<int>, numAddrs: nat)
    requires numAddrs > 0 && |machine| <= LEVELS && (machine != [] ==> MachineLevels(machine, numAddrs))
    ensures Tree(StartLevels(machine, numAddrs), LEVELS) && Product(StartLevels(machine, numAddrs)) >= numAddrs
  {
    if machine != [] {
      ProductOnes(machine, LEVELS - |machine|);
    } else {
      var groups := numAddrs / MAX_LEAVES + if numAddrs % MAX_LEAVES != 0 then 1 else 0;
      ProductOnes([MAX_LEAVES, groups], LEVELS - 2);
      assert [MAX_LEAVES, groups][..1] == [MAX_LEAVES] && [MAX_LEAVES][..0] == [];
      assert Product([MAX_LEAVES]) == MAX_LEAVES && Product([MAX_LEAVES, groups]) == MAX_LEAVES * groups;
    }
  }

  // ---------- how many threads a new tree can hold without a known topology ----------

  lemma {:induction false} HalvingsOfPow(e: nat)
    ensures Halvings(Pow2(e), 4) == if e <= 2 then 0 else e - 2
  {
    if e <= 2 {
      assert Pow2(0) == 1 && Pow2(1) == 2 && Pow2(2) == 4;
    } else {
      HalvingsOfPow(e - 1);
      AtLeastFour(e - 1);
    }
  }

  lemma {:induction false} AtLeastFour(e: nat)
    requires e >= 2
    ensures Pow2(e) >= 4
  {
    if e > 2 { AtLeastFour(e - 1); } else { assert Pow2(2) == 2 * Pow2(1) && Pow2(1) == 2 * Pow2(0); }
  }

  lemma {:induction false} HalvingsBound(v: int, k: nat)
    ensures Halvings(v, 4) <= k <==> v <= 4 * Pow2(k)
    decreases k
  {
    if v > 4 {
      if k > 0 {
        HalvingsBound((v + 1) / 2, k - 1);
      } else {
        assert Pow2(0) == 1;
      }
    } else {
      assert 4 * Pow2(k) >= 4;
    }
  }

  // Level d holds 2 to the power e nodes, the levels above it one.
  ghost predicate Tower(levels: seq<int>, d: nat, e: nat) {
    && |levels| == LEVELS && 0 < d < LEVELS && levels[0] == 4 && levels[d] == Pow2(e)
    && forall i :: d < i < LEVELS ==> levels[i] == 1
  }

  // Each level takes two bits of the exponent.
  lemma {:induction false} TowerFits(levels: seq<int>, d: nat, e: nat)
    requires Tower(levels, d, e) && e > 0
    ensures Fits(levels, d, d + 2, MIN_BRANCH) <==> e <= 2 * (LEVELS - 1 - d)
    decreases LEVELS - d
  {
    HalvingsOfPow(e);
    if d + 1 < LEVELS {
      var next := Next(levels, d, 4);
      if e > 2 {
        AtLeastFour(e - 1);
        assert levels[d] == 2 * Pow2(e - 1) > 4;
        assert next[d + 1] == 1 * Pow2(e - 2);
        assert Tower(next, d + 1, e - 2);
        TowerFits(next, d + 1, e - 2);
      } else {
        assert Pow2(0) == 1 && Pow2(1) == 2 && Pow2(2) == 4;
      }
    }
  }

  /** Without a known topology, init keeps to its seven levels exactly for up to 4096 threads. */
  lemma DefaultFits(n: nat)
    requires n > 0
    ensures InitFits([], n) <==> n <= 4096
  {
    var levels := StartLevels([], n);
    var x := levels[1];
    assert levels == [4, x, 1, 1, 1, 1, 1];
    DefaultDepth(x);
    DefaultFirst(levels, x);
    HalvingsBound(x, 8);
    PowEight();
    if x > 4 {
      var k := Halvings(x, 4);
      var next := Next(levels, 1, 4);
      assert next[2] == 1 * Pow2(k);
      assert Tower(next, 2, k);
      TowerFits(next, 2, k);
    }
  }

  lemma PowEight()
    ensures Pow2(8) == 256
  {
    assert Pow2(2) == 2 * Pow2(1) && Pow2(4) == 4 * Pow2(2) && Pow2(6) == 4 * Pow2(4) && Pow2(8) == 4 * Pow2(6);
  }

  lemma DefaultDepth(x: int)
    ensures DepthOf([4, x, 1, 1, 1, 1, 1]) == if x == 1 then 2 else 3
  {
    DepthIs([4, x, 1, 1, 1, 1, 1], if x == 1 then 2 else 3);
  }

  // The first level is within its limit.
  lemma DefaultFirst(levels: seq<int>, x: int)
    requires levels == [4, x, 1, 1, 1, 1, 1] && x > 0
    ensures Fits(levels, 0, if x == 1 then 2 else 3, MIN_BRANCH) <==>
            x == 1 || x <= 4 || Fits(Next(levels, 1, 4), 2, 4, MIN_BRANCH)
  {
    var depth := if x == 1 then 2 else 3;
    assert Next(levels, 0, 4) == levels;
    assert Fits(levels, 0, depth, MIN_BRANCH) == Fits(levels, 1, depth, MIN_BRANCH);
    if 1 < x <= 4 {
      assert Next(levels, 1, 4) == levels;
      assert Fits(levels, 1, 3, MIN_BRANCH) == Fits(levels, 2, 3, MIN_BRANCH);
    }
    assert x > 4 ==> Fits(levels, 1, 3, MIN_BRANCH) == Fits(Next(levels, 1, 4), 2, 4, MIN_BRANCH);
  }

  /** __kmp_get_hierarchy: the tree handed out holds nproc threads. It cannot be
      had only if this is the first call and more than 4096 threads are asked for.
      Without a topology a leaf's parent has three other children, in every call. */
  method GetHierarchy(machine: HierarchyInfo, nproc: nat) returns (ok: bool, depth: nat, leafKids: int, skip: array<int>)
    requires nproc > 0 && machine.Valid() && !machine.resizing
    modifies machine, machine.numPerLevel, machine.skipPerLevel
    ensures ok <==> old(machine.initialized) || nproc <= 4096
    ensures machine.Valid() && !machine.resizing && (ok ==> machine.Holds(nproc))
    ensures ok ==> depth == machine.depth && skip == machine.skipPerLevel && leafKids == machine.numPerLevel[0] - 1
    ensures old(machine.Fours()) ==> machine.Fours() && (ok ==> leafKids == 3)
    ensures old(machine.initialized && machine.depth > 1) ==> leafKids == old(machine.numPerLevel[0]) - 1
    ensures old(machine.initialized) ==>
      && Grown(machine.numPerLevel[..], skip[..], old(machine.numPerLevel[..]), old(machine.skipPerLevel[..]), old(machine.depth), depth)
      && (nproc <= old(machine.baseNumThreads) ==> depth == old(machine.depth))
      && (nproc > old(machine.baseNumThreads) ==> Enough(old(machine.skipPerLevel[machine.depth - 1]), depth - old(machine.depth), nproc))
  {
    ok := true;
    depth, leafKids, skip := 0, 0, machine.skipPerLevel;
    if !machine.initialized {
      DefaultFits(nproc);
      ok := machine.Init([], nproc);
    }
    if ok {
      if nproc > machine.baseNumThreads {
        machine.Resize(nproc);
      }
      depth := machine.depth;
      leafKids := machine.numPerLevel[0] - 1;
      skip := machine.skipPerLevel;
    }
  }
}
