/** The levels of the barrier tree, taken from the child numbers of the machine's
    addresses: the tree has a place for every address. */
module DeriveLevels {
  import opened ChildNumbers
  import opened Hierarchy
  import opened HierarchyFit
  import opened Labels
  import opened Sums
  import opened Topology
  import opened TreeLevels

  // The largest child number at a level tells the size of the largest family there.
  lemma LargestNumber(t: seq<Labels>, depth: nat, l: nat, row: nat, max: int)
    requires Table(t, depth) && l < depth && row < |t| && ChildNumber(t, row, l) == max
    requires forall j :: 0 <= j < |t| ==> ChildNumber(t, j, l) <= max
    ensures LargestFamily(t, l, max + 1)
  {
    forall p | p in Nodes(t, l) ensures |Children(t, l, p)| <= max + 1 { NumbersAreDense(t, depth, l, p, max + 1); }
    var p := t[row][..l];
    NumbersAreDense(t, depth, l, p, max);
    assert p in Nodes(t, l);
  }

  // The largest child number at level l.
  method Largest(ghost t: seq<Labels>, ghost depth: nat, nums: array2<int>, l: nat) returns (max: int)
    requires t != [] && Table(t, depth) && l < depth <= nums.Length1 && nums.Length0 == |t|
    requires forall j :: 0 <= j < |t| ==> nums[j, l] == ChildNumber(t, j, l)
    ensures max >= 0 && LargestFamily(t, l, max + 1)
  {
    max := -1;
    ghost var row := 0;
    for j := 0 to nums.Length0
      invariant forall i :: 0 <= i < j ==> nums[i, l] <= max
      invariant j == 0 ==> max == -1
      invariant j > 0 ==> 0 <= row < j && nums[row, l] == max
    {
      var next := nums[j, l];
      assert next == ChildNumber(t, j, l);
      if next > max {
        max := next;
        row := j;
      }
    }
    LargestNumber(t, depth, l, row, max);
  }

  // The entry for level l, counted from the root, is the size of the largest family there.
  ghost predicate LevelFor(t: seq<Labels>, depth: nat, levels: seq<int>, l: nat)
    requires Table(t, depth) && l < depth == |levels|
  {
    levels[depth - 1 - l] > 0 && LargestFamily(t, l, levels[depth - 1 - l])
  }

  // What has been written when the levels from i on have been dealt with: `levels` are
  // all entries so far, and num holds those that fit, the rest of it being as before.
  ghost predicate Written(t: seq<Labels>, depth: nat, i: int, levels: seq<int>, num0: seq<int>, num: seq<int>)
    requires Table(t, depth) && -1 <= i < depth
  {
    && |levels| == depth && |num| == |num0|
    && (forall l :: i < l < depth ==> LevelFor(t, depth, levels, l))
    && forall k :: 0 <= k < |num| ==> num[k] == if k < depth - 1 - i then levels[k] else num0[k]
  }

  lemma WrittenNext(t: seq<Labels>, depth: nat, i: nat, levels: seq<int>, num0: seq<int>, num: seq<int>, m: int)
    requires Table(t, depth) && i < depth && Written(t, depth, i, levels, num0, num)
    requires m > 0 && LargestFamily(t, i, m)
    ensures var level := depth - 1 - i;
            Written(t, depth, i - 1, levels[level := m], num0, if level < |num| then num[level := m] else num)
  {
    var level := depth - 1 - i;
    var more := levels[level := m];
    forall l | i - 1 < l < depth ensures LevelFor(t, depth, more, l) {
      assert l > i ==> LevelFor(t, depth, levels, l);
    }
  }

  /** deriveLevels: the radix of each level, finest level first, written to the
      array of the tree. Together they make room for all addresses. It leaves the
      array, which is where the model skips the write, exactly for a table that
      has more levels. */
  method Derive(ghost t: seq<Labels>, depth: nat, nums: array2<int>, num: array<int>) returns (ok: bool, ghost levels: seq<int>)
    requires t != [] && Table(t, depth) && Distinct(t) && depth <= nums.Length1 && nums.Length0 == |t|
    requires forall j, l :: 0 <= j < |t| && 0 <= l < depth ==> nums[j, l] == ChildNumber(t, j, l)
    modifies num
    ensures ok <==> depth <= num.Length
    ensures |levels| == depth && MachineLevels(levels, |t|)
    ensures forall l :: 0 <= l < depth ==> LevelFor(t, depth, levels, l)
    ensures forall k :: 0 <= k < num.Length ==> num[k] == if k < depth then levels[k] else old(num[k])
  {
    levels := Ones(depth);
    ok := true;
    var level := 0;
    var i := depth - 1;
    while i >= 0
      invariant -1 <= i < depth && level == depth - 1 - i
      invariant Written(t, depth, i, levels, old(num[..]), num[..])
      invariant ok <==> level <= num.Length
    {
      var max := Largest(t, depth, nums, i);
      WrittenNext(t, depth, i, levels, old(num[..]), num[..], max + 1);
      levels := levels[level := max + 1];
      if level < num.Length {
        num[level] := max + 1;
      } else {
        ok := false;
      }
      level := level + 1;
      i := i - 1;
    }
    LevelsHold(t, depth, levels);
  }

  lemma LevelsHold(t: seq<Labels>, depth: nat, levels: seq<int>)
    requires t != [] && Table(t, depth) && Distinct(t) && |levels| == depth
    requires forall l :: 0 <= l < depth ==> LevelFor(t, depth, levels, l)
    ensures MachineLevels(levels, |t|)
  {
    var maxCt := Reversed(levels);
    forall l | 0 <= l < depth ensures LargestFamily(t, l, maxCt[l]) { assert LevelFor(t, depth, levels, l); }
    ProductReversed(levels);
    ProductHolds(t, depth, maxCt);
    forall k | 0 <= k < depth ensures levels[k] > 0 { assert LevelFor(t, depth, levels, depth - 1 - k); }
  }

  /** init for the address table of a machine: the tree is built exactly if the
      largest families of the machine fit its arrays. */
  method InitMachine(h: HierarchyInfo, ghost t: seq<Labels>, depth: nat, nums: array2<int>) returns (ok: bool, ghost levels: seq<int>)
    requires t != [] && Table(t, depth) && Distinct(t) && depth > 0 && depth <= nums.Length1 && nums.Length0 == |t|
    requires forall j, l :: 0 <= j < |t| && 0 <= l < depth ==> nums[j, l] == ChildNumber(t, j, l)
    requires !h.initialized
    modifies h
    ensures |levels| == depth && forall l :: 0 <= l < depth ==> LevelFor(t, depth, levels, l)
    ensures ok <==> InitFits(levels, |t|)
    ensures if ok then h.Holds(|t|) && h.baseNumThreads == |t| && h.maxLevels == LEVELS else unchanged(h)
    ensures ok ==>
      |levels| <= LEVELS && Positive(StartLevels(levels, |t|)) && Built(levels, |t|, h.numPerLevel[..], h.depth)
      && (WithinLimits(StartLevels(levels, |t|), |t|) ==> h.numPerLevel[..depth] == levels)
  {
    var num := new int[LEVELS](_ => 1);
    ok, levels := Derive(t, depth, nums, num);
    if ok {
      assert num[..depth] == levels;
      ok := h.Init(num[..depth], nums.Length0);
    }
  }

  ghost function Reversed(a: seq<int>): (r: seq<int>)
    ensures |r| == |a| && forall k :: 0 <= k < |a| ==> r[k] == a[|a| - 1 - k]
  {
    if a == [] then [] else [a[|a| - 1]] + Reversed(a[..|a| - 1])
  }

  lemma {:induction false} ProductFront(x: int, a: seq<int>)
    ensures Product([x] + a) == x * Product(a)
  {
    if a == [] {
      assert [x] + a == [x] && [x][..0] == [];
    } else {
      var n := |a| - 1;
      ProductFront(x, a[..n]);
      assert ([x] + a)[..n + 1] == [x] + a[..n];
      Times(x, Product(a[..n]), a[n]);
    }
  }

  lemma Times(x: int, y: int, z: int)
    ensures x * y * z == x * (y * z)
  {
  }

  lemma {:induction false} ProductReversed(a: seq<int>)
    ensures Product(Reversed(a)) == Product(a)
  {
    if a != [] {
      var n := |a| - 1;
      ProductReversed(a[..n]);
      ProductFront(a[n], Reversed(a[..n]));
    }
  }
}
