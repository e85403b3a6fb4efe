/** Balanced placement of the threads of a team on a machine whose cores differ
    in their number of processors. The processors are laid out core by core,
    `width` slots to a core; a slot without a usable processor holds -1. */
module Placement {
  import opened Intervals
  import opened Sums

  predicate Usable(procs: seq<int>, s: int)
    requires 0 <= s < |procs|
  {
    procs[s] != -1
  }

  // The slots of core c.
  function Core(procs: seq<int>, width: nat, c: nat): (core: seq<int>)
    requires (c + 1) * width <= |procs|
    ensures |core| == width
  {
    Base(c, width, |procs|);
    procs[c * width..(c + 1) * width]
  }

  lemma Base(c: nat, width: nat, len: nat)
    requires (c + 1) * width <= len
    ensures 0 <= c * width && c * width + width == (c + 1) * width <= len
  {
  }

  // How many of the first k slots of a core are usable.
  function Rank(core: seq<int>, k: nat): (r: nat)
    requires k <= |core|
    ensures r <= k
  {
    if k == 0 then 0 else Rank(core, k - 1) + (if core[k - 1] != -1 then 1 else 0)
  }

  // How many entries of a are at least x.
  function AtLeast(a: seq<int>, x: int): nat {
    if a == [] then 0 else AtLeast(a[..|a| - 1], x) + (if a[|a| - 1] >= x then 1 else 0)
  }

  function Exactly(a: seq<int>, x: int): nat {
    if a == [] then 0 else Exactly(a[..|a| - 1], x) + (if a[|a| - 1] == x then 1 else 0)
  }

  // ---------- counting the processors of the cores ----------

  lemma {:induction false} AtLeastSplits(a: seq<int>, x: int)
    ensures AtLeast(a, x) == Exactly(a, x) + AtLeast(a, x + 1)
  {
    if a != [] { AtLeastSplits(a[..|a| - 1], x); }
  }

  lemma {:induction false} NoneAbove(a: seq<int>, x: int)
    requires forall c :: 0 <= c < |a| ==> a[c] < x
    ensures AtLeast(a, x) == 0
  {
    if a != [] { NoneAbove(a[..|a| - 1], x); }
  }

  lemma ExactlyPush(a: array<int>, i: nat, x: int)
    requires i < a.Length
    ensures Exactly(a[..i + 1], x) == Exactly(a[..i], x) + if a[i] == x then 1 else 0
  {
    assert a[..i + 1][..i] == a[..i];
  }

  // The number of usable processors of each core.
  ghost predicate CountsCores(procs: seq<int>, width: nat, nproc: seq<int>) {
    |nproc| * width == |procs| && forall c :: 0 <= c < |nproc| ==> CountsCore(procs, width, c, nproc[c])
  }

  ghost predicate CountsCore(procs: seq<int>, width: nat, c: nat, count: int) {
    (c + 1) * width <= |procs| && count == Rank(Core(procs, width, c), width)
  }

  lemma InRange(c: nat, n: nat, width: nat)
    requires c < n
    ensures (c + 1) * width <= n * width
  {
  }

  method CountCore(procs: seq<int>, width: nat, c: nat) returns (cnt: int)
    requires (c + 1) * width <= |procs|
    ensures CountsCore(procs, width, c, cnt) && 0 <= cnt <= width
  {
    ghost var core := Core(procs, width, c);
    Base(c, width, |procs|);
    cnt := 0;
    for j := 0 to width
      invariant cnt == Rank(core, j)
    {
      assert core[j] == procs[c * width + j];
      if procs[c * width + j] != -1 {
        cnt := cnt + 1;
      }
    }
  }

  // nproc: usable processors of each core. withX: how many cores have exactly so many.
  method CountCores(procs: seq<int>, width: nat, ncores: nat, nproc: array<int>, withX: array<int>)
    requires |procs| == ncores * width && nproc.Length == ncores && withX.Length == width + 1 && nproc != withX
    requires forall x :: 0 <= x <= width ==> withX[x] == 0
    modifies nproc, withX
    ensures CountsCores(procs, width, nproc[..]) && forall c :: 0 <= c < ncores ==> 0 <= nproc[c] <= width
    ensures forall x :: 0 <= x <= width ==> withX[x] == Exactly(nproc[..], x)
  {
    for i := 0 to ncores
      invariant forall c :: 0 <= c < i ==> CountsCore(procs, width, c, nproc[c]) && 0 <= nproc[c] <= width
      invariant forall x :: 0 <= x <= width ==> withX[x] == Exactly(nproc[..i], x)
    {
      InRange(i, ncores, width);
      var cnt := CountCore(procs, width, i);
      Record(nproc, withX, i, cnt);
    }
    assert nproc[..ncores] == nproc[..];
  }

  method Record(nproc: array<int>, withX: array<int>, i: nat, cnt: nat)
    requires i < nproc.Length && cnt < withX.Length && nproc != withX
    requires forall x :: 0 <= x < withX.Length ==> withX[x] == Exactly(nproc[..i], x)
    modifies nproc, withX
    ensures nproc[..] == old(nproc[..])[i := cnt]
    ensures forall c :: 0 <= c < nproc.Length && c != i ==> nproc[c] == old(nproc[c])
    ensures forall x :: 0 <= x < withX.Length ==> withX[x] == Exactly(nproc[..i + 1], x)
  {
    ghost var before := nproc[..i];
    nproc[i] := cnt;
    withX[cnt] := withX[cnt] + 1;
    assert nproc[..i] == before;
    forall x | 0 <= x < withX.Length ensures withX[x] == Exactly(nproc[..i + 1], x) { ExactlyPush(nproc, i, x); }
  }

  // From "exactly x" to "x or more".
  method SumUp(nproc: seq<int>, width: nat, withX: array<int>, atLeast: array<int>)
    requires withX.Length == atLeast.Length == width + 1 && withX != atLeast
    requires forall c :: 0 <= c < |nproc| ==> nproc[c] <= width
    requires forall x :: 0 <= x <= width ==> withX[x] == Exactly(nproc, x) && atLeast[x] == 0
    modifies atLeast
    ensures forall x :: 0 <= x <= width ==> atLeast[x] == AtLeast(nproc, x)
  {
    NoneAbove(nproc, width + 1);
    for i := 0 to width + 1
      invariant forall x :: 0 <= x < i ==> atLeast[x] == AtLeast(nproc, x)
      invariant forall x :: i <= x <= width ==> atLeast[x] == 0
    {
      for j := i to width + 1
        invariant atLeast[i] == AtLeast(nproc, i) - AtLeast(nproc, j)
        invariant forall x :: 0 <= x < i ==> atLeast[x] == AtLeast(nproc, x)
        invariant forall x :: i < x <= width ==> atLeast[x] == 0
      {
        AtLeastSplits(nproc, j);
        atLeast[i] := atLeast[i] + withX[j];
      }
    }
  }

  // ---------- handing out the threads ----------

  lemma CoreUpdate(a: seq<int>, width: nat, c: nat, k: nat, x: int, d: nat)
    requires (c + 1) * width <= |a| && (d + 1) * width <= |a| && k < width
    ensures 0 <= c * width + k < |a|
    ensures Core(a[c * width + k := x], width, d) == if d == c then Core(a, width, c)[k := x] else Core(a, width, d)
  {
    Base(c, width, |a|);
    Base(d, width, |a|);
    if d < c { InRange(d, c, width); }
    if c < d { InRange(c, d, width); }
  }

  lemma CoreAt(a: seq<int>, width: nat, c: nat, k: nat)
    requires (c + 1) * width <= |a| && k < width
    ensures 0 <= c * width + k < |a| && Core(a, width, c)[k] == a[c * width + k]
  {
    Base(c, width, |a|);
  }

  // The first f usable slots of a core hold one thread each, its other slots none.
  ghost predicate Filled(core: seq<int>, held: seq<int>, f: int)
    requires |core| == |held|
  {
    forall k :: 0 <= k < |core| ==> FilledAt(core, held, f, k)
  }

  ghost predicate FilledAt(core: seq<int>, held: seq<int>, f: int, k: nat)
    requires k < |core| == |held|
  {
    held[k] == if core[k] != -1 && Rank(core, k) < f then 1 else 0
  }

  // The cores before i have j threads each, the others j - 1, as far as they have room.
  ghost predicate Levels(procs: seq<int>, width: nat, ncores: nat, a: seq<int>, j: int, i: int)
    requires |procs| == |a| == ncores * width
  {
    forall c :: 0 <= c < ncores ==> LevelAt(procs, width, ncores, a, j, i, c)
  }

  ghost predicate LevelAt(procs: seq<int>, width: nat, ncores: nat, a: seq<int>, j: int, i: int, c: nat)
    requires |procs| == |a| == ncores * width && c < ncores
  {
    InRange(c, ncores, width);
    Filled(Core(procs, width, c), Core(a, width, c), if c < i then j else j - 1)
  }

  // The slot test of the innermost loop.
  predicate Takes(core: seq<int>, held: seq<int>, k: int, flag: bool)
    requires 0 <= k < |core| && |core| == |held|
  {
    core[k] != -1 && (held[k] == 0 || flag)
  }

  // k is the first slot that passes the test, or the width if none does.
  ghost predicate FirstTaken(core: seq<int>, held: seq<int>, k: int, flag: bool)
    requires |core| == |held|
  {
    && 0 <= k <= |core|
    && (forall x :: 0 <= x < k ==> !Takes(core, held, x, flag))
    && (k < |core| ==> Takes(core, held, k, flag))
  }

  lemma {:induction false} RankBound(core: seq<int>, k: nat, f: nat)
    requires k <= |core| && forall x :: 0 <= x < k && core[x] != -1 ==> Rank(core, x) < f
    ensures Rank(core, k) <= f
  {
    if k > 0 { RankBound(core, k - 1, f); }
  }

  lemma {:induction false} RankMonotone(core: seq<int>, k: nat, l: nat)
    requires k <= l <= |core|
    ensures Rank(core, k) <= Rank(core, l)
  {
    if k < l { RankMonotone(core, k, l - 1); }
  }

  // In the first pass the slot taken is the next usable one of the core.
  lemma NextRank(core: seq<int>, held: seq<int>, k: int, f: nat)
    requires |core| == |held| && Filled(core, held, f) && FirstTaken(core, held, k, false)
    ensures if k < |core| then Rank(core, k) == f else Rank(core, k) <= f
  {
    forall x | 0 <= x < k && core[x] != -1 ensures Rank(core, x) < f {
      assert !Takes(core, held, x, false) && FilledAt(core, held, f, x);
    }
    RankBound(core, k, f);
    assert k < |core| ==> FilledAt(core, held, f, k);
  }

  lemma NextFilled(core: seq<int>, held: seq<int>, k: int, f: nat)
    requires |core| == |held| && Filled(core, held, f) && FirstTaken(core, held, k, false)
    ensures k < |core| <==> Rank(core, |core|) > f
    ensures Filled(core, if k < |core| then held[k := 1] else held, f + 1)
  {
    NextRank(core, held, k, f);
    var held', g := if k < |core| then held[k := 1] else held, f + 1;
    forall x | 0 <= x < |core| ensures FilledAt(core, held', g, x) {
      assert FilledAt(core, held, f, x);
      if x > k { RankMonotone(core, k + 1, x); } else { RankMonotone(core, x, k); }
      assert x < k ==> !Takes(core, held, x, false);
    }
    if k < |core| { RankMonotone(core, k + 1, |core|); }
  }

  lemma NoRoomFilled(core: seq<int>, held: seq<int>, f: nat)
    requires |core| == |held| && Filled(core, held, f) && Rank(core, |core|) <= f
    ensures Filled(core, held, f + 1)
  {
    var g := f + 1;
    forall k | 0 <= k < |core| ensures FilledAt(core, held, g, k) {
      assert FilledAt(core, held, f, k);
      RankMonotone(core, k + 1, |core|);
    }
  }

  // Threads sit in usable slots only; from the second pass on, in all of them.
  ghost predicate Spread(procs: seq<int>, a: seq<int>, flag: bool) {
    && |a| == |procs|
    && forall s :: 0 <= s < |a| ==> a[s] >= 0 && (a[s] > 0 ==> Usable(procs, s)) && (flag && Usable(procs, s) ==> a[s] > 0)
  }

  // How many cores the j-th round of a later pass visits: as many as have at least j
  // processors, or if none has, all that have any.
  function Visits(nproc: seq<int>, j: nat): nat {
    if AtLeast(nproc, j) > 0 then AtLeast(nproc, j) else AtLeast(nproc, 1)
  }

  function Upto(n: nat): (r: seq<int>)
    ensures |r| == n && forall k :: 0 <= k < n ==> r[k] == k
  {
    seq(n, k => k)
  }

  // The cores visited in the first r rounds of a later pass, as numbers among those with processors.
  function Order(nproc: seq<int>, r: nat): seq<int> {
    if r == 0 then [] else Order(nproc, r - 1) + Upto(Visits(nproc, r))
  }

  lemma {:induction false} OrderGrows(nproc: seq<int>, q: nat, r: nat)
    requires q <= r
    ensures Order(nproc, q) <= Order(nproc, r)
  {
    if q < r { OrderGrows(nproc, q, r - 1); }
  }

  // How many of the first e threads handed out in later passes go to core number m.
  function Given(order: seq<int>, e: nat, m: int): nat
    requires order != []
  {
    if e == 0 then 0 else Given(order, e - 1, m) + if order[(e - 1) % |order|] == m then 1 else 0
  }

  // All slots with a processor hold one thread, and the e threads handed out later are on
  // the first processors of the cores, which are numbered as `numbers` says.
  ghost predicate Extras(procs: seq<int>, width: nat, numbers: seq<int>, a: seq<int>, order: seq<int>, e: nat)
    requires |procs| == |a| == |numbers| * width && order != []
  {
    forall c :: 0 <= c < |numbers| ==> ExtraAt(procs, width, numbers, a, order, e, c)
  }

  ghost predicate ExtraAt(procs: seq<int>, width: nat, numbers: seq<int>, a: seq<int>, order: seq<int>, e: nat, c: nat)
    requires |procs| == |a| == |numbers| * width && order != [] && c < |numbers|
  {
    InRange(c, |numbers|, width);
    ExtraCore(Core(procs, width, c), Core(a, width, c), Given(order, e, numbers[c]))
  }

  // The number of each core among those with processors.
  ghost predicate Numbered(procs: seq<int>, width: nat, numbers: seq<int>) {
    |procs| == |numbers| * width && forall c :: 0 <= c < |numbers| ==> NumberOf(procs, width, c, numbers[c])
  }

  ghost predicate NumberOf(procs: seq<int>, width: nat, c: nat, m: int) {
    c * width <= |procs| && m == Inhabited(procs, width, c)
  }

  // The numbers of the cores, and the order in which a later pass visits them.
  datatype Plan = Plan(numbers: seq<int>, order: seq<int>)

  // A later pass, with e threads handed out since the first one.
  ghost predicate Later(procs: seq<int>, width: nat, ncores: nat, a: seq<int>, plan: Plan, e: nat) {
    && |procs| == |a| == ncores * width && |plan.numbers| == ncores && plan.order != []
    && Numbered(procs, width, plan.numbers) && Extras(procs, width, plan.numbers, a, plan.order, e)
  }

  // From place `at` of the order on, the first n cores follow, and e threads lead there.
  ghost predicate Upcoming(order: seq<int>, e: nat, at: nat, n: nat) {
    order != [] && e % |order| == at && at + n <= |order| && forall y :: 0 <= y < n ==> order[at..][y] == y
  }

  ghost predicate ExtraCore(core: seq<int>, held: seq<int>, extra: int)
    requires |core| == |held|
  {
    forall k :: 0 <= k < |core| ==> ExtraSlot(core, held, extra, k)
  }

  ghost predicate ExtraSlot(core: seq<int>, held: seq<int>, extra: int, k: nat)
    requires k < |core| == |held|
  {
    held[k] == if core[k] == -1 then 0 else if Rank(core, k) == 0 then 1 + extra else 1
  }

  // The search of one core for a slot, and the increment.
  method PlaceOn(procs: seq<int>, width: nat, i: nat, newarr: array<int>, flag: bool) returns (k: int)
    requires newarr.Length == |procs| && (i + 1) * width <= |procs|
    modifies newarr
    ensures FirstTaken(Core(procs, width, i), Core(old(newarr[..]), width, i), k, flag)
    ensures k == width ==> newarr[..] == old(newarr[..])
    ensures k < width ==>
      0 <= i * width + k < |procs| && newarr[..] == old(newarr[..])[i * width + k := old(newarr[..])[i * width + k] + 1]
  {
    ghost var core, held := Core(procs, width, i), Core(newarr[..], width, i);
    k := 0;
    while k < width
      invariant 0 <= k <= width && newarr[..] == old(newarr[..])
      invariant forall x :: 0 <= x < k ==> !Takes(core, held, x, flag)
    {
      CoreAt(procs, width, i, k);
      CoreAt(newarr[..], width, i, k);
      if procs[i * width + k] != -1 {
        if newarr[i * width + k] == 0 {
          newarr[i * width + k] := 1;
          return;
        } else if flag {
          newarr[i * width + k] := newarr[i * width + k] + 1;
          return;
        }
      }
      k := k + 1;
    }
  }

  // The effect of one increment on the table.
  lemma Placed(procs: seq<int>, width: nat, ncores: nat, a: seq<int>, i: nat, k: nat, flag: bool)
    requires |procs| == |a| == ncores * width && i < ncores && k < width && (i + 1) * width <= |procs|
    requires Spread(procs, a, flag) && FirstTaken(Core(procs, width, i), Core(a, width, i), k, flag)
    ensures var s := i * width + k;
            0 <= s < |a| && var a' := a[s := a[s] + 1]; Spread(procs, a', flag) && Sum(a') == Sum(a) + 1
  {
    CoreAt(procs, width, i, k);
    CoreAt(a, width, i, k);
    OneMoreAt(procs, a, i * width + k, flag);
  }

  lemma OneMoreAt(procs: seq<int>, a: seq<int>, s: nat, flag: bool)
    requires s < |a| && Spread(procs, a, flag) && Usable(procs, s)
    ensures Spread(procs, a[s := a[s] + 1], flag) && Sum(a[s := a[s] + 1]) == Sum(a) + 1
  {
    SumUpdate(a, s, a[s] + 1);
  }

  // First pass, round j: core i takes one thread more if it has room.
  lemma LevelPlaced(procs: seq<int>, width: nat, ncores: nat, a: seq<int>, j: nat, i: nat, k: nat, count: int)
    requires |procs| == |a| == ncores * width && i < ncores && (i + 1) * width <= |procs| && j > 0
    requires Levels(procs, width, ncores, a, j, i) && CountsCore(procs, width, i, count)
    requires FirstTaken(Core(procs, width, i), Core(a, width, i), k, false)
    ensures k < width <==> count >= j
    ensures k == width ==> Levels(procs, width, ncores, a, j, i + 1)
    ensures k < width ==>
      0 <= i * width + k < |a| && Levels(procs, width, ncores, a[i * width + k := a[i * width + k] + 1], j, i + 1)
  {
    var core, held := Core(procs, width, i), Core(a, width, i);
    assert LevelAt(procs, width, ncores, a, j, i, i);
    NextFilled(core, held, k, j - 1);
    var a' := a;
    if k < width {
      CoreAt(a, width, i, k);
      a' := a[i * width + k := a[i * width + k] + 1];
    }
    var e := i + 1;
    forall c | 0 <= c < ncores ensures LevelAt(procs, width, ncores, a', j, e, c) {
      InRange(c, ncores, width);
      assert LevelAt(procs, width, ncores, a, j, i, c);
      if k < width { CoreUpdate(a, width, i, k, a[i * width + k] + 1, c); }
      assert c != i ==> Core(a', width, c) == Core(a, width, c);
    }
  }

  // Cores without room need not be visited.
  lemma LevelSkipped(procs: seq<int>, width: nat, ncores: nat, a: seq<int>, nproc: seq<int>, j: nat, i: nat, e: nat)
    requires |procs| == |a| == ncores * width && i <= e <= ncores == |nproc| && j > 0
    requires Levels(procs, width, ncores, a, j, i) && CountsCores(procs, width, nproc)
    requires forall c :: i <= c < e ==> nproc[c] < j
    ensures Levels(procs, width, ncores, a, j, e)
  {
    forall c | 0 <= c < ncores ensures LevelAt(procs, width, ncores, a, j, e, c) {
      assert LevelAt(procs, width, ncores, a, j, i, c) && CountsCore(procs, width, c, nproc[c]);
      LevelSkippedAt(procs, width, ncores, a, nproc[c], j, i, e, c);
    }
  }

  lemma LevelSkippedAt(procs: seq<int>, width: nat, ncores: nat, a: seq<int>, count: int, j: nat, i: nat, e: nat, c: nat)
    requires |procs| == |a| == ncores * width && c < ncores && j > 0 && i <= e
    requires LevelAt(procs, width, ncores, a, j, i, c) && CountsCore(procs, width, c, count) && (i <= c < e ==> count < j)
    ensures LevelAt(procs, width, ncores, a, j, e, c)
  {
    InRange(c, ncores, width);
    var core, held := Core(procs, width, c), Core(a, width, c);
    if i <= c < e { NoRoomFilled(core, held, j - 1); }
  }

  lemma {:induction false} NoneLeft(a: seq<int>, i: nat, j: int)
    requires i <= |a| && AtLeast(a[..i], j) == AtLeast(a, j)
    ensures forall c :: i <= c < |a| ==> a[c] < j
  {
    if i < |a| {
      var n := |a| - 1;
      PrefixAtLeast(a[..n], i, j);
      assert a[..n][..i] == a[..i];
      NoneLeft(a[..n], i, j);
    }
  }

  lemma {:induction false} PrefixAtLeast(a: seq<int>, i: nat, j: int)
    requires i <= |a|
    ensures AtLeast(a[..i], j) <= AtLeast(a, j)
  {
    if i < |a| {
      PrefixAtLeast(a[..|a| - 1], i, j);
      assert a[..|a| - 1][..i] == a[..i];
    } else {
      assert a[..i] == a;
    }
  }

  ghost predicate Counting(procs: seq<int>, width: nat, ncores: nat, nproc: seq<int>) {
    |procs| == ncores * width && |nproc| == ncores && CountsCores(procs, width, nproc)
  }

  // One core's turn in round j; the result says whether it got a thread.
  method Turn(procs: seq<int>, width: nat, ncores: nat, ghost nproc: seq<int>, newarr: array<int>, j: nat, i: nat, flag: bool,
              ghost plan: Plan, ghost e: nat)
    returns (placed: bool)
    requires Counting(procs, width, ncores, nproc) && newarr.Length == |procs| && i < ncores && j > 0 && nproc[i] > 0
    requires Spread(procs, newarr[..], flag)
    requires !flag ==> Levels(procs, width, ncores, newarr[..], j, i)
    requires flag ==> Later(procs, width, ncores, newarr[..], plan, e) && plan.order[e % |plan.order|] == plan.numbers[i]
    modifies newarr
    ensures Spread(procs, newarr[..], flag) && Sum(newarr[..]) == old(Sum(newarr[..])) + if placed then 1 else 0
    ensures !flag ==> Levels(procs, width, ncores, newarr[..], j, i + 1) && (placed <==> nproc[i] >= j)
    ensures flag ==> placed && Later(procs, width, ncores, newarr[..], plan, e + 1)
  {
    InRange(i, ncores, width);
    ghost var a := newarr[..];
    assert CountsCore(procs, width, i, nproc[i]);
    var k := PlaceOn(procs, width, i, newarr, flag);
    placed := k < width;
    if k < width {
      Placed(procs, width, ncores, a, i, k, flag);
    }
    if !flag {
      LevelPlaced(procs, width, ncores, a, j, i, k, nproc[i]);
    } else {
      SomeTaken(Core(procs, width, i), Core(a, width, i), k);
      ExtraPlaced(procs, width, plan.numbers, a, plan.order, e, i, k);
    }
  }

  // With the flag set, a core with a usable slot always takes a thread.
  lemma SomeTaken(core: seq<int>, held: seq<int>, k: int)
    requires |core| == |held| && FirstTaken(core, held, k, true) && Rank(core, |core|) > 0
    ensures k < |core|
  {
    if k == |core| {
      forall x | 0 <= x < |core| ensures core[x] == -1 { assert !Takes(core, held, x, true); }
      RankBound(core, |core|, 0);
    }
  }

  lemma ExtraSlotPlaced(core: seq<int>, held: seq<int>, extra: int, k: nat)
    requires |core| == |held| && ExtraCore(core, held, extra) && k < |core| && FirstTaken(core, held, k, true)
    ensures ExtraCore(core, held[k := held[k] + 1], extra + 1)
  {
    forall x | 0 <= x < k ensures core[x] == -1 { assert !Takes(core, held, x, true); }
    RankBound(core, k, 0);
    var held', more := held[k := held[k] + 1], extra + 1;
    forall x | 0 <= x < |core| ensures ExtraSlot(core, held', more, x) {
      assert ExtraSlot(core, held, extra, x);
      if x > k { RankMonotone(core, k + 1, x); }
    }
  }

  lemma NoSlots(core: seq<int>, held: seq<int>, extra: int, other: int)
    requires |core| == |held| && ExtraCore(core, held, extra) && (extra != other ==> Rank(core, |core|) == 0)
    ensures ExtraCore(core, held, other)
  {
    forall k | 0 <= k < |core| ensures ExtraSlot(core, held, other, k) {
      assert ExtraSlot(core, held, extra, k);
      RankMonotone(core, k + 1, |core|);
    }
  }

  // Later passes: a core in its turn takes one thread more on its first processor.
  lemma ExtraPlaced(procs: seq<int>, width: nat, numbers: seq<int>, a: seq<int>, order: seq<int>, e: nat, i: nat, k: nat)
    requires |procs| == |a| == |numbers| * width && order != [] && i < |numbers| && (i + 1) * width <= |procs| && k < width
    requires order[e % |order|] == numbers[i] && Numbered(procs, width, numbers)
    requires Extras(procs, width, numbers, a, order, e)
    requires FirstTaken(Core(procs, width, i), Core(a, width, i), k, true)
    ensures 0 <= i * width + k < |a| && Extras(procs, width, numbers, a[i * width + k := a[i * width + k] + 1], order, e + 1)
  {
    CoreAt(a, width, i, k);
    var a', f := a[i * width + k := a[i * width + k] + 1], e + 1;
    forall c | 0 <= c < |numbers| ensures ExtraAt(procs, width, numbers, a', order, f, c) {
      InRange(c, |numbers|, width);
      CoreUpdate(a, width, i, k, a[i * width + k] + 1, c);
      assert ExtraAt(procs, width, numbers, a, order, e, c);
      if c != i { Apart(procs, width, numbers, c, i); }
      CoreMoves(Core(procs, width, c), Core(a, width, c), Core(a', width, c), Core(procs, width, i), Core(a, width, i), k, c == i,
                order, e, numbers[c], numbers[i]);
    }
  }

  // The same, told by one core.
  lemma CoreMoves(core: seq<int>, held: seq<int>, held': seq<int>, coreI: seq<int>, heldI: seq<int>, k: nat, here: bool,
                  order: seq<int>, e: nat, m: int, n: int)
    requires |core| == |held| == |held'| == |coreI| == |heldI| && k < |core| && order != [] && order[e % |order|] == n
    requires ExtraCore(core, held, Given(order, e, m)) && FirstTaken(coreI, heldI, k, true)
    requires here ==> core == coreI && held == heldI && m == n && held' == held[k := held[k] + 1]
    requires !here ==> held' == held && (Rank(core, |core|) > 0 && Rank(coreI, |coreI|) > 0 ==> m != n)
    ensures ExtraCore(core, held', Given(order, e + 1, m))
  {
    if here {
      ExtraSlotPlaced(core, held, Given(order, e, m), k);
    } else {
      TakenIsInhabited(coreI, heldI, k);
      NoSlots(core, held, Given(order, e, m), Given(order, e + 1, m));
    }
  }

  lemma Apart(procs: seq<int>, width: nat, numbers: seq<int>, c: nat, d: nat)
    requires Numbered(procs, width, numbers) && c < |numbers| && d < |numbers| && c != d
    requires (c + 1) * width <= |procs| && (d + 1) * width <= |procs|
    ensures Rank(Core(procs, width, c), width) > 0 && Rank(Core(procs, width, d), width) > 0 ==> numbers[c] != numbers[d]
  {
    assert NumberOf(procs, width, c, numbers[c]) && NumberOf(procs, width, d, numbers[d]);
    HasRank(Core(procs, width, c));
    HasRank(Core(procs, width, d));
    if Rank(Core(procs, width, c), width) > 0 && Rank(Core(procs, width, d), width) > 0 { NotSame(procs, width, |numbers|, c, d); }
  }

  lemma TakenIsInhabited(core: seq<int>, held: seq<int>, k: nat)
    requires |core| == |held| && k < |core| && FirstTaken(core, held, k, true)
    ensures Rank(core, |core|) > 0
  {
    RankMonotone(core, k + 1, |core|);
  }

  // Cores with processors have different numbers.
  lemma NotSame(procs: seq<int>, width: nat, ncores: nat, c: nat, d: nat)
    requires |procs| == ncores * width && c < ncores && d < ncores && c != d
    requires (c + 1) * width <= |procs| && (d + 1) * width <= |procs| && c * width <= |procs| && d * width <= |procs|
    requires CoreMask(Core(procs, width, c)) != {} && CoreMask(Core(procs, width, d)) != {}
    ensures Inhabited(procs, width, c) != Inhabited(procs, width, d)
  {
    Base(c, width, |procs|);
    Base(d, width, |procs|);
    if c < d { MoreInhabited(procs, width, c, d); } else { MoreInhabited(procs, width, d, c); }
  }

  // The cores with at least one processor are those that are inhabited.
  lemma {:induction false} InhabitedCount(procs: seq<int>, width: nat, ncores: nat, nproc: seq<int>, n: nat)
    requires Counting(procs, width, ncores, nproc) && n <= ncores && n * width <= |procs|
    ensures Inhabited(procs, width, n) == AtLeast(nproc[..n], 1)
  {
    if n > 0 {
      InRange(n - 1, n, width);
      NotBelow(n, n - 1, width);
      InhabitedCount(procs, width, ncores, nproc, n - 1);
      assert nproc[..n][..n - 1] == nproc[..n - 1];
      assert CountsCore(procs, width, n - 1, nproc[n - 1]);
      HasRank(Core(procs, width, n - 1));
    }
  }

  lemma HasRank(core: seq<int>)
    ensures Rank(core, |core|) > 0 <==> CoreMask(core) != {}
  {
    if Rank(core, |core|) == 0 {
      forall k | 0 <= k < |core| ensures core[k] == -1 { RankMonotone(core, k + 1, |core|); }
    } else if CoreMask(core) == {} {
      forall k | 0 <= k < |core| ensures core[k] == -1 { if core[k] != -1 { assert core[k] in CoreMask(core); } }
      RankBound(core, |core|, 0);
    }
  }

  lemma {:induction false} MoreAtLeast(nproc: seq<int>, j: nat)
    requires j > 0
    ensures AtLeast(nproc, j) <= AtLeast(nproc, 1)
  {
    if nproc != [] { MoreAtLeast(nproc[..|nproc| - 1], j); }
  }

  lemma ModAdd(e: nat, at: nat, x: nat, l: nat)
    requires l > 0 && e % l == at && at + x < l
    ensures (e + x) % l == at + x
  {
    var q := e / l;
    assert e == q * l + at;
    QuotientIs(e + x, l, q, at + x);
  }

  lemma ModStep(e: nat, l: nat)
    requires l > 0 && e % l == 0
    ensures (e + l) % l == 0
  {
    var q := e / l;
    assert e + l == (q + 1) * l;
    QuotientIs(e + l, l, q + 1, 0);
  }

  // What has been reached when core c comes up in round j.
  ghost predicate RoundAt(procs: seq<int>, width: nat, ncores: nat, nproc: seq<int>, a: seq<int>, j: nat, flag: bool,
                          plan: Plan, e: nat, given: int, cnt: int, c: int)
    requires |procs| == |a| == ncores * width && |nproc| == ncores && 0 <= c <= ncores && given >= 0
  {
    forall d {:trigger RoundOn(procs, width, ncores, nproc, a, j, flag, plan, e, given, cnt, d)} ::
      d == c ==> RoundOn(procs, width, ncores, nproc, a, j, flag, plan, e, given, cnt, d)
  }

  ghost predicate RoundOn(procs: seq<int>, width: nat, ncores: nat, nproc: seq<int>, a: seq<int>, j: nat, flag: bool,
                          plan: Plan, e: nat, given: int, cnt: int, c: int)
    requires |procs| == |a| == ncores * width && |nproc| == ncores && 0 <= c <= ncores && given >= 0
  {
    && Spread(procs, a, flag) && given <= AtLeast(nproc[..c], 1) && (flag || j == 1 ==> given == AtLeast(nproc[..c], 1))
    && if flag
       then
         && Later(procs, width, ncores, a, plan, e + given)
         && cnt == AtLeast(nproc, j) - given && (AtLeast(nproc, j) > 0 ==> cnt >= 0)
       else Levels(procs, width, ncores, a, j, c) && cnt == AtLeast(nproc, j) - AtLeast(nproc[..c], j)
  }

  lemma CoreSkipped(procs: seq<int>, width: nat, ncores: nat, nproc: seq<int>, a: seq<int>, j: nat, flag: bool,
                    plan: Plan, e: nat, given: nat, cnt: int, c: nat)
    requires Counting(procs, width, ncores, nproc) && |a| == |procs| && c < ncores && nproc[c] == 0 && j > 0
    requires RoundAt(procs, width, ncores, nproc, a, j, flag, plan, e, given, cnt, c)
    ensures RoundAt(procs, width, ncores, nproc, a, j, flag, plan, e, given, cnt, c + 1)
  {
    assert RoundOn(procs, width, ncores, nproc, a, j, flag, plan, e, given, cnt, c);
    assert nproc[..c + 1][..c] == nproc[..c];
    if !flag { LevelSkipped(procs, width, ncores, a, nproc, j, c, c + 1); }
  }

  // Core c comes up; without a processor it is passed over.
  method AtCore(procs: seq<int>, width: nat, ncores: nat, nproc: seq<int>, newarr: array<int>, j: nat, flag: bool,
                cnt0: int, nth0: int, ghost plan: Plan, ghost e: nat, ghost at: nat, ghost given: nat, c: nat)
    returns (cnt: int, nth: int)
    requires Counting(procs, width, ncores, nproc) && newarr.Length == |procs| && j > 0 && c < ncores && nproc[c] >= 0
    requires RoundAt(procs, width, ncores, nproc, newarr[..], j, flag, plan, e, given, cnt0, c) && nth0 > 0
    requires flag ==> Upcoming(plan.order, e, at, Visits(nproc, j)) && (AtLeast(nproc, j) > 0 ==> cnt0 > 0)
    modifies newarr
    ensures nth0 - 1 <= nth <= nth0 && Sum(newarr[..]) + nth == old(Sum(newarr[..])) + nth0
    ensures RoundAt(procs, width, ncores, nproc, newarr[..], j, flag, plan, e, given + (nth0 - nth), cnt, c + 1)
    ensures if nproc[c] == 0 then nth == nth0 && cnt == cnt0 else flag || j == 1 ==> nth < nth0
    ensures flag && AtLeast(nproc, j) > 0 ==> cnt >= 0
  {
    if nproc[c] == 0 {
      CoreSkipped(procs, width, ncores, nproc, newarr[..], j, flag, plan, e, given, cnt0, c);
      cnt, nth := cnt0, nth0;
    } else {
      cnt, nth := Visit(procs, width, ncores, nproc, newarr, j, flag, cnt0, nth0, plan, e, at, given, c);
    }
  }

  // A core with a processor comes up.
  method Visit(procs: seq<int>, width: nat, ncores: nat, ghost nproc: seq<int>, newarr: array<int>, j: nat, flag: bool,
               cnt0: int, nth0: int, ghost plan: Plan, ghost e: nat, ghost at: nat, ghost given: nat, c: nat)
    returns (cnt: int, nth: int)
    requires Counting(procs, width, ncores, nproc) && newarr.Length == |procs| && j > 0 && c < ncores && nproc[c] > 0
    requires RoundAt(procs, width, ncores, nproc, newarr[..], j, flag, plan, e, given, cnt0, c) && nth0 > 0
    requires flag ==> Upcoming(plan.order, e, at, Visits(nproc, j)) && (AtLeast(nproc, j) > 0 ==> cnt0 > 0)
    modifies newarr
    ensures nth0 - 1 <= nth <= nth0 && Sum(newarr[..]) + nth == old(Sum(newarr[..])) + nth0
    ensures RoundAt(procs, width, ncores, nproc, newarr[..], j, flag, plan, e, given + (nth0 - nth), cnt, c + 1)
    ensures flag || j == 1 ==> nth < nth0
    ensures flag && AtLeast(nproc, j) > 0 ==> cnt >= 0
  {
    assert RoundOn(procs, width, ncores, nproc, newarr[..], j, flag, plan, e, given, cnt0, c);
    cnt, nth := cnt0, nth0;
    if flag { ItsTurn(procs, width, ncores, nproc, plan, e, at, j, c); }
    assert nproc[..c + 1][..c] == nproc[..c];
    var placed := Turn(procs, width, ncores, nproc, newarr, j, c, flag, plan, e + given);
    if placed {
      cnt := cnt - 1;
      nth := nth - 1;
    }
  }

  // No core from c on takes a thread in this round of the first pass.
  lemma RoundOver(procs: seq<int>, width: nat, ncores: nat, nproc: seq<int>, a: seq<int>, j: nat, flag: bool,
                  plan: Plan, e: nat, given: nat, cnt: int, c: nat)
    requires Counting(procs, width, ncores, nproc) && |a| == |procs| && c <= ncores && j > 0
    requires RoundAt(procs, width, ncores, nproc, a, j, flag, plan, e, given, cnt, c) && (cnt == 0 || c == ncores)
    ensures !flag ==> Levels(procs, width, ncores, a, j, ncores)
    ensures flag && (c == ncores || given > 0) ==> given == Visits(nproc, j)
  {
    assert RoundOn(procs, width, ncores, nproc, a, j, flag, plan, e, given, cnt, c);
    assert nproc[..ncores] == nproc;
    MoreAtLeast(nproc, j);
    PrefixAtLeast(nproc, c, 1);
    if !flag {
      NoneLeft(nproc, c, j);
      LevelSkipped(procs, width, ncores, a, nproc, j, c, ncores);
    }
  }

  // The loop over the cores; it stops before core c.
  method Sweep(procs: seq<int>, width: nat, ncores: nat, nproc: seq<int>, newarr: array<int>, j: nat, total: int,
               flag: bool, nth0: int, ghost plan: Plan, ghost e: nat, ghost at: nat) returns (nth: int, ghost cnt: int, ghost c: nat)
    requires Counting(procs, width, ncores, nproc) && newarr.Length == |procs| && j > 0 && nth0 > 0
    requires total == AtLeast(nproc, j) && forall d :: 0 <= d < ncores ==> nproc[d] >= 0
    requires RoundAt(procs, width, ncores, nproc, newarr[..], j, flag, plan, e, 0, total, 0)
    requires flag ==> Upcoming(plan.order, e, at, Visits(nproc, j))
    modifies newarr
    ensures 0 <= nth <= nth0 && c <= ncores && Sum(newarr[..]) == old(Sum(newarr[..])) + (nth0 - nth)
    ensures RoundAt(procs, width, ncores, nproc, newarr[..], j, flag, plan, e, nth0 - nth, cnt, c)
    ensures c == ncores || cnt == 0 || nth == 0
    ensures flag && c < ncores ==> nth < nth0
    ensures j == 1 && nth == nth0 ==> c == ncores
  {
    nth := nth0;
    var left := total;
    ghost var before := Sum(newarr[..]);
    for i := 0 to ncores
      invariant 0 < nth <= nth0 && Sum(newarr[..]) == before + (nth0 - nth)
      invariant RoundAt(procs, width, ncores, nproc, newarr[..], j, flag, plan, e, nth0 - nth, left, i)
      invariant flag && total > 0 ==> left > 0
    {
      left, nth := AtCore(procs, width, ncores, nproc, newarr, j, flag, left, nth, plan, e, at, nth0 - nth, i);
      if nproc[i] != 0 && (left == 0 || nth == 0) {
        cnt, c := left, i + 1;
        return;
      }
    }
    cnt, c := left, ncores;
  }

  lemma SomeAtLeast(nproc: seq<int>)
    ensures AtLeast(nproc, 1) > 0 <==> exists d :: 0 <= d < |nproc| && nproc[d] > 0
  {
    if d :| 0 <= d < |nproc| && nproc[d] > 0 {
      assert nproc[..d + 1][..d] == nproc[..d];
      PrefixAtLeast(nproc, d + 1, 1);
    } else {
      NoneAbove(nproc, 1);
    }
  }

  // Round j: go over the cores once, with at most `total` threads to hand out.
  method Round(procs: seq<int>, width: nat, ncores: nat, nproc: seq<int>, newarr: array<int>, j: nat, total: int,
               flag: bool, nth0: int, ghost plan: Plan, ghost e: nat, ghost at: nat) returns (nth: int, ghost i: nat)
    requires Counting(procs, width, ncores, nproc) && newarr.Length == |procs| && j > 0 && nth0 > 0
    requires total == AtLeast(nproc, j) && forall c :: 0 <= c < ncores ==> nproc[c] >= 0
    requires Spread(procs, newarr[..], flag)
    requires !flag ==> Levels(procs, width, ncores, newarr[..], j, 0)
    requires flag ==> Later(procs, width, ncores, newarr[..], plan, e) && Upcoming(plan.order, e, at, Visits(nproc, j))
    modifies newarr
    ensures Spread(procs, newarr[..], flag) && 0 <= nth <= nth0 && Sum(newarr[..]) + nth == old(Sum(newarr[..])) + nth0
    ensures flag ==> Later(procs, width, ncores, newarr[..], plan, e + (nth0 - nth)) && (nth > 0 ==> nth0 - nth == Visits(nproc, j))
    ensures !flag ==> i <= ncores && Levels(procs, width, ncores, newarr[..], j, i) && (nth > 0 ==> i == ncores)
    ensures (j == 1 && AtLeast(nproc, 1) > 0 ==> nth < nth0) && (AtLeast(nproc, 1) == 0 ==> nth == nth0)
  {
    ghost var cnt;
    nth, cnt, i := Sweep(procs, width, ncores, nproc, newarr, j, total, flag, nth0, plan, e, at);
    RoundMeans(procs, width, ncores, nproc, newarr[..], j, flag, plan, e, nth0 - nth, cnt, i);
    if nth > 0 {
      RoundOver(procs, width, ncores, nproc, newarr[..], j, flag, plan, e, nth0 - nth, cnt, i);
      i := ncores;
    }
  }

  lemma RoundMeans(procs: seq<int>, width: nat, ncores: nat, nproc: seq<int>, a: seq<int>, j: nat, flag: bool,
                   plan: Plan, e: nat, given: nat, cnt: int, c: nat)
    requires Counting(procs, width, ncores, nproc) && |a| == |procs| && c <= ncores
    requires RoundAt(procs, width, ncores, nproc, a, j, flag, plan, e, given, cnt, c)
    ensures Spread(procs, a, flag) && if flag then Later(procs, width, ncores, a, plan, e + given) else Levels(procs, width, ncores, a, j, c)
    ensures AtLeast(nproc, 1) == 0 ==> given == 0
    ensures j == 1 && c == ncores && AtLeast(nproc, 1) > 0 ==> given > 0
  {
    assert RoundOn(procs, width, ncores, nproc, a, j, flag, plan, e, given, cnt, c);
    PrefixAtLeast(nproc, c, 1);
    assert nproc[..ncores] == nproc;
  }

  // Core c, which has a processor, is the next in the order after the cores before it.
  lemma ItsTurn(procs: seq<int>, width: nat, ncores: nat, nproc: seq<int>, plan: Plan, e: nat, at: nat, j: nat, c: nat)
    requires Counting(procs, width, ncores, nproc) && Numbered(procs, width, plan.numbers) && |plan.numbers| == ncores
    requires j > 0 && c < ncores && nproc[c] > 0 && Upcoming(plan.order, e, at, Visits(nproc, j))
    requires AtLeast(nproc, j) > 0 ==> AtLeast(nproc[..c], 1) < AtLeast(nproc, j)
    ensures plan.order[(e + AtLeast(nproc[..c], 1)) % |plan.order|] == plan.numbers[c]
  {
    var x := AtLeast(nproc[..c], 1);
    assert NumberOf(procs, width, c, plan.numbers[c]);
    InhabitedCount(procs, width, ncores, nproc, c);
    assert nproc[..c + 1][..c] == nproc[..c];
    PrefixAtLeast(nproc, c + 1, 1);
    assert x < Visits(nproc, j);
    ModAdd(e, at, x, |plan.order|);
    assert plan.order[at..][x] == x;
  }

  lemma SlotOfCore(s: nat, width: nat, ncores: nat) returns (c: nat, k: nat)
    requires s < ncores * width
    ensures c < ncores && k < width && s == c * width + k && (c + 1) * width <= ncores * width
  {
    c, k := 0, s;
    while k >= width
      invariant s == c * width + k && c * width <= s
      decreases k
    {
      assert (c + 1) * width == c * width + width;
      c, k := c + 1, k - width;
    }
    if c >= ncores { NotBelow(c, ncores, width); }
    InRange(c, ncores, width);
  }

  lemma NotBelow(c: nat, n: nat, width: nat)
    requires c >= n
    ensures c * width >= n * width
  {
  }

  // While the first pass lasts no slot holds two threads.
  lemma LevelsAreOnes(procs: seq<int>, width: nat, ncores: nat, a: seq<int>, j: int, i: int)
    requires |procs| == |a| == ncores * width && Levels(procs, width, ncores, a, j, i)
    ensures forall s :: 0 <= s < |a| ==> a[s] <= 1
  {
    forall s | 0 <= s < |a| ensures a[s] <= 1 {
      var c, k := SlotOfCore(s, width, ncores);
      CoreAt(a, width, c, k);
      assert LevelAt(procs, width, ncores, a, j, i, c);
      assert FilledAt(Core(procs, width, c), Core(a, width, c), if c < i then j else j - 1, k);
    }
  }

  // After as many rounds as a core has slots, every usable slot holds a thread.
  lemma AllFilled(procs: seq<int>, width: nat, ncores: nat, a: seq<int>)
    requires |procs| == |a| == ncores * width && Levels(procs, width, ncores, a, width, ncores) && Spread(procs, a, false)
    ensures Spread(procs, a, true)
  {
    forall s | 0 <= s < |a| && Usable(procs, s) ensures a[s] > 0 {
      var c, k := SlotOfCore(s, width, ncores);
      CoreAt(a, width, c, k);
      CoreAt(procs, width, c, k);
      assert LevelAt(procs, width, ncores, a, width, ncores, c);
      assert FilledAt(Core(procs, width, c), Core(a, width, c), width, k);
    }
  }

  // What has been reached before round r of a pass, in which `given` threads have been handed out.
  ghost predicate PassAt(procs: seq<int>, width: nat, ncores: nat, nproc: seq<int>, a: seq<int>, flag: bool,
                         plan: Plan, e: nat, given: int, r: int)
    requires |procs| == |a| == ncores * width && r > 0 && given >= 0
  {
    forall q {:trigger PassOn(procs, width, ncores, nproc, a, flag, plan, e, given, q)} ::
      q == r ==> PassOn(procs, width, ncores, nproc, a, flag, plan, e, given, q)
  }

  ghost predicate PassOn(procs: seq<int>, width: nat, ncores: nat, nproc: seq<int>, a: seq<int>, flag: bool,
                         plan: Plan, e: nat, given: int, r: int)
    requires |procs| == |a| == ncores * width && r > 0 && given >= 0
  {
    && Spread(procs, a, flag)
    && if flag then Later(procs, width, ncores, a, plan, e + given) && given == |Order(nproc, r - 1)|
       else Levels(procs, width, ncores, a, r, 0)
  }

  // Round r of a pass, which is the last one if it hands out the last thread.
  method PassRound(procs: seq<int>, width: nat, ncores: nat, nproc: seq<int>, newarr: array<int>, r: nat, total: int,
                   flag: bool, nth0: int, ghost plan: Plan, ghost e: nat, ghost given: nat) returns (nth: int, ghost i: nat)
    requires Counting(procs, width, ncores, nproc) && newarr.Length == |procs| && 0 < r <= width && nth0 > 0
    requires total == AtLeast(nproc, r) && forall c :: 0 <= c < ncores ==> nproc[c] >= 0
    requires PassAt(procs, width, ncores, nproc, newarr[..], flag, plan, e, given, r)
    requires flag ==> plan.order == Order(nproc, width) && plan.order != [] && e % |plan.order| == 0
    modifies newarr
    ensures 0 <= nth <= nth0 && Sum(newarr[..]) + nth == old(Sum(newarr[..])) + nth0 && Spread(procs, newarr[..], flag)
    ensures nth > 0 ==> PassAt(procs, width, ncores, nproc, newarr[..], flag, plan, e, given + (nth0 - nth), r + 1)
    ensures flag ==> Later(procs, width, ncores, newarr[..], plan, e + given + (nth0 - nth))
    ensures !flag && nth == 0 ==> Levels(procs, width, ncores, newarr[..], r, i)
    ensures (r == 1 && AtLeast(nproc, 1) > 0 ==> nth < nth0) && (AtLeast(nproc, 1) == 0 ==> nth == nth0)
  {
    assert PassOn(procs, width, ncores, nproc, newarr[..], flag, plan, e, given, r);
    if flag { ComesNext(nproc, width, r, e, given); }
    nth, i := Round(procs, width, ncores, nproc, newarr, r, total, flag, nth0, plan, e + given, given);
    if !flag && nth > 0 { NextRound(procs, width, ncores, newarr[..], r); }
  }

  // One pass: a round for each number of processors a core can have.
  method Pass(procs: seq<int>, width: nat, ncores: nat, nproc: seq<int>, atLeast: seq<int>, newarr: array<int>,
              flag: bool, nth0: int, ghost plan: Plan, ghost e: nat) returns (nth: int, ghost j: nat, ghost i: nat)
    requires Counting(procs, width, ncores, nproc) && newarr.Length == |procs| && nth0 > 0
    requires |atLeast| == width + 1 && forall x :: 0 <= x <= width ==> atLeast[x] == AtLeast(nproc, x)
    requires forall c :: 0 <= c < ncores ==> 0 <= nproc[c] <= width
    requires Spread(procs, newarr[..], flag)
    requires !flag ==> Levels(procs, width, ncores, newarr[..], 1, 0)
    requires flag ==> Later(procs, width, ncores, newarr[..], plan, e) && plan.order == Order(nproc, width) && e % |plan.order| == 0
    modifies newarr
    ensures !flag ==> forall s :: 0 <= s < newarr.Length ==> newarr[s] <= 1
    ensures Spread(procs, newarr[..], flag || nth > 0)
    ensures 0 <= nth <= nth0 && Sum(newarr[..]) + nth == old(Sum(newarr[..])) + nth0
    ensures flag ==> Later(procs, width, ncores, newarr[..], plan, e + (nth0 - nth)) && (nth > 0 ==> nth0 - nth == |plan.order|)
    ensures !flag && nth == 0 ==> Levels(procs, width, ncores, newarr[..], j, i)
    ensures nth < nth0 <==> exists c :: 0 <= c < ncores && nproc[c] > 0
  {
    nth, j, i := nth0, 1, 0;
    SomeAtLeast(nproc);
    if width == 0 {
      assert forall c :: 0 <= c < ncores ==> nproc[c] == 0;
    } else {
      nth, j, i := AllRounds(procs, width, ncores, nproc, atLeast, newarr, flag, nth0, plan, e);
      if nth > 0 {
        assert PassOn(procs, width, ncores, nproc, newarr[..], flag, plan, e, nth0 - nth, width + 1);
        PassOver(procs, width, ncores, newarr[..], flag);
      } else {
        FirstIsOnes(procs, width, ncores, newarr[..], j, i, flag);
      }
    }
  }

  method AllRounds(procs: seq<int>, width: nat, ncores: nat, nproc: seq<int>, atLeast: seq<int>, newarr: array<int>,
                   flag: bool, nth0: int, ghost plan: Plan, ghost e: nat) returns (nth: int, ghost j: nat, ghost i: nat)
    requires Counting(procs, width, ncores, nproc) && newarr.Length == |procs| && nth0 > 0 && width > 0
    requires |atLeast| == width + 1 && forall x :: 0 <= x <= width ==> atLeast[x] == AtLeast(nproc, x)
    requires forall c :: 0 <= c < ncores ==> nproc[c] >= 0
    requires PassAt(procs, width, ncores, nproc, newarr[..], flag, plan, e, 0, 1)
    requires flag ==> plan.order == Order(nproc, width) && plan.order != [] && e % |plan.order| == 0
    modifies newarr
    ensures 0 <= nth <= nth0 && Sum(newarr[..]) + nth == old(Sum(newarr[..])) + nth0 && Spread(procs, newarr[..], flag)
    ensures nth > 0 ==> PassAt(procs, width, ncores, nproc, newarr[..], flag, plan, e, nth0 - nth, width + 1)
    ensures flag ==> Later(procs, width, ncores, newarr[..], plan, e + (nth0 - nth))
    ensures !flag && nth == 0 ==> Levels(procs, width, ncores, newarr[..], j, i)
    ensures nth < nth0 <==> AtLeast(nproc, 1) > 0
  {
    nth, j, i := nth0, 1, 0;
    var r := 1;
    while r <= width
      invariant 1 <= r <= width + 1 && 0 < nth <= nth0
      invariant Sum(newarr[..]) + nth == old(Sum(newarr[..])) + nth0
      invariant PassAt(procs, width, ncores, nproc, newarr[..], flag, plan, e, nth0 - nth, r)
      invariant (r > 1 && AtLeast(nproc, 1) > 0 ==> nth < nth0) && (AtLeast(nproc, 1) == 0 ==> nth == nth0)
    {
      nth, i := PassRound(procs, width, ncores, nproc, newarr, r, atLeast[r], flag, nth, plan, e, nth0 - nth);
      j := r;
      if nth == 0 {
        return;
      }
      r := r + 1;
    }
    assert PassOn(procs, width, ncores, nproc, newarr[..], flag, plan, e, nth0 - nth, r);
  }

  lemma FirstIsOnes(procs: seq<int>, width: nat, ncores: nat, a: seq<int>, j: int, i: int, flag: bool)
    requires |procs| == |a| == ncores * width && (!flag ==> Levels(procs, width, ncores, a, j, i))
    ensures !flag ==> forall s :: 0 <= s < |a| ==> a[s] <= 1
  {
    if !flag { LevelsAreOnes(procs, width, ncores, a, j, i); }
  }

  // After its last round the first pass has filled all slots with a processor.
  lemma PassOver(procs: seq<int>, width: nat, ncores: nat, a: seq<int>, flag: bool)
    requires |procs| == |a| == ncores * width && Spread(procs, a, flag)
    requires !flag ==> Levels(procs, width, ncores, a, width + 1, 0)
    ensures Spread(procs, a, true) && (!flag ==> forall s :: 0 <= s < |a| ==> a[s] <= 1)
  {
    if !flag {
      LastRound(procs, width, ncores, a, width);
      AllFilled(procs, width, ncores, a);
      LevelsAreOnes(procs, width, ncores, a, width, ncores);
    }
  }

  // After the first r - 1 rounds the r-th one is due.
  lemma ComesNext(nproc: seq<int>, width: nat, r: nat, e: nat, done: int)
    requires 1 <= r <= width && done == |Order(nproc, r - 1)| && Order(nproc, width) != [] && e % |Order(nproc, width)| == 0
    ensures Upcoming(Order(nproc, width), e + done, done, Visits(nproc, r))
  {
    var order, q, v := Order(nproc, width), r - 1, Visits(nproc, r);
    OrderGrows(nproc, r, width);
    assert Order(nproc, r) == Order(nproc, q) + Upto(v);
    if AtLeast(nproc, 1) == 0 { NoOrder(nproc, width); }
    ModAdd(e, 0, done, |order|);
    forall y | 0 <= y < v ensures order[done..][y] == y { assert order[done + y] == Order(nproc, r)[done + y]; }
  }

  lemma {:induction false} NoOrder(nproc: seq<int>, r: nat)
    requires AtLeast(nproc, 1) == 0
    ensures Order(nproc, r) == []
  {
    if r > 0 {
      NoOrder(nproc, r - 1);
      MoreAtLeast(nproc, r);
    }
  }

  // The end of one round is the start of the next.
  lemma NextRound(procs: seq<int>, width: nat, ncores: nat, a: seq<int>, j: nat)
    requires |procs| == |a| == ncores * width && Levels(procs, width, ncores, a, j, ncores)
    ensures Levels(procs, width, ncores, a, j + 1, 0)
  {
    var l := j + 1;
    forall c | 0 <= c < ncores ensures LevelAt(procs, width, ncores, a, l, 0, c) {
      assert LevelAt(procs, width, ncores, a, j, ncores, c);
    }
  }

  // And the other way round.
  lemma LastRound(procs: seq<int>, width: nat, ncores: nat, a: seq<int>, j: nat)
    requires |procs| == |a| == ncores * width && Levels(procs, width, ncores, a, j + 1, 0)
    ensures Levels(procs, width, ncores, a, j, ncores)
  {
    var l := j + 1;
    forall c | 0 <= c < ncores ensures LevelAt(procs, width, ncores, a, j, ncores, c) {
      assert LevelAt(procs, width, ncores, a, l, 0, c);
    }
  }

  // One thread to a slot at most: as many threads as usable slots fill them all.
  lemma {:induction false} OnesSum(procs: seq<int>, a: seq<int>)
    requires Spread(procs, a, false) && forall s :: 0 <= s < |a| ==> a[s] <= 1
    ensures Sum(a) <= Rank(procs, |procs|)
    ensures Sum(a) == Rank(procs, |procs|) ==> Spread(procs, a, true)
  {
    if a != [] {
      var n := |a| - 1;
      OnesSum(procs[..n], a[..n]);
      RankPrefix(procs, n, n);
      assert forall s :: 0 <= s < n ==> Usable(procs[..n], s) == Usable(procs, s);
    }
  }

  // A thread in each usable slot: no more threads than usable slots leave none with two.
  lemma {:induction false} FullSum(procs: seq<int>, a: seq<int>)
    requires Spread(procs, a, true)
    ensures Sum(a) >= Rank(procs, |procs|)
    ensures Sum(a) == Rank(procs, |procs|) ==> forall s :: 0 <= s < |a| ==> a[s] <= 1
  {
    if a != [] {
      var n := |a| - 1;
      assert forall s :: 0 <= s < n ==> Usable(procs[..n], s) == Usable(procs, s);
      FullSum(procs[..n], a[..n]);
      RankPrefix(procs, n, n);
      assert Usable(procs, n) ==> a[n] > 0;
      forall s | 0 <= s < n ensures a[..n][s] == a[s] {}
    }
  }

  lemma {:induction false} RankPrefix(procs: seq<int>, n: nat, k: nat)
    requires k <= n <= |procs|
    ensures Rank(procs[..n], k) == Rank(procs, k)
  {
    if k > 0 { RankPrefix(procs, n, k - 1); }
  }

  /** The distribution loop. It ends because some slot is usable, hands out
      exactly `nthreads` threads, to usable slots only, and gives no slot a second
      thread while a usable one has none; while there are slots enough it fills
      the cores level by level, in their order. */
  method Distribute(procs: seq<int>, width: nat, ncores: nat, nproc: seq<int>, atLeast: seq<int>, newarr: array<int>,
                    nthreads: nat) returns (ghost j: nat, ghost i: nat, ghost plan: Plan)
    requires Counting(procs, width, ncores, nproc) && newarr.Length == |procs|
    requires |atLeast| == width + 1 && forall x :: 0 <= x <= width ==> atLeast[x] == AtLeast(nproc, x)
    requires forall c :: 0 <= c < ncores ==> 0 <= nproc[c] <= width
    requires exists c :: 0 <= c < ncores && nproc[c] > 0
    requires forall s :: 0 <= s < newarr.Length ==> newarr[s] == 0
    modifies newarr
    ensures Sum(newarr[..]) == nthreads && Spread(procs, newarr[..], false)
    ensures nthreads >= Rank(procs, |procs|) ==> Spread(procs, newarr[..], true)
    ensures nthreads <= Rank(procs, |procs|) ==> forall s :: 0 <= s < newarr.Length ==> newarr[s] <= 1
    ensures nthreads < Rank(procs, |procs|) ==> Levels(procs, width, ncores, newarr[..], j, i)
    ensures plan.order == Order(nproc, width)
    ensures nthreads >= Rank(procs, |procs|) ==> Later(procs, width, ncores, newarr[..], plan, nthreads - Rank(procs, |procs|))
  {
    plan := MakePlan(procs, width, ncores, nproc);
    ghost var full := Rank(procs, |procs|);
    var nth: int := nthreads;
    var flag := false;
    j, i := 1, 0;
    SumOfZeros(newarr[..]);
    ZeroLevels(procs, width, ncores, newarr[..]);
    ghost var inFirst := true;
    while nth > 0
      invariant nth >= 0 && Sum(newarr[..]) + nth == nthreads && Spread(procs, newarr[..], !inFirst)
      invariant inFirst ==> Levels(procs, width, ncores, newarr[..], j, i)
      invariant nth > 0 ==> flag == !inFirst && (inFirst ==> j == 1 && i == 0)
      invariant !inFirst ==> nthreads - nth >= full && Later(procs, width, ncores, newarr[..], plan, nthreads - nth - full)
      invariant !inFirst && nth > 0 ==> (nthreads - nth - full) % |plan.order| == 0
      decreases nth
    {
      ghost var e := if flag then nthreads - nth - full else 0;
      nth, j, i := Pass(procs, width, ncores, nproc, atLeast, newarr, flag, nth, plan, e);
      if !flag && nth > 0 { AfterFirst(procs, width, ncores, newarr[..], plan); }
      if flag && nth > 0 { ModStep(e, |plan.order|); }
      inFirst := !flag && nth == 0;
      flag := true;
    }
    if inFirst {
      LevelsAreOnes(procs, width, ncores, newarr[..], j, i);
      OnesSum(procs, newarr[..]);
      if nthreads == full { AfterFirst(procs, width, ncores, newarr[..], plan); }
    } else {
      FullSum(procs, newarr[..]);
    }
  }

  ghost predicate PlanFor(procs: seq<int>, width: nat, ncores: nat, plan: Plan) {
    Numbered(procs, width, plan.numbers) && |plan.numbers| == ncores && plan.order != []
  }

  lemma MakePlan(procs: seq<int>, width: nat, ncores: nat, nproc: seq<int>) returns (plan: Plan)
    requires Counting(procs, width, ncores, nproc) && exists c :: 0 <= c < ncores && nproc[c] > 0
    requires forall c :: 0 <= c < ncores ==> 0 <= nproc[c] <= width
    ensures PlanFor(procs, width, ncores, plan) && plan.order == Order(nproc, width)
  {
    plan := Plan(Numbers(procs, width, ncores, ncores), Order(nproc, width));
    var c :| 0 <= c < ncores && nproc[c] > 0;
    assert nproc[..c + 1][..c] == nproc[..c];
    PrefixAtLeast(nproc, c + 1, 1);
    OrderGrows(nproc, 1, width);
    assert Order(nproc, 1) == Order(nproc, 0) + Upto(Visits(nproc, 1));
  }

  ghost function Numbers(procs: seq<int>, width: nat, ncores: nat, n: nat): (numbers: seq<int>)
    requires |procs| == ncores * width && n <= ncores
    ensures |numbers| == n && forall c :: 0 <= c < n ==> NumberOf(procs, width, c, numbers[c])
  {
    if n == 0 then [] else
      NotBelow(ncores, n - 1, width);
      Numbers(procs, width, ncores, n - 1) + [Inhabited(procs, width, n - 1)]
  }

  // After the first pass each slot with a processor holds one thread.
  lemma AfterFirst(procs: seq<int>, width: nat, ncores: nat, a: seq<int>, plan: Plan)
    requires |procs| == |a| == ncores * width && PlanFor(procs, width, ncores, plan)
    requires Spread(procs, a, true) && forall s :: 0 <= s < |a| ==> a[s] <= 1
    ensures Sum(a) == Rank(procs, |procs|) && Later(procs, width, ncores, a, plan, 0)
  {
    OnesSum(procs, a);
    FullSum(procs, a);
    forall c | 0 <= c < ncores ensures ExtraAt(procs, width, plan.numbers, a, plan.order, 0, c) {
      InRange(c, ncores, width);
      OnesCore(procs, width, a, plan.order, plan.numbers[c], c);
    }
  }

  lemma OnesCore(procs: seq<int>, width: nat, a: seq<int>, order: seq<int>, m: int, c: nat)
    requires |procs| == |a| && (c + 1) * width <= |procs| && order != []
    requires Spread(procs, a, true) && forall s :: 0 <= s < |a| ==> a[s] <= 1
    ensures ExtraCore(Core(procs, width, c), Core(a, width, c), Given(order, 0, m))
  {
    var core, held, none := Core(procs, width, c), Core(a, width, c), Given(order, 0, m);
    forall k | 0 <= k < width ensures ExtraSlot(core, held, none, k) {
      CoreAt(procs, width, c, k);
      CoreAt(a, width, c, k);
      assert Usable(procs, c * width + k) <==> core[k] != -1;
    }
  }

  lemma ZeroLevels(procs: seq<int>, width: nat, ncores: nat, a: seq<int>)
    requires |procs| == |a| == ncores * width && forall s :: 0 <= s < |a| ==> a[s] == 0
    ensures Levels(procs, width, ncores, a, 1, 0)
  {
    forall c | 0 <= c < ncores ensures LevelAt(procs, width, ncores, a, 1, 0, c) {
      InRange(c, ncores, width);
      Base(c, width, |a|);
    }
  }

  // ---------- the table is determined ----------

  lemma {:induction false} SumsDiffer(a: seq<int>, b: seq<int>)
    requires |a| == |b| && forall s :: 0 <= s < |a| ==> a[s] <= b[s]
    ensures Sum(a) <= Sum(b) && (Sum(a) == Sum(b) ==> a == b)
  {
    if a != [] { SumsDiffer(a[..|a| - 1], b[..|b| - 1]); }
  }

  lemma FewerFilled(core: seq<int>, x: seq<int>, y: seq<int>, f: int, g: int, k: nat)
    requires |core| == |x| == |y| && Filled(core, x, f) && Filled(core, y, g) && f <= g && k < |core|
    ensures x[k] <= y[k]
  {
    assert FilledAt(core, x, f, k) && FilledAt(core, y, g, k);
  }

  // Of two tables in the first pass the one further on holds no fewer threads anywhere.
  lemma LevelsGrow(procs: seq<int>, width: nat, ncores: nat, a: seq<int>, b: seq<int>, j: int, i: int, l: int, k: int)
    requires |procs| == |a| == |b| == ncores * width && Levels(procs, width, ncores, a, j, i) && Levels(procs, width, ncores, b, l, k)
    requires j < l || (j == l && i <= k)
    ensures forall s :: 0 <= s < |a| ==> a[s] <= b[s]
  {
    forall s | 0 <= s < |a| ensures a[s] <= b[s] {
      var c, x := SlotOfCore(s, width, ncores);
      CoreAt(a, width, c, x);
      CoreAt(b, width, c, x);
      assert LevelAt(procs, width, ncores, a, j, i, c) && LevelAt(procs, width, ncores, b, l, k, c);
      FewerFilled(Core(procs, width, c), Core(a, width, c), Core(b, width, c), if c < i then j else j - 1, if c < k then l else l - 1, x);
    }
  }

  /** While there are slots enough, the number of threads determines the table. */
  lemma LevelsOneWay(procs: seq<int>, width: nat, ncores: nat, a: seq<int>, b: seq<int>, j: int, i: int, l: int, k: int)
    requires |procs| == |a| == |b| == ncores * width && Levels(procs, width, ncores, a, j, i) && Levels(procs, width, ncores, b, l, k)
    requires Sum(a) == Sum(b)
    ensures a == b
  {
    if j < l || (j == l && i <= k) {
      LevelsGrow(procs, width, ncores, a, b, j, i, l, k);
      SumsDiffer(a, b);
    } else {
      LevelsGrow(procs, width, ncores, b, a, l, k, j, i);
      SumsDiffer(b, a);
    }
  }

  lemma OneCount(procs: seq<int>, width: nat, ncores: nat, nproc: seq<int>, other: seq<int>)
    requires Counting(procs, width, ncores, nproc) && Counting(procs, width, ncores, other)
    ensures nproc == other
  {
    forall c | 0 <= c < ncores ensures nproc[c] == other[c] {
      assert CountsCore(procs, width, c, nproc[c]) && CountsCore(procs, width, c, other[c]);
    }
  }

  /** With more threads than slots, too: the plan is that of the machine, and what is on
      each slot follows from how many threads were handed out after the first pass. */
  lemma LaterOneWay(procs: seq<int>, width: nat, ncores: nat, a: seq<int>, b: seq<int>, plan: Plan, other: Plan, e: nat)
    requires Later(procs, width, ncores, a, plan, e) && Later(procs, width, ncores, b, other, e)
    requires PlanIs(procs, width, ncores, plan) && PlanIs(procs, width, ncores, other)
    ensures plan == other && a == b
  {
    var nproc :| Counting(procs, width, ncores, nproc) && plan.order == Order(nproc, width);
    var nproc' :| Counting(procs, width, ncores, nproc') && other.order == Order(nproc', width);
    OneCount(procs, width, ncores, nproc, nproc');
    forall c | 0 <= c < ncores ensures plan.numbers[c] == other.numbers[c] {
      assert NumberOf(procs, width, c, plan.numbers[c]) && NumberOf(procs, width, c, other.numbers[c]);
    }
    assert plan.numbers == other.numbers;
    forall s | 0 <= s < |a| ensures a[s] == b[s] {
      var c, k := SlotOfCore(s, width, ncores);
      CoreAt(a, width, c, k);
      CoreAt(b, width, c, k);
      assert ExtraAt(procs, width, plan.numbers, a, plan.order, e, c) && ExtraAt(procs, width, plan.numbers, b, plan.order, e, c);
      assert ExtraSlot(Core(procs, width, c), Core(a, width, c), Given(plan.order, e, plan.numbers[c]), k);
      assert ExtraSlot(Core(procs, width, c), Core(b, width, c), Given(plan.order, e, plan.numbers[c]), k);
    }
  }

  // ---------- the slot of one thread ----------

  // Slot i is the one at which the running sum of the table passes tid.
  ghost predicate Picks(a: seq<int>, tid: int, i: int) {
    0 <= i < |a| && Sum(a[..i]) <= tid < Sum(a[..i + 1])
  }

  lemma SumNext(a: seq<int>, i: nat)
    requires i < |a|
    ensures Sum(a[..i + 1]) == Sum(a[..i]) + a[i]
  {
    assert a[..i + 1][..i] == a[..i];
  }

  method Pick(a: array<int>, tid: nat) returns (i: nat)
    requires forall s :: 0 <= s < a.Length ==> a[s] >= 0
    ensures tid < Sum(a[..]) ==> Picks(a[..], tid, i)
    ensures tid >= Sum(a[..]) ==> i == a.Length
  {
    var sum := 0;
    i := 0;
    while i < a.Length
      invariant 0 <= i <= a.Length && sum == Sum(a[..i]) && sum <= tid
    {
      SumNext(a[..], i);
      assert a[..][..i] == a[..i] && a[..][..i + 1] == a[..i + 1];
      sum := sum + a[i];
      if sum > tid {
        GrowingSum(a[..], i + 1, a.Length);
        assert a[..][..a.Length] == a[..];
        return;
      }
      i := i + 1;
    }
    assert a[..i] == a[..];
  }

  lemma {:induction false} GrowingSum(a: seq<int>, i: nat, k: nat)
    requires i <= k <= |a| && forall s :: 0 <= s < |a| ==> a[s] >= 0
    ensures Sum(a[..i]) <= Sum(a[..k])
  {
    if i < k {
      GrowingSum(a, i, k - 1);
      SumNext(a, k - 1);
    }
  }

  /** Each thread is put in one slot. */
  lemma PicksOne(a: seq<int>, tid: int, i: int, k: int)
    requires forall s :: 0 <= s < |a| ==> a[s] >= 0
    requires Picks(a, tid, i) && Picks(a, tid, k)
    ensures i == k
  {
    if i < k { GrowingSum(a, i + 1, k); }
    if k < i { GrowingSum(a, k + 1, i); }
  }

  /** A slot with a[i] threads in the table is picked by exactly that many of the thread ids. */
  lemma PickedOften(a: seq<int>, i: nat)
    requires i < |a| && forall s :: 0 <= s < |a| ==> a[s] >= 0
    ensures |set t | 0 <= t < Sum(a) && Picks(a, t, i)| == a[i]
  {
    SumNext(a, i);
    GrowingSum(a, 0, i);
    GrowingSum(a, i + 1, |a|);
    assert a[..|a|] == a;
    var lo, hi := Sum(a[..i]), Sum(a[..i + 1]);
    IntervalSize(lo, hi);
    assert (set t | 0 <= t < Sum(a) && Picks(a, t, i)) == (set t | lo <= t < hi && Within(lo, hi, t));
  }

  // The usable processors of a core.
  ghost function CoreMask(core: seq<int>): set<int> {
    set k | 0 <= k < |core| && core[k] != -1 :: core[k]
  }

  method SetCore(procs: seq<int>, width: nat, c: nat) returns (mask: set<int>)
    requires (c + 1) * width <= |procs|
    ensures mask == CoreMask(Core(procs, width, c))
  {
    ghost var core := Core(procs, width, c);
    Base(c, width, |procs|);
    mask := {};
    for k := 0 to width
      invariant mask == set x | 0 <= x < k && core[x] != -1 :: core[x]
    {
      assert core[k] == procs[c * width + k];
      if procs[c * width + k] != -1 {
        mask := mask + {procs[c * width + k]};
      }
    }
  }

  // Slot s, or its whole core, seen as a mask.
  ghost predicate MaskFor(procs: seq<int>, width: nat, s: nat, fine: bool, mask: set<int>) {
    exists c {:trigger OfCore(procs, width, s, c, fine, mask)} :: OfCore(procs, width, s, c, fine, mask)
  }

  ghost predicate OfCore(procs: seq<int>, width: nat, s: nat, c: nat, fine: bool, mask: set<int>) {
    && s < |procs| && (c + 1) * width <= |procs| && c * width <= s < (c + 1) * width
    && Usable(procs, s) && procs[s] in mask
    && mask == if fine then {procs[s]} else CoreMask(Core(procs, width, c))
  }

  method SetMask(procs: seq<int>, width: nat, ncores: nat, slot: nat, fine: bool) returns (mask: set<int>)
    requires |procs| == ncores * width && slot < |procs| && Usable(procs, slot)
    ensures MaskFor(procs, width, slot, fine, mask)
  {
    ghost var c, k := SlotOfCore(slot, width, ncores);
    CoreQuotient(slot, c, k, width);
    CoreAt(procs, width, c, k);
    Base(c, width, |procs|);
    if fine {
      mask := {procs[slot]};
    } else {
      mask := SetCore(procs, width, slot / width);
      assert Core(procs, width, c)[k] in CoreMask(Core(procs, width, c));
    }
    assert OfCore(procs, width, slot, c, fine, mask);
  }

  // The order of the plan is the one of the machine.
  ghost predicate PlanIs(procs: seq<int>, width: nat, ncores: nat, plan: Plan) {
    exists nproc :: Counting(procs, width, ncores, nproc) && plan.order == Order(nproc, width)
  }

  // The table of threads per slot.
  method Table(procs: seq<int>, width: nat, ncores: nat, nthreads: nat) returns (newarr: array<int>, ghost j: nat, ghost l: nat, ghost plan: Plan)
    requires |procs| == ncores * width
    requires exists s :: 0 <= s < |procs| && Usable(procs, s)
    ensures fresh(newarr) && Sum(newarr[..]) == nthreads
    ensures Spread(procs, newarr[..], nthreads >= Rank(procs, |procs|))
    ensures nthreads <= Rank(procs, |procs|) ==> forall s :: 0 <= s < newarr.Length ==> newarr[s] <= 1
    ensures nthreads < Rank(procs, |procs|) ==> Levels(procs, width, ncores, newarr[..], j, l)
    ensures PlanIs(procs, width, ncores, plan)
    ensures nthreads >= Rank(procs, |procs|) ==> Later(procs, width, ncores, newarr[..], plan, nthreads - Rank(procs, |procs|))
  {
    var nproc := new int[ncores];
    var withX := new int[width + 1](_ => 0);
    var atLeast := new int[width + 1](_ => 0);
    CountCores(procs, width, ncores, nproc, withX);
    SumUp(nproc[..], width, withX, atLeast);
    SomeCore(procs, width, ncores, nproc[..]);
    newarr := new int[ncores * width](_ => 0);
    j, l, plan := Distribute(procs, width, ncores, nproc[..], atLeast[..], newarr, nthreads);
  }

  /** The mask of thread tid in a team with more threads than cores: a is the
      table, i the thread's slot in it. */
  method PlaceMany(procs: seq<int>, width: nat, ncores: nat, nthreads: nat, tid: nat, fine: bool)
    returns (mask: set<int>, a: seq<int>, i: nat, ghost j: nat, ghost l: nat, ghost plan: Plan)
    requires |procs| == ncores * width && ncores < nthreads && tid < nthreads
    requires exists s :: 0 <= s < |procs| && Usable(procs, s)
    ensures Sum(a) == nthreads && Spread(procs, a, nthreads >= Rank(procs, |procs|))
    ensures nthreads <= Rank(procs, |procs|) ==> forall s :: 0 <= s < |a| ==> a[s] <= 1
    ensures nthreads < Rank(procs, |procs|) ==> Levels(procs, width, ncores, a, j, l)
    ensures PlanIs(procs, width, ncores, plan)
    ensures nthreads >= Rank(procs, |procs|) ==> Later(procs, width, ncores, a, plan, nthreads - Rank(procs, |procs|))
    ensures Picks(a, tid, i) && MaskFor(procs, width, i, fine, mask)
  {
    var newarr;
    newarr, j, l, plan := Table(procs, width, ncores, nthreads);
    a := newarr[..];
    i := Pick(newarr, tid);
    SumNext(a, i);
    mask := SetMask(procs, width, ncores, i, fine);
  }

  lemma CoreQuotient(s: nat, c: nat, k: nat, width: nat)
    requires s == c * width + k && k < width
    ensures s / width == c
  {
    if s / width < c { InRange(s / width, c, width); }
    if s / width > c { InRange(c, s / width, width); }
  }

  lemma SomeCore(procs: seq<int>, width: nat, ncores: nat, nproc: seq<int>)
    requires Counting(procs, width, ncores, nproc)
    requires exists s :: 0 <= s < |procs| && Usable(procs, s)
    ensures exists c :: 0 <= c < ncores && nproc[c] > 0
  {
    var s :| 0 <= s < |procs| && Usable(procs, s);
    var c, k := SlotOfCore(s, width, ncores);
    CoreAt(procs, width, c, k);
    assert CountsCore(procs, width, c, nproc[c]);
    RankMonotone(Core(procs, width, c), k + 1, width);
    assert nproc[c] > 0;
  }

  // ---------- no more threads than cores ----------

  // How many of the first n cores have a usable slot.
  ghost function Inhabited(procs: seq<int>, width: nat, n: nat): nat
    requires n * width <= |procs|
  {
    if n == 0 then 0 else
      InRange(n - 1, n, width); NotBelow(n, n - 1, width);
      Inhabited(procs, width, n - 1) + (if CoreMask(Core(procs, width, n - 1)) != {} then 1 else 0)
  }

  method HasUsable(procs: seq<int>, width: nat, c: nat) returns (inMask: bool)
    requires (c + 1) * width <= |procs|
    ensures inMask <==> CoreMask(Core(procs, width, c)) != {}
  {
    ghost var core := Core(procs, width, c);
    Base(c, width, |procs|);
    inMask := false;
    for k := 0 to width
      invariant forall x :: 0 <= x < k ==> core[x] == -1
    {
      assert core[k] == procs[c * width + k];
      if procs[c * width + k] != -1 {
        inMask := true;
        assert core[k] in CoreMask(core);
        return;
      }
    }
  }

  // Core c is the one of thread tid: the tid-th core that has a usable slot.
  ghost predicate CoreFor(procs: seq<int>, width: nat, tid: int, c: nat) {
    && c * width <= (c + 1) * width <= |procs|
    && CoreMask(Core(procs, width, c)) != {} && Inhabited(procs, width, c) == tid
  }

  ghost predicate FirstUsable(core: seq<int>, id: int) {
    exists k :: 0 <= k < |core| && core[k] == id && id != -1 && Rank(core, k) == 0
  }

  // The bits of core c: all its usable processors, or for fine granularity the first.
  method SetBits(procs: seq<int>, width: nat, c: nat, fine: bool) returns (mask: set<int>)
    requires (c + 1) * width <= |procs| && CoreMask(Core(procs, width, c)) != {}
    ensures !fine ==> mask == CoreMask(Core(procs, width, c))
    ensures fine ==> exists id :: mask == {id} && FirstUsable(Core(procs, width, c), id)
  {
    ghost var core := Core(procs, width, c);
    Base(c, width, |procs|);
    mask := {};
    for k := 0 to width
      invariant mask == set x | 0 <= x < k && core[x] != -1 :: core[x]
      invariant fine ==> Rank(core, k) == 0 && forall x :: 0 <= x < k ==> core[x] == -1
    {
      assert core[k] == procs[c * width + k];
      var osId := procs[c * width + k];
      if osId != -1 {
        mask := mask + {osId};
        if fine {
          assert mask == {osId} && FirstUsable(core, osId);
          return;
        }
      }
    }
  }

  /** A team with no more threads than cores: one core to a thread. The mask
      stays empty exactly when fewer cores than tid + 1 have a usable processor. */
  method PlaceFew(procs: seq<int>, width: nat, ncores: nat, tid: nat, fine: bool) returns (mask: set<int>, ghost c: nat)
    requires |procs| == ncores * width
    ensures mask == {} <==> tid >= Inhabited(procs, width, ncores)
    ensures mask != {} ==> c < ncores && CoreFor(procs, width, tid, c)
    ensures mask != {} && !fine ==> mask == CoreMask(Core(procs, width, c))
    ensures mask != {} && fine ==> exists id :: mask == {id} && FirstUsable(Core(procs, width, c), id)
  {
    mask, c := {}, 0;
    var core := 0;
    for i := 0 to ncores
      invariant i * width <= |procs| && core == Inhabited(procs, width, i) <= tid && mask == {}
    {
      InRange(i, ncores, width);
      var inMask := HasUsable(procs, width, i);
      if inMask {
        if tid == core {
          c := i;
          MoreInhabited(procs, width, i, ncores);
          assert CoreFor(procs, width, tid, c);
          mask := SetBits(procs, width, i, fine);
          return;
        } else {
          core := core + 1;
        }
      }
    }
  }

  lemma {:induction false} MoreInhabited(procs: seq<int>, width: nat, i: nat, n: nat)
    requires i < n && n * width <= |procs| && i * width <= (i + 1) * width <= |procs|
    requires CoreMask(Core(procs, width, i)) != {}
    ensures Inhabited(procs, width, n) > Inhabited(procs, width, i)
  {
    if i < n - 1 {
      NotBelow(n, n - 1, width);
      MoreInhabited(procs, width, i, n - 1);
    }
  }

  /** A thread has one core; and two threads never share one, since the count of a core is fixed. */
  lemma OneCore(procs: seq<int>, width: nat, tid: int, c: nat, d: nat)
    requires CoreFor(procs, width, tid, c) && CoreFor(procs, width, tid, d)
    ensures c == d
  {
    if c < d { MoreInhabited(procs, width, c, d); }
    if d < c { MoreInhabited(procs, width, d, c); }
  }
}
