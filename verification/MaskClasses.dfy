/** Grouping the processors into places: those that agree on all but the finest
    `gran` levels share one mask, and one of each group is its leader. */
module MaskClasses {
  import opened Labels

  // How many levels two addresses must agree on to be close.
  function Coarse(depth: nat, gran: nat): (m: nat)
    ensures m <= depth
  {
    if gran >= depth then 0 else depth - gran
  }

  // The processors that row i shares its mask with.
  ghost function ClassOf(t: seq<Labels>, os: seq<int>, m: nat, i: nat): set<int>
    requires |os| == |t| && i < |t| && forall k :: 0 <= k < |t| ==> m <= |t[k]|
  {
    set k | 0 <= k < |t| && t[k][..m] == t[i][..m] :: os[k]
  }

  // Row i is the first of its class.
  ghost predicate IsLeader(t: seq<Labels>, m: nat, i: nat)
    requires i < |t| && forall k :: 0 <= k < |t| ==> m <= |t[k]|
  {
    forall k :: 0 <= k < i ==> t[k][..m] != t[i][..m]
  }

  method IsClose(a: Labels, b: Labels, gran: nat) returns (isClose: bool)
    requires |a| == |b|
    ensures var m := Coarse(|a|, gran); isClose <==> a[..m] == b[..m]
  {
    if gran >= |a| {
      assert a[..0] == b[..0];
      return true;
    }
    for i := 0 to |a| - gran
      invariant a[..i] == b[..i]
    {
      if a[i] != b[i] {
        assert a[..|a| - gran][i] == a[i] && b[..|a| - gran][i] == b[i];
        return false;
      }
    }
    return true;
  }

  // Rows j up to i are the class of row j.
  ghost predicate Group(t: seq<Labels>, m: nat, j: nat, i: nat)
    requires j < i <= |t| && forall k :: 0 <= k < |t| ==> m <= |t[k]|
  {
    IsLeader(t, m, j) && forall k :: j <= k < i ==> t[k][..m] == t[j][..m]
  }

  // A group that the next row is not close to is a whole class.
  lemma GroupIsClass(t: seq<Labels>, depth: nat, m: nat, j: nat, i: nat)
    requires Table(t, depth) && Ordered(t, depth) && m <= depth && j < i <= |t| && Group(t, m, j, i)
    requires i < |t| ==> t[i][..m] != t[j][..m]
    ensures forall k :: 0 <= k < |t| ==> (t[k][..m] == t[j][..m] <==> j <= k < i)
    ensures i < |t| ==> IsLeader(t, m, i)
  {
    forall k | i <= k < |t| ensures t[k][..m] != t[j][..m] {
      if k > i && t[k][..m] == t[j][..m] { Sandwich(t[j], t[i], t[k], m); }
    }
    if i < |t| {
      forall k | 0 <= k < j ensures t[k][..m] != t[i][..m] {
        if t[k][..m] == t[i][..m] { Sandwich(t[k], t[j], t[i], m); }
      }
    }
  }

  ghost function Span(os: seq<int>, j: nat, i: nat): set<int>
    requires j <= i <= |os|
  {
    set k | j <= k < i :: os[k]
  }

  // What the rows before j have been given.
  ghost predicate Assigned(t: seq<Labels>, os: seq<int>, m: nat, j: nat, masks: seq<set<int>>, leader: seq<bool>)
    requires |os| == |t| == |leader| && j <= |t| && forall k :: 0 <= k < |t| ==> m <= |t[k]|
  {
    forall r :: 0 <= r < j ==> AssignedAt(t, os, m, r, masks, leader)
  }

  ghost predicate AssignedAt(t: seq<Labels>, os: seq<int>, m: nat, r: nat, masks: seq<set<int>>, leader: seq<bool>)
    requires |os| == |t| == |leader| && r < |t| && forall k :: 0 <= k < |t| ==> m <= |t[k]|
  {
    && 0 <= os[r] < |masks| && masks[os[r]] == ClassOf(t, os, m, r)
    && (leader[r] <==> IsLeader(t, m, r))
  }

  ghost predicate ProcIds(os: seq<int>, n: int) {
    (forall k :: 0 <= k < |os| ==> 0 <= os[k] < n) && forall j, k :: 0 <= j < k < |os| ==> os[j] != os[k]
  }

  // Give the rows of a finished group their mask.
  method CopyGroup(ghost t: seq<Labels>, ghost depth: nat, os: seq<int>, ghost m: nat, j0: nat, i: nat, sum: set<int>,
                   masks: array<set<int>>, leader: array<bool>)
    requires Table(t, depth) && Ordered(t, depth) && m <= depth && |os| == |t| == leader.Length && ProcIds(os, masks.Length)
    requires j0 < i <= |t| && Group(t, m, j0, i) && (i < |t| ==> t[i][..m] != t[j0][..m]) && sum == Span(os, j0, i)
    requires Assigned(t, os, m, j0, masks[..], leader[..])
    modifies masks, leader
    ensures Assigned(t, os, m, i, masks[..], leader[..])
  {
    GroupIsClass(t, depth, m, j0, i);
    forall r | j0 <= r < i ensures ClassOf(t, os, m, r) == sum {}
    var j := j0;
    while j < i
      invariant j0 <= j <= i && Assigned(t, os, m, j, masks[..], leader[..])
    {
      ghost var b, l := masks[..], leader[..];
      masks[os[j]] := sum;
      leader[j] := j == j0;
      forall r | 0 <= r <= j ensures AssignedAt(t, os, m, r, masks[..], leader[..]) {
        assert r < j ==> AssignedAt(t, os, m, r, b, l);
      }
      j := j + 1;
    }
  }

  method FinishGroup(ghost t: seq<Labels>, ghost depth: nat, os: seq<int>, ghost m: nat, j: nat, i: nat, sum: set<int>,
                     masks: array<set<int>>, leader: array<bool>)
    requires Table(t, depth) && Ordered(t, depth) && m <= depth && |os| == |t| == leader.Length && ProcIds(os, masks.Length)
    requires j < i <= |t| && Group(t, m, j, i) && (i < |t| ==> t[i][..m] != t[j][..m]) && sum == Span(os, j, i)
    requires Assigned(t, os, m, j, masks[..], leader[..])
    modifies masks, leader
    ensures Assigned(t, os, m, i, masks[..], leader[..])
    ensures |Nodes(t[..i], m)| == |Nodes(t[..j], m)| + 1
    ensures i < |t| ==> Group(t, m, i, i + 1) && Span(os, i, i + 1) == {os[i]}
  {
    CopyGroup(t, depth, os, m, j, i, sum, masks, leader);
    GroupCounts(t, depth, m, j, i);
    if i < |t| { NextGroup(t, depth, os, m, j, i); }
  }

  lemma NextGroup(t: seq<Labels>, depth: nat, os: seq<int>, m: nat, j: nat, i: nat)
    requires Table(t, depth) && Ordered(t, depth) && m <= depth && |os| == |t|
    requires j < i < |t| && Group(t, m, j, i) && t[i][..m] != t[j][..m]
    ensures Group(t, m, i, i + 1) && Span(os, i, i + 1) == {os[i]}
  {
    GroupIsClass(t, depth, m, j, i);
  }

  lemma GroupGrows(t: seq<Labels>, os: seq<int>, m: nat, j: nat, i: nat)
    requires j < i < |t| == |os| && (forall k :: 0 <= k < |t| ==> m <= |t[k]|) && Group(t, m, j, i) && t[i][..m] == t[j][..m]
    ensures Group(t, m, j, i + 1) && Span(os, j, i + 1) == Span(os, j, i) + {os[i]}
  {
  }

  /** __kmp_create_masks, after the table has been sorted: the mask of each
      processor is its class, each class has one leader, and the result counts
      the classes. */
  method CreateMasks(t: seq<Labels>, depth: nat, os: seq<int>, gran: nat)
    returns (maxOsId: int, unique: nat, masks: array<set<int>>, leader: array<bool>)
    requires t != [] && Table(t, depth) && Ordered(t, depth) && |os| == |t|
    requires forall k :: 0 <= k < |os| ==> os[k] >= 0
    requires forall j, k :: 0 <= j < k < |os| ==> os[j] != os[k]
    ensures leader.Length == |t| && masks.Length == maxOsId + 1 && ProcIds(os, masks.Length) && maxOsId in os
    ensures Assigned(t, os, Coarse(depth, gran), |t|, masks[..], leader[..])
    ensures unique == |Nodes(t, Coarse(depth, gran))|
    ensures fresh(masks) && fresh(leader)
  {
    maxOsId := Highest(os);
    masks := new set<int>[maxOsId + 1](_ => {});
    leader := new bool[|t|](_ => false);
    ghost var m := Coarse(depth, gran);
    unique := 0;
    var j := 0;
    var sum := {os[0]};
    var i := 1;
    assert Nodes(t[..0], m) == {};
    while i < |t|
      invariant j < i <= |t| && Group(t, m, j, i) && sum == Span(os, j, i)
      invariant Assigned(t, os, m, j, masks[..], leader[..])
      invariant unique == |Nodes(t[..j], m)|
    {
      var isClose := IsClose(t[j], t[i], gran);
      if isClose {
        GroupGrows(t, os, m, j, i);
        sum := sum + {os[i]};
      } else {
        FinishGroup(t, depth, os, m, j, i, sum, masks, leader);
        unique := unique + 1;
        j := i;
        sum := {os[i]};
      }
      i := i + 1;
    }
    FinishGroup(t, depth, os, m, j, i, sum, masks, leader);
    assert t[..i] == t;
    unique := unique + 1;
  }

  method Highest(os: seq<int>) returns (maxOsId: int)
    requires os != [] && forall k :: 0 <= k < |os| ==> os[k] >= 0
    ensures maxOsId in os && forall k :: 0 <= k < |os| ==> os[k] <= maxOsId
  {
    maxOsId := 0;
    var i := |os| - 1;
    assert os[0] in os;
    while true
      invariant 0 <= i < |os|
      invariant forall k :: i < k < |os| ==> os[k] <= maxOsId
      invariant maxOsId in os || (maxOsId == 0 && forall k :: i < k < |os| ==> os[k] == 0)
      decreases i
    {
      if os[i] > maxOsId {
        maxOsId := os[i];
      }
      if i == 0 {
        return;
      }
      i := i - 1;
    }
  }

  // A group adds one class.
  lemma GroupCounts(t: seq<Labels>, depth: nat, m: nat, j: nat, i: nat)
    requires Table(t, depth) && m <= depth && j < i <= |t| && Group(t, m, j, i)
    ensures |Nodes(t[..i], m)| == |Nodes(t[..j], m)| + 1
  {
    var p := t[j][..m];
    forall q | q in Nodes(t[..i], m) ensures q in Nodes(t[..j], m) + {p} {
      var k :| 0 <= k < i && q == t[..i][k][..m];
      assert k < j ==> t[..j][k] == t[k];
    }
    forall q | q in Nodes(t[..j], m) + {p} ensures q in Nodes(t[..i], m) {
      if q == p {
        assert t[..i][j] == t[j];
      } else {
        var k :| 0 <= k < j && q == t[..j][k][..m];
        assert t[..i][k] == t[k];
      }
    }
    assert Nodes(t[..i], m) == Nodes(t[..j], m) + {p};
    assert p !in Nodes(t[..j], m);
  }

  // ---------- filling the table of places ----------

  ghost function Leaders(t: seq<Labels>, m: nat, n: nat): set<nat>
    requires n <= |t| && forall k :: 0 <= k < |t| ==> m <= |t[k]|
  {
    set r: nat | r < n && IsLeader(t, m, r)
  }

  /** There are as many leaders as classes. */
  lemma {:induction false} LeadersCount(t: seq<Labels>, depth: nat, m: nat, n: nat)
    requires Table(t, depth) && m <= depth && n <= |t|
    ensures |Leaders(t, m, n)| == |Nodes(t[..n], m)|
  {
    if n == 0 {
      assert Leaders(t, m, 0) == {};
      NoNodes(t[..0], m);
    } else {
      LeadersCount(t, depth, m, n - 1);
      ClassesStep(t, depth, m, n - 1);
      LeadersStep(t, depth, m, n - 1);
    }
  }

  lemma ClassesStep(t: seq<Labels>, depth: nat, m: nat, h: nat)
    requires Table(t, depth) && m <= depth && h < |t|
    ensures |Nodes(t[..h + 1], m)| == if IsLeader(t, m, h) then |Nodes(t[..h], m)| + 1 else |Nodes(t[..h], m)|
  {
    assert t[..h + 1] == t[..h] + [t[h]];
    NodesPush(t[..h], t[h], depth, m);
    LeaderIsNew(t, depth, m, h);
    AddOne(Nodes(t[..h], m), t[h][..m]);
  }

  lemma LeadersStep(t: seq<Labels>, depth: nat, m: nat, h: nat)
    requires Table(t, depth) && m <= depth && h < |t|
    ensures |Leaders(t, m, h + 1)| == if IsLeader(t, m, h) then |Leaders(t, m, h)| + 1 else |Leaders(t, m, h)|
  {
    LastCounts(Leaders(t, m, h), Leaders(t, m, h + 1), h, IsLeader(t, m, h));
  }

  lemma LastCounts(a: set<nat>, b: set<nat>, h: nat, last: bool)
    requires h !in a && forall r: nat :: r in b <==> r in a || (r == h && last)
    ensures |b| == if last then |a| + 1 else |a|
  {
    assert b == if last then a + {h} else a;
  }

  lemma LeaderIsNew(t: seq<Labels>, depth: nat, m: nat, h: nat)
    requires Table(t, depth) && m <= depth && h < |t|
    ensures IsLeader(t, m, h) <==> t[h][..m] !in Nodes(t[..h], m)
  {
    if k: nat :| k < h && t[k][..m] == t[h][..m] {
      assert t[..h][k] == t[k];
      assert t[..h][k][..m] in Nodes(t[..h], m);
    }
  }

  ghost predicate Permutation(order: seq<nat>, n: nat) {
    && |order| == n && (forall i :: 0 <= i < n ==> order[i] < n)
    && forall i, j :: 0 <= i < j < n ==> order[i] != order[j]
  }

  // The rows that the fill loop takes, in the order of the resorted table.
  function Chosen(order: seq<nat>, leader: seq<bool>, dups: bool): (r: seq<nat>)
    requires forall i :: 0 <= i < |order| ==> order[i] < |leader|
    ensures |r| <= |order| && forall k :: 0 <= k < |r| ==> r[k] in order && (dups || leader[r[k]])
  {
    if order == [] then [] else
      var n := |order| - 1;
      Chosen(order[..n], leader, dups) + (if dups || leader[order[n]] then [order[n]] else [])
  }

  ghost function Elements(order: seq<nat>): (r: set<nat>)
    ensures forall x :: x in r <==> x in order
  {
    if order == [] then {} else Elements(order[..|order| - 1]) + {order[|order| - 1]}
  }

  ghost function Upto(n: nat): (r: set<nat>)
    ensures |r| == n && forall x: nat :: x in r <==> x < n
  {
    if n == 0 then {} else Upto(n - 1) + {n - 1}
  }

  lemma {:induction false} DistinctElements(order: seq<nat>)
    requires forall i, j :: 0 <= i < j < |order| ==> order[i] != order[j]
    ensures |Elements(order)| == |order|
  {
    if order != [] { DistinctElements(order[..|order| - 1]); }
  }

  lemma AllTaken(order: seq<nat>, n: nat)
    requires Permutation(order, n)
    ensures Elements(order) == Upto(n)
  {
    DistinctElements(order);
    var rest := Upto(n) - Elements(order);
    assert Upto(n) == Elements(order) + rest;
    assert |rest| == 0;
  }

  ghost function Taken(order: seq<nat>, leader: seq<bool>, dups: bool): set<nat>
    requires forall i :: 0 <= i < |order| ==> order[i] < |leader|
  {
    set x | x in Elements(order) && (dups || leader[x])
  }

  // Each is taken once.
  lemma {:induction false} ChosenCount(order: seq<nat>, leader: seq<bool>, dups: bool)
    requires forall i :: 0 <= i < |order| ==> order[i] < |leader|
    requires forall i, j :: 0 <= i < j < |order| ==> order[i] != order[j]
    ensures |Chosen(order, leader, dups)| == |Taken(order, leader, dups)|
  {
    if order == [] {
      assert Taken(order, leader, dups) == {};
    } else {
      var n := |order| - 1;
      var most, x := order[..n], order[n];
      ChosenCount(most, leader, dups);
      TakenMore(order, leader, dups);
    }
  }

  lemma TakenMore(order: seq<nat>, leader: seq<bool>, dups: bool)
    requires order != [] && forall i :: 0 <= i < |order| ==> order[i] < |leader|
    ensures var n := |order| - 1;
            Taken(order, leader, dups) == Taken(order[..n], leader, dups) + if dups || leader[order[n]] then {order[n]} else {}
  {
  }

  // Row r's mask is its class, which includes the row itself.
  ghost predicate PlaceOf(t: seq<Labels>, os: seq<int>, m: nat, r: nat, mask: set<int>)
    requires |os| == |t| && forall k :: 0 <= k < |t| ==> m <= |t[k]|
  {
    r < |t| && mask == ClassOf(t, os, m, r) && os[r] in mask
  }

  /** The loop that fills __kmp_affinity_masks goes through the table in its new
      order and takes all rows, or the leaders only; it always fills the table,
      with the masks of the rows it takes. */
  method FillMasks(ghost t: seq<Labels>, ghost depth: nat, ghost m: nat, os: seq<int>, osId2Mask: seq<set<int>>, leader: seq<bool>,
                   order: seq<nat>, dups: bool, numMasks: nat) returns (affinityMasks: array<set<int>>, filled: nat)
    requires Table(t, depth) && m <= depth && |os| == |t| == |leader| && Permutation(order, |t|)
    requires Assigned(t, os, m, |t|, osId2Mask, leader)
    requires 0 < numMasks <= if dups then |t| else |Nodes(t, m)|
    ensures filled == numMasks == affinityMasks.Length <= |Chosen(order, leader, dups)|
    ensures forall k :: 0 <= k < numMasks ==> PlaceOf(t, os, m, Chosen(order, leader, dups)[k], affinityMasks[k])
  {
    EnoughChosen(t, depth, m, os, osId2Mask, leader, order, dups);
    forall r | 0 <= r < |t| ensures RowMask(os, osId2Mask, r) && PlaceOf(t, os, m, r, osId2Mask[os[r]]) {
      assert AssignedAt(t, os, m, r, osId2Mask, leader);
    }
    affinityMasks, filled := CopyMasks(os, osId2Mask, leader, order, dups, numMasks);
    ghost var want := Masks(os, osId2Mask, Chosen(order, leader, dups));
    assert forall k :: 0 <= k < numMasks ==> affinityMasks[k] == affinityMasks[..][k] == want[k];
  }

  ghost predicate RowMask(os: seq<int>, osId2Mask: seq<set<int>>, r: nat) {
    r < |os| && 0 <= os[r] < |osId2Mask| && os[r] in osId2Mask[os[r]]
  }

  ghost function Masks(os: seq<int>, osId2Mask: seq<set<int>>, rows: seq<nat>): (r: seq<set<int>>)
    requires (forall k :: 0 <= k < |rows| ==> rows[k] < |os|) && forall r :: 0 <= r < |os| ==> RowMask(os, osId2Mask, r)
    ensures |r| == |rows| && forall k :: 0 <= k < |r| ==> RowMask(os, osId2Mask, rows[k]) && r[k] == osId2Mask[os[rows[k]]]
  {
    seq(|rows|, k requires 0 <= k < |rows| => assert RowMask(os, osId2Mask, rows[k]); osId2Mask[os[rows[k]]])
  }

  method CopyMasks(os: seq<int>, osId2Mask: seq<set<int>>, leader: seq<bool>, order: seq<nat>, dups: bool, numMasks: nat)
    returns (affinityMasks: array<set<int>>, filled: nat)
    requires |os| == |leader| && (forall k :: 0 <= k < |order| ==> order[k] < |os|)
    requires forall r :: 0 <= r < |os| ==> RowMask(os, osId2Mask, r)
    requires 0 < numMasks <= |Chosen(order, leader, dups)|
    ensures filled == numMasks == affinityMasks.Length
    ensures affinityMasks[..] == Masks(os, osId2Mask, Chosen(order, leader, dups))[..numMasks]
  {
    affinityMasks := new set<int>[numMasks](_ => {});
    ghost var chosen := Chosen(order, leader, dups);
    ghost var want := Masks(os, osId2Mask, chosen);
    filled := 0;
    var i := 0;
    while i < |order|
      invariant 0 <= i <= |order| && filled < numMasks
      invariant Chosen(order[..i], leader, dups) == chosen[..filled]
      invariant affinityMasks[..filled] == want[..filled]
    {
      ChosenNext(order, leader, dups, i, filled);
      if dups || leader[order[i]] {
        var osId := os[order[i]];
        assert RowMask(os, osId2Mask, order[i]);
        assert want[filled] == osId2Mask[os[chosen[filled]]];
        affinityMasks[filled] := osId2Mask[osId];
        filled := filled + 1;
        if filled >= numMasks {
          return;
        }
      }
      i := i + 1;
    }
    ChosenAll(order, leader, dups, i);
    assert false;
  }

  lemma ChosenNext(order: seq<nat>, leader: seq<bool>, dups: bool, i: nat, filled: nat)
    requires i < |order| && forall k :: 0 <= k < |order| ==> order[k] < |leader|
    requires filled <= |Chosen(order, leader, dups)| && Chosen(order[..i], leader, dups) == Chosen(order, leader, dups)[..filled]
    ensures if dups || leader[order[i]]
            then filled < |Chosen(order, leader, dups)| && Chosen(order, leader, dups)[filled] == order[i]
              && Chosen(order[..i + 1], leader, dups) == Chosen(order, leader, dups)[..filled + 1]
            else Chosen(order[..i + 1], leader, dups) == Chosen(order, leader, dups)[..filled]
  {
    ChosenPrefix(order, leader, dups, i);
    var next := Chosen(order[..i + 1], leader, dups);
    assert next == Chosen(order, leader, dups)[..|next|];
  }

  lemma ChosenAll(order: seq<nat>, leader: seq<bool>, dups: bool, i: int)
    requires i == |order| && forall k :: 0 <= k < |order| ==> order[k] < |leader|
    ensures Chosen(order[..i], leader, dups) == Chosen(order, leader, dups)
  {
    assert order[..i] == order;
  }

  lemma EnoughChosen(t: seq<Labels>, depth: nat, m: nat, os: seq<int>, masks: seq<set<int>>, leader: seq<bool>,
                     order: seq<nat>, dups: bool)
    requires Table(t, depth) && m <= depth && |os| == |t| == |leader| && Permutation(order, |t|)
    requires Assigned(t, os, m, |t|, masks, leader)
    ensures |Chosen(order, leader, dups)| == if dups then |t| else |Nodes(t, m)|
  {
    var n := |t|;
    AllTaken(order, n);
    ChosenCount(order, leader, dups);
    if dups {
      assert Taken(order, leader, dups) == Upto(n);
    } else {
      LeadersCount(t, depth, m, n);
      assert t[..n] == t;
      forall x: nat ensures x in Taken(order, leader, dups) <==> x in Leaders(t, m, n) {
        assert x < n ==> AssignedAt(t, os, m, x, masks, leader);
      }
      assert Taken(order, leader, dups) == Leaders(t, m, n);
    }
  }

  // How many of the first p rows of the order are taken.
  function TakenBefore(order: seq<nat>, leader: seq<bool>, dups: bool, p: nat): nat
    requires p <= |order| && forall k :: 0 <= k < |order| ==> order[k] < |leader|
  {
    if p == 0 then 0 else TakenBefore(order, leader, dups, p - 1) + (if dups || leader[order[p - 1]] then 1 else 0)
  }

  lemma {:induction false} ChosenSoFar(order: seq<nat>, leader: seq<bool>, dups: bool, p: nat)
    requires p <= |order| && forall k :: 0 <= k < |order| ==> order[k] < |leader|
    ensures |Chosen(order[..p], leader, dups)| == TakenBefore(order, leader, dups, p)
  {
    if p > 0 {
      ChosenSoFar(order, leader, dups, p - 1);
      ChosenPrefix(order, leader, dups, p - 1);
    }
  }

  /** The place of a row in the table is the number of rows taken before it. */
  lemma ChosenInOrder(order: seq<nat>, leader: seq<bool>, dups: bool, p: nat)
    requires p < |order| && (forall k :: 0 <= k < |order| ==> order[k] < |leader|) && (dups || leader[order[p]])
    ensures var k := TakenBefore(order, leader, dups, p);
            k < |Chosen(order, leader, dups)| && Chosen(order, leader, dups)[k] == order[p]
  {
    ChosenSoFar(order, leader, dups, p);
    ChosenPrefix(order, leader, dups, p);
    var next := Chosen(order[..p + 1], leader, dups);
    assert next <= Chosen(order, leader, dups) && next[|next| - 1] == order[p];
  }

  // What is chosen from a part of the order is a part of what is chosen.
  lemma {:induction false} ChosenPrefix(order: seq<nat>, leader: seq<bool>, dups: bool, i: nat)
    requires i < |order| && forall k :: 0 <= k < |order| ==> order[k] < |leader|
    ensures Chosen(order[..i + 1], leader, dups) ==
            Chosen(order[..i], leader, dups) + (if dups || leader[order[i]] then [order[i]] else [])
    ensures Chosen(order[..i + 1], leader, dups) <= Chosen(order, leader, dups)
  {
    assert order[..i + 1][..i] == order[..i];
    ChosenGrows(order, leader, dups, i + 1);
  }

  lemma {:induction false} ChosenGrows(order: seq<nat>, leader: seq<bool>, dups: bool, i: nat)
    requires i <= |order| && forall k :: 0 <= k < |order| ==> order[k] < |leader|
    ensures Chosen(order[..i], leader, dups) <= Chosen(order, leader, dups)
  {
    if i == |order| {
      assert order[..i] == order;
    } else {
      var n := |order| - 1;
      ChosenGrows(order[..n], leader, dups, i);
      assert order[..n][..i] == order[..i];
    }
  }
}
