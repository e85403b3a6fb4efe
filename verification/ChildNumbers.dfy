/** Renumbering the children of each node from 0, and dropping the levels at
    which no node has a sibling. Both leave the order of the addresses alone. */
module ChildNumbers {
  import opened Labels
  import opened Topology

  const MAX_DEPTH := 32   // Address::maxDepth

  // The siblings of row i at level l that come before it.
  ghost function Smaller(t: seq<Labels>, i: nat, l: nat): set<Labels>
    requires i < |t| && forall k :: 0 <= k < |t| ==> l + 1 <= |t[k]|
  {
    set q | q in Children(t, l, t[i][..l]) && q[l] < t[i][l]
  }

  // The place of row i's node among the children of its parent.
  ghost function ChildNumber(t: seq<Labels>, i: nat, l: nat): nat
    requires i < |t| && forall k :: 0 <= k < |t| ==> l + 1 <= |t[k]|
  {
    |Smaller(t, i, l)|
  }

  lemma LabelOrder(a: Labels, b: Labels, l: nat)
    requires |a| == |b| && l < |a| && LexLe(a, b) && a[..l] == b[..l]
    ensures a[l] <= b[l] && (a[l] == b[l] ==> a[..l + 1] == b[..l + 1])
  {
    PrefixDiff(a, b, l);
    PrefixDiff(a, b, l + 1);
    Agree(a, b, l + 1);
    Agree(a, b, l);
  }

  // A child counted when row i has been seen is its node or one before it.
  lemma SeenIsSmaller(t: seq<Labels>, depth: nat, i: nat, l: nat, k: nat)
    requires Table(t, depth) && Ordered(t, depth) && k <= i < |t| && l < depth && t[k][..l] == t[i][..l]
    ensures t[k][..l + 1] in Smaller(t, i, l) + {t[i][..l + 1]}
  {
    if k < i { LabelOrder(t[k], t[i], l); }
    assert t[k][..l + 1] in Nodes(t, l + 1) && t[k][..l + 1][..l] == t[i][..l];
  }

  lemma SmallerWasSeen(t: seq<Labels>, depth: nat, i: nat, l: nat, k: nat)
    requires Table(t, depth) && Ordered(t, depth) && k < |t| && i < |t| && l < depth && t[k][..l] == t[i][..l]
    requires t[k][l] < t[i][l]
    ensures t[k][..l + 1] in Children(t[..i + 1], l, t[i][..l])
  {
    if k > i { LabelOrder(t[i], t[k], l); }
    assert t[..i + 1][k] == t[k] && t[k][..l + 1][..l] == t[k][..l];
    assert t[..i + 1][k][..l + 1] in Nodes(t[..i + 1], l + 1);
  }

  lemma SeenAreSmaller(t: seq<Labels>, depth: nat, i: nat, l: nat)
    requires Table(t, depth) && Ordered(t, depth) && i < |t| && l < depth
    ensures Children(t[..i + 1], l, t[i][..l]) == Smaller(t, i, l) + {t[i][..l + 1]}
    ensures t[i][..l + 1] !in Smaller(t, i, l)
  {
    var p, s := t[i][..l], t[..i + 1];
    forall q | q in Children(s, l, p) ensures q in Smaller(t, i, l) + {t[i][..l + 1]} {
      var k :| 0 <= k < |s| && q == s[k][..l + 1];
      assert s[k] == t[k] && q[..l] == t[k][..l];
      SeenIsSmaller(t, depth, i, l, k);
    }
    forall q | q in Smaller(t, i, l) ensures q in Children(s, l, p) {
      var k :| 0 <= k < |t| && q == t[k][..l + 1];
      assert q[..l] == t[k][..l];
      SmallerWasSeen(t, depth, i, l, k);
    }
    OwnSeen(t, depth, i, l);
  }

  lemma OwnSeen(t: seq<Labels>, depth: nat, i: nat, l: nat)
    requires Table(t, depth) && i < |t| && l < depth
    ensures t[i][..l + 1] in Children(t[..i + 1], l, t[i][..l])
  {
    var s := t[..i + 1];
    assert s[i] == t[i] && t[i][..l + 1][..l] == t[i][..l];
    assert s[i][..l + 1] in Nodes(s, l + 1);
  }

  lemma SeenCount(t: seq<Labels>, depth: nat, i: nat, l: nat)
    requires Table(t, depth) && Ordered(t, depth) && i < |t| && l < depth
    ensures |Children(t[..i + 1], l, t[i][..l])| == ChildNumber(t, i, l) + 1
  {
    SeenAreSmaller(t, depth, i, l);
  }

  lemma RowsBefore(t: seq<Labels>, depth: nat, i: nat)
    requires Table(t, depth) && Ordered(t, depth) && 0 < i < |t|
    ensures var s := t[..i];
            && Table(s, depth) && Ordered(s, depth) && s[|s| - 1] == t[i - 1] && s + [t[i]] == t[..i + 1]
            && forall k :: 0 <= k < |s| ==> LexLe(s[k], t[i])
  {
  }

  // The counter of level l when row i has been seen.
  lemma NextChildNumber(t: seq<Labels>, depth: nat, i: nat, l: nat)
    requires Table(t, depth) && Ordered(t, depth) && 0 < i < |t| && l < depth
    ensures ChildNumber(t, i, l) + 1 == NextCount(ChildNumber(t, i - 1, l) + 1, l, Diff(t[i - 1], t[i]))
  {
    RowsBefore(t, depth, i);
    SeenCount(t, depth, i, l);
    SeenBefore(t, depth, i, l);
    FamilyStep(t[..i], t[i], depth, l, ChildNumber(t, i - 1, l) + 1);
  }

  lemma SeenBefore(t: seq<Labels>, depth: nat, i: nat, l: nat)
    requires Table(t, depth) && Ordered(t, depth) && 0 < i < |t| && l < depth
    ensures |Children(t[..i], l, t[i - 1][..l])| == ChildNumber(t, i - 1, l) + 1
  {
    SeenCount(t, depth, i - 1, l);
    assert t[..i - 1 + 1] == t[..i];
  }

  lemma FirstChildNumber(t: seq<Labels>, depth: nat, l: nat)
    requires Table(t, depth) && Ordered(t, depth) && t != [] && l < depth
    ensures ChildNumber(t, 0, l) == 0
  {
    SeenCount(t, depth, 0, l);
    CountFirst(t[0], depth, l);
    assert t[..1] == [t[0]];
  }

  // Restart the counters of the levels below the first difference, and step that level's.
  method StepCounts(row: Labels, counts: array<int>, lastLabel: array<int>)
    requires counts.Length == lastLabel.Length == |row| && counts != lastLabel
    modifies counts, lastLabel
    ensures lastLabel[..] == row
    ensures forall l :: 0 <= l < |row| ==> counts[l] + 1 == NextCount(old(counts[l]) + 1, l, Diff(old(lastLabel[..]), row))
  {
    var labCt := 0;
    while labCt < |row|
      invariant 0 <= labCt <= |row| && lastLabel[..] == old(lastLabel[..]) && counts[..] == old(counts[..])
      invariant lastLabel[..labCt] == row[..labCt]
    {
      if row[labCt] != lastLabel[labCt] {
        DiffIs(lastLabel[..], row, labCt);
        RestartBelow(row, labCt, counts, lastLabel);
        return;
      }
      labCt := labCt + 1;
    }
    assert lastLabel[..] == row;
    DiffIs(lastLabel[..], row, |row|);
  }

  method RestartBelow(row: Labels, labCt: nat, counts: array<int>, lastLabel: array<int>)
    requires counts.Length == lastLabel.Length == |row| && counts != lastLabel && labCt < |row|
    requires lastLabel[..labCt] == row[..labCt]
    modifies counts, lastLabel
    ensures lastLabel[..] == row
    ensures forall l :: 0 <= l < |row| ==> counts[l] + 1 == NextCount(old(counts[l]) + 1, l, labCt)
  {
    assert forall l :: 0 <= l < labCt ==> lastLabel[l] == lastLabel[..labCt][l] == row[..labCt][l];
    for labCt2 := labCt + 1 to |row|
      invariant forall l :: 0 <= l <= labCt || labCt2 <= l < |row| ==> counts[l] == old(counts[l])
      invariant forall l :: 0 <= l < labCt ==> lastLabel[l] == row[l]
      invariant forall l :: labCt < l < labCt2 ==> counts[l] == 0 && lastLabel[l] == row[l]
    {
      counts[labCt2] := 0;
      lastLabel[labCt2] := row[labCt2];
    }
    counts[labCt] := counts[labCt] + 1;
    lastLabel[labCt] := row[labCt];
  }

  // The counters of row i's nodes.
  method NumberRow(t: seq<Labels>, depth: nat, i: nat, counts: array<int>, lastLabel: array<int>)
    requires Table(t, depth) && Ordered(t, depth) && 0 < i < |t|
    requires counts.Length == lastLabel.Length == depth && counts != lastLabel && lastLabel[..] == t[i - 1]
    requires forall l :: 0 <= l < depth ==> counts[l] == ChildNumber(t, i - 1, l)
    modifies counts, lastLabel
    ensures lastLabel[..] == t[i] && forall l :: 0 <= l < depth ==> counts[l] == ChildNumber(t, i, l)
  {
    StepCounts(t[i], counts, lastLabel);
    forall l | 0 <= l < depth ensures counts[l] == ChildNumber(t, i, l) { NextChildNumber(t, depth, i, l); }
  }

  /** __kmp_affinity_assign_child_nums: each row gets, level by level, its
      node's place among its siblings; levels that are not used get 0. */
  method AssignChildNums(t: seq<Labels>, depth: nat) returns (nums: array2<int>)
    requires t != [] && Table(t, depth) && Ordered(t, depth) && depth <= MAX_DEPTH
    ensures nums.Length0 == |t| && nums.Length1 == MAX_DEPTH
    ensures forall i, l :: 0 <= i < |t| && 0 <= l < MAX_DEPTH ==>
              nums[i, l] == if l < depth then ChildNumber(t, i, l) else 0
  {
    nums := new int[|t|, MAX_DEPTH]((_, _) => 0);
    var counts := new int[depth](_ => 0);
    var lastLabel := new int[depth](i requires 0 <= i < depth => t[0][i]);
    forall l | 0 <= l < depth ensures ChildNumber(t, 0, l) == 0 { FirstChildNumber(t, depth, l); }
    for i := 1 to |t|
      invariant lastLabel[..] == t[i - 1]
      invariant forall l :: 0 <= l < depth ==> counts[l] == ChildNumber(t, i - 1, l)
      invariant forall r, l :: 0 <= r < |t| && 0 <= l < MAX_DEPTH ==>
                  nums[r, l] == if r < i && l < depth then ChildNumber(t, r, l) else 0
    {
      NumberRow(t, depth, i, counts, lastLabel);
      WriteRow(nums, i, counts);
    }
  }

  method WriteRow(nums: array2<int>, i: nat, counts: array<int>)
    requires i < nums.Length0 && counts.Length <= nums.Length1
    modifies nums
    ensures forall r, l :: 0 <= r < nums.Length0 && 0 <= l < nums.Length1 ==>
              nums[r, l] == if r != i then old(nums[r, l]) else if l < counts.Length then counts[l] else 0
  {
    for l := 0 to nums.Length1
      invariant forall r, k :: 0 <= r < nums.Length0 && 0 <= k < nums.Length1 ==>
                  nums[r, k] == if r != i || k >= l then old(nums[r, k]) else if k < counts.Length then counts[k] else 0
    {
      nums[i, l] := if l < counts.Length then counts[l] else 0;
    }
  }

  // ---------- what the child numbers are good for ----------

  // q's place among the siblings in s, which differ in their label at level l.
  ghost function Place(s: set<Labels>, l: nat, q: Labels): set<Labels>
    requires |q| == l + 1 && forall r :: r in s ==> |r| == l + 1
  {
    set r | r in s && r[l] < q[l]
  }

  ghost predicate Siblings(s: set<Labels>, l: nat) {
    (forall r :: r in s ==> |r| == l + 1) && (forall q, r :: q in s && r in s && q != r ==> q[l] != r[l])
  }

  lemma SmallerSet(a: set<Labels>, b: set<Labels>)
    requires a < b
    ensures |a| < |b|
  {
    var rest := b - a;
    assert b == a + rest && a !! rest;
    assert rest == {} ==> a == b;
  }

  // Larger labels have larger places, and no place reaches the number of siblings.
  lemma PlaceOrder(s: set<Labels>, l: nat, q: Labels, r: Labels)
    requires Siblings(s, l) && q in s && r in s
    ensures |Place(s, l, q)| < |s|
    ensures q[l] < r[l] ==> |Place(s, l, q)| < |Place(s, l, r)|
  {
    assert q !in Place(s, l, q);
    SmallerSet(Place(s, l, q), s);
    if q[l] < r[l] {
      assert q in Place(s, l, r);
      SmallerSet(Place(s, l, q), Place(s, l, r));
    }
  }

  lemma {:induction false} Largest(s: set<Labels>, l: nat) returns (m: Labels)
    requires Siblings(s, l) && s != {}
    ensures m in s && forall r :: r in s ==> r[l] <= m[l]
    decreases |s|
  {
    m :| m in s;
    var rest := s - {m};
    if rest != {} {
      var m' := Largest(rest, l);
      if m'[l] > m[l] { m := m'; }
    }
  }

  // Every place below the number of siblings is taken.
  lemma {:induction false} PlaceTaken(s: set<Labels>, l: nat, n: nat) returns (q: Labels)
    requires Siblings(s, l) && n < |s|
    ensures q in s && |Place(s, l, q)| == n
    decreases |s|
  {
    var m := Largest(s, l);
    var rest := s - {m};
    if n == |rest| {
      q := m;
      assert Place(s, l, m) == rest;
    } else {
      q := PlaceTaken(rest, l, n);
      assert Place(s, l, q) == Place(rest, l, q);
    }
  }

  lemma ChildrenAreSiblings(t: seq<Labels>, depth: nat, l: nat, p: Labels)
    requires Table(t, depth) && l < depth
    ensures Siblings(Children(t, l, p), l)
  {
    forall q | q in Children(t, l, p) ensures |q| == l + 1 && q == p + [q[l]] {
      var i :| 0 <= i < |t| && q == t[i][..l + 1];
      assert q == q[..l] + [q[l]];
    }
  }

  lemma OwnChild(t: seq<Labels>, depth: nat, i: nat, l: nat)
    requires Table(t, depth) && i < |t| && l < depth
    ensures t[i][..l + 1] in Children(t, l, t[i][..l])
    ensures Siblings(Children(t, l, t[i][..l]), l)
    ensures Smaller(t, i, l) == Place(Children(t, l, t[i][..l]), l, t[i][..l + 1])
  {
    ChildrenAreSiblings(t, depth, l, t[i][..l]);
    assert t[i][..l + 1][..l] == t[i][..l];
    assert t[i][..l + 1] in Nodes(t, l + 1);
  }

  /** Under each node with k children the child numbers are exactly 0 to k - 1. */
  lemma NumbersAreDense(t: seq<Labels>, depth: nat, l: nat, p: Labels, n: nat)
    requires Table(t, depth) && l < depth
    ensures n < |Children(t, l, p)| <==> exists i :: 0 <= i < |t| && t[i][..l] == p && ChildNumber(t, i, l) == n
  {
    var s := Children(t, l, p);
    ChildrenAreSiblings(t, depth, l, p);
    if n < |s| {
      var q := PlaceTaken(s, l, n);
      var i :| 0 <= i < |t| && q == t[i][..l + 1];
      assert t[i][..l + 1][..l] == t[i][..l];
      OwnChild(t, depth, i, l);
      assert t[i][..l] == p && ChildNumber(t, i, l) == n;
    }
    forall i | 0 <= i < |t| && t[i][..l] == p ensures ChildNumber(t, i, l) < |s| {
      OwnChild(t, depth, i, l);
      PlaceOrder(s, l, t[i][..l + 1], t[i][..l + 1]);
    }
  }

  // The child numbers of row i as an address of their own.
  ghost function Numbers(t: seq<Labels>, depth: nat, i: nat): (r: Labels)
    requires Table(t, depth) && i < |t|
    ensures |r| == depth && forall l :: 0 <= l < depth ==> r[l] == ChildNumber(t, i, l)
  {
    seq(depth, l requires 0 <= l < depth => ChildNumber(t, i, l))
  }

  lemma NumbersAt(t: seq<Labels>, depth: nat, i: nat, j: nat, l: nat)
    requires Table(t, depth) && i < |t| && j < |t| && l < depth && t[i][..l] == t[j][..l]
    ensures t[i][l] < t[j][l] ==> ChildNumber(t, i, l) < ChildNumber(t, j, l)
    ensures t[i][l] == t[j][l] ==> ChildNumber(t, i, l) == ChildNumber(t, j, l)
  {
    OwnChild(t, depth, i, l);
    OwnChild(t, depth, j, l);
    PlaceOrder(Children(t, l, t[i][..l]), l, t[i][..l + 1], t[j][..l + 1]);
  }

  /** Two addresses first differ at the same level in their labels and in their
      child numbers, and in the same direction: the numbers keep the order and
      the addresses apart. */
  lemma NumbersKeepOrder(t: seq<Labels>, depth: nat, i: nat, j: nat)
    requires Table(t, depth) && i < |t| && j < |t|
    ensures Diff(Numbers(t, depth, i), Numbers(t, depth, j)) == Diff(t[i], t[j])
    ensures LexLe(Numbers(t, depth, i), Numbers(t, depth, j)) <==> LexLe(t[i], t[j])
  {
    var d := Diff(t[i], t[j]);
    var a, b := Numbers(t, depth, i), Numbers(t, depth, j);
    Agree(t[i], t[j], d);
    forall k | 0 <= k < d ensures a[k] == b[k] {
      Agree(t[i], t[j], k);
      NumbersAt(t, depth, i, j, k);
    }
    Agree(a, b, d);
    if d < depth {
      NumbersAt(t, depth, i, j, d);
      NumbersAt(t, depth, j, i, d);
    }
    DiffIs(a, b, d);
  }
}
