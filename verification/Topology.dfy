/** Counting the nodes of the machine topology in one pass over the sorted
    address table, and telling from the counts whether the machine is uniform. */
module Topology {
  import opened Labels
  import opened Sums

  function Max(x: int, y: int): int {
    if x < y then y else x
  }

  // m is the largest number of children that a node at level l has.
  ghost predicate LargestFamily(t: seq<Labels>, l: nat, m: int)
    requires forall i :: 0 <= i < |t| ==> l + 1 <= |t[i]|
  {
    && (forall p :: p in Nodes(t, l) ==> |Children(t, l, p)| <= m)
    && (exists p :: p in Nodes(t, l) && |Children(t, l, p)| == m)
  }

  // What the counters of one level say about the rows seen so far.
  ghost predicate CountedAt(t: seq<Labels>, depth: nat, l: nat, total: int, count: int, max: int)
    requires Table(t, depth) && t != [] && l < depth
  {
    && total == |Nodes(t, l + 1)|
    && count == |Children(t, l, t[|t| - 1][..l])|
    && LargestFamily(t, l, max)
  }

  // How the counters change when a row arrives that first differs from its predecessor at level d.
  function NextTotal(total: int, l: nat, d: nat): int {
    if l < d then total else total + 1
  }

  function NextCount(count: int, l: nat, d: nat): int {
    if l < d then count else if l == d then count + 1 else 1
  }

  // The number of nodes at level l.
  lemma TotalStep(t: seq<Labels>, a: Labels, depth: nat, l: nat)
    requires Table(t, depth) && Ordered(t, depth) && t != [] && l < depth && |a| == depth
    requires forall i :: 0 <= i < |t| ==> LexLe(t[i], a)
    ensures |Nodes(t + [a], l + 1)| == NextTotal(|Nodes(t, l + 1)|, l, Diff(t[|t| - 1], a))
  {
    NodesPush(t, a, depth, l + 1);
    NodeIsNew(t, a, depth, l + 1);
    AddOne(Nodes(t, l + 1), a[..l + 1]);
  }

  lemma OwnNode(t: seq<Labels>, a: Labels, depth: nat, l: nat)
    requires Table(t, depth) && Ordered(t, depth) && t != [] && l < depth && |a| == depth
    requires forall i :: 0 <= i < |t| ==> LexLe(t[i], a)
    ensures a[..l + 1] in Children(t, l, a[..l]) <==> Diff(t[|t| - 1], a) > l
    ensures Diff(t[|t| - 1], a) < l ==> Children(t, l, a[..l]) == {}
  {
    NodeIsNew(t, a, depth, l);
    NodeIsNew(t, a, depth, l + 1);
    NodesHaveChildren(t, depth, l, a[..l]);
    assert a[..l + 1][..l] == a[..l];
  }

  // The children of the node that row a belongs to.
  lemma FamilyStep(t: seq<Labels>, a: Labels, depth: nat, l: nat, count: int)
    requires Table(t, depth) && Ordered(t, depth) && t != [] && l < depth && |a| == depth
    requires forall i :: 0 <= i < |t| ==> LexLe(t[i], a)
    requires count == |Children(t, l, t[|t| - 1][..l])|
    ensures |Children(t + [a], l, a[..l])| == NextCount(count, l, Diff(t[|t| - 1], a))
  {
    ChildrenPush(t, a, depth, l, a[..l]);
    OwnNode(t, a, depth, l);
    PrefixDiff(t[|t| - 1], a, l);
    AddOne(Children(t, l, a[..l]), a[..l + 1]);
  }

  // Only the family that row a belongs to changes.
  lemma OtherFamilies(t: seq<Labels>, a: Labels, depth: nat, l: nat, p: Labels, max: int, count: int)
    requires Table(t, depth) && l < depth && |a| == depth && p in Nodes(t + [a], l)
    requires count == |Children(t + [a], l, a[..l])|
    requires forall q :: q in Nodes(t, l) ==> |Children(t, l, q)| <= max
    ensures |Children(t + [a], l, p)| <= Max(max, count)
    ensures p in Nodes(t, l) ==> |Children(t, l, p)| <= |Children(t + [a], l, p)|
    ensures p != a[..l] ==> |Children(t + [a], l, p)| == |Children(t, l, p)|
  {
    NodesPush(t, a, depth, l);
    ChildrenPush(t, a, depth, l, p);
    AddOne(Children(t, l, p), a[..l + 1]);
  }

  lemma LargestStep(t: seq<Labels>, a: Labels, depth: nat, l: nat, count: int, max: int)
    requires Table(t, depth) && Ordered(t, depth) && t != [] && l < depth && |a| == depth
    requires forall i :: 0 <= i < |t| ==> LexLe(t[i], a)
    requires LargestFamily(t, l, max) && count == |Children(t + [a], l, a[..l])|
    ensures LargestFamily(t + [a], l, Max(max, count))
  {
    NodesPush(t, a, depth, l);
    forall p | p in Nodes(t + [a], l) ensures |Children(t + [a], l, p)| <= Max(max, count) {
      OtherFamilies(t, a, depth, l, p, max, count);
    }
    var p :| p in Nodes(t, l) && |Children(t, l, p)| == max;
    OtherFamilies(t, a, depth, l, p, max, count);
    assert p in Nodes(t + [a], l) && a[..l] in Nodes(t + [a], l);
  }

  lemma CountStep(t: seq<Labels>, a: Labels, depth: nat, l: nat, total: int, count: int, max: int)
    requires Table(t, depth) && Ordered(t, depth) && t != [] && l < depth && |a| == depth
    requires forall i :: 0 <= i < |t| ==> LexLe(t[i], a)
    requires CountedAt(t, depth, l, total, count, max)
    ensures var d := Diff(t[|t| - 1], a);
            CountedAt(t + [a], depth, l, NextTotal(total, l, d), NextCount(count, l, d), Max(max, NextCount(count, l, d)))
  {
    FamilyStep(t, a, depth, l, count);
    TotalStep(t, a, depth, l);
    LargestStep(t, a, depth, l, NextCount(count, l, Diff(t[|t| - 1], a)), max);
    assert (t + [a])[|t + [a]| - 1] == a;
  }

  lemma CountFirst(a: Labels, depth: nat, l: nat)
    requires |a| == depth && l < depth
    ensures CountedAt([a], depth, l, 1, 1, 1)
  {
    NodesPush([], a, depth, l + 1);
    NodesPush([], a, depth, l);
    assert [] + [a] == [a];
    assert a[..l + 1][..l] == a[..l];
    assert Children([a], l, a[..l]) == {a[..l + 1]};
    assert a[..l] in Nodes([a], l);
  }

  // ---------- the scan ----------

  // The levels below the first difference: new nodes, each with one child.
  method ResetBelow(row: Labels, level: nat, totals: array<int>, counts: array<int>, last: array<int>)
    requires totals.Length == counts.Length == last.Length == |row| && level < |row|
    requires totals != counts && counts != last && totals != last
    modifies totals, counts, last
    ensures totals[..level + 1] == old(totals[..level + 1]) && counts[..level + 1] == old(counts[..level + 1])
    ensures last[..level + 1] == old(last[..level + 1])
    ensures forall j :: level < j < |row| ==> totals[j] == old(totals[j]) + 1 && counts[j] == 1 && last[j] == row[j]
  {
    for j := level + 1 to |row|
      invariant totals[..level + 1] == old(totals[..level + 1]) && counts[..level + 1] == old(counts[..level + 1])
      invariant last[..level + 1] == old(last[..level + 1])
      invariant forall k :: level < k < j ==> totals[k] == old(totals[k]) + 1 && counts[k] == 1 && last[k] == row[k]
      invariant forall k :: j <= k < |row| ==> totals[k] == old(totals[k])
    {
      totals[j] := totals[j] + 1;
      counts[j] := 1;
      last[j] := row[j];
    }
  }

  // The counters after a row that first differs at level d.
  ghost predicate Advanced(d: nat, totals: seq<int>, counts: seq<int>, maxCt: seq<int>,
                           totals': seq<int>, counts': seq<int>, maxCt': seq<int>)
    requires |totals| == |counts| == |maxCt| == |totals'| == |counts'| == |maxCt'|
  {
    forall l :: 0 <= l < |totals| ==>
      && totals'[l] == NextTotal(totals[l], l, d) && counts'[l] == NextCount(counts[l], l, d)
      && maxCt'[l] == if l == d then Max(maxCt[l], counts'[l]) else maxCt[l]
  }

  method FoundAt(row: Labels, level: nat, totals: array<int>, counts: array<int>, maxCt: array<int>, last: array<int>)
    requires totals.Length == counts.Length == maxCt.Length == last.Length == |row| && level < |row|
    requires totals != counts && counts != last && totals != last && maxCt != totals && maxCt != counts && maxCt != last
    requires last[..level] == row[..level]
    modifies totals, counts, maxCt, last
    ensures last[..] == row
    ensures Advanced(level, old(totals[..]), old(counts[..]), old(maxCt[..]), totals[..], counts[..], maxCt[..])
  {
    ghost var t0, c0, l0 := totals[..], counts[..], last[..];
    ResetBelow(row, level, totals, counts, last);
    assert forall l :: 0 <= l <= level ==> totals[l] == totals[..level + 1][l] == t0[..level + 1][l] == t0[l];
    assert forall l :: 0 <= l <= level ==> counts[l] == counts[..level + 1][l] == c0[..level + 1][l] == c0[l];
    assert forall l :: 0 <= l < level ==> last[l] == last[..level + 1][l] == l0[..level + 1][l] == l0[..level][l] == row[..level][l] == row[l];
    totals[level] := totals[level] + 1;
    counts[level] := counts[level] + 1;
    if counts[level] > maxCt[level] {
      maxCt[level] := counts[level];
    }
    last[level] := row[level];
  }

  // One row of the scan: find the first difference, or reject a row equal to the one before.
  method Advance(row: Labels, totals: array<int>, counts: array<int>, maxCt: array<int>, last: array<int>) returns (ok: bool)
    requires totals.Length == counts.Length == maxCt.Length == last.Length == |row| > 0
    requires totals != counts && counts != last && totals != last && maxCt != totals && maxCt != counts && maxCt != last
    modifies totals, counts, maxCt, last
    ensures ok <==> row != old(last[..])
    ensures ok ==> last[..] == row
    ensures ok ==> Advanced(Diff(old(last[..]), row), old(totals[..]), old(counts[..]), old(maxCt[..]), totals[..], counts[..], maxCt[..])
  {
    var level := 0;
    while level < |row|
      invariant 0 <= level <= |row| && last[..] == old(last[..]) && totals[..] == old(totals[..])
      invariant counts[..] == old(counts[..]) && maxCt[..] == old(maxCt[..])
      invariant last[..level] == row[..level] && (level == |row| ==> false)
    {
      if row[level] != last[level] {
        DiffIs(last[..], row, level);
        FoundAt(row, level, totals, counts, maxCt, last);
        return true;
      } else if level == |row| - 1 {
        assert last[..] == row;
        return false;
      }
      level := level + 1;
    }
    assert false;
    return false;
  }

  ghost predicate Counted(t: seq<Labels>, depth: nat, totals: seq<int>, counts: seq<int>, maxCt: seq<int>)
    requires Table(t, depth) && t != []
  {
    && |totals| == |counts| == |maxCt| == depth
    && forall l :: 0 <= l < depth ==> CountedAt(t, depth, l, totals[l], counts[l], maxCt[l])
  }

  lemma CountedNext(t: seq<Labels>, a: Labels, depth: nat, totals: seq<int>, counts: seq<int>, maxCt: seq<int>,
                    totals': seq<int>, counts': seq<int>, maxCt': seq<int>)
    requires Table(t, depth) && Ordered(t, depth) && t != [] && |a| == depth
    requires forall i :: 0 <= i < |t| ==> LexLe(t[i], a)
    requires Counted(t, depth, totals, counts, maxCt) && |totals'| == |counts'| == |maxCt'| == depth
    requires Advanced(Diff(t[|t| - 1], a), totals, counts, maxCt, totals', counts', maxCt')
    ensures Counted(t + [a], depth, totals', counts', maxCt')
  {
    var d := Diff(t[|t| - 1], a);
    forall l | 0 <= l < depth ensures CountedAt(t + [a], depth, l, totals'[l], counts'[l], maxCt'[l]) {
      assert CountedAt(t, depth, l, totals[l], counts[l], maxCt[l]);
      CountStep(t, a, depth, l, totals[l], counts[l], maxCt[l]);
      MaxStep(t, depth, l, d, totals[l], counts[l], maxCt[l]);
    }
  }

  lemma MaxStep(t: seq<Labels>, depth: nat, l: nat, d: nat, total: int, count: int, max: int)
    requires Table(t, depth) && t != [] && l < depth && CountedAt(t, depth, l, total, count, max)
    ensures Max(max, NextCount(count, l, d)) == if l == d then Max(max, NextCount(count, l, d)) else max
  {
    assert t[|t| - 1][..l] in Nodes(t, l);
    NodesHaveChildren(t, depth, l, t[|t| - 1][..l]);
  }

  // No two rows so far are equal.
  ghost predicate Distinct(t: seq<Labels>) {
    forall i, j :: 0 <= i < j < |t| ==> t[i] != t[j]
  }

  lemma Between(a: Labels, b: Labels, c: Labels)
    requires |a| == |b| == |c| && LexLe(a, b) && LexLe(b, c)
    ensures a == c ==> b == a
  {
    if a == c {
      Sandwich(a, b, c, |a|);
      assert a[..|a|] == a && b[..|a|] == b;
    }
  }

  lemma DistinctNext(t: seq<Labels>, a: Labels, depth: nat)
    requires Table(t, depth) && Ordered(t, depth) && t != [] && |a| == depth && Distinct(t)
    requires forall i :: 0 <= i < |t| ==> LexLe(t[i], a)
    ensures Distinct(t + [a]) <==> t[|t| - 1] != a
  {
    var n := |t| - 1;
    assert (t + [a])[n] == t[n] && (t + [a])[n + 1] == a;
    forall i | 0 <= i < n ensures t[i] == a ==> t[n] == a { Between(t[i], t[n], a); }
  }

  // One more row of the table.
  method CountRow(table: seq<Labels>, depth: nat, proc: nat,
                  totals: array<int>, counts: array<int>, maxCt: array<int>, last: array<int>) returns (ok: bool)
    requires depth > 0 && Table(table, depth) && Ordered(table, depth) && 0 < proc < |table|
    requires totals.Length == counts.Length == maxCt.Length == last.Length == depth
    requires totals != counts && counts != last && totals != last && maxCt != totals && maxCt != counts && maxCt != last
    requires Distinct(table[..proc]) && last[..] == table[proc - 1]
    requires Counted(table[..proc], depth, totals[..], counts[..], maxCt[..])
    modifies totals, counts, maxCt, last
    ensures ok ==> Distinct(table[..proc + 1]) && last[..] == table[proc]
    ensures ok ==> Counted(table[..proc + 1], depth, totals[..], counts[..], maxCt[..])
    ensures !ok ==> table[proc - 1] == table[proc]
  {
    ghost var t := table[..proc];
    assert table[..proc + 1] == t + [table[proc]];
    DistinctNext(t, table[proc], depth);
    ghost var t0, c0, m0 := totals[..], counts[..], maxCt[..];
    ok := Advance(table[proc], totals, counts, maxCt, last);
    if ok {
      CountedNext(t, table[proc], depth, t0, c0, m0, totals[..], counts[..], maxCt[..]);
    }
  }

  /** The pass over the sorted table: it rejects exactly the tables with two
      equal addresses; otherwise totals[l] is the number of nodes below the root
      down to level l, and maxCt[l] the size of the largest family there. */
  method CountLevels(table: seq<Labels>, depth: nat) returns (ok: bool, totals: array<int>, maxCt: array<int>)
    requires depth > 0 && table != [] && Table(table, depth) && Ordered(table, depth)
    ensures ok <==> Distinct(table)
    ensures fresh(totals) && fresh(maxCt) && totals.Length == maxCt.Length == depth
    ensures ok ==> forall l :: 0 <= l < depth ==> totals[l] == |Nodes(table, l + 1)| && LargestFamily(table, l, maxCt[l])
  {
    totals := new int[depth](_ => 1);
    maxCt := new int[depth](_ => 1);
    var counts := new int[depth](_ => 1);
    var last := new int[depth](i requires 0 <= i < depth => table[0][i]);
    assert table[..1] == [table[0]];
    forall l | 0 <= l < depth ensures CountedAt(table[..1], depth, l, 1, 1, 1) { CountFirst(table[0], depth, l); }
    var proc := 1;
    while proc < |table|
      invariant 1 <= proc <= |table| && Distinct(table[..proc]) && last[..] == table[proc - 1]
      invariant Counted(table[..proc], depth, totals[..], counts[..], maxCt[..])
    {
      ok := CountRow(table, depth, proc, totals, counts, maxCt, last);
      if !ok {
        return;
      }
      proc := proc + 1;
    }
    assert table[..proc] == table;
    forall l | 0 <= l < depth ensures totals[l] == |Nodes(table, l + 1)| && LargestFamily(table, l, maxCt[l]) {
      assert CountedAt(table, depth, l, totals[..][l], counts[..][l], maxCt[..][l]);
    }
    ok := true;
  }

  // ---------- is the machine uniform? ----------

  // The nodes at level l + 1 that lie below one of the nodes in `parents`.
  ghost function Below(t: seq<Labels>, l: nat, parents: set<Labels>): set<Labels>
    requires forall i :: 0 <= i < |t| ==> l + 1 <= |t[i]|
  {
    set q | q in Nodes(t, l + 1) && q[..l] in parents
  }

  ghost predicate SameSize(t: seq<Labels>, l: nat, parents: set<Labels>, m: int)
    requires forall i :: 0 <= i < |t| ==> l + 1 <= |t[i]|
  {
    forall p :: p in parents ==> |Children(t, l, p)| == m
  }

  lemma BelowMore(t: seq<Labels>, l: nat, parents: set<Labels>, p: Labels)
    requires (forall i :: 0 <= i < |t| ==> l + 1 <= |t[i]|) && p in parents
    ensures |Below(t, l, parents)| == |Below(t, l, parents - {p})| + |Children(t, l, p)|
  {
    assert Below(t, l, parents) == Below(t, l, parents - {p}) + Children(t, l, p);
    assert Below(t, l, parents - {p}) !! Children(t, l, p);
  }

  // Families of at most m make at most m times as many children, and exactly that if all are that large.
  lemma {:induction false} FamiliesAddUp(t: seq<Labels>, l: nat, parents: set<Labels>, m: nat)
    requires forall i :: 0 <= i < |t| ==> l + 1 <= |t[i]|
    requires forall p :: p in parents ==> |Children(t, l, p)| <= m
    ensures |Below(t, l, parents)| <= |parents| * m
    ensures |Below(t, l, parents)| == |parents| * m <==> SameSize(t, l, parents, m)
  {
    if parents == {} {
      assert Below(t, l, parents) == {};
    } else {
      var p :| p in parents;
      FamiliesAddUp(t, l, parents - {p}, m);
      BelowMore(t, l, parents, p);
      OneMore(|parents - {p}|, m);
      assert SameSize(t, l, parents, m) <==> SameSize(t, l, parents - {p}, m) && |Children(t, l, p)| == m;
    }
  }

  lemma OneMore(n: nat, m: nat)
    ensures (n + 1) * m == n * m + m
  {
  }

  // All nodes of a level have families of the same size, at each of the first n levels.
  ghost predicate UniformTo(t: seq<Labels>, maxCt: seq<int>, n: nat)
    requires n <= |maxCt| && forall i :: 0 <= i < |t| ==> n <= |t[i]|
  {
    forall l :: 0 <= l < n ==> UniformAt(t, maxCt, l)
  }

  ghost predicate UniformAt(t: seq<Labels>, maxCt: seq<int>, l: nat)
    requires l < |maxCt| && forall i :: 0 <= i < |t| ==> l + 1 <= |t[i]|
  {
    SameSize(t, l, Nodes(t, l), maxCt[l])
  }

  lemma RootOnly(t: seq<Labels>)
    requires t != []
    ensures Nodes(t, 0) == {[]}
  {
    assert t[0][..0] == [];
    assert t[0][..0] in Nodes(t, 0);
  }

  lemma ProductStep(x: nat, y: nat, z: nat, m: nat)
    requires 0 < x <= y && 0 < m && z <= x * m
    ensures z <= y * m
    ensures z == y * m <==> x == y && z == x * m
  {
    if x < y {
      assert y * m == x * m + (y - x) * m;
      assert (y - x) * m > 0;
    }
  }

  lemma {:induction false} ProductBound(t: seq<Labels>, maxCt: seq<int>, n: nat)
    requires t != [] && n <= |maxCt| && forall i :: 0 <= i < |t| ==> n <= |t[i]|
    requires forall l :: 0 <= l < n ==> LargestFamily(t, l, maxCt[l])
    ensures 0 < |Nodes(t, n)| <= Product(maxCt[..n])
    ensures |Nodes(t, n)| == Product(maxCt[..n]) <==> UniformTo(t, maxCt, n)
  {
    if n == 0 {
      RootOnly(t);
    } else {
      var l := n - 1;
      ProductBound(t, maxCt, l);
      assert maxCt[..n][..l] == maxCt[..l];
      assert LargestFamily(t, l, maxCt[l]);
      FamiliesAddUp(t, l, Nodes(t, l), maxCt[l]);
      AllBelow(t, l);
      assert t[0][..n] in Nodes(t, n);
      ProductStep(|Nodes(t, l)|, Product(maxCt[..l]), |Nodes(t, n)|, maxCt[l]);
      assert UniformTo(t, maxCt, n) <==> UniformTo(t, maxCt, l) && UniformAt(t, maxCt, l);
    }
  }

  lemma AllBelow(t: seq<Labels>, l: nat)
    requires forall i :: 0 <= i < |t| ==> l + 1 <= |t[i]|
    ensures Below(t, l, Nodes(t, l)) == Nodes(t, l + 1)
  {
    forall q | q in Nodes(t, l + 1) ensures q[..l] in Nodes(t, l) {
      var i :| 0 <= i < |t| && q == t[i][..l + 1];
      assert t[i][..l + 1][..l] == t[i][..l];
    }
  }

  /** The test on the product of the radices: true exactly when at each level all
      nodes have equally many children. */
  method IsUniform(ghost table: seq<Labels>, depth: nat, totals: array<int>, maxCt: array<int>) returns (uniform: bool)
    requires depth > 0 && table != [] && Table(table, depth) && totals.Length == maxCt.Length == depth
    requires forall l :: 0 <= l < depth ==> totals[l] == |Nodes(table, l + 1)| && LargestFamily(table, l, maxCt[l])
    ensures uniform <==> UniformTo(table, maxCt[..], depth)
  {
    var prod := maxCt[0];
    assert maxCt[..1] == [maxCt[0]] && maxCt[..1][..0] == [];
    for level := 1 to depth
      invariant prod == Product(maxCt[..level])
    {
      assert maxCt[..level + 1][..level] == maxCt[..level];
      prod := prod * maxCt[level];
    }
    ProductBound(table, maxCt[..], depth);
    assert maxCt[..][..depth] == maxCt[..depth];
    uniform := prod == totals[depth - 1];
  }

  // ---------- the same test, multiplied up from the finest level ----------

  // All nodes of the first level are children of the root.
  lemma FirstLevel(t: seq<Labels>, m: int)
    requires t != [] && (forall i :: 0 <= i < |t| ==> 1 <= |t[i]|) && LargestFamily(t, 0, m)
    ensures |Nodes(t, 1)| == m
  {
    RootOnly(t);
    assert Children(t, 0, []) == Nodes(t, 1);
  }

  // What has been multiplied so far: the totals of the first level and the families below level l.
  ghost predicate Multiplied(m: seq<int>, total: int, l: nat, prod: int)
    requires l < |m|
  {
    exists q: int :: prod == total * q && q * Product(m[..l + 1]) == Product(m)
  }

  lemma MultipliedNext(m: seq<int>, total: int, l: nat, prod: int)
    requires 0 < l < |m| && Multiplied(m, total, l, prod)
    ensures Multiplied(m, total, l - 1, prod * m[l])
  {
    var q: int :| prod == total * q && q * Product(m[..l + 1]) == Product(m);
    var p, x := Product(m[..l]), m[l];
    assert m[..l + 1][..l] == m[..l];
    assert q * (p * x) == (q * x) * p;
    assert (total * q) * x == total * (q * x);
  }

  lemma MultipliedStart(m: seq<int>, total: int)
    requires m != []
    ensures Multiplied(m, total, |m| - 1, total)
  {
    assert m[..|m|] == m;
    assert total * 1 == total && 1 * Product(m) == Product(m);
  }

  lemma ProductOne(m: seq<int>)
    requires m != []
    ensures Product(m[..1]) == m[0]
  {
    assert m[..1] == [m[0]] && m[..1][..0] == [];
  }

  lemma MultipliedAll(m: seq<int>, prod: int)
    requires m != [] && Multiplied(m, m[0], 0, prod)
    ensures prod == Product(m)
  {
    var q: int :| prod == m[0] * q && q * Product(m[..1]) == Product(m);
    ProductOne(m);
  }

  /** Distinct addresses are no more than the product of the radices. */
  lemma ProductHolds(table: seq<Labels>, depth: nat, maxCt: seq<int>)
    requires table != [] && Table(table, depth) && Distinct(table) && |maxCt| == depth
    requires forall l :: 0 <= l < depth ==> LargestFamily(table, l, maxCt[l])
    ensures |table| <= Product(maxCt)
  {
    ProductBound(table, maxCt, depth);
    assert maxCt[..depth] == maxCt;
    DistinctCount(table, depth);
  }

  lemma {:induction false} DistinctCount(table: seq<Labels>, depth: nat)
    requires Table(table, depth) && Distinct(table)
    ensures |Nodes(table, depth)| == |table|
  {
    if table == [] {
      NoNodes(table, depth);
    } else {
      var n := |table| - 1;
      DistinctCount(table[..n], depth);
      assert table == table[..n] + [table[n]];
      OneMoreNode(table[..n], table[n], depth);
    }
  }

  lemma OneMoreNode(t: seq<Labels>, a: Labels, depth: nat)
    requires Table(t, depth) && |a| == depth && forall i :: 0 <= i < |t| ==> t[i] != a
    ensures |Nodes(t + [a], depth)| == |Nodes(t, depth)| + 1
  {
    NodesPush(t, a, depth, depth);
    NotSeen(t, a, depth);
    assert a[..depth] == a;
    AddOne(Nodes(t, depth), a);
  }

  lemma NotSeen(t: seq<Labels>, a: Labels, depth: nat)
    requires Table(t, depth) && |a| == depth && forall i :: 0 <= i < |t| ==> t[i] != a
    ensures a !in Nodes(t, depth)
  {
    forall i | 0 <= i < |t| ensures t[i][..depth] != a { assert t[i][..depth] == t[i]; }
  }
}
