/** Dropping from the address table the levels at which every node is an only
    child. The package level stays. */
module LevelCollapse {
  import opened Labels
  import opened Topology

  // The labels of an address at the levels that are kept.
  function Kept(a: Labels, keep: seq<bool>): (r: Labels)
    requires |a| == |keep|
    ensures |r| <= |a|
  {
    if a == [] then [] else
      var n := |a| - 1;
      Kept(a[..n], keep[..n]) + (if keep[n] then [a[n]] else [])
  }

  function Width(keep: seq<bool>): (w: nat)
    ensures w <= |keep|
  {
    if keep == [] then 0 else Width(keep[..|keep| - 1]) + (if keep[|keep| - 1] then 1 else 0)
  }

  lemma {:induction false} KeptWidth(a: Labels, keep: seq<bool>)
    requires |a| == |keep|
    ensures |Kept(a, keep)| == Width(keep)
  {
    if a != [] { KeptWidth(a[..|a| - 1], keep[..|a| - 1]); }
  }

  // The kept labels of the first l levels come first.
  lemma {:induction false} KeptPrefix(a: Labels, keep: seq<bool>, l: nat)
    requires |a| == |keep| && l <= |a|
    ensures Width(keep[..l]) <= Width(keep) == |Kept(a, keep)|
    ensures Kept(a[..l], keep[..l]) == Kept(a, keep)[..Width(keep[..l])]
  {
    KeptWidth(a, keep);
    KeptWidth(a[..l], keep[..l]);
    if l < |a| {
      var n := |a| - 1;
      KeptPrefix(a[..n], keep[..n], l);
      KeptWidth(a[..n], keep[..n]);
      assert a[..n][..l] == a[..l] && keep[..n][..l] == keep[..l];
    } else {
      assert a[..l] == a && keep[..l] == keep;
    }
  }

  // The next one is that of level l, if that is kept.
  lemma KeptNext(a: Labels, keep: seq<bool>, l: nat)
    requires |a| == |keep| && l < |a| && keep[l]
    ensures Width(keep[..l]) < Width(keep) == |Kept(a, keep)| && Kept(a, keep)[Width(keep[..l])] == a[l]
  {
    KeptPrefix(a, keep, l + 1);
    KeptWidth(a[..l], keep[..l]);
    assert a[..l + 1][..l] == a[..l] && keep[..l + 1][..l] == keep[..l];
    assert Kept(a[..l + 1], keep[..l + 1]) == Kept(a[..l], keep[..l]) + [a[l]];
  }

  // At a level where the largest family is a single child, addresses do not first differ.
  lemma OnlyChildren(t: seq<Labels>, depth: nat, l: nat, i: nat, j: nat)
    requires Table(t, depth) && l < depth && LargestFamily(t, l, 1) && i < |t| && j < |t|
    ensures Diff(t[i], t[j]) != l
  {
    var p := t[i][..l];
    if Diff(t[i], t[j]) == l {
      PrefixDiff(t[i], t[j], l);
      PrefixDiff(t[i], t[j], l + 1);
      var q, r := t[i][..l + 1], t[j][..l + 1];
      assert q[..l] == p && r[..l] == t[j][..l] && p in Nodes(t, l);
      assert {q, r} <= Children(t, l, p);
      TwoAtLeast(Children(t, l, p), q, r);
    }
  }

  lemma TwoAtLeast(s: set<Labels>, q: Labels, r: Labels)
    requires q in s && r in s && q != r
    ensures |s| >= 2
  {
    assert s == s - {q} - {r} + {r} + {q};
  }

  // No level with a family of more than one is dropped.
  ghost predicate DropsOnlyChildren(t: seq<Labels>, depth: nat, keep: seq<bool>)
    requires Table(t, depth)
  {
    |keep| == depth && forall l :: 0 <= l < depth && !keep[l] ==> LargestFamily(t, l, 1)
  }

  /** Collapsing keeps addresses apart and in order: two of them first differ in
      the same labels as before. */
  lemma CollapseKeepsOrder(t: seq<Labels>, depth: nat, keep: seq<bool>, i: nat, j: nat)
    requires Table(t, depth) && DropsOnlyChildren(t, depth, keep) && i < |t| && j < |t|
    ensures |Kept(t[i], keep)| == |Kept(t[j], keep)| == Width(keep)
    ensures Kept(t[i], keep) == Kept(t[j], keep) <==> t[i] == t[j]
    ensures LexLe(Kept(t[i], keep), Kept(t[j], keep)) <==> LexLe(t[i], t[j])
  {
    var a, b, d := t[i], t[j], Diff(t[i], t[j]);
    KeptWidth(a, keep);
    KeptWidth(b, keep);
    if d < depth {
      assert keep[d] by { if !keep[d] { OnlyChildren(t, depth, d, i, j); } }
      KeptPrefix(a, keep, d);
      KeptPrefix(b, keep, d);
      KeptNext(a, keep, d);
      KeptNext(b, keep, d);
      DiffIs(Kept(a, keep), Kept(b, keep), Width(keep[..d]));
    }
  }

  // The rule for keeping a level.
  predicate Keeps(maxCt: seq<int>, pkgLevel: nat, keep: seq<bool>) {
    |keep| == |maxCt| && forall l :: 0 <= l < |maxCt| ==> (keep[l] <==> maxCt[l] != 1 || l == pkgLevel)
  }

  // It drops no level with a family of more than one.
  lemma KeepsFamilies(t: seq<Labels>, depth: nat, maxCt: seq<int>, pkgLevel: nat, keep: seq<bool>)
    requires Table(t, depth) && |maxCt| == depth && Keeps(maxCt, pkgLevel, keep)
    requires forall l :: 0 <= l < depth ==> LargestFamily(t, l, maxCt[l])
    ensures DropsOnlyChildren(t, depth, keep)
  {
    forall l | 0 <= l < depth && !keep[l] ensures LargestFamily(t, l, 1) { assert LargestFamily(t, l, maxCt[l]); }
  }

  /** The copy loop: count the levels to keep, then copy their columns. newPkg is
      the level that the package level has become. */
  method Collapse(t: seq<Labels>, depth: nat, maxCt: seq<int>, pkgLevel: nat)
    returns (ghost keep: seq<bool>, newDepth: nat, labels: array2<int>, newPkg: int)
    requires Table(t, depth) && |maxCt| == depth && pkgLevel < depth
    requires forall l :: 0 <= l < depth ==> LargestFamily(t, l, maxCt[l])
    ensures Keeps(maxCt, pkgLevel, keep) && DropsOnlyChildren(t, depth, keep)
    ensures newDepth == Width(keep) == labels.Length1 && labels.Length0 == |t| && Copied(t, keep, labels, newDepth)
    ensures 0 <= newPkg < newDepth && forall i :: 0 <= i < |t| ==> labels[i, newPkg] == t[i][pkgLevel]
  {
    keep := seq(depth, l requires 0 <= l < depth => maxCt[l] != 1 || l == pkgLevel);
    KeepsFamilies(t, depth, maxCt, pkgLevel, keep);
    newDepth, labels, newPkg := CopyTable(t, depth, maxCt, pkgLevel, keep);
  }

  method CopyTable(t: seq<Labels>, depth: nat, maxCt: seq<int>, pkgLevel: nat, ghost keep: seq<bool>)
    returns (newDepth: nat, labels: array2<int>, newPkg: int)
    requires Table(t, depth) && |maxCt| == depth && pkgLevel < depth && Keeps(maxCt, pkgLevel, keep)
    ensures newDepth == Width(keep) == labels.Length1 && labels.Length0 == |t| && Copied(t, keep, labels, newDepth)
    ensures 0 <= newPkg < newDepth && forall i :: 0 <= i < |t| ==> labels[i, newPkg] == t[i][pkgLevel]
  {
    newDepth := CountKept(maxCt, pkgLevel, keep);
    labels := new int[|t|, newDepth]((_, _) => 0);
    newPkg := CopyLevels(t, depth, maxCt, pkgLevel, keep, labels);
  }

  method CountKept(maxCt: seq<int>, pkgLevel: nat, ghost keep: seq<bool>) returns (newDepth: nat)
    requires Keeps(maxCt, pkgLevel, keep)
    ensures newDepth == Width(keep)
  {
    newDepth := 0;
    for level := 0 to |maxCt|
      invariant newDepth == Width(keep[..level])
    {
      assert keep[..level + 1][..level] == keep[..level];
      if maxCt[level] == 1 && level != pkgLevel {
        continue;
      }
      newDepth := newDepth + 1;
    }
    assert keep[..|maxCt|] == keep;
  }

  // The columns copied so far hold the kept labels of the levels seen so far.
  ghost predicate Copied(t: seq<Labels>, keep: seq<bool>, labels: array2<int>, w: nat)
    requires labels.Length0 == |t| && w <= labels.Length1
    reads labels
  {
    forall i, k :: 0 <= i < |t| && 0 <= k < w ==>
      |t[i]| == |keep| && k < |Kept(t[i], keep)| && labels[i, k] == Kept(t[i], keep)[k]
  }

  method CopyLevels(t: seq<Labels>, depth: nat, maxCt: seq<int>, pkgLevel: nat, ghost keep: seq<bool>, labels: array2<int>)
    returns (newPkg: int)
    requires Table(t, depth) && |maxCt| == depth == |keep| && pkgLevel < depth
    requires Keeps(maxCt, pkgLevel, keep)
    requires labels.Length0 == |t| && labels.Length1 == Width(keep)
    modifies labels
    ensures Copied(t, keep, labels, Width(keep))
    ensures 0 <= newPkg < Width(keep) && forall i :: 0 <= i < |t| ==> labels[i, newPkg] == t[i][pkgLevel]
  {
    newPkg := -1;
    var newLevel := 0;
    for level := 0 to depth
      invariant newLevel == Width(keep[..level]) <= Width(keep) && Copied(t, keep, labels, newLevel)
      invariant newPkg == if level <= pkgLevel then -1 else Width(keep[..pkgLevel])
    {
      assert keep[..level + 1][..level] == keep[..level];
      if keep[level] { KeptNext(seq(depth, _ => 0), keep, level); }
      if maxCt[level] == 1 && level != pkgLevel {
        continue;
      }
      if level == pkgLevel {
        newPkg := newLevel;
      }
      CopyColumn(t, keep, level, labels, newLevel);
      newLevel := newLevel + 1;
    }
    assert keep[..depth] == keep;
    KeptNext(seq(depth, _ => 0), keep, pkgLevel);
    forall i | 0 <= i < |t| ensures labels[i, newPkg] == t[i][pkgLevel] { KeptNext(t[i], keep, pkgLevel); }
  }

  method CopyColumn(t: seq<Labels>, ghost keep: seq<bool>, level: nat, labels: array2<int>, newLevel: nat)
    requires level < |keep| && keep[level] && Table(t, |keep|)
    requires labels.Length0 == |t| && newLevel == Width(keep[..level]) < labels.Length1
    requires Copied(t, keep, labels, newLevel)
    modifies labels
    ensures Copied(t, keep, labels, newLevel + 1)
  {
    for proc := 0 to |t|
      invariant forall i, k :: 0 <= i < |t| && 0 <= k < newLevel ==> labels[i, k] == old(labels[i, k])
      invariant forall i :: 0 <= i < proc ==> labels[i, newLevel] == t[i][level]
    {
      labels[proc, newLevel] := t[proc][level];
    }
    var w := newLevel + 1;
    forall i, k | 0 <= i < |t| && 0 <= k < w
      ensures |t[i]| == |keep| && k < |Kept(t[i], keep)| && labels[i, k] == Kept(t[i], keep)[k]
    {
      KeptNext(t[i], keep, level);
      assert k < newLevel ==> labels[i, k] == old(labels[i, k]);
    }
  }

  // ---------- the levels kept for /proc/cpuinfo tables ----------

  lemma {:induction false} FamiliesAtLeastOne(t: seq<Labels>, l: nat, parents: set<Labels>)
    requires forall i :: 0 <= i < |t| ==> l + 1 <= |t[i]|
    requires forall p :: p in parents ==> |Children(t, l, p)| >= 1
    ensures |Below(t, l, parents)| >= |parents|
    ensures |Below(t, l, parents)| == |parents| ==> SameSize(t, l, parents, 1)
  {
    if parents == {} {
      assert Below(t, l, parents) == {};
    } else {
      var p :| p in parents;
      FamiliesAtLeastOne(t, l, parents - {p});
      BelowMore(t, l, parents, p);
      assert SameSize(t, l, parents - {p}, 1) && |Children(t, l, p)| == 1 ==> SameSize(t, l, parents, 1);
    }
  }

  /** A level never has fewer nodes than the level above it, and if it has no
      more, every node there is an only child. */
  lemma LevelsGrow(t: seq<Labels>, depth: nat, l: nat)
    requires t != [] && Table(t, depth) && l < depth
    ensures |Nodes(t, l + 1)| >= |Nodes(t, l)|
    ensures |Nodes(t, l + 1)| == |Nodes(t, l)| ==> LargestFamily(t, l, 1)
  {
    forall p | p in Nodes(t, l) ensures |Children(t, l, p)| >= 1 { NodesHaveChildren(t, depth, l, p); }
    FamiliesAtLeastOne(t, l, Nodes(t, l));
    AllBelow(t, l);
    assert t[0][..l] in Nodes(t, l);
  }

  lemma NoMoreNodes(t: seq<Labels>, depth: nat, l: nat)
    requires t != [] && Table(t, depth) && l < depth && |Nodes(t, l + 1)| <= |Nodes(t, l)|
    ensures LargestFamily(t, l, 1)
  {
    LevelsGrow(t, depth, l);
  }

  /** Keeping the levels that have more nodes than the level above, and the
      package level, drops only levels of only children. */
  lemma InMapDropsOnlyChildren(t: seq<Labels>, depth: nat, totals: seq<int>, keep: seq<bool>, pkgLevel: nat)
    requires t != [] && Table(t, depth) && |totals| == |keep| == depth
    requires forall l :: 0 <= l < depth ==> totals[l] == |Nodes(t, l + 1)|
    requires forall l :: 0 <= l < depth ==> (keep[l] <==> l == pkgLevel || totals[l] > if l == 0 then 1 else totals[l - 1])
    ensures DropsOnlyChildren(t, depth, keep)
  {
    forall l | 0 <= l < depth && !keep[l] ensures LargestFamily(t, l, 1) {
      var above := if l == 0 then 1 else totals[l - 1];
      assert !(totals[l] > above);
      RootOnly(t);
      var h := l - 1;
      assert l > 0 ==> totals[h] == |Nodes(t, h + 1)| && h + 1 == l;
      assert above == |Nodes(t, l)|;
      NoMoreNodes(t, depth, l);
    }
  }
}
