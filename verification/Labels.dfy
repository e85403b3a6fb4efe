/** Tables of hardware addresses. An address is a sequence of labels, coarsest
    level first; the tables are sorted by label, level by level. */
module Labels {

  type Labels = seq<int>

  // The first level at which two addresses differ, or their depth.
  function Diff(a: Labels, b: Labels): (d: nat)
    requires |a| == |b|
    ensures d <= |a| && a[..d] == b[..d] && (d < |a| ==> a[d] != b[d])
    ensures d == |a| <==> a == b
  {
    if |a| == 0 then 0
    else if a[0] != b[0] then 0
    else
      assert a == [a[0]] + a[1..] && b == [b[0]] + b[1..];
      var d := Diff(a[1..], b[1..]);
      assert a[..1 + d] == [a[0]] + a[1..][..d];
      assert b[..1 + d] == [b[0]] + b[1..][..d];
      1 + d
  }

  // The comparison that the tables are sorted by.
  predicate LexLe(a: Labels, b: Labels)
    requires |a| == |b|
  {
    var d := Diff(a, b);
    d == |a| || a[d] < b[d]
  }

  ghost predicate Table(t: seq<Labels>, depth: nat) {
    forall i :: 0 <= i < |t| ==> |t[i]| == depth
  }

  ghost predicate Ordered(t: seq<Labels>, depth: nat)
    requires Table(t, depth)
  {
    forall i, j :: 0 <= i < j < |t| ==> LexLe(t[i], t[j])
  }

  lemma Agree(a: Labels, b: Labels, l: nat)
    requires l <= |a| && l <= |b|
    ensures a[..l] == b[..l] <==> forall k :: 0 <= k < l ==> a[k] == b[k]
  {
    if a[..l] == b[..l] {
      forall k | 0 <= k < l ensures a[k] == b[k] { assert a[k] == a[..l][k] && b[k] == b[..l][k]; }
    }
  }

  lemma DiffIs(a: Labels, b: Labels, d: nat)
    requires |a| == |b| && d <= |a| && a[..d] == b[..d] && (d < |a| ==> a[d] != b[d])
    ensures Diff(a, b) == d
  {
    Agree(a, b, d);
    Agree(a, b, Diff(a, b));
  }

  // Two addresses agree on their first l labels just if they do not differ before level l.
  lemma PrefixDiff(a: Labels, b: Labels, l: nat)
    requires |a| == |b| && l <= |a|
    ensures a[..l] == b[..l] <==> Diff(a, b) >= l
  {
    Agree(a, b, l);
    Agree(a, b, Diff(a, b));
  }

  // What lies between two addresses that agree on l labels agrees with both.
  lemma Sandwich(a: Labels, b: Labels, c: Labels, l: nat)
    requires |a| == |b| == |c| && l <= |a| && LexLe(a, b) && LexLe(b, c) && a[..l] == c[..l]
    ensures b[..l] == a[..l]
  {
    Agree(a, c, l);
    Agree(a, b, Diff(a, b));
    Agree(b, c, Diff(b, c));
    Agree(b, a, l);
  }

  lemma LexTransitive(a: Labels, b: Labels, c: Labels)
    requires |a| == |b| == |c| && LexLe(a, b) && LexLe(b, c)
    ensures LexLe(a, c) && (a == c ==> a == b)
  {
    var d, e := Diff(a, b), Diff(b, c);
    var f := if d < e then d else e;
    Agree(a, b, d);
    Agree(b, c, e);
    Agree(a, c, f);
    DiffIs(a, c, f);
  }

  // A sorted table stays sorted when a row is added that comes after its last row.
  lemma OrderedNext(t: seq<Labels>, a: Labels, depth: nat)
    requires Table(t, depth) && Ordered(t, depth) && t != [] && |a| == depth && LexLe(t[|t| - 1], a)
    ensures Ordered(t + [a], depth) && forall i :: 0 <= i < |t| ==> LexLe(t[i], a)
  {
    forall i | 0 <= i < |t| ensures LexLe(t[i], a) {
      if i < |t| - 1 { LexTransitive(t[i], t[|t| - 1], a); }
    }
  }

  // ---------- the tree that a table describes ----------

  // The nodes at level l: what the addresses have as their first l labels.
  ghost function Nodes(t: seq<Labels>, l: nat): set<Labels>
    requires forall i :: 0 <= i < |t| ==> l <= |t[i]|
  {
    set i | 0 <= i < |t| :: t[i][..l]
  }

  ghost function Children(t: seq<Labels>, l: nat, p: Labels): set<Labels>
    requires forall i :: 0 <= i < |t| ==> l + 1 <= |t[i]|
  {
    set q | q in Nodes(t, l + 1) && q[..l] == p
  }

  lemma NoNodes(t: seq<Labels>, l: nat)
    requires t == []
    ensures |Nodes(t, l)| == 0
  {
    assert Nodes(t, l) == {};
  }

  lemma AddOne(s: set<Labels>, q: Labels)
    ensures |s + {q}| == if q in s then |s| else |s| + 1
  {
    if q in s { assert s + {q} == s; }
  }

  // One more address, at the end of the order.
  lemma NodesPush(t: seq<Labels>, a: Labels, depth: nat, l: nat)
    requires Table(t, depth) && |a| == depth && l <= depth
    ensures Nodes(t + [a], l) == Nodes(t, l) + {a[..l]}
  {
    var t' := t + [a];
    forall p | p in Nodes(t', l) ensures p in Nodes(t, l) + {a[..l]} {
      var i :| 0 <= i < |t'| && p == t'[i][..l];
      assert i < |t| ==> t'[i] == t[i];
    }
    forall p | p in Nodes(t, l) + {a[..l]} ensures p in Nodes(t', l) {
      if p == a[..l] {
        assert t'[|t|] == a;
      } else {
        var i :| 0 <= i < |t| && p == t[i][..l];
        assert t'[i] == t[i];
      }
    }
  }

  // It brings a new node at level l just if it differs from the address before it above that level.
  lemma NodeIsNew(t: seq<Labels>, a: Labels, depth: nat, l: nat)
    requires Table(t, depth) && Ordered(t, depth) && |a| == depth && l <= depth && t != []
    requires forall i :: 0 <= i < |t| ==> LexLe(t[i], a)
    ensures a[..l] in Nodes(t, l) <==> Diff(t[|t| - 1], a) >= l
  {
    var n := |t| - 1;
    PrefixDiff(t[n], a, l);
    forall i | 0 <= i < n && t[i][..l] == a[..l] ensures t[n][..l] == a[..l] { Sandwich(t[i], t[n], a, l); }
    NodeOfLast(t, a[..l], l);
  }

  lemma NodeOfLast(t: seq<Labels>, p: Labels, l: nat)
    requires t != [] && forall i :: 0 <= i < |t| ==> l <= |t[i]|
    requires forall i :: 0 <= i < |t| - 1 && t[i][..l] == p ==> t[|t| - 1][..l] == p
    ensures p in Nodes(t, l) <==> t[|t| - 1][..l] == p
  {
    assert t[|t| - 1][..l] in Nodes(t, l);
  }

  lemma ChildrenPush(t: seq<Labels>, a: Labels, depth: nat, l: nat, p: Labels)
    requires Table(t, depth) && |a| == depth && l + 1 <= depth
    ensures Children(t + [a], l, p) == if a[..l] == p then Children(t, l, p) + {a[..l + 1]} else Children(t, l, p)
  {
    NodesPush(t, a, depth, l + 1);
    assert a[..l + 1][..l] == a[..l];
  }

  // A node has a child just if it is a node of the tree.
  lemma NodesHaveChildren(t: seq<Labels>, depth: nat, l: nat, p: Labels)
    requires Table(t, depth) && l + 1 <= depth
    ensures p in Nodes(t, l) <==> Children(t, l, p) != {}
  {
    if p in Nodes(t, l) {
      var i :| 0 <= i < |t| && p == t[i][..l];
      assert t[i][..l + 1] in Nodes(t, l + 1) && t[i][..l + 1][..l] == p;
      assert t[i][..l + 1] in Children(t, l, p);
    }
    if Children(t, l, p) != {} {
      assert exists q :: q in Children(t, l, p);
      var q :| q in Children(t, l, p);
      var i :| 0 <= i < |t| && q == t[i][..l + 1];
      assert t[i][..l + 1][..l] == t[i][..l];
      assert p == t[i][..l];
    }
  }
}
