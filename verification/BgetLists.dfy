/** The twenty circular free lists of a heap, held in the forward and backward
    links of the free blocks. Each list starts and ends at its bin's own node. */
module BgetLists {
  import opened BgetBins

  // The address of a bin's list head. Block addresses are positive.
  function Head(bin: int): int {
    -1 - bin
  }

  // The k-th node on the way round a list, counting its head as node 0 and as the last node.
  function Node(head: int, items: seq<int>, k: int): int {
    if 0 < k <= |items| then items[k - 1] else head
  }

  // Nodes k and k + 1 point at each other.
  ghost predicate Link(flink: map<int, int>, blink: map<int, int>, head: int, items: seq<int>, k: int) {
    var a, b := Node(head, items, k), Node(head, items, k + 1);
    a in flink && b in blink && flink[a] == b && blink[b] == a
  }

  ghost predicate Ring(flink: map<int, int>, blink: map<int, int>, head: int, items: seq<int>) {
    forall k {:trigger Link(flink, blink, head, items, k)} :: 0 <= k <= |items| ==> Link(flink, blink, head, items, k)
  }

  ghost predicate Apart(lists: seq<seq<int>>) {
    && (forall i, k :: 0 <= i < |lists| && 0 <= k < |lists[i]| ==> lists[i][k] > 0)
    && (forall i, k, j, l ::
          0 <= i < |lists| && 0 <= k < |lists[i]| && 0 <= j < |lists| && 0 <= l < |lists[j]| ==>
            lists[i][k] == lists[j][l] ==> i == j && k == l)
  }

  ghost predicate Linked(flink: map<int, int>, blink: map<int, int>, lists: seq<seq<int>>) {
    && |lists| == BINS
    && Apart(lists)
    && (forall i :: 0 <= i < BINS ==> Ring(flink, blink, Head(i), lists[i]))
  }

  ghost predicate Listed(lists: seq<seq<int>>, b: int) {
    exists i :: 0 <= i < |lists| && b in lists[i]
  }

  function Without(items: seq<int>, k: int): seq<int>
    requires 0 <= k < |items|
  {
    items[..k] + items[k + 1..]
  }

  // Links that are not nodes of a list can be overwritten freely.
  lemma RingFrame(flink: map<int, int>, blink: map<int, int>, flink': map<int, int>, blink': map<int, int>,
                  head: int, items: seq<int>)
    requires Ring(flink, blink, head, items)
    requires forall a :: a == head || a in items ==>
               && (a in flink ==> a in flink' && flink'[a] == flink[a])
               && (a in blink ==> a in blink' && blink'[a] == blink[a])
    ensures Ring(flink', blink', head, items)
  {
    forall k | 0 <= k <= |items|
      ensures Link(flink', blink', head, items, k)
    {
      var a, b := Node(head, items, k), Node(head, items, k + 1);
      assert Link(flink, blink, head, items, k);
      assert (a == head || a in items) && (b == head || b in items);
    }
  }

  lemma RingAppend(flink: map<int, int>, blink: map<int, int>, head: int, items: seq<int>, b: int)
    requires Ring(flink, blink, head, items)
    requires b != head && b !in items && head !in items
    requires forall i, j :: 0 <= i < j < |items| ==> items[i] != items[j]
    ensures head in blink && blink[head] == Node(head, items, |items|)
    ensures var tail := blink[head];
            Ring(flink[b := head][tail := b], blink[b := tail][head := b], head, items + [b])
  {
    var n := |items|;
    assert Link(flink, blink, head, items, n);
    var tail := blink[head];
    var flink', blink' := flink[b := head][tail := b], blink[b := tail][head := b];
    forall k | 0 <= k <= n + 1
      ensures Link(flink', blink', head, items + [b], k)
    {
      if k < n {
        assert Link(flink, blink, head, items, k);
        assert Node(head, items, k) != tail;
        assert Node(head, items, k + 1) == items[k] != head;
      }
    }
  }

  lemma RingRemove(flink: map<int, int>, blink: map<int, int>, head: int, items: seq<int>, k: int)
    requires Ring(flink, blink, head, items)
    requires 0 <= k < |items| && head !in items
    requires forall i, j :: 0 <= i < j < |items| ==> items[i] != items[j]
    ensures var b := items[k];
            b in flink && b in blink &&
            Ring(flink[blink[b] := flink[b]], blink[flink[b] := blink[b]], head, Without(items, k))
  {
    var b := items[k];
    var before, after := Node(head, items, k), Node(head, items, k + 2);
    assert Link(flink, blink, head, items, k);
    assert Link(flink, blink, head, items, k + 1);
    var s := Without(items, k);
    var flink', blink' := flink[before := after], blink[after := before];
    forall j | 0 <= j <= |s|
      ensures Link(flink', blink', head, s, j)
    {
      var k' := if j < k then j else j + 1;
      assert Link(flink, blink, head, items, k');
      assert Node(head, s, j) == Node(head, items, if j <= k then j else j + 1);
      assert Node(head, s, j + 1) == Node(head, items, if j + 1 <= k then j + 1 else j + 2);
      if j < k {
        assert Node(head, items, j) != before;
        assert Node(head, items, j + 1) != after;
      } else if j > k {
        assert Node(head, items, j + 1) != before;
        assert Node(head, items, j + 2) != after;
      }
    }
  }

  lemma DistinctItems(lists: seq<seq<int>>, i: int)
    requires Apart(lists) && 0 <= i < |lists|
    ensures forall k, l :: 0 <= k < l < |lists[i]| ==> lists[i][k] != lists[i][l]
    ensures forall h :: h <= 0 ==> h !in lists[i]
  {
  }

  lemma DisjointItems(lists: seq<seq<int>>, i: int, j: int)
    requires Apart(lists) && 0 <= i < |lists| && 0 <= j < |lists| && i != j
    ensures forall a :: a in lists[i] ==> a !in lists[j] && a > 0
  {
  }

  /** Appending at the tail of one list, with the four link writes of the
      insertion routine, leaves every list a well-formed ring. */
  lemma AppendKeepsLinks(flink: map<int, int>, blink: map<int, int>, lists: seq<seq<int>>, bin: int, b: int)
    requires Linked(flink, blink, lists)
    requires 0 <= bin < BINS && b > 0 && !Listed(lists, b)
    ensures Head(bin) in blink
    ensures var tail := blink[Head(bin)];
            Linked(flink[b := Head(bin)][tail := b], blink[b := tail][Head(bin) := b],
                   lists[bin := lists[bin] + [b]])
  {
    var lists' := lists[bin := lists[bin] + [b]];
    assert Ring(flink, blink, Head(bin), lists[bin]);
    DistinctItems(lists, bin);
    RingAppend(flink, blink, Head(bin), lists[bin], b);
    var tail := blink[Head(bin)];
    assert tail == Head(bin) || tail in lists[bin];
    forall i | 0 <= i < BINS
      ensures Ring(flink[b := Head(bin)][tail := b], blink[b := tail][Head(bin) := b], Head(i), lists'[i])
    {
      if i != bin {
        DisjointItems(lists, i, bin);
        RingFrame(flink, blink, flink[b := Head(bin)][tail := b], blink[b := tail][Head(bin) := b], Head(i), lists[i]);
      }
    }
    assert Apart(lists') by {
      assert forall i, k :: 0 <= i < |lists| && 0 <= k < |lists[i]| ==> lists[i][k] != b;
    }
  }

  /** Unlinking one block leaves every list a well-formed ring. */
  lemma RemoveKeepsLinks(flink: map<int, int>, blink: map<int, int>, lists: seq<seq<int>>, bin: int, k: int)
    requires Linked(flink, blink, lists)
    requires 0 <= bin < BINS && 0 <= k < |lists[bin]|
    ensures var b := lists[bin][k];
            b in flink && b in blink &&
            Linked(flink[blink[b] := flink[b]], blink[flink[b] := blink[b]], lists[bin := Without(lists[bin], k)])
  {
    var b, items := lists[bin][k], lists[bin];
    var lists' := lists[bin := Without(items, k)];
    assert Ring(flink, blink, Head(bin), items);
    DistinctItems(lists, bin);
    RingRemove(flink, blink, Head(bin), items, k);
    var before, after := Node(Head(bin), items, k), Node(Head(bin), items, k + 2);
    assert Link(flink, blink, Head(bin), items, k);
    assert Link(flink, blink, Head(bin), items, k + 1);
    assert (before == Head(bin) || before in items) && (after == Head(bin) || after in items);
    forall i | 0 <= i < BINS
      ensures Ring(flink[before := after], blink[after := before], Head(i), lists'[i])
    {
      if i != bin {
        DisjointItems(lists, i, bin);
        RingFrame(flink, blink, flink[before := after], blink[after := before], Head(i), lists[i]);
      }
    }
    WithoutKeepsApart(lists, bin, k);
  }

  lemma WithoutKeepsApart(lists: seq<seq<int>>, bin: int, k: int)
    requires Apart(lists) && 0 <= bin < |lists| && 0 <= k < |lists[bin]|
    ensures Apart(lists[bin := Without(lists[bin], k)])
  {
    var lists' := lists[bin := Without(lists[bin], k)];
    forall i, m, j, l | 0 <= i < |lists'| && 0 <= m < |lists'[i]| && 0 <= j < |lists'| && 0 <= l < |lists'[j]| &&
                        lists'[i][m] == lists'[j][l]
      ensures i == j && m == l
    {
      var m' := if i == bin && m >= k then m + 1 else m;
      var l' := if j == bin && l >= k then l + 1 else l;
      assert lists[i][m'] == lists'[i][m] && lists[j][l'] == lists'[j][l];
    }
    forall i, m | 0 <= i < |lists'| && 0 <= m < |lists'[i]| ensures lists'[i][m] > 0 {
      assert lists'[i][m] == lists[i][if i == bin && m >= k then m + 1 else m];
    }
  }

  // ---------- the order of the lists ----------

  function Except(items: seq<int>, b: int): seq<int> {
    if items == [] then []
    else
      var front, last := Except(items[..|items| - 1], b), items[|items| - 1];
      if last == b then front else front + [last]
  }

  ghost predicate OffAt(lists: seq<seq<int>>, b: int, r: seq<seq<int>>, i: int)
    requires 0 <= i < |lists| == |r|
  {
    r[i] == Except(lists[i], b)
  }

  ghost predicate IsOff(lists: seq<seq<int>>, b: int, r: seq<seq<int>>) {
    |r| == |lists| && forall i {:trigger OffAt(lists, b, r, i)} :: 0 <= i < |r| ==> OffAt(lists, b, r, i)
  }

  lemma SomeOff(lists: seq<seq<int>>, b: int)
    ensures exists r :: IsOff(lists, b, r)
  {
    assert IsOff(lists, b, seq(|lists|, i requires 0 <= i < |lists| => Except(lists[i], b)));
  }

  // All lists without block b, in the order they had.
  ghost function Off(lists: seq<seq<int>>, b: int): seq<seq<int>> {
    SomeOff(lists, b);
    var r :| IsOff(lists, b, r);
    r
  }

  lemma OffLists(lists: seq<seq<int>>, b: int)
    ensures |Off(lists, b)| == |lists| && forall i :: 0 <= i < |lists| ==> Off(lists, b)[i] == Except(lists[i], b)
  {
    SomeOff(lists, b);
    var r := Off(lists, b);
    forall i | 0 <= i < |r| ensures r[i] == Except(lists[i], b) { assert OffAt(lists, b, r, i); }
  }

  ghost predicate OnAt(lists: seq<seq<int>>, b: int, size: int, r: seq<seq<int>>, i: int)
    requires 0 <= i < |lists| == |r|
  {
    r[i] == if i == Bin(size) then lists[i] + [b] else lists[i]
  }

  ghost predicate IsOn(lists: seq<seq<int>>, b: int, size: int, r: seq<seq<int>>) {
    |r| == |lists| && forall i {:trigger OnAt(lists, b, size, r, i)} :: 0 <= i < |r| ==> OnAt(lists, b, size, r, i)
  }

  lemma SomeOn(lists: seq<seq<int>>, b: int, size: int)
    ensures exists r :: IsOn(lists, b, size, r)
  {
    var bin := Bin(size);
    assert IsOn(lists, b, size, if 0 <= bin < |lists| then lists[bin := lists[bin] + [b]] else lists);
  }

  // Block b put behind the others of the bin for its size.
  ghost function On(lists: seq<seq<int>>, b: int, size: int): seq<seq<int>> {
    SomeOn(lists, b, size);
    var r :| IsOn(lists, b, size, r);
    r
  }

  lemma OnLists(lists: seq<seq<int>>, b: int, size: int)
    ensures |On(lists, b, size)| == |lists|
    ensures forall i :: 0 <= i < |lists| ==> On(lists, b, size)[i] == if i == Bin(size) then lists[i] + [b] else lists[i]
  {
    SomeOn(lists, b, size);
    var r := On(lists, b, size);
    forall i | 0 <= i < |r| ensures r[i] == if i == Bin(size) then lists[i] + [b] else lists[i] {
      assert OnAt(lists, b, size, r, i);
    }
  }

  lemma {:induction false} ExceptNone(items: seq<int>, b: int)
    requires b !in items
    ensures Except(items, b) == items
  {
    if items != [] { ExceptNone(items[..|items| - 1], b); }
  }

  lemma {:induction false} ExceptIs(items: seq<int>, k: nat)
    requires k < |items| && forall i, j :: 0 <= i < j < |items| ==> items[i] != items[j]
    ensures Except(items, items[k]) == Without(items, k)
  {
    var n := |items| - 1;
    if k == n {
      ExceptNone(items[..n], items[k]);
      assert Without(items, k) == items[..n];
    } else {
      ExceptIs(items[..n], k);
      assert Without(items, k) == Without(items[..n], k) + [items[n]];
    }
  }

  lemma {:induction false} ExceptTwice(items: seq<int>, b: int, n: int)
    ensures Except(Except(items, b), n) == Except(Except(items, n), b)
    ensures Except(Except(items, b), b) == Except(items, b)
  {
    if items != [] {
      var m := |items| - 1;
      var front, last := items[..m], items[m];
      ExceptTwice(front, b, n);
      ExceptMore(Except(front, b), last, n);
      ExceptMore(Except(front, n), last, b);
      ExceptMore(Except(front, b), last, b);
    }
  }

  lemma ExceptMore(items: seq<int>, a: int, b: int)
    ensures Except(items + [a], b) == if a == b then Except(items, b) else Except(items, b) + [a]
  {
    assert (items + [a])[..|items|] == items;
  }

  lemma {:induction false} NotIn(items: seq<int>, b: int)
    ensures b !in Except(items, b)
    ensures forall a :: a in Except(items, b) <==> a in items && a != b
  {
    if items != [] { NotIn(items[..|items| - 1], b); }
  }

  lemma OffNone(lists: seq<seq<int>>, b: int)
    requires !Listed(lists, b)
    ensures Off(lists, b) == lists
  {
    OffLists(lists, b);
    forall i | 0 <= i < |lists| ensures Except(lists[i], b) == lists[i] { ExceptNone(lists[i], b); }
  }

  lemma OffIs(lists: seq<seq<int>>, i: nat, k: nat)
    requires Apart(lists) && i < |lists| && k < |lists[i]|
    ensures Off(lists, lists[i][k]) == lists[i := Without(lists[i], k)]
  {
    var b := lists[i][k];
    OffLists(lists, b);
    DistinctItems(lists, i);
    ExceptIs(lists[i], k);
    forall j | 0 <= j < |lists| && j != i ensures Except(lists[j], b) == lists[j] {
      DisjointItems(lists, i, j);
      ExceptNone(lists[j], b);
    }
  }

  lemma OnIs(lists: seq<seq<int>>, b: int, size: int)
    requires 0 <= Bin(size) < |lists|
    ensures On(lists, b, size) == lists[Bin(size) := lists[Bin(size)] + [b]]
  {
    OnLists(lists, b, size);
  }

  lemma OffItems(lists: seq<seq<int>>, b: int)
    ensures |Off(lists, b)| == |lists|
    ensures forall j, a :: 0 <= j < |lists| ==> (a in Off(lists, b)[j] <==> a in lists[j] && a != b)
  {
    OffLists(lists, b);
    forall j | 0 <= j < |lists| ensures forall a :: a in Off(lists, b)[j] <==> a in lists[j] && a != b { NotIn(lists[j], b); }
  }

  lemma OffSwap(lists: seq<seq<int>>, b: int, n: int)
    ensures Off(Off(lists, b), n) == Off(Off(lists, n), b)
  {
    OffLists(lists, b);
    OffLists(lists, n);
    OffLists(Off(lists, b), n);
    OffLists(Off(lists, n), b);
    forall i | 0 <= i < |lists| ensures Except(Except(lists[i], b), n) == Except(Except(lists[i], n), b) {
      ExceptTwice(lists[i], b, n);
    }
  }

  // Taking off again what was put on last.
  lemma OffOn(lists: seq<seq<int>>, b: int, size: int)
    ensures Off(On(Off(lists, b), b, size), b) == Off(lists, b)
  {
    var l := On(Off(lists, b), b, size);
    OffLists(lists, b);
    OnLists(Off(lists, b), b, size);
    OffLists(l, b);
    forall i | 0 <= i < |lists| ensures Except(l[i], b) == Except(lists[i], b) {
      ExceptTwice(lists[i], b, b);
      ExceptMore(Except(lists[i], b), b, b);
    }
  }

  // The same, with another block taken off in between.
  lemma OffOnOff(lists: seq<seq<int>>, b: int, size: int, n: int)
    ensures Off(Off(On(Off(lists, b), b, size), n), b) == Off(Off(lists, b), n)
  {
    OffSwap(On(Off(lists, b), b, size), n, b);
    OffOn(lists, b, size);
  }

  lemma OnOff(lists: seq<seq<int>>, b: int, n: int, size: int)
    ensures Off(On(Off(Off(lists, b), n), b, size), b) == Off(Off(lists, b), n)
  {
    OffSwap(lists, b, n);
    OffOn(Off(lists, n), b, size);
  }

  lemma OffNoneAfter(lists: seq<seq<int>>, b: int, n: int)
    requires !Listed(lists, n)
    ensures Off(Off(lists, b), n) == Off(lists, b)
  {
    OffItems(lists, b);
    OffNone(Off(lists, b), n);
  }

  // A block and a neighbour n of it that is on the lists too, if other is set, change lists: in
  // two moves, the block first, or in one.
  lemma TwoMoves(l0: seq<seq<int>>, l1: seq<seq<int>>, l2: seq<seq<int>>, other: bool, b: int, n: int, s: int, t: int)
    requires !other ==> !Listed(l0, n) && s == t
    requires l1 == On(Off(l0, b), b, s)
    requires l2 == if other then On(Off(Off(l1, n), b), b, t) else l1
    ensures l2 == On(Off(Off(l0, b), n), b, t)
  {
    if other { OffOnOff(l0, b, s, n); } else { OffNoneAfter(l0, b, n); }
  }
}
