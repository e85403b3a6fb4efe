/** Null-terminated singly linked lists in memory. */
module Chains {

  function Elems(s: seq<int>): set<int> {
    set a | a in s
  }

  function Rest(items: seq<int>): seq<int> {
    if items == [] then [] else items[1..]
  }

  // All of the items are moved to one place.
  function Put<P>(place: map<int, P>, items: seq<int>, where: P): map<int, P> {
    map b | b in place :: if b in items then where else place[b]
  }

  ghost predicate LinkAt(next: map<int, int>, items: seq<int>, last: int, i: int)
    requires 0 <= i < |items|
  {
    items[i] in next && next[items[i]] == if i + 1 < |items| then items[i + 1] else last
  }

  // The list from `head` on consists of `items`, and its last block points to `last`.
  ghost predicate Chain(next: map<int, int>, head: int, items: seq<int>, last: int) {
    && head == (if items == [] then 0 else items[0])
    && (forall i {:trigger LinkAt(next, items, last, i)} :: 0 <= i < |items| ==> LinkAt(next, items, last, i))
    && (forall i, j :: 0 <= i < j < |items| ==> items[i] != items[j])
  }

  lemma PushFront(next: map<int, int>, head: int, items: seq<int>, p: int)
    requires Chain(next, head, items, 0) && p !in items
    ensures Chain(next[p := head], p, [p] + items, 0)
  {
    var next', items' := next[p := head], [p] + items;
    forall i | 0 <= i < |items'| ensures LinkAt(next', items', 0, i) {
      assert i > 0 ==> LinkAt(next, items, 0, i - 1) && items[i - 1] in items;
    }
  }

  lemma PopFront(next: map<int, int>, head: int, items: seq<int>)
    requires Chain(next, head, items, 0) && items != []
    ensures head in next && head !in items[1..] && Chain(next, next[head], items[1..], 0)
  {
    assert LinkAt(next, items, 0, 0);
    forall i | 0 <= i < |items[1..]| ensures LinkAt(next, items[1..], 0, i) {
      assert LinkAt(next, items, 0, i + 1);
    }
  }

  lemma Append(next: map<int, int>, head: int, front: seq<int>, seen: int, back: seq<int>)
    requires Chain(next, head, front, seen) && Chain(next, seen, back, 0) && front != []
    requires forall b :: b in front ==> b !in back
    ensures Chain(next, head, front + back, 0)
  {
    var items := front + back;
    forall i | 0 <= i < |items| ensures LinkAt(next, items, 0, i) {
      if i < |front| {
        assert LinkAt(next, front, seen, i);
      } else {
        assert LinkAt(next, back, 0, i - |front|);
      }
    }
    forall i, j | 0 <= i < j < |items| ensures items[i] != items[j] {
      if i < |front| <= j { assert items[i] in front && items[j] in back; }
    }
  }

  lemma Retarget(next: map<int, int>, head: int, items: seq<int>, last: int, seen: int)
    requires Chain(next, head, items, last) && items != []
    ensures Chain(next[items[|items| - 1] := seen], head, items, seen)
  {
    var next' := next[items[|items| - 1] := seen];
    forall i | 0 <= i < |items| ensures LinkAt(next', items, seen, i) { assert LinkAt(next, items, last, i); }
  }

  lemma OtherLinks(next: map<int, int>, next': map<int, int>, head: int, items: seq<int>, last: int)
    requires Chain(next, head, items, last)
    requires forall b :: b in items && b in next ==> b in next' && next'[b] == next[b]
    ensures Chain(next', head, items, last)
  {
    forall i | 0 <= i < |items| ensures LinkAt(next', items, last, i) {
      assert LinkAt(next, items, last, i) && items[i] in items;
    }
  }
}
