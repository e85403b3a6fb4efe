/** The order in which a release leaves the free lists, and the drain of a whole
    queue of blocks: both are determined by what was there before. */
module BgetDrain {
  import opened BgetLayout
  import opened BgetLists

  // The size of the free block that the release of b0 makes of it and its free neighbours.
  ghost function Grown(m: Mem, b0: int): int
    requires b0 in m.bsize && b0 in m.prevfree
  {
    var n := Next(m, b0);
    m.prevfree[b0] - m.bsize[b0] + if n in m.bsize && m.bsize[n] > 0 then m.bsize[n] else 0
  }

  // The release of b0 makes its pool one free block, and another pool is left.
  ghost predicate GivesBack(m: Mem, poolLen: int, b0: int)
    requires b0 in m.bsize && b0 in m.prevfree
  {
    Grown(m, b0) == poolLen - HDR && |m.pools| != 1
  }

  // The lists after the release of b0: the blocks merged with it leave their lists, and the
  // result, unless its pool is given back, stands behind the others of its bin.
  ghost function Rearranged(m: Mem, lists: seq<seq<int>>, poolLen: int, b0: int): seq<seq<int>>
    requires b0 in m.bsize && b0 in m.prevfree
  {
    var rest := Off(Off(lists, Low(m, b0)), Next(m, b0));
    if GivesBack(m, poolLen, b0) then rest else On(rest, Low(m, b0), Grown(m, b0))
  }

  // The pool noted for the end: one that the release of b0 leaves free as a whole and the
  // only one is noted, one that goes back is forgotten.
  ghost function Noted(m: Mem, last: int, poolLen: int, b0: int): int
    requires b0 in m.bsize && b0 in m.prevfree
  {
    if Grown(m, b0) != poolLen - HDR then last
    else if |m.pools| == 1 then Low(m, b0)
    else if last == Low(m, b0) then 0
    else last
  }

  // The order of the free lists, and the pool noted.
  datatype Order = Order(lists: seq<seq<int>>, last: int)

  ghost predicate Releases(m: Mem, o: Order, poolLen: int, b0: int, m': Mem, o': Order) {
    && Layout(m) && LiveBlock(m, b0) && Layout(m')
    && Live(m') == Live(m) - {b0}
    && m'.pools == (if GivesBack(m, poolLen, b0) then m.pools - {Low(m, b0)} else m.pools)
    && o' == Order(Rearranged(m, o.lists, poolLen, b0), Noted(m, o.last, poolLen, b0))
  }

  // The same pools and live blocks.
  ghost predicate Same(m: Mem, w: Mem) {
    Layout(m) && Layout(w) && m.pools == w.pools && Live(m) == Live(w)
  }

  lemma SameBefore(m: Mem, w: Mem, b: int)
    requires Same(m, w) && LiveBlock(m, b)
    ensures LiveBlock(w, b) && w.bsize[b] == m.bsize[b]
    ensures m.prevfree[b] != 0 ==> w.prevfree[b] == m.prevfree[b]
  {
    assert b in Live(m) && b in Live(w);
    FreeIsDetermined(m, w);
    if m.prevfree[b] != 0 {
      assert TagAt(m, b);
      var a := b - m.prevfree[b];
      assert a in Free(m) && a in Free(w);
      assert StepAt(w, a);
    }
  }

  lemma SameAfter(m: Mem, w: Mem, b: int)
    requires Same(m, w) && LiveBlock(m, b)
    ensures LiveBlock(w, b) && Grown(w, b) == Grown(m, b) && Low(w, b) == Low(m, b) && Next(w, b) == Next(m, b)
  {
    SameBefore(m, w, b);
    SameBefore(w, m, b);
    FreeIsDetermined(m, w);
    var n := Next(m, b);
    assert StepAt(m, b) && StepAt(w, b);
    assert n in Free(m) <==> m.bsize[n] > 0 by { EndsNegative(m, n); }
    assert n in Free(w) <==> w.bsize[n] > 0 by { EndsNegative(w, n); }
  }

  lemma EndsNegative(m: Mem, n: int)
    requires Layout(m) && n in m.home
    ensures n in Free(m) <==> m.bsize[n] > 0
  {
    assert PoolAt(m, m.home[n]);
  }

  lemma ReleasesOneWay(m: Mem, o: Order, poolLen: int, b0: int, m': Mem, o': Order, w: Mem, w': Mem, o'': Order)
    requires Same(m, w)
    requires Releases(m, o, poolLen, b0, m', o') && Releases(w, o, poolLen, b0, w', o'')
    ensures Same(m', w') && o' == o''
  {
    SameAfter(m, w, b0);
  }

  // ---------- one release after the other ----------

  ghost predicate StepOf<S>(step: (S, int, S) -> bool, queue: seq<int>, trace: seq<S>, k: int)
    requires 0 <= k < |queue| < |trace|
  {
    step(trace[k], queue[k], trace[k + 1])
  }

  // The states from first to last, one step for each element of the queue.
  ghost predicate IsTrace<S>(step: (S, int, S) -> bool, queue: seq<int>, trace: seq<S>, first: S, last: S) {
    && |trace| == |queue| + 1 && trace[0] == first && trace[|queue|] == last
    && forall k {:trigger StepOf(step, queue, trace, k)} :: 0 <= k < |queue| ==> StepOf(step, queue, trace, k)
  }

  lemma TraceNext<S>(step: (S, int, S) -> bool, front: seq<int>, b: int, trace: seq<S>, first: S, last: S, next: S)
    requires IsTrace(step, front, trace, first, last) && step(last, b, next)
    ensures IsTrace(step, front + [b], trace + [next], first, next)
  {
    var queue, more := front + [b], trace + [next];
    forall k | 0 <= k < |queue| ensures StepOf(step, queue, more, k) {
      assert k < |front| ==> StepOf(step, front, trace, k);
    }
  }

  // What steps from states that agree keep, traces from one state keep.
  lemma {:induction false} TracesAgree<S>(step: (S, int, S) -> bool, agree: (S, S) -> bool, queue: seq<int>,
                                          t: seq<S>, u: seq<S>, first: S, last: S, last': S, k: nat)
    requires forall s, w, b, s', w' :: agree(s, w) && step(s, b, s') && step(w, b, w') ==> agree(s', w')
    requires IsTrace(step, queue, t, first, last) && IsTrace(step, queue, u, first, last')
    requires agree(first, first) && k <= |queue|
    ensures agree(t[k], u[k])
  {
    if k > 0 {
      TracesAgree(step, agree, queue, t, u, first, last, last', k - 1);
      assert StepOf(step, queue, t, k - 1) && StepOf(step, queue, u, k - 1);
    }
  }

  datatype Shape = Shape(m: Mem, order: Order)

  ghost function ReleaseStep(poolLen: int): (Shape, int, Shape) -> bool {
    (s: Shape, b: int, s': Shape) => Releases(s.m, s.order, poolLen, b, s'.m, s'.order)
  }

  ghost function Agreement(): (Shape, Shape) -> bool {
    (s: Shape, w: Shape) => Same(s.m, w.m) && s.order == w.order
  }

  // The blocks of the queue have been released one after the other.
  ghost predicate Drains(m0: Mem, o0: Order, poolLen: int, queue: seq<int>, m: Mem, o: Order) {
    exists trace :: IsTrace(ReleaseStep(poolLen), queue, trace, Shape(m0, o0), Shape(m, o))
  }

  lemma DrainsNone(m: Mem, o: Order, poolLen: int)
    ensures Drains(m, o, poolLen, [], m, o)
  {
    assert IsTrace(ReleaseStep(poolLen), [], [Shape(m, o)], Shape(m, o), Shape(m, o));
  }

  lemma StepIs(poolLen: int, b: int, m: Mem, o: Order, m': Mem, o': Order)
    requires Releases(m, o, poolLen, b, m', o')
    ensures ReleaseStep(poolLen)(Shape(m, o), b, Shape(m', o'))
  {
  }

  lemma DrainsNext(m0: Mem, o0: Order, poolLen: int, queue: seq<int>, n: nat,
                   m1: Mem, o1: Order, m: Mem, o: Order)
    requires n < |queue| && Drains(m0, o0, poolLen, queue[..n], m1, o1)
    requires ReleaseStep(poolLen)(Shape(m1, o1), queue[n], Shape(m, o))
    ensures Drains(m0, o0, poolLen, queue[..n + 1], m, o)
  {
    var step, first, last, next := ReleaseStep(poolLen), Shape(m0, o0), Shape(m1, o1), Shape(m, o);
    var trace :| IsTrace(step, queue[..n], trace, first, last);
    TraceNext(step, queue[..n], queue[n], trace, first, last, next);
    assert queue[..n] + [queue[n]] == queue[..n + 1];
  }

  lemma StepsAgree(poolLen: int)
    ensures forall s, w, b, s', w' :: Agreement()(s, w) && ReleaseStep(poolLen)(s, b, s') && ReleaseStep(poolLen)(w, b, w') ==>
              Agreement()(s', w')
  {
    forall s, w, b, s', w' | Agreement()(s, w) && ReleaseStep(poolLen)(s, b, s') && ReleaseStep(poolLen)(w, b, w')
      ensures Agreement()(s', w')
    {
      ReleasesOneWay(s.m, s.order, poolLen, b, s'.m, s'.order, w.m, w'.m, w'.order);
    }
  }

  /** The heap, the order of its lists and the pool noted after the drain are
      determined by those before it and the queue. */
  lemma DrainsOneWay(m0: Mem, o0: Order, poolLen: int, queue: seq<int>,
                     m: Mem, o: Order, w: Mem, o': Order)
    requires Layout(m0)
    requires Drains(m0, o0, poolLen, queue, m, o) && Drains(m0, o0, poolLen, queue, w, o')
    ensures Same(m, w) && Free(m) == Free(w) && o == o'
  {
    var step, first, last, last' := ReleaseStep(poolLen), Shape(m0, o0), Shape(m, o), Shape(w, o');
    var t :| IsTrace(step, queue, t, first, last);
    var u :| IsTrace(step, queue, u, first, last');
    StepsAgree(poolLen);
    assert Agreement()(first, first);
    TracesAgree(step, Agreement(), queue, t, u, first, last, last', |queue|);
    assert Agreement()(last, last');
    FreeIsDetermined(m, w);
  }
}
