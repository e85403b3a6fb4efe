/** The thread-private heap: allocation, release and pool management over
    headers and links that are updated in place. Addresses stand for pointers;
    0 is the null pointer, and a buffer starts HDR bytes above its header. */
module BgetHeap {
  import opened BgetBins
  import opened BgetDrain
  import opened BgetLists
  import opened BgetLayout
  import opened Chains
  import opened Sums

  datatype Mode = Fifo | Lifo | Best

  const MAX_SIZE := 0x7FFF_FFFF_FFFF_FFF0   // MaxSize
  const DIRECT_HDR := 48                    // sizeof(bdhead_t): total size, then a block header

  // The lists hold exactly the free blocks, each in the bin chosen for its size.
  ghost predicate Binned(free: map<int, int>, lists: seq<seq<int>>)
    requires |lists| == BINS
  {
    forall i, a :: 0 <= i < BINS ==> (a in lists[i] <==> a in free && Bin(free[a]) == i)
  }

  ghost predicate Chained(live: map<int, int>, flink: map<int, int>, blink: map<int, int>, queue: seq<int>, k: int)
    requires 0 <= k < |queue|
  {
    && queue[k] in live
    && queue[k] in flink && flink[queue[k]] == Front(queue[k + 1..])
    && queue[k] in blink && blink[queue[k]] == 0
  }

  // The deferred-release queue is a chain of live blocks, linked through their buffers.
  ghost predicate Queued(live: map<int, int>, flink: map<int, int>, blink: map<int, int>, first: int, queue: seq<int>) {
    && first == Front(queue)
    && (forall k {:trigger Chained(live, flink, blink, queue, k)} :: 0 <= k < |queue| ==> Chained(live, flink, blink, queue, k))
    && (forall j, k :: 0 <= j < k < |queue| ==> queue[j] != queue[k])
  }

  function Front(queue: seq<int>): int {
    if queue == [] then 0 else queue[0] + HDR
  }

  // All pools have length poolLen if that is positive; it is zero before the first pool.
  ghost predicate Sized(pools: map<int, int>, poolLen: int) {
    && poolLen >= -1
    && (poolLen == 0 ==> pools == map[])
    && (poolLen > 0 ==> forall p :: p in pools ==> pools[p] + HDR - p == poolLen)
  }

  // Directly acquired buffers: apart from the pools and from each other, marked by a zero size.
  ghost predicate DirectAt(m: Mem, tsize: map<int, int>, direct: map<int, int>, d: int)
    requires d in direct
  {
    && d > 0 && Aligned(d) && direct[d] >= DIRECT_HDR
    && d in tsize && tsize[d] == direct[d]
    && d + QUANT in m.bsize && m.bsize[d + QUANT] == 0
    && Vacant(m, d, direct[d])
  }

  ghost predicate DirectBefore(direct: map<int, int>, d: int, e: int)
    requires d in direct
  {
    d + direct[d] <= e
  }

  ghost predicate Direct(m: Mem, tsize: map<int, int>, direct: map<int, int>) {
    && (forall d {:trigger DirectAt(m, tsize, direct, d)} :: d in direct ==> DirectAt(m, tsize, direct, d))
    && (forall d, e {:trigger DirectBefore(direct, d, e)} :: d in direct && e in direct && d < e ==> DirectBefore(direct, d, e))
  }

  ghost predicate BesideDirect(direct: map<int, int>, p: int, len: int, d: int)
    requires d in direct
  {
    p + len <= d || d + direct[d] <= p
  }

  // The bytes from p up to p + len meet no pool and no direct buffer.
  ghost predicate Unused(m: Mem, direct: map<int, int>, p: int, len: int) {
    Vacant(m, p, len) && forall d {:trigger BesideDirect(direct, p, len, d)} :: d in direct ==> BesideDirect(direct, p, len, d)
  }

  // The t-th node met when a list is followed forwards or backwards from its head.
  function Visit(bin: int, items: seq<int>, backward: bool, t: int): int {
    if backward then Node(Head(bin), items, |items| - t) else Node(Head(bin), items, t + 1)
  }

  lemma VisitNext(flink: map<int, int>, blink: map<int, int>, bin: int, items: seq<int>, backward: bool, t: int)
    requires Ring(flink, blink, Head(bin), items) && bin >= 0 && -1 <= t < |items|
    requires Head(bin) !in items
    ensures var v, w := if t == -1 then Head(bin) else Visit(bin, items, backward, t), Visit(bin, items, backward, t + 1);
            if backward then v in blink && blink[v] == w else v in flink && flink[v] == w
    ensures Visit(bin, items, backward, t + 1) == Head(bin) <==> t + 1 == |items|
    ensures t + 1 < |items| ==> Visit(bin, items, backward, t + 1) in items
  {
    var k := if backward then |items| - t - 1 else t + 1;
    assert Link(flink, blink, Head(bin), items, k);
    assert t + 1 < |items| ==> Visit(bin, items, backward, t + 1) == items[if backward then |items| - t - 2 else t + 1];
  }

  lemma AllVisited(bin: int, items: seq<int>, backward: bool)
    ensures forall a :: a in items ==> exists k :: 0 <= k < |items| && a == Visit(bin, items, backward, k)
  {
    forall a | a in items ensures exists k :: 0 <= k < |items| && a == Visit(bin, items, backward, k) {
      var j :| 0 <= j < |items| && items[j] == a;
      assert a == Visit(bin, items, backward, if backward then |items| - 1 - j else j);
    }
  }

  lemma TailNode(flink: map<int, int>, blink: map<int, int>, lists: seq<seq<int>>, bin: int)
    requires Linked(flink, blink, lists) && 0 <= bin < BINS
    ensures Head(bin) in blink && (blink[Head(bin)] == Head(bin) || blink[Head(bin)] in lists[bin])
  {
    var items := lists[bin];
    assert Ring(flink, blink, Head(bin), items);
    assert Link(flink, blink, Head(bin), items, |items|);
  }

  lemma NeighbourNodes(flink: map<int, int>, blink: map<int, int>, lists: seq<seq<int>>, i: int, k: int)
    requires Linked(flink, blink, lists) && 0 <= i < BINS && 0 <= k < |lists[i]|
    ensures var b := lists[i][k];
            && b in flink && (flink[b] == Head(i) || flink[b] in lists[i]) && flink[b] != b
            && b in blink && (blink[b] == Head(i) || blink[b] in lists[i]) && blink[b] != b
  {
    var items := lists[i];
    assert Ring(flink, blink, Head(i), items);
    DistinctItems(lists, i);
    assert Link(flink, blink, Head(i), items, k);
    assert Link(flink, blink, Head(i), items, k + 1);
  }

  lemma Rebinned(free: map<int, int>, lists: seq<seq<int>>, free': map<int, int>, lists': seq<seq<int>>, b: int)
    requires |lists| == |lists'| == BINS && Binned(free, lists)
    requires b in free' && free' - {b} == free - {b}
    requires forall i, a :: 0 <= i < BINS ==>
               (a in lists'[i] <==> (a in lists[i] && a != b) || (a == b && i == Bin(free'[b])))
    ensures Binned(free', lists')
  {
    forall i, a | 0 <= i < BINS ensures a in lists'[i] <==> a in free' && Bin(free'[a]) == i {
      if a != b {
        assert a in free' - {b} <==> a in free - {b};
        assert a in free ==> (free' - {b})[a] == free'[a] && (free - {b})[a] == free[a];
      }
    }
  }

  lemma QueueKept(live: map<int, int>, flink: map<int, int>, blink: map<int, int>,
                  live': map<int, int>, flink': map<int, int>, blink': map<int, int>, first: int, queue: seq<int>)
    requires Queued(live, flink, blink, first, queue)
    requires forall a :: a in queue && a in live ==>
               && a in live'
               && (a in flink ==> a in flink' && flink'[a] == flink[a])
               && (a in blink ==> a in blink' && blink'[a] == blink[a])
    ensures Queued(live', flink', blink', first, queue)
  {
    forall k | 0 <= k < |queue| ensures Chained(live', flink', blink', queue, k) {
      assert queue[k] in queue && Chained(live, flink, blink, queue, k);
    }
  }

  lemma LiveApart(m: Mem)
    requires Layout(m)
    ensures forall a :: a in Live(m) ==> a > 0 && a !in Free(m)
    ensures forall a :: a in Free(m) ==> a > 0
  {
    forall a | a in m.home ensures a > 0 { assert PoolAt(m, m.home[a]); }
  }

  lemma UnlistedAll(free: map<int, int>, live: map<int, int>, lists: seq<seq<int>>)
    requires |lists| == BINS && Binned(free, lists)
    requires forall a :: a in live ==> a !in free
    ensures forall a :: a in live ==> !Listed(lists, a)
  {
  }

  lemma CarvedReady(m: Mem, b: int, size: int)
    requires Layout(m) && Carvable(m, b, size)
    ensures var m' := Carved(m, b, size);
            && Layout(m') && b > 0
            && b in Free(m) && b in Free(m') && Free(m') - {b} == Free(m) - {b} && Free(m')[b] > 0
            && b in m'.bsize && m'.bsize[b] == Free(m')[b]
            && forall a :: a in Live(m) ==> a > 0 && a !in Free(m) && a in Live(m')
  {
    CarvedKeepsLayout(m, b, size);
    CarvedContents(m, b, size);
    LiveApart(m);
    assert b in Free(m);
  }

  lemma VacantSame(m: Mem, m': Mem, p: int, len: int)
    requires Vacant(m, p, len)
    requires forall q :: q in m'.pools ==> q in m.pools && m'.pools[q] == m.pools[q]
    ensures Vacant(m', p, len)
  {
    forall q | q in m'.pools ensures Beside(m', p, len, q) { assert Beside(m, p, len, q); }
  }

  // Header writes within a block do not reach the direct buffers.
  lemma DirectKept(m: Mem, m': Mem, tsize: map<int, int>, direct: map<int, int>, b: int)
    requires Layout(m) && Direct(m, tsize, direct) && Block(m, b) && m'.pools == m.pools
    requires forall a :: a in m.bsize && (a < b || Next(m, b) <= a) ==> a in m'.bsize && m'.bsize[a] == m.bsize[a]
    ensures Direct(m', tsize, direct)
  {
    assert PoolAt(m, m.home[b]) && StepAt(m, b);
    assert Before(m, b, m.pools[m.home[b]]);
    forall d | d in direct ensures DirectAt(m', tsize, direct, d) {
      assert DirectAt(m, tsize, direct, d) && Beside(m, d, direct[d], m.home[b]);
      VacantSame(m, m', d, direct[d]);
    }
  }

  // Block a, the high end of free block b, became live with `given` bytes; nothing else did.
  ghost predicate Handed(m: Mem, m': Mem, b: int, a: int, given: int)
    requires Homed(m) && Homed(m')
  {
    && a !in Live(m) && Live(m') == Live(m)[a := given]
    && b in Free(m) && b <= a && a + given == b + Free(m)[b]
    && m'.pools == m.pools
  }

  lemma CarvedHanded(m: Mem, b: int, size: int, tsize: map<int, int>, direct: map<int, int>)
    requires Layout(m) && Carvable(m, b, size) && Direct(m, tsize, direct)
    ensures var m' := Carved(m, b, size);
            Homed(m') && Handed(m, m', b, b + m.bsize[b] - size, size) && Direct(m', tsize, direct)
  {
    CarvedContents(m, b, size);
    DirectKept(m, Carved(m, b, size), tsize, direct, b);
  }

  lemma TakenHanded(m: Mem, b: int, tsize: map<int, int>, direct: map<int, int>)
    requires Layout(m) && FreeBlock(m, b) && Direct(m, tsize, direct)
    ensures var m' := Taken(m, b);
            Homed(m') && Handed(m, m', b, b, m.bsize[b]) && Direct(m', tsize, direct)
  {
    TakenContents(m, b);
    DirectKept(m, Taken(m, b), tsize, direct, b);
    assert b in Free(m) && b !in Live(m);
  }

  lemma SameMap(free: map<int, int>, free': map<int, int>, b: int, n: int)
    requires n !in free && b in free && b in free' && free'[b] == free[b]
    requires free' - {b} == free - {n} - {b}
    ensures free' == free
  {
    forall a ensures a in free' <==> a in free {
      assert a != b ==> (a in free' <==> a in free' - {b}) && (a in free <==> a in free - {n} - {b});
    }
    forall a | a in free && a != b ensures free'[a] == free[a] {
      assert (free' - {b})[a] == free'[a] && (free - {n} - {b})[a] == free[a];
    }
  }

  // The links of address a are unchanged.
  ghost predicate LinksKept(flink: map<int, int>, blink: map<int, int>, flink': map<int, int>, blink': map<int, int>, a: int) {
    && (a in flink ==> a in flink' && flink'[a] == flink[a])
    && (a in blink ==> a in blink' && blink'[a] == blink[a])
  }

  // What the second half of a release relies on: free blocks as after the first half, and
  // as they are to become; the size fields as they are after the first half.
  ghost predicate HighReady(b: int, bsize: map<int, int>, freeG: map<int, int>, freeH: map<int, int>) {
    && b > 0 && b in bsize && b in freeG && freeG[b] == bsize[b]
    && var n := b + bsize[b];
       && n != b && n in bsize && (bsize[n] > 0 <==> n in freeG)
       && freeH - {b} == freeG - {n} - {b}
       && b in freeH && freeH[b] == bsize[b] + (if bsize[n] > 0 then bsize[n] else 0)
       && freeH[b] > 0
  }

  // The two halves' changes of the lists, as one.
  lemma BothHalves(l0: seq<seq<int>>, l1: seq<seq<int>>, l2: seq<seq<int>>,
                   free: map<int, int>, freeG: map<int, int>, freeR: map<int, int>, b: int, n: int)
    requires |l0| == BINS && Binned(free, l0) && n != b && b in freeG && b in freeR && freeG - {b} == free - {b}
    requires l1 == On(Off(l0, b), b, freeG[b])
    requires l2 == if n in freeG then On(Off(Off(l1, n), b), b, freeR[b]) else l1
    requires n !in freeG ==> freeR[b] == freeG[b]
    ensures l2 == On(Off(Off(l0, b), n), b, freeR[b])
  {
    assert n !in freeG ==> n !in freeG - {b} && n !in free;
    TwoMoves(l0, l1, l2, n in freeG, b, n, freeG[b], freeR[b]);
  }

  lemma LinksStillKept(live: map<int, int>, f: map<int, int>, b: map<int, int>, f': map<int, int>, b': map<int, int>,
                       f'': map<int, int>, b'': map<int, int>)
    requires forall a :: a in live ==> LinksKept(f, b, f', b', a)
    requires forall a :: a in live ==> LinksKept(f', b', f'', b'', a)
    ensures forall a :: a in live ==> LinksKept(f, b, f'', b'', a)
  {
    forall a | a in live ensures LinksKept(f, b, f'', b'', a) { assert LinksKept(f, b, f', b', a); }
  }

  // The first half: what it finds at the block and before it.
  ghost predicate LowReady(b0: int, m: Mem, freeG: map<int, int>)
    requires Homed(m)
  {
    && b0 > 0 && LiveBlock(m, b0)
    && var b := b0 - m.prevfree[b0];
       && 0 < b <= b0 && b in m.bsize && b in freeG && freeG[b] == m.prevfree[b0] - m.bsize[b0] > 0
       && freeG - {b} == Free(m) - {b}
       && (m.prevfree[b0] != 0 ==> b in Free(m) && m.bsize[b] == m.prevfree[b0] && b != b0)
  }

  // What a release of b0 relies on, in both halves.
  ghost predicate Planned(b0: int, m: Mem, freeG: map<int, int>, freeR: map<int, int>) {
    && Homed(m) && LowReady(b0, m, freeG)
    && (var b := b0 - m.prevfree[b0]; HighReady(b, m.bsize[b := freeG[b]], freeG, freeR))
    && (forall a :: a in Live(m) && a != b0 ==> a > 0 && a !in freeG)
    && (forall a :: a in Live(m) ==> a > 0 && a !in Free(m))
  }

  /** The whole course of a release, worked out on values: freeG are the free
      blocks between its two halves, r are the headers at its end. */
  lemma ReleasePlan(m: Mem, b0: int) returns (freeG: map<int, int>, r: Mem)
    requires Layout(m) && LiveBlock(m, b0)
    ensures r == Released(m, b0) && Homed(r) && Planned(b0, m, freeG, Free(r))
    ensures var b := Low(m, b0);
            b in Free(r) && b in freeG && b in AfterPrevious(m, b0).bsize && freeG[b] == AfterPrevious(m, b0).bsize[b]
  {
    freeG, r := Free(AfterPrevious(m, b0)), Released(m, b0);
    PlanLow(m, b0);
    PlanHigh(m, b0);
  }

  lemma PlanSizes(m: Mem, b0: int, freeG: map<int, int>, freeH: map<int, int>)
    requires Homed(m) && LowReady(b0, m, freeG)
    requires var b := b0 - m.prevfree[b0]; HighReady(b, m.bsize[b := freeG[b]], freeG, freeH)
    ensures Low(m, b0) in freeG && Low(m, b0) + freeG[Low(m, b0)] == Next(m, b0) && freeH[Low(m, b0)] == Grown(m, b0)
  {
  }

  lemma PlanLow(m: Mem, b0: int)
    requires Layout(m) && LiveBlock(m, b0)
    ensures Homed(AfterPrevious(m, b0)) && LowReady(b0, m, Free(AfterPrevious(m, b0)))
    ensures forall a :: a in Live(m) && a != b0 ==> a > 0 && a !in Free(AfterPrevious(m, b0))
    ensures forall a :: a in Live(m) ==> a > 0 && a !in Free(m)
  {
    AfterPreviousFacts(m, b0);
    AfterPreviousContents(m, b0);
    LiveApart(m);
    assert StepAt(m, b0) && TagAt(m, b0);
    var b := Low(m, b0);
    assert m.prevfree[b0] != 0 ==> b in Free(m);
  }

  lemma PlanHigh(m: Mem, b0: int)
    requires Layout(m) && LiveBlock(m, b0)
    ensures var g, b, r := AfterPrevious(m, b0), Low(m, b0), Released(m, b0);
            && Homed(g) && Homed(r) && b in g.bsize && b in Free(g) && Free(g)[b] == g.bsize[b]
            && HighReady(b, m.bsize[b := g.bsize[b]], Free(g), Free(r))
  {
    var g, b := AfterPrevious(m, b0), Low(m, b0);
    AfterPreviousFacts(m, b0);
    PlanLow(m, b0);
    PlanHighFree(m, b0);
    NextUntouched(m, b0);
  }

  lemma PlanHighFree(m: Mem, b0: int)
    requires Layout(m) && LiveBlock(m, b0)
    ensures var g, b, r := AfterPrevious(m, b0), Low(m, b0), Released(m, b0);
            && Tiled(g) && FreeBlock(g, b) && Next(g, b) in g.bsize && Homed(r)
            && var n := Next(g, b);
               && n != b && (g.bsize[n] > 0 <==> n in Free(g))
               && Free(r) - {b} == Free(g) - {n} - {b}
               && b in Free(r) && Free(r)[b] == g.bsize[b] + (if g.bsize[n] > 0 then g.bsize[n] else 0) > 0
  {
    var g, b, r := AfterPrevious(m, b0), Low(m, b0), Released(m, b0);
    AfterPreviousFacts(m, b0);
    AfterNextFacts(g, b);
    ReleasedTags(m, b0);
    SameTagsSameLayout(AfterNext(g, b), r);
  }

  lemma NextUntouched(m: Mem, b0: int)
    requires Layout(m) && LiveBlock(m, b0)
    ensures var g, n := AfterPrevious(m, b0), Next(m, b0); n in m.bsize && n in g.bsize && g.bsize[n] == m.bsize[n]
  {
    assert StepAt(m, b0) && TagAt(m, b0);
  }

  // The header words after a release, as two writes to the size field and one tag.
  lemma ReleasedWords(m: Mem, b0: int)
    requires Layout(m) && LiveBlock(m, b0)
    ensures var g, b, r := AfterPrevious(m, b0), Low(m, b0), Released(m, b0);
            && Homed(r) && b in Free(r) && b in g.bsize
            && r.pools == m.pools
            && r.bsize == m.bsize[b := g.bsize[b]][b := Free(r)[b]]
            && r.prevfree == m.prevfree[b + Free(r)[b] := Free(r)[b]]
  {
    AfterPreviousFacts(m, b0);
    ReleasedKeepsLayout(m, b0);
  }

  lemma ReleasedBlocks(m: Mem, b0: int)
    requires Layout(m) && LiveBlock(m, b0)
    ensures var b, r := Low(m, b0), Released(m, b0);
            && Layout(r) && Live(r) == Live(m) - {b0} && FreeBlock(r, b) && 0 < b <= b0 < b + r.bsize[b]
  {
    ReleasedKeepsLayout(m, b0);
    PlanLow(m, b0);
  }

  // These words are those of the released heap.
  lemma WordsReached(m: Mem, b0: int, b: int, low: int, all: int, bsize: map<int, int>, prevfree: map<int, int>, r: Mem)
    requires Layout(m) && LiveBlock(m, b0) && b == Low(m, b0) && r == Released(m, b0)
    requires b in AfterPrevious(m, b0).bsize && low == AfterPrevious(m, b0).bsize[b]
    requires Homed(r) && b in Free(r) && all == Free(r)[b]
    requires bsize == m.bsize[b := low][b := all] && prevfree == m.prevfree[b + all := all]
    ensures r.bsize == bsize && r.prevfree == prevfree && r.pools == m.pools
    ensures Layout(r) && Live(r) == Live(m) - {b0} && FreeBlock(r, b) && 0 < b <= b0 < b + r.bsize[b]
  {
    ReleasedWords(m, b0);
    ReleasedBlocks(m, b0);
  }

  // The lists have moved as the release says.
  lemma ListsReached(m: Mem, b0: int, b: int, freeG: map<int, int>, freeR: map<int, int>,
                     l0: seq<seq<int>>, l1: seq<seq<int>>, l2: seq<seq<int>>)
    requires Planned(b0, m, freeG, freeR) && b == b0 - m.prevfree[b0]
    requires |l0| == BINS && Binned(Free(m), l0)
    requires l1 == On(Off(l0, b), b, freeG[b])
    requires l2 == if b + freeG[b] in freeG then On(Off(Off(l1, b + freeG[b]), b), b, freeR[b]) else l1
    ensures b == Low(m, b0) && freeR[b] == Grown(m, b0) && l2 == On(Off(Off(l0, b), Next(m, b0)), b, freeR[b])
  {
    PlanSizes(m, b0, freeG, freeR);
    BothHalves(l0, l1, l2, Free(m), freeG, freeR, b, b + freeG[b]);
  }

  // Pool p may go back to the system with the release of block b0: it is not the
  // only pool, b0 was in it, and no other live block was.
  ghost predicate Returned(m: Mem, b0: int, p: int)
    requires Homed(m)
  {
    && p in m.pools && |m.pools| > 1 && b0 in Live(m) && p <= b0 < m.pools[p]
    && forall a :: a in Live(m) && a != b0 ==> a + Live(m)[a] <= p || m.pools[p] + HDR <= a
  }

  /** A free block as long as the common pool length, less the header of the end
      marker, is a whole pool. */
  lemma WholePool(m: Mem, b: int, poolLen: int)
    requires Layout(m) && Sized(m.pools, poolLen) && FreeBlock(m, b) && m.bsize[b] == poolLen - HDR
    ensures WhollyFree(m, b)
  {
    var p := m.home[b];
    assert PoolAt(m, p) && StepAt(m, b);
  }

  lemma WholeIsReturned(m: Mem, r: Mem, b0: int, p: int)
    requires Layout(m) && Layout(r) && b0 in Live(m) && Live(r) == Live(m) - {b0}
    requires r.pools == m.pools && |m.pools| > 1 && WhollyFree(r, p) && p <= b0 < Next(r, p)
    ensures Returned(m, b0, p)
  {
    DroppedAlone(r, p);
    forall a | a in Live(m) && a != b0 ensures a + Live(m)[a] <= p || m.pools[p] + HDR <= a {
      assert a in Live(r) && Live(r)[a] == Live(m)[a];
      var q := r.home[a];
      assert PoolAt(r, q) && StepAt(r, a);
      assert q < p ==> PoolBefore(r, q, p);
      assert p < q ==> PoolBefore(r, p, q);
    }
  }

  // A header write inside a pool does not reach the direct buffers.
  lemma DirectKeptInside(m: Mem, m': Mem, tsize: map<int, int>, direct: map<int, int>, b: int)
    requires Direct(m, tsize, direct) && Layout(m') && FreeBlock(m', b) && m'.pools == m.pools
    requires forall a :: a in m.bsize && a != b ==> a in m'.bsize && m'.bsize[a] == m.bsize[a]
    ensures Direct(m', tsize, direct)
  {
    assert PoolAt(m', m'.home[b]);
    forall d | d in direct ensures DirectAt(m', tsize, direct, d) {
      assert DirectAt(m, tsize, direct, d) && Beside(m, d, direct[d], m'.home[b]);
      VacantSame(m, m', d, direct[d]);
    }
  }

  lemma DirectFewerPools(m: Mem, m': Mem, tsize: map<int, int>, direct: map<int, int>)
    requires Direct(m, tsize, direct) && m'.bsize == m.bsize
    requires forall p :: p in m'.pools ==> p in m.pools && m'.pools[p] == m.pools[p]
    ensures Direct(m', tsize, direct)
  {
    forall d | d in direct ensures DirectAt(m', tsize, direct, d) {
      assert DirectAt(m, tsize, direct, d);
      VacantSame(m, m', d, direct[d]);
    }
  }

  // The memory that callers hold: where each piece starts and how long it is.
  ghost function Held(m: Mem, direct: map<int, int>): map<int, int>
    requires Homed(m)
  {
    Live(m) + direct
  }

  /** No two buffers handed out share a byte, whether they lie in pools or were
      obtained from the system on their own. */
  lemma HeldDisjoint(m: Mem, tsize: map<int, int>, direct: map<int, int>, a: int, b: int)
    requires Layout(m) && Direct(m, tsize, direct)
    requires a in Held(m, direct) && b in Held(m, direct) && a < b
    ensures a + Held(m, direct)[a] <= b
  {
    if a in direct {
      assert DirectAt(m, tsize, direct, a);
      if b in direct {
        assert DirectBefore(direct, a, b);
      } else {
        LiveBesideDirect(m, tsize, direct, b, a);
      }
    } else if b in direct {
      assert DirectAt(m, tsize, direct, b);
      LiveBesideDirect(m, tsize, direct, a, b);
    } else {
      LiveDisjoint(m, a, b);
    }
  }

  lemma LiveBesideDirect(m: Mem, tsize: map<int, int>, direct: map<int, int>, a: int, d: int)
    requires Layout(m) && Direct(m, tsize, direct) && a in Live(m) && d in direct
    ensures a + Live(m)[a] <= d || d + direct[d] <= a
  {
    var p := m.home[a];
    assert DirectAt(m, tsize, direct, d) && Beside(m, d, direct[d], p);
    assert PoolAt(m, p) && Before(m, a, m.pools[p]);
  }

  lemma EmptyRing(flink: map<int, int>, blink: map<int, int>, bin: int)
    requires Head(bin) in flink && flink[Head(bin)] == Head(bin) && Head(bin) in blink && blink[Head(bin)] == Head(bin)
    ensures Ring(flink, blink, Head(bin), [])
  {
    assert Link(flink, blink, Head(bin), [], 0);
  }

  function NoItems(): (lists: seq<seq<int>>)
    ensures |lists| == BINS && forall i :: 0 <= i < BINS ==> lists[i] == []
  {
    seq(BINS, i => [])
  }

  method EmptyLists() returns (flink: map<int, int>, blink: map<int, int>)
    ensures Linked(flink, blink, NoItems())
  {
    flink, blink := map[], map[];
    for i := 0 to BINS
      invariant forall j :: 0 <= j < i ==>
        Head(j) in flink && flink[Head(j)] == Head(j) && Head(j) in blink && blink[Head(j)] == Head(j)
    {
      flink := flink[Head(i) := Head(i)];
      blink := blink[Head(i) := Head(i)];
    }
    forall i | 0 <= i < BINS ensures Ring(flink, blink, Head(i), NoItems()[i]) {
      EmptyRing(flink, blink, i);
    }
  }

  lemma ElemsNext(s: seq<int>, n: int)
    requires 0 <= n < |s|
    ensures Elems(s[..n + 1]) == Elems(s[..n]) + {s[n]}
  {
    assert s[..n + 1] == s[..n] + [s[n]];
  }

  // Pool p holds no live block.
  ghost predicate Empty(m: Mem, p: int)
    requires Homed(m)
  {
    p in m.pools && forall a :: a in Live(m) ==> a < p || m.pools[p] <= a
  }

  lemma EmptyIsWhollyFree(m: Mem, p: int)
    requires Layout(m) && Empty(m, p)
    ensures WhollyFree(m, p)
  {
    assert PoolAt(m, p);
    assert StepAt(m, p);
    assert p in Live(m) <==> LiveBlock(m, p);
    assert FreeBlock(m, p) ==> MergedAt(m, p);
    var n := Next(m, p);
    assert n in Live(m) <==> LiveBlock(m, n);
    assert Block(m, n) ==> StepAt(m, n);
  }

  lemma WholeIsEmpty(m: Mem, p: int)
    requires Layout(m) && WhollyFree(m, p)
    ensures Empty(m, p)
  {
    DroppedAlone(m, p);
    forall a | a in Live(m) ensures a < p || m.pools[p] <= a {
      var q := m.home[a];
      assert PoolAt(m, q) && StepAt(m, a);
      assert q < p ==> PoolBefore(m, q, p);
      assert p < q ==> PoolBefore(m, p, q);
    }
  }

  // Pools are only lost, and only ones that held live blocks; no live block appears.
  ghost predicate FewerPools(m: Mem, m': Mem)
    requires Homed(m) && Homed(m')
  {
    && (forall p :: p in m'.pools ==> p in m.pools && m'.pools[p] == m.pools[p])
    && (forall p :: Empty(m, p) ==> Empty(m', p))
  }

  lemma FewerAfterBrel(m: Mem, m': Mem, b0: int, released: int)
    requires Layout(m) && Layout(m') && b0 in Live(m) && Live(m') == Live(m) - {b0}
    requires released == 0 ==> m'.pools == m.pools
    requires released != 0 ==> Returned(m, b0, released) && m'.pools == m.pools - {released}
    ensures FewerPools(m, m')
  {
    forall p | Empty(m, p) ensures Empty(m', p) {
      assert released != 0 ==> released in m.pools && released <= b0 < m.pools[released];
    }
  }

  lemma QueueTail(live: map<int, int>, flink: map<int, int>, blink: map<int, int>, chain: seq<int>)
    requires chain != [] && Queued(live, flink, blink, Front(chain), chain)
    ensures chain[0] in live && chain[0] in flink && chain[0] !in chain[1..]
    ensures Queued(live, flink, blink, flink[chain[0]], chain[1..])
  {
    var rest := chain[1..];
    assert Chained(live, flink, blink, chain, 0);
    forall k | 0 <= k < |rest| ensures Chained(live, flink, blink, rest, k) {
      assert Chained(live, flink, blink, chain, k + 1);
      assert rest[k] == chain[k + 1] && rest[k + 1..] == chain[k + 2..];
    }
  }

  lemma QueueEnd(m: Mem, flink: map<int, int>, blink: map<int, int>, first: int, queue: seq<int>)
    requires Layout(m) && Queued(Live(m), flink, blink, first, queue)
    ensures first == 0 <==> queue == []
  {
    LiveApart(m);
    assert queue != [] ==> Chained(Live(m), flink, blink, queue, 0);
  }

  lemma EnqueueKeepsQueue(live: map<int, int>, flink: map<int, int>, blink: map<int, int>, first: int, queue: seq<int>, b: int)
    requires Queued(live, flink, blink, first, queue) && b in live && b !in queue
    ensures Queued(live, flink[b := first], blink[b := 0], b + HDR, [b] + queue)
  {
    var q := [b] + queue;
    var flink', blink' := flink[b := first], blink[b := 0];
    forall k | 0 <= k < |q| ensures Chained(live, flink', blink', q, k) {
      if k == 0 {
        assert q[1..] == queue;
      } else {
        assert Chained(live, flink, blink, queue, k - 1);
        assert q[k] == queue[k - 1] && q[k + 1..] == queue[k..] && q[k] in queue;
      }
    }
  }

  lemma EnqueueKeepsLinks(flink: map<int, int>, blink: map<int, int>, lists: seq<seq<int>>, free: map<int, int>, b: int, v: int)
    requires Linked(flink, blink, lists) && Binned(free, lists) && b !in free && b > 0
    ensures Linked(flink[b := v], blink[b := 0], lists)
  {
    forall i | 0 <= i < BINS ensures Ring(flink[b := v], blink[b := 0], Head(i), lists[i]) {
      RingFrame(flink, blink, flink[b := v], blink[b := 0], Head(i), lists[i]);
    }
  }

  lemma DirectKeptOutside(m: Mem, p: int, len: int, tsize: map<int, int>, direct: map<int, int>)
    requires Direct(m, tsize, direct) && Unused(m, direct, p, len) && len >= HDR + MIN_BLOCK
    ensures Direct(Added(m, p, len), tsize, direct)
  {
    var m' := Added(m, p, len);
    forall d | d in direct ensures DirectAt(m', tsize, direct, d) {
      assert DirectAt(m, tsize, direct, d) && BesideDirect(direct, p, len, d);
      forall q | q in m'.pools ensures Beside(m', d, direct[d], q) {
        assert q != p ==> Beside(m, d, direct[d], q);
      }
    }
  }

  lemma AddedReady(m: Mem, p: int, len: int)
    requires Addable(m, p, len)
    ensures var m' := Added(m, p, len);
            && Layout(m') && Live(m') == Live(m)
            && p in Free(m') && Free(m') - {p} == Free(m) - {p} && Free(m')[p] > 0
            && p in m'.bsize && m'.bsize[p] == Free(m')[p]
    ensures p !in Free(m) && p !in Live(m)
    ensures forall a :: a in Live(m) ==> a > 0 && a !in Free(m)
  {
    AddedKeepsLayout(m, p, len);
    LiveApart(m);
  }

  type Length = x: int | x > 0 witness 1

  // The length that all pools added so far have in common, or -1; 0 before the first.
  ghost function Common(lengths: seq<Length>): int {
    if lengths == [] then 0
    else if forall i :: 0 <= i < |lengths| ==> lengths[i] == lengths[0] then lengths[0]
    else -1
  }

  lemma CommonNext(lengths: seq<Length>, len: Length)
    ensures Common(lengths + [len]) == if Common(lengths) == 0 then len else if len != Common(lengths) then -1 else Common(lengths)
  {
    var more := lengths + [len];
    assert more[|lengths|] == len;
    assert forall i :: 0 <= i < |lengths| ==> more[i] == lengths[i];
  }

  /** The common length is -1 exactly if two of the pools added had different lengths. */
  lemma CommonIs(lengths: seq<Length>)
    ensures Common(lengths) == -1 <==> exists i, j :: 0 <= i < j < |lengths| && lengths[i] != lengths[j]
    ensures Common(lengths) == 0 <==> lengths == []
  {
    if Common(lengths) == -1 {
      var i :| 0 <= i < |lengths| && lengths[i] != lengths[0];
      assert 0 < i && lengths[0] != lengths[i];
    }
  }

  // poolLen after a pool of length len joins the others.
  ghost predicate CommonLength(pools: map<int, int>, len: int, poolLen: int) {
    && (poolLen == -1 || poolLen == len)
    && (poolLen > 0 ==> forall p :: p in pools ==> pools[p] + HDR - p == len)
  }

  lemma CountedAfter(pools: map<int, int>, p: int, len: int, poolLen: int)
    requires p !in pools && len > 0 && CommonLength(pools, len, poolLen)
    ensures var pools' := pools[p := p + len - HDR]; Sized(pools', poolLen) && |pools'| == |pools| + 1
  {
  }

  // A start and a length that a pool can have.
  ghost predicate Acceptable(p: int, len: int) {
    p > 0 && Aligned(p) && Aligned(len) && len >= HDR + MIN_BLOCK
  }

  // What was unused before blocks were released is unused afterwards.
  lemma StillAddable(m: Mem, n: Mem, direct: map<int, int>, p: int, length: int)
    requires Layout(m) && Layout(n) && FewerPools(m, n) && Unused(m, direct, p, length)
    requires p > 0 && Aligned(p) && RoundDown(length) >= HDR + MIN_BLOCK
    ensures Addable(n, p, RoundDown(length)) && Unused(n, direct, p, RoundDown(length))
    ensures p !in n.pools
  {
    var len := RoundDown(length);
    forall q | q in n.pools ensures Beside(n, p, len, q) { assert Beside(m, p, length, q); }
    forall d | d in direct ensures BesideDirect(direct, p, len, d) { assert BesideDirect(direct, p, length, d); }
    AddedFresh(n, p, len);
  }

  lemma AddedEmpty(m: Mem, p: int, len: int)
    requires Addable(m, p, len)
    ensures var m' := Added(m, p, len); Homed(m') && Empty(m', p) && Live(m') == Live(m)
  {
    AddedKeepsLayout(m, p, len);
    forall a | a in Live(m) ensures a < p || p + len - HDR <= a {
      assert Beside(m, p, len, m.home[a]);
    }
  }

  // buf is the one new live buffer; its block has at least `size` bytes.
  ghost predicate Given(live: map<int, int>, live': map<int, int>, buf: int, size: int) {
    var a := buf - HDR;
    a !in live && a in live' && live' == live[a := live'[a]] && live'[a] >= size
  }

  // bget refuses negative sizes and sizes that do not fit the header field.
  predicate Rejected(requested: int) {
    requested < 0 || requested + HDR > MAX_SIZE
  }

  // The size of the block that serves a request: room for the list links, whole quanta, a header.
  function Padded(requested: int): (size: int)
    ensures Aligned(size) && MIN_BLOCK <= size
    ensures requested + HDR <= size && (size > MIN_BLOCK ==> size < requested + HDR + QUANT)
    ensures !Rejected(requested) ==> size <= MAX_SIZE
  {
    RoundDown((if requested < QUANT then QUANT else requested) + (QUANT - 1)) + HDR
  }

  // A block of this size does not fit into an expansion pool.
  predicate Large(size: int, expIncr: int) {
    size > expIncr - HDR
  }

  // What is asked of the system when no free block can hold `size` bytes.
  function Request(size: int, expIncr: int): int {
    if Large(size, expIncr) then size + DIRECT_HDR - HDR else expIncr
  }

  ghost predicate ReadyIn(m: Mem, size: int)
    requires Homed(m)
  {
    exists p :: Empty(m, p) && m.pools[p] - p >= size
  }

  // The header of a direct buffer at d.
  ghost function Marked(m: Mem, d: int): Mem {
    m.(bsize := m.bsize[d + QUANT := 0], prevfree := m.prevfree[d + QUANT := 0])
  }

  lemma DirectAdded(m: Mem, tsize: map<int, int>, direct: map<int, int>, d: int, size: int)
    requires Layout(m) && Direct(m, tsize, direct)
    requires d > 0 && Aligned(d) && size >= DIRECT_HDR && Unused(m, direct, d, size)
    ensures d !in direct
    ensures var m' := Marked(m, d);
            && SameTags(m, m') && Layout(m') && Live(m') == Live(m) && Free(m') == Free(m)
            && Direct(m', tsize[d := size], direct[d := size])
  {
    var m' := Marked(m, d);
    forall a | a in m.home ensures a != d + QUANT { assert Beside(m, d, size, m.home[a]); }
    SameTagsSameLayout(m, m');
    DirectMarked(m, tsize, direct, d, size);
  }

  lemma DirectMarked(m: Mem, tsize: map<int, int>, direct: map<int, int>, d: int, size: int)
    requires Direct(m, tsize, direct)
    requires d > 0 && Aligned(d) && size >= DIRECT_HDR && Unused(m, direct, d, size)
    ensures d !in direct
    ensures Direct(Marked(m, d), tsize[d := size], direct[d := size])
  {
    var m', tsize', direct' := Marked(m, d), tsize[d := size], direct[d := size];
    forall e | e in direct ensures direct[e] >= DIRECT_HDR && e != d {
      assert DirectAt(m, tsize, direct, e) && BesideDirect(direct, d, size, e);
    }
    VacantSame(m, m', d, size);
    forall e | e in direct' ensures DirectAt(m', tsize', direct', e) {
      if e != d {
        assert DirectAt(m, tsize, direct, e) && BesideDirect(direct, d, size, e);
        VacantSame(m, m', e, direct[e]);
      }
    }
    forall e, f | e in direct' && f in direct' && e < f ensures DirectBefore(direct', e, f) {
      assert e != d && f != d ==> DirectBefore(direct, e, f);
      assert e != d ==> BesideDirect(direct, d, size, e);
      assert f != d ==> BesideDirect(direct, d, size, f);
    }
  }

  lemma DirectRemoved(m: Mem, tsize: map<int, int>, direct: map<int, int>, d: int)
    requires Direct(m, tsize, direct)
    ensures Direct(m, tsize, direct - {d})
  {
    var direct' := direct - {d};
    forall e | e in direct' ensures DirectAt(m, tsize, direct', e) { assert DirectAt(m, tsize, direct, e); }
    forall e, f | e in direct' && f in direct' && e < f ensures DirectBefore(direct', e, f) {
      assert DirectBefore(direct, e, f);
    }
  }

  // The size field at an address, 0 where no header was ever written.
  function SizeIn(bsize: map<int, int>, a: int): int {
    if a in bsize then bsize[a] else 0
  }

  // Nothing in the lists below `bin` fits.
  ghost predicate TooSmall(lists: seq<seq<int>>, bsize: map<int, int>, bin: int, size: int) {
    forall j, a :: 0 <= j < bin && j < |lists| && a in lists[j] ==> SizeIn(bsize, a) < size
  }

  // b is met as the t-th node of list i, and nothing met before it fits: no
  // earlier node of the list, and no block in a lower bin.
  ghost predicate FirstAt(lists: seq<seq<int>>, bsize: map<int, int>, b: int, size: int, backward: bool, i: int, t: int) {
    && 0 <= i < |lists| && 0 <= t < |lists[i]| && b == Visit(i, lists[i], backward, t)
    && (forall k :: 0 <= k < t ==> SizeIn(bsize, Visit(i, lists[i], backward, k)) < size)
    && TooSmall(lists, bsize, i, size)
  }

  ghost predicate FirstIn(lists: seq<seq<int>>, bsize: map<int, int>, b: int, size: int, backward: bool) {
    exists i, t :: FirstAt(lists, bsize, b, size, backward, i, t)
  }

  // b is the t-th block of list i, and no block before it that fits is as small.
  ghost predicate LeastAt(lists: seq<seq<int>>, bsize: map<int, int>, b: int, size: int, i: int, t: int) {
    && 0 <= i < |lists| && 0 <= t < |lists[i]| && b == lists[i][t]
    && forall k :: 0 <= k < t ==> SizeIn(bsize, lists[i][k]) < size || SizeIn(bsize, b) < SizeIn(bsize, lists[i][k])
  }

  // Block b is the one to take from these lists of free blocks: the first one of the smallest
  // that fit, or the first that fits.
  ghost predicate Choice(free: map<int, int>, lists: seq<seq<int>>, mode: Mode, b: int, size: int) {
    && b in free && free[b] >= size
    && if mode == Best
       then (forall a :: a in free && free[a] >= size ==> free[b] <= free[a]) && exists i, t :: LeastAt(lists, free, b, size, i, t)
       else FirstIn(lists, free, b, size, mode == Lifo)
  }

  lemma VisitIn(bin: int, items: seq<int>, backward: bool, t: int)
    requires 0 <= t < |items|
    ensures Visit(bin, items, backward, t) in items
  {
    assert Visit(bin, items, backward, t) == items[if backward then |items| - 1 - t else t];
  }

  lemma FirstIsOne(free: map<int, int>, lists: seq<seq<int>>, backward: bool, size: int, b: int, i: int, t: int, b': int, i': int, t': int)
    requires b in free && free[b] >= size && FirstAt(lists, free, b, size, backward, i, t)
    requires b' in free && free[b'] >= size && FirstAt(lists, free, b', size, backward, i', t')
    ensures b == b'
  {
    VisitIn(i, lists[i], backward, t);
    VisitIn(i', lists[i'], backward, t');
    assert SizeIn(free, b) >= size && SizeIn(free, b') >= size;
  }

  lemma LeastIsOne(free: map<int, int>, lists: seq<seq<int>>, size: int, b: int, i: int, t: int, b': int, i': int, t': int)
    requires |lists| == BINS && Binned(free, lists) && b in free && b' in free && free[b] == free[b'] >= size
    requires LeastAt(lists, free, b, size, i, t) && LeastAt(lists, free, b', size, i', t')
    ensures b == b'
  {
    assert b in lists[i] && b' in lists[i'];
    assert i == i';
  }

  /** What bget takes is determined by the free blocks and the order of their lists. */
  lemma ChoiceIsOne(free: map<int, int>, lists: seq<seq<int>>, mode: Mode, size: int, b: int, b': int)
    requires |lists| == BINS && Binned(free, lists)
    requires Choice(free, lists, mode, b, size) && Choice(free, lists, mode, b', size)
    ensures b == b'
  {
    if mode == Best {
      var i, t :| LeastAt(lists, free, b, size, i, t);
      var i', t' :| LeastAt(lists, free, b', size, i', t');
      LeastIsOne(free, lists, size, b, i, t, b', i', t');
    } else {
      var i, t :| FirstAt(lists, free, b, size, mode == Lifo, i, t);
      var i', t' :| FirstAt(lists, free, b', size, mode == Lifo, i', t');
      FirstIsOne(free, lists, mode == Lifo, size, b, i, t, b', i', t');
    }
  }

  // How much of a block is handed out: the size asked for, unless too little would be left.
  function Share(block: int, size: int): int {
    if block - size > MIN_BLOCK then size else block
  }

  // The header at a was handed out of the block chosen from these free lists.
  ghost predicate HandedBy(m: Mem, lists: seq<seq<int>>, mode: Mode, m': Mem, a: int, size: int)
    requires Homed(m) && Homed(m')
  {
    exists b :: Choice(Free(m), lists, mode, b, size) && Handed(m, m', b, a, Share(Free(m)[b], size))
  }

  lemma HandedOver(m: Mem, lists: seq<seq<int>>, mode: Mode, b: int, m': Mem, a: int, given: int, size: int)
    requires Layout(m) && Homed(m') && Choice(Free(m), lists, mode, b, size)
    requires Handed(m, m', b, a, given) && given == Share(Free(m)[b], size)
    ensures HandedBy(m, lists, mode, m', a, size) && a > 0
    ensures Total(Live(m')) == Total(Live(m)) + given
  {
    TotalWith(Live(m), a, given);
    assert PoolAt(m, m.home[b]);
  }

  // m is the heap m0 after the release of the blocks in the queue, one after the other, and
  // o says how its free lists are and which pool is noted.
  ghost predicate Drained(m0: Mem, o0: Order, poolLen: int, queue: seq<int>, m: Mem, o: Order)
    requires Homed(m0)
  {
    && Homed(m) && Live(m) == Live(m0) - Elems(queue) && FewerPools(m0, m)
    && |o.lists| == BINS && Binned(Free(m), o.lists)
    && Drains(m0, o0, poolLen, queue, m, o)
  }

  // What bget has done: the queue drained, then the block handed out.
  ghost predicate Served(m0: Mem, o0: Order, poolLen: int, queue: seq<int>, mode: Mode, m': Mem, last: int, a: int, size: int)
    requires Homed(m0) && Homed(m')
  {
    exists m, o :: Drained(m0, o0, poolLen, queue, m, o) && HandedBy(m, o.lists, mode, m', a, size) && o.last == last
  }

  lemma NothingDrained(m0: Mem, o0: Order, poolLen: int, queue: seq<int>, m: Mem, o: Order)
    requires Drains(m0, o0, poolLen, queue, m, o)
    ensures queue == [] ==> m == m0 && o == o0
  {
    var trace :| IsTrace(ReleaseStep(poolLen), queue, trace, Shape(m0, o0), Shape(m, o));
  }

  // The `len` bytes at p have been added as one free block, behind the others of its bin.
  ghost predicate PoolJoined(m: Mem, o: Order, m': Mem, o': Order, p: int, len: int)
    requires Homed(m) && Homed(m')
  {
    && Live(m') == Live(m) && m'.pools == m.pools[p := p + len - HDR]
    && o' == Order(On(o.lists, p, len - HDR), o.last)
  }

  // One new buffer; without a queue it comes from the lists as they are.
  lemma ServedMeans(m0: Mem, o0: Order, poolLen: int, queue: seq<int>, mode: Mode, m': Mem, last: int, buf: int, size: int)
    requires Homed(m0) && Homed(m') && Served(m0, o0, poolLen, queue, mode, m', last, buf - HDR, size)
    ensures Given(Live(m0) - Elems(queue), Live(m'), buf, size)
    ensures queue == [] ==> HandedBy(m0, o0.lists, mode, m', buf - HDR, size) && last == o0.last && m'.pools == m0.pools
  {
    var m, o :| Drained(m0, o0, poolLen, queue, m, o) && HandedBy(m, o.lists, mode, m', buf - HDR, size) && o.last == last;
    NothingDrained(m0, o0, poolLen, queue, m, o);
  }

  /** Whatever the queue, which block bget hands out, and which pool is noted
      afterwards, is determined by the headers, the order of the free lists, the
      pool noted and the queue at its call. */
  lemma ServedOneWay(m0: Mem, o0: Order, poolLen: int, queue: seq<int>, mode: Mode, size: int,
                     m': Mem, last: int, a: int, w': Mem, last': int, c: int)
    requires Layout(m0) && Homed(m') && Homed(w')
    requires Served(m0, o0, poolLen, queue, mode, m', last, a, size) && Served(m0, o0, poolLen, queue, mode, w', last', c, size)
    ensures a == c && Live(m') == Live(w') && m'.pools == w'.pools && last == last'
  {
    var m, o :| Drained(m0, o0, poolLen, queue, m, o) && HandedBy(m, o.lists, mode, m', a, size) && o.last == last;
    var w, o' :| Drained(m0, o0, poolLen, queue, w, o') && HandedBy(w, o'.lists, mode, w', c, size) && o'.last == last';
    DrainsOneWay(m0, o0, poolLen, queue, m, o, w, o');
    HandedOneWay(m, w, o.lists, mode, size, m', a, w', c);
  }

  lemma HandedOneWay(m: Mem, w: Mem, lists: seq<seq<int>>, mode: Mode, size: int, m': Mem, a: int, w': Mem, c: int)
    requires Homed(m) && Homed(w) && Homed(m') && Homed(w') && |lists| == BINS && Binned(Free(m), lists)
    requires Free(w) == Free(m) && Live(w) == Live(m) && w.pools == m.pools
    requires HandedBy(m, lists, mode, m', a, size) && HandedBy(w, lists, mode, w', c, size)
    ensures a == c && Live(m') == Live(w') && m'.pools == w'.pools
  {
    var b :| Choice(Free(m), lists, mode, b, size) && Handed(m, m', b, a, Share(Free(m)[b], size));
    var d :| Choice(Free(w), lists, mode, d, size) && Handed(w, w', d, c, Share(Free(w)[d], size));
    ChoiceIsOne(Free(m), lists, mode, size, b, d);
  }

  class Heap {
    // Memory, one word per address: the header fields and the list links.
    var bsize: map<int, int>
    var prevfree: map<int, int>
    var flink: map<int, int>
    var blink: map<int, int>
    var tsize: map<int, int>
    // Fields of thr_data_t, and the thread's queue of deferred releases.
    var mode: Mode
    var expIncr: int
    var poolLen: int
    var lastPool: int
    var totalloc: int
    var numget: int
    var numrel: int
    var numpblk: int
    var numpget: int
    var numprel: int
    var bgetList: int
    // What the memory holds.
    ghost var pools: map<int, int>
    ghost var home: map<int, int>
    ghost var lists: seq<seq<int>>
    ghost var queue: seq<int>
    ghost var direct: map<int, int>
    ghost var lengths: seq<Length>   // of all pools ever added

    ghost function M(): Mem
      reads this`pools, this`home, this`bsize, this`prevfree
    {
      Mem(pools, home, bsize, prevfree)
    }

    ghost function Ord(): Order
      reads this`lists, this`lastPool
    {
      Order(lists, lastPool)
    }

    // The lists hold the blocks in `free`, and the queue holds blocks in `live`.
    ghost predicate ListsFor(free: map<int, int>, live: map<int, int>)
      reads this`flink, this`blink, this`lists, this`bgetList, this`queue
    {
      && Linked(flink, blink, lists)
      && Binned(free, lists)
      && Queued(live, flink, blink, bgetList, queue)
    }

    ghost predicate Blocks()
      reads this`pools, this`home, this`bsize, this`prevfree, this`flink, this`blink, this`lists, this`bgetList, this`queue
    {
      Layout(M()) && ListsFor(Free(M()), Live(M()))
    }

    ghost predicate Counted()
      reads this`pools, this`poolLen, this`numpblk, this`numpget, this`numprel, this`lastPool, this`lengths
    {
      poolLen == Common(lengths) && Sized(pools, poolLen) && numpblk == |pools| && numpblk == numpget - numprel && (lastPool == 0 || lastPool in pools)
    }

    ghost predicate Valid()
      reads this
    {
      Blocks() && Counted() && Direct(M(), tsize, direct)
    }

    // What totalloc says beyond the sizes of the blocks and buffers that are out.
    ghost function Surplus(): int
      requires Homed(M())
      reads this`pools, this`home, this`bsize, this`prevfree, this`direct, this`totalloc
    {
      totalloc - Total(Live(M())) - Total(direct)
    }

    /** set_thr_data and bectl: a heap without pools. */
    constructor (mode: Mode, poolIncr: int)
      ensures Valid() && M() == Mem(map[], map[], map[], map[]) && direct == map[] && queue == []
      ensures Surplus() == 0 && numget == numrel == 0 && lengths == []
      ensures this.mode == mode && expIncr == poolIncr
    {
      bsize, prevfree, tsize := map[], map[], map[];
      flink, blink := map[], map[];
      this.mode, expIncr := mode, poolIncr;
      poolLen, lastPool, totalloc, numget, numrel := 0, 0, 0, 0, 0;
      numpblk, numpget, numprel, bgetList := 0, 0, 0, 0;
      pools, home, direct, queue, lengths := map[], map[], map[], [], [];
      lists := NoItems();
      new;
      flink, blink := EmptyLists();
      InitialLists();
      InitialTags();
    }

    lemma InitialTags()
      requires M() == Mem(map[], map[], map[], map[])
      ensures Layout(M())
    {
    }

    lemma InitialLists()
      requires M() == Mem(map[], map[], map[], map[])
      requires Linked(flink, blink, lists) && lists == NoItems() && queue == [] && bgetList == 0
      ensures ListsFor(Free(M()), Live(M()))
    {
    }

    ghost function SizeAt(a: int): int
      reads this`bsize
    {
      SizeIn(bsize, a)
    }

    // ---------- searching ----------

    // What a walk over one list relies on.
    ghost predicate Walkable(bin: int)
      reads this`flink, this`blink, this`lists, this`bsize
    {
      && 0 <= bin < BINS && |lists| == BINS
      && Ring(flink, blink, Head(bin), lists[bin])
      && (forall a :: a in lists[bin] ==> a > 0 && a in bsize)
    }

    lemma BlocksWalkable(bin: int)
      requires Blocks() && 0 <= bin < BINS
      ensures Walkable(bin)
    {
      DistinctItems(lists, bin);
      forall a | a in lists[bin] ensures a > 0 && a in bsize {
        assert a in Free(M());
        assert a in M().bsize;
      }
    }

    method ScanBest(bin: int, size: int) returns (best: int, ghost s: int)
      requires Walkable(bin)
      ensures best == Head(bin) ==> forall a :: a in lists[bin] ==> SizeAt(a) < size
      ensures best != Head(bin) ==> best in lists[bin] && SizeAt(best) >= size && LeastAt(lists, bsize, best, size, bin, s)
      ensures best != Head(bin) ==> forall a :: a in lists[bin] && SizeAt(a) >= size ==> SizeAt(best) <= SizeAt(a)
    {
      ghost var items := lists[bin];
      VisitNext(flink, blink, bin, items, false, -1);
      best, s := Head(bin), 0;
      var b := flink[Head(bin)];
      ghost var t := 0;
      while b != Head(bin)
        invariant 0 <= t <= |items| && b == Visit(bin, items, false, t)
        invariant b == Head(bin) <==> t == |items|
        invariant best == Head(bin) ==> forall k :: 0 <= k < t ==> SizeAt(items[k]) < size
        invariant best != Head(bin) ==> best in items && SizeAt(best) >= size && s < t && LeastAt(lists, bsize, best, size, bin, s)
        invariant best != Head(bin) ==> forall k :: 0 <= k < t && SizeAt(items[k]) >= size ==> SizeAt(best) <= SizeAt(items[k])
        decreases |items| - t
      {
        assert b == items[t];
        if bsize[b] >= size {
          if best == Head(bin) || bsize[b] < bsize[best] {
            best, s := b, t;
          }
        }
        VisitNext(flink, blink, bin, items, false, t);
        b := flink[b];
        t := t + 1;
      }
    }

    // Follow a list from node `start` on and stop at the first block that fits.
    method ScanFirst(bin: int, size: int, useBlink: bool, start: int, ghost s: int) returns (b: int, ghost t: int)
      requires Walkable(bin)
      requires 0 <= s <= |lists[bin]| && start == Visit(bin, lists[bin], useBlink, s)
      requires start == Head(bin) <==> s == |lists[bin]|
      ensures s <= t <= |lists[bin]| && b == Visit(bin, lists[bin], useBlink, t)
      ensures b == Head(bin) <==> t == |lists[bin]|
      ensures b != Head(bin) ==> b in lists[bin] && SizeAt(b) >= size
      ensures forall k :: s <= k < t ==> SizeAt(Visit(bin, lists[bin], useBlink, k)) < size
    {
      ghost var items := lists[bin];
      b, t := start, s;
      if t < |items| { assert b == items[if useBlink then |items| - t - 1 else t]; }
      while b != Head(bin)
        invariant s <= t <= |items| && b == Visit(bin, items, useBlink, t)
        invariant b == Head(bin) <==> t == |items|
        invariant b != Head(bin) ==> b in items
        invariant forall k :: s <= k < t ==> SizeAt(Visit(bin, items, useBlink, k)) < size
        decreases |items| - t
      {
        if bsize[b] >= size {
          return;
        }
        VisitNext(flink, blink, bin, items, useBlink, t);
        b := if useBlink then blink[b] else flink[b];
        t := t + 1;
      }
    }

    // Free block a can hold `size` bytes, header included.
    ghost predicate Fits(a: int, size: int)
      requires Homed(M())
      reads this`pools, this`home, this`bsize, this`prevfree
    {
      FreeBlock(M(), a) && bsize[a] >= size
    }

    lemma NoteFree(a: int)
      requires Blocks() && FreeBlock(M(), a)
      ensures a in bsize && 0 <= Bin(bsize[a]) < BINS && a in lists[Bin(bsize[a])]
    {
      assert a in Free(M()) && a in M().bsize;
      BinMonotone(bsize[a], bsize[a]);
    }

    ghost predicate NoneBelow(bin: int, size: int)
      reads this`lists, this`bsize
    {
      TooSmall(lists, bsize, bin, size)
    }

    // The first block met that fits.
    ghost predicate FirstFit(b: int, size: int)
      reads this`lists, this`bsize, this`mode
    {
      FirstIn(lists, bsize, b, size, mode == Lifo)
    }

    lemma NoneBelowOwnBin(size: int)
      requires Blocks()
      ensures NoneBelow(Bin(size), size)
    {
      forall j, a | 0 <= j < Bin(size) && j < |lists| && a in lists[j] ensures SizeIn(bsize, a) < size {
        assert a in Free(M()) && Bin(Free(M())[a]) == j;
        if SizeIn(bsize, a) >= size { BinMonotone(size, SizeIn(bsize, a)); }
      }
    }

    lemma NoneAnywhere(size: int)
      requires Blocks() && NoneBelow(BINS, size)
      ensures forall a :: !Fits(a, size)
    {
      forall a ensures !Fits(a, size) {
        if FreeBlock(M(), a) {
          NoteFree(a);
          assert SizeAt(a) < size;
        }
      }
    }

    lemma SmallestOverall(bin: int, b: int, size: int)
      requires Blocks() && 0 <= bin < BINS && NoneBelow(bin, size)
      requires b in lists[bin] && SizeAt(b) >= size
      requires forall a :: a in lists[bin] && SizeAt(a) >= size ==> SizeAt(b) <= SizeAt(a)
      ensures Fits(b, size) && forall a :: Fits(a, size) ==> bsize[b] <= bsize[a]
    {
      assert b in Free(M()) && Bin(Free(M())[b]) == bin;
      forall a | Fits(a, size) ensures bsize[b] <= bsize[a] {
        NoteFree(a);
        NoteFree(b);
        assert Bin(bsize[a]) < bin ==> SizeAt(a) < size;
        if bsize[a] < bsize[b] {
          BinMonotone(bsize[a], bsize[b]);
        }
      }
    }

    lemma FoundFits(bin: int, b: int, size: int)
      requires Blocks() && 0 <= bin < BINS && b in lists[bin] && SizeAt(b) >= size
      ensures b > 0 && Fits(b, size)
    {
      BlocksWalkable(bin);
      assert b in Free(M());
    }

    lemma NoneInBin(bin: int, size: int, useBlink: bool)
      requires |lists| == BINS && 0 <= bin < BINS && NoneBelow(bin, size)
      requires forall k :: 0 <= k < |lists[bin]| ==> SizeAt(Visit(bin, lists[bin], useBlink, k)) < size
      ensures NoneBelow(bin + 1, size)
    {
      AllVisited(bin, lists[bin], useBlink);
    }

    ghost predicate LeastFit(b: int, size: int)
      reads this`lists, this`bsize
    {
      exists i, t :: LeastAt(lists, bsize, b, size, i, t)
    }

    // The search part of bget: the block to allocate from, or 0.
    method Search(size: int) returns (b: int)
      requires Blocks() && size > 0
      ensures b == 0 ==> forall a :: !Fits(a, size)
      ensures b != 0 ==> Fits(b, size)
      ensures b != 0 && mode == Best ==> LeastFit(b, size) && forall a :: Fits(a, size) ==> bsize[b] <= bsize[a]
      ensures b != 0 && mode != Best ==> FirstFit(b, size)
    {
      var useBlink := mode == Lifo;
      var bin := GetBin(size);
      NoneBelowOwnBin(size);
      while bin < BINS
        invariant 0 <= bin <= BINS
        invariant NoneBelow(bin, size)
      {
        b := SearchBin(bin, size, useBlink);
        if b != Head(bin) {
          return;
        }
        bin := bin + 1;
      }
      NoneAnywhere(size);
      b := 0;
    }

    method SearchBin(bin: int, size: int, useBlink: bool) returns (b: int)
      requires Blocks() && 0 <= bin < BINS && NoneBelow(bin, size) && useBlink == (mode == Lifo)
      ensures b == Head(bin) ==> NoneBelow(bin + 1, size)
      ensures b != Head(bin) ==> b > 0 && Fits(b, size)
      ensures b != Head(bin) && mode == Best ==> LeastFit(b, size) && forall a :: Fits(a, size) ==> bsize[b] <= bsize[a]
      ensures b != Head(bin) && mode != Best ==> FirstFit(b, size)
    {
      BlocksWalkable(bin);
      ghost var t;
      b, t := ScanBin(bin, size, useBlink);
      if b != Head(bin) {
        FoundFits(bin, b, size);
        if mode == Best {
          SmallestOverall(bin, b, size);
        } else {
          assert FirstAt(lists, bsize, b, size, useBlink, bin, t);
        }
      } else {
        NoneInBin(bin, size, useBlink);
      }
    }

    // One list: in best mode pick its smallest fit, otherwise its first.
    method ScanBin(bin: int, size: int, useBlink: bool) returns (b: int, ghost t: int)
      requires Walkable(bin) && useBlink == (mode == Lifo)
      ensures 0 <= t <= |lists[bin]| && b == Visit(bin, lists[bin], useBlink, t)
      ensures b == Head(bin) <==> t == |lists[bin]|
      ensures b == Head(bin) ==> forall k :: 0 <= k < |lists[bin]| ==> SizeAt(Visit(bin, lists[bin], useBlink, k)) < size
      ensures b != Head(bin) ==> b in lists[bin] && SizeAt(b) >= size
      ensures b != Head(bin) && mode == Best ==>
        LeastAt(lists, bsize, b, size, bin, t) && forall a :: a in lists[bin] && SizeAt(a) >= size ==> SizeAt(b) <= SizeAt(a)
      ensures b != Head(bin) && mode != Best ==>
        forall k :: 0 <= k < t ==> SizeAt(Visit(bin, lists[bin], useBlink, k)) < size
    {
      VisitNext(flink, blink, bin, lists[bin], useBlink, -1);
      b := if useBlink then blink[Head(bin)] else flink[Head(bin)];
      ghost var s := 0;
      if mode == Best {
        b, s := ScanBest(bin, size);
        if b == Head(bin) {
          s := |lists[bin]|;
        }
      }
      b, t := ScanFirst(bin, size, useBlink, b, s);
    }

    // ---------- the free lists ----------

    // Links of addresses that no list passes through are as they were.
    twostate predicate OtherLinksKept(lists': seq<seq<int>>, b: int)
      reads this`flink, this`blink
    {
      forall a :: a > 0 && a != b && !Listed(lists', a) ==>
        && (a in old(flink) ==> a in flink && flink[a] == old(flink[a]))
        && (a in old(blink) ==> a in blink && blink[a] == old(blink[a]))
    }

    method InsertIntoFreelist(b: int)
      requires Linked(flink, blink, lists) && b > 0 && !Listed(lists, b) && b in bsize && bsize[b] > 0
      modifies this`flink, this`blink, this`lists
      ensures Linked(flink, blink, lists)
      ensures 0 <= Bin(bsize[b]) < BINS
      ensures lists == On(old(lists), b, bsize[b])
      ensures forall i, a :: 0 <= i < BINS ==>
                (a in lists[i] <==> a in old(lists)[i] || (a == b && i == Bin(bsize[b])))
      ensures OtherLinksKept(old(lists), b)
    {
      var bin := GetBin(bsize[b]);
      AppendKeepsLinks(flink, blink, lists, bin, b);
      ghost var tail := blink[Head(bin)];
      TailNode(flink, blink, lists, bin);
      flink := flink[b := Head(bin)];
      blink := blink[b := blink[Head(bin)]];
      blink := blink[Head(bin) := b];
      flink := flink[blink[b] := b];
      OnIs(lists, b, bsize[b]);
      lists := lists[bin := lists[bin] + [b]];
    }

    method RemoveFromFreelist(b: int)
      requires Linked(flink, blink, lists) && Listed(lists, b)
      modifies this`flink, this`blink, this`lists
      ensures Linked(flink, blink, lists) && !Listed(lists, b)
      ensures lists == Off(old(lists), b)
      ensures forall i, a :: 0 <= i < BINS ==> (a in lists[i] <==> a in old(lists)[i] && a != b)
      ensures OtherLinksKept(old(lists), b)
    {
      ghost var i :| 0 <= i < |lists| && b in lists[i];
      ghost var k :| 0 <= k < |lists[i]| && lists[i][k] == b;
      RemoveKeepsLinks(flink, blink, lists, i, k);
      NeighbourNodes(flink, blink, lists, i, k);
      OffItems(lists, b);
      OffIs(lists, i, k);
      flink := flink[blink[b] := flink[b]];
      blink := blink[flink[b] := blink[b]];
      lists := Off(lists, b);
    }

    // Move block b to the list that suits its present size.
    method Relist(b: int)
      requires Linked(flink, blink, lists) && Listed(lists, b) && b in bsize && bsize[b] > 0 && b > 0
      modifies this`flink, this`blink, this`lists
      ensures Linked(flink, blink, lists) && lists == On(Off(old(lists), b), b, bsize[b])
      ensures forall i, a :: 0 <= i < BINS ==>
                (a in lists[i] <==> (a in old(lists)[i] && a != b) || (a == b && i == Bin(bsize[b])))
      ensures OtherLinksKept(old(lists), b)
    {
      RemoveFromFreelist(b);
      InsertIntoFreelist(b);
    }

    // ---------- allocating ----------

    // Relist block b after a change of its size, or of the status of live blocks.
    method RelistFor(b: int, ghost free: map<int, int>, ghost live: map<int, int>,
                     ghost free': map<int, int>, ghost live': map<int, int>)
      requires ListsFor(free, live) && b in free
      requires forall a :: a in live ==> a > 0 && a !in free && a in live'
      requires b in free' && free' - {b} == free - {b} && b in bsize && bsize[b] == free'[b] > 0 && b > 0
      modifies this`flink, this`blink, this`lists
      ensures ListsFor(free', live') && lists == On(Off(old(lists), b), b, free'[b])
      ensures forall a :: a in live ==> LinksKept(old(flink), old(blink), flink, blink, a)
    {
      BinMonotone(free[b], free[b]);
      assert b in lists[Bin(free[b])];
      Relist(b);
      Rebinned(free, old(lists), free', lists, b);
      UnlistedAll(free, live, old(lists));
      QueueKept(live, old(flink), old(blink), live', flink, blink, bgetList, queue);
    }

    // The header writes of a split.
    method CarveTags(b: int, size: int) returns (ba: int)
      requires b in bsize && b in home && size > 0
      modifies this`bsize, this`prevfree, this`home
      ensures M() == Carved(old(M()), b, size) && ba == b + old(bsize)[b] - size
    {
      ba := b + (bsize[b] - size);
      var bn := ba + size;
      bsize := bsize[b := bsize[b] - size];
      prevfree := prevfree[ba := bsize[b]];
      bsize := bsize[ba := -size];
      prevfree := prevfree[bn := 0];
      home := home[ba := home[b]];
    }

    // Cut the high end off free block b for the caller.
    method Carve(b: int, size: int) returns (ba: int)
      requires Blocks() && Fits(b, size) && Aligned(size) && MIN_BLOCK <= size && bsize[b] - size > MIN_BLOCK
      modifies this`bsize, this`prevfree, this`flink, this`blink, this`home, this`lists
      ensures Blocks()
      ensures b < ba && ba + size == b + old(bsize)[b]
      ensures M() == Carved(old(M()), b, size)
    {
      ghost var m := M();
      CarvedReady(m, b, size);
      ba := CarveTags(b, size);
      RelistFor(b, Free(m), Live(m), Free(M()), Live(M()));
    }

    // Take block b off its list for good.
    method UnlistFor(b: int, ghost free: map<int, int>, ghost live: map<int, int>,
                     ghost free': map<int, int>, ghost live': map<int, int>)
      requires ListsFor(free, live) && b in free
      requires forall a :: a in live ==> a > 0 && a !in free && a in live'
      requires free' == free - {b}
      modifies this`flink, this`blink, this`lists
      ensures ListsFor(free', live') && lists == Off(old(lists), b)
      ensures forall a :: a in live ==> LinksKept(old(flink), old(blink), flink, blink, a)
    {
      BinMonotone(free[b], free[b]);
      assert b in lists[Bin(free[b])];
      RemoveFromFreelist(b);
      UnlistedAll(free, live, old(lists));
      QueueKept(live, old(flink), old(blink), live', flink, blink, bgetList, queue);
    }

    // The header writes that hand out a block whole.
    method TakeTags(b: int)
      requires b in bsize
      modifies this`bsize, this`prevfree
      ensures M() == Taken(old(M()), b)
    {
      var ba := b + bsize[b];
      bsize := bsize[b := -bsize[b]];
      prevfree := prevfree[ba := 0];
    }

    // Hand out free block b whole.
    method Take(b: int)
      requires Blocks() && FreeBlock(M(), b)
      modifies this`bsize, this`prevfree, this`flink, this`blink, this`lists
      ensures Blocks()
      ensures M() == Taken(old(M()), b)
    {
      ghost var m := M();
      TakenKeepsLayout(m, b);
      TakenContents(m, b);
      LiveApart(m);
      UnlistFor(b, Free(m), Live(m), Free(Taken(m, b)), Live(Taken(m, b)));
      TakeTags(b);
    }

    // Both ways keep the direct buffers apart, and hand out one new live block.
    method CarveHanded(b: int, size: int) returns (a: int)
      requires Valid() && Fits(b, size) && Aligned(size) && MIN_BLOCK <= size && bsize[b] - size > MIN_BLOCK
      modifies this`bsize, this`prevfree, this`flink, this`blink, this`home, this`lists
      ensures Valid() && direct == old(direct) && mode == old(mode)
      ensures Handed(old(M()), M(), b, a, size)
    {
      CarvedHanded(M(), b, size, tsize, direct);
      a := Carve(b, size);
    }

    method TakeHanded(b: int)
      requires Valid() && FreeBlock(M(), b)
      modifies this`bsize, this`prevfree, this`flink, this`blink, this`lists
      ensures Valid() && direct == old(direct) && mode == old(mode)
      ensures Handed(old(M()), M(), b, b, old(bsize)[b])
    {
      TakenHanded(M(), b, tsize, direct);
      Take(b);
    }

    // Give the caller `size` bytes out of free block b, which fits; `a` is the header handed out.
    method Allocate(b: int, size: int) returns (a: int, ghost given: int)
      requires Valid() && Fits(b, size) && Aligned(size) && MIN_BLOCK <= size
      modifies this`bsize, this`prevfree, this`flink, this`blink, this`home, this`lists, this`totalloc, this`numget
      ensures Valid() && direct == old(direct) && mode == old(mode)
      ensures Handed(old(M()), M(), b, a, given) && given == Share(old(bsize)[b], size)
      ensures totalloc == old(totalloc) + given && numget == old(numget) + 1
    {
      given := Share(bsize[b], size);
      if bsize[b] - size > MIN_BLOCK {
        CountGet(size);
        a := CarveHanded(b, size);
      } else {
        CountGet(bsize[b]);
        TakeHanded(b);
        a := b;
      }
    }

    method CountGet(given: int)
      requires Valid()
      modifies this`totalloc, this`numget
      ensures Valid() && totalloc == old(totalloc) + given && numget == old(numget) + 1
      ensures M() == old(M()) && direct == old(direct) && mode == old(mode)
    {
      totalloc := totalloc + given;
      numget := numget + 1;
    }

    // ---------- releasing ----------

    // Put block b, free from now on, on a list.
    method ListFor(b: int, ghost free: map<int, int>, ghost live: map<int, int>, ghost free': map<int, int>)
      requires ListsFor(free, live) && b !in free && b !in live
      requires forall a :: a in live ==> a > 0 && a !in free
      requires b in free' && free' - {b} == free - {b} && b in bsize && bsize[b] == free'[b] > 0 && b > 0
      modifies this`flink, this`blink, this`lists
      ensures ListsFor(free', live) && !Listed(old(lists), b) && lists == On(old(lists), b, free'[b])
      ensures forall a :: a in live ==> LinksKept(old(flink), old(blink), flink, blink, a)
    {
      assert !Listed(lists, b);
      InsertIntoFreelist(b);
      Rebinned(free, old(lists), free', lists, b);
      UnlistedAll(free, live, old(lists));
      QueueKept(live, old(flink), old(blink), live, flink, blink, bgetList, queue);
    }

    // First half of brel: free the block, or add it to the free block before it.
    method ReleaseLow(b0: int, ghost freeG: map<int, int>) returns (b: int)
      requires Homed(M()) && LowReady(b0, M(), freeG)
      requires ListsFor(Free(M()), Live(M()) - {b0})
      requires forall a :: a in Live(M()) ==> a > 0 && a !in Free(M())
      modifies this`bsize, this`flink, this`blink, this`lists
      ensures b == b0 - prevfree[b0] && b in freeG && bsize == old(bsize)[b := freeG[b]]
      ensures ListsFor(freeG, old(Live(M())) - {b0}) && lists == On(Off(old(lists), b), b, freeG[b])
      ensures forall a :: a in old(Live(M())) - {b0} ==> LinksKept(old(flink), old(blink), flink, blink, a)
    {
      ghost var free, live := Free(M()), Live(M()) - {b0};
      b := b0;
      if prevfree[b] != 0 {
        var size := bsize[b];
        b := b - prevfree[b];
        bsize := bsize[b := bsize[b] - size];
        RelistFor(b, free, live, freeG, live);
      } else {
        bsize := bsize[b := -bsize[b]];
        ListFor(b, free, live, freeG);
        OffNone(old(lists), b);
      }
    }

    // A live block outside the queue can be dropped from the lists' view of the live blocks.
    lemma Forget(b0: int)
      requires Blocks() && b0 !in queue
      ensures ListsFor(Free(M()), Live(M()) - {b0})
    {
      QueueKept(Live(M()), flink, blink, Live(M()) - {b0}, flink, blink, bgetList, queue);
    }

    // Second half of brel: add a free block that follows, then tag the header behind the result.
    method ReleaseHigh(b: int, ghost freeG: map<int, int>, ghost freeH: map<int, int>, ghost live: map<int, int>)
      requires ListsFor(freeG, live) && forall a :: a in live ==> a > 0 && a !in freeG
      requires HighReady(b, bsize, freeG, freeH)
      modifies this`bsize, this`prevfree, this`flink, this`blink, this`lists
      ensures ListsFor(freeH, live)
      ensures var n := b + old(bsize)[b];
              lists == if n in freeG then On(Off(Off(old(lists), n), b), b, freeH[b]) else old(lists)
      ensures bsize == old(bsize)[b := freeH[b]] && prevfree == old(prevfree)[b + freeH[b] := freeH[b]]
      ensures forall a :: a in live ==> LinksKept(old(flink), old(blink), flink, blink, a)
    {
      var bn := b + bsize[b];
      if bsize[bn] > 0 {
        UnlistFor(bn, freeG, live, freeG - {bn}, live);
        bsize := bsize[b := bsize[b] + bsize[bn]];
        RelistFor(b, freeG - {bn}, live, freeH, live);
        bn := b + bsize[b];
      } else {
        assert freeH == freeG by { SameMap(freeG, freeH, b, bn); }
      }
      prevfree := prevfree[bn := bsize[b]];
    }

    // Both halves; the contract is about the words and the lists alone.
    method ReleaseWords(b0: int, ghost freeG: map<int, int>, ghost freeR: map<int, int>)
      returns (b: int, ghost mid: seq<seq<int>>)
      requires Planned(b0, M(), freeG, freeR)
      requires ListsFor(Free(M()), Live(M()) - {b0})
      modifies this`bsize, this`prevfree, this`flink, this`blink, this`lists
      ensures b == b0 - old(prevfree)[b0]
      ensures bsize == old(bsize)[b := freeG[b]][b := freeR[b]]
      ensures prevfree == old(prevfree)[b + freeR[b] := freeR[b]]
      ensures ListsFor(freeR, old(Live(M())) - {b0})
      ensures mid == On(Off(old(lists), b), b, freeG[b])
      ensures lists == if b + freeG[b] in freeG then On(Off(Off(mid, b + freeG[b]), b), b, freeR[b]) else mid
      ensures forall a :: a in old(bsize) && a != b ==> a in bsize && bsize[a] == old(bsize)[a]
      ensures forall a :: a in old(Live(M())) && a != b0 ==> LinksKept(old(flink), old(blink), flink, blink, a)
    {
      ghost var live := Live(M()) - {b0};
      b := ReleaseLow(b0, freeG);
      ghost var flink', blink' := flink, blink;
      mid := lists;
      ReleaseHigh(b, freeG, freeR, live);
      LinksStillKept(live, old(flink), old(blink), flink', blink', flink, blink);
    }

    // brel for a pool block of the heap's own thread, up to the question of returning a whole pool.
    method ReleaseBlock(b0: int) returns (b: int)
      requires Blocks() && b0 in Live(M()) && b0 !in queue
      modifies this`bsize, this`prevfree, this`home, this`flink, this`blink, this`lists
      ensures Blocks() && Live(M()) == old(Live(M())) - {b0}
      ensures FreeBlock(M(), b) && pools == old(pools) && 0 < b <= b0 < b + bsize[b]
      ensures b == old(Low(M(), b0)) && bsize[b] == old(Grown(M(), b0))
      ensures lists == On(old(Off(Off(lists, Low(M(), b0)), Next(M(), b0))), b, bsize[b])
      ensures forall a :: a in old(bsize) && a != b ==> a in bsize && bsize[a] == old(bsize)[a]
      ensures forall a :: a in old(Live(M())) && a != b0 ==> LinksKept(old(flink), old(blink), flink, blink, a)
    {
      ghost var r;
      b, r := ReleaseMoves(b0);
      home := r.home;
      assert M() == r;
    }

    // The words and the lists of a release, all but the record of the homes.
    method ReleaseMoves(b0: int) returns (b: int, ghost r: Mem)
      requires Blocks() && b0 in Live(M()) && b0 !in queue
      modifies this`bsize, this`prevfree, this`flink, this`blink, this`lists
      ensures Layout(r) && Live(r) == old(Live(M())) - {b0} && r.pools == pools && r.bsize == bsize && r.prevfree == prevfree
      ensures FreeBlock(r, b) && 0 < b <= b0 < b + bsize[b] && b == old(Low(M(), b0)) && bsize[b] == old(Grown(M(), b0))
      ensures ListsFor(Free(r), Live(r)) && lists == On(old(Off(Off(lists, Low(M(), b0)), Next(M(), b0))), b, bsize[b])
      ensures forall a :: a in old(bsize) && a != b ==> a in bsize && bsize[a] == old(bsize)[a]
      ensures forall a :: a in old(Live(M())) && a != b0 ==> LinksKept(old(flink), old(blink), flink, blink, a)
    {
      ghost var freeG;
      ghost var m := M();
      freeG, r := ReleasePlan(m, b0);
      Forget(b0);
      ghost var mid, l0 := lists, lists;
      ghost var freeR := Free(r);
      b, mid := ReleaseWords(b0, freeG, freeR);
      WordsReached(m, b0, b, freeG[b], freeR[b], bsize, prevfree, r);
      ListsReached(m, b0, b, freeG, freeR, l0, mid, lists);
    }

    // Give pool p, which is one free block, back to the system.
    method ReturnPool(p: int)
      requires Blocks() && WhollyFree(M(), p)
      modifies this`pools, this`home, this`flink, this`blink, this`lists
      ensures Blocks() && Live(M()) == old(Live(M())) && M() == Dropped(old(M()), p) && lists == Off(old(lists), p)
      ensures forall a :: a in Live(M()) ==> LinksKept(old(flink), old(blink), flink, blink, a)
    {
      ghost var m := M();
      DroppedKeepsLayout(m, p);
      LiveApart(m);
      UnlistFor(p, Free(m), Live(m), Free(m) - {p}, Live(m));
      home := home - {p, pools[p]};
      pools := pools - {p};
      assert M() == Dropped(m, p);
    }

    // The end of brel: return the block's pool if it is free as a whole and not the only one.
    method ReturnIfWhole(b: int) returns (released: int)
      requires Blocks() && Counted() && FreeBlock(M(), b) && b > 0
      modifies this`pools, this`home, this`flink, this`blink, this`lists, this`numprel, this`numpblk, this`lastPool
      ensures Blocks() && Counted() && Live(M()) == old(Live(M()))
      ensures released == 0 ==> pools == old(pools)
      ensures released != 0 ==> released == b && WhollyFree(old(M()), b) && pools == old(pools) - {b} && |old(pools)| > 1
      ensures released != 0 <==> bsize[b] == poolLen - HDR && |old(pools)| != 1
      ensures lists == if released != 0 then Off(old(lists), b) else old(lists)
      ensures lastPool == if bsize[b] != poolLen - HDR then old(lastPool)
        else if |old(pools)| == 1 then b else if old(lastPool) == b then 0 else old(lastPool)
      ensures forall a :: a in Live(M()) ==> LinksKept(old(flink), old(blink), flink, blink, a)
    {
      released := 0;
      if bsize[b] == poolLen - HDR {
        WholePool(M(), b, poolLen);
        if numpblk != 1 {
          ReturnWhole(b);
          released := b;
        } else {
          lastPool := b;
        }
      }
    }

    method ReturnWhole(b: int)
      requires Blocks() && Counted() && WhollyFree(M(), b) && b > 0 && numpblk != 1
      modifies this`pools, this`home, this`flink, this`blink, this`lists, this`numprel, this`numpblk, this`lastPool
      ensures Blocks() && Counted() && Live(M()) == old(Live(M()))
      ensures pools == old(pools) - {b} && |old(pools)| > 1 && lists == Off(old(lists), b)
      ensures lastPool == if old(lastPool) == b then 0 else old(lastPool)
      ensures forall a :: a in Live(M()) ==> LinksKept(old(flink), old(blink), flink, blink, a)
    {
      ReturnPool(b);
      CountReturned(b);
    }

    // The statistics of a returned pool, and no stale pointer to it.
    method CountReturned(b: int)
      requires poolLen == Common(lengths) && Sized(pools, poolLen) && numpblk == |pools| + 1 == numpget - numprel
      requires lastPool == 0 || lastPool == b || lastPool in pools
      modifies this`numprel, this`numpblk, this`lastPool
      ensures Counted() && lastPool == if old(lastPool) == b then 0 else old(lastPool)
    {
      numprel := numprel + 1;
      numpblk := numpblk - 1;
      if lastPool == b {
        lastPool := 0;
      }
    }

    method BrelBlock(b0: int) returns (b: int)
      requires Blocks() && Direct(M(), tsize, direct) && b0 in Live(M()) && b0 !in queue
      modifies this`bsize, this`prevfree, this`home, this`flink, this`blink, this`lists, this`totalloc, this`numrel
      ensures Blocks() && Direct(M(), tsize, direct) && Live(M()) == old(Live(M())) - {b0}
      ensures totalloc == old(totalloc) - old(Live(M()))[b0] && numrel == old(numrel) + 1
      ensures FreeBlock(M(), b) && pools == old(pools) && 0 < b <= b0 < b + bsize[b]
      ensures b == old(Low(M(), b0)) && bsize[b] == old(Grown(M(), b0))
      ensures lists == On(old(Off(Off(lists, Low(M(), b0)), Next(M(), b0))), b, bsize[b])
      ensures forall a :: a in old(Live(M())) && a != b0 ==> LinksKept(old(flink), old(blink), flink, blink, a)
    {
      ghost var m := M();
      numrel := numrel + 1;
      totalloc := totalloc + bsize[b0];
      b := ReleaseBlock(b0);
      DirectKeptInside(m, M(), tsize, direct, b);
    }

    // The end of brel, seen from its start.
    method BrelReturn(b: int, ghost m: Mem, ghost b0: int, ghost flink0: map<int, int>, ghost blink0: map<int, int>,
                      ghost lists0: seq<seq<int>>) returns (released: int)
      requires Blocks() && Counted() && Direct(M(), tsize, direct)
      requires FreeBlock(M(), b) && 0 < b <= b0 < b + bsize[b]
      requires Layout(m) && b0 in Live(m) && Live(M()) == Live(m) - {b0} && m.pools == pools
      requires b == Low(m, b0) && bsize[b] == Grown(m, b0) && lists == On(Off(Off(lists0, b), Next(m, b0)), b, bsize[b])
      requires forall a :: a in Live(m) && a != b0 ==> LinksKept(flink0, blink0, flink, blink, a)
      modifies this`pools, this`home, this`flink, this`blink, this`lists, this`numprel, this`numpblk, this`lastPool
      ensures Valid() && Live(M()) == old(Live(M()))
      ensures released == 0 ==> pools == old(pools)
      ensures released != 0 ==> Returned(m, b0, released) && pools == old(pools) - {released}
      ensures Releases(m, Order(lists0, old(lastPool)), poolLen, b0, M(), Ord()) && (released != 0 <==> GivesBack(m, poolLen, b0))
      ensures forall a :: a in Live(m) && a != b0 ==> LinksKept(flink0, blink0, flink, blink, a)
    {
      ghost var r, flink', blink' := M(), flink, blink;
      released := ReturnIfWhole(b);
      forall a | a in Live(m) && a != b0 ensures LinksKept(flink0, blink0, flink, blink, a) {
        assert a in Live(r) && LinksKept(flink', blink', flink, blink, a);
      }
      if released != 0 {
        WholeIsReturned(m, r, b0, b);
      }
      DirectFewerPools(r, M(), tsize, direct);
      OnOff(lists0, b, Next(m, b0), Grown(m, b0));
    }

    /** brel, called by the thread that owns the heap, for a block of one of its
        pools. The result is the pool handed back to the system, or 0. */
    method Brel(b0: int) returns (released: int)
      requires Valid() && b0 in Live(M()) && b0 !in queue
      modifies this`bsize, this`prevfree, this`flink, this`blink, this`pools, this`home, this`lists,
               this`totalloc, this`numrel, this`numprel, this`numpblk, this`lastPool
      ensures Valid() && Live(M()) == old(Live(M())) - {b0} && Surplus() == old(Surplus())
      ensures totalloc == old(totalloc) - old(Live(M()))[b0] && numrel == old(numrel) + 1
      ensures released == 0 ==> pools == old(pools)
      ensures released != 0 ==> Returned(old(M()), b0, released) && pools == old(pools) - {released}
      ensures Releases(old(M()), old(Ord()), poolLen, b0, M(), Ord())
      ensures released != 0 <==> GivesBack(old(M()), poolLen, b0)
      ensures forall a :: a in old(Live(M())) && a != b0 ==> LinksKept(old(flink), old(blink), flink, blink, a)
    {
      ghost var m := M();
      var b := BrelBlock(b0);
      released := BrelReturn(b, m, b0, old(flink), old(blink), old(lists));
      TotalWithout(Live(m), b0);
    }

    // ---------- the queue of blocks released by other threads ----------

    // __kmp_bget_enqueue: another thread hands block b back; its links become the chain.
    method Enqueue(b: int)
      requires Blocks() && b in Live(M()) && b !in queue
      modifies this`flink, this`blink, this`bgetList, this`queue
      ensures Blocks() && queue == [b] + old(queue) && bgetList == b + HDR
    {
      LiveApart(M());
      EnqueueKeepsLinks(flink, blink, lists, Free(M()), b, bgetList);
      EnqueueKeepsQueue(Live(M()), flink, blink, bgetList, queue, b);
      blink := blink[b := 0];
      flink := flink[b := bgetList];
      bgetList := b + HDR;
      queue := [b] + queue;
    }

    // __kmp_bget_dequeue: take the whole chain, then release its blocks one by one.
    method Dequeue()
      requires Valid()
      modifies this`bsize, this`prevfree, this`flink, this`blink, this`pools, this`home, this`lists,
               this`totalloc, this`numrel, this`numprel, this`numpblk, this`lastPool, this`bgetList, this`queue
      ensures Valid() && queue == [] && Surplus() == old(Surplus()) && numrel == old(numrel) + |old(queue)|
      ensures Drained(old(M()), old(Ord()), poolLen, old(queue), M(), Ord())
    {
      var p := Detach();
      DrainChain(old(M()), old(Ord()), p, old(queue));
    }

    // The exchange of the list head with null.
    method Detach() returns (p: int)
      requires Valid()
      modifies this`bgetList, this`queue
      ensures Valid() && queue == []
      ensures Draining(old(M()), old(Ord()), p, old(queue), 0)
    {
      DrainStart();
      p := bgetList;
      if p != 0 {
        bgetList := 0;
        queue := [];
      }
    }

    lemma DrainStart()
      requires Blocks()
      ensures Draining(M(), Ord(), bgetList, queue, 0) && (bgetList == 0 <==> queue == [])
    {
      QueueEnd(M(), flink, blink, bgetList, queue);
      assert queue[0..] == queue && queue[..0] == [];
      DrainsNone(M(), Ord(), poolLen);
    }

    // The walk over the detached chain; it does nothing when the chain is empty.
    method DrainChain(ghost m: Mem, ghost o0: Order, first: int, ghost chain: seq<int>)
      requires Valid() && queue == [] && Layout(m) && Draining(m, o0, first, chain, 0)
      modifies this`bsize, this`prevfree, this`flink, this`blink, this`pools, this`home, this`lists,
               this`totalloc, this`numrel, this`numprel, this`numpblk, this`lastPool
      ensures Valid() && Live(M()) == Live(m) - Elems(chain) && FewerPools(m, M())
      ensures Drains(m, o0, poolLen, chain, M(), Ord())
      ensures Surplus() == old(Surplus()) && numrel == old(numrel) + |chain|
    {
      var p := first;
      ghost var n := 0;
      while p != 0
        invariant Valid() && queue == [] && Draining(m, o0, p, chain, n)
        invariant Surplus() == old(Surplus()) && numrel == old(numrel) + n
        decreases |chain| - n
      {
        p := DrainOne(m, o0, p, chain, n);
        n := n + 1;
      }
      DrainDone(m, o0, chain, n);
    }

    lemma DrainDone(m: Mem, o0: Order, chain: seq<int>, n: int)
      requires Blocks() && Layout(m) && Draining(m, o0, 0, chain, n)
      ensures n == |chain| && Live(M()) == Live(m) - Elems(chain) && FewerPools(m, M())
      ensures Drains(m, o0, poolLen, chain, M(), Ord())
    {
      QueueEnd(M(), flink, blink, 0, chain[n..]);
      assert chain[..n] == chain;
    }

    // The first n blocks of the chain have been released since the headers were m; p leads to the others.
    ghost predicate Draining(m: Mem, o0: Order, p: int, chain: seq<int>, n: int)
      requires Homed(m) && Homed(M())
      reads this`pools, this`home, this`bsize, this`prevfree, this`flink, this`blink, this`lists, this`poolLen, this`lastPool
    {
      && 0 <= n <= |chain|
      && Queued(Live(M()), flink, blink, p, chain[n..])
      && Live(M()) == Live(m) - Elems(chain[..n])
      && FewerPools(m, M())
      && Drains(m, o0, poolLen, chain[..n], M(), Ord())
    }

    method DrainOne(ghost m: Mem, ghost o0: Order, p: int, ghost chain: seq<int>, ghost n: int) returns (next: int)
      requires Valid() && queue == [] && Layout(m) && p != 0 && Draining(m, o0, p, chain, n)
      modifies this`bsize, this`prevfree, this`flink, this`blink, this`pools, this`home, this`lists,
               this`totalloc, this`numrel, this`numprel, this`numpblk, this`lastPool
      ensures Valid() && queue == [] && n < |chain| && Draining(m, o0, next, chain, n + 1)
      ensures Surplus() == old(Surplus()) && numrel == old(numrel) + 1
    {
      var b := p - HDR;
      ghost var rest := chain[n..];
      assert rest[1..] == chain[n + 1..];
      QueueTail(Live(M()), flink, blink, rest);
      ElemsNext(chain, n);
      ghost var m1, o1 := M(), Ord();
      next := ReleaseNext(b, rest);
      StepIs(poolLen, b, m1, o1, M(), Ord());
      DrainsNext(m, o0, poolLen, chain, n, m1, o1, M(), Ord());
    }

    method ReleaseNext(b: int, ghost chain: seq<int>) returns (p: int)
      requires Valid() && queue == [] && chain != [] && b == chain[0]
      requires Queued(Live(M()), flink, blink, b + HDR, chain)
      modifies this`bsize, this`prevfree, this`flink, this`blink, this`pools, this`home, this`lists,
               this`totalloc, this`numrel, this`numprel, this`numpblk, this`lastPool
      ensures Valid() && Surplus() == old(Surplus()) && numrel == old(numrel) + 1
      ensures Queued(Live(M()), flink, blink, p, chain[1..])
      ensures Live(M()) == old(Live(M())) - {b}
      ensures FewerPools(old(M()), M()) && Releases(old(M()), old(Ord()), poolLen, b, M(), Ord())
    {
      ghost var m := M();
      QueueTail(Live(M()), flink, blink, chain);
      p := flink[b];
      var released := Brel(b);
      FewerAfterBrel(m, M(), b, released);
      QueueKept(Live(m), old(flink), old(blink), Live(M()), flink, blink, p, chain[1..]);
    }

    // ---------- pools and direct buffers ----------

    /** bpool: add the `length` bytes at p, a fresh piece of memory, as a pool. The
        heap has been m, with order o, when the queue was drained. */
    method Bpool(p: int, length: int) returns (ghost m: Mem, ghost o: Order)
      requires Valid() && p > 0 && Aligned(p) && RoundDown(length) >= HDR + MIN_BLOCK
      requires Unused(M(), direct, p, length)
      modifies this`bsize, this`prevfree, this`flink, this`blink, this`pools, this`home, this`lists, this`bgetList,
               this`queue, this`totalloc, this`numrel, this`numprel, this`numpget, this`numpblk, this`lastPool, this`poolLen,
               this`lengths
      ensures Valid() && queue == []
      ensures Live(M()) == old(Live(M())) - Elems(old(queue))
      ensures Empty(M(), p) && pools[p] == p + RoundDown(length) - HDR
      ensures Drained(old(M()), old(Ord()), old(poolLen), old(queue), m, o) && PoolJoined(m, o, M(), Ord(), p, RoundDown(length))
      ensures lengths == old(lengths) + [RoundDown(length)] && poolLen == Common(lengths)
      ensures Surplus() == old(Surplus()) && numrel == old(numrel) + |old(queue)| && numpget == old(numpget) + 1
    {
      DequeueFor(p, length);
      m, o := M(), Ord();
      AcceptPool(p, RoundDown(length));
    }

    method DequeueFor(p: int, length: int)
      requires Valid() && p > 0 && Aligned(p) && RoundDown(length) >= HDR + MIN_BLOCK
      requires Unused(M(), direct, p, length)
      modifies this`bsize, this`prevfree, this`flink, this`blink, this`pools, this`home, this`lists, this`bgetList,
               this`queue, this`totalloc, this`numrel, this`numprel, this`numpblk, this`lastPool
      ensures Blocks() && Counted() && Direct(M(), tsize, direct) && queue == []
      ensures Live(M()) == old(Live(M())) - Elems(old(queue))
      ensures Surplus() == old(Surplus()) && numrel == old(numrel) + |old(queue)|
      ensures Acceptable(p, RoundDown(length)) && Unused(M(), direct, p, RoundDown(length))
      ensures p !in pools && Drained(old(M()), old(Ord()), poolLen, old(queue), M(), Ord())
    {
      ghost var m := M();
      Dequeue();
      StillAddable(m, M(), direct, p, length);
    }

    method AcceptPool(p: int, len: int)
      requires Blocks() && Counted() && Direct(M(), tsize, direct)
      requires Acceptable(p, len) && Unused(M(), direct, p, len) && p !in pools
      modifies this`bsize, this`prevfree, this`flink, this`blink, this`pools, this`home, this`lists,
               this`numpget, this`numpblk, this`poolLen, this`lengths
      ensures Valid() && PoolJoined(old(M()), old(Ord()), M(), Ord(), p, len) && numpget == old(numpget) + 1
      ensures Empty(M(), p) && pools[p] == p + len - HDR && lengths == old(lengths) + [len]
    {
      CountPool(len);
      InstallPool(p, len);
      CountedAfter(old(pools), p, len, poolLen);
    }

    method InstallPool(p: int, len: int)
      requires Blocks() && Direct(M(), tsize, direct)
      requires Addable(M(), p, len) && Unused(M(), direct, p, len)
      modifies this`bsize, this`prevfree, this`flink, this`blink, this`pools, this`home, this`lists
      ensures Blocks() && Direct(M(), tsize, direct) && Live(M()) == old(Live(M()))
      ensures pools == old(pools)[p := p + len - HDR] && Empty(M(), p) && lists == On(old(lists), p, len - HDR)
    {
      AddedEmpty(M(), p, len);
      AddPool(p, len);
    }

    // The statistics of bpool.
    method CountPool(len: int)
      requires len > 0 && Counted()
      modifies this`poolLen, this`numpget, this`numpblk, this`lengths
      ensures lengths == old(lengths) + [len] && poolLen == Common(lengths)
      ensures numpblk == numpget - numprel == |pools| + 1 && CommonLength(pools, len, poolLen)
      ensures (lastPool == 0 || lastPool in pools) && numpget == old(numpget) + 1
    {
      CommonNext(lengths, len);
      lengths := lengths + [len];
      if poolLen == 0 {
        poolLen := len;
      } else if len != poolLen {
        poolLen := -1;
      }
      numpget := numpget + 1;
      numpblk := numpblk + 1;
    }

    method AddTags(p: int, len0: int)
      modifies this`bsize, this`prevfree, this`pools, this`home
      ensures M() == Added(old(M()), p, len0)
    {
      prevfree := prevfree[p := 0];
      var len := len0 - HDR;
      bsize := bsize[p := len];
      var bn := p + len;
      prevfree := prevfree[bn := len];
      bsize := bsize[bn := ESENT];
      home := home[p := p][bn := p];
      pools := pools[p := bn];
    }

    // The header writes and the listing of a new pool.
    method AddPool(p: int, len: int)
      requires Blocks() && Direct(M(), tsize, direct) && Addable(M(), p, len) && Unused(M(), direct, p, len)
      modifies this`bsize, this`prevfree, this`flink, this`blink, this`pools, this`home, this`lists
      ensures Blocks() && Direct(M(), tsize, direct) && M() == Added(old(M()), p, len) && lists == On(old(lists), p, len - HDR)
    {
      ghost var m := M();
      AddedReady(m, p, len);
      DirectKeptOutside(m, p, len, tsize, direct);
      AddTags(p, len);
      ListFor(p, Free(m), Live(m), Free(M()));
    }

    /** A buffer obtained from the system on its own: `size` bytes at d, marked by a zero block size. */
    method AcquireDirect(d: int, size: int) returns (buf: int)
      requires Blocks() && Counted() && Direct(M(), tsize, direct)
      requires d > 0 && Aligned(d) && size >= DIRECT_HDR && Unused(M(), direct, d, size)
      modifies this`bsize, this`prevfree, this`tsize, this`direct, this`totalloc, this`numget
      ensures Blocks() && Direct(M(), tsize, direct) && Live(M()) == old(Live(M()))
      ensures buf == d + DIRECT_HDR && d !in old(direct) && direct == old(direct)[d := size]
      ensures totalloc == old(totalloc) + size && numget == old(numget) + 1 && Surplus() == old(Surplus())
    {
      ghost var m := M();
      TotalWithNew(direct, d, size, m);
      DirectAdded(m, tsize, direct, d, size);
      MarkDirect(d, size);
      buf := d + DIRECT_HDR;
    }

    method MarkDirect(d: int, size: int)
      requires Layout(Marked(M(), d)) && ListsFor(Free(Marked(M(), d)), Live(Marked(M(), d)))
      modifies this`bsize, this`prevfree, this`tsize, this`direct, this`totalloc, this`numget
      ensures Blocks() && M() == Marked(old(M()), d) && tsize == old(tsize)[d := size] && direct == old(direct)[d := size]
      ensures totalloc == old(totalloc) + size && numget == old(numget) + 1
    {
      WriteDirect(d, size);
    }

    lemma TotalWithNew(direct: map<int, int>, d: int, size: int, m: Mem)
      requires Unused(m, direct, d, size) && Direct(m, tsize, direct) && size > 0
      ensures d !in direct && Total(direct[d := size]) == Total(direct) + size
    {
      assert d in direct ==> DirectAt(m, tsize, direct, d) && BesideDirect(direct, d, size, d);
      TotalWith(direct, d, size);
    }

    // The words of a direct buffer's header, and the statistics.
    method WriteDirect(d: int, size: int)
      modifies this`bsize, this`prevfree, this`tsize, this`direct, this`totalloc, this`numget
      ensures M() == Marked(old(M()), d) && tsize == old(tsize)[d := size] && direct == old(direct)[d := size]
      ensures totalloc == old(totalloc) + size && numget == old(numget) + 1
    {
      bsize := bsize[d + QUANT := 0];
      prevfree := prevfree[d + QUANT := 0];
      tsize := tsize[d := size];
      totalloc := totalloc + size;
      numget := numget + 1;
      direct := direct[d := size];
    }

    // brel for a directly acquired buffer: straight back to the system.
    method ReleaseDirect(d: int)
      requires Homed(M()) && Direct(M(), tsize, direct) && d in direct
      modifies this`direct, this`totalloc, this`numrel
      ensures Direct(M(), tsize, direct) && direct == old(direct) - {d}
      ensures totalloc == old(totalloc) - old(direct)[d] && numrel == old(numrel) + 1 && Surplus() == old(Surplus())
    {
      TotalWithout(direct, d);
      assert DirectAt(M(), tsize, direct, d);
      DirectRemoved(M(), tsize, direct, d);
      totalloc := totalloc - tsize[d];
      numrel := numrel + 1;
      direct := direct - {d};
    }

    // ---------- bget ----------

    // A pool without live blocks that can hold `size` bytes.
    ghost predicate Ready(size: int)
      requires Homed(M())
      reads this`pools, this`home, this`bsize, this`prevfree
    {
      ReadyIn(M(), size)
    }

    lemma ReadyFits(size: int)
      requires Layout(M()) && Ready(size)
      ensures exists b :: Fits(b, size)
    {
      var p :| Empty(M(), p) && pools[p] - p >= size;
      EmptyIsWhollyFree(M(), p);
      assert Fits(p, size);
    }

    // Search the lists and allocate from what was found.
    method TryLists(size: int) returns (buf: int)
      requires Valid() && Aligned(size) && MIN_BLOCK <= size
      modifies this`bsize, this`prevfree, this`flink, this`blink, this`home, this`lists, this`totalloc, this`numget
      ensures Valid() && Surplus() == old(Surplus())
      ensures buf == 0 ==> M() == old(M()) && lists == old(lists) && numget == old(numget) && forall a :: !Fits(a, size)
      ensures buf != 0 ==> HandedBy(old(M()), old(lists), mode, M(), buf - HDR, size) && numget == old(numget) + 1
    {
      var b := Search(size);
      buf := 0;
      if b != 0 {
        Chosen(b, size);
        buf := AllocateFrom(b, size);
      }
    }

    // The sizes that the search reads are those of the free blocks.
    lemma SizesRead(a: int)
      requires Blocks() && Listed(lists, a)
      ensures a in Free(M()) && SizeIn(Free(M()), a) == SizeIn(bsize, a)
    {
    }

    lemma ChosenFirst(b: int, size: int)
      requires Blocks() && FirstFit(b, size)
      ensures FirstIn(lists, Free(M()), b, size, mode == Lifo)
    {
      var back := mode == Lifo;
      var i, t :| FirstAt(lists, bsize, b, size, back, i, t);
      forall k | 0 <= k < t ensures SizeIn(Free(M()), Visit(i, lists[i], back, k)) < size {
        VisitIn(i, lists[i], back, k);
        SizesRead(Visit(i, lists[i], back, k));
      }
      forall j, a | 0 <= j < i && a in lists[j] ensures SizeIn(Free(M()), a) < size { SizesRead(a); }
      assert FirstAt(lists, Free(M()), b, size, back, i, t);
    }

    lemma ChosenLeast(b: int, size: int)
      requires Blocks() && LeastFit(b, size)
      ensures exists i, t :: LeastAt(lists, Free(M()), b, size, i, t)
    {
      var i, t :| LeastAt(lists, bsize, b, size, i, t);
      forall k | 0 <= k <= t ensures SizeIn(Free(M()), lists[i][k]) == SizeIn(bsize, lists[i][k]) {
        assert lists[i][k] in lists[i];
        SizesRead(lists[i][k]);
      }
      assert LeastAt(lists, Free(M()), b, size, i, t);
    }

    lemma Chosen(b: int, size: int)
      requires Blocks() && Fits(b, size) && b != 0
      requires mode == Best ==> LeastFit(b, size) && forall a :: Fits(a, size) ==> bsize[b] <= bsize[a]
      requires mode != Best ==> FirstFit(b, size)
      ensures Choice(Free(M()), lists, mode, b, size)
    {
      if mode == Best { ChosenLeast(b, size); } else { ChosenFirst(b, size); }
      forall a | mode == Best && a in Free(M()) && Free(M())[a] >= size ensures Free(M())[b] <= Free(M())[a] {
        assert Fits(a, size);
      }
      assert b in Free(M()) && M().bsize == bsize;
    }

    // The allocation, with what it means for the totals.
    method AllocateFrom(b: int, size: int) returns (buf: int)
      requires Valid() && Fits(b, size) && Choice(Free(M()), lists, mode, b, size) && Aligned(size) && MIN_BLOCK <= size
      modifies this`bsize, this`prevfree, this`flink, this`blink, this`home, this`lists, this`totalloc, this`numget
      ensures Valid() && Surplus() == old(Surplus()) && buf != 0
      ensures HandedBy(old(M()), old(lists), mode, M(), buf - HDR, size) && numget == old(numget) + 1
    {
      ghost var given;
      var a;
      a, given := Allocate(b, size);
      buf := a + HDR;
      HandedOver(old(M()), old(lists), mode, b, M(), a, given, size);
    }

    /** bget up to the point where it turns to the system: the buffer, or 0 and
        the number of bytes to ask the system for. */
    method Bget(requested: int) returns (buf: int, need: int)
      requires Valid()
      modifies this`bsize, this`prevfree, this`flink, this`blink, this`pools, this`home, this`lists, this`bgetList,
               this`queue, this`totalloc, this`numget, this`numrel, this`numprel, this`numpblk, this`lastPool
      ensures Valid() && Surplus() == old(Surplus()) && numget == old(numget) + (if buf != 0 then 1 else 0)
      ensures Rejected(requested) ==>
        buf == need == 0 && M() == old(M()) && Ord() == old(Ord()) && queue == old(queue) && numrel == old(numrel)
      ensures !Rejected(requested) ==> queue == [] && numrel == old(numrel) + |old(queue)|
      ensures !Rejected(requested) && buf != 0 ==>
        && need == 0 && Served(old(M()), old(Ord()), poolLen, old(queue), mode, M(), lastPool, buf - HDR, Padded(requested))
        && Given(old(Live(M())) - Elems(old(queue)), Live(M()), buf, Padded(requested))
        && (old(queue) == [] ==>
              HandedBy(old(M()), old(lists), mode, M(), buf - HDR, Padded(requested)) && lastPool == old(lastPool) && pools == old(pools))
      ensures !Rejected(requested) && buf == 0 ==>
        && Live(M()) == old(Live(M())) - Elems(old(queue)) && Drained(old(M()), old(Ord()), poolLen, old(queue), M(), Ord())
        && (forall a :: !Fits(a, Padded(requested))) && need == Request(Padded(requested), expIncr)
      ensures !Rejected(requested) && ReadyIn(old(M()), Padded(requested)) ==> buf != 0
    {
      if requested < 0 || requested + HDR > MAX_SIZE {
        return 0, 0;
      }
      buf := ServeOne(Padded(requested));
      need := if buf != 0 then 0 else Request(Padded(requested), expIncr);
    }

    // The same, with what it means for the live blocks.
    method ServeOne(size: int) returns (buf: int)
      requires Valid() && Aligned(size) && MIN_BLOCK <= size
      modifies this`bsize, this`prevfree, this`flink, this`blink, this`pools, this`home, this`lists, this`bgetList,
               this`queue, this`totalloc, this`numget, this`numrel, this`numprel, this`numpblk, this`lastPool
      ensures Valid() && Surplus() == old(Surplus()) && numget == old(numget) + (if buf != 0 then 1 else 0)
      ensures queue == [] && numrel == old(numrel) + |old(queue)|
      ensures buf != 0 ==>
        && Served(old(M()), old(Ord()), poolLen, old(queue), mode, M(), lastPool, buf - HDR, size)
        && Given(old(Live(M())) - Elems(old(queue)), Live(M()), buf, size)
        && (old(queue) == [] ==>
              HandedBy(old(M()), old(lists), mode, M(), buf - HDR, size) && lastPool == old(lastPool) && pools == old(pools))
      ensures buf == 0 ==> Drained(old(M()), old(Ord()), poolLen, old(queue), M(), Ord()) && forall a :: !Fits(a, size)
      ensures ReadyIn(old(M()), size) ==> buf != 0
    {
      buf := Serve(size);
      if buf != 0 { ServedMeans(old(M()), old(Ord()), poolLen, old(queue), mode, M(), lastPool, buf, size); }
    }

    // Drain the queue and search.
    method Serve(size: int) returns (buf: int)
      requires Valid() && Aligned(size) && MIN_BLOCK <= size
      modifies this`bsize, this`prevfree, this`flink, this`blink, this`pools, this`home, this`lists, this`bgetList,
               this`queue, this`totalloc, this`numget, this`numrel, this`numprel, this`numpblk, this`lastPool
      ensures Valid() && Surplus() == old(Surplus()) && numget == old(numget) + (if buf != 0 then 1 else 0)
      ensures queue == [] && numrel == old(numrel) + |old(queue)|
      ensures buf != 0 ==> Served(old(M()), old(Ord()), poolLen, old(queue), mode, M(), lastPool, buf - HDR, size)
      ensures buf == 0 ==> Drained(old(M()), old(Ord()), poolLen, old(queue), M(), Ord()) && forall a :: !Fits(a, size)
      ensures ReadyIn(old(M()), size) ==> buf != 0
    {
      Dequeue();
      buf := ServeFrom(size, old(M()), old(Ord()), old(queue));
    }

    // The search, when the queue has been drained since the headers were m0.
    method ServeFrom(size: int, ghost m0: Mem, ghost o0: Order, ghost queue0: seq<int>) returns (buf: int)
      requires Valid() && queue == [] && Aligned(size) && MIN_BLOCK <= size
      requires Layout(m0) && Drained(m0, o0, poolLen, queue0, M(), Ord())
      modifies this`bsize, this`prevfree, this`flink, this`blink, this`home, this`lists, this`totalloc, this`numget
      ensures Valid() && Surplus() == old(Surplus()) && numget == old(numget) + (if buf != 0 then 1 else 0)
      ensures queue == [] && numrel == old(numrel)
      ensures buf != 0 ==> Served(m0, o0, poolLen, queue0, mode, M(), lastPool, buf - HDR, size)
      ensures buf == 0 ==> Drained(m0, o0, poolLen, queue0, M(), Ord()) && forall a :: !Fits(a, size)
      ensures ReadyIn(m0, size) ==> buf != 0
    {
      buf := TryLists(size);
      if buf == 0 { ReadyKept(m0, size); }
    }

    lemma ReadyKept(m: Mem, size: int)
      requires Layout(m) && Layout(M()) && FewerPools(m, M())
      ensures ReadyIn(m, size) ==> Ready(size) && exists b :: Fits(b, size)
    {
      if ReadyIn(m, size) {
        var p :| Empty(m, p) && m.pools[p] - p >= size;
        assert Empty(M(), p);
        ReadyFits(size);
      }
    }

    /** The rest of bget: `region` is the system's answer to a request for
        `need` bytes, 0 for none. Once a pool has been added, the second attempt
        succeeds and needs nothing more from the system. */
    method Expand(requested: int, region: int) returns (buf: int)
      requires Valid() && !Rejected(requested)
      requires region != 0 ==>
        region > 0 && Aligned(region) && Unused(M(), direct, region, Request(Padded(requested), expIncr))
      modifies this`bsize, this`prevfree, this`flink, this`blink, this`pools, this`home, this`lists, this`bgetList,
               this`queue, this`totalloc, this`numget, this`numrel, this`numprel, this`numpget, this`numpblk,
               this`lastPool, this`poolLen, this`lengths, this`tsize, this`direct
      ensures Valid() && Surplus() == old(Surplus()) && numget == old(numget) + (if region != 0 then 1 else 0)
      ensures region == 0 ==> buf == 0 && M() == old(M()) && Ord() == old(Ord()) && direct == old(direct) && queue == old(queue)
      ensures region != 0 && Large(Padded(requested), expIncr) ==>
        && buf == region + DIRECT_HDR && region !in old(direct)
        && direct == old(direct)[region := Padded(requested) + QUANT] && Live(M()) == old(Live(M())) && queue == old(queue)
        && pools == old(pools) && Ord() == old(Ord())
      ensures region != 0 && !Large(Padded(requested), expIncr) ==>
        && Given(old(Live(M())) - Elems(old(queue)), Live(M()), buf, Padded(requested))
        && direct == old(direct) && queue == [] && numrel == old(numrel) + |old(queue)|
        && (old(queue) == [] ==> pools == old(pools)[region := region + RoundDown(expIncr) - HDR] && lastPool == old(lastPool))
        && lengths == old(lengths) + [RoundDown(expIncr)]
    {
      buf := 0;
      if region != 0 {
        buf := ExpandWith(requested, region);
      }
    }

    method ExpandWith(requested: int, region: int) returns (buf: int)
      requires Valid() && !Rejected(requested)
      requires region > 0 && Aligned(region) && Unused(M(), direct, region, Request(Padded(requested), expIncr))
      modifies this`bsize, this`prevfree, this`flink, this`blink, this`pools, this`home, this`lists, this`bgetList,
               this`queue, this`totalloc, this`numget, this`numrel, this`numprel, this`numpget, this`numpblk,
               this`lastPool, this`poolLen, this`lengths, this`tsize, this`direct
      ensures Valid() && Surplus() == old(Surplus()) && numget == old(numget) + 1
      ensures Large(Padded(requested), expIncr) ==>
        && buf == region + DIRECT_HDR && region !in old(direct)
        && direct == old(direct)[region := Padded(requested) + QUANT] && Live(M()) == old(Live(M())) && queue == old(queue)
        && pools == old(pools) && Ord() == old(Ord())
      ensures !Large(Padded(requested), expIncr) ==>
        && Given(old(Live(M())) - Elems(old(queue)), Live(M()), buf, Padded(requested))
        && direct == old(direct) && queue == [] && numrel == old(numrel) + |old(queue)|
        && (old(queue) == [] ==> pools == old(pools)[region := region + RoundDown(expIncr) - HDR] && lastPool == old(lastPool))
        && lengths == old(lengths) + [RoundDown(expIncr)]
    {
      var size := Padded(requested);
      if Large(size, expIncr) {
        buf := ExpandDirect(region, size + QUANT);
      } else {
        buf := ExpandPool(requested, region);
      }
    }

    method ExpandDirect(region: int, size: int) returns (buf: int)
      requires Valid() && size >= DIRECT_HDR
      requires region > 0 && Aligned(region) && Unused(M(), direct, region, size)
      modifies this`bsize, this`prevfree, this`tsize, this`direct, this`totalloc, this`numget
      ensures Valid() && Live(M()) == old(Live(M())) && Surplus() == old(Surplus()) && numget == old(numget) + 1
      ensures buf == region + DIRECT_HDR && region !in old(direct) && direct == old(direct)[region := size]
      ensures pools == old(pools) && Ord() == old(Ord()) && queue == old(queue)
    {
      buf := AcquireDirect(region, size);
    }

    method ExpandPool(requested: int, region: int) returns (buf: int)
      requires Valid() && !Rejected(requested) && !Large(Padded(requested), expIncr)
      requires region > 0 && Aligned(region) && Unused(M(), direct, region, expIncr)
      modifies this`bsize, this`prevfree, this`flink, this`blink, this`pools, this`home, this`lists, this`bgetList,
               this`queue, this`totalloc, this`numget, this`numrel, this`numprel, this`numpget, this`numpblk,
               this`lastPool, this`poolLen, this`lengths
      ensures Valid() && queue == [] && Surplus() == old(Surplus()) && numget == old(numget) + 1 && direct == old(direct)
      ensures Given(old(Live(M())) - Elems(old(queue)), Live(M()), buf, Padded(requested))
      ensures old(queue) == [] ==> pools == old(pools)[region := region + RoundDown(expIncr) - HDR] && lastPool == old(lastPool)
      ensures lengths == old(lengths) + [RoundDown(expIncr)] && numrel == old(numrel) + |old(queue)|
    {
      AddRegion(Padded(requested), region);
      buf := TryAgain(requested);
    }

    lemma PoolHasRoom(m: Mem, p: int, incr: int, size: int)
      requires Homed(m) && Empty(m, p) && m.pools[p] == p + RoundDown(incr) - HDR
      requires Aligned(size) && !Large(size, incr)
      ensures ReadyIn(m, size)
    {
    }

    // The second attempt, which succeeds.
    method TryAgain(requested: int) returns (buf: int)
      requires Valid() && !Rejected(requested) && queue == [] && ReadyIn(M(), Padded(requested))
      modifies this`bsize, this`prevfree, this`flink, this`blink, this`pools, this`home, this`lists, this`bgetList,
               this`queue, this`totalloc, this`numget, this`numrel, this`numprel, this`numpblk, this`lastPool
      ensures Valid() && queue == [] && Surplus() == old(Surplus()) && numget == old(numget) + 1
      ensures Given(old(Live(M())), Live(M()), buf, Padded(requested)) && pools == old(pools) && lastPool == old(lastPool)
      ensures numrel == old(numrel)
    {
      ghost var need;
      assert Live(M()) - Elems([]) == Live(M());
      buf, need := Bget(requested);
    }

    // A new pool of the size that the heap grows by has room for a buffer that is not large.
    method AddRegion(size: int, region: int)
      requires Valid() && Aligned(size) && MIN_BLOCK <= size && !Large(size, expIncr)
      requires region > 0 && Aligned(region) && Unused(M(), direct, region, expIncr)
      modifies this`bsize, this`prevfree, this`flink, this`blink, this`pools, this`home, this`lists, this`bgetList,
               this`queue, this`totalloc, this`numrel, this`numprel, this`numpget, this`numpblk,
               this`lastPool, this`poolLen, this`lengths
      ensures Valid() && queue == [] && Surplus() == old(Surplus())
      ensures Live(M()) == old(Live(M())) - Elems(old(queue)) && ReadyIn(M(), size)
      ensures old(queue) == [] ==> pools == old(pools)[region := region + RoundDown(expIncr) - HDR] && lastPool == old(lastPool)
      ensures lengths == old(lengths) + [RoundDown(expIncr)] && numrel == old(numrel) + |old(queue)|
    {
      ghost var m, o := Bpool(region, expIncr);
      PoolHasRoom(M(), region, expIncr, size);
      NothingDrained(old(M()), old(Ord()), old(poolLen), old(queue), m, o);
    }

    /** brel for a buffer of this heap, called by the thread that owns it. */
    method Release(buf: int) returns (released: int)
      requires Valid() && Outstanding(buf)
      modifies this`bsize, this`prevfree, this`flink, this`blink, this`pools, this`home, this`lists, this`direct,
               this`totalloc, this`numrel, this`numprel, this`numpblk, this`lastPool
      ensures Valid() && Surplus() == old(Surplus()) && numrel == old(numrel) + 1
      ensures old(buf - HDR !in Live(M())) ==>
        && direct == old(direct) - {buf - DIRECT_HDR} && M() == old(M()) && Ord() == old(Ord()) && released == 0
      ensures old(buf - HDR in Live(M())) ==>
        && direct == old(direct) && Live(M()) == old(Live(M())) - {buf - HDR}
        && Releases(old(M()), old(Ord()), poolLen, buf - HDR, M(), Ord())
        && (released == 0 ==> pools == old(pools))
        && (released != 0 ==> Returned(old(M()), buf - HDR, released) && pools == old(pools) - {released})
    {
      DirectOrLive(buf);
      var b := buf - HDR;
      released := 0;
      if bsize[b] == 0 {
        ReleaseDirect(buf - DIRECT_HDR);
      } else {
        released := Brel(b);
      }
    }

    /** __kmp_finalize_bget: give the last pool back if the last release that left
        it whole is still the state of affairs. */
    method Finalize() returns (released: int)
      requires Valid()
      modifies this`pools, this`home, this`flink, this`blink, this`lists, this`numprel, this`numpblk
      ensures released != 0 <==> old(lastPool != 0 && FreeBlock(M(), lastPool) && bsize[lastPool] == poolLen - HDR)
      ensures released != 0 ==>
        released == lastPool && Empty(old(M()), released) && M() == Dropped(old(M()), released) && lists == Off(old(lists), released)
      ensures released == 0 ==> M() == old(M()) && lists == old(lists)
      ensures Blocks() && Live(M()) == old(Live(M())) && numpblk == |pools| && Surplus() == old(Surplus())
    {
      released := 0;
      assert lastPool != 0 ==> PoolAt(M(), lastPool);
      if lastPool != 0 && numpblk != 0 && bsize[lastPool] == poolLen - HDR {
        assert StepAt(M(), lastPool);
        WholePool(M(), lastPool, poolLen);
        WholeIsEmpty(M(), lastPool);
        ReturnPool(lastPool);
        numprel := numprel + 1;
        numpblk := numpblk - 1;
        released := lastPool;
      }
    }

    // buf was handed out by this heap and has not been released.
    ghost predicate Outstanding(buf: int)
      requires Homed(M())
      reads this`pools, this`home, this`bsize, this`prevfree, this`queue, this`direct
    {
      (buf - HDR in Live(M()) && buf - HDR !in queue) || buf - DIRECT_HDR in direct
    }

    lemma DirectOrLive(buf: int)
      requires Valid() && Outstanding(buf)
      ensures buf - HDR in bsize
      ensures bsize[buf - HDR] == 0 <==> buf - HDR !in Live(M())
      ensures if bsize[buf - HDR] == 0 then buf - DIRECT_HDR in direct else buf - HDR !in queue
    {
      assert buf - DIRECT_HDR in direct ==> DirectAt(M(), tsize, direct, buf - DIRECT_HDR);
    }
  }
}
