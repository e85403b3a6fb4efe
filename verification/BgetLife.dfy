/** The end of a heap: its last pool, kept by the releases, goes back with
    the heap. */
module BgetLife {
  import opened BgetDrain
  import opened BgetHeap
  import opened BgetLayout
  import opened Chains
  import opened Sums

  // p is the only pool, and b0 the only live block.
  ghost predicate Only(m: Mem, p: int, b0: int)
    requires Homed(m)
  {
    m.pools.Keys == {p} && Live(m).Keys == {b0}
  }

  // In a pool whose only live block is b0, what comes before and behind it is free.
  lemma OnlyBlock(m: Mem, p: int, b0: int)
    requires Layout(m) && Only(m, p, b0)
    ensures b0 in m.bsize && b0 in m.prevfree && Low(m, b0) == p && Grown(m, b0) == m.pools[p] - p
  {
    assert p in m.pools && b0 in Live(m);
    assert PoolAt(m, p) && m.home[b0] == p;
    assert LiveBlock(m, b0) && StepAt(m, b0) && TagAt(m, b0);
    assert p in Live(m) <==> p == b0;
    assert StepAt(m, p);
    if p != b0 {
      assert FreeBlock(m, p) && MergedAt(m, p) && Before(m, p, b0) && Before(m, b0, m.pools[p]);
      OnlyNext(m, p, b0, Next(m, p));
    }
    BehindOnly(m, p, b0);
  }

  // A header that is neither free nor that of b0 ends the pool.
  lemma OnlyNext(m: Mem, p: int, b0: int, n: int)
    requires Layout(m) && Only(m, p, b0) && n in m.home && !FreeBlock(m, n)
    ensures n == b0 || n == m.pools[p]
  {
    assert Block(m, n) ==> (n in Live(m) <==> LiveBlock(m, n));
    assert Block(m, n) ==> StepAt(m, n);
  }

  lemma BehindOnly(m: Mem, p: int, b0: int)
    requires Layout(m) && Only(m, p, b0)
    ensures b0 in m.bsize && var n := Next(m, b0);
            n in m.bsize && n + (if m.bsize[n] > 0 then m.bsize[n] else 0) == m.pools[p]
  {
    assert p in m.pools && b0 in Live(m);
    assert PoolAt(m, p) && LiveBlock(m, b0) && StepAt(m, b0);
    var n := Next(m, b0);
    if FreeBlock(m, n) {
      assert StepAt(m, n) && MergedAt(m, n) && n != b0;
      OnlyNext(m, p, b0, Next(m, n));
    } else {
      OnlyNext(m, p, b0, n);
    }
  }

  lemma WholeInTheEnd(m: Mem, r: Mem, p: int, b0: int, poolLen: int)
    requires Layout(m) && Layout(r) && Only(m, p, b0) && r.pools == m.pools && Live(r) == Live(m) - {b0}
    requires poolLen > 0 && Sized(m.pools, poolLen)
    ensures p != 0 && FreeBlock(r, p) && r.bsize[p] == poolLen - HDR && Live(r) == map[]
  {
    assert PoolAt(r, p) && Live(r) == map[];
    assert Empty(r, p);
    EmptyIsWhollyFree(r, p);
    assert StepAt(r, p);
  }

  lemma OneKey<K, V>(m: map<K, V>, k: K)
    requires m.Keys == {k}
    ensures |m| == 1 && k in m && m - {k} == map[]
  {
    assert |m.Keys| == |m|;
  }

  // What the release of the last live block comes to.
  lemma LastRelease(m: Mem, o: Order, p: int, b0: int, poolLen: int, r: Mem, o': Order)
    requires Layout(m) && Only(m, p, b0) && poolLen > 0 && Sized(m.pools, poolLen) && Releases(m, o, poolLen, b0, r, o')
    ensures r.pools == m.pools && r.pools.Keys == {p} && p != 0 && o'.last == p && Live(r) == map[]
    ensures FreeBlock(r, p) && r.bsize[p] == poolLen - HDR
  {
    OnlyBlock(m, p, b0);
    OneKey(m.pools, p);
    OneKey(Live(m), b0);
    WholeInTheEnd(m, r, p, b0, poolLen);
  }

  method ReleaseOnly(h: Heap, p: int, buf: int)
    requires h.Valid() && h.queue == [] && h.poolLen > 0 && Only(h.M(), p, buf - HDR)
    modifies h
    ensures h.Valid() && h.lastPool == p != 0 && FreeBlock(h.M(), p) && h.bsize[p] == h.poolLen - HDR && Live(h.M()) == map[]
    ensures h.pools == old(h.pools) && h.direct == old(h.direct) && h.numrel == old(h.numrel) + 1 && h.numget == old(h.numget)
  {
    ghost var m, o, b0 := h.M(), h.Ord(), buf - HDR;
    assert b0 in Live(m);
    var none := h.Release(buf);
    LastRelease(m, o, p, b0, h.poolLen, h.M(), h.Ord());
  }

  lemma LastDropped(m: Mem, p: int, r: Mem)
    requires p in m.pools && m.pools.Keys == {p} && r == Dropped(m, p)
    ensures r.pools == map[] && |r.pools| == 0
  {
    OneKey(m.pools, p);
  }

  /** The release of the only live buffer of a heap with one pool notes the pool,
      and a __kmp_finalize_bget that follows gives it back. */
  method ReleaseLast(h: Heap, p: int, buf: int) returns (released: int)
    requires h.Valid() && h.queue == [] && h.poolLen > 0 && Only(h.M(), p, buf - HDR)
    modifies h
    ensures released == p && h.pools == map[] && h.numpblk == 0 && h.direct == old(h.direct)
    ensures Homed(h.M()) && Live(h.M()) == map[]
    ensures h.numrel == old(h.numrel) + 1 && h.numget == old(h.numget)
  {
    ReleaseOnly(h, p, buf);
    released := FinalizeOnly(h, p);
  }

  method FinalizeOnly(h: Heap, p: int) returns (released: int)
    requires h.Valid() && h.lastPool == p != 0 && FreeBlock(h.M(), p) && h.bsize[p] == h.poolLen - HDR && h.pools.Keys == {p}
    modifies h`pools, h`home, h`flink, h`blink, h`lists, h`numprel, h`numpblk
    ensures released == p && h.pools == map[] && h.numpblk == 0 && Homed(h.M()) && Live(h.M()) == old(Live(h.M()))
  {
    ghost var m := h.M();
    released := h.Finalize();
    LastDropped(m, p, h.M());
  }

  lemma FirstKey<K, V>(m: map<K, V>, k: K, v: V)
    requires m == map[]
    ensures m[k := v].Keys == {k}
  {
  }

  lemma NothingLive(m: Mem)
    requires m == Mem(map[], map[], map[], map[])
    ensures Layout(m) && Live(m) == map[] && Live(m) - Elems([]) == map[]
  {
  }

  // The first pool holds the one buffer.
  lemma FirstPool(m: Mem, none: map<int, int>, r: Mem, region: int, buf: int, size: int)
    requires m == Mem(map[], map[], map[], map[]) && Homed(r) && none == Live(m) - Elems([])
    requires Given(none, Live(r), buf, size) && r.pools.Keys == {region}
    ensures Only(r, region, buf - HDR)
  {
    NothingLive(m);
  }

  method ServeFirst(h: Heap, requested: int, region: int) returns (buf: int)
    requires h.Valid() && h.M() == Mem(map[], map[], map[], map[]) && h.direct == map[] && h.queue == [] && h.lengths == []
    requires !Rejected(requested) && !Large(Padded(requested), h.expIncr) && region > 0 && Aligned(region)
    modifies h
    ensures h.Valid() && h.queue == [] && h.poolLen > 0 && Only(h.M(), region, buf - HDR)
    ensures h.numget == old(h.numget) + 1 && h.numrel == old(h.numrel)
  {
    ghost var m, none := h.M(), Live(h.M()) - Elems(h.queue);
    assert Unused(m, h.direct, region, Request(Padded(requested), h.expIncr));
    FirstKey(h.pools, region, region + RoundDown(h.expIncr) - HDR);
    CommonNext(h.lengths, RoundDown(h.expIncr));
    buf := h.Expand(requested, region);
    assert h.pools.Keys == {region} && Given(none, Live(h.M()), buf, Padded(requested));
    FirstPool(m, none, h.M(), region, buf, Padded(requested));
  }

  /** A heap from its beginning to its end, for one request: the pool that the system
      gives serves it, and after its release __kmp_finalize_bget hands exactly that
      pool back. */
  method WholeLife(mode: Mode, poolIncr: int, requested: int, region: int) returns (h: Heap, buf: int, released: int)
    requires !Rejected(requested) && !Large(Padded(requested), poolIncr) && region > 0 && Aligned(region)
    ensures fresh(h) && released == region && h.pools == map[] && h.numpblk == 0 && h.numget == h.numrel == 1
  {
    h := new Heap(mode, poolIncr);
    buf := ServeFirst(h, requested, region);
    released := ReleaseLast(h, region, buf);
  }
}
