/** The boundary tags of a heap: how the block headers of the pools relate to
    each other, and what carving, freeing and merging blocks does to them.
    Addresses are byte addresses; a block is named by the address of its header. */
module BgetLayout {

  const HDR := 32         // sizeof(bhead_t)
  const QUANT := 16       // SizeQuant, which is also SizeQ
  const MIN_BLOCK := 48   // a header and room for the two list links
  const ESENT := -0x8000_0000_0000_0000   // size field of the dummy block that ends a pool

  // pools: start of each pool -> address of the dummy block that ends it
  // home:  header address -> start of the pool it lies in, for every header in use
  // bsize, prevfree: the two fields of the headers
  datatype Mem = Mem(pools: map<int, int>, home: map<int, int>, bsize: map<int, int>, prevfree: map<int, int>)

  predicate Aligned(x: int) {
    x % 16 == 0
  }

  // The largest aligned number up to x.
  function RoundDown(x: int): (r: int)
    ensures Aligned(r) && x - QUANT < r <= x
  {
    x - x % 16
  }

  function Abs(x: int): nat {
    if x < 0 then -x else x
  }

  ghost predicate Homed(m: Mem) {
    forall a :: a in m.home ==>
      && a in m.bsize && a in m.prevfree
      && m.home[a] in m.pools && m.home[a] <= a <= m.pools[m.home[a]]
  }

  // The header of a block proper, as opposed to the dummy that ends a pool.
  ghost predicate Block(m: Mem, a: int)
    requires Homed(m)
  {
    a in m.home && a != m.pools[m.home[a]]
  }

  function Next(m: Mem, a: int): int
    requires a in m.bsize
  {
    a + Abs(m.bsize[a])
  }

  // A pool starts with a block not preceded by a free one, and ends with its dummy block.
  ghost predicate PoolAt(m: Mem, p: int)
    requires p in m.pools
  {
    && 0 < p < m.pools[p] && Aligned(p)
    && p in m.home && m.home[p] == p && m.pools[p] in m.home && m.home[m.pools[p]] == p
    && m.pools[p] in m.bsize && m.bsize[m.pools[p]] == ESENT
    && p in m.prevfree && m.prevfree[p] == 0
  }

  ghost predicate PoolBefore(m: Mem, p: int, q: int)
    requires p in m.pools
  {
    m.pools[p] + HDR <= q
  }

  ghost predicate Bounded(m: Mem) {
    && (forall p {:trigger PoolAt(m, p)} :: p in m.pools ==> PoolAt(m, p))
    && (forall p, q {:trigger PoolBefore(m, p, q)} :: p in m.pools && q in m.pools && p < q ==> PoolBefore(m, p, q))
  }

  // A block ends where the next header starts, and that header says whether it ends a free block.
  ghost predicate StepAt(m: Mem, a: int)
    requires Homed(m) && Block(m, a)
  {
    && Abs(m.bsize[a]) >= MIN_BLOCK && Aligned(Abs(m.bsize[a]))
    && Next(m, a) in m.home && m.home[Next(m, a)] == m.home[a]
    && m.prevfree[Next(m, a)] == (if m.bsize[a] > 0 then m.bsize[a] else 0)
  }

  ghost predicate Stepped(m: Mem)
    requires Homed(m)
  {
    forall a {:trigger StepAt(m, a)} :: Block(m, a) ==> StepAt(m, a)
  }

  ghost predicate Before(m: Mem, a: int, b: int)
    requires Homed(m) && Block(m, a)
  {
    Next(m, a) <= b
  }

  ghost predicate Separate(m: Mem)
    requires Homed(m)
  {
    forall a, b {:trigger Before(m, a, b)} ::
      Block(m, a) && b in m.home && m.home[b] == m.home[a] && a < b ==> Before(m, a, b)
  }

  // A non-zero back tag leads to the start of a free block that ends right here.
  ghost predicate TagAt(m: Mem, a: int)
    requires Homed(m) && a in m.home
  {
    m.prevfree[a] != 0 ==>
      && m.prevfree[a] > 0
      && Block(m, a - m.prevfree[a]) && m.home[a - m.prevfree[a]] == m.home[a]
      && m.bsize[a - m.prevfree[a]] == m.prevfree[a]
  }

  ghost predicate Tagged(m: Mem)
    requires Homed(m)
  {
    forall a {:trigger TagAt(m, a)} :: a in m.home ==> TagAt(m, a)
  }

  // All of the layout invariant except that free neighbours have been merged.
  ghost predicate Tiled(m: Mem) {
    Homed(m) && Bounded(m) && Stepped(m) && Separate(m) && Tagged(m)
  }

  ghost predicate FreeBlock(m: Mem, a: int)
    requires Homed(m)
  {
    Block(m, a) && m.bsize[a] > 0
  }

  ghost predicate LiveBlock(m: Mem, a: int)
    requires Homed(m)
  {
    Block(m, a) && m.bsize[a] < 0
  }

  // No free block follows block a.
  ghost predicate MergedAt(m: Mem, a: int)
    requires Homed(m) && Block(m, a)
  {
    !FreeBlock(m, Next(m, a))
  }

  ghost predicate Merged(m: Mem)
    requires Homed(m)
  {
    forall a {:trigger MergedAt(m, a)} :: FreeBlock(m, a) ==> MergedAt(m, a)
  }

  /** The layout invariant of the heap. */
  ghost predicate Layout(m: Mem) {
    Tiled(m) && Merged(m)
  }

  function Opposite(b: map<int, int>): map<int, int> {
    map a | a in b :: -b[a]
  }

  // The live blocks and their sizes.
  ghost function Live(m: Mem): map<int, int>
    requires Homed(m)
  {
    Opposite(m.bsize) - set a | a in m.bsize && !(a in m.home && LiveBlock(m, a))
  }

  ghost function Free(m: Mem): map<int, int>
    requires Homed(m)
  {
    m.bsize - set a | a in m.bsize && !(a in m.home && FreeBlock(m, a))
  }

  // ---------- the four ways in which the headers change ----------

  // Cut `size` bytes off the high end of free block b.
  ghost function Carved(m: Mem, b: int, size: int): Mem
    requires b in m.home && b in m.bsize
  {
    var rest := m.bsize[b] - size;
    m.(home := m.home[b + rest := m.home[b]],
       bsize := m.bsize[b := rest][b + rest := -size],
       prevfree := m.prevfree[b + rest := rest][b + rest + size := 0])
  }

  // Hand out free block b whole.
  ghost function Taken(m: Mem, b: int): Mem
    requires b in m.bsize
  {
    m.(bsize := m.bsize[b := -m.bsize[b]], prevfree := m.prevfree[b + m.bsize[b] := 0])
  }

  // Turn live block b into a free one.
  ghost function Freed(m: Mem, b: int): Mem
    requires b in m.bsize
  {
    m.(bsize := m.bsize[b := -m.bsize[b]], prevfree := m.prevfree[b - m.bsize[b] := -m.bsize[b]])
  }

  // Merge free block b with the free block that follows it.
  ghost function Joined(m: Mem, b: int): Mem
    requires b in m.bsize && b + m.bsize[b] in m.bsize
  {
    var n := b + m.bsize[b];
    var size := m.bsize[b] + m.bsize[n];
    m.(home := m.home - {n}, bsize := m.bsize[b := size], prevfree := m.prevfree[b + size := size])
  }

  // A header inside a block, or right behind it, belongs to the block's own pool.
  lemma InOnePool(m: Mem, b: int, c: int)
    requires Tiled(m) && Block(m, b) && c in m.home && b <= c <= Next(m, b)
    ensures m.home[c] == m.home[b]
  {
    var p, q := m.home[b], m.home[c];
    assert PoolAt(m, p) && PoolAt(m, q) && StepAt(m, b);
    assert p < q ==> PoolBefore(m, p, q);
    assert q < p ==> PoolBefore(m, q, p);
  }

  // No header lies strictly inside a block.
  lemma NoHeaderInside(m: Mem, b: int, c: int)
    requires Tiled(m) && Block(m, b)
    ensures b < c < Next(m, b) ==> c !in m.home
  {
    assert c in m.home && m.home[c] == m.home[b] && b < c ==> Before(m, b, c);
    if c in m.home && b < c < Next(m, b) {
      InOnePool(m, b, c);
    }
  }

  // Two blocks do not end at the same place.
  lemma NextIsUnique(m: Mem, a: int, b: int)
    requires Tiled(m) && Block(m, a) && Block(m, b)
    ensures Next(m, a) == Next(m, b) ==> a == b
  {
    assert StepAt(m, a) && StepAt(m, b);
    assert m.home[a] == m.home[b] && a < b ==> Before(m, a, b);
    assert m.home[a] == m.home[b] && b < a ==> Before(m, b, a);
  }

  // ---------- carving ----------

  ghost predicate Carvable(m: Mem, b: int, size: int) {
    && Tiled(m) && FreeBlock(m, b)
    && Aligned(size) && MIN_BLOCK <= size <= m.bsize[b] - MIN_BLOCK
  }

  lemma CarvedHomed(m: Mem, b: int, size: int)
    requires Carvable(m, b, size)
    ensures b + m.bsize[b] - size !in m.home
    ensures Homed(Carved(m, b, size)) && Bounded(Carved(m, b, size))
  {
    NoHeaderInside(m, b, b + m.bsize[b] - size);
    assert StepAt(m, b) && PoolAt(m, m.home[b]);
    var m' := Carved(m, b, size);
    forall p | p in m.pools ensures PoolAt(m', p) { assert PoolAt(m, p); }
    forall p, q | p in m.pools && q in m.pools && p < q ensures PoolBefore(m', p, q) { assert PoolBefore(m, p, q); }
  }

  lemma CarvedStepped(m: Mem, b: int, size: int)
    requires Carvable(m, b, size)
    ensures Homed(Carved(m, b, size)) && Stepped(Carved(m, b, size))
  {
    CarvedHomed(m, b, size);
    var m', c := Carved(m, b, size), b + m.bsize[b] - size;
    assert StepAt(m, b);
    forall a | Block(m', a) ensures StepAt(m', a) {
      if a != c {
        assert StepAt(m, a);
        NextIsUnique(m, a, b);
      }
    }
  }

  lemma CarvedSeparate(m: Mem, b: int, size: int)
    requires Carvable(m, b, size)
    ensures Homed(Carved(m, b, size)) && Separate(Carved(m, b, size)) && Tagged(Carved(m, b, size))
  {
    CarvedHomed(m, b, size);
    var m', c := Carved(m, b, size), b + m.bsize[b] - size;
    assert StepAt(m, b);
    forall x, y | Block(m', x) && y in m'.home && m'.home[y] == m'.home[x] && x < y ensures Before(m', x, y) {
      assert x != c && y != c ==> Before(m, x, y);
      assert y == c && x < b ==> Before(m, x, b);
      assert y == c && b < x ==> Before(m, b, x);
      assert x == c ==> Before(m, b, y);
    }
    forall a | a in m'.home ensures TagAt(m', a) {
      assert a != c ==> TagAt(m, a);
    }
  }

  lemma CarvedKeepsTiling(m: Mem, b: int, size: int)
    requires Carvable(m, b, size)
    ensures Tiled(Carved(m, b, size))
  {
    CarvedHomed(m, b, size);
    CarvedStepped(m, b, size);
    CarvedSeparate(m, b, size);
  }

  // ---------- handing out whole, and freeing ----------

  lemma TakenStepped(m: Mem, b: int)
    requires Tiled(m) && FreeBlock(m, b)
    ensures Homed(Taken(m, b)) && Bounded(Taken(m, b)) && Stepped(Taken(m, b))
  {
    var m' := Taken(m, b);
    assert StepAt(m, b) && PoolAt(m, m.home[b]);
    forall p | p in m.pools ensures PoolAt(m', p) { assert PoolAt(m, p); }
    forall p, q | p in m.pools && q in m.pools && p < q ensures PoolBefore(m', p, q) { assert PoolBefore(m, p, q); }
    forall a | Block(m', a) ensures StepAt(m', a) { assert StepAt(m, a); NextIsUnique(m, a, b); }
  }

  lemma TakenKeepsTiling(m: Mem, b: int)
    requires Tiled(m) && FreeBlock(m, b)
    ensures Tiled(Taken(m, b))
  {
    TakenStepped(m, b);
    var m' := Taken(m, b);
    assert StepAt(m, b);
    forall x, y | Block(m', x) && y in m'.home && m'.home[y] == m'.home[x] && x < y ensures Before(m', x, y) {
      assert Before(m, x, y);
    }
    forall a | a in m'.home ensures TagAt(m', a) { assert TagAt(m, a); }
  }

  lemma FreedStepped(m: Mem, b: int)
    requires Tiled(m) && LiveBlock(m, b)
    ensures Homed(Freed(m, b)) && Bounded(Freed(m, b)) && Stepped(Freed(m, b))
  {
    var m' := Freed(m, b);
    assert StepAt(m, b) && PoolAt(m, m.home[b]);
    forall p | p in m.pools ensures PoolAt(m', p) { assert PoolAt(m, p); }
    forall p, q | p in m.pools && q in m.pools && p < q ensures PoolBefore(m', p, q) { assert PoolBefore(m, p, q); }
    forall a | Block(m', a) ensures StepAt(m', a) { assert StepAt(m, a); NextIsUnique(m, a, b); }
  }

  lemma FreedKeepsTiling(m: Mem, b: int)
    requires Tiled(m) && LiveBlock(m, b)
    ensures Tiled(Freed(m, b))
  {
    FreedStepped(m, b);
    var m' := Freed(m, b);
    assert StepAt(m, b);
    forall x, y | Block(m', x) && y in m'.home && m'.home[y] == m'.home[x] && x < y ensures Before(m', x, y) {
      assert Before(m, x, y);
    }
    forall a | a in m'.home ensures TagAt(m', a) { assert TagAt(m, a); }
  }

  // ---------- merging ----------

  lemma JoinedStepped(m: Mem, b: int)
    requires Tiled(m) && FreeBlock(m, b) && FreeBlock(m, Next(m, b))
    ensures Homed(Joined(m, b)) && Stepped(Joined(m, b))
  {
    var m', n := Joined(m, b), Next(m, b);
    assert StepAt(m, b) && StepAt(m, n);
    forall a | Block(m', a) ensures StepAt(m', a) {
      assert StepAt(m, a);
      NextIsUnique(m, a, b);
      NextIsUnique(m, a, n);
    }
  }

  lemma JoinedBounded(m: Mem, b: int)
    requires Tiled(m) && FreeBlock(m, b) && FreeBlock(m, Next(m, b))
    ensures Bounded(Joined(m, b))
  {
    var m', n := Joined(m, b), Next(m, b);
    assert StepAt(m, b) && StepAt(m, n) && PoolAt(m, m.home[b]);
    forall p | p in m.pools ensures PoolAt(m', p) { assert PoolAt(m, p); }
    forall p, q | p in m.pools && q in m.pools && p < q ensures PoolBefore(m', p, q) { assert PoolBefore(m, p, q); }
  }

  lemma JoinedKeepsTiling(m: Mem, b: int)
    requires Tiled(m) && FreeBlock(m, b) && FreeBlock(m, Next(m, b))
    ensures Tiled(Joined(m, b))
  {
    JoinedStepped(m, b);
    JoinedBounded(m, b);
    var m', n := Joined(m, b), Next(m, b);
    assert StepAt(m, b) && StepAt(m, n);
    forall x, y | Block(m', x) && y in m'.home && m'.home[y] == m'.home[x] && x < y ensures Before(m', x, y) {
      assert Before(m, x, y);
      assert x == b && n < y ==> Before(m, n, y);
      assert x == b ==> Before(m, b, y);
    }
    forall a | a in m'.home ensures TagAt(m', a) { assert TagAt(m, a); }
  }

  // ---------- releasing: free, then merge with both neighbours ----------

  // Only block x may still have a free neighbour.
  ghost predicate MergedBut(m: Mem, x: int)
    requires Homed(m)
  {
    forall a {:trigger MergedAt(m, a)} :: FreeBlock(m, a) && a != x && Next(m, a) != x ==> MergedAt(m, a)
  }

  lemma FreedMergedBut(m: Mem, b: int)
    requires Layout(m) && LiveBlock(m, b)
    ensures Tiled(Freed(m, b)) && FreeBlock(Freed(m, b), b) && MergedBut(Freed(m, b), b)
  {
    FreedKeepsTiling(m, b);
    var m' := Freed(m, b);
    forall a | FreeBlock(m', a) && a != b && Next(m', a) != b ensures MergedAt(m', a) { assert MergedAt(m, a); }
  }

  lemma JoinedWithPrevious(m: Mem, b: int)
    requires Layout(m) && LiveBlock(m, b) && m.prevfree[b] != 0
    ensures var f, p := Freed(m, b), b - m.prevfree[b];
            && Tiled(f) && FreeBlock(f, p) && FreeBlock(f, b) && Next(f, p) == b
            && var g := Joined(f, p);
               Tiled(g) && FreeBlock(g, p) && MergedBut(g, p) && g.prevfree[p] == 0
  {
    FreedMergedBut(m, b);
    var f, p := Freed(m, b), b - m.prevfree[b];
    assert TagAt(m, b) && TagAt(m, p);
    assert m.prevfree[p] != 0 ==> MergedAt(m, p - m.prevfree[p]);
    JoinedKeepsTiling(f, p);
    var g := Joined(f, p);
    forall a | FreeBlock(g, a) && a != p && Next(g, a) != p ensures MergedAt(g, a) {
      NextIsUnique(f, a, p);
      assert MergedAt(f, a);
    }
  }

  lemma JoinedWithNext(g: Mem, x: int)
    requires Tiled(g) && FreeBlock(g, x) && MergedBut(g, x) && g.prevfree[x] == 0
    ensures !FreeBlock(g, Next(g, x)) ==> Layout(g)
    ensures FreeBlock(g, Next(g, x)) ==> Layout(Joined(g, x)) && FreeBlock(Joined(g, x), x)
  {
    forall a | FreeBlock(g, a) ensures Next(g, a) != x { assert StepAt(g, a); }
    var n := Next(g, x);
    if FreeBlock(g, n) {
      JoinedKeepsTiling(g, x);
      var h := Joined(g, x);
      assert MergedAt(g, n);
      forall a | FreeBlock(h, a) ensures MergedAt(h, a) {
        assert a != x ==> MergedAt(g, a);
        NextIsUnique(g, a, x);
      }
    } else {
      forall a | FreeBlock(g, a) ensures MergedAt(g, a) {}
    }
  }

  lemma CarvedKeepsLayout(m: Mem, b: int, size: int)
    requires Layout(m) && Carvable(m, b, size)
    ensures Layout(Carved(m, b, size))
  {
    CarvedKeepsTiling(m, b, size);
    CarvedHomed(m, b, size);
    var m' := Carved(m, b, size);
    forall a | FreeBlock(m', a) ensures MergedAt(m', a) { assert MergedAt(m, a); }
  }

  lemma TakenKeepsLayout(m: Mem, b: int)
    requires Layout(m) && FreeBlock(m, b)
    ensures Layout(Taken(m, b))
  {
    TakenKeepsTiling(m, b);
    var m' := Taken(m, b);
    forall a | FreeBlock(m', a) ensures MergedAt(m', a) { assert MergedAt(m, a); }
  }

  // ---------- what each change does to the live and the free blocks ----------

  lemma CarvedContents(m: Mem, b: int, size: int)
    requires Carvable(m, b, size)
    ensures var m', c := Carved(m, b, size), b + m.bsize[b] - size;
            && Homed(m') && c !in Live(m)
            && Live(m') == Live(m)[c := size] && Free(m') == Free(m)[b := m.bsize[b] - size]
  {
    CarvedHomed(m, b, size);
    assert StepAt(m, b);
  }

  lemma TakenContents(m: Mem, b: int)
    requires Tiled(m) && FreeBlock(m, b)
    ensures Homed(Taken(m, b))
    ensures Live(Taken(m, b)) == Live(m)[b := m.bsize[b]] && Free(Taken(m, b)) == Free(m) - {b}
  {
    TakenKeepsTiling(m, b);
  }

  lemma FreedContents(m: Mem, b: int)
    requires Tiled(m) && LiveBlock(m, b)
    ensures Homed(Freed(m, b))
    ensures Live(Freed(m, b)) == Live(m) - {b} && Free(Freed(m, b)) == Free(m)[b := -m.bsize[b]]
  {
    FreedKeepsTiling(m, b);
  }

  lemma JoinedContents(m: Mem, b: int)
    requires Tiled(m) && FreeBlock(m, b) && FreeBlock(m, Next(m, b))
    ensures Homed(Joined(m, b))
    ensures Live(Joined(m, b)) == Live(m)
    ensures var n := Next(m, b); Free(Joined(m, b)) == (Free(m) - {n})[b := m.bsize[b] + m.bsize[n]]
  {
    JoinedKeepsTiling(m, b);
  }

  // ---------- releasing as one step ----------

  // The start of the free block that b becomes part of on the low side.
  ghost function Low(m: Mem, b: int): int
    requires b in m.prevfree
  {
    b - m.prevfree[b]
  }

  // Block b freed and merged with a free block before it.
  ghost function AfterPrevious(m: Mem, b: int): Mem
    requires Layout(m) && LiveBlock(m, b)
  {
    if m.prevfree[b] == 0 then Freed(m, b)
    else JoinedWithPrevious(m, b); Joined(Freed(m, b), Low(m, b))
  }

  // Free block x merged with a free block after it.
  ghost function AfterNext(g: Mem, x: int): Mem
    requires Homed(g) && FreeBlock(g, x) && Next(g, x) in g.bsize
  {
    if g.bsize[Next(g, x)] > 0 then Joined(g, x) else g
  }

  lemma AfterPreviousFacts(m: Mem, b: int)
    requires Layout(m) && LiveBlock(m, b)
    ensures var g, x := AfterPrevious(m, b), Low(m, b);
            && Tiled(g) && FreeBlock(g, x) && MergedBut(g, x) && g.prevfree[x] == 0 && Next(g, x) in g.bsize
            && x <= b && Next(g, x) == Next(m, b) && g.pools == m.pools
            && (m.prevfree[b] != 0 ==> FreeBlock(m, x) && m.bsize[x] == m.prevfree[b])
            && g.bsize[x] == m.prevfree[b] - m.bsize[b]
  {
    assert TagAt(m, b) && StepAt(m, b);
    if m.prevfree[b] == 0 { FreedMergedBut(m, b); } else { JoinedWithPrevious(m, b); }
    assert StepAt(AfterPrevious(m, b), Low(m, b));
  }

  lemma AfterPreviousContents(m: Mem, b: int)
    requires Layout(m) && LiveBlock(m, b)
    ensures var g, x := AfterPrevious(m, b), Low(m, b);
            && Homed(g) && Live(g) == Live(m) - {b} && x in Free(g) && Free(g) == Free(m)[x := g.bsize[x]]
  {
    AfterPreviousFacts(m, b);
    FreedContents(m, b);
    if m.prevfree[b] != 0 {
      JoinedWithPrevious(m, b);
      JoinedContents(Freed(m, b), Low(m, b));
    }
  }

  lemma AfterNextFacts(g: Mem, x: int)
    requires Tiled(g) && FreeBlock(g, x) && MergedBut(g, x) && g.prevfree[x] == 0 && Next(g, x) in g.bsize
    ensures var h, n := AfterNext(g, x), Next(g, x);
            && Layout(h) && FreeBlock(h, x) && h.pools == g.pools
            && Live(h) == Live(g) && Free(h) == (Free(g) - {n})[x := h.bsize[x]] && x != n
            && (g.bsize[n] > 0 <==> n in Free(g))
            && h.bsize[x] == g.bsize[x] + if g.bsize[n] > 0 then g.bsize[n] else 0
  {
    var n := Next(g, x);
    assert StepAt(g, x) && PoolAt(g, g.home[x]);
    JoinedWithNext(g, x);
    if g.bsize[n] > 0 { JoinedContents(g, x); }
  }

  // The headers as the release routine leaves them: only the size of the merged
  // block and the tag behind it have been written.
  ghost function Released(m: Mem, b: int): Mem
    requires Layout(m) && LiveBlock(m, b)
  {
    AfterPreviousFacts(m, b);
    var x := Low(m, b);
    var h := AfterNext(AfterPrevious(m, b), x);
    Mem(m.pools, h.home, m.bsize[x := h.bsize[x]], m.prevfree[x + h.bsize[x] := h.bsize[x]])
  }

  lemma ReleasedKeepsLayout(m: Mem, b: int)
    requires Layout(m) && LiveBlock(m, b)
    ensures var m', x := Released(m, b), Low(m, b);
            && Layout(m') && FreeBlock(m', x) && Live(m') == Live(m) - {b}
            && Free(m') == (Free(m) - {Next(m, b)})[x := m'.bsize[x]]
  {
    var g, x := AfterPrevious(m, b), Low(m, b);
    AfterPreviousFacts(m, b);
    AfterPreviousContents(m, b);
    AfterNextFacts(g, x);
    ReleasedTags(m, b);
    SameTagsSameLayout(AfterNext(g, x), Released(m, b));
  }

  lemma ReleasedTags(m: Mem, b: int)
    requires Layout(m) && LiveBlock(m, b)
    requires var g, x := AfterPrevious(m, b), Low(m, b);
             Homed(g) && FreeBlock(g, x) && Next(g, x) in g.bsize && Layout(AfterNext(g, x))
    ensures SameTags(AfterNext(AfterPrevious(m, b), Low(m, b)), Released(m, b))
  {
    var h, r := AfterNext(AfterPrevious(m, b), Low(m, b)), Released(m, b);
    ReleasedSizes(m, b);
    forall a | a in h.home ensures a in h.prevfree && a in r.prevfree && r.prevfree[a] == h.prevfree[a] {
      ReleasedTag(m, b, a);
    }
  }

  lemma ReleasedTag(m: Mem, b: int, a: int)
    requires Layout(m) && LiveBlock(m, b)
    requires var g, x := AfterPrevious(m, b), Low(m, b);
             Homed(g) && FreeBlock(g, x) && Next(g, x) in g.bsize && Homed(AfterNext(g, x)) && a in AfterNext(g, x).home
    ensures var h, r := AfterNext(AfterPrevious(m, b), Low(m, b)), Released(m, b);
            a in h.prevfree && a in r.prevfree && r.prevfree[a] == h.prevfree[a]
  {
    assert StepAt(m, b) && TagAt(m, b);
  }

  lemma ReleasedSizes(m: Mem, b: int)
    requires Layout(m) && LiveBlock(m, b)
    requires var g, x := AfterPrevious(m, b), Low(m, b); Homed(g) && FreeBlock(g, x) && Next(g, x) in g.bsize
    ensures var h, x := AfterNext(AfterPrevious(m, b), Low(m, b)), Low(m, b);
            forall a :: a in h.home && a in h.bsize ==>
              x in h.bsize && a in m.bsize[x := h.bsize[x]] && h.bsize[a] == m.bsize[x := h.bsize[x]][a]
  {
    assert StepAt(m, b) && TagAt(m, b);
  }

  // ---------- adding and dropping pools ----------

  ghost function Added(m: Mem, p: int, len: int): Mem {
    var end := p + len - HDR;
    Mem(m.pools[p := end], m.home[p := p][end := p],
        m.bsize[p := len - HDR][end := ESENT], m.prevfree[p := 0][end := len - HDR])
  }

  ghost predicate Beside(m: Mem, p: int, len: int, q: int)
    requires q in m.pools
  {
    p + len <= q || m.pools[q] + HDR <= p
  }

  // The bytes from p up to p + len do not meet any pool.
  ghost predicate Vacant(m: Mem, p: int, len: int) {
    forall q {:trigger Beside(m, p, len, q)} :: q in m.pools ==> Beside(m, p, len, q)
  }

  ghost predicate Addable(m: Mem, p: int, len: int) {
    && Layout(m) && p > 0 && Aligned(p) && Aligned(len)
    && len >= HDR + MIN_BLOCK && Vacant(m, p, len)
  }

  lemma AddedFresh(m: Mem, p: int, len: int)
    requires Addable(m, p, len)
    ensures p !in m.home && p + len - HDR !in m.home && p !in m.pools
    ensures forall a :: a in m.home ==> m.home[a] != p && m.home[a] in m.pools
  {
    forall q | q in m.pools ensures q < m.pools[q] && q != p { assert PoolAt(m, q) && Beside(m, p, len, q); }
    forall a | a in m.home ensures m.home[a] != p && a != p && a != p + len - HDR {
      assert Beside(m, p, len, m.home[a]);
    }
  }

  lemma AddedBounded(m: Mem, p: int, len: int)
    requires Addable(m, p, len)
    ensures Bounded(Added(m, p, len)) && Homed(Added(m, p, len))
  {
    AddedFresh(m, p, len);
    var m' := Added(m, p, len);
    forall q | q in m'.pools ensures PoolAt(m', q) { assert q != p ==> PoolAt(m, q); }
    forall q, r | q in m'.pools && r in m'.pools && q < r ensures PoolBefore(m', q, r) {
      assert q != p && r != p ==> PoolBefore(m, q, r);
      assert r != p ==> PoolAt(m, r) && Beside(m, p, len, r);
      assert q != p ==> PoolAt(m, q) && Beside(m, p, len, q);
    }
  }

  lemma AddedStepped(m: Mem, p: int, len: int)
    requires Addable(m, p, len) && Homed(Added(m, p, len))
    ensures Stepped(Added(m, p, len))
  {
    AddedFresh(m, p, len);
    var m' := Added(m, p, len);
    forall a | Block(m', a) ensures StepAt(m', a) { assert a != p ==> StepAt(m, a); }
  }

  lemma AddedSeparate(m: Mem, p: int, len: int)
    requires Addable(m, p, len) && Homed(Added(m, p, len))
    ensures Separate(Added(m, p, len))
  {
    AddedFresh(m, p, len);
    var m' := Added(m, p, len);
    forall x, y | Block(m', x) && y in m'.home && m'.home[y] == m'.home[x] && x < y ensures Before(m', x, y) {
      assert x != p ==> Before(m, x, y);
    }
  }

  lemma AddedTagged(m: Mem, p: int, len: int)
    requires Addable(m, p, len) && Homed(Added(m, p, len))
    ensures Tagged(Added(m, p, len))
  {
    AddedFresh(m, p, len);
    var m' := Added(m, p, len);
    forall a | a in m'.home ensures TagAt(m', a) { assert a in m.home ==> TagAt(m, a); }
  }

  lemma AddedMerged(m: Mem, p: int, len: int)
    requires Addable(m, p, len) && Homed(Added(m, p, len))
    ensures Merged(Added(m, p, len))
  {
    AddedFresh(m, p, len);
    var m' := Added(m, p, len);
    forall a | FreeBlock(m', a) ensures MergedAt(m', a) {
      assert a != p ==> StepAt(m, a) && MergedAt(m, a);
    }
  }

  lemma AddedLive(m: Mem, p: int, len: int)
    requires Addable(m, p, len) && Homed(Added(m, p, len))
    ensures Live(Added(m, p, len)) == Live(m)
  {
    AddedFresh(m, p, len);
  }

  lemma AddedFree(m: Mem, p: int, len: int)
    requires Addable(m, p, len) && Homed(Added(m, p, len))
    ensures Free(Added(m, p, len)) == Free(m)[p := len - HDR]
  {
    AddedFresh(m, p, len);
  }

  lemma AddedKeepsLayout(m: Mem, p: int, len: int)
    requires Addable(m, p, len)
    ensures p !in m.home && p + len - HDR !in m.home && p !in m.pools
    ensures Layout(Added(m, p, len))
    ensures Live(Added(m, p, len)) == Live(m) && Free(Added(m, p, len)) == Free(m)[p := len - HDR]
  {
    AddedFresh(m, p, len);
    AddedBounded(m, p, len);
    AddedStepped(m, p, len);
    AddedSeparate(m, p, len);
    AddedTagged(m, p, len);
    AddedMerged(m, p, len);
    AddedLive(m, p, len);
    AddedFree(m, p, len);
  }

  // Pool p consists of one free block.
  ghost predicate WhollyFree(m: Mem, p: int)
    requires Homed(m)
  {
    p in m.pools && FreeBlock(m, p) && Next(m, p) == m.pools[p]
  }

  ghost function Dropped(m: Mem, p: int): Mem
    requires p in m.pools
  {
    m.(pools := m.pools - {p}, home := m.home - {p, m.pools[p]})
  }

  lemma DroppedAlone(m: Mem, p: int)
    requires Layout(m) && WhollyFree(m, p)
    ensures PoolAt(m, p)
    ensures forall a :: a in m.home && m.home[a] == p ==> a == p || a == m.pools[p]
    ensures Homed(Dropped(m, p))
  {
    assert PoolAt(m, p);
    forall a | a in m.home && m.home[a] == p ensures a == p || a == m.pools[p] { assert a > p ==> Before(m, p, a); }
  }

  lemma DroppedBounded(m: Mem, p: int)
    requires Layout(m) && WhollyFree(m, p)
    ensures Bounded(Dropped(m, p))
  {
    var m' := Dropped(m, p);
    DroppedAlone(m, p);
    forall q | q in m'.pools ensures PoolAt(m', q) { assert PoolAt(m, q); }
    forall q, r | q in m'.pools && r in m'.pools && q < r ensures PoolBefore(m', q, r) { assert PoolBefore(m, q, r); }
  }

  lemma DroppedStepped(m: Mem, p: int)
    requires Layout(m) && WhollyFree(m, p) && Homed(Dropped(m, p))
    ensures Stepped(Dropped(m, p)) && Merged(Dropped(m, p))
  {
    var m' := Dropped(m, p);
    DroppedAlone(m, p);
    forall a | Block(m', a) ensures StepAt(m', a) { assert StepAt(m, a); }
    forall a | FreeBlock(m', a) ensures MergedAt(m', a) { assert MergedAt(m, a); }
  }

  lemma DroppedTagged(m: Mem, p: int)
    requires Layout(m) && WhollyFree(m, p) && Homed(Dropped(m, p))
    ensures Separate(Dropped(m, p)) && Tagged(Dropped(m, p))
  {
    var m' := Dropped(m, p);
    DroppedAlone(m, p);
    forall x, y | Block(m', x) && y in m'.home && m'.home[y] == m'.home[x] && x < y ensures Before(m', x, y) {
      assert Before(m, x, y);
    }
    forall a | a in m'.home ensures TagAt(m', a) { assert TagAt(m, a); }
  }

  lemma DroppedKeepsLayout(m: Mem, p: int)
    requires Layout(m) && WhollyFree(m, p)
    ensures forall a :: a in m.home && m.home[a] == p ==> a == p || a == m.pools[p]
    ensures Layout(Dropped(m, p))
    ensures Live(Dropped(m, p)) == Live(m) && Free(Dropped(m, p)) == Free(m) - {p}
  {
    DroppedAlone(m, p);
    DroppedBounded(m, p);
    DroppedStepped(m, p);
    DroppedTagged(m, p);
  }

  // The two memories agree on all headers in use.
  ghost predicate SameTags(m: Mem, m': Mem) {
    && m'.pools == m.pools && m'.home == m.home
    && (forall a :: a in m.home && a in m.bsize ==> a in m'.bsize && m'.bsize[a] == m.bsize[a])
    && (forall a :: a in m.home && a in m.prevfree ==> a in m'.prevfree && m'.prevfree[a] == m.prevfree[a])
  }

  lemma SameTagsBlocks(m: Mem, m': Mem)
    requires Layout(m) && SameTags(m, m')
    ensures Homed(m') && Bounded(m') && Stepped(m') && Merged(m')
  {
    forall p | p in m.pools ensures PoolAt(m', p) { assert PoolAt(m, p); }
    forall p, q | p in m.pools && q in m.pools && p < q ensures PoolBefore(m', p, q) { assert PoolBefore(m, p, q); }
    forall a | Block(m', a) ensures StepAt(m', a) { assert StepAt(m, a); }
    forall a | FreeBlock(m', a) ensures MergedAt(m', a) { assert MergedAt(m, a) && StepAt(m, a); }
  }

  lemma SameTagsSameLayout(m: Mem, m': Mem)
    requires Layout(m) && SameTags(m, m')
    ensures Layout(m') && Live(m') == Live(m) && Free(m') == Free(m)
  {
    SameTagsBlocks(m, m');
    SameTagsSeparate(m, m');
    SameTagsContents(m, m');
  }

  lemma SameTagsContents(m: Mem, m': Mem)
    requires Layout(m) && SameTags(m, m') && Homed(m')
    ensures Live(m') == Live(m) && Free(m') == Free(m)
  {
  }

  lemma SameTagsSeparate(m: Mem, m': Mem)
    requires Layout(m) && SameTags(m, m') && Homed(m')
    ensures Separate(m') && Tagged(m')
  {
    forall x, y | Block(m', x) && y in m'.home && m'.home[y] == m'.home[x] && x < y ensures Before(m', x, y) {
      assert Before(m, x, y);
    }
    forall a | a in m'.home ensures TagAt(m', a) { assert TagAt(m, a); }
  }

  // ---------- what the layout means ----------

  /** The blocks of a pool cover it exactly: each byte before the end of the
      pool lies in one block, and in no other block of the heap. */
  lemma {:induction false} Covered(m: Mem, p: int, x: int)
    requires Layout(m) && p in m.pools && p <= x < m.pools[p]
    ensures exists a :: Block(m, a) && m.home[a] == p && a <= x < Next(m, a)
    ensures forall a, b :: Block(m, a) && Block(m, b) && a <= x < Next(m, a) && b <= x < Next(m, b) ==> a == b
  {
    assert PoolAt(m, p);
    var a := Walk(m, p, p, x);
    forall b | Block(m, b) && b <= x < Next(m, b) ensures b == a {
      NoHeaderInside(m, a, b);
      NoHeaderInside(m, b, a);
    }
  }

  lemma {:induction false} Walk(m: Mem, p: int, from: int, x: int) returns (a: int)
    requires Layout(m) && p in m.pools && from in m.home && m.home[from] == p && from <= x < m.pools[p]
    ensures Block(m, a) && m.home[a] == p && a <= x < Next(m, a)
    decreases x - from
  {
    assert StepAt(m, from);
    if x < Next(m, from) {
      a := from;
    } else {
      a := Walk(m, p, Next(m, from), x);
    }
  }

  /** Live blocks never share a byte. */
  lemma LiveDisjoint(m: Mem, a: int, b: int)
    requires Layout(m) && a in Live(m) && b in Live(m) && a != b
    ensures a + Live(m)[a] <= b || b + Live(m)[b] <= a
  {
    NoHeaderInside(m, a, b);
    NoHeaderInside(m, b, a);
  }

  /** The pools and the live blocks alone determine the free blocks: whatever
      the order of allocations and releases, the free space of a pool is cut up
      in the same way. */
  lemma FreeIsDetermined(m: Mem, m': Mem)
    requires Layout(m) && Layout(m') && m.pools == m'.pools && Live(m) == Live(m')
    ensures Free(m) == Free(m')
  {
    FreeIncluded(m, m');
    FreeIncluded(m', m);
  }

  lemma FreeIncluded(m: Mem, m': Mem)
    requires Layout(m) && Layout(m') && m.pools == m'.pools && Live(m) == Live(m')
    ensures forall a :: a in Free(m) ==> a in Free(m') && Free(m')[a] == Free(m)[a]
  {
    forall a | a in Free(m) ensures a in Free(m') && Free(m')[a] == Free(m)[a] {
      var p := m.home[a];
      assert PoolAt(m, p) && PoolAt(m', p);
      SameWalk(m, m', p, p, a);
    }
  }

  lemma {:induction false} SameWalk(m: Mem, m': Mem, p: int, from: int, a: int)
    requires Layout(m) && Layout(m') && m.pools == m'.pools && Live(m) == Live(m')
    requires p in m.pools && FreeBlock(m, a) && m.home[a] == p && from <= a
    requires from in m.home && m.home[from] == p && from in m'.home && m'.home[from] == p
    ensures FreeBlock(m', a) && m'.bsize[a] == m.bsize[a]
    decreases a - from
  {
    SameBlock(m, m', from);
    if from < a {
      assert StepAt(m, from) && StepAt(m', from);
      assert Before(m, from, a);
      SameWalk(m, m', p, Next(m, from), a);
    }
  }

  lemma SameBlock(m: Mem, m': Mem, a: int)
    requires Layout(m) && Layout(m') && m.pools == m'.pools && Live(m) == Live(m')
    requires Block(m, a) && a in m'.home && m'.home[a] == m.home[a]
    ensures Block(m', a) && m'.bsize[a] == m.bsize[a]
  {
    assert StepAt(m, a) && StepAt(m', a);
    if m.bsize[a] < 0 {
      assert a in Live(m) && Live(m)[a] == -m.bsize[a];
      assert a in Live(m');
    } else {
      assert a !in Live(m');
      NotLonger(m, m', a);
      NotLonger(m', m, a);
    }
  }

  lemma NotLonger(m: Mem, m': Mem, a: int)
    requires Layout(m) && Layout(m') && m.pools == m'.pools && Live(m) == Live(m')
    requires FreeBlock(m, a) && FreeBlock(m', a) && m'.home[a] == m.home[a]
    ensures m'.bsize[a] <= m.bsize[a]
  {
    var n := Next(m, a);
    assert StepAt(m, a) && StepAt(m', a) && MergedAt(m, a);
    if n != m.pools[m.home[n]] {
      assert StepAt(m, n);
      assert n in Live(m);
      assert n in Live(m');
      NoHeaderInside(m', a, n);
    }
  }
}
