/** Reallocation on the thread-private heap: a new buffer, a copy of the old
    contents, and the release of the old buffer. */
module BgetRealloc {
  import opened BgetHeap
  import opened BgetLayout
  import opened Chains

  // The bytes that the caller can use from buf on; none if it is not a buffer.
  ghost function Room(m: Mem, direct: map<int, int>, buf: int): int
    requires Homed(m)
  {
    if buf - HDR in Live(m) then Live(m)[buf - HDR] - HDR
    else if buf - DIRECT_HDR in direct then direct[buf - DIRECT_HDR] - DIRECT_HDR
    else 0
  }

  // None of the n bytes at a is one of the `len` bytes at b.
  predicate Outside(a: int, n: int, b: int, len: int) {
    a + n <= b || b + len <= a
  }

  // Where a live block starts there is no direct buffer, nor one whose header ends there.
  lemma NotBoth(h: Heap, a: int)
    requires h.Valid() && a in Live(h.M())
    ensures a !in h.direct && a - QUANT !in h.direct
  {
    assert StepAt(h.M(), a);
    assert forall d :: d in h.direct ==> DirectAt(h.M(), h.tsize, h.direct, d);
    if a in h.direct { LiveBesideDirect(h.M(), h.tsize, h.direct, a, a); }
  }

  /** Two different buffers of the heap share no byte. */
  lemma BuffersApart(h: Heap, a: int, b: int)
    requires h.Valid() && h.Outstanding(a) && h.Outstanding(b) && a != b
    ensures Outside(a, Room(h.M(), h.direct, a), b, Room(h.M(), h.direct, b))
  {
    var m := h.M();
    var p := if a - HDR in Live(m) then a - HDR else a - DIRECT_HDR;
    var q := if b - HDR in Live(m) then b - HDR else b - DIRECT_HDR;
    if a - HDR in Live(m) { NotBoth(h, a - HDR); }
    if b - HDR in Live(m) { NotBoth(h, b - HDR); }
    if p < q { HeldDisjoint(m, h.tsize, h.direct, p, q); }
    if q < p { HeldDisjoint(m, h.tsize, h.direct, q, p); }
  }

  // The size of the old buffer, from its header.
  method OldSize(h: Heap, buf: int) returns (osize: int)
    requires h.Valid() && h.Outstanding(buf)
    ensures osize == Room(h.M(), h.direct, buf)
  {
    h.DirectOrLive(buf);
    osize := -h.bsize[buf - HDR];
    if osize == 0 {
      assert DirectAt(h.M(), h.tsize, h.direct, buf - DIRECT_HDR);
      osize := h.tsize[buf - DIRECT_HDR] - DIRECT_HDR;
    } else {
      osize := osize - HDR;
    }
  }

  function At(src: int, dst: int, x: int): int {
    src + (x - dst)
  }

  // The n bytes at dst are those at src, and all others are as they were.
  ghost predicate CopiedOnly(data: map<int, int>, data': map<int, int>, dst: int, src: int, n: int) {
    && (forall x :: dst <= x < dst + n && At(src, dst, x) in data ==> x in data' && data'[x] == data[At(src, dst, x)])
    && (forall x :: !(dst <= x < dst + n) ==> (x in data' <==> x in data) && (x in data ==> data'[x] == data[x]))
  }

  // memcpy, for pieces of memory that do not overlap.
  function Copied(data: map<int, int>, dst: int, src: int, n: int): (r: map<int, int>)
    requires Outside(dst, n, src, n)
    ensures CopiedOnly(data, r, dst, src, n)
  {
    data + map x | dst <= x < dst + n && At(src, dst, x) in data :: data[At(src, dst, x)]
  }

  // What the heap has handed out and not taken back.
  datatype Account = Account(m: Mem, direct: map<int, int>, queue: seq<int>)

  ghost predicate Owned(s: Account, buf: int)
    requires Homed(s.m)
  {
    (buf - HDR in Live(s.m) && buf - HDR !in s.queue) || buf - DIRECT_HDR in s.direct
  }

  ghost function Now(h: Heap): Account
    reads h
  {
    Account(h.M(), h.direct, h.queue)
  }

  // No address is both that of a buffer in a pool and that of a direct one.
  ghost predicate Plain(s: Account)
    requires Homed(s.m)
  {
    forall a {:trigger a in Live(s.m)} :: a in Live(s.m) ==> a - QUANT !in s.direct
  }

  lemma IsPlain(h: Heap)
    requires h.Valid()
    ensures Plain(Now(h))
  {
    forall a | a in Live(h.M()) ensures a - QUANT !in h.direct { NotBoth(h, a); }
  }

  // Every buffer but buf is still there, with the same room.
  ghost predicate OthersStay(s: Account, s': Account, buf: int)
    requires Homed(s.m) && Homed(s'.m)
  {
    forall other {:trigger Owned(s', other)} {:trigger Owned(s, other)} ::
      other != buf && Owned(s, other) ==> Owned(s', other) && Room(s'.m, s'.direct, other) == Room(s.m, s.direct, other)
  }

  lemma StayTwice(s: Account, s': Account, s'': Account, buf: int)
    requires Homed(s.m) && Homed(s'.m) && Homed(s''.m) && OthersStay(s, s', buf) && OthersStay(s', s'', buf)
    ensures OthersStay(s, s'', buf)
  {
    forall other | other != buf && Owned(s, other)
      ensures Owned(s'', other) && Room(s''.m, s''.direct, other) == Room(s.m, s.direct, other)
    {
      assert Owned(s', other);
    }
  }

  // A release seen from the accounts.
  lemma ReleaseStays(s: Account, s': Account, buf: int)
    requires Homed(s.m) && Homed(s'.m) && Owned(s, buf) && s'.queue == s.queue
    requires forall a :: a in Live(s.m) ==> a !in s.direct && a - QUANT !in s.direct
    requires s'.direct == if buf - HDR in Live(s.m) then s.direct else s.direct - {buf - DIRECT_HDR}
    requires Live(s'.m) == if buf - HDR in Live(s.m) then Live(s.m) - {buf - HDR} else Live(s.m)
    ensures !Owned(s', buf) && OthersStay(s, s', buf)
  {
  }

  // brel: this buffer is gone, the others are not.
  method ReleaseOld(h: Heap, buf: int)
    requires h.Valid() && h.Outstanding(buf)
    modifies h`bsize, h`prevfree, h`flink, h`blink, h`pools, h`home, h`lists, h`direct,
             h`totalloc, h`numrel, h`numprel, h`numpblk, h`lastPool
    ensures h.Valid() && !h.Outstanding(buf)
    ensures OthersStay(old(Now(h)), Now(h), buf)
  {
    ghost var s := Now(h);
    forall a | a in Live(s.m) ensures a !in s.direct && a - QUANT !in s.direct { NotBoth(h, a); }
    assert Owned(s, buf);
    var released := h.Release(buf);
    ReleaseStays(s, Now(h), buf);
  }

  // The n bytes at nbuf are no other buffer's.
  ghost predicate Untouched(s: Account, nbuf: int, n: int)
    requires Homed(s.m)
  {
    forall other {:trigger Owned(s, other)} :: Owned(s, other) && other != nbuf ==> Outside(nbuf, n, other, Room(s.m, s.direct, other))
  }

  lemma AllUntouched(h: Heap, nbuf: int, n: int)
    requires h.Valid() && h.Outstanding(nbuf) && n <= Room(h.M(), h.direct, nbuf)
    ensures Untouched(Now(h), nbuf, n)
  {
    var s := Now(h);
    forall other | Owned(s, other) && other != nbuf ensures Outside(nbuf, n, other, Room(s.m, s.direct, other)) {
      BuffersApart(h, nbuf, other);
    }
  }

  /** The part of bgetr after the new buffer has been found: the contents move
      as far as both buffers reach, no byte of another buffer changes, and the
      old buffer is released. */
  method Move(h: Heap, buf: int, nbuf: int, size: int, data: map<int, int>) returns (data': map<int, int>, ghost n: int)
    requires h.Valid() && h.Outstanding(buf) && h.Outstanding(nbuf) && buf != nbuf
    requires 0 <= size <= Room(h.M(), h.direct, nbuf)
    modifies h`bsize, h`prevfree, h`flink, h`blink, h`pools, h`home, h`lists, h`direct,
             h`totalloc, h`numrel, h`numprel, h`numpblk, h`lastPool
    ensures h.Valid() && !h.Outstanding(buf)
    ensures OthersStay(old(Now(h)), Now(h), buf)
    ensures n == (if size < old(Room(h.M(), h.direct, buf)) then size else old(Room(h.M(), h.direct, buf)))
    ensures CopiedOnly(data, data', nbuf, buf, n)
    ensures Untouched(old(Now(h)), nbuf, n)
  {
    var osize := OldSize(h, buf);
    var count := if size < osize then size else osize;
    n := count;
    BuffersApart(h, nbuf, buf);
    AllUntouched(h, nbuf, n);
    data' := Copied(data, nbuf, buf, count);
    ReleaseOld(h, buf);
  }

  // What is not in the queue stays when the queue is drained.
  lemma QueueDrained(s: Account, h: Heap, buf: int)
    requires h.Valid() && h.queue == [] && h.direct == s.direct && Homed(s.m) && Plain(s)
    requires forall a :: a in Live(s.m) && a !in s.queue ==> a in Live(h.M()) && Live(h.M())[a] == Live(s.m)[a]
    ensures OthersStay(s, Now(h), buf)
  {
    IsPlain(h);
    var s' := Now(h);
    forall other | other != buf && Owned(s, other)
      ensures Owned(s', other) && Room(s'.m, s'.direct, other) == Room(s.m, s.direct, other)
    {
      var a := other - HDR;
      assert a in Live(s.m) ==> a - QUANT !in s.direct;
      assert a in Live(s'.m) ==> a - QUANT !in s'.direct;
    }
  }

  // A block from the lists that was not live before, as a buffer.
  lemma FromLists(h: Heap, s: Account, nbuf: int, size: int)
    requires h.Valid() && h.queue == [] && h.direct == s.direct && Homed(s.m) && Plain(s)
    requires Given(Live(s.m) - Elems(s.queue), Live(h.M()), nbuf, size)
    ensures h.Outstanding(nbuf) && Room(h.M(), h.direct, nbuf) >= size - HDR
    ensures !Owned(s, nbuf) && forall buf :: OthersStay(s, Now(h), buf)
  {
    NotBoth(h, nbuf - HDR);
    forall buf ensures OthersStay(s, Now(h), buf) { QueueDrained(s, h, buf); }
  }

  // Move, and what has stayed since state s.
  method MoveOver(h: Heap, ghost s: Account, buf: int, nbuf: int, size: int, data: map<int, int>) returns (data': map<int, int>)
    requires h.Valid() && h.Outstanding(buf) && h.Outstanding(nbuf) && buf != nbuf
    requires 0 <= size <= Room(h.M(), h.direct, nbuf) && Homed(s.m) && OthersStay(s, Now(h), buf)
    modifies h`bsize, h`prevfree, h`flink, h`blink, h`pools, h`home, h`lists, h`direct,
             h`totalloc, h`numrel, h`numprel, h`numpblk, h`lastPool
    ensures h.Valid() && !h.Outstanding(buf) && OthersStay(s, Now(h), buf)
    ensures h.Outstanding(nbuf) && Room(h.M(), h.direct, nbuf) == old(Room(h.M(), h.direct, nbuf))
    ensures var osize := old(Room(h.M(), h.direct, buf));
            CopiedOnly(data, data', nbuf, buf, if size < osize then size else osize)
  {
    ghost var s1 := Now(h);
    ghost var n;
    assert Owned(s1, nbuf);
    data', n := Move(h, buf, nbuf, size, data);
    StayTwice(s, s1, Now(h), buf);
    assert Owned(Now(h), nbuf);
  }

  /** bgetr, as long as the heap has a block for it: `need` is what bget asks
      the system for otherwise. Without a new buffer nothing happens to the old one. */
  method Bgetr(h: Heap, buf: int, size: int, data: map<int, int>) returns (nbuf: int, need: int, data': map<int, int>)
    requires h.Valid() && (buf == 0 || h.Outstanding(buf))
    modifies h
    ensures h.Valid() && OthersStay(old(Now(h)), Now(h), if nbuf == 0 then 0 else buf)
    ensures nbuf != 0 ==> need == 0 && h.Outstanding(nbuf) && Room(h.M(), h.direct, nbuf) >= size && nbuf != buf
    ensures nbuf == 0 || buf == 0 ==> data' == data
    ensures nbuf != 0 && buf != 0 ==> !h.Outstanding(buf)
    ensures nbuf != 0 && buf != 0 ==>
      var osize := old(Room(h.M(), h.direct, buf)); CopiedOnly(data, data', nbuf, buf, if size < osize then size else osize)
  {
    ghost var s := Now(h);
    IsPlain(h);
    data' := data;
    nbuf, need := h.Bget(size);
    if nbuf == 0 && !Rejected(size) { QueueDrained(s, h, 0); }
    if nbuf != 0 {
      FromLists(h, s, nbuf, Padded(size));
      if buf != 0 {
        assert Owned(s, buf) && OthersStay(s, Now(h), buf) && OthersStay(s, Now(h), 0);
        data' := MoveOver(h, s, buf, nbuf, size, data);
      }
    }
  }

  // A buffer straight from the system.
  lemma FromSystem(h: Heap, s: Account, region: int, size: int)
    requires h.Valid() && h.queue == s.queue && Homed(s.m) && Plain(s)
    requires region !in s.direct && h.direct == s.direct[region := size] && Live(h.M()) == Live(s.m)
    ensures var nbuf := region + DIRECT_HDR;
            h.Outstanding(nbuf) && Room(h.M(), h.direct, nbuf) == size - DIRECT_HDR && !Owned(s, nbuf)
    ensures forall buf :: OthersStay(s, Now(h), buf)
  {
    var nbuf, s' := region + DIRECT_HDR, Now(h);
    IsPlain(h);
    assert region + QUANT in Live(s'.m) ==> region !in s'.direct;
    forall other | Owned(s, other) ensures Owned(s', other) && Room(s'.m, s'.direct, other) == Room(s.m, s.direct, other) {
      assert other - HDR in Live(s.m) ==> other - DIRECT_HDR !in s.direct;
    }
  }

  lemma LivePositive(m: Mem, a: int)
    requires Layout(m) && a in Live(m)
    ensures a > 0
  {
    assert PoolAt(m, m.home[a]);
  }

  /** The rest of bgetr: `region` is the system's answer, 0 for none. With
      memory from the system the reallocation always succeeds. */
  method BgetrExpand(h: Heap, buf: int, size: int, region: int, data: map<int, int>) returns (nbuf: int, data': map<int, int>)
    requires h.Valid() && (buf == 0 || h.Outstanding(buf)) && !Rejected(size)
    requires region != 0 ==>
      region > 0 && Aligned(region) && Unused(h.M(), h.direct, region, Request(Padded(size), h.expIncr))
    modifies h
    ensures nbuf == 0 <==> region == 0
    ensures h.Valid() && OthersStay(old(Now(h)), Now(h), if nbuf == 0 then 0 else buf)
    ensures nbuf != 0 ==> h.Outstanding(nbuf) && Room(h.M(), h.direct, nbuf) >= size && nbuf != buf
    ensures nbuf == 0 || buf == 0 ==> data' == data
    ensures nbuf != 0 && buf != 0 ==> !h.Outstanding(buf)
    ensures nbuf != 0 && buf != 0 ==>
      var osize := old(Room(h.M(), h.direct, buf)); CopiedOnly(data, data', nbuf, buf, if size < osize then size else osize)
  {
    data' := data;
    ghost var s := Now(h);
    nbuf := NewBuffer(h, size, region);
    if nbuf != 0 {
      assert OthersStay(s, Now(h), buf) && OthersStay(s, Now(h), 0);
      if buf != 0 {
        assert Owned(s, buf);
        data' := MoveOver(h, s, buf, nbuf, size, data);
      }
    }
  }

  method NewBuffer(h: Heap, size: int, region: int) returns (nbuf: int)
    requires h.Valid() && !Rejected(size)
    requires region != 0 ==>
      region > 0 && Aligned(region) && Unused(h.M(), h.direct, region, Request(Padded(size), h.expIncr))
    modifies h
    ensures h.Valid() && (nbuf == 0 <==> region == 0)
    ensures forall buf :: OthersStay(old(Now(h)), Now(h), buf)
    ensures nbuf != 0 ==> h.Outstanding(nbuf) && Room(h.M(), h.direct, nbuf) >= size && !old(h.Outstanding(nbuf))
  {
    ghost var s := Now(h);
    ghost var large := Large(Padded(size), h.expIncr);
    IsPlain(h);
    nbuf := h.Expand(size, region);
    if region != 0 {
      if large {
        FromSystem(h, s, region, Padded(size) + QUANT);
      } else {
        FromLists(h, s, nbuf, Padded(size));
        LivePositive(h.M(), nbuf - HDR);
      }
    }
  }
}
