/** The per-thread caches of small blocks: any number of threads allocate and
    free at the same time, each shared access being one step. Every thread has,
    per size class, a list of its own free blocks, a list others return its
    blocks to, and a list of blocks that belong to some other thread. */
module FastLists {
  import opened Chains
  import opened Options

  const CACHE_LINE := 128          // DCACHE_LINE
  const LIMIT := 16                // KMP_FREE_LIST_LIMIT
  const CLASSES := 4               // NUM_LISTS
  const DESCRIPTOR := 32           // sizeof(kmp_mem_descr_t)

  // ---------- size classes ----------

  datatype Rounded = Cached(index: int, lines: int) | Big(lines: int)

  // How allocation rounds a size to cache lines, and the list it looks in.
  function RoundUp(size: nat): Rounded {
    var lines := (size + CACHE_LINE - 1) / CACHE_LINE;
    var idx := lines - 1;
    if idx < 2 then Cached(0, 2)
    else if idx / 4 == 0 then Cached(1, 4)
    else if idx / 4 / 4 == 0 then Cached(2, 16)
    else if idx / 4 / 4 / 4 == 0 then Cached(3, 64)
    else Big(lines)
  }

  // How release finds the list again, from the size kept in the descriptor.
  function ClassOf(bytes: int): Option<int> {
    var idx := CACHE_LINE * 2;
    if idx == bytes then Some(0)
    else if idx * 2 == bytes then Some(1)
    else if idx * 2 * 4 == bytes then Some(2)
    else if idx * 2 * 4 * 4 == bytes then Some(3)
    else None
  }

  function Bytes(r: Rounded): int {
    r.lines * CACHE_LINE
  }

  /** Both sides agree on the class, the rounded block holds the request, and
      no smaller class would. */
  lemma ClassesAgree(size: nat, smaller: nat)
    ensures Bytes(RoundUp(size)) >= size
    ensures ClassOf(Bytes(RoundUp(size))) == if RoundUp(size).Cached? then Some(RoundUp(size).index) else None
    ensures RoundUp(size).Cached? && RoundUp(smaller).Cached? && RoundUp(smaller).index < RoundUp(size).index ==>
      Bytes(RoundUp(smaller)) < size
    ensures RoundUp(size).Big? <==> size > 64 * CACHE_LINE
  {
  }

  // Where in an allocated region the block starts.
  function AlignedStart(region: int): int {
    (region + DESCRIPTOR + CACHE_LINE) / CACHE_LINE * CACHE_LINE
  }

  /** The block is aligned, has its descriptor below it, and lies inside the region. */
  lemma BlockInRegion(region: nat, bytes: nat)
    ensures AlignedStart(region) % CACHE_LINE == 0
    ensures region <= AlignedStart(region) - DESCRIPTOR
    ensures AlignedStart(region) + bytes <= region + (bytes + DESCRIPTOR + CACHE_LINE)
  {
  }

  // ---------- the state ----------

  datatype Slot = Self(t: int, c: int) | Sync(t: int, c: int) | Other(t: int, c: int)

  datatype Pc =
    | Idle
    | Pop(c: int, seen: int)                                  // about to exchange the sync head for null
    | Walk(c: int, ptr: int, head: int, tail: int)            // looking for the end of a full batch
    | Return(c: int, ptr: int, head: int, tail: int, seen: int) // about to put the batch on its owner's sync list

  // heads: the list heads, 0 for null.  next: the first word of each block.
  // owner, bytes, count: the descriptor fields ptr_aligned, size_aligned, size_allocated.
  // held: the blocks that the program has been given and has not freed.
  datatype Fast = Fast(n: nat, heads: map<Slot, int>, next: map<int, int>,
                       owner: map<int, int>, bytes: map<int, int>, count: map<int, int>,
                       held: set<int>, pc: map<int, Pc>)

  predicate IsSlot(n: nat, s: Slot) {
    0 <= s.t < n && 0 <= s.c < CLASSES
  }

  ghost predicate Shaped(f: Fast) {
    && (forall s :: s in f.heads <==> IsSlot(f.n, s))
    && (forall t :: t in f.pc <==> 0 <= t < f.n)
    && f.bytes.Keys == f.owner.Keys && f.next.Keys == f.owner.Keys && f.count.Keys == f.owner.Keys
    && 0 !in f.owner
  }

  ghost predicate Initial(f: Fast) {
    && Shaped(f) && f.owner == map[] && f.held == {}
    && (forall s :: s in f.heads ==> f.heads[s] == 0)
    && (forall t :: t in f.pc ==> f.pc[t] == Idle)
  }

  // ---------- the steps ----------

  datatype Move =
    | AllocSelf(size: nat) | AllocSync(size: nat) | AllocNew(size: nat, p: int)
    | PopWin | PopRetry
    | FreeSelf(p: int) | FreeFirst(p: int) | FreePush(p: int) | FreeFull(p: int) | FreeBig(p: int)
    | WalkOn | WalkEnd | ReturnWin | ReturnRetry

  // The class of block p, which thread t is about to free.
  ghost predicate Freeing(f: Fast, t: int, p: int, c: int) {
    t in f.pc && f.pc[t] == Idle && p in f.held && p in f.bytes && p in f.owner && ClassOf(f.bytes[p]) == Some(c)
  }

  // Block p fits onto the batch that starts with block h.
  ghost predicate Joins(f: Fast, p: int, h: int) {
    h in f.owner && h in f.count && p in f.owner && f.owner[h] == f.owner[p] && f.count[h] + 1 <= LIMIT
  }

  // The branch conditions of allocation and release.
  ghost predicate Enabled(f: Fast, t: int, m: Move)
    requires Shaped(f)
  {
    && 0 <= t < f.n
    && match m
       case AllocSelf(size) =>
         var r := RoundUp(size);
         f.pc[t] == Idle && r.Cached? && f.heads[Self(t, r.index)] in f.owner
       case AllocSync(size) =>
         var r := RoundUp(size);
         f.pc[t] == Idle && r.Cached? && f.heads[Self(t, r.index)] == 0 && f.heads[Sync(t, r.index)] != 0
       case AllocNew(size, p) =>
         var r := RoundUp(size);
         && f.pc[t] == Idle && p > 0 && p !in f.owner
         && (r.Cached? ==> f.heads[Self(t, r.index)] == 0 && f.heads[Sync(t, r.index)] == 0)
       case PopWin => f.pc[t].Pop? && Sync(t, f.pc[t].c) in f.heads && f.heads[Sync(t, f.pc[t].c)] == f.pc[t].seen && f.pc[t].seen in f.owner
       case PopRetry => f.pc[t].Pop? && Sync(t, f.pc[t].c) in f.heads && f.heads[Sync(t, f.pc[t].c)] != f.pc[t].seen
       case FreeSelf(p) => exists c :: Freeing(f, t, p, c) && f.owner[p] == t
       case FreeFirst(p) => exists c :: Freeing(f, t, p, c) && f.owner[p] != t && f.heads[Other(t, c)] == 0
       case FreePush(p) => exists c :: Freeing(f, t, p, c) && f.owner[p] != t && Joins(f, p, f.heads[Other(t, c)])
       case FreeFull(p) =>
         exists c :: Freeing(f, t, p, c) && f.owner[p] != t && f.heads[Other(t, c)] in f.owner && !Joins(f, p, f.heads[Other(t, c)])
       case FreeBig(p) => f.pc[t] == Idle && p in f.held && p in f.bytes && ClassOf(f.bytes[p]) == None
       case WalkOn => f.pc[t].Walk? && f.pc[t].tail in f.next && f.next[f.pc[t].tail] != 0
       case WalkEnd =>
         && f.pc[t].Walk? && f.pc[t].tail in f.next && f.next[f.pc[t].tail] == 0
         && f.pc[t].head in f.owner && Sync(f.owner[f.pc[t].head], f.pc[t].c) in f.heads
       case ReturnWin =>
         && f.pc[t].Return? && f.pc[t].head in f.owner && Sync(f.owner[f.pc[t].head], f.pc[t].c) in f.heads
         && Other(t, f.pc[t].c) in f.heads
         && f.heads[Sync(f.owner[f.pc[t].head], f.pc[t].c)] == f.pc[t].seen
       case ReturnRetry =>
         && f.pc[t].Return? && f.pc[t].head in f.owner && Sync(f.owner[f.pc[t].head], f.pc[t].c) in f.heads
         && f.heads[Sync(f.owner[f.pc[t].head], f.pc[t].c)] != f.pc[t].seen
  }

  // What each step writes.
  ghost function Apply(f: Fast, t: int, m: Move): Fast
    requires Shaped(f) && Enabled(f, t, m)
  {
    match m
    case AllocSelf(size) =>
      var s := Self(t, RoundUp(size).index);
      var p := f.heads[s];
      f.(heads := f.heads[s := f.next[p]], held := f.held + {p})
    case AllocSync(size) =>
      var c := RoundUp(size).index;
      f.(pc := f.pc[t := Pop(c, f.heads[Sync(t, c)])])
    case AllocNew(size, p) =>
      f.(next := f.next[p := 0], owner := f.owner[p := t], bytes := f.bytes[p := Bytes(RoundUp(size))],
         count := f.count[p := 0], held := f.held + {p})
    case PopWin =>
      var Pop(c, p) := f.pc[t];
      f.(heads := f.heads[Sync(t, c) := 0][Self(t, c) := f.next[p]], held := f.held + {p}, pc := f.pc[t := Idle])
    case PopRetry =>
      var c := f.pc[t].c;
      f.(pc := f.pc[t := Pop(c, f.heads[Sync(t, c)])])
    case FreeSelf(p) =>
      var s := Self(t, ClassOf(f.bytes[p]).value);
      f.(next := f.next[p := f.heads[s]], heads := f.heads[s := p], held := f.held - {p})
    case FreeFirst(p) =>
      var s := Other(t, ClassOf(f.bytes[p]).value);
      f.(heads := f.heads[s := p], next := f.next[p := 0], count := f.count[p := 1], held := f.held - {p})
    case FreePush(p) =>
      var s := Other(t, ClassOf(f.bytes[p]).value);
      var h := f.heads[s];
      f.(next := f.next[p := h], count := f.count[p := f.count[h] + 1], heads := f.heads[s := p], held := f.held - {p})
    case FreeFull(p) =>
      var c := ClassOf(f.bytes[p]).value;
      var h := f.heads[Other(t, c)];
      f.(pc := f.pc[t := Walk(c, p, h, h)], held := f.held - {p})
    case FreeBig(p) =>
      f.(next := f.next - {p}, owner := f.owner - {p}, bytes := f.bytes - {p}, count := f.count - {p}, held := f.held - {p})
    case WalkOn =>
      var Walk(c, p, h, tail) := f.pc[t];
      f.(pc := f.pc[t := Walk(c, p, h, f.next[tail])])
    case WalkEnd =>
      var Walk(c, p, h, tail) := f.pc[t];
      var seen := f.heads[Sync(f.owner[h], c)];
      f.(pc := f.pc[t := Return(c, p, h, tail, seen)], next := f.next[tail := seen])
    case ReturnWin =>
      var Return(c, p, h, tail, seen) := f.pc[t];
      f.(heads := f.heads[Sync(f.owner[h], c) := h][Other(t, c) := p], next := f.next[p := 0],
         count := f.count[p := 1], pc := f.pc[t := Idle])
    case ReturnRetry =>
      var Return(c, p, h, tail, old_) := f.pc[t];
      var seen := f.heads[Sync(f.owner[h], c)];
      f.(pc := f.pc[t := Return(c, p, h, tail, seen)], next := f.next[tail := seen])
  }

  // ---------- what the words mean ----------

  datatype Place = Held | Moving(t: int) | In(s: Slot)

  // The blocks of each list in order, and where each block is.
  datatype View = View(lists: map<Slot, seq<int>>, place: map<int, Place>)

  // The batch on its way back already points to what it is to be put in front of.
  function LastLink(f: Fast, s: Slot): int {
    if s.Other? && s.t in f.pc && f.pc[s.t].Return? && f.pc[s.t].c == s.c then f.pc[s.t].seen else 0
  }

  // The i-th block of list s belongs there; in a batch the descriptors count down to the tail.
  ghost predicate ItemOk(f: Fast, v: View, s: Slot, items: seq<int>, i: int)
    requires 0 <= i < |items| && Shaped(f)
  {
    var b := items[i];
    && b in f.owner && b in v.place && v.place[b] == In(s) && ClassOf(f.bytes[b]) == Some(s.c)
    && if s.Other?
       then f.owner[b] != s.t && items[0] in f.owner && f.owner[b] == f.owner[items[0]] && f.count[b] == |items| - i
       else f.owner[b] == s.t
  }

  ghost predicate SlotOk(f: Fast, v: View, s: Slot)
    requires Shaped(f) && s in f.heads && s in v.lists
  {
    && Chain(f.next, f.heads[s], v.lists[s], LastLink(f, s))
    && (forall i {:trigger ItemOk(f, v, s, v.lists[s], i)} :: 0 <= i < |v.lists[s]| ==> ItemOk(f, v, s, v.lists[s], i))
    && (s.Other? ==> |v.lists[s]| <= LIMIT)
  }

  ghost predicate BlockOk(f: Fast, v: View, b: int)
    requires Shaped(f) && b in f.owner
  {
    && b in v.place && 0 <= f.owner[b] < f.n
    && match v.place[b]
       case Held => b in f.held
       case Moving(t) => t in f.pc && (f.pc[t].Walk? || f.pc[t].Return?) && f.pc[t].ptr == b
       case In(s) => s in v.lists && b in v.lists[s]
  }

  // Thread t is freeing ptr and sends back the batch that starts with head.
  ghost predicate Shipping(f: Fast, v: View, t: int, c: int, ptr: int, head: int, tail: int)
    requires Shaped(f)
  {
    && 0 <= c < CLASSES && ptr in v.place && v.place[ptr] == Moving(t)
    && ptr in f.owner && ClassOf(f.bytes[ptr]) == Some(c) && f.owner[ptr] != t
    && Other(t, c) in v.lists && v.lists[Other(t, c)] != [] && v.lists[Other(t, c)][0] == head
    && tail in v.lists[Other(t, c)]
  }

  ghost predicate ThreadOk(f: Fast, v: View, t: int)
    requires Shaped(f) && t in f.pc
  {
    match f.pc[t]
    case Idle => true
    case Pop(c, seen) =>
      && 0 <= c < CLASSES && seen != 0
      && Sync(t, c) in v.lists && v.lists[Sync(t, c)] != [] && Self(t, c) in v.lists && v.lists[Self(t, c)] == []
    case Walk(c, ptr, head, tail) => Shipping(f, v, t, c, ptr, head, tail)
    case Return(c, ptr, head, tail, seen) =>
      Shipping(f, v, t, c, ptr, head, tail) && tail == v.lists[Other(t, c)][|v.lists[Other(t, c)]| - 1]
  }

  ghost predicate Inv(f: Fast, v: View) {
    && Shaped(f) && v.lists.Keys == f.heads.Keys && v.place.Keys == f.owner.Keys
    && (forall s {:trigger SlotOk(f, v, s)} :: s in f.heads ==> SlotOk(f, v, s))
    && (forall b {:trigger BlockOk(f, v, b)} :: b in f.owner ==> BlockOk(f, v, b))
    && (forall t {:trigger ThreadOk(f, v, t)} :: t in f.pc ==> ThreadOk(f, v, t))
    && (forall b :: b in f.held ==> b in v.place && v.place[b] == Held)
  }

  // ---------- what one step leaves alone ----------

  // Block b is the same in both states.
  ghost predicate Same(f: Fast, v: View, f': Fast, v': View, b: int)
    requires Shaped(f) && Shaped(f')
  {
    && b in f.owner && b in f'.owner && b in v.place && b in v'.place && v'.place[b] == v.place[b]
    && f'.next[b] == f.next[b] && f'.owner[b] == f.owner[b] && f'.bytes[b] == f.bytes[b] && f'.count[b] == f.count[b]
  }

  lemma SlotFrame(f: Fast, v: View, f': Fast, v': View, s: Slot)
    requires Shaped(f) && s in f.heads && s in v.lists && SlotOk(f, v, s)
    requires Shaped(f') && s in f'.heads && s in v'.lists && f'.heads[s] == f.heads[s] && v'.lists[s] == v.lists[s]
    requires LastLink(f', s) == LastLink(f, s)
    requires forall b :: b in v.lists[s] ==> Same(f, v, f', v', b)
    ensures SlotOk(f', v', s)
  {
    var items := v.lists[s];
    assert forall b :: b in items ==> Same(f, v, f', v', b);
    OtherLinks(f.next, f'.next, f.heads[s], items, LastLink(f, s));
    forall i | 0 <= i < |items| ensures ItemOk(f', v', s, items, i) {
      assert items[i] in items && items[0] in items;
      assert ItemOk(f, v, s, items, i) && Same(f, v, f', v', items[i]) && Same(f, v, f', v', items[0]);
    }
  }

  // A block of list s is recorded as being there.
  lemma ItemPlace(f: Fast, v: View, s: Slot, b: int)
    requires Inv(f, v) && s in f.heads && b in v.lists[s]
    ensures b in f.owner && b in v.place && v.place[b] == In(s) && b !in f.held && ClassOf(f.bytes[b]) == Some(s.c)
    ensures !s.Other? ==> f.owner[b] == s.t
    ensures s.Other? ==> f.owner[b] != s.t && v.lists[s][0] in f.owner && f.owner[b] == f.owner[v.lists[s][0]]
  {
    assert SlotOk(f, v, s);
    var i :| 0 <= i < |v.lists[s]| && v.lists[s][i] == b;
    assert ItemOk(f, v, s, v.lists[s], i);
  }

  // ---------- every step keeps the meaning ----------

  // List s is the same in both states.
  ghost predicate SameSlot(f: Fast, v: View, f': Fast, v': View, s: Slot) {
    && s in f.heads && s in f'.heads && s in v.lists && s in v'.lists
    && f'.heads[s] == f.heads[s] && v'.lists[s] == v.lists[s] && LastLink(f', s) == LastLink(f, s)
  }

  // Apart from the lists in `touched` and the blocks in `moved`, the two states hold the same.
  ghost predicate Untouched(f: Fast, v: View, f': Fast, v': View, touched: set<Slot>, moved: set<int>)
    requires Shaped(f) && Shaped(f')
  {
    && (forall s {:trigger SameSlot(f, v, f', v', s)} :: s in f.heads && s !in touched ==> SameSlot(f, v, f', v', s))
    && (forall b {:trigger Same(f, v, f', v', b)} :: b in f.owner && b !in moved ==> Same(f, v, f', v', b))
  }

  // Only the touched lists held moved blocks; they keep the others, and another thread's sync list stays non-empty.
  ghost predicate Reached(f: Fast, v: View, v': View, t: int, touched: set<Slot>, moved: set<int>)
    requires v.lists.Keys == f.heads.Keys && v'.lists.Keys == v.lists.Keys
  {
    && (forall s, b :: s in f.heads && s !in touched && b in v.lists[s] ==> b !in moved)
    && (forall s, b :: s in touched && s in f.heads && b in v.lists[s] && b !in moved ==> b in v'.lists[s])
    && (forall s :: s in touched && s.t != t ==> s.Sync? && s in v'.lists && v'.lists[s] != [])
  }

  // Only thread t moved: it changed the lists in `touched` and the blocks in `moved`.
  ghost predicate Framed(f: Fast, v: View, f': Fast, v': View, t: int, touched: set<Slot>, moved: set<int>)
    requires Inv(f, v)
  {
    && Shaped(f') && f'.n == f.n && v'.lists.Keys == v.lists.Keys && v'.place.Keys == f'.owner.Keys
    && Untouched(f, v, f', v', touched, moved) && Reached(f, v, v', t, touched, moved)
    && (forall b :: b in f'.owner ==> b in f.owner || b in moved)
    && (forall b :: b in f.held && b !in moved ==> b in f'.held)
    && (forall b :: b in moved && b in v.place && v.place[b].Moving? ==> v.place[b].t == t)
    && (forall u :: u in f.pc && u != t ==> f'.pc[u] == f.pc[u])
  }

  // Thread t is still freeing the block it was freeing, unless that block moved.
  ghost predicate Continues(v: View, pc: Pc, t: int, moved: set<int>) {
    forall b :: b in v.place && v.place[b] == Moving(t) && b !in moved ==> (pc.Walk? || pc.Return?) && pc.ptr == b
  }

  lemma FramedSlots(f: Fast, v: View, f': Fast, v': View, t: int, touched: set<Slot>, moved: set<int>)
    requires Inv(f, v) && Framed(f, v, f', v', t, touched, moved)
    ensures forall s :: s in f.heads && s !in touched ==> SlotOk(f', v', s)
  {
    forall s | s in f.heads && s !in touched ensures SlotOk(f', v', s) {
      assert SlotOk(f, v, s) && SameSlot(f, v, f', v', s);
      forall b | b in v.lists[s] ensures Same(f, v, f', v', b) { ItemPlace(f, v, s, b); }
      SlotFrame(f, v, f', v', s);
    }
  }

  lemma FramedBlocks(f: Fast, v: View, f': Fast, v': View, t: int, touched: set<Slot>, moved: set<int>)
    requires Inv(f, v) && Framed(f, v, f', v', t, touched, moved)
    requires t in f'.pc && Continues(v, f'.pc[t], t, moved)
    ensures forall b :: b in f'.owner && b !in moved ==> BlockOk(f', v', b)
  {
    forall b | b in f'.owner && b !in moved ensures BlockOk(f', v', b) {
      assert BlockOk(f, v, b) && Same(f, v, f', v', b);
      if v.place[b].In? {
        assert v.place[b].s !in touched ==> SameSlot(f, v, f', v', v.place[b].s);
      }
    }
  }

  lemma FramedThreads(f: Fast, v: View, f': Fast, v': View, t: int, touched: set<Slot>, moved: set<int>)
    requires Inv(f, v) && Framed(f, v, f', v', t, touched, moved)
    ensures forall u :: u in f.pc && u != t ==> ThreadOk(f', v', u)
  {
    forall u | u in f.pc && u != t ensures ThreadOk(f', v', u) {
      assert ThreadOk(f, v, u);
      if f.pc[u].Walk? || f.pc[u].Return? {
        var p := f.pc[u].ptr;
        assert p in f.owner && p !in moved && Same(f, v, f', v', p);
        assert SameSlot(f, v, f', v', Other(u, f.pc[u].c));
      } else if f.pc[u].Pop? {
        var c := f.pc[u].c;
        assert SameSlot(f, v, f', v', Self(u, c));
        assert Sync(u, c) !in touched ==> SameSlot(f, v, f', v', Sync(u, c));
      }
    }
  }

  lemma Kept(f: Fast, v: View, f': Fast, v': View, t: int, touched: set<Slot>, moved: set<int>)
    requires Inv(f, v) && Framed(f, v, f', v', t, touched, moved) && t in f.pc
    requires t in f'.pc && Continues(v, f'.pc[t], t, moved)
    requires forall s :: s in touched && s in f.heads ==> SlotOk(f', v', s)
    requires forall b :: b in moved && b in f'.owner ==> BlockOk(f', v', b)
    requires ThreadOk(f', v', t)
    requires forall b :: b in f'.held ==> b in v'.place && v'.place[b] == Held
    ensures Inv(f', v')
  {
    FramedSlots(f, v, f', v', t, touched, moved);
    FramedBlocks(f, v, f', v', t, touched, moved);
    FramedThreads(f, v, f', v', t, touched, moved);
  }

  // Where everything is after a step.
  ghost function ViewAfter(f: Fast, v: View, t: int, m: Move): View
    requires Inv(f, v) && Enabled(f, t, m)
  {
    match m
    case AllocSelf(size) =>
      var s := Self(t, RoundUp(size).index);
      View(v.lists[s := Rest(v.lists[s])], v.place[f.heads[s] := Held])
    case AllocNew(size, p) => v.(place := v.place[p := Held])
    case PopWin =>
      var c := f.pc[t].c;
      var rest := Rest(v.lists[Sync(t, c)]);
      View(v.lists[Sync(t, c) := []][Self(t, c) := rest], Put(v.place, rest, In(Self(t, c)))[f.pc[t].seen := Held])
    case FreeSelf(p) =>
      var s := Self(t, ClassOf(f.bytes[p]).value);
      View(v.lists[s := [p] + v.lists[s]], v.place[p := In(s)])
    case FreeFirst(p) =>
      var s := Other(t, ClassOf(f.bytes[p]).value);
      View(v.lists[s := [p]], v.place[p := In(s)])
    case FreePush(p) =>
      var s := Other(t, ClassOf(f.bytes[p]).value);
      View(v.lists[s := [p] + v.lists[s]], v.place[p := In(s)])
    case FreeFull(p) => v.(place := v.place[p := Moving(t)])
    case FreeBig(p) => v.(place := v.place - {p})
    case ReturnWin =>
      var Return(c, p, h, tail, seen) := f.pc[t];
      assert ThreadOk(f, v, t);
      var to := Sync(f.owner[h], c);
      var batch := v.lists[Other(t, c)];
      View(v.lists[to := batch + v.lists[to]][Other(t, c) := [p]], Put(v.place, batch, In(to))[p := In(Other(t, c))])
    case _ => v
  }

  lemma MovingOf(f: Fast, v: View, t: int, moved: set<int>)
    requires Inv(f, v) && t in f.pc
    ensures Continues(v, f.pc[t], t, moved)
  {
    forall b | b in v.place && v.place[b] == Moving(t) ensures (f.pc[t].Walk? || f.pc[t].Return?) && f.pc[t].ptr == b {
      assert BlockOk(f, v, b);
    }
  }

  // Lists other than the touched ones do not hold p.
  lemma Elsewhere(f: Fast, v: View, s: Slot, p: int)
    requires Inv(f, v) && p in v.place && v.place[p] == In(s)
    ensures forall s', b :: s' in f.heads && s' != s && b in v.lists[s'] ==> b != p
  {
    forall s', b | s' in f.heads && s' != s && b in v.lists[s'] ensures b != p { ItemPlace(f, v, s', b); }
  }

  lemma Nowhere(f: Fast, v: View, p: int)
    requires Inv(f, v) && (p in v.place ==> !v.place[p].In?)
    ensures forall s, b :: s in f.heads && b in v.lists[s] ==> b != p
  {
    forall s, b | s in f.heads && b in v.lists[s] ensures b != p { ItemPlace(f, v, s, b); }
  }

  // A step that changes no list, and at most block p, which is on no list.
  lemma Aside(f: Fast, v: View, f': Fast, v': View, t: int, p: int)
    requires Inv(f, v) && t in f.pc && (p in v.place ==> !v.place[p].In?)
    requires Shaped(f') && f'.n == f.n && f'.heads == f.heads && v'.lists == v.lists && v'.place.Keys == f'.owner.Keys
    requires !f.pc[t].Return? && !f'.pc[t].Return? && forall u :: u in f.pc && u != t ==> f'.pc[u] == f.pc[u]
    requires forall b {:trigger Same(f, v, f', v', b)} {:trigger b in f.owner} :: b in f.owner && b != p ==> Same(f, v, f', v', b)
    requires forall b :: b in f'.owner ==> b in f.owner || b == p
    requires f'.held - {p} == f.held - {p} && (p in f'.held ==> p in v'.place && v'.place[p] == Held)
    requires p in v.place && v.place[p].Moving? ==> v.place[p].t == t
    requires Continues(v, f'.pc[t], t, {p})
    requires p in f'.owner ==> BlockOk(f', v', p)
    requires ThreadOk(f', v', t)
    ensures Inv(f', v')
  {
    Nowhere(f, v, p);
    forall b | b in f'.held ensures b in v'.place && v'.place[b] == Held {
      if b != p { assert b in f'.held - {p} && b in f.held && Same(f, v, f', v', b); }
    }
    assert forall b :: b in f.held && b != p ==> b in f.held - {p};
    Kept(f, v, f', v', t, {}, {p});
  }

  lemma ListsApart(f: Fast, v: View, s: Slot)
    requires Inv(f, v) && s in f.heads
    ensures forall s', b :: s' in f.heads && s' != s && b in v.lists[s'] ==> b !in v.lists[s]
  {
    forall s', b | s' in f.heads && s' != s && b in v.lists[s'] ensures b !in v.lists[s] {
      ItemPlace(f, v, s', b);
      if b in v.lists[s] { ItemPlace(f, v, s, b); }
    }
  }

  // The first block of list s goes to the program.
  ghost function TakeFirst(f: Fast, v: View, s: Slot): (Fast, View)
    requires Inv(f, v) && s in f.heads && f.heads[s] in f.owner
  {
    var p := f.heads[s];
    (f.(heads := f.heads[s := f.next[p]], held := f.held + {p}), View(v.lists[s := Rest(v.lists[s])], v.place[p := Held]))
  }

  lemma TakeFirstSlot(f: Fast, v: View, s: Slot)
    requires Inv(f, v) && s in f.heads && f.heads[s] in f.owner && s.Self?
    ensures v.lists[s] != [] && v.lists[s][0] == f.heads[s]
    ensures var (f', v') := TakeFirst(f, v, s); Shaped(f') && SlotOk(f', v', s)
  {
    var (f', v') := TakeFirst(f, v, s);
    var p, items := f.heads[s], v.lists[s];
    assert SlotOk(f, v, s);
    PopFront(f.next, p, items);
    forall i | 0 <= i < |items[1..]| ensures ItemOk(f', v', s, items[1..], i) { assert ItemOk(f, v, s, items, i + 1); }
  }

  lemma TakeFirstKeeps(f: Fast, v: View, t: int, s: Slot)
    requires Inv(f, v) && s in f.heads && f.heads[s] in f.owner && s.Self? && s.t == t && t in f.pc && f.pc[t].Idle?
    ensures var (f', v') := TakeFirst(f, v, s); Inv(f', v')
  {
    var (f', v') := TakeFirst(f, v, s);
    var p := f.heads[s];
    TakeFirstSlot(f, v, s);
    ItemPlace(f, v, s, p);
    assert BlockOk(f, v, p);
    Elsewhere(f, v, s, p);
    MovingOf(f, v, t, {p});
    Kept(f, v, f', v', t, {s}, {p});
  }

  // Block p, just freed, goes to the front of list s; x is the count it is given.
  ghost function PutFirst(f: Fast, v: View, s: Slot, p: int, x: int): (Fast, View)
    requires Inv(f, v) && s in f.heads && p in f.owner
  {
    (f.(next := f.next[p := f.heads[s]], heads := f.heads[s := p], count := f.count[p := x], held := f.held - {p}),
     View(v.lists[s := [p] + v.lists[s]], v.place[p := In(s)]))
  }

  ghost predicate MayPut(f: Fast, v: View, t: int, s: Slot, p: int, x: int)
    requires Inv(f, v)
  {
    && s in f.heads && s.t == t && t in f.pc && f.pc[t].Idle? && p in f.held && p in f.owner && ClassOf(f.bytes[p]) == Some(s.c)
    && (s.Self? || s.Other?) && (s.Self? <==> f.owner[p] == t)
    && (s.Other? && v.lists[s] != [] ==> v.lists[s][0] in f.owner && f.owner[v.lists[s][0]] == f.owner[p])
    && (s.Other? ==> x == |v.lists[s]| + 1 <= LIMIT)
  }

  lemma PutFirstSlot(f: Fast, v: View, t: int, s: Slot, p: int, x: int)
    requires Inv(f, v) && MayPut(f, v, t, s, p, x)
    ensures var (f', v') := PutFirst(f, v, s, p, x); Shaped(f') && SlotOk(f', v', s)
  {
    var (f', v') := PutFirst(f, v, s, p, x);
    var items := v.lists[s];
    assert SlotOk(f, v, s);
    assert p !in items by { if p in items { ItemPlace(f, v, s, p); } }
    PushFront(f.next, f.heads[s], items, p);
    forall i | 0 <= i < |[p] + items| ensures ItemOk(f', v', s, [p] + items, i) {
      if i > 0 { assert items[i - 1] in items && ItemOk(f, v, s, items, i - 1); }
    }
  }

  lemma PutFirstKeeps(f: Fast, v: View, t: int, s: Slot, p: int, x: int)
    requires Inv(f, v) && MayPut(f, v, t, s, p, x)
    ensures var (f', v') := PutFirst(f, v, s, p, x); Inv(f', v')
  {
    var (f', v') := PutFirst(f, v, s, p, x);
    PutFirstSlot(f, v, t, s, p, x);
    PutFirstFramed(f, v, t, s, p, x);
    MovingOf(f, v, t, {p});
    Kept(f, v, f', v', t, {s}, {p});
  }

  lemma PutFirstFramed(f: Fast, v: View, t: int, s: Slot, p: int, x: int)
    requires Inv(f, v) && MayPut(f, v, t, s, p, x)
    ensures var (f', v') := PutFirst(f, v, s, p, x); Shaped(f') && Framed(f, v, f', v', t, {s}, {p}) && BlockOk(f', v', p)
  {
    var (f', v') := PutFirst(f, v, s, p, x);
    PutFirstSlot(f, v, t, s, p, x);
    assert BlockOk(f, v, p);
    Nowhere(f, v, p);
  }

  // The count in the first block of a batch is the length of the batch.
  lemma BatchCount(f: Fast, v: View, t: int, c: int)
    requires Inv(f, v) && Other(t, c) in f.heads && f.heads[Other(t, c)] in f.owner
    ensures var items := v.lists[Other(t, c)];
            items != [] && items[0] == f.heads[Other(t, c)] && f.count[items[0]] == |items| <= LIMIT
  {
    var s := Other(t, c);
    assert SlotOk(f, v, s);
    assert ItemOk(f, v, s, v.lists[s], 0);
  }

  lemma KeepsFreeSelf(f: Fast, v: View, t: int, p: int)
    requires Inv(f, v) && Enabled(f, t, FreeSelf(p))
    ensures Inv(Apply(f, t, FreeSelf(p)), ViewAfter(f, v, t, FreeSelf(p)))
  {
    var s := Self(t, ClassOf(f.bytes[p]).value);
    assert SlotOk(f, v, s) && f.count[p := f.count[p]] == f.count;
    PutFirstKeeps(f, v, t, s, p, f.count[p]);
  }

  lemma KeepsFreeFirst(f: Fast, v: View, t: int, p: int)
    requires Inv(f, v) && Enabled(f, t, FreeFirst(p))
    ensures Inv(Apply(f, t, FreeFirst(p)), ViewAfter(f, v, t, FreeFirst(p)))
  {
    var s := Other(t, ClassOf(f.bytes[p]).value);
    assert SlotOk(f, v, s);
    assert v.lists[s] == [] by { if v.lists[s] != [] { ItemPlace(f, v, s, v.lists[s][0]); } }
    assert [p] + v.lists[s] == [p];
    PutFirstKeeps(f, v, t, s, p, 1);
  }

  lemma KeepsFreePush(f: Fast, v: View, t: int, p: int)
    requires Inv(f, v) && Enabled(f, t, FreePush(p))
    ensures Inv(Apply(f, t, FreePush(p)), ViewAfter(f, v, t, FreePush(p)))
  {
    var s := Other(t, ClassOf(f.bytes[p]).value);
    assert SlotOk(f, v, s);
    BatchCount(f, v, t, s.c);
    PutFirstKeeps(f, v, t, s, p, f.count[f.heads[s]] + 1);
  }

  // A block known to no list changes hands; the threads stay where they are or start shipping it.
  lemma KeepsFreeFull(f: Fast, v: View, t: int, p: int)
    requires Inv(f, v) && Enabled(f, t, FreeFull(p))
    ensures Inv(Apply(f, t, FreeFull(p)), ViewAfter(f, v, t, FreeFull(p)))
  {
    var f', v', c := Apply(f, t, FreeFull(p)), ViewAfter(f, v, t, FreeFull(p)), ClassOf(f.bytes[p]).value;
    BatchCount(f, v, t, c);
    assert BlockOk(f, v, p);
    MovingOf(f, v, t, {p});
    Aside(f, v, f', v', t, p);
  }

  lemma KeepsFreeBig(f: Fast, v: View, t: int, p: int)
    requires Inv(f, v) && Enabled(f, t, FreeBig(p))
    ensures Inv(Apply(f, t, FreeBig(p)), ViewAfter(f, v, t, FreeBig(p)))
  {
    var f', v' := Apply(f, t, FreeBig(p)), ViewAfter(f, v, t, FreeBig(p));
    MovingOf(f, v, t, {p});
    Aside(f, v, f', v', t, p);
  }

  lemma KeepsAllocNew(f: Fast, v: View, t: int, size: nat, p: int)
    requires Inv(f, v) && Enabled(f, t, AllocNew(size, p))
    ensures Inv(Apply(f, t, AllocNew(size, p)), ViewAfter(f, v, t, AllocNew(size, p)))
  {
    var f', v' := Apply(f, t, AllocNew(size, p)), ViewAfter(f, v, t, AllocNew(size, p));
    MovingOf(f, v, t, {p});
    Aside(f, v, f', v', t, p);
  }

  lemma KeepsAllocSync(f: Fast, v: View, t: int, size: nat)
    requires Inv(f, v) && Enabled(f, t, AllocSync(size))
    ensures Inv(Apply(f, t, AllocSync(size)), v)
  {
    var f', c := Apply(f, t, AllocSync(size)), RoundUp(size).index;
    assert SlotOk(f, v, Self(t, c)) && SlotOk(f, v, Sync(t, c));
    assert v.lists[Self(t, c)] == [] by {
      if v.lists[Self(t, c)] != [] { ItemPlace(f, v, Self(t, c), v.lists[Self(t, c)][0]); }
    }
    MovingOf(f, v, t, {0});
    Aside(f, v, f', v, t, 0);
  }

  lemma KeepsPopRetry(f: Fast, v: View, t: int)
    requires Inv(f, v) && Enabled(f, t, PopRetry)
    ensures Inv(Apply(f, t, PopRetry), v)
  {
    var f', c := Apply(f, t, PopRetry), f.pc[t].c;
    assert ThreadOk(f, v, t) && SlotOk(f, v, Sync(t, c));
    ItemPlace(f, v, Sync(t, c), v.lists[Sync(t, c)][0]);
    MovingOf(f, v, t, {0});
    Aside(f, v, f', v, t, 0);
  }

  lemma KeepsWalkOn(f: Fast, v: View, t: int)
    requires Inv(f, v) && Enabled(f, t, WalkOn)
    ensures Inv(Apply(f, t, WalkOn), v)
  {
    var f', s := Apply(f, t, WalkOn), Other(t, f.pc[t].c);
    assert ThreadOk(f, v, t) && SlotOk(f, v, s);
    var items := v.lists[s];
    var i :| 0 <= i < |items| && items[i] == f.pc[t].tail;
    assert LinkAt(f.next, items, 0, i);
    MovingOf(f, v, t, {0});
    Aside(f, v, f', v, t, 0);
  }

  lemma KeepsWalkEnd(f: Fast, v: View, t: int)
    requires Inv(f, v) && Enabled(f, t, WalkEnd)
    ensures Inv(Apply(f, t, WalkEnd), v)
  {
    var c, tail := f.pc[t].c, f.pc[t].tail;
    var s := Other(t, c);
    assert ThreadOk(f, v, t) && SlotOk(f, v, s);
    var items := v.lists[s];
    var i :| 0 <= i < |items| && items[i] == tail;
    assert LinkAt(f.next, items, 0, i);
    assert tail == items[|items| - 1] by {
      if i + 1 < |items| { ItemPlace(f, v, s, items[i + 1]); }
    }
    AimKeeps(f, v, t);
  }

  lemma KeepsReturnRetry(f: Fast, v: View, t: int)
    requires Inv(f, v) && Enabled(f, t, ReturnRetry)
    ensures Inv(Apply(f, t, ReturnRetry), v)
  {
    assert ThreadOk(f, v, t);
    ItemPlace(f, v, Other(t, f.pc[t].c), f.pc[t].tail);
    AimKeeps(f, v, t);
  }

  // Point the end of the batch at what the owner's sync list starts with now.
  ghost function Aim(f: Fast, t: int): Fast
    requires Shaped(f) && t in f.pc && (f.pc[t].Walk? || f.pc[t].Return?)
    requires f.pc[t].head in f.owner && Sync(f.owner[f.pc[t].head], f.pc[t].c) in f.heads && f.pc[t].tail in f.next
  {
    var seen := f.heads[Sync(f.owner[f.pc[t].head], f.pc[t].c)];
    f.(pc := f.pc[t := Return(f.pc[t].c, f.pc[t].ptr, f.pc[t].head, f.pc[t].tail, seen)], next := f.next[f.pc[t].tail := seen])
  }

  ghost predicate Aiming(f: Fast, v: View, t: int)
    requires Inv(f, v)
  {
    && t in f.pc && (f.pc[t].Walk? || f.pc[t].Return?)
    && f.pc[t].head in f.owner && Sync(f.owner[f.pc[t].head], f.pc[t].c) in f.heads && Other(t, f.pc[t].c) in f.heads
    && v.lists[Other(t, f.pc[t].c)] != [] && f.pc[t].tail == v.lists[Other(t, f.pc[t].c)][|v.lists[Other(t, f.pc[t].c)]| - 1]
    && f.pc[t].tail in f.owner
  }

  lemma AimSlot(f: Fast, v: View, t: int)
    requires Inv(f, v) && Aiming(f, v, t)
    ensures Shaped(Aim(f, t)) && SlotOk(Aim(f, t), v, Other(t, f.pc[t].c))
  {
    var f', s := Aim(f, t), Other(t, f.pc[t].c);
    var items := v.lists[s];
    assert SlotOk(f, v, s);
    Retarget(f.next, f.heads[s], items, LastLink(f, s), f'.pc[t].seen);
    forall i | 0 <= i < |items| ensures ItemOk(f', v, s, items, i) { assert ItemOk(f, v, s, items, i); }
  }

  lemma AimKeeps(f: Fast, v: View, t: int)
    requires Inv(f, v) && Aiming(f, v, t)
    ensures Inv(Aim(f, t), v)
  {
    var f', s, tail := Aim(f, t), Other(t, f.pc[t].c), f.pc[t].tail;
    AimSlot(f, v, t);
    ItemPlace(f, v, s, tail);
    Elsewhere(f, v, s, tail);
    assert ThreadOk(f, v, t) && BlockOk(f, v, tail);
    MovingOf(f, v, t, {tail});
    Kept(f, v, f', v, t, {s}, {tail});
  }

  lemma PopWinSlots(f: Fast, v: View, t: int)
    requires Inv(f, v) && Enabled(f, t, PopWin)
    ensures var f', v', c := Apply(f, t, PopWin), ViewAfter(f, v, t, PopWin), f.pc[t].c;
            && v.lists[Sync(t, c)] != [] && v.lists[Sync(t, c)][0] == f.pc[t].seen
            && Shaped(f') && SlotOk(f', v', Sync(t, c)) && SlotOk(f', v', Self(t, c))
  {
    var f', v', c := Apply(f, t, PopWin), ViewAfter(f, v, t, PopWin), f.pc[t].c;
    var from, to := Sync(t, c), Self(t, c);
    var items := v.lists[from];
    assert ThreadOk(f, v, t) && SlotOk(f, v, from) && SlotOk(f, v, to);
    PopFront(f.next, f.pc[t].seen, items);
    forall i | 0 <= i < |items[1..]| ensures ItemOk(f', v', to, items[1..], i) {
      assert ItemOk(f, v, from, items, i + 1) && items[1..][i] == items[i + 1] && items[i + 1] in items[1..];
    }
  }

  lemma PopWinBlocks(f: Fast, v: View, t: int)
    requires Inv(f, v) && Enabled(f, t, PopWin) && Shaped(Apply(f, t, PopWin))
    ensures var f', v', from := Apply(f, t, PopWin), ViewAfter(f, v, t, PopWin), Sync(t, f.pc[t].c);
            && (forall b :: b in v.lists[from] ==> b in f.owner && v.place[b] == In(from) && BlockOk(f', v', b))
            && (forall b :: b in f.owner && b !in v.lists[from] ==> Same(f, v, f', v', b))
  {
    var f', v', from := Apply(f, t, PopWin), ViewAfter(f, v, t, PopWin), Sync(t, f.pc[t].c);
    PopWinSlots(f, v, t);
    forall b | b in v.lists[from] ensures b in f.owner && v.place[b] == In(from) && BlockOk(f', v', b) {
      ItemPlace(f, v, from, b);
      assert BlockOk(f, v, b);
      assert b != f.pc[t].seen ==> b in v.lists[from][1..];
    }
  }

  lemma PopWinUntouched(f: Fast, v: View, t: int)
    requires Inv(f, v) && Enabled(f, t, PopWin) && Shaped(Apply(f, t, PopWin))
    ensures var from := Sync(t, f.pc[t].c);
            Untouched(f, v, Apply(f, t, PopWin), ViewAfter(f, v, t, PopWin), {from, Self(t, f.pc[t].c)}, Elems(v.lists[from]))
  {
    var f', v', from := Apply(f, t, PopWin), ViewAfter(f, v, t, PopWin), Sync(t, f.pc[t].c);
    PopWinBlocks(f, v, t);
    forall s | s in f.heads && s !in {from, Self(t, f.pc[t].c)} ensures SameSlot(f, v, f', v', s) {}
  }

  lemma PopWinReached(f: Fast, v: View, t: int)
    requires Inv(f, v) && Enabled(f, t, PopWin)
    ensures var from := Sync(t, f.pc[t].c);
            Reached(f, v, ViewAfter(f, v, t, PopWin), t, {from, Self(t, f.pc[t].c)}, Elems(v.lists[from]))
  {
    assert ThreadOk(f, v, t);
    ListsApart(f, v, Sync(t, f.pc[t].c));
  }

  lemma PopWinFramed(f: Fast, v: View, t: int)
    requires Inv(f, v) && Enabled(f, t, PopWin)
    ensures var from := Sync(t, f.pc[t].c);
            Framed(f, v, Apply(f, t, PopWin), ViewAfter(f, v, t, PopWin), t, {from, Self(t, f.pc[t].c)}, Elems(v.lists[from]))
  {
    var from := Sync(t, f.pc[t].c);
    PopWinSlots(f, v, t);
    PopWinUntouched(f, v, t);
    PopWinReached(f, v, t);
    forall b | b in v.lists[from] ensures b in f.owner && v.place[b] == In(from) { ItemPlace(f, v, from, b); }
  }

  lemma KeepsPopWin(f: Fast, v: View, t: int)
    requires Inv(f, v) && Enabled(f, t, PopWin)
    ensures Inv(Apply(f, t, PopWin), ViewAfter(f, v, t, PopWin))
  {
    var f', v', c := Apply(f, t, PopWin), ViewAfter(f, v, t, PopWin), f.pc[t].c;
    var from := Sync(t, c);
    PopWinSlots(f, v, t);
    PopWinBlocks(f, v, t);
    PopWinFramed(f, v, t);
    MovingOf(f, v, t, Elems(v.lists[from]));
    Kept(f, v, f', v', t, {from, Self(t, c)}, Elems(v.lists[from]));
  }

  lemma ReturnWinShape(f: Fast, v: View, t: int)
    requires Inv(f, v) && Enabled(f, t, ReturnWin)
    ensures var c, p, h := f.pc[t].c, f.pc[t].ptr, f.pc[t].head;
            var from, to := Other(t, c), Sync(f.owner[h], c);
            && v.lists[from] != [] && v.lists[from][0] == h && p in f.owner && v.place[p] == Moving(t)
            && Shaped(Apply(f, t, ReturnWin))
    ensures forall b :: b in v.lists[Other(t, f.pc[t].c)] ==>
              b in f.owner && v.place[b] == In(Other(t, f.pc[t].c)) && b !in v.lists[Sync(f.owner[f.pc[t].head], f.pc[t].c)]
  {
    var c, h := f.pc[t].c, f.pc[t].head;
    var from, to := Other(t, c), Sync(f.owner[h], c);
    assert ThreadOk(f, v, t);
    forall b | b in v.lists[from] ensures b in f.owner && v.place[b] == In(from) && b !in v.lists[to] {
      ItemPlace(f, v, from, b);
      if b in v.lists[to] { ItemPlace(f, v, to, b); }
    }
  }

  lemma ReturnWinBatch(f: Fast, v: View, t: int)
    requires Inv(f, v) && Enabled(f, t, ReturnWin) && Shaped(Apply(f, t, ReturnWin))
    ensures SlotOk(Apply(f, t, ReturnWin), ViewAfter(f, v, t, ReturnWin), Sync(f.owner[f.pc[t].head], f.pc[t].c))
  {
    var f', v' := Apply(f, t, ReturnWin), ViewAfter(f, v, t, ReturnWin);
    var c, p, h, seen := f.pc[t].c, f.pc[t].ptr, f.pc[t].head, f.pc[t].seen;
    var from, to := Other(t, c), Sync(f.owner[h], c);
    var batch, old_ := v.lists[from], v.lists[to];
    ReturnWinShape(f, v, t);
    assert SlotOk(f, v, from) && SlotOk(f, v, to);
    Append(f.next, h, batch, seen, old_);
    Nowhere(f, v, p);
    OtherLinks(f.next, f'.next, h, batch + old_, 0);
    forall i | 0 <= i < |batch + old_| ensures ItemOk(f', v', to, batch + old_, i) {
      if i < |batch| {
        assert ItemOk(f, v, from, batch, i) && batch[i] in batch;
      } else {
        assert ItemOk(f, v, to, old_, i - |batch|) && old_[i - |batch|] in old_;
      }
    }
  }

  lemma ReturnWinStart(f: Fast, v: View, t: int)
    requires Inv(f, v) && Enabled(f, t, ReturnWin) && Shaped(Apply(f, t, ReturnWin))
    ensures SlotOk(Apply(f, t, ReturnWin), ViewAfter(f, v, t, ReturnWin), Other(t, f.pc[t].c))
  {
    var f', v', s, p := Apply(f, t, ReturnWin), ViewAfter(f, v, t, ReturnWin), Other(t, f.pc[t].c), f.pc[t].ptr;
    assert ThreadOk(f, v, t);
    assert LinkAt(f'.next, [p], 0, 0) && ItemOk(f', v', s, [p], 0);
  }

  lemma ReturnWinBlocks(f: Fast, v: View, t: int)
    requires Inv(f, v) && Enabled(f, t, ReturnWin) && Shaped(Apply(f, t, ReturnWin))
    ensures var f', v', from := Apply(f, t, ReturnWin), ViewAfter(f, v, t, ReturnWin), Other(t, f.pc[t].c);
            && (forall b :: b in v.lists[from] + [f.pc[t].ptr] ==> b in f.owner && BlockOk(f', v', b))
            && (forall b :: b in f.owner && b !in v.lists[from] + [f.pc[t].ptr] ==> Same(f, v, f', v', b))
  {
    var f', v', from := Apply(f, t, ReturnWin), ViewAfter(f, v, t, ReturnWin), Other(t, f.pc[t].c);
    ReturnWinShape(f, v, t);
    forall b | b in v.lists[from] + [f.pc[t].ptr] ensures b in f.owner && BlockOk(f', v', b) {
      assert BlockOk(f, v, b);
    }
  }

  lemma ReturnWinUntouched(f: Fast, v: View, t: int)
    requires Inv(f, v) && Enabled(f, t, ReturnWin) && Shaped(Apply(f, t, ReturnWin))
    ensures var from, to := Other(t, f.pc[t].c), Sync(f.owner[f.pc[t].head], f.pc[t].c);
            Untouched(f, v, Apply(f, t, ReturnWin), ViewAfter(f, v, t, ReturnWin), {from, to}, Elems(v.lists[from] + [f.pc[t].ptr]))
  {
    var f', v' := Apply(f, t, ReturnWin), ViewAfter(f, v, t, ReturnWin);
    var from, to := Other(t, f.pc[t].c), Sync(f.owner[f.pc[t].head], f.pc[t].c);
    ReturnWinBlocks(f, v, t);
    forall s | s in f.heads && s !in {from, to} ensures SameSlot(f, v, f', v', s) {}
  }

  lemma ReturnWinReached(f: Fast, v: View, t: int)
    requires Inv(f, v) && Enabled(f, t, ReturnWin)
    ensures var from, to := Other(t, f.pc[t].c), Sync(f.owner[f.pc[t].head], f.pc[t].c);
            Reached(f, v, ViewAfter(f, v, t, ReturnWin), t, {from, to}, Elems(v.lists[from] + [f.pc[t].ptr]))
  {
    ReturnWinShape(f, v, t);
    Nowhere(f, v, f.pc[t].ptr);
    ListsApart(f, v, Other(t, f.pc[t].c));
  }

  lemma ReturnWinFramed(f: Fast, v: View, t: int)
    requires Inv(f, v) && Enabled(f, t, ReturnWin)
    ensures var from, to := Other(t, f.pc[t].c), Sync(f.owner[f.pc[t].head], f.pc[t].c);
            Framed(f, v, Apply(f, t, ReturnWin), ViewAfter(f, v, t, ReturnWin), t, {from, to}, Elems(v.lists[from] + [f.pc[t].ptr]))
  {
    ReturnWinShape(f, v, t);
    ReturnWinUntouched(f, v, t);
    ReturnWinReached(f, v, t);
  }

  lemma KeepsReturnWin(f: Fast, v: View, t: int)
    requires Inv(f, v) && Enabled(f, t, ReturnWin)
    ensures Inv(Apply(f, t, ReturnWin), ViewAfter(f, v, t, ReturnWin))
  {
    var f', v' := Apply(f, t, ReturnWin), ViewAfter(f, v, t, ReturnWin);
    var from, to := Other(t, f.pc[t].c), Sync(f.owner[f.pc[t].head], f.pc[t].c);
    var moved := Elems(v.lists[from] + [f.pc[t].ptr]);
    ReturnWinShape(f, v, t);
    ReturnWinBatch(f, v, t);
    ReturnWinStart(f, v, t);
    ReturnWinBlocks(f, v, t);
    ReturnWinFramed(f, v, t);
    MovingOf(f, v, t, moved);
    Kept(f, v, f', v', t, {from, to}, moved);
  }

  // ---------- the theorems ----------

  lemma KeepsAlloc(f: Fast, v: View, t: int, m: Move)
    requires Inv(f, v) && Enabled(f, t, m) && (m.AllocSelf? || m.AllocSync? || m.AllocNew? || m.PopWin? || m.PopRetry?)
    ensures Inv(Apply(f, t, m), ViewAfter(f, v, t, m))
  {
    match m
    case AllocSelf(size) => TakeFirstKeeps(f, v, t, Self(t, RoundUp(size).index));
    case AllocSync(size) => KeepsAllocSync(f, v, t, size);
    case AllocNew(size, p) => KeepsAllocNew(f, v, t, size, p);
    case PopWin => KeepsPopWin(f, v, t);
    case PopRetry => KeepsPopRetry(f, v, t);
  }

  lemma KeepsFree(f: Fast, v: View, t: int, m: Move)
    requires Inv(f, v) && Enabled(f, t, m) && (m.FreeSelf? || m.FreeFirst? || m.FreePush? || m.FreeFull? || m.FreeBig?)
    ensures Inv(Apply(f, t, m), ViewAfter(f, v, t, m))
  {
    match m
    case FreeSelf(p) => KeepsFreeSelf(f, v, t, p);
    case FreeFirst(p) => KeepsFreeFirst(f, v, t, p);
    case FreePush(p) => KeepsFreePush(f, v, t, p);
    case FreeFull(p) => KeepsFreeFull(f, v, t, p);
    case FreeBig(p) => KeepsFreeBig(f, v, t, p);
  }

  /** Every step of every thread keeps the invariant. */
  lemma Keeps(f: Fast, v: View, t: int, m: Move)
    requires Inv(f, v) && Enabled(f, t, m)
    ensures Inv(Apply(f, t, m), ViewAfter(f, v, t, m))
  {
    if m.AllocSelf? || m.AllocSync? || m.AllocNew? || m.PopWin? || m.PopRetry? {
      KeepsAlloc(f, v, t, m);
    } else if m.FreeSelf? || m.FreeFirst? || m.FreePush? || m.FreeFull? || m.FreeBig? {
      KeepsFree(f, v, t, m);
    } else {
      match m
      case WalkOn => KeepsWalkOn(f, v, t);
      case WalkEnd => KeepsWalkEnd(f, v, t);
      case ReturnWin => KeepsReturnWin(f, v, t);
      case ReturnRetry => KeepsReturnRetry(f, v, t);
    }
  }

  ghost predicate Steps(f: Fast, t: int, m: Move, f': Fast) {
    Shaped(f) && Enabled(f, t, m) && f' == Apply(f, t, m)
  }

  ghost predicate OneStep(f: Fast, f': Fast) {
    exists t, m :: Steps(f, t, m, f')
  }

  ghost predicate IsRun(run: seq<Fast>) {
    |run| > 0 && Initial(run[0]) && forall i :: 0 < i < |run| ==> OneStep(run[i - 1], run[i])
  }

  lemma InitialInv(f: Fast) returns (v: View)
    requires Initial(f)
    ensures Inv(f, v)
  {
    v := View(map s | s in f.heads :: [], map[]);
    forall s | s in f.heads ensures SlotOk(f, v, s) {}
  }

  lemma StepKeeps(f: Fast, v: View, f': Fast) returns (v': View)
    requires Inv(f, v) && OneStep(f, f')
    ensures Inv(f', v')
  {
    var t, m :| Steps(f, t, m, f');
    Keeps(f, v, t, m);
    v' := ViewAfter(f, v, t, m);
  }

  /** In every interleaving the words can be read as lists that hold each block once. */
  lemma {:induction false} RunsKeep(run: seq<Fast>, k: nat) returns (v: View)
    requires IsRun(run) && k < |run|
    ensures Inv(run[k], v)
  {
    if k == 0 {
      v := InitialInv(run[0]);
    } else {
      var v0 := RunsKeep(run, k - 1);
      v := StepKeeps(run[k - 1], v0, run[k]);
    }
  }

  // The three kinds of place a block can be in.
  ghost predicate OnList(v: View, s: Slot, i: int, b: int) {
    s in v.lists && 0 <= i < |v.lists[s]| && v.lists[s][i] == b
  }

  ghost predicate Shipped(f: Fast, t: int, b: int) {
    t in f.pc && (f.pc[t].Walk? || f.pc[t].Return?) && f.pc[t].ptr == b
  }

  /** Each block is in exactly one place: with the program, being freed by one
      thread, or at one position of one list. */
  lemma OnePlace(f: Fast, v: View, b: int)
    requires Inv(f, v) && b in f.owner
    ensures b in f.held || (exists t :: Shipped(f, t, b)) || (exists s, i :: OnList(v, s, i, b))
    ensures forall t :: Shipped(f, t, b) ==> b !in f.held
    ensures forall s, i :: OnList(v, s, i, b) ==> b !in f.held && forall t :: !Shipped(f, t, b)
    ensures forall t, u :: Shipped(f, t, b) && Shipped(f, u, b) ==> t == u
    ensures forall s, i, s', i' :: OnList(v, s, i, b) && OnList(v, s', i', b) ==> s == s' && i == i'
  {
    assert BlockOk(f, v, b);
    match v.place[b] {
      case Held =>
      case Moving(t) => assert Shipped(f, t, b);
      case In(s) =>
        var i :| 0 <= i < |v.lists[s]| && v.lists[s][i] == b;
        assert OnList(v, s, i, b);
    }
    forall t | Shipped(f, t, b) ensures v.place[b] == Moving(t) { assert ThreadOk(f, v, t); }
    forall s, i | OnList(v, s, i, b) ensures v.place[b] == In(s) && SlotOk(f, v, s) {
      assert SlotOk(f, v, s) && ItemOk(f, v, s, v.lists[s], i);
    }
  }

  /** A thread's own lists hold only blocks it allocated; a batch has one owner,
      another thread, at most 16 blocks, and its length in its first block. */
  lemma ListsOwned(f: Fast, v: View, s: Slot)
    requires Inv(f, v) && s in f.heads
    ensures s.Self? || s.Sync? ==> forall b :: b in v.lists[s] ==> b in f.owner && f.owner[b] == s.t
    ensures s.Other? && f.heads[s] != 0 ==>
      && f.heads[s] in f.owner && f.owner[f.heads[s]] != s.t && f.count[f.heads[s]] == |v.lists[s]| <= LIMIT
      && forall b :: b in v.lists[s] ==> b in f.owner && f.owner[b] == f.owner[f.heads[s]]
  {
    forall b | b in v.lists[s] ensures b in f.owner && (s.Other? || f.owner[b] == s.t) { ItemPlace(f, v, s, b); }
    assert SlotOk(f, v, s);
    if s.Other? && f.heads[s] != 0 {
      ItemPlace(f, v, s, f.heads[s]);
      BatchCount(f, v, s.t, s.c);
      forall b | b in v.lists[s] ensures f.owner[b] == f.owner[f.heads[s]] { ItemPlace(f, v, s, b); }
    }
  }

  /** A block comes out of a list big enough for any request that looks there,
      nobody else has it, and it belongs to the thread that gets it. */
  lemma PoppedFits(f: Fast, v: View, s: Slot, size: nat)
    requires Inv(f, v) && s in f.heads && !s.Other? && f.heads[s] in f.owner
    requires RoundUp(size).Cached? && RoundUp(size).index == s.c
    ensures f.bytes[f.heads[s]] == Bytes(RoundUp(size)) >= size
    ensures f.heads[s] !in f.held && f.owner[f.heads[s]] == s.t
  {
    assert SlotOk(f, v, s);
    ItemPlace(f, v, s, f.heads[s]);
    ClassesAgree(size, size);
  }

  // The block that a step gives to the program, and the one the program gives up.
  ghost function Gives(f: Fast, t: int, m: Move): set<int>
    requires Shaped(f) && Enabled(f, t, m)
  {
    match m
    case AllocSelf(size) => {f.heads[Self(t, RoundUp(size).index)]}
    case AllocNew(size, p) => {p}
    case PopWin => {f.pc[t].seen}
    case _ => {}
  }

  ghost function Takes(m: Move): set<int> {
    match m
    case FreeSelf(p) => {p}
    case FreeFirst(p) => {p}
    case FreePush(p) => {p}
    case FreeFull(p) => {p}
    case FreeBig(p) => {p}
    case _ => {}
  }

  lemma GivesUnheld(f: Fast, v: View, t: int, m: Move)
    requires Inv(f, v) && Enabled(f, t, m)
    ensures Gives(f, t, m) !! f.held
  {
    if m.AllocSelf? {
      PoppedFits(f, v, Self(t, RoundUp(m.size).index), m.size);
    } else if m.PopWin? {
      PopWinSlots(f, v, t);
      ItemPlace(f, v, Sync(t, f.pc[t].c), f.pc[t].seen);
    }
  }

  /** No block is given to two users: a step gives at most one block, which
      nobody holds, and takes back only what is held. */
  lemma GivenOnce(f: Fast, v: View, t: int, m: Move)
    requires Inv(f, v) && Enabled(f, t, m)
    ensures Gives(f, t, m) !! f.held && Takes(m) <= f.held
    ensures Apply(f, t, m).held == f.held + Gives(f, t, m) - Takes(m)
  {
    GivesUnheld(f, v, t, m);
  }

  datatype Label = Label(t: int, m: Move)

  ghost predicate StepAt(run: seq<Fast>, steps: seq<Label>, k: nat) {
    k < |steps| && k + 1 < |run| && Steps(run[k], steps[k].t, steps[k].m, run[k + 1])
  }

  // A run, with the step that leads from each state to the next.
  ghost predicate Labelled(run: seq<Fast>, steps: seq<Label>) {
    && |run| == |steps| + 1 && Initial(run[0])
    && forall k {:trigger StepAt(run, steps, k)} :: 0 <= k < |steps| ==> StepAt(run, steps, k)
  }

  lemma BlockStays(f: Fast, t: int, m: Move, b: int)
    requires Shaped(f) && Enabled(f, t, m) && b in f.owner && m != FreeBig(b)
    ensures var f' := Apply(f, t, m);
            b in f'.owner && f'.owner[b] == f.owner[b] && b in f.bytes && b in f'.bytes && f'.bytes[b] == f.bytes[b]
  {
  }

  // Block b is with the program, with a thread that is freeing it, or on a list, and in no two of these places.
  ghost predicate InOnePlace(f: Fast, v: View, b: int) {
    && (b in f.held || (exists t :: Shipped(f, t, b)) || (exists s, i :: OnList(v, s, i, b)))
    && (forall t :: Shipped(f, t, b) ==> b !in f.held)
    && (forall s, i :: OnList(v, s, i, b) ==> b !in f.held && forall t :: !Shipped(f, t, b))
    && (forall t, u :: Shipped(f, t, b) && Shipped(f, u, b) ==> t == u)
    && (forall s, i, s', i' :: OnList(v, s, i, b) && OnList(v, s', i', b) ==> s == s' && i == i')
  }

  // A size that is a whole number of cache lines of one of the classes, or too big for them.
  predicate IsRounded(bytes: int) {
    bytes >= 0 && Bytes(RoundUp(bytes)) == bytes
  }

  lemma RoundsOnce(size: nat)
    ensures IsRounded(Bytes(RoundUp(size)))
  {
  }

  lemma {:induction false} SizesRounded(run: seq<Fast>, steps: seq<Label>, k: nat, b: int)
    requires Labelled(run, steps) && k < |run| && b in run[k].owner
    ensures b in run[k].bytes && IsRounded(run[k].bytes[b])
    decreases k
  {
    if k > 0 {
      assert StepAt(run, steps, k - 1);
      var m := steps[k - 1].m;
      if m.AllocNew? && m.p == b {
        RoundsOnce(m.size);
      } else {
        SizesRounded(run, steps, k - 1, b);
        BlockStays(run[k - 1], steps[k - 1].t, m, b);
      }
    }
  }

  lemma {:induction false} StaysOut(run: seq<Fast>, steps: seq<Label>, b: int, i: nat, k: nat)
    requires Labelled(run, steps) && i <= k < |run| && b in run[i].owner
    requires forall j :: i <= j < k ==> steps[j].m != FreeBig(b)
    ensures b in run[k].owner && run[k].owner[b] == run[i].owner[b]
    ensures i < k ==> b in run[i].bytes && b in run[k].bytes && run[k].bytes[b] == run[i].bytes[b]
    decreases k
  {
    if i < k {
      StaysOut(run, steps, b, i, k - 1);
      assert StepAt(run, steps, k - 1);
      BlockStays(run[k - 1], steps[k - 1].t, steps[k - 1].m, b);
    }
  }

  lemma InItsPlace(f: Fast, v: View, b: int)
    requires Inv(f, v) && b in f.owner
    ensures InOnePlace(f, v, b)
  {
    OnePlace(f, v, b);
  }

  /** No block is lost: from the time it is allocated until it is given back to
      the heap as one too big for the lists, a block keeps its owner and its
      size and is in exactly one place. */
  lemma Conserved(run: seq<Fast>, steps: seq<Label>, b: int, i: nat, k: nat) returns (v: View)
    requires Labelled(run, steps) && i <= k < |run| && b in run[i].owner
    requires forall j :: i <= j < k ==> steps[j].m != FreeBig(b)
    ensures b in run[k].owner && run[k].owner[b] == run[i].owner[b]
    ensures i < k ==> b in run[i].bytes && b in run[k].bytes && run[k].bytes[b] == run[i].bytes[b]
    ensures Inv(run[k], v) && InOnePlace(run[k], v, b)
  {
    forall j | 0 < j < |run| ensures OneStep(run[j - 1], run[j]) { assert StepAt(run, steps, j - 1); }
    v := RunsKeep(run, k);
    StaysOut(run, steps, b, i, k);
    InItsPlace(run[k], v, b);
  }

  /** A block that leaves the caches for the heap is larger than the largest class. */
  lemma OnlyBigLeave(run: seq<Fast>, steps: seq<Label>, k: nat, b: int)
    requires Labelled(run, steps) && k < |steps| && b in run[k].owner && b !in run[k + 1].owner
    ensures steps[k].m == FreeBig(b) && b in run[k].held
    ensures b in run[k].bytes && run[k].bytes[b] > 64 * CACHE_LINE
  {
    assert StepAt(run, steps, k);
    SizesRounded(run, steps, k, b);
    if steps[k].m != FreeBig(b) { BlockStays(run[k], steps[k].t, steps[k].m, b); }
    ClassesAgree(run[k].bytes[b], 0);
  }

  ghost predicate Can(f: Fast, t: int, m: Move)
    requires Shaped(f)
  {
    Enabled(f, t, m)
  }

  // The head of a list that is not empty is a block.
  lemma HeadIsBlock(f: Fast, v: View, s: Slot)
    requires Inv(f, v) && s in f.heads && f.heads[s] != 0
    ensures f.heads[s] in f.owner
  {
    assert SlotOk(f, v, s);
    ItemPlace(f, v, s, f.heads[s]);
  }

  lemma CanAllocate(f: Fast, v: View, t: int, size: nat, p: int)
    requires Inv(f, v) && 0 <= t < f.n && f.pc[t] == Idle && p > 0 && p !in f.owner
    ensures Can(f, t, AllocSelf(size)) || Can(f, t, AllocSync(size)) || Can(f, t, AllocNew(size, p))
  {
    var r := RoundUp(size);
    if r.Cached? {
      assert IsSlot(f.n, Self(t, r.index)) && IsSlot(f.n, Sync(t, r.index));
      if f.heads[Self(t, r.index)] != 0 { HeadIsBlock(f, v, Self(t, r.index)); }
      if f.heads[Sync(t, r.index)] != 0 { HeadIsBlock(f, v, Sync(t, r.index)); }
    }
  }

  lemma CanFree(f: Fast, v: View, t: int, p: int)
    requires Inv(f, v) && 0 <= t < f.n && f.pc[t] == Idle && p in f.held
    ensures Can(f, t, FreeSelf(p)) || Can(f, t, FreeFirst(p)) || Can(f, t, FreePush(p)) || Can(f, t, FreeFull(p)) || Can(f, t, FreeBig(p))
  {
    assert BlockOk(f, v, p);
    if ClassOf(f.bytes[p]).Some? {
      var c := ClassOf(f.bytes[p]).value;
      assert IsSlot(f.n, Other(t, c)) && Freeing(f, t, p, c);
      if f.heads[Other(t, c)] != 0 { HeadIsBlock(f, v, Other(t, c)); }
    }
  }

  lemma PopNeverStuck(f: Fast, v: View, t: int)
    requires Inv(f, v) && 0 <= t < f.n && f.pc[t].Pop?
    ensures Can(f, t, PopWin) || Can(f, t, PopRetry)
  {
    assert ThreadOk(f, v, t);
    var s := Sync(t, f.pc[t].c);
    assert IsSlot(f.n, s) && SlotOk(f, v, s);
    ItemPlace(f, v, s, v.lists[s][0]);
  }

  lemma WalkNeverStuck(f: Fast, v: View, t: int)
    requires Inv(f, v) && 0 <= t < f.n && f.pc[t].Walk?
    ensures Can(f, t, WalkOn) || Can(f, t, WalkEnd)
  {
    assert ThreadOk(f, v, t);
    var c, h := f.pc[t].c, f.pc[t].head;
    ItemPlace(f, v, Other(t, c), f.pc[t].tail);
    ItemPlace(f, v, Other(t, c), h);
    assert BlockOk(f, v, h) && IsSlot(f.n, Sync(f.owner[h], c));
  }

  lemma ReturnNeverStuck(f: Fast, v: View, t: int)
    requires Inv(f, v) && 0 <= t < f.n && f.pc[t].Return?
    ensures Can(f, t, ReturnWin) || Can(f, t, ReturnRetry)
  {
    assert ThreadOk(f, v, t);
    var c, h := f.pc[t].c, f.pc[t].head;
    ItemPlace(f, v, Other(t, c), h);
    assert BlockOk(f, v, h) && IsSlot(f.n, Sync(f.owner[h], c));
  }

  /** No thread ever follows a null or stale link: whatever it is asked to
      allocate or to free, and wherever it stands in a loop, it has a next step. */
  lemma NeverStuck(f: Fast, v: View, t: int)
    requires Inv(f, v) && 0 <= t < f.n
    ensures f.pc[t] == Idle ==> forall size: nat, p :: p > 0 && p !in f.owner ==>
      Can(f, t, AllocSelf(size)) || Can(f, t, AllocSync(size)) || Can(f, t, AllocNew(size, p))
    ensures f.pc[t] == Idle ==> forall p :: p in f.held ==>
      Can(f, t, FreeSelf(p)) || Can(f, t, FreeFirst(p)) || Can(f, t, FreePush(p)) || Can(f, t, FreeFull(p)) || Can(f, t, FreeBig(p))
    ensures f.pc[t].Pop? ==> Can(f, t, PopWin) || Can(f, t, PopRetry)
    ensures f.pc[t].Walk? ==> Can(f, t, WalkOn) || Can(f, t, WalkEnd)
    ensures f.pc[t].Return? ==> Can(f, t, ReturnWin) || Can(f, t, ReturnRetry)
  {
    match f.pc[t] {
      case Idle =>
        forall size: nat, p | p > 0 && p !in f.owner
          ensures Can(f, t, AllocSelf(size)) || Can(f, t, AllocSync(size)) || Can(f, t, AllocNew(size, p))
        {
          CanAllocate(f, v, t, size, p);
        }
        forall p | p in f.held
          ensures Can(f, t, FreeSelf(p)) || Can(f, t, FreeFirst(p)) || Can(f, t, FreePush(p)) || Can(f, t, FreeFull(p)) || Can(f, t, FreeBig(p))
        {
          CanFree(f, v, t, p);
        }
      case Pop(_, _) => PopNeverStuck(f, v, t);
      case Walk(_, _, _, _) => WalkNeverStuck(f, v, t);
      case Return(_, _, _, _, _) => ReturnNeverStuck(f, v, t);
    }
  }
}
