/** The hand-over of blocks freed by a thread that does not own them: any number
    of threads push onto the owner's queue, and the owner takes the whole queue
    at once and releases its blocks. Each access to a queue head is one step. */
module DeferredFree {
  import opened Chains
  import opened Sums

  datatype Pc =
    | Idle
    | Push(b: int, seen: int)   // __kmp_bget_enqueue: about to replace the head
    | Take(seen: int)           // __kmp_bget_dequeue: about to replace the head by null
    | Drain(p: int)             // walking over the chain it took

  // head: bget_list of each thread.  flink: the first link word of each block.
  // owner, size: bthr and the size counted for each block.  direct: blocks
  // obtained from the system on their own.  held: what the program has.
  // total: totalloc of each thread.
  datatype Heaps = Heaps(n: nat, head: map<int, int>, flink: map<int, int>, owner: map<int, int>, size: map<int, int>,
                         direct: set<int>, held: set<int>, total: seq<int>, pc: map<int, Pc>)

  ghost predicate Shaped(h: Heaps) {
    && |h.total| == h.n
    && (forall t :: t in h.head <==> 0 <= t < h.n) && (forall t :: t in h.pc <==> 0 <= t < h.n)
    && h.flink.Keys == h.owner.Keys && h.size.Keys == h.owner.Keys && 0 !in h.owner
    && (forall b :: b in h.owner ==> 0 <= h.owner[b] < h.n)
  }

  ghost predicate Initial(h: Heaps) {
    && Shaped(h) && h.owner == map[] && h.held == {} && h.direct == {}
    && (forall t :: 0 <= t < h.n ==> h.head[t] == 0 && h.total[t] == 0 && h.pc[t] == Idle)
  }

  datatype Move =
    | Get(b: int, size: int, isDirect: bool)
    | FreeDirect(b: int) | FreeOwn(b: int) | FreeRemote(b: int)
    | PushWin | PushRetry
    | LookEmpty | Look | TakeWin | TakeRetry
    | DrainOne | DrainEnd

  ghost predicate Enabled(h: Heaps, t: int, m: Move)
    requires Shaped(h)
  {
    && 0 <= t < h.n
    && match m
       case Get(b, size, isDirect) => h.pc[t].Idle? && b != 0 && b !in h.owner && size > 0
       case FreeDirect(b) => h.pc[t].Idle? && b in h.held && b in h.owner && b in h.direct
       case FreeOwn(b) => h.pc[t].Idle? && b in h.held && b in h.owner && b !in h.direct && h.owner[b] == t
       case FreeRemote(b) => h.pc[t].Idle? && b in h.held && b in h.owner && b !in h.direct && h.owner[b] != t
       case PushWin => h.pc[t].Push? && h.pc[t].b in h.owner && h.head[h.owner[h.pc[t].b]] == h.pc[t].seen
       case PushRetry => h.pc[t].Push? && h.pc[t].b in h.owner && h.head[h.owner[h.pc[t].b]] != h.pc[t].seen
       case LookEmpty => h.pc[t].Idle? && h.head[t] == 0
       case Look => h.pc[t].Idle? && h.head[t] != 0
       case TakeWin => h.pc[t].Take? && h.head[t] == h.pc[t].seen
       case TakeRetry => h.pc[t].Take? && h.head[t] != h.pc[t].seen
       case DrainOne => h.pc[t].Drain? && h.pc[t].p in h.owner
       case DrainEnd => h.pc[t].Drain? && h.pc[t].p == 0
  }

  // brel for a block of the releasing thread's own heap, or a direct one: the size is
  // debited from the releasing thread and the block is gone.
  ghost function Gone(h: Heaps, t: int, b: int): Heaps
    requires Shaped(h) && 0 <= t < h.n && b in h.owner
  {
    h.(total := h.total[t := h.total[t] - h.size[b]], owner := h.owner - {b}, size := h.size - {b},
       flink := h.flink - {b}, held := h.held - {b}, direct := h.direct - {b})
  }

  ghost function Apply(h: Heaps, t: int, m: Move): Heaps
    requires Shaped(h) && Enabled(h, t, m)
  {
    match m
    case Get(b, size, isDirect) =>
      h.(owner := h.owner[b := t], size := h.size[b := size], flink := h.flink[b := 0],
         direct := if isDirect then h.direct + {b} else h.direct, held := h.held + {b},
         total := h.total[t := h.total[t] + size])
    case FreeDirect(b) => Gone(h, t, b)
    case FreeOwn(b) => Gone(h, t, b)
    case FreeRemote(b) =>
      var seen := h.head[h.owner[b]];
      h.(pc := h.pc[t := Push(b, seen)], flink := h.flink[b := seen], held := h.held - {b})
    case PushWin => h.(head := h.head[h.owner[h.pc[t].b] := h.pc[t].b], pc := h.pc[t := Idle])
    case PushRetry =>
      var b := h.pc[t].b;
      var seen := h.head[h.owner[b]];
      h.(pc := h.pc[t := Push(b, seen)], flink := h.flink[b := seen])
    case LookEmpty => h
    case Look => h.(pc := h.pc[t := Take(h.head[t])])
    case TakeWin => h.(head := h.head[t := 0], pc := h.pc[t := Drain(h.pc[t].seen)])
    case TakeRetry => h.(pc := h.pc[t := Take(h.head[t])])
    case DrainOne =>
      var b := h.pc[t].p;
      Gone(h, t, b).(pc := h.pc[t := Drain(h.flink[b])])
    case DrainEnd => h.(pc := h.pc[t := Idle])
  }

  // ---------- what the words mean ----------

  datatype Place = Held | Pushing(t: int) | Queued(t: int) | Taken(t: int)

  // The blocks on each thread's queue, those it has taken off but not yet released, and where each block is.
  datatype View = View(queue: map<int, seq<int>>, chain: map<int, seq<int>>, place: map<int, Place>)

  function DrainHead(pc: Pc): int {
    if pc.Drain? then pc.p else 0
  }

  ghost predicate ListOk(h: Heaps, v: View, t: int, items: seq<int>, head: int, where: Place)
    requires Shaped(h)
  {
    && Chain(h.flink, head, items, 0)
    && forall b :: b in items ==> b in h.owner && h.owner[b] == t && b !in h.direct && b in v.place && v.place[b] == where
  }

  ghost predicate ThreadOk(h: Heaps, v: View, t: int)
    requires Shaped(h) && 0 <= t < h.n && t in v.queue && t in v.chain
  {
    && ListOk(h, v, t, v.queue[t], h.head[t], Queued(t))
    && ListOk(h, v, t, v.chain[t], DrainHead(h.pc[t]), Taken(t))
    && match h.pc[t]
       case Idle => true
       case Push(b, seen) =>
         && b in v.place && v.place[b] == Pushing(t)
         && b in h.owner && h.owner[b] != t && b !in h.direct && h.flink[b] == seen
       case Take(seen) => seen != 0 && v.queue[t] != []
       case Drain(p) => true
  }

  ghost predicate BlockOk(h: Heaps, v: View, b: int)
    requires Shaped(h) && b in h.owner
  {
    && b in v.place
    && match v.place[b]
       case Held => b in h.held
       case Pushing(t) => t in h.pc && h.pc[t].Push? && h.pc[t].b == b
       case Queued(t) => t in v.queue && b in v.queue[t]
       case Taken(t) => t in v.chain && b in v.chain[t]
  }

  ghost predicate Inv(h: Heaps, v: View) {
    && Shaped(h) && v.queue.Keys == h.head.Keys && v.chain.Keys == h.head.Keys && v.place.Keys == h.owner.Keys
    && (forall t {:trigger ThreadOk(h, v, t)} :: 0 <= t < h.n ==> ThreadOk(h, v, t))
    && (forall b {:trigger BlockOk(h, v, b)} :: b in h.owner ==> BlockOk(h, v, b))
    && (forall b :: b in h.held ==> b in v.place && v.place[b] == Held)
    && Sum(h.total) == Total(h.size)
  }

  ghost function ViewAfter(h: Heaps, v: View, t: int, m: Move): View
    requires Inv(h, v) && Enabled(h, t, m)
  {
    match m
    case Get(b, size, isDirect) => v.(place := v.place[b := Held])
    case FreeDirect(b) => v.(place := v.place - {b})
    case FreeOwn(b) => v.(place := v.place - {b})
    case FreeRemote(b) => v.(place := v.place[b := Pushing(t)])
    case PushWin =>
      var b := h.pc[t].b;
      var o := h.owner[b];
      v.(queue := v.queue[o := [b] + v.queue[o]], place := v.place[b := Queued(o)])
    case TakeWin =>
      View(v.queue[t := []], v.chain[t := v.queue[t]], Put(v.place, v.queue[t], Taken(t)))
    case DrainOne => v.(chain := v.chain[t := Rest(v.chain[t])], place := v.place - {h.pc[t].p})
    case _ => v
  }

  // ---------- every step keeps the meaning ----------

  ghost predicate Same(h: Heaps, v: View, h': Heaps, v': View, b: int)
    requires Shaped(h) && Shaped(h')
  {
    && b in h.owner && b in h'.owner && h'.owner[b] == h.owner[b] && h'.flink[b] == h.flink[b]
    && (b in h'.direct <==> b in h.direct) && (b in h'.held <==> b in h.held)
    && b in v.place && b in v'.place && v'.place[b] == v.place[b]
  }

  lemma ListFrame(h: Heaps, v: View, h': Heaps, v': View, t: int, items: seq<int>, head: int, where: Place)
    requires Shaped(h) && Shaped(h') && ListOk(h, v, t, items, head, where)
    requires forall b :: b in items ==> Same(h, v, h', v', b)
    ensures ListOk(h', v', t, items, head, where)
  {
    assert forall b :: b in items ==> Same(h, v, h', v', b);
    OtherLinks(h.flink, h'.flink, head, items, 0);
  }

  // All blocks but p are the same.
  ghost predicate SameBut(h: Heaps, v: View, h': Heaps, v': View, p: int)
    requires Shaped(h) && Shaped(h')
  {
    && (forall b {:trigger Same(h, v, h', v', b)} :: b in h.owner && b != p ==> Same(h, v, h', v', b))
    && (forall b :: b in h'.owner ==> b in h.owner || b == p)
    && v'.place.Keys == h'.owner.Keys
    && (p in h'.held ==> p in v'.place && v'.place[p] == Held)
    && (forall b :: b in h'.held && b != p ==> b in h.held)
  }

  // Lists of thread u that do not hold p.
  lemma ListsKept(h: Heaps, v: View, h': Heaps, v': View, u: int, p: int)
    requires Inv(h, v) && Shaped(h') && SameBut(h, v, h', v', p) && 0 <= u < h.n
    requires p in v.place ==> v.place[p] != Queued(u) && v.place[p] != Taken(u)
    ensures ListOk(h', v', u, v.queue[u], h.head[u], Queued(u))
    ensures ListOk(h', v', u, v.chain[u], DrainHead(h.pc[u]), Taken(u))
  {
    assert ThreadOk(h, v, u);
    forall b | b in v.queue[u] + v.chain[u] ensures Same(h, v, h', v', b) {}
    ListFrame(h, v, h', v', u, v.queue[u], h.head[u], Queued(u));
    ListFrame(h, v, h', v', u, v.chain[u], DrainHead(h.pc[u]), Taken(u));
  }

  lemma OthersPushing(h: Heaps, v: View, h': Heaps, v': View, u: int, p: int)
    requires Inv(h, v) && Shaped(h') && SameBut(h, v, h', v', p) && 0 <= u < h.n && h'.n == h.n
    requires p in v.place ==> v.place[p] != Pushing(u)
    requires h'.pc[u] == h.pc[u] && h.pc[u].Push?
    ensures var b := h.pc[u].b;
            && b in v'.place && v'.place[b] == Pushing(u) && b in h'.owner && h'.owner[b] != u
            && b !in h'.direct && h'.flink[b] == h.pc[u].seen
  {
    assert ThreadOk(h, v, u);
    assert Same(h, v, h', v', h.pc[u].b);
  }

  // A step of thread t that changes no list, and of the blocks only p, which is on no list.
  lemma Aside(h: Heaps, v: View, h': Heaps, v': View, t: int, p: int)
    requires Inv(h, v) && Shaped(h') && h'.n == h.n && 0 <= t < h.n && SameBut(h, v, h', v', p)
    requires p in v.place ==> v.place[p] == Held || v.place[p] == Pushing(t)
    requires v'.queue == v.queue && v'.chain == v.chain && h'.head == h.head
    requires DrainHead(h'.pc[t]) == DrainHead(h.pc[t]) && forall u :: 0 <= u < h.n && u != t ==> h'.pc[u] == h.pc[u]
    requires h'.pc[t].Push? ==>
      var b := h'.pc[t].b;
      && b in v'.place && v'.place[b] == Pushing(t) && b in h'.owner && h'.owner[b] != t
      && b !in h'.direct && h'.flink[b] == h'.pc[t].seen
    requires h'.pc[t].Take? ==> h'.pc[t].seen != 0 && v.queue[t] != []
    requires h.pc[t].Push? ==> p == h.pc[t].b
    requires p in h'.owner ==> BlockOk(h', v', p)
    requires Sum(h'.total) == Total(h'.size)
    ensures Inv(h', v')
  {
    forall u | 0 <= u < h.n ensures ThreadOk(h', v', u) {
      ListsKept(h, v, h', v', u, p);
      assert ThreadOk(h, v, u);
      if u != t && h.pc[u].Push? { OthersPushing(h, v, h', v', u, p); }
    }
    forall b | b in h'.owner ensures BlockOk(h', v', b) {
      if b != p { assert BlockOk(h, v, b) && Same(h, v, h', v', b); }
    }
    forall b | b in h'.held ensures b in v'.place && v'.place[b] == Held {
      if b != p { assert Same(h, v, h', v', b); }
    }
  }

  lemma GoneTotal(h: Heaps, t: int, b: int)
    requires Shaped(h) && 0 <= t < h.n && b in h.owner && Sum(h.total) == Total(h.size)
    ensures Shaped(Gone(h, t, b)) && Sum(Gone(h, t, b).total) == Total(Gone(h, t, b).size)
  {
    TotalWithout(h.size, b);
    SumUpdate(h.total, t, h.total[t] - h.size[b]);
  }

  lemma GetSame(h: Heaps, v: View, t: int, m: Move)
    requires Inv(h, v) && Enabled(h, t, m) && m.Get?
    ensures Shaped(Apply(h, t, m)) && SameBut(h, v, Apply(h, t, m), ViewAfter(h, v, t, m), m.b)
  {
  }

  lemma FreeSame(h: Heaps, v: View, t: int, m: Move)
    requires Inv(h, v) && Enabled(h, t, m) && (m.FreeDirect? || m.FreeOwn?)
    ensures Shaped(Apply(h, t, m)) && SameBut(h, v, Apply(h, t, m), ViewAfter(h, v, t, m), m.b)
  {
  }

  lemma AimSame(h: Heaps, v: View, t: int, m: Move, b: int)
    requires Inv(h, v) && Enabled(h, t, m) && (m.FreeRemote? || m.PushRetry?) && b == if m.FreeRemote? then m.b else h.pc[t].b
    ensures Shaped(Apply(h, t, m)) && SameBut(h, v, Apply(h, t, m), ViewAfter(h, v, t, m), b)
  {
    assert ThreadOk(h, v, t);
  }

  lemma KeepsGet(h: Heaps, v: View, t: int, m: Move)
    requires Inv(h, v) && Enabled(h, t, m) && m.Get?
    ensures Inv(Apply(h, t, m), ViewAfter(h, v, t, m))
  {
    TotalWith(h.size, m.b, m.size);
    SumUpdate(h.total, t, h.total[t] + m.size);
    GetSame(h, v, t, m);
    Aside(h, v, Apply(h, t, m), ViewAfter(h, v, t, m), t, m.b);
  }

  lemma KeepsFree(h: Heaps, v: View, t: int, m: Move)
    requires Inv(h, v) && Enabled(h, t, m) && (m.FreeDirect? || m.FreeOwn?)
    ensures Inv(Apply(h, t, m), ViewAfter(h, v, t, m))
  {
    GoneTotal(h, t, m.b);
    FreeSame(h, v, t, m);
    Aside(h, v, Apply(h, t, m), ViewAfter(h, v, t, m), t, m.b);
  }

  lemma KeepsAim(h: Heaps, v: View, t: int, m: Move)
    requires Inv(h, v) && Enabled(h, t, m) && (m.FreeRemote? || m.PushRetry?)
    ensures Inv(Apply(h, t, m), ViewAfter(h, v, t, m))
  {
    assert ThreadOk(h, v, t);
    var b := if m.FreeRemote? then m.b else h.pc[t].b;
    assert BlockOk(h, v, b);
    AimSame(h, v, t, m, b);
    Aside(h, v, Apply(h, t, m), ViewAfter(h, v, t, m), t, b);
  }

  lemma KeepsLook(h: Heaps, v: View, t: int, m: Move)
    requires Inv(h, v) && Enabled(h, t, m) && (m.Look? || m.LookEmpty? || m.TakeRetry? || m.DrainEnd?)
    ensures Inv(Apply(h, t, m), ViewAfter(h, v, t, m))
  {
    assert ThreadOk(h, v, t);
    Aside(h, v, Apply(h, t, m), v, t, 0);
  }

  // A block of another list, or of none.
  lemma PlacesApart(h: Heaps, v: View, u: int)
    requires Inv(h, v) && 0 <= u < h.n
    ensures forall b :: b in v.queue[u] ==> b in v.place && v.place[b] == Queued(u) && h.owner[b] == u
    ensures forall b :: b in v.chain[u] ==> b in v.place && v.place[b] == Taken(u) && h.owner[b] == u
  {
    assert ThreadOk(h, v, u);
  }

  lemma PushWinSame(h: Heaps, v: View, t: int)
    requires Inv(h, v) && Enabled(h, t, PushWin)
    ensures var h', v', b := Apply(h, t, PushWin), ViewAfter(h, v, t, PushWin), h.pc[t].b;
            && h.owner[b] != t && v.place[b] == Pushing(t) && b !in h.held && b !in h.direct
            && Shaped(h') && SameBut(h, v, h', v', b)
  {
    assert ThreadOk(h, v, t) && BlockOk(h, v, h.pc[t].b);
  }

  lemma PushWinQueue(h: Heaps, v: View, t: int)
    requires Inv(h, v) && Enabled(h, t, PushWin)
    ensures var h', v', o := Apply(h, t, PushWin), ViewAfter(h, v, t, PushWin), h.owner[h.pc[t].b];
            Shaped(h') && ListOk(h', v', o, v'.queue[o], h'.head[o], Queued(o))
  {
    var h', v', b := Apply(h, t, PushWin), ViewAfter(h, v, t, PushWin), h.pc[t].b;
    var o := h.owner[b];
    PushWinSame(h, v, t);
    assert ThreadOk(h, v, t) && ThreadOk(h, v, o);
    PushFront(h.flink, h.head[o], v.queue[o], b);
    assert h.flink[b := h.head[o]] == h.flink;
    ListsKept(h, v, h', v', o, b);
  }

  lemma PushWinOwner(h: Heaps, v: View, t: int)
    requires Inv(h, v) && Enabled(h, t, PushWin)
    ensures var h', v', o := Apply(h, t, PushWin), ViewAfter(h, v, t, PushWin), h.owner[h.pc[t].b];
            && o != t && Shaped(h') && SameBut(h, v, h', v', h.pc[t].b) && ThreadOk(h', v', o)
  {
    var h', v', b := Apply(h, t, PushWin), ViewAfter(h, v, t, PushWin), h.pc[t].b;
    var o := h.owner[b];
    PushWinSame(h, v, t);
    PushWinQueue(h, v, t);
    ListsKept(h, v, h', v', o, b);
    assert ThreadOk(h, v, o);
    if h.pc[o].Push? { OthersPushing(h, v, h', v', o, b); }
  }

  lemma KeepsPushWin(h: Heaps, v: View, t: int)
    requires Inv(h, v) && Enabled(h, t, PushWin)
    ensures Inv(Apply(h, t, PushWin), ViewAfter(h, v, t, PushWin))
  {
    var h', v', b := Apply(h, t, PushWin), ViewAfter(h, v, t, PushWin), h.pc[t].b;
    PushWinOwner(h, v, t);
    assert ThreadOk(h, v, t);
    forall u | 0 <= u < h.n ensures ThreadOk(h', v', u) {
      if u != h.owner[b] {
        assert ThreadOk(h, v, u);
        ListsKept(h, v, h', v', u, b);
        if u != t && h.pc[u].Push? { OthersPushing(h, v, h', v', u, b); }
      }
    }
    forall c | c in h'.owner ensures BlockOk(h', v', c) {
      if c != b { assert BlockOk(h, v, c) && Same(h, v, h', v', c); }
    }
  }

  // Nothing of a block changes but the place, and that from queue to chain of thread t.
  lemma TakeWinSame(h: Heaps, v: View, t: int, u: int, b: int)
    requires Inv(h, v) && Enabled(h, t, TakeWin) && 0 <= u < h.n && b in h.owner && v.place[b] != Queued(t)
    ensures Shaped(Apply(h, t, TakeWin)) && Same(h, v, Apply(h, t, TakeWin), ViewAfter(h, v, t, TakeWin), b)
  {
    PlacesApart(h, v, t);
  }

  lemma TakeWinOthers(h: Heaps, v: View, t: int, u: int)
    requires Inv(h, v) && Enabled(h, t, TakeWin) && 0 <= u < h.n && u != t && Shaped(Apply(h, t, TakeWin))
    ensures ThreadOk(Apply(h, t, TakeWin), ViewAfter(h, v, t, TakeWin), u)
  {
    var h', v' := Apply(h, t, TakeWin), ViewAfter(h, v, t, TakeWin);
    assert ThreadOk(h, v, u);
    forall b | b in v.queue[u] + v.chain[u] ensures Same(h, v, h', v', b) { TakeWinSame(h, v, t, u, b); }
    ListFrame(h, v, h', v', u, v.queue[u], h.head[u], Queued(u));
    ListFrame(h, v, h', v', u, v.chain[u], DrainHead(h.pc[u]), Taken(u));
    if h.pc[u].Push? { TakeWinSame(h, v, t, u, h.pc[u].b); }
  }

  lemma KeepsTakeWin(h: Heaps, v: View, t: int)
    requires Inv(h, v) && Enabled(h, t, TakeWin)
    ensures Inv(Apply(h, t, TakeWin), ViewAfter(h, v, t, TakeWin))
  {
    var h', v' := Apply(h, t, TakeWin), ViewAfter(h, v, t, TakeWin);
    PlacesApart(h, v, t);
    assert ThreadOk(h, v, t) && v.chain[t] == [];
    forall u | 0 <= u < h.n ensures ThreadOk(h', v', u) {
      if u != t { TakeWinOthers(h, v, t, u); }
    }
    forall b | b in h'.owner ensures BlockOk(h', v', b) { assert BlockOk(h, v, b); }
    forall b | b in h'.held ensures v'.place[b] == Held { assert BlockOk(h, v, b); }
  }

  lemma DrainOneChain(h: Heaps, v: View, t: int)
    requires Inv(h, v) && Enabled(h, t, DrainOne)
    ensures var b, h', v' := h.pc[t].p, Apply(h, t, DrainOne), ViewAfter(h, v, t, DrainOne);
            && v.chain[t] != [] && v.chain[t][0] == b && v.place[b] == Taken(t) && h.owner[b] == t
            && Shaped(h') && SameBut(h, v, h', v', b) && ThreadOk(h', v', t)
  {
    var b, h', v' := h.pc[t].p, Apply(h, t, DrainOne), ViewAfter(h, v, t, DrainOne);
    var items := v.chain[t];
    assert ThreadOk(h, v, t);
    PopFront(h.flink, b, items);
    assert b in items;
    forall c | c in v.queue[t] + items[1..] ensures c != b && Same(h, v, h', v', c) {
      assert c in items[1..] ==> c in items;
    }
    ListFrame(h, v, h', v', t, v.queue[t], h.head[t], Queued(t));
    assert ListOk(h, v, t, items[1..], h.flink[b], Taken(t));
    ListFrame(h, v, h', v', t, items[1..], h.flink[b], Taken(t));
  }

  lemma DrainOneOther(h: Heaps, v: View, t: int, u: int)
    requires Inv(h, v) && Enabled(h, t, DrainOne) && 0 <= u < h.n && u != t
    ensures Shaped(Apply(h, t, DrainOne)) && ThreadOk(Apply(h, t, DrainOne), ViewAfter(h, v, t, DrainOne), u)
  {
    var b, h', v' := h.pc[t].p, Apply(h, t, DrainOne), ViewAfter(h, v, t, DrainOne);
    DrainOneChain(h, v, t);
    assert ThreadOk(h, v, u);
    ListsKept(h, v, h', v', u, b);
    if h.pc[u].Push? { OthersPushing(h, v, h', v', u, b); }
  }

  lemma KeepsDrainOne(h: Heaps, v: View, t: int)
    requires Inv(h, v) && Enabled(h, t, DrainOne)
    ensures Inv(Apply(h, t, DrainOne), ViewAfter(h, v, t, DrainOne))
  {
    var b, h', v' := h.pc[t].p, Apply(h, t, DrainOne), ViewAfter(h, v, t, DrainOne);
    DrainOneChain(h, v, t);
    GoneTotal(h, t, b);
    forall u | 0 <= u < h.n ensures ThreadOk(h', v', u) {
      if u != t { DrainOneOther(h, v, t, u); }
    }
    forall c | c in h'.owner ensures BlockOk(h', v', c) { assert BlockOk(h, v, c) && Same(h, v, h', v', c); }
  }

  // ---------- the theorems ----------

  /** Every step of every thread keeps the invariant; in particular the totals
      of all threads together always count exactly the outstanding bytes. */
  lemma Keeps(h: Heaps, v: View, t: int, m: Move)
    requires Inv(h, v) && Enabled(h, t, m)
    ensures Inv(Apply(h, t, m), ViewAfter(h, v, t, m))
  {
    match m
    case Get(b, size, isDirect) => KeepsGet(h, v, t, m);
    case FreeDirect(b) => KeepsFree(h, v, t, m);
    case FreeOwn(b) => KeepsFree(h, v, t, m);
    case FreeRemote(b) => KeepsAim(h, v, t, m);
    case PushRetry => KeepsAim(h, v, t, m);
    case PushWin => KeepsPushWin(h, v, t);
    case TakeWin => KeepsTakeWin(h, v, t);
    case DrainOne => KeepsDrainOne(h, v, t);
    case _ => KeepsLook(h, v, t, m);
  }

  ghost predicate Steps(h: Heaps, t: int, m: Move, h': Heaps) {
    Shaped(h) && Enabled(h, t, m) && h' == Apply(h, t, m)
  }

  ghost predicate OneStep(h: Heaps, h': Heaps) {
    exists t, m :: Steps(h, t, m, h')
  }

  ghost predicate IsRun(run: seq<Heaps>) {
    |run| > 0 && Initial(run[0]) && forall i :: 0 < i < |run| ==> OneStep(run[i - 1], run[i])
  }

  lemma InitialInv(h: Heaps) returns (v: View)
    requires Initial(h)
    ensures Inv(h, v)
  {
    v := View(map t | t in h.head :: [], map t | t in h.head :: [], map[]);
    SumOfZeros(h.total);
  }

  lemma StepKeeps(h: Heaps, v: View, h': Heaps) returns (v': View)
    requires Inv(h, v) && OneStep(h, h')
    ensures Inv(h', v')
  {
    var t, m :| Steps(h, t, m, h');
    Keeps(h, v, t, m);
    v' := ViewAfter(h, v, t, m);
  }

  lemma {:induction false} RunsKeep(run: seq<Heaps>, k: nat) returns (v: View)
    requires IsRun(run) && k < |run|
    ensures Inv(run[k], v)
  {
    if k == 0 {
      v := InitialInv(run[0]);
    } else {
      var v0 := RunsKeep(run, k - 1);
      v := StepKeeps(run[k - 1], v0, run[k]);
    }
  }

  /** In every reachable state the totals of all threads add up to the bytes of
      all outstanding blocks, although a direct block is debited from the thread
      that releases it and any other block from its owner. */
  lemma TotalsBalance(run: seq<Heaps>, k: nat)
    requires IsRun(run) && k < |run|
    ensures Sum(run[k].total) == Total(run[k].size)
  {
    var v := RunsKeep(run, k);
  }

  // No thread is in the middle of an operation, and all queues are empty.
  ghost predicate AtRest(h: Heaps) {
    && (forall t :: t in h.pc ==> h.pc[t] == Idle)
    && (forall t :: t in h.head ==> h.head[t] == 0)
  }

  lemma FirstIsBlock(h: Heaps, v: View, t: int, items: seq<int>, head: int, where: Place)
    requires Shaped(h) && ListOk(h, v, t, items, head, where)
    ensures items != [] ==> head in h.owner
  {
    assert items != [] ==> items[0] in items;
  }

  lemma HeldAtRest(h: Heaps, v: View, b: int)
    requires Inv(h, v) && AtRest(h) && b in h.owner
    ensures b in h.held
  {
    forall t | 0 <= t < h.n ensures v.queue[t] == [] && v.chain[t] == [] {
      assert ThreadOk(h, v, t);
      FirstIsBlock(h, v, t, v.queue[t], h.head[t], Queued(t));
      FirstIsBlock(h, v, t, v.chain[t], DrainHead(h.pc[t]), Taken(t));
    }
    assert BlockOk(h, v, b);
  }

  /** Nothing is left behind: at rest the outstanding blocks are exactly those
      the program holds, and the totals are theirs. */
  lemma NoneLeftBehind(run: seq<Heaps>, k: nat)
    requires IsRun(run) && k < |run| && AtRest(run[k])
    ensures run[k].owner.Keys == run[k].held == run[k].size.Keys && Sum(run[k].total) == Total(run[k].size)
  {
    var v := RunsKeep(run, k);
    forall b ensures b in run[k].owner <==> b in run[k].held {
      if b in run[k].owner { HeldAtRest(run[k], v, b); }
    }
  }

  // The way of a block: it leaves its holder by a free only, moves on by these steps only, and,
  // unless it is a direct one, is never released by anyone but its owner.
  ghost predicate OnItsWay(h: Heaps, v: View, t: int, m: Move, h': Heaps, v': View, b: int)
    requires b in h.owner && b in v.place && t in h.pc
  {
    match v.place[b]
    case Held =>
      if b in h'.owner
      then b in v'.place && (v'.place[b] == Held || (m == FreeRemote(b) && h.owner[b] != t && v'.place[b] == Pushing(t)))
      else m == FreeDirect(b) || (m == FreeOwn(b) && h.owner[b] == t)
    case Pushing(u) =>
      && b in h'.owner && b in v'.place
      && (v'.place[b] == v.place[b] || (m == PushWin && t == u && v'.place[b] == Queued(h.owner[b])))
    case Queued(o) =>
      && o == h.owner[b] && b in h'.owner && b in v'.place
      && (v'.place[b] == v.place[b] || (m == TakeWin && t == o && v'.place[b] == Taken(o)))
    case Taken(o) =>
      && o == h.owner[b]
      && if b in h'.owner then b in v'.place && v'.place[b] == v.place[b] else m == DrainOne && t == o && h.pc[t] == Drain(b)
  }

  /** From the free to its release a block is in one place after the other, and no
      step skips, repeats or undoes one. */
  lemma StepOnItsWay(h: Heaps, v: View, t: int, m: Move, b: int)
    requires Inv(h, v) && Enabled(h, t, m) && b in h.owner && b in v.place
    ensures OnItsWay(h, v, t, m, Apply(h, t, m), ViewAfter(h, v, t, m), b)
  {
    assert BlockOk(h, v, b) && ThreadOk(h, v, t);
    match v.place[b] {
      case Queued(o) => PlacesApart(h, v, o);
      case Taken(o) => PlacesApart(h, v, o);
      case _ =>
    }
    if m.TakeWin? { PlacesApart(h, v, t); }
    if m.DrainOne? {
      DrainOneChain(h, v, t);
    }
  }

  // ---------- the life of a block ----------

  datatype Label = Label(t: int, m: Move)

  ghost predicate StepAt(run: seq<Heaps>, steps: seq<Label>, k: nat) {
    k < |steps| && k + 1 < |run| && Steps(run[k], steps[k].t, steps[k].m, run[k + 1])
  }

  // A run, with the step that leads from each state to the next.
  ghost predicate Labelled(run: seq<Heaps>, steps: seq<Label>) {
    && |run| == |steps| + 1 && Initial(run[0])
    && forall k {:trigger StepAt(run, steps, k)} :: 0 <= k < |steps| ==> StepAt(run, steps, k)
  }

  lemma LabelledIsRun(run: seq<Heaps>, steps: seq<Label>)
    requires Labelled(run, steps)
    ensures IsRun(run)
  {
    forall i | 0 < i < |run| ensures OneStep(run[i - 1], run[i]) { assert StepAt(run, steps, i - 1); }
  }

  // Block b goes back to the heap, or to the system, in this step.
  ghost predicate Releases(h: Heaps, t: int, m: Move, b: int) {
    m == FreeDirect(b) || m == FreeOwn(b) || (m == DrainOne && t in h.pc && h.pc[t] == Drain(b))
  }

  ghost function CountReleases(run: seq<Heaps>, steps: seq<Label>, b: int, i: nat, k: nat): nat
    requires i <= k < |run| == |steps| + 1
    decreases k
  {
    if i == k then 0 else
      CountReleases(run, steps, b, i, k - 1) + if Releases(run[k - 1], steps[k - 1].t, steps[k - 1].m, b) then 1 else 0
  }

  // Block b is handed out by step i, and k is the first state in which it is out no more.
  ghost predicate Life(run: seq<Heaps>, steps: seq<Label>, b: int, i: nat, k: nat) {
    && Labelled(run, steps) && i < k <= |steps| && steps[i].m.Get? && steps[i].m.b == b
    && b !in run[k].owner && forall j :: i < j < k ==> b in run[j].owner
  }

  lemma ReleaseEnds(h: Heaps, t: int, m: Move, b: int)
    requires Shaped(h) && Enabled(h, t, m) && b in h.owner
    ensures Releases(h, t, m, b) <==> b !in Apply(h, t, m).owner
    ensures b in Apply(h, t, m).owner ==> Apply(h, t, m).owner[b] == h.owner[b]
    ensures b in Apply(h, t, m).held ==> b in h.held
  {
  }

  lemma ReleasedByOwner(h: Heaps, v: View, t: int, m: Move, b: int)
    requires Inv(h, v) && Enabled(h, t, m) && b in h.owner && Releases(h, t, m, b)
    ensures m == FreeDirect(b) || h.owner[b] == t
    ensures m.FreeDirect? || m.FreeOwn? ==> b in h.held
  {
    if m.DrainOne? { DrainOneChain(h, v, t); }
  }

  lemma {:induction false} NoneBefore(run: seq<Heaps>, steps: seq<Label>, b: int, i: nat, j: nat, k: nat)
    requires Life(run, steps, b, i, k) && i < j < k
    ensures CountReleases(run, steps, b, i, j) == 0 && run[j].owner[b] == steps[i].t
    decreases j
  {
    assert StepAt(run, steps, j - 1);
    if j - 1 > i {
      NoneBefore(run, steps, b, i, j - 1, k);
      ReleaseEnds(run[j - 1], steps[j - 1].t, steps[j - 1].m, b);
    }
  }

  // Once given up, a block is not held again.
  lemma {:induction false} NotHeld(run: seq<Heaps>, steps: seq<Label>, b: int, i: nat, r: nat, j: nat, k: nat)
    requires Life(run, steps, b, i, k) && i < r < j < k && steps[r].m == FreeRemote(b)
    ensures b !in run[j].held
    decreases j
  {
    assert StepAt(run, steps, j - 1);
    if j - 1 > r {
      NotHeld(run, steps, b, i, r, j - 1, k);
      ReleaseEnds(run[j - 1], steps[j - 1].t, steps[j - 1].m, b);
    }
  }

  lemma LastRelease(run: seq<Heaps>, steps: seq<Label>, b: int, i: nat, j: nat)
    requires Life(run, steps, b, i, j + 1)
    ensures i < j && b in run[j].owner && run[j].owner[b] == steps[i].t && Shaped(run[j])
    ensures Enabled(run[j], steps[j].t, steps[j].m) && Releases(run[j], steps[j].t, steps[j].m, b)
    ensures CountReleases(run, steps, b, i, j) == 0
  {
    assert StepAt(run, steps, i) && StepAt(run, steps, j);
    NoneBefore(run, steps, b, i, j, j + 1);
    ReleaseEnds(run[j], steps[j].t, steps[j].m, b);
  }

  lemma LastByOwner(run: seq<Heaps>, steps: seq<Label>, b: int, i: nat, j: nat)
    requires Life(run, steps, b, i, j + 1)
    ensures steps[j].m == FreeDirect(b) || steps[j].t == steps[i].t
    ensures i < j && (steps[j].m.FreeDirect? || steps[j].m.FreeOwn? ==> b in run[j].held)
  {
    LastRelease(run, steps, b, i, j);
    LabelledIsRun(run, steps);
    var v := RunsKeep(run, j);
    ReleasedByOwner(run[j], v, steps[j].t, steps[j].m, b);
  }

  // Another thread frees block b in step r.
  ghost predicate FreedByOther(steps: seq<Label>, b: int, r: nat) {
    r < |steps| && steps[r].m == FreeRemote(b)
  }

  /** From the time it is handed out until it is out no more a block is released
      exactly once: by its owner unless it is a direct one, and if another thread
      has freed it, by the owner's drain of the queue. */
  lemma FreedOnce(run: seq<Heaps>, steps: seq<Label>, b: int, i: nat, k: nat)
    requires Life(run, steps, b, i, k)
    ensures CountReleases(run, steps, b, i, k) == 1 && Releases(run[k - 1], steps[k - 1].t, steps[k - 1].m, b)
    ensures steps[k - 1].m == FreeDirect(b) || steps[k - 1].t == steps[i].t
    ensures forall r: nat :: FreedByOther(steps, b, r) && i < r < k - 1 ==> steps[k - 1] == Label(steps[i].t, DrainOne)
  {
    var j := k - 1;
    LastRelease(run, steps, b, i, j);
    LastByOwner(run, steps, b, i, j);
    forall r: nat | FreedByOther(steps, b, r) && i < r < j ensures steps[j] == Label(steps[i].t, DrainOne) {
      NotHeld(run, steps, b, i, r, j, k);
    }
  }

  /** No link is followed that is null or stale: a thread in the middle of an
      operation can always go on, and whoever finds a queue non-empty takes a
      non-empty chain. */
  lemma NeverStuck(h: Heaps, v: View, t: int)
    requires Inv(h, v) && 0 <= t < h.n
    ensures h.pc[t].Push? ==> Enabled(h, t, PushWin) || Enabled(h, t, PushRetry)
    ensures h.pc[t].Take? ==> h.head[t] != 0 && (Enabled(h, t, TakeWin) || Enabled(h, t, TakeRetry))
    ensures h.pc[t].Drain? ==> Enabled(h, t, DrainOne) || Enabled(h, t, DrainEnd)
    ensures h.pc[t].Drain? && h.pc[t].p != 0 ==> h.owner[h.pc[t].p] == t && h.pc[t].p !in h.direct
  {
    assert ThreadOk(h, v, t);
    if h.pc[t].Take? {
      assert v.queue[t][0] in v.queue[t];
    }
    if h.pc[t].Drain? && h.pc[t].p != 0 {
      assert v.chain[t][0] in v.chain[t];
    }
  }
}
