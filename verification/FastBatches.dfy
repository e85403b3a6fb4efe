/** When the caches of small blocks share and when they do not: which list each
    call turns to, what a step does to the lists, and how long a thread collects
    blocks of another thread before it sends them back. */
module FastBatches {
  import opened Chains
  import opened FastLists
  import opened Options

  // ---------- the words determine the lists ----------

  lemma {:induction false} ChainsAgree(next: map<int, int>, head: int, a: seq<int>, la: int, b: seq<int>, lb: int, i: nat)
    requires Chain(next, head, a, la) && Chain(next, head, b, lb) && i < |a| && i < |b|
    ensures a[i] == b[i]
  {
    if i > 0 {
      ChainsAgree(next, head, a, la, b, lb, i - 1);
      assert LinkAt(next, a, la, i - 1) && LinkAt(next, b, lb, i - 1);
    }
  }

  lemma NextIn(next: map<int, int>, head: int, items: seq<int>, i: nat)
    requires Chain(next, head, items, 0) && i + 1 < |items|
    ensures items[i] in next && next[items[i]] in items
  {
    assert LinkAt(next, items, 0, i);
  }

  lemma SameLength(next: map<int, int>, head: int, a: seq<int>, b: seq<int>)
    requires Chain(next, head, a, 0) && Chain(next, head, b, 0) && 0 !in b
    ensures |a| >= |b|
  {
    if 0 < |a| < |b| {
      ChainsAgree(next, head, a, 0, b, 0, |a| - 1);
      assert LinkAt(next, a, 0, |a| - 1);
      NextIn(next, head, b, |a| - 1);
    }
  }

  // The head of list s tells whether it is empty; in a batch its first block tells the length.
  lemma Heads(f: Fast, v: View, s: Slot)
    requires Inv(f, v) && IsSlot(f.n, s)
    ensures s in f.heads && s in v.lists && 0 !in v.lists[s]
    ensures f.heads[s] == 0 <==> |v.lists[s]| == 0
    ensures |v.lists[s]| > 0 ==> f.heads[s] == v.lists[s][0] && f.heads[s] in f.owner
    ensures s.Other? && |v.lists[s]| > 0 ==> f.count[f.heads[s]] == |v.lists[s]| <= 16
  {
    assert SlotOk(f, v, s);
    forall b | b in v.lists[s] ensures b != 0 { ItemPlace(f, v, s, b); }
    if |v.lists[s]| > 0 {
      assert v.lists[s][0] in v.lists[s];
      ItemPlace(f, v, s, v.lists[s][0]);
      if s.Other? { BatchCount(f, v, s.t, s.c); }
    }
  }

  /** There is only one way to read the words as lists. */
  lemma OneReading(f: Fast, v: View, w: View)
    requires Inv(f, v) && Inv(f, w)
    ensures v.lists == w.lists
  {
    forall s | s in f.heads ensures v.lists[s] == w.lists[s] {
      assert SlotOk(f, v, s) && SlotOk(f, w, s);
      var a, b, last := v.lists[s], w.lists[s], LastLink(f, s);
      Heads(f, v, s);
      Heads(f, w, s);
      if !s.Other? {
        SameLength(f.next, f.heads[s], a, b);
        SameLength(f.next, f.heads[s], b, a);
      }
      forall i | 0 <= i < |a| ensures a[i] == b[i] { ChainsAgree(f.next, f.heads[s], a, last, b, last, i); }
    }
  }

  // ---------- which list a call turns to ----------

  /** An allocation takes a block of the thread's own list while there is one, then what
      others have sent back, and turns to the heap only when both lists are empty. */
  lemma WhereAllocLooks(f: Fast, v: View, t: int, size: nat, p: int)
    requires Inv(f, v) && 0 <= t < f.n && f.pc[t] == Idle && RoundUp(size).Cached? && p > 0 && p !in f.owner
    ensures var c := RoundUp(size).index;
            && 0 <= c < 4 && Self(t, c) in v.lists && Sync(t, c) in v.lists
            && var own, returned := |v.lists[Self(t, c)]|, |v.lists[Sync(t, c)]|;
               && (Can(f, t, AllocSelf(size)) <==> own > 0)
               && (Can(f, t, AllocSync(size)) <==> own == 0 && returned > 0)
               && (Can(f, t, AllocNew(size, p)) <==> own == 0 && returned == 0)
  {
    var c := RoundUp(size).index;
    Heads(f, v, Self(t, c));
    Heads(f, v, Sync(t, c));
  }

  /** A block too large for the lists always comes from the heap. */
  lemma BigIsNew(f: Fast, v: View, t: int, size: nat, p: int)
    requires Inv(f, v) && 0 <= t < f.n && f.pc[t] == Idle && size > 8192 && p > 0 && p !in f.owner
    ensures Can(f, t, AllocNew(size, p)) && !Can(f, t, AllocSelf(size)) && !Can(f, t, AllocSync(size))
  {
    ClassesAgree(size, 0);
  }

  /** A freed block goes onto the own list of its owner, or onto the batch of blocks of
      another thread. The batch is sent back exactly when it has sixteen blocks or its
      blocks have another owner. */
  lemma WhereFreeGoes(f: Fast, v: View, t: int, p: int, c: int)
    requires Inv(f, v) && 0 <= t < f.n && f.pc[t] == Idle && p in f.held
    requires p in f.bytes && ClassOf(f.bytes[p]) == Some(c)
    ensures p in f.owner && Other(t, c) in v.lists && !Can(f, t, FreeBig(p))
    ensures var o, batch := f.owner[p], v.lists[Other(t, c)];
            && (|batch| > 0 ==> batch[0] in f.owner)
            && (Can(f, t, FreeSelf(p)) <==> o == t)
            && (Can(f, t, FreeFirst(p)) <==> o != t && |batch| == 0)
            && (Can(f, t, FreePush(p)) <==> o != t && 0 < |batch| < 16 && f.owner[batch[0]] == o)
            && (Can(f, t, FreeFull(p)) <==> o != t && |batch| > 0 && (|batch| == 16 || f.owner[batch[0]] != o))
  {
    Heads(f, v, Other(t, c));
    assert Freeing(f, t, p, c) && forall d :: Freeing(f, t, p, d) ==> d == c;
  }

  /** A block larger than the largest class goes to the heap and nowhere else. */
  lemma BigGoesBack(f: Fast, v: View, t: int, p: int)
    requires Inv(f, v) && 0 <= t < f.n && f.pc[t] == Idle && p in f.held
    requires p in f.bytes && ClassOf(f.bytes[p]) == None
    ensures Can(f, t, FreeBig(p))
    ensures !Can(f, t, FreeSelf(p)) && !Can(f, t, FreeFirst(p)) && !Can(f, t, FreePush(p)) && !Can(f, t, FreeFull(p))
  {
    assert forall d :: !Freeing(f, t, p, d);
  }

  // ---------- what a step does to the lists ----------

  lemma ReadAfter(f: Fast, v: View, t: int, m: Move, v': View)
    requires Inv(f, v) && Enabled(f, t, m) && Inv(Apply(f, t, m), v')
    ensures v'.lists == ViewAfter(f, v, t, m).lists
  {
    Keeps(f, v, t, m);
    OneReading(Apply(f, t, m), ViewAfter(f, v, t, m), v');
  }

  /** Each step, told by the lists alone: pops take the first block, pushes put one in front,
      and a batch goes as a whole in front of what its owner has been sent so far. */
  lemma ListsMove(f: Fast, v: View, t: int, m: Move, v': View)
    requires Inv(f, v) && Enabled(f, t, m) && Inv(Apply(f, t, m), v')
    ensures m.AllocSelf? ==> var s := Self(t, RoundUp(m.size).index);
              s in v.lists && |v.lists[s]| > 0 && v'.lists == v.lists[s := v.lists[s][1..]]
              && Apply(f, t, m).held == f.held + {v.lists[s][0]}
    ensures m.PopWin? ==> var s, own := Sync(t, f.pc[t].c), Self(t, f.pc[t].c);
              s in v.lists && |v.lists[s]| > 0 && v'.lists == v.lists[s := []][own := v.lists[s][1..]]
              && Apply(f, t, m).held == f.held + {v.lists[s][0]}
    ensures m.FreeSelf? ==> m.p in f.bytes && ClassOf(f.bytes[m.p]).Some? && var s := Self(t, ClassOf(f.bytes[m.p]).value);
              s in v.lists && v'.lists == v.lists[s := [m.p] + v.lists[s]]
    ensures m.FreeFirst? || m.FreePush? ==> m.p in f.bytes && ClassOf(f.bytes[m.p]).Some? && var s := Other(t, ClassOf(f.bytes[m.p]).value);
              s in v.lists && v'.lists == v.lists[s := [m.p] + v.lists[s]]
    ensures m.ReturnWin? ==> f.pc[t].head in f.owner && var s, to := Other(t, f.pc[t].c), Sync(f.owner[f.pc[t].head], f.pc[t].c);
              s in v.lists && to in v.lists && v'.lists == v.lists[to := v.lists[s] + v.lists[to]][s := [f.pc[t].ptr]]
    ensures !m.AllocSelf? && !m.PopWin? && !m.FreeSelf? && !m.FreeFirst? && !m.FreePush? && !m.ReturnWin? ==> v'.lists == v.lists
  {
    ReadAfter(f, v, t, m, v');
    if m.AllocSelf? {
      Heads(f, v, Self(t, RoundUp(m.size).index));
    } else if m.PopWin? {
      PopWinMoves(f, v, t);
    } else if m.FreeFirst? {
      var c :| Freeing(f, t, m.p, c);
      Heads(f, v, Other(t, c));
      assert [m.p] + [] == [m.p];
    } else if m.ReturnWin? {
      assert ThreadOk(f, v, t);
    }
  }

  lemma PopWinMoves(f: Fast, v: View, t: int)
    requires Inv(f, v) && Enabled(f, t, PopWin)
    ensures var s := Sync(t, f.pc[t].c); s in v.lists && |v.lists[s]| > 0 && v.lists[s][0] == f.pc[t].seen
  {
    assert ThreadOk(f, v, t);
    Heads(f, v, Sync(t, f.pc[t].c));
  }

  /** A thread that takes what it has been sent, or sends a batch back, tries again exactly
      when the list has another first block than the one it has seen. */
  lemma RetryMeansChange(f: Fast, v: View, t: int)
    requires Inv(f, v) && 0 <= t < f.n
    ensures f.pc[t].Pop? ==> var s := Sync(t, f.pc[t].c);
              s in v.lists && |v.lists[s]| > 0
              && (Can(f, t, PopRetry) <==> v.lists[s][0] != f.pc[t].seen) && (Can(f, t, PopWin) <==> v.lists[s][0] == f.pc[t].seen)
    ensures f.pc[t].Return? ==> f.pc[t].head in f.owner && var s := Sync(f.owner[f.pc[t].head], f.pc[t].c);
              s in v.lists && var first := if |v.lists[s]| == 0 then 0 else v.lists[s][0];
              (Can(f, t, ReturnRetry) <==> first != f.pc[t].seen) && (Can(f, t, ReturnWin) <==> first == f.pc[t].seen)
  {
    assert ThreadOk(f, v, t);
    NeverStuck(f, v, t);
    if f.pc[t].Pop? {
      Heads(f, v, Sync(t, f.pc[t].c));
    } else if f.pc[t].Return? {
      Heads(f, v, Sync(f.owner[f.pc[t].head], f.pc[t].c));
    }
  }

  /** An allocation that has turned to the blocks sent back does not give up: it goes on
      until it gets one, of the class it looks for. */
  lemma PopGoesOn(f: Fast, v: View, u: int, m: Move, t: int)
    requires Inv(f, v) && Enabled(f, u, m) && 0 <= t < f.n && f.pc[t].Pop?
    ensures var f', c := Apply(f, u, m), f.pc[t].c;
            t in f'.pc && if u == t && m == PopWin
            then f'.pc[t] == Idle && exists b :: b in f.bytes && ClassOf(f.bytes[b]) == Some(c) && b !in f.held && f'.held == f.held + {b}
            else f'.pc[t].Pop? && f'.pc[t].c == c && (u == t ==> f'.held == f.held)
  {
    if u == t && m == PopWin {
      PopWinMoves(f, v, t);
      ItemPlace(f, v, Sync(t, f.pc[t].c), f.pc[t].seen);
    }
  }

  // ---------- sixteen frees in a row ----------

  // The block that a step gives back, if it is the first step of a release.
  function BlockOf(m: Move): seq<int> {
    match m
    case FreeSelf(p) => [p]
    case FreeFirst(p) => [p]
    case FreePush(p) => [p]
    case FreeFull(p) => [p]
    case FreeBig(p) => [p]
    case _ => []
  }

  // The blocks that thread t gives back between the i-th and the k-th state, the last one first.
  function FreedBy(steps: seq<Label>, t: int, i: nat, k: nat): seq<int>
    requires i <= k <= |steps|
  {
    if i == k then [] else (if steps[k - 1].t == t then BlockOf(steps[k - 1].m) else []) + FreedBy(steps, t, i, k - 1)
  }

  // A step that gives back a block of thread o and of class c.
  ghost predicate FreesOne(f: Fast, m: Move, o: int, c: int) {
    exists p :: BlockOf(m) == [p] && p in f.owner && p in f.bytes && f.owner[p] == o && ClassOf(f.bytes[p]) == Some(c)
  }

  // The batch that thread t has collected for o consists of `items`, and t is not sending it back.
  ghost predicate Collected(f: Fast, v: View, t: int, o: int, c: int, items: seq<int>) {
    && Inv(f, v) && 0 <= t < f.n && 0 <= c < 4 && f.pc[t] == Idle && Other(t, c) in v.lists && v.lists[Other(t, c)] == items
    && forall b :: b in items ==> b in f.owner && f.owner[b] == o
  }

  // What does not touch the batch keeps it, and its blocks their owners.
  lemma BatchKept(f: Fast, v: View, u: int, m: Move, v': View, t: int, c: int)
    requires Inv(f, v) && Enabled(f, u, m) && Inv(Apply(f, u, m), v') && Other(t, c) in v.lists
    requires u == t ==> !m.FreeFirst? && !m.FreePush? && !m.ReturnWin?
    ensures Other(t, c) in v'.lists && v'.lists[Other(t, c)] == v.lists[Other(t, c)]
  {
    ListsMove(f, v, u, m, v');
  }

  lemma OwnersKept(f: Fast, v: View, u: int, m: Move, s: Slot)
    requires Inv(f, v) && Enabled(f, u, m) && s in v.lists
    ensures forall b :: b in v.lists[s] ==> b in f.owner && b in Apply(f, u, m).owner && Apply(f, u, m).owner[b] == f.owner[b]
  {
    forall b | b in v.lists[s] ensures b in f.owner && b in Apply(f, u, m).owner && Apply(f, u, m).owner[b] == f.owner[b] {
      ItemPlace(f, v, s, b);
      BlockStays(f, u, m, b);
    }
  }

  lemma CollectOther(f: Fast, v: View, u: int, m: Move, v': View, t: int, o: int, c: int, items: seq<int>)
    requires Collected(f, v, t, o, c, items) && Enabled(f, u, m) && u != t && Inv(Apply(f, u, m), v')
    ensures Collected(Apply(f, u, m), v', t, o, c, items)
  {
    BatchKept(f, v, u, m, v', t, c);
    OwnersKept(f, v, u, m, Other(t, c));
  }

  lemma CollectOne(f: Fast, v: View, m: Move, v': View, t: int, o: int, c: int, items: seq<int>)
    requires Collected(f, v, t, o, c, items) && Enabled(f, t, m) && Inv(Apply(f, t, m), v')
    requires o != t && FreesOne(f, m, o, c) && |items| < 16
    ensures m.FreeFirst? || m.FreePush?
    ensures Collected(Apply(f, t, m), v', t, o, c, BlockOf(m) + items)
  {
    var p :| BlockOf(m) == [p] && p in f.owner && p in f.bytes && f.owner[p] == o && ClassOf(f.bytes[p]) == Some(c);
    WhereFreeGoes(f, v, t, p, c);
    assert Can(f, t, m);
    if |items| > 0 { assert items[0] in items; }
    ListsMove(f, v, t, m, v');
    var f' := Apply(f, t, m);
    forall b | b in [p] + items ensures b in f'.owner && f'.owner[b] == o { BlockStays(f, t, m, b); }
  }

  /** However the other threads move meanwhile: up to sixteen frees in a row by one thread,
      of blocks of one other thread and one class, onto an empty batch all stay on it, the
      last one first, and none of them takes more than one step. */
  lemma {:induction false} BatchFills(run: seq<Fast>, steps: seq<Label>, v: View, t: int, o: int, c: int, i: nat, k: nat)
    returns (v': View)
    requires Labelled(run, steps) && i <= k < |run| && t != o && Collected(run[i], v, t, o, c, [])
    requires forall j :: i <= j < k && steps[j].t == t ==> FreesOne(run[j], steps[j].m, o, c)
    requires |FreedBy(steps, t, i, k)| <= 16
    ensures Inv(run[k], v') && Other(t, c) in v'.lists && v'.lists[Other(t, c)] == FreedBy(steps, t, i, k)
    ensures Collected(run[k], v', t, o, c, FreedBy(steps, t, i, k))
    ensures forall j :: i <= j < k && steps[j].t == t ==> steps[j].m.FreeFirst? || steps[j].m.FreePush?
    decreases k
  {
    if i == k {
      v' := v;
    } else {
      var w := BatchFills(run, steps, v, t, o, c, i, k - 1);
      assert StepAt(run, steps, k - 1);
      var f, u, m := run[k - 1], steps[k - 1].t, steps[k - 1].m;
      Keeps(f, w, u, m);
      v' := ViewAfter(f, w, u, m);
      if u == t {
        CollectOne(f, w, m, v', t, o, c, FreedBy(steps, t, i, k - 1));
      } else {
        CollectOther(f, w, u, m, v', t, o, c, FreedBy(steps, t, i, k - 1));
      }
    }
  }

  // ---------- the way back ----------

  // Thread t is freeing p and sends the batch `items`, which it has collected for o, back.
  ghost predicate Sending(f: Fast, v: View, t: int, o: int, c: int, items: seq<int>, p: int) {
    && Inv(f, v) && 0 <= t < f.n && 0 <= c < 4 && Shipped(f, t, p) && f.pc[t].c == c
    && items != [] && f.pc[t].head == items[0] && Other(t, c) in v.lists && v.lists[Other(t, c)] == items
    && forall b :: b in items ==> b in f.owner && f.owner[b] == o
  }

  /** The seventeenth free of the kind begins to send all sixteen back. */
  lemma SeventeenthSends(f: Fast, v: View, t: int, o: int, c: int, items: seq<int>, m: Move, v': View)
    requires Collected(f, v, t, o, c, items) && |items| == 16 && o != t && Enabled(f, t, m) && FreesOne(f, m, o, c)
    requires Inv(Apply(f, t, m), v')
    ensures m.FreeFull? && Sending(Apply(f, t, m), v', t, o, c, items, m.p)
  {
    var p :| BlockOf(m) == [p] && p in f.owner && p in f.bytes && f.owner[p] == o && ClassOf(f.bytes[p]) == Some(c);
    FullBatch(f, v, t, o, c, items, m, p);
    BatchKept(f, v, t, m, v', t, c);
    OwnersKept(f, v, t, m, Other(t, c));
  }

  lemma FullBatch(f: Fast, v: View, t: int, o: int, c: int, items: seq<int>, m: Move, p: int)
    requires Collected(f, v, t, o, c, items) && |items| == 16 && o != t && Enabled(f, t, m)
    requires BlockOf(m) == [p] && p in f.owner && p in f.bytes && f.owner[p] == o && ClassOf(f.bytes[p]) == Some(c)
    ensures m == FreeFull(p) && Apply(f, t, m).pc == f.pc[t := Walk(c, p, items[0], items[0])]
  {
    WhereFreeGoes(f, v, t, p, c);
    assert Can(f, t, m) && items[0] in items;
    Heads(f, v, Other(t, c));
  }

  lemma SendingStays(f: Fast, v: View, u: int, m: Move, v': View, t: int, o: int, c: int, items: seq<int>, p: int)
    requires Sending(f, v, t, o, c, items, p) && Enabled(f, u, m) && Inv(Apply(f, u, m), v')
    requires u == t ==> m != ReturnWin
    ensures Sending(Apply(f, u, m), v', t, o, c, items, p)
  {
    BatchKept(f, v, u, m, v', t, c);
    OwnersKept(f, v, u, m, Other(t, c));
  }

  /** However the other threads move meanwhile: the step that ends the way back puts the whole
      batch, in its order, in front of what its owner has been sent by then, and the freed block
      begins a new batch. */
  lemma {:induction false} BatchReturns(run: seq<Fast>, steps: seq<Label>, v: View, t: int, o: int, c: int,
                                        items: seq<int>, p: int, i: nat, k: nat)
    returns (w: View, w': View)
    requires Labelled(run, steps) && i <= k < |steps| && Sending(run[i], v, t, o, c, items, p)
    requires steps[k] == Label(t, ReturnWin) && forall j :: i <= j < k ==> steps[j] != Label(t, ReturnWin)
    ensures Inv(run[k], w) && Inv(run[k + 1], w') && Sync(o, c) in w.lists && Sync(o, c) in w'.lists && Other(t, c) in w'.lists
    ensures w'.lists[Sync(o, c)] == items + w.lists[Sync(o, c)] && w'.lists[Other(t, c)] == [p]
    ensures 0 <= t < run[k + 1].n && t in run[k + 1].pc && run[k + 1].pc[t] == Idle
    decreases k - i
  {
    assert StepAt(run, steps, i) && StepAt(run, steps, k);
    var f, u, m := run[i], steps[i].t, steps[i].m;
    Keeps(f, v, u, m);
    var v' := ViewAfter(f, v, u, m);
    if i == k {
      w, w' := v, v';
      ListsMove(f, v, u, m, v');
      assert items[0] in items;
    } else {
      SendingStays(f, v, u, m, v', t, o, c, items, p);
      w, w' := BatchReturns(run, steps, v', t, o, c, items, p, i + 1, k);
    }
  }
}
