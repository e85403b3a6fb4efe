/** The drain of an owner's queue as a whole: it begins with everything that is
    queued at that moment and ends when all of it has been released. */
module QueueDrain {
  import opened Chains
  import opened DeferredFree
  import opened ThreadTotals

  // The blocks that thread t gives back between the i-th and the k-th state, in this order.
  ghost function GivenBackBy(run: seq<Heaps>, steps: seq<Label>, t: int, i: nat, k: nat): seq<int>
    requires i <= k <= |steps| < |run|
    decreases k - i
  {
    if i == k then [] else
      (if steps[i].t == t && GivenBack(run[i], steps[i]) != 0 then [GivenBack(run[i], steps[i])] else []) +
      GivenBackBy(run, steps, t, i + 1, k)
  }

  /** A block is given back directly, at once, or through its owner's queue: which, depends on
      how it was got and on who frees it. */
  lemma WhereFreeGoes(h: Heaps, v: View, t: int, b: int)
    requires Inv(h, v) && 0 <= t < h.n && h.pc[t] == Idle && b in h.held
    ensures b in h.owner
    ensures Enabled(h, t, FreeDirect(b)) <==> b in h.direct
    ensures Enabled(h, t, FreeOwn(b)) <==> b !in h.direct && h.owner[b] == t
    ensures Enabled(h, t, FreeRemote(b)) <==> b !in h.direct && h.owner[b] != t
  {
    assert b in v.place;
  }

  lemma HeadTells(h: Heaps, v: View, t: int)
    requires Inv(h, v) && 0 <= t < h.n
    ensures t in v.queue && h.head[t] == if v.queue[t] == [] then 0 else v.queue[t][0]
    ensures v.queue[t] == [] <==> h.head[t] == 0
  {
    assert ThreadOk(h, v, t);
    if v.queue[t] != [] { assert v.queue[t][0] in v.queue[t]; }
  }

  /** A dequeue turns to the queue exactly if there is a block on it. */
  lemma DequeueFinds(h: Heaps, v: View, t: int)
    requires Inv(h, v) && 0 <= t < h.n && h.pc[t] == Idle
    ensures t in v.queue
    ensures Enabled(h, t, Look) <==> v.queue[t] != []
    ensures Enabled(h, t, LookEmpty) <==> v.queue[t] == []
  {
    HeadTells(h, v, t);
  }

  /** A push and a take try again exactly if the queue has another first block than the one seen. */
  lemma RetryMeansChange(h: Heaps, v: View, t: int)
    requires Inv(h, v) && 0 <= t < h.n
    ensures h.pc[t].Push? ==>
      h.pc[t].b in h.owner && h.owner[h.pc[t].b] in v.queue && var q := v.queue[h.owner[h.pc[t].b]];
      var first := if q == [] then 0 else q[0];
      (Enabled(h, t, PushRetry) <==> first != h.pc[t].seen) && (Enabled(h, t, PushWin) <==> first == h.pc[t].seen)
    ensures h.pc[t].Take? ==>
      t in v.queue && v.queue[t] != []
      && (Enabled(h, t, TakeRetry) <==> v.queue[t][0] != h.pc[t].seen) && (Enabled(h, t, TakeWin) <==> v.queue[t][0] == h.pc[t].seen)
  {
    assert ThreadOk(h, v, t);
    if h.pc[t].Push? { HeadTells(h, v, h.owner[h.pc[t].b]); }
    HeadTells(h, v, t);
  }

  /** A dequeue that has found blocks does not give up: it goes on until it has taken the
      whole queue, in its order, and left it empty. */
  lemma TakeGoesOn(h: Heaps, v: View, u: int, m: Move, t: int)
    requires Inv(h, v) && Enabled(h, u, m) && 0 <= t < h.n && h.pc[t].Take?
    ensures var h', v' := Apply(h, u, m), ViewAfter(h, v, u, m);
            && t in h'.pc && t in v.queue && t in v'.queue && t in v'.chain
            && if u == t && m == TakeWin
               then h'.pc[t].Drain? && v'.chain[t] == v.queue[t] != [] && v'.queue[t] == []
               else h'.pc[t].Take?
  {
    assert ThreadOk(h, v, t);
  }

  lemma DrainStep(h: Heaps, v: View, u: int, m: Move, t: int)
    requires Inv(h, v) && Enabled(h, u, m) && 0 <= t < h.n && h.pc[t].Drain? && Label(u, m) != Label(t, DrainEnd)
    ensures var h', v', b := Apply(h, u, m), ViewAfter(h, v, u, m), GivenBack(h, Label(u, m));
            && t in h'.pc && h'.pc[t].Drain? && t in v.chain && t in v'.chain
            && (u == t ==> b != 0 && v.chain[t] == [b] + v'.chain[t])
            && (u != t ==> v'.chain[t] == v.chain[t])
  {
    assert ThreadOk(h, v, t);
    if u == t {
      assert v.chain[t] != [];
    }
  }

  lemma DrainedOut(h: Heaps, v: View, t: int)
    requires Inv(h, v) && Enabled(h, t, DrainEnd)
    ensures t in v.chain && v.chain[t] == []
  {
    assert ThreadOk(h, v, t);
  }

  /** However the other threads move meanwhile: until its end the drain releases exactly the
      blocks of the chain it took, each once and in their order. */
  lemma {:induction false} DrainsAll(run: seq<Heaps>, steps: seq<Label>, v: View, t: int, i: nat, k: nat)
    requires Labelled(run, steps) && i <= k < |steps| && Inv(run[i], v) && 0 <= t < run[i].n && run[i].pc[t].Drain?
    requires steps[k] == Label(t, DrainEnd) && forall j :: i <= j < k ==> steps[j] != Label(t, DrainEnd)
    ensures t in v.chain && GivenBackBy(run, steps, t, i, k) == v.chain[t]
    decreases k - i
  {
    assert StepAt(run, steps, i) && StepAt(run, steps, k);
    var h, u, m := run[i], steps[i].t, steps[i].m;
    if i == k {
      DrainedOut(h, v, t);
    } else {
      DrainStep(h, v, u, m, t);
      Keeps(h, v, u, m);
      DrainsAll(run, steps, ViewAfter(h, v, u, m), t, i + 1, k);
    }
  }

  /** From the step that takes the queue to the end of the drain the thread releases exactly
      what was queued at that moment, the block queued last first. */
  lemma DrainsQueue(run: seq<Heaps>, steps: seq<Label>, v: View, t: int, i: nat, k: nat)
    requires Labelled(run, steps) && i < k < |steps| && Inv(run[i], v) && steps[i] == Label(t, TakeWin)
    requires steps[k] == Label(t, DrainEnd) && forall j :: i < j < k ==> steps[j] != Label(t, DrainEnd)
    ensures t in v.queue && v.queue[t] != [] && GivenBackBy(run, steps, t, i + 1, k) == v.queue[t]
  {
    assert StepAt(run, steps, i);
    TakeGoesOn(run[i], v, t, TakeWin, t);
    Keeps(run[i], v, t, TakeWin);
    DrainsAll(run, steps, ViewAfter(run[i], v, t, TakeWin), t, i + 1, k);
  }
}
