/** What each thread's count of allocated bytes says: the history of its own calls,
    which is not the size of its own blocks. */
module ThreadTotals {
  import opened DeferredFree
  import opened Sums

  // The size that block b was handed out with, the last time before step k.
  ghost function SizeGiven(steps: seq<Label>, b: int, k: nat): int
    requires k <= |steps|
  {
    if k == 0 then 0
    else if steps[k - 1].m.Get? && steps[k - 1].m.b == b then steps[k - 1].m.size
    else SizeGiven(steps, b, k - 1)
  }

  // The bytes that thread t has got in the first k steps.
  ghost function Got(steps: seq<Label>, t: int, k: nat): int
    requires k <= |steps|
  {
    if k == 0 then 0
    else Got(steps, t, k - 1) + if steps[k - 1].t == t && steps[k - 1].m.Get? then steps[k - 1].m.size else 0
  }

  // The block that a step gives back to the heap or to the system, 0 for none: one's own or a
  // direct one at once, others when their owner drains its queue.
  ghost function GivenBack(h: Heaps, l: Label): int {
    match l.m
    case FreeDirect(b) => b
    case FreeOwn(b) => b
    case DrainOne => if l.t in h.pc && h.pc[l.t].Drain? then h.pc[l.t].p else 0
    case _ => 0
  }

  // The bytes of the blocks that thread t has given back in the first k steps.
  ghost function Returned(run: seq<Heaps>, steps: seq<Label>, t: int, k: nat): int
    requires k <= |steps| < |run|
  {
    if k == 0 then 0
    else Returned(run, steps, t, k - 1) +
         if steps[k - 1].t == t && GivenBack(run[k - 1], steps[k - 1]) != 0
         then SizeGiven(steps, GivenBack(run[k - 1], steps[k - 1]), k - 1) else 0
  }

  lemma {:induction false} SizesAre(run: seq<Heaps>, steps: seq<Label>, b: int, k: nat)
    requires Labelled(run, steps) && k < |run| && b in run[k].owner
    ensures b in run[k].size && run[k].size[b] == SizeGiven(steps, b, k)
  {
    if k > 0 {
      assert StepAt(run, steps, k - 1);
      var m := steps[k - 1].m;
      if !(m.Get? && m.b == b) { SizesAre(run, steps, b, k - 1); }
    }
  }

  lemma StepChanges(h: Heaps, l: Label, t: int)
    requires Shaped(h) && Enabled(h, l.t, l.m) && 0 <= t < h.n
    ensures var h', b := Apply(h, l.t, l.m), GivenBack(h, l);
            && h'.n == h.n && t < |h'.total| && (b != 0 ==> b in h.owner && b in h.size && !l.m.Get?)
            && h'.total[t] == h.total[t] +
               (if l.t == t && l.m.Get? then l.m.size else 0) - (if l.t == t && b != 0 then h.size[b] else 0)
  {
  }

  /** In every interleaving a thread's total is what it got itself less what it gave
      back itself: the drain of its queue counts, its blocks that others release
      directly do not. */
  lemma {:induction false} OwnHistory(run: seq<Heaps>, steps: seq<Label>, t: int, k: nat)
    requires Labelled(run, steps) && k < |run| && 0 <= t < run[0].n
    ensures run[k].n == run[0].n && t < |run[k].total|
    ensures run[k].total[t] == Got(steps, t, k) - Returned(run, steps, t, k)
  {
    if k > 0 {
      OwnHistory(run, steps, t, k - 1);
      assert StepAt(run, steps, k - 1);
      var h, l := run[k - 1], steps[k - 1];
      StepChanges(h, l, t);
      if GivenBack(h, l) != 0 { SizesAre(run, steps, GivenBack(h, l), k - 1); }
    }
  }

  // What the steps i to k - 1 that hand out block b or give it back put on thread t's account.
  ghost function Share(run: seq<Heaps>, steps: seq<Label>, b: int, t: int, i: nat, k: nat): int
    requires i <= k <= |steps| < |run|
    decreases k
  {
    if i == k then 0
    else Share(run, steps, b, t, i, k - 1) +
         if steps[k - 1].t != t then 0
         else if steps[k - 1].m.Get? && steps[k - 1].m.b == b then steps[k - 1].m.size
         else if GivenBack(run[k - 1], steps[k - 1]) == b then - SizeGiven(steps, b, k - 1)
         else 0
  }

  // While block b is out, nothing is put on any account for it, and its size stays.
  lemma {:induction false} WhileOut(run: seq<Heaps>, steps: seq<Label>, b: int, t: int, i: nat, j: nat, k: nat)
    requires Life(run, steps, b, i, k) && i < j < k
    ensures Share(run, steps, b, t, i, j) == (if steps[i].t == t then steps[i].m.size else 0)
    ensures SizeGiven(steps, b, j) == steps[i].m.size
    decreases j
  {
    assert StepAt(run, steps, i) && StepAt(run, steps, j - 1);
    if j - 1 > i {
      WhileOut(run, steps, b, t, i, j - 1, k);
      ReleaseEnds(run[j - 1], steps[j - 1].t, steps[j - 1].m, b);
    } else {
      assert Share(run, steps, b, t, i, i) == 0;
    }
  }

  /** Over its life a block is added to the total of the thread that got it and taken off
      that of the thread that gives it back. These are the same thread unless the block
      came from the system on its own: such a block, released by another thread, stays in
      the total of its getter for good and is missing from that of its releaser. */
  lemma ShareOfBlock(run: seq<Heaps>, steps: seq<Label>, b: int, t: int, i: nat, k: nat)
    requires Life(run, steps, b, i, k)
    ensures Share(run, steps, b, t, i, k) ==
            (if steps[i].t == t then steps[i].m.size else 0) - (if steps[k - 1].t == t then steps[i].m.size else 0)
    ensures steps[k - 1].m != FreeDirect(b) ==> Share(run, steps, b, t, i, k) == 0
    ensures steps[k - 1].m == FreeDirect(b) && steps[k - 1].t != steps[i].t ==>
      && (t == steps[i].t ==> Share(run, steps, b, t, i, k) == steps[i].m.size)
      && (t == steps[k - 1].t ==> Share(run, steps, b, t, i, k) == - steps[i].m.size)
  {
    LastRelease(run, steps, b, i, k - 1);
    LastByOwner(run, steps, b, i, k - 1);
    assert StepAt(run, steps, k - 1);
    WhileOut(run, steps, b, t, i, k - 1, k);
  }

  // What these steps put on thread t's account for all other blocks.
  ghost function OtherShares(run: seq<Heaps>, steps: seq<Label>, b: int, t: int, i: nat, k: nat): int
    requires i <= k <= |steps| < |run|
    decreases k
  {
    if i == k then 0
    else OtherShares(run, steps, b, t, i, k - 1) +
         if steps[k - 1].t != t then 0
         else if steps[k - 1].m.Get? && steps[k - 1].m.b != b then steps[k - 1].m.size
         else if GivenBack(run[k - 1], steps[k - 1]) !in {0, b} then - SizeGiven(steps, GivenBack(run[k - 1], steps[k - 1]), k - 1)
         else 0
  }

  /** A total moves by the share of block b and those of all others: what b puts on an
      account and nothing takes off again stays there. */
  lemma {:induction false} SharesAddUp(run: seq<Heaps>, steps: seq<Label>, b: int, t: int, i: nat, k: nat)
    requires Labelled(run, steps) && i <= k <= |steps| && 0 <= t < run[0].n && b != 0
    ensures run[k].n == run[i].n == run[0].n && t < |run[k].total| && t < |run[i].total|
    ensures run[k].total[t] - run[i].total[t] == Share(run, steps, b, t, i, k) + OtherShares(run, steps, b, t, i, k)
    decreases k
  {
    OwnHistory(run, steps, t, k);
    OwnHistory(run, steps, t, i);
    if i < k {
      SharesAddUp(run, steps, b, t, i, k - 1);
      assert StepAt(run, steps, k - 1);
      var h, l := run[k - 1], steps[k - 1];
      StepChanges(h, l, t);
      if GivenBack(h, l) != 0 { SizesAre(run, steps, GivenBack(h, l), k - 1); }
    }
  }
}
