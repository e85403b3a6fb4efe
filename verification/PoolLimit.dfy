/** Allocators with a limited pool: any number of threads charge and uncharge the
    pool counter at the same time, each access being one step. */
module PoolLimit {
  import opened Sums

  const DESCRIPTOR := 32   // sizeof(kmp_mem_desc_t)
  const WORD := 8          // the alignment used when none is asked for

  // Predefined allocators are not limited; the one for high-bandwidth memory has none to give.
  datatype Handle = Default | HighBandwidth | Custom(id: nat)

  datatype Fallback = DefaultMem | NullResult | Abort | Allocator(data: Handle)

  // poolSize 0 means no limit was set.
  datatype Traits = Traits(alignment: nat, poolSize: nat, fb: Fallback)

  // A live block: the bytes taken for it, and the allocator noted in its descriptor.
  datatype Block = Block(size: int, al: Handle)

  datatype Pc =
    | Idle
    | Try(al: Handle, size: nat)             // __kmpc_alloc entered with this allocator
    | Over(id: nat, size: nat, sizeA: int)   // charged beyond the limit, to be undone
    | Granted(id: nat, sizeA: int)           // charged within the limit
    | ToDefault(sizeA: int)                  // falling back to the default memory
    | Aborted

  // used: pool_used of each custom allocator.  leaked: what failed allocations have left charged.
  datatype Pools = Pools(traits: seq<Traits>, used: seq<int>, blocks: map<int, Block>, pc: map<int, Pc>, leaked: seq<int>)

  // fb_data names an allocator that was created before.
  ghost predicate Created(traits: seq<Traits>) {
    forall i :: 0 <= i < |traits| ==> traits[i].fb.Allocator? && traits[i].fb.data.Custom? ==> traits[i].fb.data.id < i
  }

  predicate Exists(traits: seq<Traits>, al: Handle) {
    al.Custom? ==> al.id < |traits|
  }

  function SizeA(traits: seq<Traits>, al: Handle, size: nat): int
    requires Exists(traits, al)
  {
    size + DESCRIPTOR + if al.Custom? && traits[al.id].alignment > 0 then traits[al.id].alignment else WORD
  }

  function Limited(traits: seq<Traits>, al: Handle): bool
    requires Exists(traits, al)
  {
    al.Custom? && traits[al.id].poolSize > 0
  }

  datatype Move =
    | Start(al: Handle, size: nat)
    | Charge                       // the fetch-and-add of the size
    | Undo                         // the fetch-and-add of its negation, and the choice of a fallback
    | Malloc(p: int)               // the internal allocation; 0 for no memory
    | Free(p: int)

  ghost predicate Shaped(s: Pools) {
    && |s.used| == |s.traits| == |s.leaked| && Created(s.traits)
    && (forall t :: t in s.pc ==> PcShaped(s.traits, s.pc[t]))
    && (forall p :: p in s.blocks ==> p > 0 && s.blocks[p].size > 0 && Exists(s.traits, s.blocks[p].al))
  }

  ghost predicate PcShaped(traits: seq<Traits>, pc: Pc) {
    match pc
    case Try(al, size) => Exists(traits, al)
    case Over(id, size, sizeA) => id < |traits| && traits[id].poolSize > 0 && sizeA == SizeA(traits, Custom(id), size)
    case Granted(id, sizeA) => id < |traits| && traits[id].poolSize > 0 && sizeA > 0
    case ToDefault(sizeA) => sizeA > 0
    case _ => true
  }

  ghost predicate Enabled(s: Pools, t: int, m: Move)
    requires Shaped(s)
  {
    && t in s.pc
    && match m
       case Start(al, size) => s.pc[t].Idle? && Exists(s.traits, al)
       case Charge => s.pc[t].Try? && Limited(s.traits, s.pc[t].al)
       case Undo => s.pc[t].Over?
       case Malloc(p) =>
         && (s.pc[t].Granted? || s.pc[t].ToDefault? || (s.pc[t].Try? && !Limited(s.traits, s.pc[t].al)))
         && (p != 0 ==> p > 0 && p !in s.blocks) && (s.pc[t].Try? && s.pc[t].al == HighBandwidth ==> p == 0)
       case Free(p) => s.pc[t].Idle? && p in s.blocks
  }

  // Where a thread goes when its allocator has no memory.
  function NoMemory(traits: seq<Traits>, al: Handle): Pc
    requires Exists(traits, al)
  {
    if al.Custom? && traits[al.id].fb.Abort? then Aborted else Idle
  }

  ghost function Apply(s: Pools, t: int, m: Move): Pools
    requires Shaped(s) && Enabled(s, t, m)
  {
    match m
    case Start(al, size) => s.(pc := s.pc[t := Try(al, size)])
    case Charge =>
      var id, size := s.pc[t].al.id, s.pc[t].size;
      var sizeA := SizeA(s.traits, Custom(id), size);
      s.(used := s.used[id := s.used[id] + sizeA],
         pc := s.pc[t := if s.used[id] + sizeA > s.traits[id].poolSize then Over(id, size, sizeA) else Granted(id, sizeA)])
    case Undo =>
      var Over(id, size, sizeA) := s.pc[t];
      s.(used := s.used[id := s.used[id] - sizeA],
         pc := s.pc[t := match s.traits[id].fb
                         case DefaultMem => ToDefault(sizeA)
                         case NullResult => Idle
                         case Abort => Aborted
                         case Allocator(data) => Try(data, size)])
    case Malloc(p) =>
      match s.pc[t] {
        case Granted(id, sizeA) =>
          if p == 0 then s.(pc := s.pc[t := NoMemory(s.traits, Custom(id))], leaked := s.leaked[id := s.leaked[id] + sizeA])
          else s.(pc := s.pc[t := Idle], blocks := s.blocks[p := Block(sizeA, Custom(id))])
        case ToDefault(sizeA) =>
          if p == 0 then s.(pc := s.pc[t := Idle]) else s.(pc := s.pc[t := Idle], blocks := s.blocks[p := Block(sizeA, Default)])
        case Try(al, size) =>
          if p == 0 then s.(pc := s.pc[t := NoMemory(s.traits, al)])
          else s.(pc := s.pc[t := Idle], blocks := s.blocks[p := Block(SizeA(s.traits, al, size), al)])
        case _ => s
      }
    case Free(p) =>
      var b := s.blocks[p];
      s.(blocks := s.blocks - {p},
         used := if Limited(s.traits, b.al) then s.used[b.al.id := s.used[b.al.id] - b.size] else s.used)
  }

  // ---------- the accounts ----------

  ghost function LiveOf(blocks: map<int, Block>, id: nat): map<int, int> {
    map p | p in blocks :: if blocks[p].al == Custom(id) then blocks[p].size else 0
  }

  function GrantedTo(pc: Pc, id: nat): int {
    if pc.Granted? && pc.id == id then pc.sizeA else 0
  }

  function PendingOn(pc: Pc, id: nat): int {
    if pc.Over? && pc.id == id then pc.sizeA else GrantedTo(pc, id)
  }

  ghost function GrantsOf(pc: map<int, Pc>, id: nat): map<int, int> {
    map t | t in pc :: GrantedTo(pc[t], id)
  }

  ghost function PendingOf(pc: map<int, Pc>, id: nat): map<int, int> {
    map t | t in pc :: PendingOn(pc[t], id)
  }

  // The bytes charged by live blocks of allocator id.
  ghost function Live(s: Pools, id: nat): int {
    Total(LiveOf(s.blocks, id))
  }

  // The counter is what live blocks, allocations on their way and failed allocations
  // have charged; leaving out those about to undo their charge, it keeps to the limit.
  ghost predicate Accounted(s: Pools, id: nat)
    requires id < |s.traits| == |s.used| == |s.leaked|
  {
    && s.leaked[id] >= 0
    && s.used[id] == Live(s, id) + Total(PendingOf(s.pc, id)) + s.leaked[id]
    && Live(s, id) + Total(GrantsOf(s.pc, id)) + s.leaked[id] <= s.traits[id].poolSize
  }

  ghost predicate Inv(s: Pools) {
    && Shaped(s)
    && forall id {:trigger Accounted(s, id)} :: 0 <= id < |s.traits| && s.traits[id].poolSize > 0 ==> Accounted(s, id)
  }

  // One thread moves on.
  lemma PcMoves(pc: map<int, Pc>, t: int, to: Pc, id: nat)
    requires t in pc
    ensures Total(PendingOf(pc[t := to], id)) == Total(PendingOf(pc, id)) - PendingOn(pc[t], id) + PendingOn(to, id)
    ensures Total(GrantsOf(pc[t := to], id)) == Total(GrantsOf(pc, id)) - GrantedTo(pc[t], id) + GrantedTo(to, id)
  {
    TotalUpdate(PendingOf(pc, id), t, PendingOn(to, id));
    TotalUpdate(GrantsOf(pc, id), t, GrantedTo(to, id));
    assert PendingOf(pc[t := to], id) == PendingOf(pc, id)[t := PendingOn(to, id)];
    assert GrantsOf(pc[t := to], id) == GrantsOf(pc, id)[t := GrantedTo(to, id)];
  }

  lemma BlockAdded(blocks: map<int, Block>, p: int, b: Block, id: nat)
    requires p !in blocks
    ensures Total(LiveOf(blocks[p := b], id)) == Total(LiveOf(blocks, id)) + if b.al == Custom(id) then b.size else 0
  {
    var x := if b.al == Custom(id) then b.size else 0;
    TotalWith(LiveOf(blocks, id), p, x);
    assert LiveOf(blocks[p := b], id) == LiveOf(blocks, id)[p := x];
  }

  lemma BlockRemoved(blocks: map<int, Block>, p: int, id: nat)
    requires p in blocks
    ensures Total(LiveOf(blocks - {p}, id)) == Total(LiveOf(blocks, id)) - if blocks[p].al == Custom(id) then blocks[p].size else 0
  {
    TotalWithout(LiveOf(blocks, id), p);
    assert LiveOf(blocks - {p}, id) == LiveOf(blocks, id) - {p};
  }

  lemma GrantsWithinPending(s: Pools, id: nat)
    requires Shaped(s)
    ensures 0 <= Total(GrantsOf(s.pc, id)) <= Total(PendingOf(s.pc, id))
  {
    forall t | t in s.pc ensures 0 <= GrantedTo(s.pc[t], id) <= PendingOn(s.pc[t], id) { assert PcShaped(s.traits, s.pc[t]); }
    TotalOrder(GrantsOf(s.pc, id), PendingOf(s.pc, id));
    TotalAtLeast(GrantsOf(s.pc, id), 0);
  }

  lemma KeepsShape(s: Pools, t: int, m: Move)
    requires Shaped(s) && Enabled(s, t, m)
    ensures Shaped(Apply(s, t, m))
  {
    assert PcShaped(s.traits, s.pc[t]);
  }

  lemma AccountedFree(s: Pools, t: int, m: Move, id: nat)
    requires Shaped(s) && Enabled(s, t, m) && m.Free? && id < |s.traits| && s.traits[id].poolSize > 0 && Accounted(s, id)
    ensures Accounted(Apply(s, t, m), id)
  {
    BlockRemoved(s.blocks, m.p, id);
  }

  lemma AccountedCall(s: Pools, t: int, m: Move, id: nat)
    requires Shaped(s) && Enabled(s, t, m) && !m.Free? && id < |s.traits| && s.traits[id].poolSize > 0 && Accounted(s, id)
    ensures var s' := Apply(s, t, m); |s'.used| == |s'.leaked| == |s'.traits| && Accounted(s', id)
  {
    var s' := Apply(s, t, m);
    assert PcShaped(s.traits, s.pc[t]);
    PcMoves(s.pc, t, s'.pc[t], id);
    GrantsWithinPending(s, id);
    if m.Malloc? && m.p != 0 { BlockAdded(s.blocks, m.p, s'.blocks[m.p], id); }
  }

  // ---------- the theorems ----------

  /** Every step of every thread keeps the accounts. */
  lemma Keeps(s: Pools, t: int, m: Move)
    requires Inv(s) && Enabled(s, t, m)
    ensures Inv(Apply(s, t, m))
  {
    var s' := Apply(s, t, m);
    KeepsShape(s, t, m);
    forall id | 0 <= id < |s.traits| && s.traits[id].poolSize > 0 ensures Accounted(s', id) {
      assert Accounted(s, id);
      if m.Free? { AccountedFree(s, t, m, id); } else { AccountedCall(s, t, m, id); }
    }
  }

  ghost predicate Initial(s: Pools) {
    && Shaped(s) && s.blocks == map[]
    && (forall i :: 0 <= i < |s.traits| ==> s.used[i] == 0 && s.leaked[i] == 0)
    && (forall t :: t in s.pc ==> s.pc[t] == Idle)
  }

  ghost predicate Steps(s: Pools, t: int, m: Move, s': Pools) {
    Shaped(s) && Enabled(s, t, m) && s' == Apply(s, t, m)
  }

  ghost predicate OneStep(s: Pools, s': Pools) {
    exists t, m :: Steps(s, t, m, s')
  }

  ghost predicate IsRun(run: seq<Pools>) {
    |run| > 0 && Initial(run[0]) && forall i :: 0 < i < |run| ==> OneStep(run[i - 1], run[i])
  }

  lemma InitialInv(s: Pools)
    requires Initial(s)
    ensures Inv(s)
  {
    forall id | 0 <= id < |s.traits| && s.traits[id].poolSize > 0 ensures Accounted(s, id) {
      AllZero(PendingOf(s.pc, id));
      AllZero(GrantsOf(s.pc, id));
    }
  }

  lemma {:induction false} AllZero(m: map<int, int>)
    requires forall k :: k in m ==> m[k] == 0
    ensures Total(m) == 0
    decreases |m|
  {
    if m != map[] {
      var k := SomeKey(m);
      assert m[k] == 0;
      AllZero(m - {k});
    }
  }

  lemma {:induction false} RunsKeep(run: seq<Pools>, k: nat)
    requires IsRun(run) && k < |run|
    ensures Inv(run[k])
  {
    if k == 0 {
      InitialInv(run[0]);
    } else {
      RunsKeep(run, k - 1);
      var t, m :| Steps(run[k - 1], t, m, run[k]);
      Keeps(run[k - 1], t, m);
    }
  }

  /** In every reachable state the live blocks of a limited allocator are within
      its pool size, and its counter covers them. */
  lemma WithinLimit(run: seq<Pools>, k: nat, id: nat)
    requires IsRun(run) && k < |run| && id < |run[k].traits| && run[k].traits[id].poolSize > 0
    ensures id < |run[k].used| && 0 <= Live(run[k], id) <= run[k].traits[id].poolSize && Live(run[k], id) <= run[k].used[id]
  {
    RunsKeep(run, k);
    var s := run[k];
    assert Accounted(s, id);
    GrantsWithinPending(s, id);
    TotalAtLeast(LiveOf(s.blocks, id), 0);
  }

  /** The counter is never below what a free is about to take off it. */
  lemma NoUnderflow(s: Pools, t: int, p: int)
    requires Inv(s) && Enabled(s, t, Free(p)) && Limited(s.traits, s.blocks[p].al)
    ensures s.used[s.blocks[p].al.id] >= s.blocks[p].size
  {
    var id := s.blocks[p].al.id;
    assert Accounted(s, id);
    GrantsWithinPending(s, id);
    TotalAtLeast(LiveOf(s.blocks, id), p);
  }

  // How far a call still has to go: at most four steps for each allocator it may still turn to.
  function Left(pc: Pc): nat {
    match pc
    case Try(Custom(id), size) => 4 * (id + 1)
    case Try(_, size) => 1
    case Over(id, size, sizeA) => 4 * id + 3
    case Granted(id, sizeA) => 1
    case ToDefault(sizeA) => 1
    case Idle => 0
    case Aborted => 0
  }

  /** Every call ends: each step of it leaves less to do, since a fallback names an
      allocator created earlier, and another thread's steps do not hold it up. */
  lemma CallEnds(s: Pools, t: int, m: Move, u: int)
    requires Inv(s) && Enabled(s, t, m) && u in s.pc
    ensures u != t ==> Apply(s, t, m).pc[u] == s.pc[u]
    ensures u == t && !m.Start? && !m.Free? ==> Left(Apply(s, t, m).pc[t]) < Left(s.pc[t])
    ensures Left(s.pc[u]) > 0 ==> Enabled(s, u, Charge) || Enabled(s, u, Undo) || Enabled(s, u, Malloc(0))
  {
    assert PcShaped(s.traits, s.pc[t]) && PcShaped(s.traits, s.pc[u]);
  }

  // ---------- what a call charges, and what its block's free takes off ----------

  datatype Label = Label(t: int, m: Move)

  ghost predicate StepAt(run: seq<Pools>, steps: seq<Label>, k: nat) {
    k < |steps| && k + 1 < |run| && Steps(run[k], steps[k].t, steps[k].m, run[k + 1])
  }

  // A run, with the step that leads from each state to the next.
  ghost predicate Labelled(run: seq<Pools>, steps: seq<Label>) {
    && |run| == |steps| + 1 && Initial(run[0])
    && forall k {:trigger StepAt(run, steps, k)} :: 0 <= k < |steps| ==> StepAt(run, steps, k)
  }

  lemma {:induction false} LabelledKeeps(run: seq<Pools>, steps: seq<Label>, k: nat)
    requires Labelled(run, steps) && k < |run|
    ensures Inv(run[k]) && run[k].traits == run[0].traits
  {
    if k == 0 {
      InitialInv(run[0]);
    } else {
      LabelledKeeps(run, steps, k - 1);
      assert StepAt(run, steps, k - 1);
      Keeps(run[k - 1], steps[k - 1].t, steps[k - 1].m);
    }
  }

  ghost function Used(s: Pools, id: nat): int {
    if id < |s.used| then s.used[id] else 0
  }

  // What thread t's own steps, from step i up to step j, have added to the counter of allocator id.
  ghost function Charged(run: seq<Pools>, steps: seq<Label>, t: int, id: nat, i: nat, j: nat): int
    requires i <= j < |run| == |steps| + 1
    decreases j
  {
    if i == j then 0 else
      Charged(run, steps, t, id, i, j - 1) + if steps[j - 1].t == t then Used(run[j], id) - Used(run[j - 1], id) else 0
  }

  ghost predicate Busy(s: Pools, t: int) {
    t in s.pc && !s.pc[t].Idle? && !s.pc[t].Aborted?
  }

  // A call of thread t: step i begins it and step j - 1 ends it.
  ghost predicate IsCall(run: seq<Pools>, steps: seq<Label>, t: int, i: nat, j: nat) {
    && Labelled(run, steps) && i + 1 < j <= |steps|
    && steps[i].t == t && steps[i].m.Start? && steps[j - 1].t == t && !Busy(run[j], t)
    && forall k :: i < k < j ==> Busy(run[k], t)
  }

  // What stays charged to allocator id when a thread at pc makes this step.
  function Remains(pc: Pc, m: Move, id: nat): int {
    if m.Malloc? && pc.Granted? && pc.id == id then pc.sizeA else 0
  }

  lemma OwnStep(s: Pools, t: int, m: Move, id: nat)
    requires Shaped(s) && Enabled(s, t, m) && !m.Free?
    ensures var s' := Apply(s, t, m);
            Used(s', id) - Used(s, id) == PendingOn(s'.pc[t], id) - PendingOn(s.pc[t], id) + Remains(s.pc[t], m, id)
    ensures m.Malloc? ==> !Busy(Apply(s, t, m), t)
  {
    assert PcShaped(s.traits, s.pc[t]);
  }

  // Under way, a call has charged what is pending.
  lemma {:induction false} ChargedSoFar(run: seq<Pools>, steps: seq<Label>, t: int, id: nat, i: nat, k: nat, j: nat)
    requires IsCall(run, steps, t, i, j) && i < k < j
    ensures Charged(run, steps, t, id, i, k) == PendingOn(run[k].pc[t], id)
    decreases k
  {
    var h := k - 1;
    LabelledKeeps(run, steps, h);
    assert StepAt(run, steps, h) && Busy(run[k], t);
    if steps[h].t == t {
      assert h > i ==> Busy(run[h], t);
      OwnStep(run[h], t, steps[h].m, id);
    } else {
      CallEnds(run[h], steps[h].t, steps[h].m, t);
    }
    if h > i { ChargedSoFar(run, steps, t, id, i, h, j); }
  }

  /** A whole call, fallbacks included, leaves on each allocator's counter only
      what its last step keeps there: the size of the block that it returns, if
      that is charged to this allocator, or what a failed allocation leaves
      behind. Where a fallback was taken the charge has been undone. */
  lemma CallNet(run: seq<Pools>, steps: seq<Label>, t: int, id: nat, i: nat, j: nat)
    requires IsCall(run, steps, t, i, j)
    ensures Charged(run, steps, t, id, i, j) == Remains(run[j - 1].pc[t], steps[j - 1].m, id)
    ensures steps[j - 1].m.Malloc? && steps[j - 1].m.p != 0 ==>
      steps[j - 1].m.p in run[j].blocks && var b := run[j].blocks[steps[j - 1].m.p];
      && Exists(run[j].traits, b.al)
      && Charged(run, steps, t, id, i, j) == if b.al == Custom(id) && Limited(run[j].traits, b.al) then b.size else 0
    ensures !steps[j - 1].m.Malloc? ==> Charged(run, steps, t, id, i, j) == 0
  {
    var h := j - 1;
    LabelledKeeps(run, steps, h);
    assert StepAt(run, steps, h) && Busy(run[h], t);
    ChargedSoFar(run, steps, t, id, i, h, j);
    OwnStep(run[h], t, steps[h].m, id);
    assert PcShaped(run[h].traits, run[h].pc[t]);
  }

  // A block keeps its size and its allocator until it is freed.
  lemma {:induction false} BlockStays(run: seq<Pools>, steps: seq<Label>, p: int, j: nat, k: nat)
    requires Labelled(run, steps) && j <= k < |run| && p in run[j].blocks
    requires forall h :: j <= h < k ==> steps[h].m != Free(p)
    ensures p in run[k].blocks && run[k].blocks[p] == run[j].blocks[p]
    decreases k
  {
    if j < k {
      BlockStays(run, steps, p, j, k - 1);
      assert StepAt(run, steps, k - 1);
    }
  }

  /** A block is uncharged from the allocator that was charged for it: whoever frees
      it, and whatever happened in between, every allocator's counter falls by just
      what the call that returned the block had added to it. */
  lemma OwnAccount(run: seq<Pools>, steps: seq<Label>, t: int, id: nat, i: nat, j: nat, p: int, k: nat)
    requires IsCall(run, steps, t, i, j) && steps[j - 1].m == Malloc(p) && p != 0
    requires j <= k < |steps| && steps[k].m == Free(p) && forall h :: j <= h < k ==> steps[h].m != Free(p)
    ensures Used(run[k], id) - Used(run[k + 1], id) == Charged(run, steps, t, id, i, j)
  {
    CallNet(run, steps, t, id, i, j);
    BlockStays(run, steps, p, j, k);
    LabelledKeeps(run, steps, j);
    LabelledKeeps(run, steps, k);
    assert StepAt(run, steps, k);
  }
}
