/** What an allocation from a limited pool comes to: it is granted exactly when the
    pool has room for it, and else ends as its allocator's fallback says. */
module PoolGrants {
  import opened PoolLimit
  import opened Sums

  // The bytes that a request takes: what is asked for, the descriptor, room to align.
  function Need(traits: seq<Traits>, al: Handle, size: nat): nat
    requires Exists(traits, al)
  {
    size + 32 + if al.Custom? && traits[al.id].alignment > 0 then traits[al.id].alignment else 8
  }

  // What is charged to allocator id: its live blocks, calls on their way, and what failed calls have left.
  ghost function Taken(s: Pools, id: nat): int {
    Live(s, id) + Total(PendingOf(s.pc, id)) + if id < |s.leaked| then s.leaked[id] else 0
  }

  ghost predicate Room(s: Pools, id: nat, need: nat) {
    id < |s.traits| && Taken(s, id) + need <= s.traits[id].poolSize
  }

  /** Whatever other threads are doing: a charge is granted exactly if the bytes of the
      live blocks, of the calls under way and of those that failed leave room for it. */
  lemma GrantedIfRoom(s: Pools, t: int)
    requires Inv(s) && Enabled(s, t, Charge)
    ensures var al, size := s.pc[t].al, s.pc[t].size;
            al.Custom? && al.id < |s.traits|
            && Apply(s, t, Charge).pc[t] ==
               if Room(s, al.id, Need(s.traits, al, size)) then Granted(al.id, Need(s.traits, al, size))
               else Over(al.id, size, Need(s.traits, al, size))
  {
    assert PcShaped(s.traits, s.pc[t]);
    assert Accounted(s, s.pc[t].al.id);
  }

  // ---------- a whole call ----------

  // The next step of thread t.
  function Next(steps: seq<Label>, t: int, k: nat, j: nat): (c: nat)
    requires k < j <= |steps| && steps[j - 1].t == t
    ensures k <= c < j && steps[c].t == t && forall h :: k <= h < c ==> steps[h].t != t
    decreases j - k
  {
    if steps[k].t == t then k else Next(steps, t, k + 1, j)
  }

  // Step c is the internal allocation of `need` bytes, and the end of the call: a block noted for
  // allocator al, or else null, unless al asks for an abort.
  ghost predicate Served(run: seq<Pools>, steps: seq<Label>, t: int, c: nat, j: nat, al: Handle, need: nat)
    requires c < j <= |steps| < |run|
  {
    && c + 1 == j && t in run[j].pc && steps[c].m.Malloc?
    && var p := steps[c].m.p;
       if p != 0 then run[j].pc[t] == Idle && p !in run[c].blocks && run[j].blocks == run[c].blocks[p := Block(need, al)]
       else
         && run[j].blocks == run[c].blocks
         && run[j].pc[t] == if al.Custom? && al.id < |run[c].traits| && run[c].traits[al.id].fb == Abort then Aborted else Idle
  }

  // The call ends with step c and without a block.
  ghost predicate Empty(run: seq<Pools>, t: int, c: nat, j: nat, pc: Pc)
    requires c < j < |run|
  {
    c + 1 == j && t in run[j].pc && run[j].pc[t] == pc && run[j].blocks == run[c].blocks
  }

  // The course of a call that turns to allocator al at state k and is over at state j.
  ghost predicate Goes(run: seq<Pools>, steps: seq<Label>, t: int, k: nat, j: nat, al: Handle, size: nat)
    requires k < j <= |steps| < |run| && steps[j - 1].t == t
    decreases j - k
  {
    var c := Next(steps, t, k, j);
    && Exists(run[c].traits, al)
    && var need := Need(run[c].traits, al, size);
       if !Limited(run[c].traits, al) then Served(run, steps, t, c, j, al, need) && (al == HighBandwidth ==> steps[c].m.p == 0)
       else
         && steps[c].m == Charge && c + 1 < j
         && var d := Next(steps, t, c + 1, j);
            if Room(run[c], al.id, need) then Served(run, steps, t, d, j, al, need)
            else
              && steps[d].m == Undo
              && match run[c].traits[al.id].fb
                 case NullResult => Empty(run, t, d, j, Idle)
                 case Abort => Empty(run, t, d, j, Aborted)
                 case DefaultMem => d + 1 < j && Served(run, steps, t, Next(steps, t, d + 1, j), j, Default, need)
                 case Allocator(data) => d + 1 < j && Goes(run, steps, t, d + 1, j, data, size)
  }

  // Thread t is in a call from state k on, up to its step j - 1, which ends it.
  ghost predicate UnderWay(run: seq<Pools>, steps: seq<Label>, t: int, k: nat, j: nat) {
    && Labelled(run, steps) && k < j <= |steps| && steps[j - 1].t == t && !Busy(run[j], t)
    && forall h :: k <= h < j ==> Busy(run[h], t)
  }

  // Until its own next step a thread stays where it is.
  lemma {:induction false} Waits(run: seq<Pools>, steps: seq<Label>, t: int, k: nat, j: nat)
    requires UnderWay(run, steps, t, k, j)
    ensures var c := Next(steps, t, k, j);
            && Inv(run[c]) && run[c].traits == run[k].traits == run[0].traits && t in run[c].pc && t in run[k].pc
            && run[c].pc[t] == run[k].pc[t] && StepAt(run, steps, c) && (c + 1 < j <==> Busy(run[c + 1], t))
    decreases j - k
  {
    LabelledKeeps(run, steps, k);
    assert StepAt(run, steps, k) && Busy(run[k], t);
    if steps[k].t != t {
      CallEnds(run[k], steps[k].t, steps[k].m, t);
      Waits(run, steps, t, k + 1, j);
    }
  }

  lemma ServedSo(run: seq<Pools>, steps: seq<Label>, t: int, k: nat, j: nat, al: Handle, need: nat)
    requires UnderWay(run, steps, t, k, j) && t in run[k].pc && Exists(run[k].traits, al)
    requires
      || (run[k].pc[t].Granted? && al == Custom(run[k].pc[t].id) && need == run[k].pc[t].sizeA)
      || (run[k].pc[t].ToDefault? && al == Default && need == run[k].pc[t].sizeA)
      || (run[k].pc[t].Try? && al == run[k].pc[t].al && !Limited(run[k].traits, al) && need == Need(run[k].traits, al, run[k].pc[t].size))
    ensures Served(run, steps, t, Next(steps, t, k, j), j, al, need)
    ensures run[k].pc[t].Try? && al == HighBandwidth ==> steps[Next(steps, t, k, j)].m.p == 0
  {
    Waits(run, steps, t, k, j);
  }

  lemma {:induction false} CallGoes(run: seq<Pools>, steps: seq<Label>, t: int, k: nat, j: nat, al: Handle, size: nat)
    requires UnderWay(run, steps, t, k, j) && t in run[k].pc && run[k].pc[t] == Try(al, size)
    ensures Goes(run, steps, t, k, j, al, size)
    decreases j - k
  {
    Waits(run, steps, t, k, j);
    var c := Next(steps, t, k, j);
    assert PcShaped(run[c].traits, run[c].pc[t]);
    if !Limited(run[c].traits, al) {
      ServedSo(run, steps, t, k, j, al, Need(run[c].traits, al, size));
    } else {
      GrantedIfRoom(run[c], t);
      Charged(run, steps, t, c, j, al, size);
    }
  }

  lemma {:induction false} Charged(run: seq<Pools>, steps: seq<Label>, t: int, c: nat, j: nat, al: Handle, size: nat)
    requires UnderWay(run, steps, t, c, j) && steps[c] == Label(t, Charge) && Inv(run[c]) && Enabled(run[c], t, Charge)
    requires run[c].pc[t] == Try(al, size)
    ensures Goes(run, steps, t, c, j, al, size)
    decreases j - c, 0
  {
    GrantedIfRoom(run[c], t);
    assert StepAt(run, steps, c) && Busy(run[c + 1], t);
    Waits(run, steps, t, c + 1, j);
    var d, need := Next(steps, t, c + 1, j), Need(run[c].traits, al, size);
    if Room(run[c], al.id, need) {
      ServedSo(run, steps, t, c + 1, j, al, need);
    } else {
      match run[c].traits[al.id].fb {
        case DefaultMem => ServedSo(run, steps, t, d + 1, j, Default, need);
        case Allocator(data) => CallGoes(run, steps, t, d + 1, j, data, size);
        case _ =>
      }
    }
  }

  /** Every call, among any others: an allocator with room, or without a limit, serves it; one
      without room passes it on to its fallback, which is a block of the default memory,
      null, an abort, or the same call with the allocator named. */
  lemma WholeCall(run: seq<Pools>, steps: seq<Label>, t: int, i: nat, j: nat)
    requires IsCall(run, steps, t, i, j)
    ensures i + 1 < j && Goes(run, steps, t, i + 1, j, steps[i].m.al, steps[i].m.size)
  {
    assert StepAt(run, steps, i) && Busy(run[i + 1], t);
    CallGoes(run, steps, t, i + 1, j, steps[i].m.al, steps[i].m.size);
  }

  // The last step of a call, if it returns block p.
  predicate Gives(steps: seq<Label>, j: nat, p: int) {
    0 < j <= |steps| && steps[j - 1].m == Malloc(p) && p != 0
  }

  lemma ServedBlock(run: seq<Pools>, steps: seq<Label>, t: int, c: nat, j: nat, al: Handle, need: nat, p: int)
    requires c < j <= |steps| < |run| && Served(run, steps, t, c, j, al, need) && Gives(steps, j, p)
    ensures p in run[j].blocks && run[j].blocks[p] == Block(need, al)
  {
  }

  // The allocator that the block is noted for was created before al.
  predicate Before(noted: Handle, al: Handle) {
    noted == Default || (noted.Custom? && al.Custom? && noted.id < al.id)
  }

  // Who serves a call that has turned to al: al itself, or the default memory, or an allocator
  // created earlier if al has no room.
  lemma {:induction false} WhoServes(run: seq<Pools>, steps: seq<Label>, t: int, k: nat, j: nat, al: Handle, size: nat, p: int)
    requires UnderWay(run, steps, t, k, j) && Goes(run, steps, t, k, j, al, size) && Gives(steps, j, p)
    ensures p in run[j].blocks && Exists(run[k].traits, al)
    ensures var need := Need(run[k].traits, al, size);
            if !Limited(run[k].traits, al) || Room(run[Next(steps, t, k, j)], al.id, need) then run[j].blocks[p] == Block(need, al)
            else Before(run[j].blocks[p].al, al)
    decreases j - k, 1
  {
    Waits(run, steps, t, k, j);
    var c, need := Next(steps, t, k, j), Need(run[k].traits, al, size);
    if !Limited(run[k].traits, al) {
      ServedBlock(run, steps, t, c, j, al, need, p);
    } else {
      var d := Next(steps, t, c + 1, j);
      if Room(run[c], al.id, need) { ServedBlock(run, steps, t, d, j, al, need, p); } else { PassedOn(run, steps, t, k, j, al, size, p); }
    }
  }

  lemma {:induction false} PassedOn(run: seq<Pools>, steps: seq<Label>, t: int, k: nat, j: nat, al: Handle, size: nat, p: int)
    requires UnderWay(run, steps, t, k, j) && Goes(run, steps, t, k, j, al, size) && Gives(steps, j, p)
    requires Exists(run[k].traits, al) && Limited(run[k].traits, al)
    requires !Room(run[Next(steps, t, k, j)], al.id, Need(run[k].traits, al, size))
    ensures p in run[j].blocks && Before(run[j].blocks[p].al, al)
    decreases j - k, 0
  {
    Waits(run, steps, t, k, j);
    var c := Next(steps, t, k, j);
    Waits(run, steps, t, c + 1, j);
    var d := Next(steps, t, c + 1, j);
    match run[c].traits[al.id].fb {
      case Allocator(data) => WhoServes(run, steps, t, d + 1, j, data, size, p);
      case _ =>
    }
  }

  /** Among any other calls: the block that a call returns is one of the allocator it named,
      of the bytes it needs, exactly if there was room at its charge. */
  lemma FirstChoice(run: seq<Pools>, steps: seq<Label>, t: int, i: nat, j: nat, id: nat, size: nat, p: int)
    requires IsCall(run, steps, t, i, j) && steps[i].m == Start(Custom(id), size) && Gives(steps, j, p)
    requires id < |run[i].traits| && run[i].traits[id].poolSize > 0
    ensures i + 1 < j && p in run[j].blocks
    ensures var need := Need(run[i].traits, Custom(id), size);
            && (run[j].blocks[p].al == Custom(id) <==> Room(run[Next(steps, t, i + 1, j)], id, need))
            && (run[j].blocks[p].al == Custom(id) ==> run[j].blocks[p].size == need)
  {
    WholeCall(run, steps, t, i, j);
    assert StepAt(run, steps, i);
    WhoServes(run, steps, t, i + 1, j, Custom(id), size, p);
  }

  // No other call has charged allocator id, and none that failed has left anything charged to it.
  ghost predicate Quiet(s: Pools, id: nat) {
    id < |s.leaked| && s.leaked[id] == 0 && forall u :: u in s.pc ==> PendingOn(s.pc[u], id) == 0
  }

  lemma QuietTaken(s: Pools, id: nat)
    requires Quiet(s, id)
    ensures Taken(s, id) == Live(s, id)
  {
    AllZero(PendingOf(s.pc, id));
  }

  /** A thread that is alone gets its block from the allocator it names exactly if the live
      blocks of this allocator leave room for what is asked, the descriptor and the alignment. */
  lemma AloneIfFits(run: seq<Pools>, steps: seq<Label>, t: int, i: nat, j: nat, id: nat, size: nat, p: int)
    requires IsCall(run, steps, t, i, j) && steps[i].m == Start(Custom(id), size) && Gives(steps, j, p)
    requires id < |run[i].traits| && run[i].traits[id].poolSize > 0
    requires Quiet(run[i], id) && forall h :: i <= h < j ==> steps[h].t == t
    ensures p in run[j].blocks
    ensures run[j].blocks[p].al == Custom(id) <==>
            Live(run[i], id) + Need(run[i].traits, Custom(id), size) <= run[i].traits[id].poolSize
  {
    FirstChoice(run, steps, t, i, j, id, size, p);
    assert StepAt(run, steps, i);
    assert Quiet(run[i + 1], id);
    QuietTaken(run[i + 1], id);
  }

  /** Whatever happens at the same time: with room at its charge a call goes on to the internal
      allocation, and if that succeeds returns a block of the allocator it names. */
  lemma RoomIsEnough(run: seq<Pools>, steps: seq<Label>, t: int, i: nat, j: nat, id: nat, size: nat)
    requires IsCall(run, steps, t, i, j) && steps[i].m == Start(Custom(id), size)
    requires id < |run[i].traits| && run[i].traits[id].poolSize > 0
    requires i + 1 < j && Room(run[Next(steps, t, i + 1, j)], id, Need(run[i].traits, Custom(id), size))
    ensures steps[j - 1].m.Malloc?
    ensures var p := steps[j - 1].m.p;
            p != 0 ==> p in run[j].blocks && run[j].blocks[p] == Block(Need(run[i].traits, Custom(id), size), Custom(id))
  {
    WholeCall(run, steps, t, i, j);
    assert StepAt(run, steps, i);
    Waits(run, steps, t, i + 1, j);
  }
}
