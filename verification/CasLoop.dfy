/** The compare-and-store loops of the atomic updates: any number of threads apply
    updates to one shared variable, each read and each compare-and-store being one
    step of the memory. */
module CasLoop {

  // An update: the operator, and for the min and max macros the test that says
  // that nothing needs to be done; those also make the test once before the loop.
  datatype Macro<!T, !A> = Macro(op: (T, A) -> T, stop: (T, A) -> bool, guarded: bool)

  // What a caller asked for. With the flag set it gets the new value back, otherwise the old one.
  datatype Call<A> = Call(thread: nat, rhs: A, flag: bool)

  datatype Phase<T> =
    | Idle
    | Test(id: nat)                     // before the test that guards the loop
    | Load(id: nat)                     // before the read of *lhs
    | Aim(id: nat, seen: T, at: nat)     // *lhs read when `at` updates had been made, before the compare-and-store

  datatype Entry<A> = Entry(id: nat, rhs: A)

  // log: the updates in the order in which they took effect.  returned: what each gave its caller.
  datatype State<T, A> =
    State(cell: T, phases: seq<Phase<T>>, calls: seq<Call<A>>, log: seq<Entry<A>>, returned: seq<T>)

  datatype Move<A> = Begin(rhs: A, flag: bool) | Look | Read | Cas

  ghost predicate Enabled<T, A>(s: State<T, A>, t: nat, mv: Move<A>) {
    && t < |s.phases|
    && match mv
       case Begin(rhs, flag) => s.phases[t].Idle?
       case Look => s.phases[t].Test? && s.phases[t].id < |s.calls|
       case Read => s.phases[t].Load? && s.phases[t].id < |s.calls|
       case Cas => s.phases[t].Aim? && s.phases[t].id < |s.calls|
  }

  // Thread t's update takes effect: it found `seen` and leaves `next`.
  ghost function Finish<T, A>(s: State<T, A>, t: nat, id: nat, seen: T, next: T): State<T, A>
    requires t < |s.phases| && id < |s.calls|
  {
    State(next, s.phases[t := Idle], s.calls, s.log + [Entry(id, s.calls[id].rhs)],
          s.returned + [if s.calls[id].flag then next else seen])
  }

  ghost function Apply<T, A>(m: Macro<T, A>, s: State<T, A>, t: nat, mv: Move<A>): State<T, A>
    requires Enabled(s, t, mv)
  {
    match mv
    case Begin(rhs, flag) =>
      var id := |s.calls|;
      s.(calls := s.calls + [Call(t, rhs, flag)], phases := s.phases[t := if m.guarded then Test(id) else Load(id)])
    case Look =>
      var id := s.phases[t].id;
      if m.stop(s.cell, s.calls[id].rhs) then Finish(s, t, id, s.cell, s.cell)
      else s.(phases := s.phases[t := Load(id)])
    case Read =>
      var id := s.phases[t].id;
      if m.guarded && m.stop(s.cell, s.calls[id].rhs) then Finish(s, t, id, s.cell, s.cell)
      else s.(phases := s.phases[t := Aim(id, s.cell, |s.log|)])
    case Cas =>
      var Aim(id, seen, at) := s.phases[t];
      if s.cell == seen then Finish(s, t, id, seen, m.op(seen, s.calls[id].rhs))
      else s.(phases := s.phases[t := Load(id)])
  }

  ghost predicate Initial<T, A>(s: State<T, A>) {
    s.calls == [] && s.log == [] && s.returned == [] && forall t :: 0 <= t < |s.phases| ==> s.phases[t].Idle?
  }

  ghost predicate Steps<T, A>(m: Macro<T, A>, s: State<T, A>, t: nat, mv: Move<A>, s': State<T, A>) {
    Enabled(s, t, mv) && s' == Apply(m, s, t, mv)
  }

  ghost predicate OneStep<T(!new), A(!new)>(m: Macro<T, A>, s: State<T, A>, s': State<T, A>) {
    exists t, mv :: Steps(m, s, t, mv, s')
  }

  ghost predicate IsRun<T(!new), A(!new)>(m: Macro<T, A>, run: seq<State<T, A>>) {
    run != [] && Initial(run[0]) && forall k :: 0 < k < |run| ==> OneStep(m, run[k - 1], run[k])
  }

  // Where the test says so there is nothing to do.
  ghost predicate Sound<T(!new), A(!new)>(m: Macro<T, A>) {
    forall x, a :: m.guarded && m.stop(x, a) ==> m.op(x, a) == x
  }

  // The updates made one after the other.
  ghost function Fold<T, A>(m: Macro<T, A>, init: T, log: seq<Entry<A>>): T {
    if log == [] then init else m.op(Fold(m, init, log[..|log| - 1]), log[|log| - 1].rhs)
  }

  ghost predicate InLog<A>(log: seq<Entry<A>>, id: nat) {
    exists k :: 0 <= k < |log| && log[k].id == id
  }

  ghost predicate PhaseFits<T, A>(m: Macro<T, A>, init: T, s: State<T, A>, t: nat)
    requires t < |s.phases|
  {
    var p := s.phases[t];
    p.Idle? || (
      && p.id < |s.calls| && s.calls[p.id].thread == t && !InLog(s.log, p.id)
      && (p.Aim? ==> p.at <= |s.log| && p.seen == Fold(m, init, s.log[..p.at])))
  }

  // The k-th update to take effect: whose it is, and what its caller got.
  ghost predicate EntryFits<T, A>(m: Macro<T, A>, init: T, s: State<T, A>, k: nat)
    requires k < |s.log| == |s.returned|
  {
    var e := s.log[k];
    && e.id < |s.calls| && e.rhs == s.calls[e.id].rhs
    && s.returned[k] == Fold(m, init, if s.calls[e.id].flag then s.log[..k + 1] else s.log[..k])
  }

  ghost predicate CallFits<T, A>(s: State<T, A>, id: nat)
    requires id < |s.calls|
  {
    InLog(s.log, id) || (s.calls[id].thread < |s.phases| && var p := s.phases[s.calls[id].thread]; !p.Idle? && p.id == id)
  }

  ghost predicate Once<A>(log: seq<Entry<A>>) {
    forall j, k :: 0 <= j < k < |log| ==> log[j].id != log[k].id
  }

  ghost predicate Inv<T, A>(m: Macro<T, A>, init: T, s: State<T, A>) {
    && s.cell == Fold(m, init, s.log) && |s.returned| == |s.log| && Once(s.log)
    && (forall t :: 0 <= t < |s.phases| ==> PhaseFits(m, init, s, t))
    && (forall k :: 0 <= k < |s.log| ==> EntryFits(m, init, s, k))
    && (forall id :: 0 <= id < |s.calls| ==> CallFits(s, id))
  }

  lemma FoldPush<T, A>(m: Macro<T, A>, init: T, log: seq<Entry<A>>, e: Entry<A>)
    ensures Fold(m, init, log + [e]) == m.op(Fold(m, init, log), e.rhs)
  {
    assert (log + [e])[..|log|] == log;
  }

  lemma KeepsFinish<T, A>(m: Macro<T, A>, init: T, s: State<T, A>, t: nat, seen: T, next: T)
    requires Inv(m, init, s) && t < |s.phases| && !s.phases[t].Idle? && s.phases[t].id < |s.calls|
    requires seen == s.cell && next == m.op(seen, s.calls[s.phases[t].id].rhs)
    ensures Inv(m, init, Finish(s, t, s.phases[t].id, seen, next))
  {
    var id := s.phases[t].id;
    var s' := Finish(s, t, id, seen, next);
    var n, e := |s.log|, Entry(id, s.calls[id].rhs);
    assert PhaseFits(m, init, s, t);
    FoldPush(m, init, s.log, e);
    forall k | 0 <= k < |s'.log| ensures EntryFits(m, init, s', k) {
      assert k < n ==> EntryFits(m, init, s, k) && s'.log[..k] == s.log[..k];
      assert k < n ==> s'.log[..k + 1] == s.log[..k + 1];
      assert k == n ==> s'.log[..k] == s.log && s'.log[..k + 1] == s'.log;
    }
    forall u | 0 <= u < |s'.phases| ensures PhaseFits(m, init, s', u) {
      assert PhaseFits(m, init, s, u);
      if u != t { OthersStay(m, init, s, t, u, s'); }
    }
    forall c | 0 <= c < |s'.calls| ensures CallFits(s', c) {
      assert CallFits(s, c);
      InLogPush(s.log, e, c);
    }
  }

  lemma InLogPush<A>(log: seq<Entry<A>>, e: Entry<A>, id: nat)
    ensures InLog(log + [e], id) <==> InLog(log, id) || id == e.id
  {
    if k :| 0 <= k < |log| && log[k].id == id { assert (log + [e])[k].id == id; }
    assert (log + [e])[|log|] == e;
  }

  lemma OthersStay<T, A>(m: Macro<T, A>, init: T, s: State<T, A>, t: nat, u: nat, s': State<T, A>)
    requires t < |s.phases| && u < |s.phases| && u != t && PhaseFits(m, init, s, t) && PhaseFits(m, init, s, u)
    requires !s.phases[t].Idle? && |s'.phases| == |s.phases| && s'.phases[u] == s.phases[u] && s'.calls == s.calls
    requires s'.log == s.log + [Entry(s.phases[t].id, s.calls[s.phases[t].id].rhs)]
    ensures PhaseFits(m, init, s', u)
  {
    var p := s.phases[u];
    if !p.Idle? {
      InLogPush(s.log, s'.log[|s.log|], p.id);
      if p.Aim? { assert s'.log[..p.at] == s.log[..p.at]; }
    }
  }

  lemma KeepsBegin<T, A>(m: Macro<T, A>, init: T, s: State<T, A>, t: nat, rhs: A, flag: bool)
    requires Inv(m, init, s) && Enabled(s, t, Begin(rhs, flag))
    ensures Inv(m, init, Apply(m, s, t, Begin(rhs, flag)))
  {
    var s' := Apply(m, s, t, Begin(rhs, flag));
    var id := |s.calls|;
    forall k | 0 <= k < |s'.log| ensures EntryFits(m, init, s', k) && s'.log[k].id != id { assert EntryFits(m, init, s, k); }
    forall u | 0 <= u < |s'.phases| ensures PhaseFits(m, init, s', u) { assert PhaseFits(m, init, s, u); }
    forall c | 0 <= c < |s'.calls| ensures CallFits(s', c) { assert c < id ==> CallFits(s, c); }
  }

  // Thread t goes on without an effect on the variable.
  lemma KeepsPhase<T, A>(m: Macro<T, A>, init: T, s: State<T, A>, t: nat, p: Phase<T>)
    requires Inv(m, init, s) && t < |s.phases| && !s.phases[t].Idle? && !p.Idle? && p.id == s.phases[t].id
    requires p.Aim? ==> p.seen == s.cell && p.at == |s.log|
    ensures Inv(m, init, s.(phases := s.phases[t := p]))
  {
    var s' := s.(phases := s.phases[t := p]);
    assert PhaseFits(m, init, s, t) && s.log[..|s.log|] == s.log;
    forall k | 0 <= k < |s'.log| ensures EntryFits(m, init, s', k) { assert EntryFits(m, init, s, k); }
    forall u | 0 <= u < |s'.phases| ensures PhaseFits(m, init, s', u) { assert PhaseFits(m, init, s, u); }
    forall c | 0 <= c < |s'.calls| ensures CallFits(s', c) { assert CallFits(s, c); }
  }

  // Every step keeps the books.
  lemma Keeps<T(!new), A(!new)>(m: Macro<T, A>, init: T, s: State<T, A>, t: nat, mv: Move<A>)
    requires Sound(m) && Inv(m, init, s) && Enabled(s, t, mv) && (mv.Look? ==> m.guarded)
    ensures Inv(m, init, Apply(m, s, t, mv))
  {
    var p := s.phases[t];
    match mv
    case Begin(rhs, flag) => KeepsBegin(m, init, s, t, rhs, flag);
    case Look =>
      if m.stop(s.cell, s.calls[p.id].rhs) { KeepsFinish(m, init, s, t, s.cell, s.cell); }
      else { KeepsPhase(m, init, s, t, Load(p.id)); }
    case Read =>
      if m.guarded && m.stop(s.cell, s.calls[p.id].rhs) { KeepsFinish(m, init, s, t, s.cell, s.cell); }
      else { KeepsPhase(m, init, s, t, Aim(p.id, s.cell, |s.log|)); }
    case Cas =>
      if s.cell == p.seen { KeepsFinish(m, init, s, t, p.seen, m.op(p.seen, s.calls[p.id].rhs)); }
      else { KeepsPhase(m, init, s, t, Load(p.id)); }
  }

  // Only the min and max macros test before they load.
  ghost predicate TestsFit<T, A>(m: Macro<T, A>, s: State<T, A>) {
    forall t :: 0 <= t < |s.phases| && s.phases[t].Test? ==> m.guarded
  }

  lemma {:induction false} RunsKeep<T(!new), A(!new)>(m: Macro<T, A>, run: seq<State<T, A>>, k: nat)
    requires Sound(m) && IsRun(m, run) && k < |run|
    ensures Inv(m, run[0].cell, run[k]) && TestsFit(m, run[k])
  {
    if k > 0 {
      RunsKeep(m, run, k - 1);
      assert OneStep(m, run[k - 1], run[k]);
      var t, mv :| Steps(m, run[k - 1], t, mv, run[k]);
      Keeps(m, run[0].cell, run[k - 1], t, mv);
    }
  }

  // ---------- what the callers can rely on ----------

  ghost predicate Quiet<T, A>(s: State<T, A>) {
    forall t :: 0 <= t < |s.phases| ==> s.phases[t].Idle?
  }

  /** In every reachable state the variable is the fold of the operator over the
      operands in the order of the updates, no call is in that order twice, and
      each caller whose update was made has the value just before it, or just
      after it if it asked for that. */
  lemma Linearised<T(!new), A(!new)>(m: Macro<T, A>, run: seq<State<T, A>>, k: nat)
    requires Sound(m) && IsRun(m, run) && k < |run|
    ensures run[k].cell == Fold(m, run[0].cell, run[k].log) && Once(run[k].log) && |run[k].returned| == |run[k].log|
    ensures forall i :: 0 <= i < |run[k].log| ==> EntryFits(m, run[0].cell, run[k], i)
  {
    RunsKeep(m, run, k);
  }

  /** When no call is under way, every call has made its update, once. */
  lemma EachOnce<T(!new), A(!new)>(m: Macro<T, A>, run: seq<State<T, A>>, k: nat, id: nat)
    requires Sound(m) && IsRun(m, run) && k < |run| && Quiet(run[k])
    ensures id < |run[k].calls| <==> InLog(run[k].log, id)
  {
    RunsKeep(m, run, k);
    var s := run[k];
    if id < |s.calls| { assert CallFits(s, id); }
    if i :| 0 <= i < |s.log| && s.log[i].id == id { assert EntryFits(m, run[0].cell, s, i); }
  }

  /** The order is never changed: what has taken effect before a call begins comes before it. */
  lemma {:induction false} OrderIsFinal<T(!new), A(!new)>(m: Macro<T, A>, run: seq<State<T, A>>, j: nat, k: nat)
    requires IsRun(m, run) && j <= k < |run|
    ensures run[j].log <= run[k].log && run[j].calls <= run[k].calls && run[j].returned <= run[k].returned
  {
    if j < k {
      OrderIsFinal(m, run, j, k - 1);
      assert OneStep(m, run[k - 1], run[k]);
      OrderGrows(m, run[k - 1], run[k]);
    }
  }

  lemma OrderGrows<T(!new), A(!new)>(m: Macro<T, A>, s: State<T, A>, s': State<T, A>)
    requires OneStep(m, s, s')
    ensures s.log <= s'.log && s.calls <= s'.calls && s.returned <= s'.returned
  {
    var t, mv :| Steps(m, s, t, mv, s');
  }

  /** A compare-and-store fails only if another update has been made since the
      read: whoever has to go round the loop again, somebody got through. */
  lemma FailureMeansProgress<T(!new), A(!new)>(m: Macro<T, A>, run: seq<State<T, A>>, k: nat, t: nat)
    requires Sound(m) && IsRun(m, run) && k < |run| && Enabled(run[k], t, Cas)
    ensures Apply(m, run[k], t, Cas).phases[t].Load? ==> run[k].phases[t].at < |run[k].log|
  {
    RunsKeep(m, run, k);
    var s := run[k];
    assert PhaseFits(m, run[0].cell, s, t);
    assert s.log[..|s.log|] == s.log;
  }

  // The only step that a thread in the middle of a call can make.
  function Own<T, A>(p: Phase<T>): Move<A>
    requires !p.Idle?
  {
    match p
    case Test(id) => Look
    case Load(id) => Read
    case Aim(id, seen, at) => Cas
  }

  // Up to n steps of thread t alone, until its call is over.
  ghost function Alone<T, A>(m: Macro<T, A>, s: State<T, A>, t: nat, n: nat): State<T, A>
    requires t < |s.phases| && (!s.phases[t].Idle? ==> s.phases[t].id < |s.calls|)
    decreases n
  {
    if n == 0 || s.phases[t].Idle? then s else Alone(m, Apply(m, s, t, Own(s.phases[t])), t, n - 1)
  }

  /** Nobody waits for another: wherever a thread stands in a call, three steps of its own, if
      no other thread moves meanwhile, make its update and end the call. */
  lemma EndsAlone<T(!new), A(!new)>(m: Macro<T, A>, init: T, s: State<T, A>, t: nat)
    requires Sound(m) && Inv(m, init, s) && t < |s.phases| && !s.phases[t].Idle? && (s.phases[t].Test? ==> m.guarded)
    ensures s.phases[t].id < |s.calls|
    ensures var id := s.phases[t].id;
            var rhs, s' := s.calls[id].rhs, Alone(m, s, t, 3);
            && s'.phases == s.phases[t := Idle] && s'.cell == m.op(s.cell, rhs) && s'.calls == s.calls
            && s'.log == s.log + [Entry(id, rhs)] && s'.returned == s.returned + [if s.calls[id].flag then s'.cell else s.cell]
  {
    assert PhaseFits(m, init, s, t);
    var s1 := Apply(m, s, t, Own(s.phases[t]));
    if !s1.phases[t].Idle? {
      var s2 := Apply(m, s1, t, Own(s1.phases[t]));
      if !s2.phases[t].Idle? {
        var s3 := Apply(m, s2, t, Own(s2.phases[t]));
        assert Alone(m, s, t, 3) == Alone(m, s1, t, 2) == Alone(m, s2, t, 1) == Alone(m, s3, t, 0);
      } else {
        assert Alone(m, s, t, 3) == Alone(m, s1, t, 2) == Alone(m, s2, t, 1);
      }
    } else {
      assert Alone(m, s, t, 3) == Alone(m, s1, t, 2);
    }
  }

  // ---------- operators for which the order does not matter ----------

  ghost predicate Commutes<T(!new), A(!new)>(m: Macro<T, A>) {
    forall x, a, b :: m.op(m.op(x, a), b) == m.op(m.op(x, b), a)
  }

  // The calls as they were made, one after the other.
  ghost function InOrder<A>(calls: seq<Call<A>>): (r: seq<Entry<A>>)
    ensures |r| == |calls| && forall i :: 0 <= i < |r| ==> r[i] == Entry(i, calls[i].rhs)
  {
    seq(|calls|, i requires 0 <= i < |calls| => Entry(i, calls[i].rhs))
  }

  // An update can as well come last.
  lemma {:induction false} FoldLast<T(!new), A(!new)>(m: Macro<T, A>, init: T, log: seq<Entry<A>>, k: nat)
    requires Commutes(m) && k < |log|
    ensures Fold(m, init, log) == m.op(Fold(m, init, log[..k] + log[k + 1..]), log[k].rhs)
    decreases |log|
  {
    var n := |log| - 1;
    if k == n {
      assert log[..k] + log[k + 1..] == log[..n];
    } else {
      var most := log[..n];
      FoldLast(m, init, most, k);
      assert log[..k] + log[k + 1..] == most[..k] + most[k + 1..] + [log[n]];
      FoldPush(m, init, most[..k] + most[k + 1..], log[n]);
    }
  }

  // The log holds each of the first |calls| ids once, with its operand.
  ghost predicate Permutes<A>(log: seq<Entry<A>>, calls: seq<Call<A>>) {
    && Once(log)
    && (forall k :: 0 <= k < |log| ==> log[k].id < |calls| && log[k].rhs == calls[log[k].id].rhs)
    && (forall id :: 0 <= id < |calls| ==> InLog(log, id))
  }

  lemma {:induction false} FoldPermuted<T(!new), A(!new)>(m: Macro<T, A>, init: T, log: seq<Entry<A>>, calls: seq<Call<A>>)
    requires Commutes(m) && Permutes(log, calls)
    ensures Fold(m, init, log) == Fold(m, init, InOrder(calls)) && |log| == |calls|
    decreases |calls|
  {
    if calls == [] {
      assert log == [];
    } else {
      var n := |calls| - 1;
      assert InLog(log, n);
      var k :| 0 <= k < |log| && log[k].id == n;
      var rest := log[..k] + log[k + 1..];
      FoldLast(m, init, log, k);
      WithoutLast(log, calls, k);
      FoldPermuted(m, init, rest, calls[..n]);
      LastInOrder(m, init, calls);
    }
  }

  lemma LastInOrder<T, A>(m: Macro<T, A>, init: T, calls: seq<Call<A>>)
    requires calls != []
    ensures var n := |calls| - 1; Fold(m, init, InOrder(calls)) == m.op(Fold(m, init, InOrder(calls[..n])), calls[n].rhs)
  {
    var n := |calls| - 1;
    assert InOrder(calls) == InOrder(calls[..n]) + [Entry(n, calls[n].rhs)];
    FoldPush(m, init, InOrder(calls[..n]), Entry(n, calls[n].rhs));
  }

  lemma WithoutLast<A>(log: seq<Entry<A>>, calls: seq<Call<A>>, k: nat)
    requires Permutes(log, calls) && calls != [] && k < |log| && log[k].id == |calls| - 1
    ensures Permutes(log[..k] + log[k + 1..], calls[..|calls| - 1])
  {
    var n, rest := |calls| - 1, log[..k] + log[k + 1..];
    forall id | 0 <= id < n ensures InLog(rest, id) {
      assert InLog(log, id);
      var i :| 0 <= i < |log| && log[i].id == id;
      var i' := if i < k then i else i - 1;
      assert rest[i'] == log[i];
    }
  }

  /** For such operators the final value does not depend on the interleaving: it is
      that of the calls made one after the other, each once. */
  lemma FinalValue<T(!new), A(!new)>(m: Macro<T, A>, run: seq<State<T, A>>, k: nat)
    requires Sound(m) && IsRun(m, run) && k < |run| && Quiet(run[k]) && Commutes(m)
    ensures run[k].cell == Fold(m, run[0].cell, InOrder(run[k].calls)) && |run[k].log| == |run[k].calls|
  {
    RunsKeep(m, run, k);
    var s := run[k];
    forall i | 0 <= i < |s.log| ensures s.log[i].id < |s.calls| && s.log[i].rhs == s.calls[s.log[i].id].rhs {
      assert EntryFits(m, run[0].cell, s, i);
    }
    forall id | 0 <= id < |s.calls| ensures InLog(s.log, id) { EachOnce(m, run, k, id); }
    FoldPermuted(m, run[0].cell, s.log, s.calls);
  }

  // ---------- min and max ----------

  ghost predicate TotalOrder<T(!new)>(better: (T, T) -> bool) {
    && (forall x, y :: better(x, y) ==> !better(y, x))
    && (forall x, y, z :: better(x, y) && better(y, z) ==> better(x, z))
    && (forall x, y :: x == y || better(x, y) || better(y, x))
  }

  // The macro for `*lhs OP rhs`: the operand takes the variable's place if the test holds.
  ghost function Extremum<T>(better: (T, T) -> bool): Macro<T, T> {
    Macro((x, a) => if better(x, a) then a else x, (x, a) => !better(x, a), true)
  }

  lemma {:induction false} FoldExtremum<T(!new)>(better: (T, T) -> bool, init: T, log: seq<Entry<T>>)
    requires TotalOrder(better)
    ensures var r := Fold(Extremum(better), init, log);
            && (r == init || exists k :: 0 <= k < |log| && r == log[k].rhs)
            && !better(r, init) && forall k :: 0 <= k < |log| ==> !better(r, log[k].rhs)
  {
    if log != [] {
      var n := |log| - 1;
      FoldExtremum(better, init, log[..n]);
      assert forall k :: 0 <= k < n ==> log[..n][k] == log[k];
    }
  }

  /** Concurrent max (min) updates end at the largest (smallest) of the initial
      value and all operands. */
  lemma EndsAtExtremum<T(!new)>(better: (T, T) -> bool, run: seq<State<T, T>>, k: nat)
    requires TotalOrder(better) && IsRun(Extremum(better), run) && k < |run| && Quiet(run[k])
    ensures run[k].cell == run[0].cell || exists id :: 0 <= id < |run[k].calls| && run[k].cell == run[k].calls[id].rhs
    ensures !better(run[k].cell, run[0].cell)
    ensures forall id :: 0 <= id < |run[k].calls| ==> !better(run[k].cell, run[k].calls[id].rhs)
  {
    var m, s := Extremum(better), run[k];
    RunsKeep(m, run, k);
    FoldExtremum(better, run[0].cell, s.log);
    forall id | 0 <= id < |s.calls| ensures !better(s.cell, s.calls[id].rhs) {
      EachOnce(m, run, k, id);
      var i :| 0 <= i < |s.log| && s.log[i].id == id;
      assert EntryFits(m, run[0].cell, s, i);
    }
    if i :| 0 <= i < |s.log| && s.cell == s.log[i].rhs { assert EntryFits(m, run[0].cell, s, i); }
  }
}
