/** Balanced placement on a machine whose cores all have the same number of
    processors: the threads are cut into contiguous ranges, one to a core. */
module UniformPlacement {
  import opened Intervals

  // The place of a thread: its core and the hardware context within the core.
  datatype Spot = Spot(core: int, context: int)

  // nthreads threads on ncores cores with perCore contexts each.
  datatype Team = Team(nthreads: nat, ncores: nat, perCore: nat) {
    predicate Valid() {
      ncores > 0 && perCore > 0
    }

    function Chunk(): nat requires Valid() { nthreads / ncores }

    function BigCores(): nat requires Valid() { nthreads % ncores }
  }

  // Processors per core and number of cores, as the source derives them: with several
  // packages and one processor to a core, packages take the part of cores.
  function MakeTeam(nthreads: nat, avail: nat, cores: nat, packages: nat): (t: Team)
    requires cores > 0
  {
    if packages > 1 && avail / cores <= 1 then Team(nthreads, packages, avail / packages)
    else Team(nthreads, cores, avail / cores)
  }

  // The core and the context of thread tid.
  function Place(t: Team, tid: nat): Spot
    requires t.Valid() && tid < t.nthreads
  {
    NoZeroChunk(t, tid);
    var chunk, big := t.Chunk(), t.BigCores();
    if tid < (chunk + 1) * big then
      Spot(tid / (chunk + 1), tid % (chunk + 1) % t.perCore)
    else
      Spot((tid - big) / chunk, (tid - big) % chunk % t.perCore)
  }

  // The first thread of core c.
  function Start(t: Team, c: nat): nat
    requires t.Valid()
  {
    c * t.Chunk() + (if c < t.BigCores() then c else t.BigCores())
  }

  // How many threads core c has: one more on the first `nthreads % ncores` cores.
  function Load(t: Team, c: nat): nat
    requires t.Valid()
  {
    t.Chunk() + (if c < t.BigCores() then 1 else 0)
  }

  lemma Division(n: nat, d: nat)
    requires d > 0
    ensures n == d * (n / d) + n % d && 0 <= n % d < d
  {
  }

  /** The division by the chunk is never reached with a zero chunk. */
  lemma NoZeroChunk(t: Team, tid: nat)
    requires t.Valid() && tid < t.nthreads
    ensures tid >= (t.Chunk() + 1) * t.BigCores() ==> t.Chunk() > 0
  {
    Division(t.nthreads, t.ncores);
    if t.Chunk() == 0 {
      assert t.ncores * t.Chunk() == 0;
      assert (t.Chunk() + 1) * t.BigCores() == t.BigCores();
    }
  }

  lemma StartNext(t: Team, c: nat)
    requires t.Valid()
    ensures Start(t, c + 1) == Start(t, c) + Load(t, c)
  {
    assert (c + 1) * t.Chunk() == c * t.Chunk() + t.Chunk();
  }

  lemma StartEnd(t: Team)
    requires t.Valid()
    ensures Start(t, 0) == 0 && Start(t, t.ncores) == t.nthreads
  {
    Division(t.nthreads, t.ncores);
  }

  // A thread on a big core.
  lemma OnBigCore(t: Team, tid: nat)
    requires t.Valid() && tid < t.nthreads && tid < (t.Chunk() + 1) * t.BigCores()
    ensures var c := Place(t, tid).core;
            0 <= c < t.BigCores() && Start(t, c) <= tid < Start(t, c) + Load(t, c)
    ensures Place(t, tid).context == (tid - Start(t, Place(t, tid).core)) % t.perCore
  {
    var d, c := t.Chunk() + 1, tid / (t.Chunk() + 1);
    Division(tid, d);
    if c > t.BigCores() { MulStep(d, t.BigCores(), c); }
    assert Start(t, c) == c * t.Chunk() + c == d * c;
  }

  lemma OnSmallCore(t: Team, tid: nat)
    requires t.Valid() && tid < t.nthreads && tid >= (t.Chunk() + 1) * t.BigCores()
    ensures var c := Place(t, tid).core;
            t.BigCores() <= c < t.ncores && Start(t, c) <= tid < Start(t, c) + Load(t, c)
    ensures Place(t, tid).context == (tid - Start(t, Place(t, tid).core)) % t.perCore
  {
    NoZeroChunk(t, tid);
    var d, big := t.Chunk(), t.BigCores();
    assert (d + 1) * big == d * big + big;
    var c := (tid - big) / d;
    Division(tid - big, d);
    Division(t.nthreads, t.ncores);
    if c < big { MulStep(d, c, big); }
    if c > t.ncores { MulStep(d, t.ncores, c); }
    assert Start(t, c) == c * d + big && c * d == d * c;
  }

  /** Every thread lands on a core and a context that exist, inside the core's range of thread ids. */
  lemma Lands(t: Team, tid: nat)
    requires t.Valid() && tid < t.nthreads
    ensures var s := Place(t, tid);
            && 0 <= s.core < t.ncores && 0 <= s.context < t.perCore
            && Start(t, s.core) <= tid < Start(t, s.core + 1)
            && s.context == (tid - Start(t, s.core)) % t.perCore
  {
    if tid < (t.Chunk() + 1) * t.BigCores() { OnBigCore(t, tid); } else { OnSmallCore(t, tid); }
    StartNext(t, Place(t, tid).core);
  }

  /** The index into the processor table stays inside the table: for the thread's own
      context, and for every context i of its core, which coarse granularity runs through. */
  lemma IndexInTable(nthreads: nat, avail: nat, cores: nat, packages: nat, tid: nat, i: nat)
    requires 0 < cores <= avail && packages <= avail && tid < nthreads
    ensures var t := MakeTeam(nthreads, avail, cores, packages);
            && t.Valid() && var s := Place(t, tid);
            && 0 <= s.core * t.perCore + s.context < avail
            && (i < t.perCore ==> s.core * t.perCore + i < avail)
  {
    var t := MakeTeam(nthreads, avail, cores, packages);
    Division(avail, t.ncores);
    assert t.perCore == 0 ==> t.ncores * t.perCore == 0;
    Lands(t, tid);
    var s := Place(t, tid);
    MulStep(t.perCore, s.core, t.ncores);
    assert t.perCore * t.ncores <= avail;
  }

  lemma {:induction false} StartMonotone(t: Team, c: nat, d: nat)
    requires t.Valid() && c <= d
    ensures Start(t, c) <= Start(t, d)
    decreases d - c
  {
    if c < d {
      StartMonotone(t, c, d - 1);
      StartNext(t, d - 1);
    }
  }

  /** A core has exactly the thread ids of its range. */
  lemma CoreRange(t: Team, c: nat, tid: nat)
    requires t.Valid() && c < t.ncores && tid < t.nthreads
    ensures Place(t, tid).core == c <==> Start(t, c) <= tid < Start(t, c + 1)
  {
    Lands(t, tid);
    var d := Place(t, tid).core;
    if d < c { StartMonotone(t, d + 1, c); }
    if c < d { StartMonotone(t, c + 1, d); }
  }

  // A core and a context of it, as sets of thread ids.
  ghost function OnCore(t: Team, c: nat): set<int>
    requires t.Valid()
  {
    set tid | 0 <= tid < t.nthreads && Place(t, tid).core == c
  }

  ghost function OnContext(t: Team, c: nat, k: nat): set<int>
    requires t.Valid()
  {
    set tid | 0 <= tid < t.nthreads && Place(t, tid) == Spot(c, k)
  }

  // The ids that core c gets are those from lo up to hi, dealt out to its contexts in turn.
  ghost predicate Dealt(t: Team, c: nat, lo: int, hi: int, tid: nat)
    requires t.Valid() && tid < t.nthreads
  {
    && (Place(t, tid).core == c <==> lo <= tid < hi)
    && (Place(t, tid).core == c ==> Place(t, tid).context == (tid - lo) % t.perCore)
  }

  /** Each core has one contiguous range of thread ids. */
  lemma Range(t: Team, c: nat) returns (lo: int, hi: int)
    requires t.Valid() && c < t.ncores
    ensures 0 <= lo <= hi <= t.nthreads && hi - lo == Load(t, c)
    ensures forall tid: nat :: tid < t.nthreads ==> Dealt(t, c, lo, hi, tid)
  {
    lo, hi := Start(t, c), Start(t, c + 1);
    StartNext(t, c);
    StartMonotone(t, c + 1, t.ncores);
    StartEnd(t);
    forall tid: nat | tid < t.nthreads ensures Dealt(t, c, lo, hi, tid) {
      CoreRange(t, c, tid);
      Lands(t, tid);
    }
  }

  /** Core c gets nthreads / ncores threads, and one more if c < nthreads % ncores. */
  lemma CoreLoad(t: Team, c: nat)
    requires t.Valid() && c < t.ncores
    ensures |OnCore(t, c)| == Load(t, c)
  {
    var lo, hi := Range(t, c);
    IntervalSize(lo, hi);
    var range := set x | lo <= x < hi && Within(lo, hi, x);
    forall x ensures x in OnCore(t, c) <==> x in range { assert 0 <= x < t.nthreads ==> Dealt(t, c, lo, hi, x); }
    assert OnCore(t, c) == range;
  }

  /** The contexts of a core share its threads evenly. */
  lemma ContextLoad(t: Team, c: nat, k: nat)
    requires t.Valid() && c < t.ncores && k < t.perCore
    ensures |OnContext(t, c, k)| == Load(t, c) / t.perCore + if k < Load(t, c) % t.perCore then 1 else 0
  {
    var lo, hi := Range(t, c);
    StepCount(lo, hi, t.perCore, k);
    var range := set x | lo <= x < hi && Stepped(lo, hi, t.perCore, k, x);
    forall x ensures x in OnContext(t, c, k) <==> x in range { assert 0 <= x < t.nthreads ==> Dealt(t, c, lo, hi, x); }
    assert OnContext(t, c, k) == range;
  }

  /** Two contexts of a core differ by at most one thread. */
  lemma ContextsEven(t: Team, c: nat, k: nat, l: nat)
    requires t.Valid() && c < t.ncores && k < t.perCore && l < t.perCore
    ensures -1 <= |OnContext(t, c, k)| - |OnContext(t, c, l)| <= 1
  {
    ContextLoad(t, c, k);
    ContextLoad(t, c, l);
  }
}
