/** The table of processors that balanced placement on a machine with uneven
    cores starts from: which processors make up a core, and the slots they get. */
module CoreTable {
  import opened Labels
  import Placement

  // Addresses with unsigned labels for the levels 0 to bottom.
  ghost predicate Rows(rows: seq<Labels>, bottom: nat) {
    rows != [] && Table(rows, bottom + 1) && forall i, j :: 0 <= i < |rows| && 0 <= j <= bottom ==> rows[i][j] >= 0
  }

  // Below the level after this one all labels are zero, and there, unless this is the first level, some label is not.
  ghost predicate IsCoreLevel(rows: seq<Labels>, bottom: nat, level: nat)
    requires Rows(rows, bottom)
  {
    && level <= bottom && (bottom > 0 ==> level < bottom)
    && (forall i, j :: 0 <= i < |rows| && level + 1 < j <= bottom ==> rows[i][j] == 0)
    && (level > 0 ==> exists i :: 0 <= i < |rows| && rows[i][level + 1] > 0)
  }

  method FindCoreLevel(rows: seq<Labels>, bottom: nat) returns (level: nat)
    requires Rows(rows, bottom)
    ensures IsCoreLevel(rows, bottom, level)
  {
    level := 0;
    for i := 0 to |rows|
      invariant bottom > 0 ==> level < bottom
      invariant bottom == 0 ==> level == 0
      invariant forall k, l :: 0 <= k < i && level + 1 < l <= bottom ==> rows[k][l] == 0
      invariant level > 0 ==> exists k :: 0 <= k < i && rows[k][level + 1] > 0
    {
      var j := bottom;
      while j > 0
        invariant 0 <= j <= bottom
        invariant bottom > 0 ==> level < bottom
        invariant bottom == 0 ==> level == 0
        invariant forall k, l :: 0 <= k < i && level + 1 < l <= bottom ==> rows[k][l] == 0
        invariant forall l :: j < l <= bottom && level + 1 < l ==> rows[i][l] == 0
        invariant level > 0 ==> exists k :: 0 <= k <= i && rows[k][level + 1] > 0
      {
        if rows[i][j] > 0 {
          if level < j - 1 {
            level := j - 1;
          }
        }
        j := j - 1;
      }
    }
  }

  // A row opens a core if its labels below the core level are all zero.
  predicate Opens(row: Labels, bottom: nat, level: nat)
    requires |row| == bottom + 1
  {
    forall j :: level < j <= bottom ==> row[j] <= 0
  }

  // The core of row r: the number of rows after the first, up to it, that open one.
  function CoreOf(rows: seq<Labels>, bottom: nat, level: nat, r: nat): (c: nat)
    requires r < |rows| && forall i :: 0 <= i < |rows| ==> |rows[i]| == bottom + 1
  {
    if r == 0 then 0 else CoreOf(rows, bottom, level, r - 1) + if Opens(rows[r], bottom, level) then 1 else 0
  }

  // The number of rows before row r in its core.
  function InCore(rows: seq<Labels>, bottom: nat, level: nat, r: nat): nat
    requires r < |rows| && forall i :: 0 <= i < |rows| ==> |rows[i]| == bottom + 1
  {
    if r == 0 || Opens(rows[r], bottom, level) then 0 else InCore(rows, bottom, level, r - 1) + 1
  }

  /** The count of cores among the first rows; the case after the loop is only
      that of no rows at all. */
  method ComputeCores(rows: seq<Labels>, nprocs: nat, bottom: nat, level: nat) returns (ncores: nat)
    requires nprocs <= |rows| && level <= bottom && forall i :: 0 <= i < |rows| ==> |rows[i]| == bottom + 1
    ensures nprocs > 0 ==> ncores == CoreOf(rows, bottom, level, nprocs - 1) + 1
    ensures nprocs == 0 ==> ncores == if level < bottom then 1 else 0
  {
    ncores := 0;
    var j := bottom;
    var i := 0;
    while i < nprocs
      invariant 0 <= i <= nprocs && (i > 0 && i == nprocs ==> j == level) && (i == 0 ==> j == bottom)
      invariant i < nprocs ==> ncores == CoreOf(rows, bottom, level, i)
      invariant i == nprocs ==> ncores == if nprocs == 0 then 0 else CoreOf(rows, bottom, level, nprocs - 1) + 1
    {
      j := NextLevel(rows, nprocs, bottom, level, i);
      if j == level {
        ncores := ncores + 1;
      }
      i := i + 1;
    }
    if j > level {
      ncores := ncores + 1;
    }
  }

  // The inner loop: where the search of the next row for a label that is not zero stops.
  method NextLevel(rows: seq<Labels>, nprocs: nat, bottom: nat, level: nat, i: nat) returns (j: nat)
    requires i < nprocs <= |rows| && level <= bottom && forall i :: 0 <= i < |rows| ==> |rows[i]| == bottom + 1
    ensures j >= level && (j == level <==> i + 1 == nprocs || Opens(rows[i + 1], bottom, level))
  {
    j := bottom;
    var next := if i + 1 < nprocs then rows[i + 1] else [];
    while j > level
      invariant level <= j <= bottom
      invariant i + 1 < nprocs ==> forall k :: j < k <= bottom ==> next[k] <= 0
    {
      if i + 1 < nprocs {
        if next[j] > 0 {
          return;
        }
      }
      j := j - 1;
    }
  }

  method FindCore(rows: seq<Labels>, proc: nat, bottom: nat, level: nat) returns (core: nat)
    requires proc < |rows| && level <= bottom && forall i :: 0 <= i < |rows| ==> |rows[i]| == bottom + 1
    ensures core == CoreOf(rows, bottom, level, proc)
  {
    var n := ComputeCores(rows, proc + 1, bottom, level);
    core := n - 1;
  }

  // ---------- as many threads as processors ----------

  // The processors of the core that row r belongs to.
  ghost function CoreProcs(rows: seq<Labels>, ids: seq<int>, bottom: nat, level: nat, r: nat): set<int>
    requires r < |rows| == |ids| && forall i :: 0 <= i < |rows| ==> |rows[i]| == bottom + 1
  {
    set i | 0 <= i < |rows| && CoreOf(rows, bottom, level, i) == CoreOf(rows, bottom, level, r) :: ids[i]
  }

  /** Balanced placement of as many threads as there are processors: thread tid gets the processor
      of row tid, or all those of its core. */
  method PlaceAll(rows: seq<Labels>, ids: seq<int>, bottom: nat, level: nat, tid: nat, fine: bool) returns (mask: set<int>)
    requires tid < |rows| == |ids| && level <= bottom && forall i :: 0 <= i < |rows| ==> |rows[i]| == bottom + 1
    ensures mask == if fine then {ids[tid]} else CoreProcs(rows, ids, bottom, level, tid)
  {
    if fine {
      mask := {ids[tid]};
    } else {
      var core := FindCore(rows, tid, bottom, level);
      mask := {};
      for i := 0 to |rows|
        invariant mask == set k | 0 <= k < i && CoreOf(rows, bottom, level, k) == core :: ids[k]
      {
        var other := FindCore(rows, i, bottom, level);
        if other == core {
          mask := mask + {ids[i]};
        }
      }
    }
  }

  /** Two threads share their processors exactly if their rows are of one core. */
  lemma SharedCore(rows: seq<Labels>, ids: seq<int>, bottom: nat, level: nat, r: nat, q: nat)
    requires r < |rows| == |ids| && q < |rows| && forall i :: 0 <= i < |rows| ==> |rows[i]| == bottom + 1
    requires forall j, k :: 0 <= j < k < |ids| ==> ids[j] != ids[k]
    ensures var x, y := CoreProcs(rows, ids, bottom, level, r), CoreProcs(rows, ids, bottom, level, q);
            && ids[r] in x && ids[q] in y
            && if CoreOf(rows, bottom, level, r) == CoreOf(rows, bottom, level, q) then x == y else x !! y
  {
  }

  // The number of slots for a core: one more than the largest label just below the core level.
  ghost predicate IsWidth(rows: seq<Labels>, bottom: nat, level: nat, width: nat)
    requires Rows(rows, bottom) && level <= bottom
  {
    if level == bottom then width == 1 else
      && (forall i :: 0 <= i < |rows| ==> rows[i][level + 1] < width)
      && exists i :: 0 <= i < |rows| && rows[i][level + 1] + 1 == width
  }

  method MaxPerCore(rows: seq<Labels>, bottom: nat, level: nat) returns (width: nat)
    requires Rows(rows, bottom) && level <= bottom
    ensures IsWidth(rows, bottom, level, width) && width > 0
  {
    width := 0;
    if level < bottom {
      ghost var at := 0;
      for i := 0 to |rows|
        invariant forall k :: 0 <= k < i ==> rows[k][level + 1] < width
        invariant if i == 0 then width == 0 else 0 <= at < i && rows[at][level + 1] + 1 == width
      {
        var percore := rows[i][level + 1] + 1;
        if percore > width {
          width, at := percore, i;
        }
      }
    } else {
      width := 1;
    }
  }

  // ---------- the slots ----------

  function Slot(rows: seq<Labels>, bottom: nat, level: nat, width: nat, r: nat): nat
    requires r < |rows| && forall i :: 0 <= i < |rows| ==> |rows[i]| == bottom + 1
  {
    CoreOf(rows, bottom, level, r) * width + InCore(rows, bottom, level, r)
  }

  // No row of the rows from r + 1 up to n has the slot of row r.
  ghost predicate Last(rows: seq<Labels>, bottom: nat, level: nat, width: nat, n: nat, r: nat)
    requires n <= |rows| && r < |rows| && forall i :: 0 <= i < |rows| ==> |rows[i]| == bottom + 1
  {
    forall q: nat :: r < q < n ==> Slot(rows, bottom, level, width, q) != Slot(rows, bottom, level, width, r)
  }

  // Row r is the last of the first n rows for its slot, and stands there.
  ghost predicate Stands(rows: seq<Labels>, ids: seq<int>, bottom: nat, level: nat, width: nat, n: nat, procs: seq<int>, r: nat)
    requires n <= |rows| && r < |rows| == |ids| && forall i :: 0 <= i < |rows| ==> |rows[i]| == bottom + 1
  {
    var s := Slot(rows, bottom, level, width, r);
    s < |procs| && Last(rows, bottom, level, width, n, r) ==> procs[s] == ids[r]
  }

  // The table after the first n rows: in each slot the last of the rows that belong there.
  ghost predicate Filled(rows: seq<Labels>, ids: seq<int>, bottom: nat, level: nat, width: nat, n: nat, procs: seq<int>)
    requires n <= |rows| == |ids| && forall i :: 0 <= i < |rows| ==> |rows[i]| == bottom + 1
  {
    && (forall r: nat {:trigger Stands(rows, ids, bottom, level, width, n, procs, r)} :: r < n ==>
          Stands(rows, ids, bottom, level, width, n, procs, r))
    && forall s :: 0 <= s < |procs| && procs[s] != -1 ==>
         exists r: nat :: r < n && Slot(rows, bottom, level, width, r) == s && procs[s] == ids[r]
  }

  lemma FilledNext(rows: seq<Labels>, ids: seq<int>, bottom: nat, level: nat, width: nat, n: nat, procs: seq<int>)
    requires n < |rows| == |ids| && forall i :: 0 <= i < |rows| ==> |rows[i]| == bottom + 1
    requires Filled(rows, ids, bottom, level, width, n, procs)
    ensures var s := Slot(rows, bottom, level, width, n);
            Filled(rows, ids, bottom, level, width, n + 1, if s < |procs| then procs[s := ids[n]] else procs)
  {
    var s, m := Slot(rows, bottom, level, width, n), n + 1;
    var more := if s < |procs| then procs[s := ids[n]] else procs;
    forall r: nat | r < m ensures Stands(rows, ids, bottom, level, width, m, more, r) {
      if r < n {
        assert Stands(rows, ids, bottom, level, width, n, procs, r);
        assert Last(rows, bottom, level, width, m, r) ==>
          Last(rows, bottom, level, width, n, r) && s != Slot(rows, bottom, level, width, r);
      }
    }
    forall x | 0 <= x < |more| && more[x] != -1
      ensures exists r: nat :: r < m && Slot(rows, bottom, level, width, r) == x && more[x] == ids[r]
    {
      if x != s {
        var r: nat :| r < n && Slot(rows, bottom, level, width, r) == x && procs[x] == ids[r];
      }
    }
  }

  /** The table is given up exactly if it would have fewer than two slots or fewer
      than there are processors. Otherwise every slot holds the last of the rows
      that belong there; it is left, which is where the model skips the write,
      exactly if some row belongs outside. */
  method Build(rows: seq<Labels>, ids: seq<int>, bottom: nat)
    returns (available: bool, inside: bool, procs: array<int>, ncores: nat, width: nat, level: nat)
    requires Rows(rows, bottom) && |ids| == |rows|
    ensures IsCoreLevel(rows, bottom, level) && IsWidth(rows, bottom, level, width) && width > 0
    ensures ncores == CoreOf(rows, bottom, level, |rows| - 1) + 1
    ensures available <==> 2 <= ncores * width && |rows| <= ncores * width
    ensures available ==> procs.Length == ncores * width && Filled(rows, ids, bottom, level, width, |rows|, procs[..])
    ensures available ==> (inside <==> forall r: nat :: r < |rows| ==> Slot(rows, bottom, level, width, r) < ncores * width)
  {
    level := FindCoreLevel(rows, bottom);
    ncores := ComputeCores(rows, |rows|, bottom, level);
    width := MaxPerCore(rows, bottom, level);
    var nproc := ncores * width;
    available := !(nproc < 2 || nproc < |rows|);
    inside, procs := true, new int[0];
    if available {
      inside, procs := Fill(rows, ids, bottom, level, width, nproc);
    }
  }

  method Write(ghost rows: seq<Labels>, ids: seq<int>, ghost bottom: nat, ghost level: nat, ghost width: nat,
               i: nat, s: nat, procs: array<int>) returns (fits: bool)
    requires i < |rows| == |ids| && forall k :: 0 <= k < |rows| ==> |rows[k]| == bottom + 1
    requires s == Slot(rows, bottom, level, width, i) && Filled(rows, ids, bottom, level, width, i, procs[..])
    modifies procs
    ensures fits <==> Slot(rows, bottom, level, width, i) < procs.Length
    ensures Filled(rows, ids, bottom, level, width, i + 1, procs[..])
  {
    FilledNext(rows, ids, bottom, level, width, i, procs[..]);
    fits := s < procs.Length;
    if fits {
      procs[s] := ids[i];
    }
  }

  method Fill(rows: seq<Labels>, ids: seq<int>, bottom: nat, level: nat, width: nat, nproc: nat)
    returns (inside: bool, procs: array<int>)
    requires Rows(rows, bottom) && |ids| == |rows| && level <= bottom
    ensures procs.Length == nproc && Filled(rows, ids, bottom, level, width, |rows|, procs[..])
    ensures inside <==> forall r: nat :: r < |rows| ==> Slot(rows, bottom, level, width, r) < nproc
  {
    inside := true;
    procs := new int[nproc](_ => -1);
    var lastcore, inlastcore := -1, 0;
    var i := 0;
    while i < |rows|
      invariant 0 <= i <= |rows| && fresh(procs) && Filled(rows, ids, bottom, level, width, i, procs[..])
      invariant i == 0 ==> lastcore == -1
      invariant i > 0 ==> lastcore == CoreOf(rows, bottom, level, i - 1) && inlastcore == InCore(rows, bottom, level, i - 1)
      invariant inside <==> forall r: nat :: r < i ==> Slot(rows, bottom, level, width, r) < nproc
    {
      var core := FindCore(rows, i, bottom, level);
      if core == lastcore {
        inlastcore := inlastcore + 1;
      } else {
        inlastcore := 0;
      }
      lastcore := core;
      var fits := Write(rows, ids, bottom, level, width, i, core * width + inlastcore, procs);
      inside := inside && fits;
      i := i + 1;
    }
  }

  // ---------- every core gets a processor ----------

  lemma {:induction false} CoresGrow(rows: seq<Labels>, bottom: nat, level: nat, r: nat, q: nat)
    requires r <= q < |rows| && forall i :: 0 <= i < |rows| ==> |rows[i]| == bottom + 1
    ensures CoreOf(rows, bottom, level, r) <= CoreOf(rows, bottom, level, q)
    ensures CoreOf(rows, bottom, level, r) == CoreOf(rows, bottom, level, q) ==>
              InCore(rows, bottom, level, q) == InCore(rows, bottom, level, r) + (q - r)
    decreases q
  {
    if r < q { CoresGrow(rows, bottom, level, r, q - 1); }
  }

  // The first row of core c.
  lemma {:induction false} FirstOf(rows: seq<Labels>, bottom: nat, level: nat, n: nat, c: nat) returns (r: nat)
    requires n < |rows| && (forall i :: 0 <= i < |rows| ==> |rows[i]| == bottom + 1) && c <= CoreOf(rows, bottom, level, n)
    ensures r <= n && CoreOf(rows, bottom, level, r) == c && InCore(rows, bottom, level, r) == 0
  {
    if n == 0 || (c == CoreOf(rows, bottom, level, n) && Opens(rows[n], bottom, level)) {
      r := n;
    } else {
      r := FirstOf(rows, bottom, level, n - 1, c);
    }
  }

  lemma SlotsApart(c: nat, k: nat, d: nat, l: nat, width: nat)
    requires k < width && c < d
    ensures c * width + k < d * width + l
  {
    Placement.NotBelow(d, c + 1, width);
    assert (c + 1) * width == c * width + width;
  }

  lemma FirstStays(rows: seq<Labels>, bottom: nat, level: nat, width: nat, r: nat)
    requires r < |rows| && width > 0 && forall i :: 0 <= i < |rows| ==> |rows[i]| == bottom + 1
    requires InCore(rows, bottom, level, r) == 0
    ensures Last(rows, bottom, level, width, |rows|, r)
  {
    forall q: nat | r < q < |rows| ensures Slot(rows, bottom, level, width, q) != Slot(rows, bottom, level, width, r) {
      CoresGrow(rows, bottom, level, r, q);
      var c, d := CoreOf(rows, bottom, level, r), CoreOf(rows, bottom, level, q);
      if c < d { SlotsApart(c, 0, d, InCore(rows, bottom, level, q), width); }
    }
  }

  lemma SlotZero(rows: seq<Labels>, ids: seq<int>, bottom: nat, level: nat, width: nat, procs: seq<int>, ncores: nat, c: nat)
    requires Rows(rows, bottom) && |ids| == |rows| && width > 0 && (forall i :: 0 <= i < |ids| ==> ids[i] >= 0)
    requires ncores == CoreOf(rows, bottom, level, |rows| - 1) + 1 && |procs| == ncores * width
    requires Filled(rows, ids, bottom, level, width, |rows|, procs) && c < ncores
    ensures 0 <= c * width < |procs| && procs[c * width] >= 0
  {
    var r := FirstOf(rows, bottom, level, |rows| - 1, c);
    FirstStays(rows, bottom, level, width, r);
    SlotsApart(c, 0, ncores, 0, width);
    assert Stands(rows, ids, bottom, level, width, |rows|, procs, r);
  }

  lemma {:induction false} CountInhabited(procs: seq<int>, width: nat, n: nat)
    requires width > 0 && n * width <= |procs|
    requires forall c :: 0 <= c < n ==> 0 <= c * width < |procs| && procs[c * width] >= 0
    ensures Placement.Inhabited(procs, width, n) == n
  {
    if n > 0 {
      var c := n - 1;
      Placement.InRange(c, n, width);
      Placement.NotBelow(n, c, width);
      CountInhabited(procs, width, c);
      Placement.Base(c, width, |procs|);
      assert Placement.Core(procs, width, c)[0] == procs[c * width];
      assert procs[c * width] in Placement.CoreMask(Placement.Core(procs, width, c));
    }
  }

  /** Every core has a processor in the table, so a thread of a team no larger than
      the number of cores always finds one. */
  lemma EveryCoreInhabited(rows: seq<Labels>, ids: seq<int>, bottom: nat, level: nat, width: nat, procs: seq<int>, ncores: nat)
    requires Rows(rows, bottom) && |ids| == |rows| && width > 0 && (forall i :: 0 <= i < |ids| ==> ids[i] >= 0)
    requires ncores == CoreOf(rows, bottom, level, |rows| - 1) + 1 && |procs| == ncores * width
    requires Filled(rows, ids, bottom, level, width, |rows|, procs)
    ensures Placement.Inhabited(procs, width, ncores) == ncores
  {
    forall c | 0 <= c < ncores ensures 0 <= c * width < |procs| && procs[c * width] >= 0 {
      SlotZero(rows, ids, bottom, level, width, procs, ncores, c);
    }
    CountInhabited(procs, width, ncores);
  }

  // ---------- every processor gets a slot ----------

  // Row r stands in its own slot.
  ghost predicate Placed(rows: seq<Labels>, ids: seq<int>, bottom: nat, level: nat, width: nat, procs: seq<int>, r: nat)
    requires r < |rows| == |ids| && forall i :: 0 <= i < |rows| ==> |rows[i]| == bottom + 1
  {
    var s := Slot(rows, bottom, level, width, r); s < |procs| && procs[s] == ids[r]
  }

  // No core has more rows than slots.
  ghost predicate NoneTooLarge(rows: seq<Labels>, bottom: nat, level: nat, width: nat)
    requires forall i :: 0 <= i < |rows| ==> |rows[i]| == bottom + 1
  {
    forall r: nat :: r < |rows| ==> InCore(rows, bottom, level, r) < width
  }

  lemma FitsIsPlaced(rows: seq<Labels>, ids: seq<int>, bottom: nat, level: nat, width: nat, procs: seq<int>, ncores: nat, r: nat)
    requires Rows(rows, bottom) && |ids| == |rows| && NoneTooLarge(rows, bottom, level, width) && r < |rows|
    requires ncores == CoreOf(rows, bottom, level, |rows| - 1) + 1 && |procs| == ncores * width
    requires Filled(rows, ids, bottom, level, width, |rows|, procs)
    ensures Placed(rows, ids, bottom, level, width, procs, r)
  {
    var c, k := CoreOf(rows, bottom, level, r), InCore(rows, bottom, level, r);
    CoresGrow(rows, bottom, level, r, |rows| - 1);
    SlotsApart(c, k, ncores, 0, width);
    forall q: nat | r < q < |rows| ensures Slot(rows, bottom, level, width, q) != Slot(rows, bottom, level, width, r) {
      CoresGrow(rows, bottom, level, r, q);
      var d := CoreOf(rows, bottom, level, q);
      if c < d { SlotsApart(c, k, d, InCore(rows, bottom, level, q), width); }
    }
    assert Stands(rows, ids, bottom, level, width, |rows|, procs, r);
  }

  // A row one too many for its core belongs to the first slot of the next core, or outside.
  lemma TooLargeIsLost(rows: seq<Labels>, ids: seq<int>, bottom: nat, level: nat, width: nat, procs: seq<int>, ncores: nat, r: nat)
    requires Rows(rows, bottom) && |ids| == |rows| && width > 0 && r < |rows| && InCore(rows, bottom, level, r) >= width
    requires forall i, j :: 0 <= i < j < |ids| ==> ids[i] != ids[j]
    requires ncores == CoreOf(rows, bottom, level, |rows| - 1) + 1 && |procs| == ncores * width
    ensures exists q: nat :: q < |rows| && !Placed(rows, ids, bottom, level, width, procs, q)
  {
    var c := CoreOf(rows, bottom, level, r);
    var q := RowOf(rows, bottom, level, r, width);
    assert Slot(rows, bottom, level, width, q) == c * width + width == (c + 1) * width;
    CoresGrow(rows, bottom, level, r, |rows| - 1);
    if c + 1 < ncores {
      var x := FirstOf(rows, bottom, level, |rows| - 1, c + 1);
      assert Slot(rows, bottom, level, width, x) == Slot(rows, bottom, level, width, q);
      assert x != q;
      assert !(Placed(rows, ids, bottom, level, width, procs, x) && Placed(rows, ids, bottom, level, width, procs, q));
    } else {
      assert c + 1 == ncores && !Placed(rows, ids, bottom, level, width, procs, q);
    }
  }

  // The k-th row of the core of row r.
  lemma {:induction false} RowOf(rows: seq<Labels>, bottom: nat, level: nat, r: nat, k: nat) returns (q: nat)
    requires r < |rows| && (forall i :: 0 <= i < |rows| ==> |rows[i]| == bottom + 1) && k <= InCore(rows, bottom, level, r)
    ensures q <= r && CoreOf(rows, bottom, level, q) == CoreOf(rows, bottom, level, r) && InCore(rows, bottom, level, q) == k
  {
    if k == InCore(rows, bottom, level, r) {
      q := r;
    } else {
      q := RowOf(rows, bottom, level, r - 1, k);
    }
  }

  /** Every processor stands in a slot of its own exactly if no core has more
      processors than slots. */
  lemma TableIsComplete(rows: seq<Labels>, ids: seq<int>, bottom: nat, level: nat, width: nat, procs: seq<int>, ncores: nat)
    requires Rows(rows, bottom) && |ids| == |rows| && width > 0
    requires forall i, j :: 0 <= i < j < |ids| ==> ids[i] != ids[j]
    requires ncores == CoreOf(rows, bottom, level, |rows| - 1) + 1 && |procs| == ncores * width
    requires Filled(rows, ids, bottom, level, width, |rows|, procs)
    ensures (forall r: nat :: r < |rows| ==> Placed(rows, ids, bottom, level, width, procs, r)) <==>
            NoneTooLarge(rows, bottom, level, width)
  {
    if NoneTooLarge(rows, bottom, level, width) {
      forall r: nat | r < |rows| ensures Placed(rows, ids, bottom, level, width, procs, r) {
        FitsIsPlaced(rows, ids, bottom, level, width, procs, ncores, r);
      }
    } else {
      var r: nat :| r < |rows| && InCore(rows, bottom, level, r) >= width;
      TooLargeIsLost(rows, ids, bottom, level, width, procs, ncores, r);
    }
  }

  // Each family at the core level starts with a label of zero.
  ghost predicate ZeroBased(rows: seq<Labels>, bottom: nat, level: nat)
    requires Rows(rows, bottom) && level <= bottom
  {
    forall r :: 0 < r < |rows| && rows[r][..level + 1] != rows[r - 1][..level + 1] ==> Opens(rows[r], bottom, level)
  }

  lemma {:induction false} CountBelowLabel(rows: seq<Labels>, bottom: nat, level: nat, r: nat)
    requires Rows(rows, bottom) && IsCoreLevel(rows, bottom, level) && level < bottom && r < |rows|
    requires Ordered(rows, bottom + 1) && (forall i, j :: 0 <= i < j < |rows| ==> rows[i] != rows[j])
    requires ZeroBased(rows, bottom, level)
    ensures InCore(rows, bottom, level, r) <= rows[r][level + 1]
  {
    if r > 0 && !Opens(rows[r], bottom, level) {
      CountBelowLabel(rows, bottom, level, r - 1);
      LabelGrows(rows[r - 1], rows[r], level + 1);
    }
  }

  // Of two rows that differ at level l only, the later has the larger label there.
  lemma LabelGrows(a: Labels, b: Labels, l: nat)
    requires |a| == |b| && l < |a| && a != b && LexLe(a, b) && a[..l] == b[..l]
    requires forall j :: l < j < |a| ==> a[j] == b[j]
    ensures a[l] < b[l]
  {
    PrefixDiff(a, b, l);
  }

  /** Where the first processor of each core has label zero, as the processors are
      numbered when all of them are in use, the table is complete. */
  lemma ZeroBasedFits(rows: seq<Labels>, bottom: nat, level: nat, width: nat)
    requires Rows(rows, bottom) && IsCoreLevel(rows, bottom, level) && IsWidth(rows, bottom, level, width)
    requires Ordered(rows, bottom + 1) && (forall i, j :: 0 <= i < j < |rows| ==> rows[i] != rows[j])
    requires ZeroBased(rows, bottom, level)
    ensures NoneTooLarge(rows, bottom, level, width)
  {
    forall r: nat | r < |rows| ensures InCore(rows, bottom, level, r) < width {
      if level < bottom { CountBelowLabel(rows, bottom, level, r); }
    }
  }

  lemma RowIs(rows: seq<Labels>, bottom: nat, level: nat, r: nat, opens: bool)
    requires 0 < r < |rows| && (forall i :: 0 <= i < |rows| ==> |rows[i]| == bottom + 1) && opens == Opens(rows[r], bottom, level)
    ensures CoreOf(rows, bottom, level, r) == CoreOf(rows, bottom, level, r - 1) + if opens then 1 else 0
    ensures InCore(rows, bottom, level, r) == if opens then 0 else InCore(rows, bottom, level, r - 1) + 1
  {
  }

  lemma TwoLevels(rows: seq<Labels>, r: nat)
    requires Rows(rows, 1) && r < |rows| && rows[r][1] == 1 && forall i :: 0 <= i < |rows| ==> rows[i][1] <= 1
    ensures IsCoreLevel(rows, 1, 0) && IsWidth(rows, 1, 0, 2)
  {
  }

  /** With the first processor of a core not in use, that core is taken for a part
      of the one before. Here its processor gets a slot that the first one of the
      next core overwrites. */
  lemma ProcessorLost()
    ensures var rows := [[0, 0], [0, 1], [1, 1], [2, 0]];
            && Rows(rows, 1) && Ordered(rows, 2) && IsCoreLevel(rows, 1, 0) && IsWidth(rows, 1, 0, 2)
            && CoreOf(rows, 1, 0, 3) == 1 && Slot(rows, 1, 0, 2, 2) == Slot(rows, 1, 0, 2, 3) == 2
  {
    var rows := [[0, 0], [0, 1], [1, 1], [2, 0]];
    TwoLevels(rows, 1);
    RowIs(rows, 1, 0, 1, false);
    RowIs(rows, 1, 0, 2, false);
    RowIs(rows, 1, 0, 3, true);
    Sorted2(rows);
  }

  /** And here, where that core is the last, the slot is behind the table of four. */
  lemma SlotBehindTable()
    ensures var rows := [[0, 0], [1, 0], [1, 1], [2, 1]];
            && Rows(rows, 1) && Ordered(rows, 2) && IsCoreLevel(rows, 1, 0) && IsWidth(rows, 1, 0, 2)
            && CoreOf(rows, 1, 0, 3) == 1 && Slot(rows, 1, 0, 2, 3) == 4
  {
    var rows := [[0, 0], [1, 0], [1, 1], [2, 1]];
    TwoLevels(rows, 2);
    RowIs(rows, 1, 0, 1, true);
    RowIs(rows, 1, 0, 2, false);
    RowIs(rows, 1, 0, 3, false);
    Sorted2(rows);
  }

  // Pairs of labels are in order if they are so one after the other.
  lemma Sorted2(rows: seq<Labels>)
    requires Table(rows, 2)
    requires forall i, j :: 0 <= i < j < |rows| ==>
      rows[i][0] < rows[j][0] || (rows[i][0] == rows[j][0] && rows[i][1] < rows[j][1])
    ensures Ordered(rows, 2)
  {
    forall i, j | 0 <= i < j < |rows| ensures LexLe(rows[i], rows[j]) {
      var a, b := rows[i], rows[j];
      DiffIs(a, b, if a[0] == b[0] then 1 else 0);
    }
  }
}
