/** Counting the topology out of /proc/cpuinfo records, where thread ids may be
    missing: the pass starts over, once at most, to number the threads itself. */
module CpuInfo {
  import opened Labels
  import opened Topology

  const UNSET := 0xFFFF_FFFF   // UINT_MAX: no thread id given

  // What a pass over the table ends with.
  datatype Outcome = Counts | Restart | NotUnique

  // The labels of record i: its upper levels, then its thread id.
  ghost function Row(upper: seq<Labels>, ids: seq<int>, i: nat): Labels
    requires i < |upper| == |ids|
  {
    upper[i] + [ids[i]]
  }

  ghost function Rows(upper: seq<Labels>, ids: seq<int>): (t: seq<Labels>)
    requires |upper| == |ids|
    ensures |t| == |upper| && forall i :: 0 <= i < |t| ==> t[i] == Row(upper, ids, i)
  {
    seq(|upper|, i requires 0 <= i < |upper| => Row(upper, ids, i))
  }

  // Two records give the same labels, thread id included.
  ghost predicate Clash(upper: seq<Labels>, ids: seq<int>, i: int, j: int)
    requires |upper| == |ids|
  {
    0 <= i < j < |ids| && upper[i] == upper[j] && ids[i] == ids[j] != UNSET
  }

  // The id that a record gets, and the counter after it.
  function NewId(id: int, ct: int): int {
    if id == UNSET then ct else id
  }

  function NewCt(id: int, ct: int): int {
    if id == UNSET then ct + 1 else if ct <= id then id + 1 else ct
  }

  method AssignId(ids: array<int>, i: nat, ct0: int) returns (ct: int)
    requires i < ids.Length
    modifies ids
    ensures ids[..] == old(ids[..])[i := NewId(old(ids[i]), ct0)] && ct == NewCt(old(ids[i]), ct0)
  {
    ct := ct0;
    if ids[i] == UNSET {
      ids[i] := ct;
      ct := ct + 1;
    } else if ct <= ids[i] {
      ct := ids[i] + 1;
    }
  }

  // The counters, after a record that first differs from its predecessor at level d.
  ghost predicate Tallied(d: nat, totals: seq<int>, counts: seq<int>, maxCt: seq<int>,
                          totals': seq<int>, counts': seq<int>, maxCt': seq<int>)
    requires |totals| == |counts| == |maxCt| == |totals'| == |counts'| == |maxCt'|
  {
    forall l :: 0 <= l < |totals| ==> StepOf(l, d, totals[l], counts[l], maxCt[l], totals'[l], counts'[l], maxCt'[l])
  }

  ghost predicate StepOf(l: nat, d: nat, total: int, count: int, max: int, total': int, count': int, max': int) {
    && total' == NextTotal(total, l, d) && count' == NextCount(count, l, d)
    && max' == if l > d then Max(max, count) else max
  }

  ghost predicate Separate(ids: array<int>, totals: array<int>, counts: array<int>, maxCt: array<int>, lastId: array<int>) {
    && totals != counts && totals != maxCt && totals != lastId && counts != maxCt && counts != lastId && maxCt != lastId
    && ids != totals && ids != counts && ids != maxCt && ids != lastId
    && totals.Length == counts.Length == maxCt.Length == lastId.Length
  }

  // A record first differs from its predecessor at this level: close the families below.
  method Differs(row: Labels, level: nat, ghost ids: array<int>,
                 totals: array<int>, counts: array<int>, maxCt: array<int>, lastId: array<int>)
    requires Separate(ids, totals, counts, maxCt, lastId)
    requires |row| == totals.Length && level < |row| && lastId[..level] == row[..level]
    modifies totals, counts, maxCt, lastId
    ensures lastId[..] == row
    ensures Tallied(level, old(totals[..]), old(counts[..]), old(maxCt[..]), totals[..], counts[..], maxCt[..])
  {
    assert forall l :: 0 <= l < level ==> lastId[l] == lastId[..level][l] == row[..level][l];
    for j := level + 1 to |row|
      invariant forall l :: 0 <= l < level ==> lastId[l] == row[l]
      invariant forall l :: 0 <= l <= level || j <= l < |row| ==>
        totals[l] == old(totals[l]) && counts[l] == old(counts[l]) && maxCt[l] == old(maxCt[l])
      invariant forall l :: level < l < j ==>
        && totals[l] == old(totals[l]) + 1 && counts[l] == 1 && maxCt[l] == Max(old(maxCt[l]), old(counts[l]))
        && lastId[l] == row[l]
    {
      totals[j] := totals[j] + 1;
      if counts[j] > maxCt[j] {
        maxCt[j] := counts[j];
      }
      counts[j] := 1;
      lastId[j] := row[j];
    }
    counts[level] := counts[level] + 1;
    totals[level] := totals[level] + 1;
    lastId[level] := row[level];
  }

  // The last families of all levels are complete.
  method Close(counts: array<int>, maxCt: array<int>)
    requires counts.Length == maxCt.Length && counts != maxCt
    modifies maxCt
    ensures forall l :: 0 <= l < counts.Length ==> maxCt[l] == Max(old(maxCt[l]), counts[l])
  {
    for l := 0 to counts.Length
      invariant forall k :: 0 <= k < l ==> maxCt[k] == Max(old(maxCt[k]), counts[k])
      invariant forall k :: l <= k < counts.Length ==> maxCt[k] == old(maxCt[k])
    {
      if counts[l] > maxCt[l] {
        maxCt[l] := counts[l];
      }
    }
  }

  // The level found for a record, and the thread ids, the counter and the last labels after it.
  ghost predicate Recorded(upper: Labels, i: nat, assign: bool, ct: int, ids: seq<int>, last: seq<int>,
                           level: nat, ct': int, ids': seq<int>, last': seq<int>)
    requires |last| == |upper| + 1 && i < |ids| == |ids'|
  {
    var start := if last[..|upper|] != upper then 0 else ct;
    && level <= |upper| + 1
    && ids' == (if assign then ids[i := NewId(ids[i], start)] else ids)
    && ct' == (if assign then NewCt(ids[i], start) else ct)
    && if last[..|upper|] != upper
       then level == Diff(last[..|upper|], upper) && last' == upper + [ids[i]]
       else level >= |upper| && (level > |upper| <==> ids'[i] == last[|upper|]) && (level == |upper| ==> last' == upper + [ids'[i]])
  }

  // Record i of the pass: the level at which it first differs from its predecessor,
  // or the number of levels if it does not; and the thread id counter after it.
  method Record(upper: Labels, ids: array<int>, i: nat, assign: bool, ct0: int,
                totals: array<int>, counts: array<int>, maxCt: array<int>, lastId: array<int>) returns (level: nat, ct: int)
    requires Separate(ids, totals, counts, maxCt, lastId) && totals.Length == |upper| + 1 && i < ids.Length
    modifies ids, totals, counts, maxCt, lastId
    ensures Recorded(upper, i, assign, ct0, old(ids[..]), old(lastId[..]), level, ct, ids[..], lastId[..])
    ensures level <= |upper| ==>
      Tallied(level, old(totals[..]), old(counts[..]), old(maxCt[..]), totals[..], counts[..], maxCt[..])
  {
    ct := ct0;
    level := 0;
    var n := |upper|;
    ghost var last0 := lastId[..];
    assert last0[..n] == lastId[..n];
    while level < n
      invariant 0 <= level <= n && lastId[..] == last0 && ids[..] == old(ids[..]) && ct == ct0
      invariant totals[..] == old(totals[..]) && counts[..] == old(counts[..]) && maxCt[..] == old(maxCt[..])
      invariant last0[..n][..level] == upper[..level]
    {
      if upper[level] != lastId[level] {
        DiffIs(last0[..n], upper, level);
        assert lastId[..level] == last0[..n][..level] == (upper + [ids[i]])[..level];
        Differs(upper + [ids[i]], level, ids, totals, counts, maxCt, lastId);
        if assign {
          ct := AssignId(ids, i, 0);
        }
        return;
      }
      level := level + 1;
    }
    assert last0[..n] == upper;
    if assign {
      ct := AssignId(ids, i, ct);
    }
    if ids[i] != lastId[n] {
      assert lastId[..n] == (upper + [ids[i]])[..n];
      Differs(upper + [ids[i]], n, ids, totals, counts, maxCt, lastId);
    } else {
      level := n + 1;
    }
  }

  // ---------- one pass ----------

  // Thread ids leave room for the numbers that a pass hands out.
  ghost predicate IdsFit(ids: seq<int>) {
    |ids| < UNSET && forall i :: 0 <= i < |ids| ==> ids[i] == UNSET || 0 <= ids[i] < UNSET - |ids|
  }

  ghost predicate Records(upper: seq<Labels>, ids: seq<int>, n: nat) {
    |upper| == |ids| > 0 && Table(upper, n) && IdsFit(ids) && Ordered(Rows(upper, ids), n + 1)
  }

  // Rows compare by their upper levels first, then by thread id.
  lemma RowOrder(a: Labels, x: int, b: Labels, y: int)
    requires |a| == |b|
    ensures a != b ==> Diff(a + [x], b + [y]) == Diff(a, b)
    ensures a == b && x != y ==> Diff(a + [x], b + [y]) == |a|
    ensures a + [x] == b + [y] <==> a == b && x == y
    ensures LexLe(a + [x], b + [y]) <==> if a == b then x <= y else LexLe(a, b)
  {
    var r, s, d := a + [x], b + [y], Diff(a, b);
    Agree(a, b, d);
    Agree(r, s, d);
    assert r[|a|] == x && s[|b|] == y;
    if a != b {
      DiffIs(r, s, d);
    } else if x != y {
      DiffIs(r, s, |a|);
    }
  }

  // The id of record k: the one given, or else one more than the record before it has in
  // the same core, or zero for the first one there.
  ghost predicate InTurn(upper: seq<Labels>, ids0: seq<int>, ids: seq<int>, k: nat)
    requires |upper| == |ids0| == |ids| && k < |ids|
  {
    ids[k] == if ids0[k] != UNSET then ids0[k] else if k > 0 && upper[k - 1] == upper[k] then ids[k - 1] + 1 else 0
  }

  // The ids after i records of a pass, and the words kept for the next one.
  ghost predicate Passed(upper: seq<Labels>, ids0: seq<int>, ids: seq<int>, n: nat, i: nat, assign: bool, ct: int, last: seq<int>)
    requires Records(upper, ids0, n) && |ids| == |ids0| && 0 < i <= |ids|
  {
    && (forall k :: i <= k < |ids| ==> ids[k] == ids0[k])
    && (forall k :: 0 <= k < i && (!assign || ids0[k] != UNSET) ==> ids[k] == ids0[k])
    && |last| == n + 1 && last[..n] == upper[i - 1]
    && (last[n] == ids[i - 1] || (assign && last[n] == ids0[i - 1] == UNSET))
    && (assign ==> ct == ids[i - 1] + 1 && 0 <= ids[i - 1] < UNSET - |ids| + i)
    && (assign ==> forall k :: 0 <= k < i ==> InTurn(upper, ids0, ids, k))
    && (!assign ==> last[n] == ids[i - 1])
    && Ordered(Rows(upper, ids)[..i], n + 1) && Distinct(Rows(upper, ids)[..i])
  }

  lemma NextInTurn(upper: seq<Labels>, ids0: seq<int>, ids: seq<int>, i: nat, start: int, ids': seq<int>)
    requires |upper| == |ids0| == |ids| && 0 < i < |ids| && ids[i] == ids0[i] && ids' == ids[i := NewId(ids[i], start)]
    requires start == if upper[i - 1] == upper[i] then ids[i - 1] + 1 else 0
    requires forall k :: 0 <= k < i ==> InTurn(upper, ids0, ids, k)
    ensures forall k :: 0 <= k <= i ==> InTurn(upper, ids0, ids', k)
  {
    forall k | 0 <= k <= i ensures InTurn(upper, ids0, ids', k) {
      assert k < i ==> InTurn(upper, ids0, ids, k);
    }
  }

  // One more record that differs from its predecessor.
  lemma PassedNext(upper: seq<Labels>, ids0: seq<int>, ids: seq<int>, n: nat, i: nat, assign: bool, ct: int, last: seq<int>,
                   ids': seq<int>, ct': int, last': seq<int>, level: nat)
    requires Records(upper, ids0, n) && |ids| == |ids0| && 0 < i < |ids|
    requires Passed(upper, ids0, ids, n, i, assign, ct, last) && level <= n && |ids'| == |ids|
    requires Recorded(upper[i], i, assign, ct, ids, last, level, ct', ids', last')
    ensures Passed(upper, ids0, ids', n, i + 1, assign, ct', last')
    ensures level == Diff(Row(upper, ids, i - 1), Row(upper, ids', i))
    ensures Rows(upper, ids')[..i + 1] == Rows(upper, ids)[..i] + [Row(upper, ids', i)]
    ensures LexLe(Row(upper, ids, i - 1), Row(upper, ids', i))
  {
    var h := i - 1;
    assert LexLe(Rows(upper, ids0)[h], Rows(upper, ids0)[i]);
    RowOrder(upper[h], ids0[h], upper[i], ids0[i]);
    RowOrder(upper[h], ids[h], upper[i], ids'[i]);
    var t, a := Rows(upper, ids)[..i], Row(upper, ids', i);
    assert Rows(upper, ids')[..i + 1] == t + [a];
    assert t[|t| - 1] == Row(upper, ids, h);
    if assign { NextInTurn(upper, ids0, ids, i, if last[..n] != upper[i] then 0 else ct, ids'); }
    OrderedNext(t, a, n + 1);
    DistinctNext(t, a, n + 1);
    assert last'[..n] == upper[i];
  }

  // A record equal to its predecessor: with thread ids given they clash, and with
  // ids to be handed out nothing else can be equal.
  lemma SameRecord(upper: seq<Labels>, ids0: seq<int>, ids: seq<int>, n: nat, i: nat, assign: bool, ct: int, last: seq<int>,
                   ids': seq<int>, ct': int, last': seq<int>, level: nat)
    requires Records(upper, ids0, n) && |ids| == |ids0| && 0 < i < |ids|
    requires Passed(upper, ids0, ids, n, i, assign, ct, last) && level == n + 1 && |ids'| == |ids|
    requires Recorded(upper[i], i, assign, ct, ids, last, level, ct', ids', last')
    ensures assign || ids'[i] != UNSET ==> Clash(upper, ids0, i - 1, i)
    ensures !assign ==> Row(upper, ids0, i - 1) == Row(upper, ids0, i)
  {
    var h := i - 1;
    assert LexLe(Rows(upper, ids0)[h], Rows(upper, ids0)[i]);
    RowOrder(upper[h], ids0[h], upper[i], ids0[i]);
  }

  // Counters that lag behind: the family at hand is not yet in maxCt.
  ghost predicate Tallies(t: seq<Labels>, depth: nat, totals: seq<int>, counts: seq<int>, maxCt: seq<int>)
    requires Table(t, depth) && t != []
  {
    && |totals| == |counts| == |maxCt| == depth
    && forall l :: 0 <= l < depth ==> TalliedAt(t, depth, l, totals[l], counts[l], maxCt[l])
  }

  ghost predicate TalliedAt(t: seq<Labels>, depth: nat, l: nat, total: int, count: int, max: int)
    requires Table(t, depth) && t != [] && l < depth
  {
    CountedAt(t, depth, l, total, count, Max(max, count))
  }

  lemma TalliesNext(t: seq<Labels>, a: Labels, depth: nat, totals: seq<int>, counts: seq<int>, maxCt: seq<int>,
                    totals': seq<int>, counts': seq<int>, maxCt': seq<int>)
    requires Table(t, depth) && Ordered(t, depth) && t != [] && |a| == depth && LexLe(t[|t| - 1], a)
    requires Tallies(t, depth, totals, counts, maxCt) && |totals'| == |counts'| == |maxCt'| == depth
    requires Tallied(Diff(t[|t| - 1], a), totals, counts, maxCt, totals', counts', maxCt')
    ensures Tallies(t + [a], depth, totals', counts', maxCt')
  {
    forall l | 0 <= l < depth ensures TalliedAt(t + [a], depth, l, totals'[l], counts'[l], maxCt'[l]) {
      assert TalliedAt(t, depth, l, totals[l], counts[l], maxCt[l]);
      assert StepOf(l, Diff(t[|t| - 1], a), totals[l], counts[l], maxCt[l], totals'[l], counts'[l], maxCt'[l]);
      TalliedNext(t, a, depth, l, totals[l], counts[l], maxCt[l], totals'[l], counts'[l], maxCt'[l]);
    }
  }

  lemma TalliedNext(t: seq<Labels>, a: Labels, depth: nat, l: nat,
                    total: int, count: int, max: int, total': int, count': int, max': int)
    requires Table(t, depth) && Ordered(t, depth) && t != [] && |a| == depth && l < depth && LexLe(t[|t| - 1], a)
    requires TalliedAt(t, depth, l, total, count, max)
    requires StepOf(l, Diff(t[|t| - 1], a), total, count, max, total', count', max')
    ensures TalliedAt(t + [a], depth, l, total', count', max')
  {
    OrderedNext(t, a, depth);
    CountStep(t, a, depth, l, total, count, Max(max, count));
  }

  /** One pass over the sorted records. It counts the levels when all records
      come out different; it rejects only records that clash; and it asks for
      another pass only when it was not numbering threads itself. */
  method Pass(upper: seq<Labels>, n: nat, ids: array<int>, assign: bool)
    returns (outcome: Outcome, totals: array<int>, maxCt: array<int>)
    requires Records(upper, ids[..], n)
    modifies ids
    ensures outcome == NotUnique ==> exists i, j :: Clash(upper, old(ids[..]), i, j)
    ensures outcome == Restart ==> !assign && !Distinct(Rows(upper, old(ids[..])))
    ensures !assign ==> ids[..] == old(ids[..])
    ensures outcome == Counts ==> Numbered(upper, old(ids[..]), ids[..], n, totals, maxCt)
    ensures outcome == Counts && assign ==> AllInTurn(upper, old(ids[..]), ids[..])
    ensures fresh(totals) && fresh(maxCt)
  {
    ghost var ids0 := ids[..];
    var ct := 0;
    if assign {
      ct := AssignId(ids, 0, ct);
    }
    var first := upper[0] + [ids[0]];
    totals := new int[n + 1](_ => 1);
    maxCt := new int[n + 1](_ => 1);
    var counts := new int[n + 1](_ => 1);
    var lastId := new int[n + 1](i requires 0 <= i < |first| => first[i]);
    assert lastId[..] == first && lastId[..n] == upper[0];
    assert totals[..] == counts[..] == maxCt[..];
    PassStarts(upper, ids0, ids[..], n, assign, ct, first, totals[..]);
    outcome := Scan(upper, ids0, n, ids, assign, ct, totals, counts, maxCt, lastId);
  }

  method Scan(upper: seq<Labels>, ghost ids0: seq<int>, n: nat, ids: array<int>, assign: bool, ct0: int,
              totals: array<int>, counts: array<int>, maxCt: array<int>, lastId: array<int>) returns (outcome: Outcome)
    requires Records(upper, ids0, n)
    requires Separate(ids, totals, counts, maxCt, lastId) && totals.Length == n + 1
    requires PassState(upper, ids0, n, 1, assign, ct0, ids[..], lastId[..], totals[..], counts[..], maxCt[..])
    modifies ids, totals, counts, maxCt, lastId
    ensures outcome == NotUnique ==> exists i, j :: Clash(upper, ids0, i, j)
    ensures outcome == Restart ==> !assign && !Distinct(Rows(upper, ids0))
    ensures !assign ==> ids[..] == ids0
    ensures outcome == Counts ==> Numbered(upper, ids0, ids[..], n, totals, maxCt)
    ensures outcome == Counts && assign ==> AllInTurn(upper, ids0, ids[..])
  {
    var i, ct := 1, ct0;
    while i < ids.Length
      invariant 1 <= i <= ids.Length == |ids0|
      invariant PassState(upper, ids0, n, i, assign, ct, ids[..], lastId[..], totals[..], counts[..], maxCt[..])
    {
      var found;
      found, ct := PassRecord(upper, ids0, n, ids, i, assign, ct, totals, counts, maxCt, lastId);
      if !found {
        ghost var before := i - 1;
        assert assign || ids[i] != UNSET ==> Clash(upper, ids0, before, i);
        assert !assign ==> Rows(upper, ids0)[before] == Rows(upper, ids0)[i];
        return if ids[i] != UNSET || assign then NotUnique else Restart;
      }
      i := i + 1;
    }
    assert i == |ids0|;
    Finish(upper, ids0, n, ids, assign, ct, totals, counts, maxCt, lastId);
    outcome := Counts;
  }

  method Finish(upper: seq<Labels>, ghost ids0: seq<int>, n: nat, ids: array<int>, assign: bool, ghost ct: int,
                totals: array<int>, counts: array<int>, maxCt: array<int>, lastId: array<int>)
    requires Records(upper, ids0, n)
    requires Separate(ids, totals, counts, maxCt, lastId) && totals.Length == n + 1
    requires PassState(upper, ids0, n, |ids0|, assign, ct, ids[..], lastId[..], totals[..], counts[..], maxCt[..])
    modifies maxCt
    ensures Numbered(upper, ids0, ids[..], n, totals, maxCt) && (assign ==> AllInTurn(upper, ids0, ids[..]))
  {
    ghost var m := maxCt[..];
    Close(counts, maxCt);
    PassEnds(upper, ids0, n, assign, ct, ids[..], lastId[..], totals, counts[..], m, maxCt);
  }

  lemma PassEnds(upper: seq<Labels>, ids0: seq<int>, n: nat, assign: bool, ct: int, ids: seq<int>, last: seq<int>,
                 totals: array<int>, counts: seq<int>, m: seq<int>, maxCt: array<int>)
    requires Records(upper, ids0, n) && totals.Length == maxCt.Length == n + 1
    requires PassState(upper, ids0, n, |ids0|, assign, ct, ids, last, totals[..], counts, m)
    requires forall l :: 0 <= l <= n ==> maxCt[l] == Max(m[l], counts[l])
    ensures Numbered(upper, ids0, ids, n, totals, maxCt)
  {
    var t := Rows(upper, ids);
    assert t[..|ids0|] == t;
    forall l | 0 <= l <= n ensures totals[l] == |Nodes(t, l + 1)| && LargestFamily(t, l, maxCt[l]) {
      assert TalliedAt(t, n + 1, l, totals[..][l], counts[l], m[l]);
    }
  }

  ghost predicate AllInTurn(upper: seq<Labels>, ids0: seq<int>, ids: seq<int>) {
    |upper| == |ids0| == |ids| && forall k :: 0 <= k < |ids| ==> InTurn(upper, ids0, ids, k)
  }

  // The outcome of a successful pass: all records different and in order, given ids kept, levels counted.
  ghost predicate Numbered(upper: seq<Labels>, ids0: seq<int>, ids: seq<int>, n: nat, totals: array<int>, maxCt: array<int>)
    requires Records(upper, ids0, n)
    reads totals, maxCt
  {
    && |ids| == |ids0| && (forall k :: 0 <= k < |ids| && ids0[k] != UNSET ==> ids[k] == ids0[k])
    && Ordered(Rows(upper, ids), n + 1) && Distinct(Rows(upper, ids))
    && totals.Length == maxCt.Length == n + 1
    && forall l :: 0 <= l <= n ==>
         totals[l] == |Nodes(Rows(upper, ids), l + 1)| && LargestFamily(Rows(upper, ids), l, maxCt[l])
  }

  lemma PassStarts(upper: seq<Labels>, ids0: seq<int>, ids: seq<int>, n: nat, assign: bool, ct: int,
                   first: seq<int>, ones: seq<int>)
    requires Records(upper, ids0, n) && |ids| == |ids0| && first == upper[0] + [ids[0]]
    requires ids == (if assign then ids0[0 := NewId(ids0[0], 0)] else ids0) && (assign ==> ct == NewCt(ids0[0], 0))
    requires |ones| == n + 1 && forall l :: 0 <= l <= n ==> ones[l] == 1
    ensures Passed(upper, ids0, ids, n, 1, assign, ct, first)
    ensures Tallies(Rows(upper, ids)[..1], n + 1, ones, ones, ones)
  {
    var depth := n + 1;
    assert Rows(upper, ids)[..1] == [first];
    forall l | 0 <= l < depth ensures TalliedAt([first], depth, l, ones[l], ones[l], ones[l]) { CountFirst(first, depth, l); }
  }

  // The state of a pass before record i.
  ghost predicate PassState(upper: seq<Labels>, ids0: seq<int>, n: nat, i: nat, assign: bool, ct: int,
                            ids: seq<int>, last: seq<int>, totals: seq<int>, counts: seq<int>, maxCt: seq<int>)
    requires Records(upper, ids0, n) && 0 < i <= |ids0|
  {
    && |ids| == |ids0| && Passed(upper, ids0, ids, n, i, assign, ct, last)
    && Tallies(Rows(upper, ids)[..i], n + 1, totals, counts, maxCt)
    && (!assign ==> ids == ids0)
  }

  lemma PassStateNext(upper: seq<Labels>, ids0: seq<int>, n: nat, i: nat, assign: bool, ct: int,
                      ids: seq<int>, last: seq<int>, totals: seq<int>, counts: seq<int>, maxCt: seq<int>, level: nat,
                      ct': int, ids': seq<int>, last': seq<int>, totals': seq<int>, counts': seq<int>, maxCt': seq<int>)
    requires Records(upper, ids0, n) && 0 < i < |ids0| == |ids'| && |last| == n + 1 && |ids| == |ids'|
    requires PassState(upper, ids0, n, i, assign, ct, ids, last, totals, counts, maxCt)
    requires Recorded(upper[i], i, assign, ct, ids, last, level, ct', ids', last') && level <= n
    requires |totals| == |counts| == |maxCt| == |totals'| == |counts'| == |maxCt'| == n + 1
    requires Tallied(level, totals, counts, maxCt, totals', counts', maxCt')
    ensures PassState(upper, ids0, n, i + 1, assign, ct', ids', last', totals', counts', maxCt')
  {
    var t, a := Rows(upper, ids)[..i], Row(upper, ids', i);
    assert t[|t| - 1] == Row(upper, ids, i - 1);
    assert Passed(upper, ids0, ids', n, i + 1, assign, ct', last') && Rows(upper, ids')[..i + 1] == t + [a]
      && level == Diff(t[|t| - 1], a) && LexLe(t[|t| - 1], a) by
    {
      PassedNext(upper, ids0, ids, n, i, assign, ct, last, ids', ct', last', level);
    }
    assert Tallies(t + [a], n + 1, totals', counts', maxCt') by {
      TalliesNext(t, a, n + 1, totals, counts, maxCt, totals', counts', maxCt');
    }
  }

  // Record i of a pass, with what it means.
  method PassRecord(upper: seq<Labels>, ghost ids0: seq<int>, n: nat, ids: array<int>, i: nat, assign: bool, ct0: int,
                    totals: array<int>, counts: array<int>, maxCt: array<int>, lastId: array<int>) returns (found: bool, ct: int)
    requires Records(upper, ids0, n) && 0 < i < |ids0|
    requires Separate(ids, totals, counts, maxCt, lastId) && totals.Length == n + 1
    requires PassState(upper, ids0, n, i, assign, ct0, ids[..], lastId[..], totals[..], counts[..], maxCt[..])
    modifies ids, totals, counts, maxCt, lastId
    ensures found ==> PassState(upper, ids0, n, i + 1, assign, ct, ids[..], lastId[..], totals[..], counts[..], maxCt[..])
    ensures !found && (assign || ids[i] != UNSET) ==> Clash(upper, ids0, i - 1, i)
    ensures !found && !assign ==> ids[..] == ids0 && Row(upper, ids0, i - 1) == Row(upper, ids0, i)
  {
    ghost var idsB, lastB := ids[..], lastId[..];
    ghost var t0, c0, m0 := totals[..], counts[..], maxCt[..];
    var level;
    level, ct := Record(upper[i], ids, i, assign, ct0, totals, counts, maxCt, lastId);
    found := level <= n;
    if found {
      PassStateNext(upper, ids0, n, i, assign, ct0, idsB, lastB, t0, c0, m0, level,
                    ct, ids[..], lastId[..], totals[..], counts[..], maxCt[..]);
    } else {
      SameRecord(upper, ids0, idsB, n, i, assign, ct0, lastB, ids[..], ct, lastId[..], level);
    }
  }

  /** The whole count: at most one restart; it succeeds exactly when no two
      records with the same upper levels give the same thread id, and then the
      thread ids that were missing have been filled in, unless all records differ
      without them, each with the next number in its core. */
  method CountRecords(upper: seq<Labels>, n: nat, ids: array<int>) returns (ok: bool, totals: array<int>, maxCt: array<int>)
    requires Records(upper, ids[..], n)
    modifies ids
    ensures ok <==> forall i, j :: !Clash(upper, old(ids[..]), i, j)
    ensures ok ==> Numbered(upper, old(ids[..]), ids[..], n, totals, maxCt)
    ensures ok ==> if Distinct(Rows(upper, old(ids[..]))) then ids[..] == old(ids[..]) else AllInTurn(upper, old(ids[..]), ids[..])
  {
    var outcome;
    outcome, totals, maxCt := Pass(upper, n, ids, false);
    if outcome == Restart {
      outcome, totals, maxCt := Pass(upper, n, ids, true);
    }
    ok := outcome == Counts;
    if ok { NumberedNoClash(upper, old(ids[..]), ids[..], n, totals, maxCt); }
  }

  lemma NumberedNoClash(upper: seq<Labels>, ids0: seq<int>, ids: seq<int>, n: nat, totals: array<int>, maxCt: array<int>)
    requires Records(upper, ids0, n) && Numbered(upper, ids0, ids, n, totals, maxCt)
    ensures forall i, j :: !Clash(upper, ids0, i, j)
  {
    forall i, j ensures !Clash(upper, ids0, i, j) {
      if 0 <= i < j < |ids| { assert Rows(upper, ids)[i] != Rows(upper, ids)[j]; }
    }
  }

  /** The test on the product of the packages and the largest families below
      them, finest level first: true exactly when at each level all nodes have
      equally many children. */
  method UniformMachine(ghost upper: seq<Labels>, ghost ids0: seq<int>, ghost ids: seq<int>, n: nat,
                        totals: array<int>, maxCt: array<int>) returns (uniform: bool)
    requires Records(upper, ids0, n) && Numbered(upper, ids0, ids, n, totals, maxCt)
    ensures uniform <==> UniformTo(Rows(upper, ids), maxCt[..], n + 1)
  {
    ghost var t, m := Rows(upper, ids), maxCt[..];
    assert m[..n + 1] == m;
    MultipliedStart(m, totals[0]);
    var prod, level := totals[0], n;
    while level > 0
      invariant 0 <= level <= n && Multiplied(m, totals[0], level, prod)
    {
      MultipliedNext(m, totals[0], level, prod);
      prod := prod * maxCt[level];
      level := level - 1;
    }
    assert LargestFamily(t, 0, maxCt[0]);
    FirstLevel(t, maxCt[0]);
    MultipliedAll(m, prod);
    ProductBound(t, m, n + 1);
    uniform := prod == totals[n];
  }
}
