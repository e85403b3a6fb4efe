/** Printing an affinity mask as a list of processors, and reading the list back. */
module MaskPrinter {
  import opened Options
  import opened ProcList

  const BITS := 8   // BITS_PER_MASK_T

  // 1 << k in a mask byte.
  function Bit(k: nat): bv8
    requires k < BITS
  {
    match k
    case 0 => 1 case 1 => 2 case 2 => 4 case 3 => 8 case 4 => 16 case 5 => 32 case 6 => 64 case _ => 128
  }

  predicate HasBit(b: bv8, k: nat)
    requires k < BITS
  {
    b & Bit(k) != 0
  }

  lemma SetBit(b: bv8, k: nat)
    requires k < BITS
    ensures forall l: nat :: l < BITS ==> (HasBit(b | Bit(k), l) <==> k == l || HasBit(b, l))
  {
  }

  lemma ClearBit(b: bv8, k: nat)
    requires k < BITS
    ensures forall l: nat :: l < BITS ==> (HasBit(b & !Bit(k), l) <==> k != l && HasBit(b, l))
  {
    forall l: nat | l < BITS ensures HasBit(b & !Bit(k), l) <==> k != l && HasBit(b, l) { ClearOneBit(b, k, l); }
  }

  lemma ClearOneBit(b: bv8, k: nat, l: nat)
    requires k < BITS && l < BITS
    ensures HasBit(b & !Bit(k), l) <==> k != l && HasBit(b, l)
  {
    BitMasks(b, Bit(k), Bit(l));
  }

  lemma BitMasks(b: bv8, x: bv8, y: bv8)
    ensures x & y == 0 ==> b & !x & y == b & y
    ensures b & !x & x == 0
  {
  }

  // KMPNativeAffinity::Mask
  class Mask {
    const mask: array<bv8>
    const end: nat          // end()
    ghost var members: set<int>

    ghost predicate Valid()
      reads this, mask
    {
      && end == mask.Length * BITS && (forall i :: i in members ==> 0 <= i < end)
      && forall i: nat :: i < end ==> (i in members <==> HasBit(mask[i / BITS], i % BITS))
    }

    constructor (size: nat)
      ensures Valid() && end == size * BITS && fresh(mask) && members == {}
    {
      mask := new bv8[size](_ => 0);
      end := size * BITS;
      members := {};
    }

    method IsSet(i: nat) returns (isSet: bool)
      requires Valid() && i < end
      ensures isSet <==> i in members
    {
      isSet := mask[i / BITS] & Bit(i % BITS) != 0;
    }

    method Set(i: nat)
      requires Valid() && i < end
      modifies this`members, mask
      ensures Valid() && members == old(members) + {i}
    {
      var word, bit := i / BITS, i % BITS;
      SetBit(mask[word], bit);
      mask[word] := mask[word] | Bit(bit);
      members := members + {i};
    }

    method Clear(i: nat)
      requires Valid() && i < end
      modifies this`members, mask
      ensures Valid() && members == old(members) - {i}
    {
      var word, bit := i / BITS, i % BITS;
      ClearBit(mask[word], bit);
      mask[word] := mask[word] & !Bit(bit);
      members := members - {i};
    }

    method Begin() returns (i: nat)
      requires Valid()
      ensures i <= end && (i < end ==> i in members) && forall j :: 0 <= j < i ==> j !in members
    {
      i := Search(0);
    }

    method Next(previous: nat) returns (i: nat)
      requires Valid() && previous < end
      ensures previous < i <= end && (i < end ==> i in members) && forall j :: previous < j < i ==> j !in members
    {
      i := Search(previous + 1);
    }

    // The loop of both.
    method Search(from: nat) returns (i: nat)
      requires Valid() && from <= end
      ensures from <= i <= end && (i < end ==> i in members) && forall j :: from <= j < i ==> j !in members
    {
      i := from;
      while i < end
        invariant from <= i <= end && forall j :: from <= j < i ==> j !in members
      {
        var found := IsSet(i);
        if found {
          break;
        }
        i := i + 1;
      }
    }
  }

  // The members of a mask of `end` bits from number `from` on, in ascending order.
  ghost function Ids(members: set<int>, from: nat, end: nat): seq<int>
    decreases end - from
  {
    if from >= end then [] else
      var rest := Ids(members, from + 1, end);
      if from in members then [from] + rest else rest
  }

  ghost predicate Ascending(ids: seq<int>) {
    (forall k :: 0 <= k < |ids| ==> ids[k] >= 0) && forall k, l :: 0 <= k < l < |ids| ==> ids[k] < ids[l]
  }

  /** They are exactly the members, in ascending order. */
  lemma {:induction false} IdsAre(members: set<int>, from: nat, end: nat)
    ensures Ascending(Ids(members, from, end)) && (Ids(members, from, end) != [] ==> Ids(members, from, end)[0] >= from)
    ensures forall i :: i in Ids(members, from, end) <==> from <= i < end && i in members
    decreases end - from
  {
    if from < end {
      IdsAre(members, from + 1, end);
      var rest := Ids(members, from + 1, end);
      assert forall k :: 0 <= k < |rest| ==> rest[k] in rest;
    }
  }

  lemma {:induction false} SkipUnset(members: set<int>, from: nat, to: nat, end: nat)
    requires from <= to <= end && forall j :: from <= j < to ==> j !in members
    ensures Ids(members, from, end) == Ids(members, to, end)
    decreases end - from
  {
    if from < to { SkipUnset(members, from + 1, to, end); }
  }

  lemma OneSet(members: set<int>, i: nat, next: nat, end: nat)
    requires i < next <= end && i in members && forall j :: i < j < next ==> j !in members
    ensures Ids(members, i, end) == [i] + Ids(members, next, end)
  {
    SkipUnset(members, i + 1, next, end);
  }

  // ---------- the text ----------

  function DigitChar(d: nat): (c: char)
    requires d < 10
    ensures IsDigit(c) && Digit(c) == d
  {
    (('0' as int) + d) as char
  }

  // "%d" for a number that is not negative.
  function Dec(n: nat): (s: string)
    ensures s != "" && forall k :: 0 <= k < |s| ==> IsDigit(s[k])
    ensures Value(s) == n
  {
    if n < 10 then
      assert [DigitChar(n)][..0] == "";
      [DigitChar(n)]
    else
      var s := Dec(n / 10) + [DigitChar(n % 10)];
      assert s[..|s| - 1] == Dec(n / 10);
      s
  }

  // A run of consecutive processors: up to two of them one by one, more as a range.
  function RunText(first: nat, last: nat): string {
    if last - first > 1 then Dec(first) + "-" + Dec(last)
    else if last - first > 0 then Dec(first) + "," + Dec(last)
    else Dec(first)
  }

  // How many of the ids at the start are consecutive.
  function RunLength(ids: seq<int>): (n: nat)
    requires ids != []
    ensures 1 <= n <= |ids| && forall k :: 0 <= k < n ==> ids[k] == ids[0] + k
    ensures n < |ids| ==> ids[n] != ids[0] + n
  {
    if |ids| > 1 && ids[1] == ids[0] + 1 then
      var n := RunLength(ids[1..]);
      assert forall k :: 0 < k < n + 1 ==> ids[k] == ids[1..][k - 1];
      1 + n
    else 1
  }

  function Text(ids: seq<int>): string
    requires forall k :: 0 <= k < |ids| ==> ids[k] >= 0
    decreases |ids|, 0
  {
    if ids == [] then "" else
      var n := RunLength(ids);
      RunText(ids[0], ids[n - 1]) + Tail(ids[n..])
  }

  // What the text goes on with after a run.
  function Tail(more: seq<int>): (s: string)
    requires forall k :: 0 <= k < |more| ==> more[k] >= 0
    ensures (s == "" || s[0] == ',') && SkipComma(s) == Text(more)
    decreases |more|, 1
  {
    if more == [] then "" else "," + Text(more)
  }

  // ---------- the printer ----------

  // Processors first, first + 1, ..., last.
  function Consecutive(first: int, last: int): (r: seq<int>)
    requires first <= last + 1
    ensures |r| == last - first + 1 && forall k :: 0 <= k < |r| ==> r[k] == first + k
    decreases last - first + 1
  {
    if first > last then [] else Consecutive(first, last - 1) + [last]
  }

  // A run followed by something that does not continue it.
  lemma {:induction false} RunOf(first: int, last: int, rest: seq<int>)
    requires first <= last && (rest != [] ==> rest[0] > last + 1)
    ensures RunLength(Consecutive(first, last) + rest) == last - first + 1
    decreases last - first
  {
    var ids := Consecutive(first, last) + rest;
    if first < last {
      RunOf(first + 1, last, rest);
      assert ids[1..] == Consecutive(first + 1, last) + rest;
    }
  }

  lemma AscendingJoin(first: int, last: int, rest: seq<int>)
    requires 0 <= first <= last && Ascending(rest) && (rest != [] ==> rest[0] > last + 1)
    ensures Ascending(Consecutive(first, last) + rest)
  {
    var run := Consecutive(first, last);
    var ids := run + rest;
    forall k, l | 0 <= k < l < |ids| ensures ids[k] < ids[l] {
      if l >= |run| {
        assert ids[l] == rest[l - |run|] >= rest[0];
        if k >= |run| { assert ids[k] == rest[k - |run|]; }
      }
    }
  }

  lemma TextOfRun(first: int, last: int, rest: seq<int>)
    requires 0 <= first <= last && Ascending(rest) && (rest != [] ==> rest[0] > last + 1)
    ensures var ids := Consecutive(first, last) + rest;
            Ascending(ids) && Text(ids) == RunText(first, last) + (if rest == [] then "" else "," + Text(rest))
  {
    AscendingJoin(first, last, rest);
    RunOf(first, last, rest);
    RunSplit(first, last, rest);
  }

  lemma RunSplit(first: int, last: int, rest: seq<int>)
    requires first <= last
    ensures var ids, n := Consecutive(first, last) + rest, last - first + 1;
            ids[0] == first && ids[n - 1] == last && ids[n..] == rest
  {
  }

  lemma ConsecutiveNext(first: int, last: int, rest: seq<int>)
    requires first <= last + 1
    ensures Consecutive(first, last) + ([last + 1] + rest) == Consecutive(first, last + 1) + rest
  {
  }

  lemma ConsecutiveOne(first: int, rest: seq<int>)
    ensures [first] + rest == Consecutive(first, first) + rest
  {
    assert Consecutive(first, first - 1) == [];
  }

  // The run that starts at processor `start`, and the next processor after it.
  method FindRange(mask: Mask, start: nat) returns (previous: nat, finish: nat)
    requires mask.Valid() && start in mask.members
    ensures start <= previous < finish <= mask.end && (finish < mask.end ==> finish in mask.members && finish > previous + 1)
    ensures Ids(mask.members, start, mask.end) == Consecutive(start, previous) + Ids(mask.members, finish, mask.end)
  {
    ghost var all, members := Ids(mask.members, start, mask.end), mask.members;
    finish := mask.Next(start);
    previous := start;
    OneSet(members, start, finish, mask.end);
    ConsecutiveOne(start, Ids(members, finish, mask.end));
    while finish == previous + 1 && finish != mask.end
      invariant start <= previous < finish <= mask.end && (finish < mask.end ==> finish in members)
      invariant all == Consecutive(start, previous) + Ids(members, finish, mask.end)
      decreases mask.end - finish
    {
      previous := finish;
      finish := mask.Next(finish);
      OneSet(members, previous, finish, mask.end);
      ConsecutiveNext(start, previous - 1, Ids(members, finish, mask.end));
    }
  }

  // A comma if this is not the first range, and the range.
  method PrintRange(buf0: string, firstRange: bool, start: nat, previous: nat) returns (buf: string)
    requires start <= previous
    ensures buf == buf0 + (if firstRange then "" else ",") + RunText(start, previous)
  {
    buf := buf0;
    if !firstRange {
      buf := buf + ",";
    } else {
      assert buf + "" == buf;
    }
    if previous - start > 1 {
      buf := buf + (Dec(start) + "-" + Dec(previous));
    } else {
      ghost var b := buf;
      buf := buf + Dec(start);
      if previous - start > 0 {
        buf := buf + ("," + Dec(previous));
        assert b + Dec(start) + ("," + Dec(previous)) == b + (Dec(start) + "," + Dec(previous));
      }
    }
  }

  lemma Join(a: string, b: string, c: string)
    ensures a + (b + ("," + c)) == a + b + "," + c
    ensures a + (b + "") == a + b
  {
  }

  // What is still to be printed when the next range starts at `start`.
  ghost predicate Printed(whole: string, buf: string, firstRange: bool, ids: seq<int>) {
    Ascending(ids) && ids != [] && whole == buf + (if firstRange then "" else ",") + Text(ids)
  }

  lemma PrintedNext(whole: string, buf: string, firstRange: bool, ids: seq<int>, start: nat, previous: nat, rest: seq<int>)
    requires Printed(whole, buf, firstRange, ids) && start <= previous
    requires ids == Consecutive(start, previous) + rest && Ascending(rest) && (rest != [] ==> rest[0] > previous + 1)
    ensures var buf' := buf + (if firstRange then "" else ",") + RunText(start, previous);
            if rest == [] then whole == buf' else Printed(whole, buf', false, rest)
  {
    TextOfRun(start, previous, rest);
    Join(buf + (if firstRange then "" else ","), RunText(start, previous), Text(rest));
  }

  /** __kmp_affinity_str_buf_mask: the runs of the mask, in ascending order. */
  method StrBufMask(mask: Mask) returns (buf: string)
    requires mask.Valid()
    ensures Ascending(Ids(mask.members, 0, mask.end))
    ensures buf == if mask.members == {} then "{<empty>}" else Text(Ids(mask.members, 0, mask.end))
  {
    ghost var members := mask.members;
    IdsAre(members, 0, mask.end);
    var start := mask.Begin();
    SkipUnset(members, 0, start, mask.end);
    if start == mask.end {
      assert members == {};
      return "{<empty>}";
    }
    ghost var whole := Text(Ids(members, 0, mask.end));
    buf := "";
    var firstRange := true;
    assert buf + "" + whole == whole;
    while true
      invariant start in members && start < mask.end
      invariant Printed(whole, buf, firstRange, Ids(members, start, mask.end))
      decreases mask.end - start
    {
      var previous, finish := FindRange(mask, start);
      IdsAre(members, finish, mask.end);
      StartsAt(members, finish, mask.end);
      PrintedNext(whole, buf, firstRange, Ids(members, start, mask.end), start, previous, Ids(members, finish, mask.end));
      buf := PrintRange(buf, firstRange, start, previous);
      firstRange := false;
      start := finish;
      if start == mask.end {
        break;
      }
    }
  }

  lemma StartsAt(members: set<int>, i: nat, end: nat)
    ensures i < end && i in members ==> Ids(members, i, end) != [] && Ids(members, i, end)[0] == i
    ensures i >= end ==> Ids(members, i, end) == []
  {
  }

  // ---------- reading the text back ----------

  predicate Ends(rest: string) {
    rest == "" || rest[0] == ',' || rest[0] == '-'
  }

  lemma {:induction false} DigitsUpTo(d: string, rest: string)
    requires (forall k :: 0 <= k < |d| ==> IsDigit(d[k])) && Ends(rest)
    ensures DigitCount(d + rest) == |d|
  {
    if d == "" {
      assert d + rest == rest;
    } else {
      DigitsUpTo(d[1..], rest);
      assert (d + rest)[1..] == d[1..] + rest;
    }
  }

  lemma NumberReadsDec(n: nat, rest: string)
    requires Ends(rest)
    ensures Number(Dec(n) + rest) == Some((n, rest))
    ensures SkipBlanks(Dec(n) + rest) == Dec(n) + rest && SkipBlanks(rest) == rest
  {
    var d := Dec(n);
    DigitsUpTo(d, rest);
    assert (d + rest)[..|d|] == d && (d + rest)[|d|..] == rest;
  }

  // One number, and what follows it.
  lemma ParseOne(os: seq<set<int>>, n: nat, rest: string)
    requires rest == "" || rest[0] == ','
    ensures Parse(os, Dec(n) + rest) == Before(MasksOf(os, [n]), Parse(os, SkipComma(rest)))
  {
    NumberReadsDec(n, rest);
    assert Dec(n)[0] == (Dec(n) + rest)[0];
  }

  lemma {:induction false} StepsByOne(first: int, last: int)
    requires first <= last + 1
    ensures Steps(first, last, 1) == Consecutive(first, last)
    decreases last - first
  {
    if first <= last {
      StepsByOne(first + 1, last);
      assert [first] + Consecutive(first + 1, last) == Consecutive(first, last);
    }
  }

  // The end of a range, after its '-'.
  lemma RangeEndRead(first: nat, last: nat, rest: string)
    requires first < last && (rest == "" || rest[0] == ',')
    ensures RangeEnd(first, Dec(last) + rest) ==
            if last - first <= RANGE_LIMIT then Some((Consecutive(first, last), SkipComma(rest))) else None
  {
    NumberReadsDec(last, rest);
    StepsByOne(first, last);
    assert Stride(rest) == Some((1, rest));
  }

  // A range: it is read back just if it is not too long.
  lemma ParseRange(os: seq<set<int>>, first: nat, last: nat, rest: string)
    requires first < last && (rest == "" || rest[0] == ',')
    ensures Parse(os, Dec(first) + "-" + Dec(last) + rest) ==
            if last - first <= RANGE_LIMIT then Before(MasksOf(os, Consecutive(first, last)), Parse(os, SkipComma(rest))) else None
  {
    var s, t := Dec(first) + "-" + Dec(last) + rest, "-" + (Dec(last) + rest);
    assert s == Dec(first) + t && t[1..] == Dec(last) + rest;
    NumberReadsDec(first, t);
    RangeEndRead(first, last, rest);
    assert Item(s) == RangeEnd(first, Dec(last) + rest);
    assert Dec(first)[0] == s[0];
  }

  lemma ParsePair(os: seq<set<int>>, first: nat, rest: string)
    requires rest == "" || rest[0] == ','
    ensures Parse(os, Dec(first) + "," + Dec(first + 1) + rest) ==
            Before(MasksOf(os, Consecutive(first, first + 1)), Parse(os, SkipComma(rest)))
  {
    var more := "," + (Dec(first + 1) + rest);
    assert Dec(first) + "," + Dec(first + 1) + rest == Dec(first) + more;
    assert SkipComma(more) == Dec(first + 1) + rest;
    ParseOne(os, first, more);
    ParseOne(os, first + 1, rest);
    BeforePair(os, [first], [first + 1], Parse(os, SkipComma(rest)));
    ConsecutiveTwo(first);
  }

  lemma ConsecutiveTwo(first: int)
    ensures Consecutive(first, first + 1) == [first] + [first + 1]
    ensures Consecutive(first, first) == [first]
  {
    ConsecutiveOne(first, []);
    assert [first] + [] == [first] && Consecutive(first, first) + [] == Consecutive(first, first);
  }

  lemma BeforePair(os: seq<set<int>>, a: seq<int>, b: seq<int>, rest: Option<seq<set<int>>>)
    ensures Before(MasksOf(os, a), Before(MasksOf(os, b), rest)) == Before(MasksOf(os, a + b), rest)
  {
    MasksOfConcat(os, a, b);
    MoreBefore(MasksOf(os, a), MasksOf(os, b), rest);
  }

  lemma ParseRun(os: seq<set<int>>, first: nat, last: nat, rest: string)
    requires first <= last && (rest == "" || rest[0] == ',')
    ensures Parse(os, RunText(first, last) + rest) ==
            if last - first <= RANGE_LIMIT then Before(MasksOf(os, Consecutive(first, last)), Parse(os, SkipComma(rest))) else None
  {
    if last - first > 1 {
      ParseRange(os, first, last, rest);
    } else if last - first > 0 {
      ParsePair(os, first, rest);
    } else {
      ParseOne(os, first, rest);
      ConsecutiveTwo(first);
    }
  }

  // No run of processors is longer than a range may be.
  predicate RunsFit(ids: seq<int>) {
    ids == [] || (RunLength(ids) - 1 <= RANGE_LIMIT && RunsFit(ids[RunLength(ids)..]))
  }

  lemma {:induction false} CountedUp(a: seq<int>, first: int)
    requires forall k :: 0 <= k < |a| ==> a[k] == first + k
    ensures a == Consecutive(first, first + |a| - 1)
  {
    if a != [] {
      var m := |a| - 1;
      CountedUp(a[..m], first);
      assert a == a[..m] + [a[m]];
    }
  }

  lemma RunPrefix(ids: seq<int>, n: nat, first: int, last: int)
    requires ids != [] && n == RunLength(ids) && first == ids[0] && last == ids[n - 1]
    ensures first <= last == first + n - 1 && ids == Consecutive(first, last) + ids[n..]
  {
    CountedUp(ids[..n], first);
    assert ids == ids[..n] + ids[n..];
  }

  lemma RestAscends(ids: seq<int>, n: nat)
    requires Ascending(ids) && n <= |ids|
    ensures Ascending(ids[n..])
  {
  }

  lemma BeforeMasks(os: seq<set<int>>, a: seq<int>, b: seq<int>, ok: bool)
    ensures Before(MasksOf(os, a), if ok then Some(MasksOf(os, b)) else None) == if ok then Some(MasksOf(os, a + b)) else None
  {
    MasksOfConcat(os, a, b);
  }

  /** What is printed is read back as the masks of the same processors in
      ascending order, exactly when no run is longer than the parser's limit;
      a longer run makes the runtime stop. */
  lemma {:induction false} ParsePrinted(os: seq<set<int>>, ids: seq<int>)
    requires Ascending(ids)
    ensures Parse(os, Text(ids)) == if RunsFit(ids) then Some(MasksOf(os, ids)) else None
    decreases |ids|
  {
    if ids != [] {
      var n := RunLength(ids);
      var first, last, more := ids[0], ids[n - 1], ids[n..];
      RestAscends(ids, n);
      ParsePrinted(os, more);
      RunPrefix(ids, n, first, last);
      ParseFirstRun(os, first, last, more, RunsFit(more));
    }
  }

  lemma ParseFirstRun(os: seq<set<int>>, first: nat, last: nat, more: seq<int>, ok: bool)
    requires first <= last && forall k :: 0 <= k < |more| ==> more[k] >= 0
    requires Parse(os, Text(more)) == if ok then Some(MasksOf(os, more)) else None
    ensures Parse(os, RunText(first, last) + Tail(more)) ==
            if last - first <= RANGE_LIMIT && ok then Some(MasksOf(os, Consecutive(first, last) + more)) else None
  {
    ParseRun(os, first, last, Tail(more));
    BeforeMasks(os, Consecutive(first, last), more, ok);
  }

  // Processor ids[k] and the 65537 after it are all in the mask.
  predicate LongRunAt(ids: seq<int>, k: int) {
    0 <= k < k + RANGE_LIMIT + 1 < |ids| && ids[k + RANGE_LIMIT + 1] == ids[k] + RANGE_LIMIT + 1
  }

  /** The limit is met just if no 65538 consecutive processors are in the mask. */
  lemma {:induction false} RunsFitMeans(ids: seq<int>)
    requires Ascending(ids)
    ensures RunsFit(ids) <==> forall k :: !LongRunAt(ids, k)
    decreases |ids|
  {
    if ids != [] {
      var n := RunLength(ids);
      RunPrefix(ids, n, ids[0], ids[n - 1]);
      RestAscends(ids, n);
      RunsFitMeans(ids[n..]);
      if n - 1 > RANGE_LIMIT {
        assert LongRunAt(ids, 0);
      } else {
        forall k ensures LongRunAt(ids, k) <==> LongRunAt(ids[n..], k - n) { LongRunLater(ids, n, k); }
        assert RunsFit(ids) == RunsFit(ids[n..]);
        forall k | LongRunAt(ids[n..], k) ensures LongRunAt(ids, k + n) { LongRunLater(ids, n, k + n); }
      }
    }
  }

  lemma LongRunLater(ids: seq<int>, n: nat, k: int)
    requires Ascending(ids) && ids != [] && n == RunLength(ids) <= RANGE_LIMIT + 1
    ensures LongRunAt(ids, k) <==> LongRunAt(ids[n..], k - n)
  {
    if 0 <= k < n && k + RANGE_LIMIT + 1 < |ids| { Gap(ids, k, n, k + RANGE_LIMIT + 1); }
  }

  // Past the end of a run the numbers are further apart.
  lemma {:induction false} Gap(ids: seq<int>, k: nat, n: nat, l: nat)
    requires Ascending(ids) && ids != [] && n == RunLength(ids) && k < n <= l < |ids|
    ensures ids[l] > ids[k] + (l - k)
    decreases l
  {
    if l > n {
      Gap(ids, k, n, l - 1);
    } else {
      var h := n - 1;
      assert ids[h] == ids[0] + h && ids[k] == ids[0] + k && ids[h] < ids[n];
    }
  }

  /** The masks that come back are those of the processors, one by one. */
  lemma {:induction false} AllKnown(os: seq<set<int>>, ids: seq<int>)
    requires forall k :: 0 <= k < |ids| ==> Known(os, ids[k])
    ensures |MasksOf(os, ids)| == |ids|
    ensures forall k :: 0 <= k < |ids| ==> Known(os, ids[k]) && MasksOf(os, ids)[k] == os[ids[k]]
  {
    if ids != [] {
      var n := |ids| - 1;
      AllKnown(os, ids[..n]);
      assert Known(os, ids[n]);
      forall k | 0 <= k < n ensures MasksOf(os, ids)[k] == os[ids[k]] { assert ids[..n][k] == ids[k]; }
    }
  }

  /** Printing a mask of known processors and parsing the text gives their masks in
      ascending order, each once; it fails just if a run of the mask is too long. */
  lemma RoundTrip(os: seq<set<int>>, members: set<int>, end: nat)
    requires members != {} && forall i :: i in members ==> 0 <= i < end && Known(os, i)
    ensures Ascending(Ids(members, 0, end))
    ensures forall i :: i in Ids(members, 0, end) <==> i in members
    ensures var ids := Ids(members, 0, end);
            var r := Parse(os, Text(ids));
            && (r.Some? <==> forall k :: !LongRunAt(ids, k))
            && (r.Some? ==> |r.value| == |ids| && forall k :: 0 <= k < |ids| ==> Known(os, ids[k]) && r.value[k] == os[ids[k]])
  {
    var ids := Ids(members, 0, end);
    IdsAre(members, 0, end);
    ParsePrinted(os, ids);
    RunsFitMeans(ids);
    AllKnown(os, ids);
  }

  /** What is printed for the empty mask cannot be parsed. */
  lemma EmptyMaskFails(os: seq<set<int>>)
    ensures Parse(os, "{<empty>}") == None
  {
    var s := "{<empty>}";
    assert SkipBlanks(s) == s && SkipBlanks(s[1..]) == s[1..];
    assert s[1..][0] == '<';
  }

  /** Nor can the text for the processors 0 to 65537. */
  lemma LongRunFails(os: seq<set<int>>)
    ensures Parse(os, Text(Consecutive(0, RANGE_LIMIT + 1))) == None
  {
    var ids := Consecutive(0, RANGE_LIMIT + 1);
    ParsePrinted(os, ids);
    RunsFitMeans(ids);
    assert LongRunAt(ids, 0);
  }
}
