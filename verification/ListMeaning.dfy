/** What lists of processors mean, told from the text: ranges with strides, sets in
    braces, and which masks are printed with a range. */
module ListMeaning {
  import opened MaskPrinter
  import opened Options
  import opened ProcList

  // ---------- ranges with strides ----------

  lemma StepAt(start: int, stride: int, k: int)
    ensures start + stride + (k - 1) * stride == start + k * stride
  {
  }

  /** The numbers of a range: from its start on, a stride apart, none of them past its end. */
  lemma {:induction false} StepsAre(start: int, end: int, stride: int)
    requires stride != 0
    ensures forall k :: 0 <= k < |Steps(start, end, stride)| ==> Steps(start, end, stride)[k] == start + k * stride
    ensures var n := |Steps(start, end, stride)|;
            if stride > 0 then (n > 0 ==> start + (n - 1) * stride <= end) && start + n * stride > end
            else (n > 0 ==> start + (n - 1) * stride >= end) && start + n * stride < end
    decreases if stride > 0 then end - start else start - end
  {
    var s := Steps(start, end, stride);
    if s != [] {
      StepsAre(start + stride, end, stride);
      var t := Steps(start + stride, end, stride);
      assert s == [start] + t;
      StepAt(start, stride, |s|);
      StepAt(start, stride, |s| - 1);
      forall k | 0 <= k < |s| ensures s[k] == start + k * stride {
        StepAt(start, stride, k);
        if k > 0 { assert s[k] == t[k - 1] == start + stride + (k - 1) * stride; }
      }
    }
  }

  // A number is read up to what is not a digit.
  lemma {:induction false} DigitsEnd(d: string, rest: string)
    requires (forall k :: 0 <= k < |d| ==> IsDigit(d[k])) && !StartsWithDigit(rest)
    ensures DigitCount(d + rest) == |d|
  {
    if d == "" {
      assert d + rest == rest;
    } else {
      DigitsEnd(d[1..], rest);
      assert (d + rest)[1..] == d[1..] + rest;
    }
  }

  lemma Reads(n: nat, rest: string)
    requires !StartsWithDigit(rest)
    ensures Number(Dec(n) + rest) == Some((n, rest)) && SkipBlanks(Dec(n) + rest) == Dec(n) + rest
    ensures StartsWithDigit(Dec(n) + rest) && SkipComma(Dec(n) + rest) == Dec(n) + rest
  {
    var d := Dec(n);
    DigitsEnd(d, rest);
    assert (d + rest)[..|d|] == d && (d + rest)[|d|..] == rest && (d + rest)[0] == d[0];
  }

  lemma NoBlank(s: string)
    requires s == "" || !IsBlank(s[0])
    ensures SkipBlanks(s) == s
  {
  }

  predicate AtEnd(rest: string) {
    rest == "" || rest[0] == ','
  }

  function Signed(negative: bool, n: nat): int {
    var m: int := n;
    if negative then -m else m
  }

  function StrideText(negative: bool, n: nat, rest: string): (s: string)
    ensures s != "" && s[0] == ':' && s[1..] == (if negative then "-" + (Dec(n) + rest) else Dec(n) + rest)
  {
    if negative then ":" + ("-" + (Dec(n) + rest)) else ":" + (Dec(n) + rest)
  }

  lemma StrideReads(negative: bool, n: nat, rest: string)
    requires AtEnd(rest)
    ensures Stride(StrideText(negative, n, rest)) == Some((Signed(negative, n), rest))
  {
    Reads(n, rest);
    var t := StrideText(negative, n, rest)[1..];
    if negative {
      assert t[0] == '-' && t[1..] == Dec(n) + rest;
    }
  }

  // The range from a to b, and what follows its end.
  function RangeText(a: nat, b: nat, u: string): (s: string)
    ensures s == Dec(a) + ("-" + (Dec(b) + u))
  {
    Dec(a) + ("-" + (Dec(b) + u))
  }

  lemma RangeReads(a: nat, b: nat, u: string)
    requires !StartsWithDigit(u)
    ensures Item(RangeText(a, b, u)) == RangeEnd(a, Dec(b) + u) && Number(SkipBlanks(Dec(b) + u)) == Some((b, u))
    ensures RangeText(a, b, u) != "" && IsDigit(RangeText(a, b, u)[0]) && SkipBlanks(RangeText(a, b, u)) == RangeText(a, b, u)
  {
    var t := "-" + (Dec(b) + u);
    NoBlank(t);
    assert t[1..] == Dec(b) + u;
    Reads(a, t);
    Reads(b, u);
  }

  lemma StridedItem(os: seq<set<int>>, a: nat, b: nat, negative: bool, n: nat, rest: string)
    requires AtEnd(rest)
    ensures Parse(os, RangeText(a, b, StrideText(negative, n, rest))) ==
            if RangeOk(a, b, Signed(negative, n)) then Before(MasksOf(os, Steps(a, b, Signed(negative, n))), Parse(os, SkipComma(rest)))
            else None
  {
    var u := StrideText(negative, n, rest);
    RangeReads(a, b, u);
    StrideReads(negative, n, rest);
    NoBlank(u);
    NoBlank(rest);
  }

  // A range from a to b that the checks accept.
  predicate Accepted(a: nat, b: nat, negative: bool, n: nat) {
    n != 0 && if negative then a >= b && (a - b) / n <= 65536 else b >= a && (b - a) / n <= 65536
  }

  /** "a-b:n" and "a-b:-n": the steps from a to b, upwards or downwards; the range is rejected if its
      stride is zero, if it points away from its end, or if it takes more than 65536 steps. */
  lemma StridedRange(os: seq<set<int>>, a: nat, b: nat, negative: bool, n: nat, rest: string)
    requires AtEnd(rest)
    ensures Parse(os, RangeText(a, b, StrideText(negative, n, rest))) ==
            if Accepted(a, b, negative, n) then Before(MasksOf(os, Steps(a, b, Signed(negative, n))), Parse(os, SkipComma(rest)))
            else None
  {
    StridedItem(os, a, b, negative, n, rest);
    RangeChecks(a, b, negative, n);
  }

  lemma RangeChecks(a: nat, b: nat, negative: bool, n: nat)
    ensures RangeOk(a, b, Signed(negative, n)) <==> Accepted(a, b, negative, n)
  {
  }

  // ---------- sets ----------

  function OneMask(os: seq<set<int>>, id: nat): set<int> {
    if Known(os, id) then os[id] else {}
  }

  function One(os: seq<set<int>>, id: nat): nat {
    if Known(os, id) then 1 else 0
  }

  // What the known ones of these processors have for masks, together.
  function Together(os: seq<set<int>>, ids: seq<nat>): set<int> {
    if ids == [] then {} else OneMask(os, ids[0]) + Together(os, ids[1..])
  }

  function KnownCount(os: seq<set<int>>, ids: seq<nat>): nat {
    if ids == [] then 0 else One(os, ids[0]) + KnownCount(os, ids[1..])
  }

  // Processor x is in the mask of a known one of these.
  predicate InOne(os: seq<set<int>>, ids: seq<nat>, x: int) {
    exists k :: 0 <= k < |ids| && Known(os, ids[k]) && x in os[ids[k]]
  }

  predicate SomeKnown(os: seq<set<int>>, ids: seq<nat>) {
    exists k :: 0 <= k < |ids| && Known(os, ids[k])
  }

  lemma {:induction false} TogetherIs(os: seq<set<int>>, ids: seq<nat>)
    ensures forall x :: x in Together(os, ids) <==> InOne(os, ids, x)
    ensures KnownCount(os, ids) > 0 <==> SomeKnown(os, ids)
  {
    if ids != [] {
      TogetherIs(os, ids[1..]);
      forall x ensures InOne(os, ids, x) <==> (Known(os, ids[0]) && x in os[ids[0]]) || InOne(os, ids[1..], x) {
        if k :| 0 <= k < |ids[1..]| && Known(os, ids[1..][k]) && x in os[ids[1..][k]] { assert ids[k + 1] == ids[1..][k]; }
        if k :| 0 < k < |ids| && Known(os, ids[k]) && x in os[ids[k]] { assert ids[1..][k - 1] == ids[k]; }
      }
      if k :| 0 <= k < |ids[1..]| && Known(os, ids[1..][k]) { assert ids[k + 1] == ids[1..][k]; }
      if k :| 0 < k < |ids| && Known(os, ids[k]) { assert ids[1..][k - 1] == ids[k]; }
    }
  }

  // The numbers after the first one, and the brace.
  function SetTail(ids: seq<nat>): (s: string)
    ensures s != "" && (s[0] == ',' || s[0] == '}')
  {
    if ids == [] then "}" else "," + Dec(ids[0]) + SetTail(ids[1..])
  }

  function SetText(ids: seq<nat>, rest: string): string
    requires ids != []
  {
    "{" + (Dec(ids[0]) + (SetTail(ids[1..]) + rest))
  }

  lemma SetStep(os: seq<set<int>>, id: nat, more: string, sum: set<int>, size: nat)
    requires !StartsWithDigit(more)
    ensures SetRest(os, "," + (Dec(id) + more), sum, size) == SetRest(os, more, sum + OneMask(os, id), size + One(os, id))
  {
    var s := "," + (Dec(id) + more);
    NoBlank(s);
    assert SkipComma(s) == Dec(id) + more;
    Reads(id, more);
    assert sum + {} == sum;
  }

  lemma SetEnds(os: seq<set<int>>, rest: string, sum: set<int>, size: nat)
    ensures SetRest(os, "}" + rest, sum, size) == Some((sum, size, rest))
  {
    var s := "}" + rest;
    NoBlank(s);
    assert s[1..] == rest;
  }

  // The same, put together from the front.
  function Gathered(os: seq<set<int>>, ids: seq<nat>, sum: set<int>, size: nat, rest: string): (set<int>, nat, string) {
    if ids == [] then (sum, size, rest) else Gathered(os, ids[1..], sum + OneMask(os, ids[0]), size + One(os, ids[0]), rest)
  }

  lemma {:induction false} GatheredIs(os: seq<set<int>>, ids: seq<nat>, sum: set<int>, size: nat, rest: string)
    ensures Gathered(os, ids, sum, size, rest) == (sum + Together(os, ids), size + KnownCount(os, ids), rest)
  {
    if ids == [] {
      assert sum + Together(os, ids) == sum;
    } else {
      GatheredIs(os, ids[1..], sum + OneMask(os, ids[0]), size + One(os, ids[0]), rest);
      assert sum + OneMask(os, ids[0]) + Together(os, ids[1..]) == sum + Together(os, ids);
    }
  }

  lemma TailText(ids: seq<nat>, rest: string)
    requires ids != []
    ensures SetTail(ids) + rest == "," + (Dec(ids[0]) + (SetTail(ids[1..]) + rest))
  {
  }

  lemma TailStarts(ids: seq<nat>, rest: string)
    ensures !StartsWithDigit(SetTail(ids) + rest)
  {
  }

  ghost function Reader(os: seq<set<int>>): (string, set<int>, nat) -> Option<(set<int>, nat, string)> {
    (s: string, b: set<int>, n: nat) => SetRest(os, s, b, n)
  }

  lemma ReaderIs(os: seq<set<int>>, s: string, sum: set<int>, size: nat)
    ensures Reader(os)(s, sum, size) == SetRest(os, s, sum, size)
  {
  }

  // What a reader of sets does at a brace, and at a comma and a number.
  ghost predicate EndsAt(read: (string, set<int>, nat) -> Option<(set<int>, nat, string)>, rest: string, sum: set<int>, size: nat) {
    read("}" + rest, sum, size) == Some((sum, size, rest))
  }

  ghost predicate GoesOn(os: seq<set<int>>, read: (string, set<int>, nat) -> Option<(set<int>, nat, string)>,
                         id: nat, more: string, sum: set<int>, size: nat)
  {
    !StartsWithDigit(more) ==>
      read("," + (Dec(id) + more), sum, size) == read(more, sum + OneMask(os, id), size + One(os, id))
  }

  ghost predicate ReadsSets(os: seq<set<int>>, read: (string, set<int>, nat) -> Option<(set<int>, nat, string)>) {
    && (forall rest, sum, size: nat {:trigger EndsAt(read, rest, sum, size)} :: EndsAt(read, rest, sum, size))
    && (forall id: nat, more, sum, size: nat {:trigger GoesOn(os, read, id, more, sum, size)} :: GoesOn(os, read, id, more, sum, size))
  }

  lemma ReaderGoesOn(os: seq<set<int>>, id: nat, more: string, sum: set<int>, size: nat)
    ensures GoesOn(os, Reader(os), id, more, sum, size)
  {
    if !StartsWithDigit(more) {
      SetStep(os, id, more, sum, size);
      ReaderIs(os, "," + (Dec(id) + more), sum, size);
      ReaderIs(os, more, sum + OneMask(os, id), size + One(os, id));
    }
  }

  lemma ReaderEnds(os: seq<set<int>>, rest: string, sum: set<int>, size: nat)
    ensures EndsAt(Reader(os), rest, sum, size)
  {
    SetEnds(os, rest, sum, size);
    ReaderIs(os, "}" + rest, sum, size);
  }

  lemma ReaderReads(os: seq<set<int>>)
    ensures ReadsSets(os, Reader(os))
  {
    var read := Reader(os);
    forall rest, sum, size: nat ensures EndsAt(read, rest, sum, size) { ReaderEnds(os, rest, sum, size); }
    forall id: nat, more, sum, size: nat ensures GoesOn(os, read, id, more, sum, size) { ReaderGoesOn(os, id, more, sum, size); }
  }

  // What is read of the text of a set.
  lemma {:induction false} SetTailReads(os: seq<set<int>>, read: (string, set<int>, nat) -> Option<(set<int>, nat, string)>,
                                        ids: seq<nat>, rest: string, sum: set<int>, size: nat)
    requires ReadsSets(os, read)
    ensures read(SetTail(ids) + rest, sum, size) == Some(Gathered(os, ids, sum, size, rest))
    decreases |ids|
  {
    if ids == [] {
      assert EndsAt(read, rest, sum, size);
    } else {
      var more := SetTail(ids[1..]) + rest;
      TailText(ids, rest);
      TailStarts(ids[1..], rest);
      SetTailReads(os, read, ids[1..], rest, sum + OneMask(os, ids[0]), size + One(os, ids[0]));
      assert GoesOn(os, read, ids[0], more, sum, size);
    }
  }

  /** A set in braces is one mask, that of its known processors together; without any it is none. */
  lemma SetInBraces(os: seq<set<int>>, ids: seq<nat>, rest: string)
    requires ids != [] && AtEnd(rest)
    ensures Parse(os, SetText(ids, rest)) ==
            Before(if SomeKnown(os, ids) then [Together(os, ids)] else [], Parse(os, SkipComma(rest)))
    ensures forall x :: x in Together(os, ids) <==> InOne(os, ids, x)
  {
    TogetherIs(os, ids);
    var more := SetTail(ids[1..]) + rest;
    TailStarts(ids[1..], rest);
    SetReads(os, ids, more, rest);
    ParseSet(os, Dec(ids[0]) + more, if SomeKnown(os, ids) then [Together(os, ids)] else [], SkipComma(rest));
  }

  lemma ParseSet(os: seq<set<int>>, t: string, masks: seq<set<int>>, after: string)
    requires Set(os, t) == Some((masks, after))
    ensures Parse(os, "{" + t) == Before(masks, Parse(os, after))
  {
    var s := "{" + t;
    NoBlank(s);
    assert s[1..] == t;
  }

  lemma SetReads(os: seq<set<int>>, ids: seq<nat>, more: string, rest: string)
    requires ids != [] && AtEnd(rest) && more == SetTail(ids[1..]) + rest && !StartsWithDigit(more)
    ensures Set(os, Dec(ids[0]) + more) == Some((if KnownCount(os, ids) > 0 then [Together(os, ids)] else [], SkipComma(rest)))
  {
    Reads(ids[0], more);
    NoBlank(rest);
    ReaderReads(os);
    SetTailReads(os, Reader(os), ids[1..], rest, OneMask(os, ids[0]), One(os, ids[0]));
    ReaderIs(os, more, OneMask(os, ids[0]), One(os, ids[0]));
    GatheredIs(os, ids[1..], OneMask(os, ids[0]), One(os, ids[0]), rest);
  }

  // ---------- which runs are printed as ranges ----------

  predicate HasDash(s: string) {
    exists k :: 0 <= k < |s| && s[k] == '-'
  }

  lemma DashIn(a: string, b: string)
    ensures HasDash(a + b) <==> HasDash(a) || HasDash(b)
  {
    if k :| 0 <= k < |a| && a[k] == '-' { assert (a + b)[k] == '-'; }
    if k :| 0 <= k < |b| && b[k] == '-' { assert (a + b)[|a| + k] == '-'; }
    if k :| 0 <= k < |a + b| && (a + b)[k] == '-' { assert k >= |a| ==> b[k - |a|] == '-'; }
  }

  lemma RunDash(first: nat, last: nat)
    requires first <= last
    ensures HasDash(RunText(first, last)) <==> last >= first + 2
  {
    DashIn(Dec(first), "-" + Dec(last));
    DashIn(Dec(first), "," + Dec(last));
    DashIn(",", Dec(last));
    DashIn("-", Dec(last));
    assert "-"[0] == '-';
    assert Dec(first) + "-" + Dec(last) == Dec(first) + ("-" + Dec(last));
    assert Dec(first) + "," + Dec(last) == Dec(first) + ("," + Dec(last));
  }

  // Three consecutive processors from place k on.
  predicate ThreeAt(ids: seq<int>, k: int) {
    0 <= k && k + 2 < |ids| && ids[k + 1] == ids[k] + 1 && ids[k + 2] == ids[k] + 2
  }

  ghost predicate HasThree(ids: seq<int>) {
    exists k :: ThreeAt(ids, k)
  }

  // They are in the first run, or in what follows it.
  lemma ThreeSplits(ids: seq<int>, n: nat)
    requires ids != [] && n == RunLength(ids)
    ensures HasThree(ids) <==> n >= 3 || HasThree(ids[n..])
  {
    if n >= 3 { assert ThreeAt(ids, 0); }
    if k :| ThreeAt(ids[n..], k) { assert ThreeAt(ids, k + n); }
    if k :| ThreeAt(ids, k) {
      if k >= n { assert ThreeAt(ids[n..], k - n); }
    }
  }

  /** A range is printed exactly if three consecutive processors are in the mask. */
  lemma {:induction false} DashMeansThree(ids: seq<int>)
    requires Ascending(ids)
    ensures HasDash(Text(ids)) <==> exists k :: ThreeAt(ids, k)
    decreases |ids|
  {
    if ids != [] {
      var n := RunLength(ids);
      var first, last, more := ids[0], ids[n - 1], ids[n..];
      RestAscends(ids, n);
      RunPrefix(ids, n, first, last);
      DashMeansThree(more);
      RunDash(first, last);
      DashIn(RunText(first, last), Tail(more));
      DashIn(",", Text(more));
      ThreeSplits(ids, n);
    }
  }
}
