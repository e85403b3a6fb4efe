/** Parsing an explicit list of processors, such as "1,2,4-9:2,{10,12}", into
    affinity masks. A text that the runtime would abort on has no value. */
module ProcList {
  import opened Options

  const RANGE_LIMIT := 65536   // the most steps that a range may take

  // ---------- characters and numbers ----------

  predicate IsBlank(c: char) {
    c == ' ' || c == '\t'
  }

  predicate IsDigit(c: char) {
    '0' <= c <= '9'
  }

  predicate StartsWithDigit(s: string) {
    s != "" && IsDigit(s[0])
  }

  function SkipBlanks(s: string): (r: string)
    ensures |r| <= |s| && (r == "" || !IsBlank(r[0]))
  {
    if s != "" && IsBlank(s[0]) then SkipBlanks(s[1..]) else s
  }

  function SkipComma(s: string): (r: string)
    ensures |r| <= |s|
  {
    if s != "" && s[0] == ',' then s[1..] else s
  }

  // How many digits the text starts with.
  function DigitCount(s: string): (n: nat)
    ensures n <= |s| && forall k :: 0 <= k < n ==> IsDigit(s[k])
    ensures n < |s| ==> !IsDigit(s[n])
    ensures StartsWithDigit(s) <==> n > 0
  {
    if StartsWithDigit(s) then 1 + DigitCount(s[1..]) else 0
  }

  function Digit(c: char): nat
    requires IsDigit(c)
  {
    (c as int) - ('0' as int)
  }

  // The value of a run of digits.
  function Value(s: string): nat
    requires forall k :: 0 <= k < |s| ==> IsDigit(s[k])
  {
    if s == "" then 0 else Value(s[..|s| - 1]) * 10 + Digit(s[|s| - 1])
  }

  // A number at the start of the text, and the text after it.
  function Number(s: string): (r: Option<(nat, string)>)
    ensures r.Some? <==> StartsWithDigit(s)
    ensures r.Some? ==> |r.value.1| < |s|
  {
    var n := DigitCount(s);
    if n == 0 then None else Some((Value(s[..n]), s[n..]))
  }

  // ---------- the meaning of a list ----------

  // os: the mask of each processor id. An id outside the table, or not in its own mask, is ignored.
  predicate Known(os: seq<set<int>>, id: int) {
    0 <= id < |os| && id in os[id]
  }

  function MasksOf(os: seq<set<int>>, ids: seq<int>): seq<set<int>> {
    if ids == [] then [] else
      MasksOf(os, ids[..|ids| - 1]) + (if Known(os, ids[|ids| - 1]) then [os[ids[|ids| - 1]]] else [])
  }

  // start, start + stride, ... up to or down to end.
  function Steps(start: int, end: int, stride: int): seq<int>
    requires stride != 0
    decreases if stride > 0 then end - start else start - end
  {
    if (if stride > 0 then start <= end else start >= end) then [start] + Steps(start + stride, end, stride) else []
  }

  // The range checks.
  predicate RangeOk(start: int, end: int, stride: int) {
    && stride != 0
    && (if stride > 0 then start <= end else start >= end)
    && (if stride > 0 then (end - start) / stride else (start - end) / -stride) <= RANGE_LIMIT
  }

  // The stride of a range, 1 if none is given.
  function Stride(s: string): (r: Option<(int, string)>)
    ensures r.Some? ==> |r.value.1| <= |s|
  {
    if s == "" || s[0] != ':' then Some((1, s)) else
      var t := SkipBlanks(s[1..]);
      var negative := t != "" && t[0] == '-';
      var u := if negative then SkipBlanks(t[1..]) else t;
      match Number(u)
      case None => None
      case Some((n, rest)) =>
        var stride: int := n;
        Some((if negative then -stride else stride, rest))
  }

  // A number, or a range of them, and the rest of the list.
  function Item(s: string): (r: Option<(seq<int>, string)>)
    ensures r.Some? ==> |r.value.1| < |s|
  {
    match Number(s)
    case None => None
    case Some((start, t)) =>
      var t1 := SkipBlanks(t);
      if t1 == "" || t1[0] != '-' then Some(([start], SkipComma(t1))) else RangeEnd(start, t1[1..])
  }

  function RangeEnd(start: nat, s: string): (r: Option<(seq<int>, string)>)
    ensures r.Some? ==> |r.value.1| < |s|
  {
    match Number(SkipBlanks(s))
    case None => None
    case Some((end, u)) =>
      match Stride(SkipBlanks(u))
      case None => None
      case Some((stride, v)) =>
        if RangeOk(start, end, stride) then Some((Steps(start, end, stride), SkipComma(SkipBlanks(v)))) else None
  }

  // The rest of a set, up to its closing brace; sum and size are what has been read of it.
  function SetRest(os: seq<set<int>>, s: string, sum: set<int>, size: nat): (r: Option<(set<int>, nat, string)>)
    ensures r.Some? ==> |r.value.2| < |s|
    decreases |s|
  {
    var t := SkipBlanks(s);
    if t != "" && t[0] == '}' then Some((sum, size, t[1..])) else
      match Number(SkipBlanks(SkipComma(t)))
      case None => None
      case Some((num, rest)) =>
        if Known(os, num) then SetRest(os, rest, sum + os[num], size + 1) else SetRest(os, rest, sum, size)
  }

  // A set in braces.
  function Set(os: seq<set<int>>, s: string): (r: Option<(seq<set<int>>, string)>)
    ensures r.Some? ==> |r.value.1| < |s|
  {
    match Number(SkipBlanks(s))
    case None => None
    case Some((num, t)) =>
      match (if Known(os, num) then SetRest(os, t, os[num], 1) else SetRest(os, t, {}, 0))
      case None => None
      case Some((sum, size, u)) => Some((if size > 0 then [sum] else [], SkipComma(SkipBlanks(u))))
  }

  /** The masks that a list stands for. */
  function Parse(os: seq<set<int>>, s: string): Option<seq<set<int>>>
    decreases |s|
  {
    var t := SkipBlanks(s);
    if t == "" then Some([])
    else if t[0] == '{' then
      match Set(os, t[1..])
      case None => None
      case Some((masks, rest)) => Before(masks, Parse(os, rest))
    else
      match Item(t)
      case None => None
      case Some((ids, rest)) => Before(MasksOf(os, ids), Parse(os, rest))
  }

  function Before(masks: seq<set<int>>, rest: Option<seq<set<int>>>): Option<seq<set<int>>> {
    match rest
    case None => None
    case Some(more) => Some(masks + more)
  }

  // ---------- the parser ----------

  // The masks found so far: newMasks, numNewMasks and nextNewMask.
  class MaskList {
    var masks: array<set<int>>
    var next: nat

    ghost predicate Valid()
      reads this
    {
      next <= masks.Length && masks.Length >= 2
    }

    ghost function Contents(): seq<set<int>>
      requires Valid()
      reads this, masks
    {
      masks[..next]
    }

    constructor ()
      ensures Valid() && Contents() == [] && fresh(masks)
    {
      masks := new set<int>[2](_ => {});
      next := 0;
    }

    // ADD_MASK: store a mask, in an array twice as large if this one is full.
    method Add(mask: set<int>)
      requires Valid()
      modifies this, masks
      ensures Valid() && Contents() == old(Contents()) + [mask]
      ensures masks == old(masks) || fresh(masks)
    {
      if next >= masks.Length {
        var temp := new set<int>[masks.Length * 2](_ => {});
        for i := 0 to masks.Length
          invariant masks == old(masks) && next == old(next) && masks[..] == old(masks[..])
          invariant temp[..i] == masks[..i]
        {
          temp[i] := masks[i];
        }
        masks := temp;
      }
      masks[next] := mask;
      next := next + 1;
    }
  }

  lemma BlanksStep(s: string, i: nat)
    requires i < |s|
    ensures SkipBlanks(s[i..]) == if IsBlank(s[i]) then SkipBlanks(s[i + 1..]) else s[i..]
    ensures StartsWithDigit(s[i..]) <==> IsDigit(s[i])
    ensures DigitCount(s[i..]) == if IsDigit(s[i]) then 1 + DigitCount(s[i + 1..]) else 0
  {
    assert s[i..][1..] == s[i + 1..];
  }

  method SkipWs(s: string, i: nat) returns (j: nat)
    requires i <= |s|
    ensures i <= j <= |s| && s[j..] == SkipBlanks(s[i..])
  {
    j := i;
    while j < |s| && IsBlank(s[j])
      invariant i <= j <= |s| && SkipBlanks(s[j..]) == SkipBlanks(s[i..])
    {
      BlanksStep(s, j);
      j := j + 1;
    }
    if j < |s| { BlanksStep(s, j); }
  }

  method SkipOptionalComma(s: string, i: nat) returns (j: nat)
    requires i <= |s|
    ensures i <= j <= |s| && s[j..] == SkipComma(s[i..])
  {
    j := if i < |s| && s[i] == ',' then i + 1 else i;
  }

  // SKIP_DIGITS and the conversion of what was skipped.
  method ReadNumber(s: string, i: nat) returns (ok: bool, num: nat, j: nat)
    requires i <= |s|
    ensures ok <==> Number(s[i..]).Some?
    ensures ok ==> i < j <= |s| && Number(s[i..]) == Some((num, s[j..]))
  {
    ok, num, j := i < |s| && IsDigit(s[i]), 0, i;
    if ok {
      num, j := ReadDigits(s, i);
      assert s[i..][..j - i] == s[i..j] && s[i..][j - i..] == s[j..];
    }
  }

  lemma OneMoreDigit(d: string, c: char)
    requires (forall k :: 0 <= k < |d| ==> IsDigit(d[k])) && IsDigit(c)
    ensures forall k :: 0 <= k < |d + [c]| ==> IsDigit((d + [c])[k])
    ensures Value(d + [c]) == Value(d) * 10 + Digit(c)
  {
    assert (d + [c])[..|d|] == d;
  }

  // The digits from i up to j, and their value.
  ghost predicate Scanned(s: string, i: nat, j: nat, num: nat)
    requires i <= j <= |s|
  {
    && (forall k :: 0 <= k < j - i ==> IsDigit(s[i..j][k])) && num == Value(s[i..j])
    && DigitCount(s[i..]) == j - i + DigitCount(s[j..])
  }

  lemma ScannedNext(s: string, i: nat, j: nat, num: nat)
    requires i <= j < |s| && Scanned(s, i, j, num) && IsDigit(s[j])
    ensures Scanned(s, i, j + 1, num * 10 + Digit(s[j]))
  {
    var d, e := s[i..j], s[i..j + 1];
    assert e == d + [s[j]];
    OneMoreDigit(d, s[j]);
    DigitStep(s, j);
  }

  lemma DigitStep(s: string, j: nat)
    requires j < |s| && IsDigit(s[j])
    ensures DigitCount(s[j..]) == 1 + DigitCount(s[j + 1..])
  {
    assert s[j..][1..] == s[j + 1..];
  }

  method ReadDigits(s: string, i: nat) returns (num: nat, j: nat)
    requires i <= |s|
    ensures i <= j <= |s| && Scanned(s, i, j, num) && j - i == DigitCount(s[i..])
  {
    num, j := 0, i;
    while j < |s| && IsDigit(s[j])
      invariant i <= j <= |s| && Scanned(s, i, j, num)
    {
      ScannedNext(s, i, j, num);
      num := num * 10 + Digit(s[j]);
      j := j + 1;
    }
    if j < |s| { BlanksStep(s, j); }
  }

  // ADD_MASK_OSID.
  method AddId(os: seq<set<int>>, list: MaskList, id: int)
    requires list.Valid()
    modifies list, list.masks
    ensures list.Valid() && list.Contents() == old(list.Contents()) + MasksOf(os, [id])
    ensures list.masks == old(list.masks) || fresh(list.masks)
  {
    assert MasksOf(os, []) == [];
    assert [id][..0] == [];
    if Known(os, id) {
      list.Add(os[id]);
    }
  }

  lemma {:induction false} MasksOfConcat(os: seq<set<int>>, a: seq<int>, b: seq<int>)
    ensures MasksOf(os, a + b) == MasksOf(os, a) + MasksOf(os, b)
  {
    if b == [] {
      assert a + b == a;
    } else {
      var n := |b| - 1;
      MasksOfConcat(os, a, b[..n]);
      assert (a + b)[..|a + b| - 1] == a + b[..n];
    }
  }

  lemma OneMoreStep(os: seq<set<int>>, done: seq<int>, start: int, end: int, stride: int)
    requires stride != 0 && if stride > 0 then start <= end else start >= end
    ensures MasksOf(os, done + [start]) == MasksOf(os, done) + MasksOf(os, [start])
    ensures done + [start] + Steps(start + stride, end, stride) == done + Steps(start, end, stride)
  {
    MasksOfConcat(os, done, [start]);
  }

  // The do-while loops over a range.
  method AddRange(os: seq<set<int>>, list: MaskList, start0: int, end: int, stride: int)
    requires list.Valid() && RangeOk(start0, end, stride)
    modifies list, list.masks
    ensures list.Valid() && list.Contents() == old(list.Contents()) + MasksOf(os, Steps(start0, end, stride))
    ensures list.masks == old(list.masks) || fresh(list.masks)
  {
    var start := start0;
    ghost var done: seq<int>, before := [], list.Contents();
    while if stride > 0 then start <= end else start >= end
      invariant list.Valid() && list.Contents() == before + MasksOf(os, done)
      invariant list.masks == old(list.masks) || fresh(list.masks)
      invariant done + Steps(start, end, stride) == Steps(start0, end, stride)
      decreases if stride > 0 then end - start else start - end
    {
      OneMoreStep(os, done, start, end, stride);
      AddId(os, list, start);
      assert before + MasksOf(os, done) + MasksOf(os, [start]) == before + (MasksOf(os, done) + MasksOf(os, [start]));
      done := done + [start];
      start := start + stride;
    }
    assert done + [] == done;
  }

  lemma Tails(s: string, i: nat)
    requires i < |s|
    ensures s[i..] != "" && s[i..][0] == s[i] && s[i..][1..] == s[i + 1..]
  {
  }

  // The number after the ':' of a stride, or after its sign.
  method ReadStrideValue(s: string, i: nat) returns (ok: bool, stride: int, j: nat)
    requires i < |s| && s[i] == ':'
    ensures ok <==> Stride(s[i..]).Some?
    ensures ok ==> i < j <= |s| && Stride(s[i..]) == Some((stride, s[j..]))
  {
    var sign: int := 1;
    Tails(s, i);
    j := SkipWs(s, i + 1);
    if j < |s| && s[j] == '-' {
      sign := -1;
      Tails(s, j);
      j := SkipWs(s, j + 1);
    }
    var n;
    ok, n, j := ReadNumber(s, j);
    stride := n * sign;
  }

  method ReadStride(s: string, i: nat) returns (ok: bool, stride: int, j: nat)
    requires i <= |s|
    ensures ok <==> Stride(s[i..]).Some?
    ensures ok ==> i <= j <= |s| && Stride(s[i..]) == Some((stride, s[j..]))
  {
    ok, stride, j := true, 1, i;
    if i < |s| && s[i] == ':' {
      ok, stride, j := ReadStrideValue(s, i);
    }
  }

  method CheckRange(start: int, end: int, stride: int) returns (ok: bool)
    ensures ok <==> RangeOk(start, end, stride)
  {
    if stride == 0 {
      return false;
    }
    if !(if stride > 0 then start <= end else start >= end) {
      return false;
    }
    ok := (if stride > 0 then (end - start) / stride else (start - end) / -stride) <= RANGE_LIMIT;
  }

  // After the '-' of a range.
  method ReadRange(s: string, i: nat, start: nat) returns (ok: bool, end: int, stride: int, j: nat)
    requires i <= |s|
    ensures ok <==> RangeEnd(start, s[i..]).Some?
    ensures ok ==> i < j <= |s| && RangeOk(start, end, stride)
    ensures ok ==> RangeEnd(start, s[i..]) == Some((Steps(start, end, stride), s[j..]))
  {
    j := SkipWs(s, i);
    stride := 1;
    ok, end, j := ReadNumber(s, j);
    if !ok { return; }
    j := SkipWs(s, j);
    ok, stride, j := ReadStride(s, j);
    if !ok { return; }
    ok := CheckRange(start, end, stride);
    if !ok { return; }
    j := SkipWs(s, j);
    j := SkipOptionalComma(s, j);
  }

  lemma ItemAfter(s: string, start: nat, t: string)
    requires Number(s) == Some((start, t))
    ensures var u := SkipBlanks(t);
            Item(s) == if u == "" || u[0] != '-' then Some(([start], SkipComma(u))) else RangeEnd(start, u[1..])
  {
  }

  // A number, or a range from it to end in steps of stride.
  method ReadItem(s: string, i: nat) returns (ok: bool, start: int, isRange: bool, end: int, stride: int, j: nat)
    requires i <= |s|
    ensures ok <==> Item(s[i..]).Some?
    ensures ok ==> i < j <= |s| && (isRange ==> RangeOk(start, end, stride))
    ensures ok ==> Item(s[i..]) == Some((if isRange then Steps(start, end, stride) else [start], s[j..]))
  {
    isRange, end, stride := false, 0, 1;
    ok, start, j := ReadNumber(s, i);
    if !ok { return; }
    ItemAfter(s[i..], start, s[j..]);
    j := SkipWs(s, j);
    if j >= |s| || s[j] != '-' {
      assert j < |s| ==> s[j..][0] == s[j];
      j := SkipOptionalComma(s, j);
    } else {
      Tails(s, j);
      isRange := true;
      ok, end, stride, j := ReadRange(s, j + 1, start);
    }
  }

  // The loop over the rest of a set.
  method ReadSetRest(os: seq<set<int>>, s: string, i: nat, sum0: set<int>, size0: nat)
    returns (ok: bool, sum: set<int>, size: nat, j: nat)
    requires i <= |s|
    ensures ok <==> SetRest(os, s[i..], sum0, size0).Some?
    ensures ok ==> i < j <= |s| && SetRest(os, s[i..], sum0, size0) == Some((sum, size, s[j..]))
  {
    sum, size, j, ok := sum0, size0, i, true;
    while true
      invariant i <= j <= |s| && SetRest(os, s[j..], sum, size) == SetRest(os, s[i..], sum0, size0)
      decreases |s| - j
    {
      j := SkipWs(s, j);
      if j < |s| && s[j] == '}' {
        assert s[j..][1..] == s[j + 1..];
        j := j + 1;
        return;
      }
      j := SkipOptionalComma(s, j);
      j := SkipWs(s, j);
      var num;
      ok, num, j := ReadNumber(s, j);
      if !ok { return; }
      if Known(os, num) {
        sum := sum + os[num];
        size := size + 1;
      }
    }
  }

  // After the '{' of a set.
  method ReadSet(os: seq<set<int>>, list: MaskList, s: string, i: nat) returns (ok: bool, j: nat)
    requires list.Valid() && i <= |s|
    modifies list, list.masks
    ensures list.Valid() && (list.masks == old(list.masks) || fresh(list.masks))
    ensures ok <==> Set(os, s[i..]).Some?
    ensures ok ==> i < j <= |s| && Set(os, s[i..]).value.1 == s[j..]
    ensures ok ==> list.Contents() == old(list.Contents()) + Set(os, s[i..]).value.0
  {
    j := SkipWs(s, i);
    var num, sum, size;
    ok, num, j := ReadNumber(s, j);
    if !ok { return; }
    if Known(os, num) {
      ok, sum, size, j := ReadSetRest(os, s, j, os[num], 1);
    } else {
      ok, sum, size, j := ReadSetRest(os, s, j, {}, 0);
    }
    if !ok { return; }
    if size > 0 {
      list.Add(sum);
    }
    j := SkipWs(s, j);
    j := SkipOptionalComma(s, j);
  }

  // The next number, range or set of the list, and what it leaves to be parsed.
  method ReadEntry(os: seq<set<int>>, list: MaskList, s: string, i: nat) returns (ok: bool, j: nat, ghost added: seq<set<int>>)
    requires list.Valid() && i < |s| && SkipBlanks(s[i..]) == s[i..]
    modifies list, list.masks
    ensures list.Valid() && (list.masks == old(list.masks) || fresh(list.masks))
    ensures !ok ==> Parse(os, s[i..]) == None
    ensures ok ==> i < j <= |s| && list.Contents() == old(list.Contents()) + added
    ensures ok ==> Parse(os, s[i..]) == Before(added, Parse(os, s[j..]))
  {
    ghost var t := s[i..];
    if s[i] == '{' {
      assert t[1..] == s[i + 1..];
      ok, j := ReadSet(os, list, s, i + 1);
      added := if ok then Set(os, t[1..]).value.0 else [];
    } else {
      var start, isRange, end, stride;
      ok, start, isRange, end, stride, j := ReadItem(s, i);
      if ok && isRange {
        AddRange(os, list, start, end, stride);
      } else if ok {
        AddId(os, list, start);
      }
      added := if ok then MasksOf(os, Item(t).value.0) else [];
    }
  }

  /** __kmp_affinity_process_proclist: the masks of the list, in its order; no
      result where the runtime stops with an error. */
  method Process(os: seq<set<int>>, s: string) returns (r: Option<seq<set<int>>>)
    ensures r == Parse(os, s)
  {
    var list := new MaskList();
    var i, ok := 0, true;
    NothingBefore(Parse(os, s));
    assert s[0..] == s;
    while true
      invariant 0 <= i <= |s| && list.Valid() && fresh(list) && fresh(list.masks)
      invariant Parse(os, s) == Before(list.Contents(), Parse(os, s[i..]))
      decreases |s| - i
    {
      ParseBlanks(os, s[i..]);
      i := SkipWs(s, i);
      if i >= |s| {
        assert s[i..] == "" && list.Contents() + [] == list.Contents();
        break;
      }
      ghost var before, added := list.Contents(), [];
      ok, i, added := ReadEntry(os, list, s, i);
      if !ok { return None; }
      MoreBefore(before, added, Parse(os, s[i..]));
    }
    r := Some(list.masks[..list.next]);
  }

  lemma ParseBlanks(os: seq<set<int>>, s: string)
    ensures Parse(os, s) == Parse(os, SkipBlanks(s)) && SkipBlanks(SkipBlanks(s)) == SkipBlanks(s)
  {
  }

  lemma NothingBefore(rest: Option<seq<set<int>>>)
    ensures Before([], rest) == rest
  {
    if rest.Some? { assert [] + rest.value == rest.value; }
  }

  lemma MoreBefore(a: seq<set<int>>, b: seq<set<int>>, rest: Option<seq<set<int>>>)
    ensures Before(a + b, rest) == Before(a, Before(b, rest))
  {
    if rest.Some? { assert a + b + rest.value == a + (b + rest.value); }
  }

  // ---------- which characters a list can have ----------

  predicate InList(c: char) {
    IsBlank(c) || IsDigit(c) || c == ',' || c == '-' || c == ':' || c == '{' || c == '}'
  }

  // rest is an end of s, and what comes before it are characters of lists.
  ghost predicate Plain(s: string, rest: string) {
    |rest| <= |s| && s[|s| - |rest|..] == rest && forall k {:trigger InList(s[k])} :: 0 <= k < |s| - |rest| ==> InList(s[k])
  }

  lemma PlainThen(s: string, t: string, u: string)
    requires Plain(s, t) && Plain(t, u)
    ensures Plain(s, u)
  {
    var n := |s| - |t|;
    assert s[|s| - |u|..] == s[n..][|t| - |u|..];
    forall k | 0 <= k < |s| - |u| ensures InList(s[k]) {
      if k >= n { assert s[k] == t[k - n]; }
    }
  }

  lemma PlainOne(s: string)
    requires s != "" && InList(s[0])
    ensures Plain(s, s[1..])
  {
  }

  lemma {:induction false} PlainBlanks(s: string)
    ensures Plain(s, SkipBlanks(s))
  {
    if s != "" && IsBlank(s[0]) {
      PlainBlanks(s[1..]);
      PlainThen(s, s[1..], SkipBlanks(s));
    }
  }

  lemma PlainComma(s: string)
    ensures Plain(s, SkipComma(s))
  {
  }

  lemma PlainNumber(s: string)
    ensures Number(s).Some? ==> Plain(s, Number(s).value.1)
  {
  }

  // What comes after a sign, if there is one.
  lemma PlainSign(t: string)
    ensures Plain(t, if t != "" && t[0] == '-' then SkipBlanks(t[1..]) else t)
  {
    if t != "" && t[0] == '-' {
      PlainOne(t);
      PlainBlanks(t[1..]);
      PlainThen(t, t[1..], SkipBlanks(t[1..]));
    }
  }

  lemma PlainStride(s: string)
    ensures Stride(s).Some? ==> Plain(s, Stride(s).value.1)
  {
    if s != "" && s[0] == ':' {
      var t := SkipBlanks(s[1..]);
      var u := if t != "" && t[0] == '-' then SkipBlanks(t[1..]) else t;
      assert Plain(s, u) by {
        PlainOne(s);
        PlainBlanks(s[1..]);
        PlainThen(s, s[1..], t);
        PlainSign(t);
        PlainThen(s, t, u);
      }
      PlainNumber(u);
      if Number(u).Some? { PlainThen(s, u, Number(u).value.1); }
    }
  }

  lemma PlainRangeEnd(start: nat, s: string)
    ensures RangeEnd(start, s).Some? ==> Plain(s, RangeEnd(start, s).value.1)
  {
    var t := SkipBlanks(s);
    PlainBlanks(s);
    PlainNumber(t);
    if Number(t).Some? {
      var u := Number(t).value.1;
      PlainThen(s, t, u);
      PlainAfterEnd(s, u);
    }
  }

  // The stride, and what separates the range from the next item.
  lemma PlainAfterEnd(s: string, u: string)
    requires Plain(s, u)
    ensures Stride(SkipBlanks(u)).Some? ==> Plain(s, SkipComma(SkipBlanks(Stride(SkipBlanks(u)).value.1)))
  {
    var t := SkipBlanks(u);
    PlainBlanks(u);
    PlainThen(s, u, t);
    PlainStride(t);
    if Stride(t).Some? {
      PlainThen(s, t, Stride(t).value.1);
      PlainEnd(s, Stride(t).value.1);
    }
  }

  lemma PlainEnd(s: string, v: string)
    requires Plain(s, v)
    ensures Plain(s, SkipComma(SkipBlanks(v)))
  {
    PlainBlanks(v);
    PlainThen(s, v, SkipBlanks(v));
    PlainComma(SkipBlanks(v));
    PlainThen(s, SkipBlanks(v), SkipComma(SkipBlanks(v)));
  }

  lemma PlainItem(s: string)
    ensures Item(s).Some? ==> Plain(s, Item(s).value.1)
  {
    PlainNumber(s);
    if Number(s).Some? {
      var (start, t) := Number(s).value;
      PlainEnd(s, t);
      PlainBlanks(t);
      PlainThen(s, t, SkipBlanks(t));
      PlainRange(s, SkipBlanks(t), start);
    }
  }

  lemma PlainRange(s: string, t: string, start: nat)
    requires Plain(s, t)
    ensures t != "" && t[0] == '-' && RangeEnd(start, t[1..]).Some? ==> Plain(s, RangeEnd(start, t[1..]).value.1)
  {
    if t != "" && t[0] == '-' {
      PlainOne(t);
      PlainThen(s, t, t[1..]);
      PlainRangeEnd(start, t[1..]);
      if RangeEnd(start, t[1..]).Some? { PlainThen(s, t[1..], RangeEnd(start, t[1..]).value.1); }
    }
  }

  lemma {:induction false} PlainSetRest(os: seq<set<int>>, s: string, sum: set<int>, size: nat)
    ensures SetRest(os, s, sum, size).Some? ==> Plain(s, SetRest(os, s, sum, size).value.2)
    decreases |s|
  {
    var t := SkipBlanks(s);
    PlainBlanks(s);
    if t != "" && t[0] == '}' {
      PlainThen(s, t, t[1..]);
    } else {
      var u := SkipBlanks(SkipComma(t));
      PlainComma(t);
      PlainThen(s, t, SkipComma(t));
      PlainBlanks(SkipComma(t));
      PlainThen(s, SkipComma(t), u);
      PlainNumber(u);
      if Number(u).Some? {
        var (num, rest) := Number(u).value;
        PlainThen(s, u, rest);
        var (sum', size') := if Known(os, num) then (sum + os[num], size + 1) else (sum, size);
        PlainSetRest(os, rest, sum', size');
        if SetRest(os, rest, sum', size').Some? { PlainThen(s, rest, SetRest(os, rest, sum', size').value.2); }
      }
    }
  }

  lemma PlainSet(os: seq<set<int>>, s: string)
    ensures Set(os, s).Some? ==> Plain(s, Set(os, s).value.1)
  {
    PlainBlanks(s);
    PlainNumber(SkipBlanks(s));
    if Number(SkipBlanks(s)).Some? {
      var (num, t) := Number(SkipBlanks(s)).value;
      PlainThen(s, SkipBlanks(s), t);
      var (sum, size) := if Known(os, num) then (os[num], 1) else ({}, 0);
      PlainBraces(os, s, t, sum, size);
    }
  }

  lemma PlainBraces(os: seq<set<int>>, s: string, t: string, sum: set<int>, size: nat)
    requires Plain(s, t)
    ensures var r := SetRest(os, t, sum, size); r.Some? ==> Plain(s, SkipComma(SkipBlanks(r.value.2)))
  {
    PlainSetRest(os, t, sum, size);
    if SetRest(os, t, sum, size).Some? {
      var u := SetRest(os, t, sum, size).value.2;
      PlainThen(s, t, u);
      PlainEnd(s, u);
    }
  }

  /** A text with any other character is no list: in particular none with a unit
      suffix, although the conversion of numbers knows b, k and m. */
  lemma {:induction false} OnlyListCharacters(os: seq<set<int>>, s: string)
    requires Parse(os, s).Some?
    ensures forall k :: 0 <= k < |s| ==> InList(s[k])
    decreases |s|
  {
    var t := SkipBlanks(s);
    PlainBlanks(s);
    if t != "" {
      var rest;
      if t[0] == '{' {
        PlainSet(os, t[1..]);
        rest := Set(os, t[1..]).value.1;
        PlainThen(s, t, t[1..]);
        PlainThen(s, t[1..], rest);
      } else {
        PlainItem(t);
        rest := Item(t).value.1;
        PlainThen(s, t, rest);
      }
      OnlyListCharacters(os, rest);
      forall k | |s| - |rest| <= k < |s| ensures InList(s[k]) { assert s[k] == rest[k - (|s| - |rest|)]; }
    }
  }
}
