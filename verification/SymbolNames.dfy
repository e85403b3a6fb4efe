/** Symbol names in object files: short ones stand in the symbol table itself,
    longer ones in a string table; and hiding symbols behind a prefix. */
module SymbolNames {
  import opened ExternalClosure
  import opened Options

  const INLINE := 8                  // bytes of the name field
  const COUNT_SIZE := 4              // sizeof(unsigned): the length at the start of the string table
  const MAX_LENGTH := 0xFFFF_FFFF

  // "__kmp_external_"
  const PREFIX: seq<int> := [95, 95, 107, 109, 112, 95, 101, 120, 116, 101, 114, 110, 97, 108, 95]

  // A C++ string made from a C string: no zero bytes.
  predicate ZeroFree(s: Name) {
    forall k :: 0 <= k < |s| ==> s[k] != 0
  }

  // The C string at position p.
  function CString(data: seq<int>, p: nat): (s: Name)
    ensures ZeroFree(s) && (p + |s| <= |data| || s == [])
    decreases |data| - p
  {
    if p >= |data| || data[p] == 0 then [] else [data[p]] + CString(data, p + 1)
  }

  lemma {:induction false} CStringIs(data: seq<int>, p: nat, s: Name)
    requires p + |s| <= |data| && data[p..p + |s|] == s && ZeroFree(s) && (p + |s| < |data| ==> data[p + |s|] == 0)
    ensures CString(data, p) == s
    decreases |s|
  {
    if s != [] {
      assert data[p] == data[p..p + |s|][0] == s[0];
      assert data[p + 1..p + 1 + |s[1..]|] == s[1..];
      CStringIs(data, p + 1, s[1..]);
    }
  }

  // A 32-bit number, least significant byte first.
  function Bytes32(n: int): (b: seq<int>)
    ensures |b| == 4
  {
    [n % 256, n / 256 % 256, n / 0x1_0000 % 256, n / 0x100_0000 % 256]
  }

  function Value32(b: seq<int>): int
    requires |b| == 4
  {
    b[0] + 256 * b[1] + 0x1_0000 * b[2] + 0x100_0000 * b[3]
  }

  lemma Bytes32Value(n: int)
    requires 0 <= n <= MAX_LENGTH
    ensures Value32(Bytes32(n)) == n
  {
    assert n / 0x1_0000 == n / 256 / 256 && n / 0x100_0000 == n / 256 / 256 / 256;
  }

  // ---------- encoding and decoding ----------

  // The name field for a string: the string itself, padded with zeros, or four zeros and a position.
  function Encode(directory: map<Name, int>, s: Name): (r: Option<seq<int>>)
    ensures r.Some? ==> |r.value| == INLINE
  {
    if |s| <= INLINE then Some(s + seq(INLINE - |s|, _ => 0))
    else if s in directory then Some([0, 0, 0, 0] + Bytes32(directory[s]))
    else None
  }

  // The string for a name field.
  function Decode(data: seq<int>, field: seq<int>): (r: Option<Name>)
    requires |field| == INLINE
    ensures r.Some? ==> ZeroFree(r.value)
  {
    if field[..4] == [0, 0, 0, 0] then
      var p := Value32(field[4..]);
      if p < 0 || p >= |data| then None else Some(CString(data, p))
    else Some(CString(field, 0))
  }

  // The directory says where in data each of its strings is.
  ghost predicate Directory(directory: map<Name, int>, data: seq<int>) {
    && COUNT_SIZE <= |data| <= MAX_LENGTH
    && forall s :: s in directory ==> Located(data, s, directory[s])
  }

  ghost predicate Located(data: seq<int>, s: Name, p: int) {
    && COUNT_SIZE <= p && p + |s| < |data| && data[p..p + |s|] == s && data[p + |s|] == 0
  }

  /** Decoding what was encoded gives the string back; only for the empty string
      that hangs on the first byte of the table, the low byte of its length. */
  lemma RoundTrip(directory: map<Name, int>, data: seq<int>, s: Name)
    requires Directory(directory, data) && ZeroFree(s) && (|s| > INLINE ==> s in directory)
    ensures Encode(directory, s).Some?
    ensures Decode(data, Encode(directory, s).value) == Some(s) <==> s != [] || data[0] == 0
  {
    var field := Encode(directory, s).value;
    if |s| > INLINE {
      var p := directory[s];
      assert Located(data, s, p);
      assert field[..4] == [0, 0, 0, 0] && field[4..] == Bytes32(p);
      Bytes32Value(p);
      CStringIs(data, p, s);
    } else if s != [] {
      assert field[..4][0] == s[0];
      assert field[0..|s|] == s;
      CStringIs(field, 0, s);
    } else {
      assert field[..4] == [0, 0, 0, 0] && field[4..] == Bytes32(0);
      Bytes32Value(0);
      if data[0] == 0 { CStringIs(data, 0, []); }
    }
  }

  /** The empty name is lost even in an object file without any long name, whose
      table is just its own length, four. */
  lemma EmptyNameLost()
    ensures var data := [4, 0, 0, 0];
            Directory(map[], data) && Decode(data, Encode(map[], []).value) == Some([4])
  {
    var data, field := [4, 0, 0, 0], Encode(map[], []).value;
    assert field[..4] == [0, 0, 0, 0] && field[4..] == Bytes32(0);
    Bytes32Value(0);
    CStringIs(data, 0, [4]);
  }

  // ---------- the string table ----------

  // The length of the table for these strings.
  function TableLength(strings: seq<Name>): nat {
    if strings == [] then COUNT_SIZE else
      var s := strings[|strings| - 1];
      TableLength(strings[..|strings| - 1]) + (if |s| > INLINE then |s| + 1 else 0)
  }

  lemma {:induction false} TableGrows(strings: seq<Name>, i: nat)
    requires i <= |strings|
    ensures COUNT_SIZE <= TableLength(strings[..i]) <= TableLength(strings)
    decreases |strings|
  {
    if i < |strings| {
      TableGrows(strings[..|strings| - 1], i);
      assert strings[..|strings| - 1][..i] == strings[..i];
    } else {
      assert strings[..i] == strings;
      if i > 0 { TableGrows(strings[..i - 1], i - 1); }
    }
  }

  lemma TableNext(strings: seq<Name>, i: nat)
    requires i < |strings|
    ensures TableLength(strings[..i + 1]) == TableLength(strings[..i]) + if |strings[i]| > INLINE then |strings[i]| + 1 else 0
    ensures COUNT_SIZE <= TableLength(strings[..i]) && TableLength(strings[..i + 1]) <= TableLength(strings)
  {
    assert strings[..i + 1][..i] == strings[..i];
    TableGrows(strings, i);
    TableGrows(strings, i + 1);
  }

  class StringTable {
    var directory: map<Name, int>
    var data: array<int>

    ghost predicate Valid()
      reads this, data
    {
      Directory(directory, data[..])
    }

    // An empty table of the given length.
    constructor Empty(length: nat)
      requires COUNT_SIZE <= length <= MAX_LENGTH
      ensures data.Length == length && fresh(data) && directory == map[] && data[..COUNT_SIZE] == Bytes32(length)
    {
      data := new int[length](i => if 0 <= i < COUNT_SIZE then Bytes32(length)[i] else 0);
      directory := map[];
    }

    // Put one long string at position p and into the directory.
    method Place(s: Name, p: nat)
      requires Valid() && |s| > INLINE && COUNT_SIZE <= p && p + |s| < data.Length && s !in directory
      requires forall r :: r in directory ==> directory[r] + |r| < p
      modifies this`directory, data
      ensures Valid() && directory == old(directory)[s := p] && data[..COUNT_SIZE] == old(data[..COUNT_SIZE])
    {
      ghost var before := data[..];
      CopyString(data, s, p);
      PlacedAlso(directory, before, data[..], s, p);
      directory := directory[s := p];
    }
  }

  method CopyString(data: array<int>, s: Name, p: nat)
    requires p + |s| < data.Length
    modifies data
    ensures data[..p] == old(data[..p]) && data[p..p + |s|] == s && data[p + |s|] == 0
  {
    for i := 0 to |s|
      invariant data[..p] == old(data[..p]) && data[p..p + i] == s[..i]
    {
      data[p + i] := s[i];
    }
    data[p + |s|] := 0;
    assert data[p..p + |s|] == s;
  }

  // Strings placed before position p stay where they are.
  lemma PlacedAlso(directory: map<Name, int>, before: seq<int>, after: seq<int>, s: Name, p: nat)
    requires Directory(directory, before) && |after| == |before| && COUNT_SIZE <= p && p + |s| < |before|
    requires forall r :: r in directory ==> directory[r] + |r| < p
    requires after[..p] == before[..p] && after[p..p + |s|] == s && after[p + |s|] == 0
    ensures Directory(directory[s := p], after) && after[..COUNT_SIZE] == before[..COUNT_SIZE]
  {
    forall r | r in directory ensures Located(after, r, directory[r]) {
      assert Located(before, r, directory[r]);
      Unmoved(before, after, p, directory[r], r);
    }
    assert after[..COUNT_SIZE] == after[..p][..COUNT_SIZE];
  }

  lemma Unmoved(before: seq<int>, after: seq<int>, p: nat, q: int, r: Name)
    requires Located(before, r, q) && q + |r| < p <= |after| == |before| && after[..p] == before[..p]
    ensures Located(after, r, q)
  {
    assert after[q..q + |r|] == after[..p][q..q + |r|] == before[..p][q..q + |r|];
    assert after[q + |r|] == after[..p][q + |r|] == before[..p][q + |r|];
  }

  /** The table for a set of strings: every long one can be found through the
      directory; none is made when it would be too long. */
  method MakeTable(strings: seq<Name>) returns (t: Option<StringTable>)
    requires Sorted(strings)
    ensures t.None? <==> TableLength(strings) > MAX_LENGTH
    ensures t.Some? ==> t.value.Valid() && fresh(t.value) && fresh(t.value.data)
    ensures t.Some? ==> forall s :: s in strings && |s| > INLINE ==> s in t.value.directory
    ensures t.Some? ==> t.value.data.Length == TableLength(strings) && t.value.data[..COUNT_SIZE] == Bytes32(TableLength(strings))
  {
    var length := COUNT_SIZE;
    for i := 0 to |strings|
      invariant length == TableLength(strings[..i]) <= MAX_LENGTH
    {
      TableNext(strings, i);
      var l := |strings[i]|;
      if l > INLINE {
        length := length + (l + 1);
        if length > MAX_LENGTH {
          return None;
        }
      }
    }
    assert strings[..|strings|] == strings;
    TableGrows(strings, 0);
    var table := new StringTable.Empty(length);
    Fill(table, strings);
    t := Some(table);
  }

  // The strings before i are in the table, and nothing else is; it is filled up to p.
  ghost predicate FilledTo(directory: map<Name, int>, strings: seq<Name>, i: nat, p: int)
    requires i <= |strings|
  {
    && p == TableLength(strings[..i])
    && (forall s :: s in strings[..i] && |s| > INLINE ==> s in directory)
    && forall r :: r in directory ==> r in strings[..i] && directory[r] + |r| < p
  }

  method Fill(table: StringTable, strings: seq<Name>)
    requires Sorted(strings) && table.data.Length == TableLength(strings) <= MAX_LENGTH && table.directory == map[]
    modifies table`directory, table.data
    ensures table.Valid() && table.data[..COUNT_SIZE] == old(table.data[..COUNT_SIZE])
    ensures forall s :: s in strings && |s| > INLINE ==> s in table.directory
  {
    TableGrows(strings, 0);
    var p := COUNT_SIZE;
    for i := 0 to |strings|
      invariant table.Valid() && FilledTo(table.directory, strings, i, p)
      invariant table.data[..COUNT_SIZE] == old(table.data[..COUNT_SIZE])
    {
      p := FillOne(table, strings, i, p);
    }
    assert strings[..|strings|] == strings;
  }

  method FillOne(table: StringTable, strings: seq<Name>, i: nat, p0: nat) returns (p: nat)
    requires Sorted(strings) && table.data.Length == TableLength(strings) && i < |strings|
    requires table.Valid() && FilledTo(table.directory, strings, i, p0)
    modifies table`directory, table.data
    ensures table.Valid() && FilledTo(table.directory, strings, i + 1, p)
    ensures table.data[..COUNT_SIZE] == old(table.data[..COUNT_SIZE])
  {
    p := p0;
    TableNext(strings, i);
    NewName(strings, i);
    FilledNext(table.directory, strings, i, p);
    var str := strings[i];
    if |str| > INLINE {
      table.Place(str, p);
      p := p + |str| + 1;
    }
  }

  lemma FilledNext(directory: map<Name, int>, strings: seq<Name>, i: nat, p: int)
    requires i < |strings| && strings[i] !in strings[..i] && FilledTo(directory, strings, i, p)
    ensures var s := strings[i];
            && s !in directory
            && if |s| > INLINE then FilledTo(directory[s := p], strings, i + 1, p + |s| + 1) else FilledTo(directory, strings, i + 1, p)
  {
    TableNext(strings, i);
    OneMoreName(strings, i);
  }

  lemma OneMoreName(strings: seq<Name>, i: nat)
    requires i < |strings|
    ensures forall s :: s in strings[..i + 1] <==> s in strings[..i] || s == strings[i]
  {
    assert strings[..i + 1] == strings[..i] + [strings[i]];
  }

  lemma NewName(strings: seq<Name>, i: nat)
    requires Sorted(strings) && i < |strings|
    ensures strings[i] !in strings[..i]
  {
    forall k | 0 <= k < i ensures strings[k] != strings[i] { LessTotal(strings[k], strings[i]); }
  }
}
