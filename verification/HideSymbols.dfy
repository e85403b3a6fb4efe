/** Rewriting the symbol table of an object file: external symbols to be hidden
    get a prefix, and all names are encoded anew. */
module HideSymbols {
  import opened ExternalClosure
  import opened Options
  import opened SymbolNames

  // An 18-byte record: the name field, the section it belongs to, whether its storage
  // class is external, and how many auxiliary records follow.
  datatype Record = Record(name: seq<int>, section: int, isExternal: bool, nAux: nat)

  // The table consists of symbols, at the positions in `symbols`, each followed by its auxiliary records.
  ghost predicate Layout(t: seq<Record>, symbols: set<nat>) {
    (t != [] ==> 0 in symbols) && forall i {:trigger SymbolAt(t, symbols, i)} :: i in symbols ==> SymbolAt(t, symbols, i)
  }

  ghost predicate SymbolAt(t: seq<Record>, symbols: set<nat>, i: nat) {
    && i < |t| && i + t[i].nAux < |t| && |t[i].name| == INLINE
    && (i + 1 + t[i].nAux < |t| ==> i + 1 + t[i].nAux in symbols)
    && forall k :: i < k <= i + t[i].nAux ==> k !in symbols
  }

  lemma NextSymbol(t: seq<Record>, symbols: set<nat>, i: nat)
    requires Layout(t, symbols) && i in symbols
    ensures SymbolAt(t, symbols, i) && i + 1 + t[i].nAux <= |t|
    ensures i + 1 + t[i].nAux < |t| ==> i + 1 + t[i].nAux in symbols
  {
    assert SymbolAt(t, symbols, i);
  }

  function Rename(isExternal: bool, s: Name, hidden: set<Name>): (r: Name)
    ensures ZeroFree(s) ==> ZeroFree(r)
  {
    if isExternal && s in hidden then PREFIX + s else s
  }

  // What the record of symbol k is to be called.
  ghost predicate CalledAt(t: seq<Record>, data: seq<int>, hidden: set<Name>, k: nat, s: Name) {
    && k < |t| && |t[k].name| == INLINE
    && match Decode(data, t[k].name)
       case None => false
       case Some(old_) => s == Rename(t[k].isExternal, old_, hidden)
  }

  // The new name of symbol k is in the set.
  ghost predicate NameIn(t: seq<Record>, data: seq<int>, hidden: set<Name>, strings: seq<Name>, k: nat) {
    exists s :: s in strings && CalledAt(t, data, hidden, k, s)
  }

  // s is the new name of a symbol before record i.
  ghost predicate NameFrom(t: seq<Record>, symbols: set<nat>, data: seq<int>, hidden: set<Name>, i: nat, s: Name) {
    ZeroFree(s) && exists k: nat :: k in symbols && k < i && CalledAt(t, data, hidden, k, s)
  }

  // The set holds exactly the new names of the symbols before record i.
  ghost predicate Collected(t: seq<Record>, symbols: set<nat>, data: seq<int>, hidden: set<Name>, i: nat, strings: seq<Name>) {
    && Sorted(strings)
    && (forall k: nat {:trigger NameIn(t, data, hidden, strings, k)} :: k in symbols && k < i ==> NameIn(t, data, hidden, strings, k))
    && (forall s {:trigger NameFrom(t, symbols, data, hidden, i, s)} :: s in strings ==> NameFrom(t, symbols, data, hidden, i, s))
  }

  // set<string>::insert
  method Insert(strings: seq<Name>, s: Name) returns (r: seq<Name>)
    requires Sorted(strings)
    ensures Sorted(r) && forall x :: x in r <==> x in strings || x == s
  {
    var i := 0;
    while i < |strings| && Less(strings[i], s)
      invariant 0 <= i <= |strings| && forall k :: 0 <= k < i ==> Less(strings[k], s)
    {
      i := i + 1;
    }
    if i < |strings| && strings[i] == s {
      r := strings;
    } else {
      r := strings[..i] + [s] + strings[i..];
      InsertSorted(strings, i, s);
    }
  }

  lemma InsertSorted(strings: seq<Name>, i: nat, s: Name)
    requires Sorted(strings) && i <= |strings| && (forall k :: 0 <= k < i ==> Less(strings[k], s))
    requires i < |strings| ==> !Less(strings[i], s) && strings[i] != s
    ensures Sorted(strings[..i] + [s] + strings[i..])
  {
    forall k | i <= k < |strings| ensures Less(s, strings[k]) {
      LessTotal(strings[i], s);
      if k > i { LessTransitive(s, strings[i], strings[k]); }
    }
    var r := strings[..i] + [s] + strings[i..];
    forall k, l | 0 <= k < l < |r| ensures Less(r[k], r[l]) {
      assert r[k] == if k < i then strings[k] else if k == i then s else strings[k - 1];
      assert r[l] == if l < i then strings[l] else if l == i then s else strings[l - 1];
    }
  }

  // Some symbol has a name field that points outside the string table.
  ghost predicate Broken(t: seq<Record>, symbols: set<nat>, data: seq<int>, k: nat) {
    k in symbols && k < |t| && |t[k].name| == INLINE && Decode(data, t[k].name).None?
  }

  /** Pass one: the set of all names as they will be. */
  method CollectNames(t: seq<Record>, ghost symbols: set<nat>, data: seq<int>, hidden: set<Name>) returns (ok: bool, strings: seq<Name>)
    requires Layout(t, symbols)
    ensures ok ==> Collected(t, symbols, data, hidden, |t|, strings)
    ensures !ok ==> exists k: nat :: Broken(t, symbols, data, k)
  {
    strings := [];
    var i := 0;
    while i < |t|
      invariant 0 <= i <= |t| && (i < |t| ==> i in symbols)
      invariant Collected(t, symbols, data, hidden, i, strings)
    {
      assert SymbolAt(t, symbols, i);
      var s := Decode(data, t[i].name);
      if s.None? {
        assert Broken(t, symbols, data, i);
        return false, strings;
      }
      var called := Rename(t[i].isExternal, s.value, hidden);
      var more := Insert(strings, called);
      CollectedNext(t, symbols, data, hidden, i, strings, called, more);
      strings := more;
      i := i + 1 + t[i].nAux;
    }
    ok := true;
  }

  lemma CollectedNext(t: seq<Record>, symbols: set<nat>, data: seq<int>, hidden: set<Name>, i: nat, strings: seq<Name>, s: Name, more: seq<Name>)
    requires SymbolAt(t, symbols, i) && i in symbols && Collected(t, symbols, data, hidden, i, strings)
    requires CalledAt(t, data, hidden, i, s) && Sorted(more) && forall x :: x in more <==> x in strings || x == s
    ensures Collected(t, symbols, data, hidden, i + 1 + t[i].nAux, more)
  {
    var e := i + 1 + t[i].nAux;
    forall k: nat | k in symbols && k < e ensures NameIn(t, data, hidden, more, k) {
      if k < i {
        assert NameIn(t, data, hidden, strings, k);
        var x :| x in strings && CalledAt(t, data, hidden, k, x);
        assert x in more;
      } else {
        assert s in more;
      }
    }
    forall x | x in more ensures NameFrom(t, symbols, data, hidden, e, x) {
      if x in strings { assert NameFrom(t, symbols, data, hidden, i, x); }
    }
  }

  // Symbol k after the rewriting: a name field that stands for its new name in the new
  // string table, and everything else as before.
  ghost predicate RewrittenAt(t: seq<Record>, data: seq<int>, hidden: set<Name>, out: seq<Record>, newData: seq<int>, k: nat)
    requires k < |t| && k < |out|
  {
    && |out[k].name| == INLINE && out[k] == t[k].(name := out[k].name)
    && exists s :: CalledAt(t, data, hidden, k, s) && NameIs(newData, out[k].name, s)
  }

  // The field stands for s; the empty name needs the first byte of the table to be zero.
  ghost predicate NameIs(data: seq<int>, field: seq<int>, s: Name)
    requires |field| == INLINE
  {
    Decode(data, field) == Some(s) <==> s != [] || (|data| > 0 && data[0] == 0)
  }

  // The first i records as they are to be written.
  ghost predicate Rewritten(t: seq<Record>, symbols: set<nat>, data: seq<int>, hidden: set<Name>, out: seq<Record>, newData: seq<int>, i: nat) {
    && |out| == i <= |t|
    && (forall k: nat {:trigger RewrittenAt(t, data, hidden, out, newData, k)} :: k < i && k in symbols ==>
          RewrittenAt(t, data, hidden, out, newData, k))
    && (forall k: nat {:trigger out[k]} :: k < i && k !in symbols ==> out[k] == t[k])
  }

  // Symbol i with its new name field, and its auxiliary records.
  function Group(t: seq<Record>, i: nat, field: seq<int>): (r: seq<Record>)
    requires i < |t| && i + t[i].nAux < |t|
    ensures |r| == 1 + t[i].nAux && r[0] == t[i].(name := field)
    ensures forall k :: 0 < k < |r| ==> r[k] == t[i + k]
  {
    [t[i].(name := field)] + t[i + 1..i + 1 + t[i].nAux]
  }

  lemma RewrittenSame(t: seq<Record>, data: seq<int>, hidden: set<Name>, out: seq<Record>, newData: seq<int>, k: nat, more: seq<Record>)
    requires k < |t| && k < |out| && RewrittenAt(t, data, hidden, out, newData, k)
    ensures RewrittenAt(t, data, hidden, out + more, newData, k)
  {
  }

  lemma RewrittenNew(t: seq<Record>, data: seq<int>, hidden: set<Name>, out: seq<Record>, newData: seq<int>, i: nat,
                     s: Name, field: seq<int>)
    requires i < |t| && i + t[i].nAux < |t| && |out| == i
    requires CalledAt(t, data, hidden, i, s) && |field| == INLINE && NameIs(newData, field, s)
    ensures RewrittenAt(t, data, hidden, out + Group(t, i, field), newData, i)
  {
  }

  lemma RewrittenNext(t: seq<Record>, symbols: set<nat>, data: seq<int>, hidden: set<Name>, out: seq<Record>, newData: seq<int>, i: nat,
                      s: Name, field: seq<int>)
    requires SymbolAt(t, symbols, i) && i in symbols && Rewritten(t, symbols, data, hidden, out, newData, i)
    requires CalledAt(t, data, hidden, i, s) && |field| == INLINE && NameIs(newData, field, s)
    ensures Rewritten(t, symbols, data, hidden, out + Group(t, i, field), newData, i + 1 + t[i].nAux)
  {
    var e, more := i + 1 + t[i].nAux, Group(t, i, field);
    forall k: nat | k < e && k in symbols ensures RewrittenAt(t, data, hidden, out + more, newData, k) {
      if k < i {
        RewrittenSame(t, data, hidden, out, newData, k, more);
      } else {
        RewrittenNew(t, data, hidden, out, newData, i, s, field);
      }
    }
    forall k: nat | k < e && k !in symbols ensures (out + more)[k] == t[k] {
      if k >= i { assert (out + more)[k] == more[k - i]; }
    }
  }

  // The new table as pass two sees it: every long name that was collected can be found.
  ghost predicate NewTable(directory: map<Name, int>, newData: seq<int>, strings: seq<Name>) {
    Directory(directory, newData) && forall x :: x in strings && |x| > INLINE ==> x in directory
  }

  // The new name of symbol i and its name field; pass one has collected the name.
  method FieldFor(t: seq<Record>, ghost symbols: set<nat>, data: seq<int>, hidden: set<Name>, ghost strings: seq<Name>,
                  directory: map<Name, int>, ghost newData: seq<int>, i: nat) returns (ghost s: Name, field: seq<int>)
    requires NewTable(directory, newData, strings) && Collected(t, symbols, data, hidden, |t|, strings)
    requires SymbolAt(t, symbols, i) && i in symbols
    ensures CalledAt(t, data, hidden, i, s) && |field| == INLINE && NameIs(newData, field, s)
  {
    var name := CollectedDecodes(t, symbols, data, hidden, strings, i);
    var called := Rename(t[i].isExternal, name, hidden);
    s := called;
    CollectedName(t, symbols, data, hidden, strings, i, s);
    RoundTrip(directory, newData, s);
    field := Encode(directory, called).value;
  }

  lemma CollectedName(t: seq<Record>, symbols: set<nat>, data: seq<int>, hidden: set<Name>, strings: seq<Name>, i: nat, s: Name)
    requires Collected(t, symbols, data, hidden, |t|, strings) && i < |t| && i in symbols && CalledAt(t, data, hidden, i, s)
    ensures s in strings && ZeroFree(s)
  {
    assert NameIn(t, data, hidden, strings, i);
    var x :| x in strings && CalledAt(t, data, hidden, i, x);
    assert NameFrom(t, symbols, data, hidden, |t|, x);
  }

  /** Pass two: it never meets a name that pass one has not collected, so encoding never fails. */
  method Rewrite(t: seq<Record>, ghost symbols: set<nat>, data: seq<int>, hidden: set<Name>, ghost strings: seq<Name>,
                 directory: map<Name, int>, ghost newData: seq<int>) returns (out: seq<Record>)
    requires Layout(t, symbols) && NewTable(directory, newData, strings) && Collected(t, symbols, data, hidden, |t|, strings)
    ensures Rewritten(t, symbols, data, hidden, out, newData, |t|)
  {
    out := [];
    var i: nat := 0;
    while i < |t|
      invariant i <= |t| && (i < |t| ==> i in symbols)
      invariant Rewritten(t, symbols, data, hidden, out, newData, i)
    {
      var group;
      group, i := RewriteOne(t, symbols, data, hidden, strings, directory, newData, i, out);
      out := out + group;
    }
  }

  // Symbol i with its new name and its auxiliary records, and where the next symbol is.
  method RewriteOne(t: seq<Record>, ghost symbols: set<nat>, data: seq<int>, hidden: set<Name>, ghost strings: seq<Name>,
                    directory: map<Name, int>, ghost newData: seq<int>, i: nat, ghost out: seq<Record>)
    returns (group: seq<Record>, next: nat)
    requires Layout(t, symbols) && NewTable(directory, newData, strings) && Collected(t, symbols, data, hidden, |t|, strings)
    requires i < |t| && i in symbols && Rewritten(t, symbols, data, hidden, out, newData, i)
    ensures i < next <= |t| && (next < |t| ==> next in symbols)
    ensures Rewritten(t, symbols, data, hidden, out + group, newData, next)
  {
    NextSymbol(t, symbols, i);
    next := i + 1 + t[i].nAux;
    group := WriteSymbol(t, symbols, data, hidden, strings, directory, newData, i, next, out);
  }

  method WriteSymbol(t: seq<Record>, ghost symbols: set<nat>, data: seq<int>, hidden: set<Name>, ghost strings: seq<Name>,
                     directory: map<Name, int>, ghost newData: seq<int>, i: nat, ghost next: nat, ghost out: seq<Record>)
    returns (group: seq<Record>)
    requires NewTable(directory, newData, strings) && Collected(t, symbols, data, hidden, |t|, strings)
    requires SymbolAt(t, symbols, i) && i in symbols && Rewritten(t, symbols, data, hidden, out, newData, i)
    requires next == i + 1 + t[i].nAux
    ensures Rewritten(t, symbols, data, hidden, out + group, newData, next)
  {
    ghost var s;
    var field;
    s, field := FieldFor(t, symbols, data, hidden, strings, directory, newData, i);
    RewrittenNext(t, symbols, data, hidden, out, newData, i, s, field);
    group := Group(t, i, field);
  }

  method CollectedDecodes(t: seq<Record>, ghost symbols: set<nat>, data: seq<int>, ghost hidden: set<Name>, ghost strings: seq<Name>, i: nat) returns (name: Name)
    requires Collected(t, symbols, data, hidden, |t|, strings) && SymbolAt(t, symbols, i) && i in symbols
    ensures |t[i].name| == INLINE && Decode(data, t[i].name) == Some(name)
    ensures CalledAt(t, data, hidden, i, Rename(t[i].isExternal, name, hidden))
  {
    assert NameIn(t, data, hidden, strings, i);
    ghost var x :| x in strings && CalledAt(t, data, hidden, i, x);
    var old_ := Decode(data, t[i].name);
    name := old_.value;
  }

  /** hideSymbols: both passes. It fails only on a symbol whose name cannot be
      found in the old table, or when the new table would be too long. */
  method Hide(t: seq<Record>, ghost symbols: set<nat>, data: seq<int>, hidden: set<Name>)
    returns (out: Option<seq<Record>>, table: Option<StringTable>, ghost strings: seq<Name>)
    requires Layout(t, symbols)
    ensures out.Some? <==> table.Some?
    ensures out.None? ==>
      (exists k: nat :: Broken(t, symbols, data, k)) || (Collected(t, symbols, data, hidden, |t|, strings) && TableLength(strings) > MAX_LENGTH)
    ensures out.Some? ==> Rewritten(t, symbols, data, hidden, out.value, table.value.data[..], |t|)
  {
    out, table := None, None;
    var ok, names := CollectNames(t, symbols, data, hidden);
    strings := names;
    if ok {
      table := MakeTable(names);
      if table.Some? {
        var records := Rewrite(t, symbols, data, hidden, strings, table.value.directory, table.value.data[..]);
        out := Some(records);
      }
    }
  }

  // ---------- linking ----------

  // A name that is not hidden but is already what a hidden name becomes.
  predicate Taken(a: Name, b: Name, hidden: set<Name>) {
    a in hidden && b !in hidden && b == PREFIX + a
  }

  // Two external names are equal after the renaming exactly when they were
  // before, unless one of them is the prefix put to the other, hidden one.
  lemma LinksKept(a: Name, b: Name, hidden: set<Name>)
    ensures Rename(true, a, hidden) == Rename(true, b, hidden) <==> a == b || Taken(a, b, hidden) || Taken(b, a, hidden)
  {
    assert (PREFIX + a)[|PREFIX|..] == a && (PREFIX + b)[|PREFIX|..] == b;
  }
}
