/** The tool that hides the symbols of linked-in object files, from the symbol
    tables of all files to the rewritten ones, and what it keeps: the links. */
module LinkTool {
  import opened ExternalClosure
  import opened HideSymbols
  import opened Options
  import opened SymbolNames

  // An object file: its symbol table and its string table.
  datatype Object = Object(records: seq<Record>, data: seq<int>)

  // Symbol k is external and called a.
  ghost predicate ExternalAt(o: Object, symbols: set<nat>, k: nat, a: Name) {
    && k in symbols && k < |o.records| && |o.records[k].name| == INLINE && o.records[k].isExternal
    && Decode(o.data, o.records[k].name) == Some(a)
  }

  // An external symbol before record n defines the name, or uses it without a definition.
  ghost predicate Defines(o: Object, symbols: set<nat>, n: nat, a: Name) {
    exists k: nat :: k < n && ExternalAt(o, symbols, k, a) && o.records[k].section != 0
  }

  ghost predicate Uses(o: Object, symbols: set<nat>, n: nat, a: Name) {
    exists k: nat :: k < n && ExternalAt(o, symbols, k, a) && o.records[k].section == 0
  }

  // What has been found out of the records before n.
  ghost predicate Found(o: Object, symbols: set<nat>, n: nat, defined: seq<Name>, undefined: seq<Name>) {
    && Sorted(defined) && Sorted(undefined)
    && (forall a :: a in defined <==> Defines(o, symbols, n, a))
    && (forall a :: a in undefined <==> Uses(o, symbols, n, a))
  }

  /** computeExternalSymbols: the external names that the file defines, and those
      that it uses; it fails only on an external symbol whose name lies outside
      the string table. */
  method ComputeExternal(o: Object, ghost symbols: set<nat>) returns (ok: bool, defined: seq<Name>, undefined: seq<Name>)
    requires Layout(o.records, symbols)
    ensures ok ==> Found(o, symbols, |o.records|, defined, undefined)
    ensures !ok ==> exists k: nat :: Broken(o.records, symbols, o.data, k)
  {
    defined, undefined := [], [];
    var i := 0;
    while i < |o.records|
      invariant 0 <= i <= |o.records| && (i < |o.records| ==> i in symbols)
      invariant Found(o, symbols, i, defined, undefined)
    {
      NextSymbol(o.records, symbols, i);
      var e := o.records[i];
      var next := i + 1 + e.nAux;
      if e.isExternal {
        var s := Decode(o.data, e.name);
        if s.None? {
          assert Broken(o.records, symbols, o.data, i);
          return false, defined, undefined;
        }
        ghost var d, u := defined, undefined;
        if e.section != 0 {
          defined := Insert(defined, s.value);
        } else {
          undefined := Insert(undefined, s.value);
        }
        ExternalNext(o, symbols, i, next, s.value, d, u, defined, undefined);
      } else {
        LocalNext(o, symbols, i, next, defined, undefined);
      }
      i := next;
    }
    ok := true;
  }

  lemma ExternalNext(o: Object, symbols: set<nat>, i: nat, next: nat, s: Name,
                     d: seq<Name>, u: seq<Name>, d': seq<Name>, u': seq<Name>)
    requires SymbolAt(o.records, symbols, i) && ExternalAt(o, symbols, i, s) && next == i + 1 + o.records[i].nAux
    requires Found(o, symbols, i, d, u) && Sorted(d') && Sorted(u')
    requires forall a :: a in d' <==> a in d || (o.records[i].section != 0 && a == s)
    requires forall a :: a in u' <==> a in u || (o.records[i].section == 0 && a == s)
    ensures Found(o, symbols, next, d', u')
  {
    forall a ensures Defines(o, symbols, next, a) <==> a in d' {
      if k: nat :| k < next && ExternalAt(o, symbols, k, a) && o.records[k].section != 0 {
        assert k < i ==> Defines(o, symbols, i, a);
      }
    }
    forall a ensures Uses(o, symbols, next, a) <==> a in u' {
      if k: nat :| k < next && ExternalAt(o, symbols, k, a) && o.records[k].section == 0 {
        assert k < i ==> Uses(o, symbols, i, a);
      }
    }
  }

  lemma LocalNext(o: Object, symbols: set<nat>, i: nat, next: nat, d: seq<Name>, u: seq<Name>)
    requires SymbolAt(o.records, symbols, i) && i in symbols && !o.records[i].isExternal && next == i + 1 + o.records[i].nAux
    requires Found(o, symbols, i, d, u)
    ensures Found(o, symbols, next, d, u)
  {
    forall a ensures Defines(o, symbols, next, a) <==> Defines(o, symbols, i, a) {
      if k: nat :| k < next && ExternalAt(o, symbols, k, a) && o.records[k].section != 0 { assert k < i; }
    }
    forall a ensures Uses(o, symbols, next, a) <==> Uses(o, symbols, i, a) {
      if k: nat :| k < next && ExternalAt(o, symbols, k, a) && o.records[k].section == 0 { assert k < i; }
    }
  }

  // ---------- links between two rewritten files ----------

  // o' is what hideSymbols makes of o.
  ghost predicate Hides(o: Object, symbols: set<nat>, hidden: set<Name>, o': Object) {
    Rewritten(o.records, symbols, o.data, hidden, o'.records, o'.data, |o.records|)
  }

  ghost function NewName(o': Object, k: nat): Option<Name> {
    if k < |o'.records| && |o'.records[k].name| == INLINE then Decode(o'.data, o'.records[k].name) else None
  }

  lemma NameAfter(o: Object, symbols: set<nat>, hidden: set<Name>, o': Object, k: nat, a: Name)
    requires Hides(o, symbols, hidden, o') && ExternalAt(o, symbols, k, a) && a != []
    ensures NewName(o', k) == Some(Rename(true, a, hidden))
  {
    assert RewrittenAt(o.records, o.data, hidden, o'.records, o'.data, k);
    var s :| CalledAt(o.records, o.data, hidden, k, s) && NameIs(o'.data, o'.records[k].name, s);
  }

  /** Two external symbols, in the same file or in two, have the same name after
      the rewriting exactly if they had before, or one had the name that the
      other, a hidden one, gets. */
  lemma LinkKept(o: Object, so: set<nat>, o': Object, p: Object, sp: set<nat>, p': Object, hidden: set<Name>,
                 j: nat, a: Name, k: nat, b: Name)
    requires Hides(o, so, hidden, o') && Hides(p, sp, hidden, p')
    requires ExternalAt(o, so, j, a) && ExternalAt(p, sp, k, b) && a != [] && b != []
    ensures NewName(o', j) == NewName(p', k) <==> a == b || Taken(a, b, hidden) || Taken(b, a, hidden)
  {
    NameAfter(o, so, hidden, o', j, a);
    NameAfter(p, sp, hidden, p', k, b);
    LinksKept(a, b, hidden);
  }

  // ---------- all files ----------

  // File x is kept and has an external symbol j called a.
  ghost predicate Linkable(objects: seq<Object>, layouts: seq<set<nat>>, out: seq<Option<Object>>, x: nat, j: nat, a: Name) {
    x < |objects| && |layouts| == |objects| == |out| && out[x].Some? && ExternalAt(objects[x], layouts[x], j, a) && a != []
  }

  // Symbols of kept files are linked to each other afterwards if and only if they were before.
  ghost predicate SameLinks(objects: seq<Object>, layouts: seq<set<nat>>, out: seq<Option<Object>>) {
    forall x: nat, j: nat, a: Name, y: nat, k: nat, b: Name ::
      Linkable(objects, layouts, out, x, j, a) && Linkable(objects, layouts, out, y, k, b) ==>
        (NewName(out[x].value, j) == NewName(out[y].value, k) <==> a == b)
  }

  // No kept file has an external symbol with the name that another, hidden one gets.
  ghost predicate NoneTaken(objects: seq<Object>, layouts: seq<set<nat>>, out: seq<Option<Object>>, hidden: set<Name>) {
    forall x: nat, j: nat, a: Name, y: nat, k: nat, b: Name ::
      Linkable(objects, layouts, out, x, j, a) && Linkable(objects, layouts, out, y, k, b) ==> !Taken(a, b, hidden)
  }

  ghost predicate AllHidden(objects: seq<Object>, layouts: seq<set<nat>>, out: seq<Option<Object>>, hidden: set<Name>, n: nat) {
    && |layouts| == |objects| == |out| >= n
    && forall x :: 0 <= x < n && out[x].Some? ==> Hides(objects[x], layouts[x], hidden, out[x].value)
  }

  /** Over all kept files: linking is preserved exactly if no name is taken. */
  lemma LinkingPreserved(objects: seq<Object>, layouts: seq<set<nat>>, out: seq<Option<Object>>, hidden: set<Name>)
    requires AllHidden(objects, layouts, out, hidden, |objects|)
    ensures SameLinks(objects, layouts, out) <==> NoneTaken(objects, layouts, out, hidden)
  {
    forall x: nat, j: nat, a: Name, y: nat, k: nat, b: Name | Linkable(objects, layouts, out, x, j, a) && Linkable(objects, layouts, out, y, k, b)
      ensures (NewName(out[x].value, j) == NewName(out[y].value, k) <==> a == b || Taken(a, b, hidden) || Taken(b, a, hidden))
    {
      LinkKept(objects[x], layouts[x], out[x].value, objects[y], layouts[y], out[y].value, hidden, j, a, k, b);
    }
    assert forall a, b :: Taken(a, b, hidden) ==> a != b;
  }

  // A name of at most eight characters, as it stands in a record.
  function Short(s: Name): seq<int>
    requires |s| <= INLINE
  {
    s + seq(INLINE - |s|, _ => 0)
  }

  // An external file that defines f, and an internal one that uses it and has a symbol
  // called __kmp_external_f of its own.
  function TakenFiles(): seq<Object> {
    [Object([Record(Short([102]), 1, true, 0)], [4, 0, 0, 0]),
     Object([Record(Short([102]), 0, true, 0), Record(TakenField(), 1, true, 0)], TakenTable())]
  }

  // A table that holds the name __kmp_external_f at position four, and the field for it.
  function TakenTable(): seq<int> {
    [21, 0, 0, 0] + PREFIX + [102, 0]
  }

  function TakenField(): (field: seq<int>)
    ensures |field| == INLINE
  {
    [0, 0, 0, 0, 4, 0, 0, 0]
  }

  lemma TakenName()
    ensures Decode(TakenTable(), TakenField()) == Some(PREFIX + [102])
  {
    assert TakenField()[..4] == [0, 0, 0, 0] && TakenField()[4..] == [4, 0, 0, 0];
    assert TakenTable()[4..4 + 16] == PREFIX + [102];
    CStringIs(TakenTable(), 4, PREFIX + [102]);
  }

  lemma ShortName(data: seq<int>)
    ensures Decode(data, Short([102])) == Some([102])
  {
    var field := Short([102]);
    assert field[..4][0] == 102 && field[0..1] == [102];
    CStringIs(field, 0, [102]);
  }

  lemma TakenNames()
    ensures var o := TakenFiles();
            ExternalAt(o[0], {0}, 0, [102]) && ExternalAt(o[1], {0, 1}, 0, [102]) && ExternalAt(o[1], {0, 1}, 1, PREFIX + [102])
  {
    ShortName(TakenFiles()[0].data);
    ShortName(TakenFiles()[1].data);
    TakenName();
  }

  // The two files rewritten: every symbol is called __kmp_external_f.
  function TakenOut(): seq<Option<Object>> {
    [Some(Object([Record(TakenField(), 1, true, 0)], TakenTable())),
     Some(Object([Record(TakenField(), 0, true, 0), Record(TakenField(), 1, true, 0)], TakenTable()))]
  }

  // A symbol that now has the field of __kmp_external_f, called so or f before.
  lemma TakenAt(o: Object, layout: set<nat>, o': Object, k: nat, a: Name)
    requires ExternalAt(o, layout, k, a) && (a == [102] || a == PREFIX + [102])
    requires k < |o'.records| && o'.records[k] == o.records[k].(name := TakenField()) && o'.data == TakenTable()
    ensures RewrittenAt(o.records, o.data, {[102]}, o'.records, o'.data, k)
  {
    TakenName();
    assert Rename(true, a, {[102]}) == PREFIX + [102];
    assert CalledAt(o.records, o.data, {[102]}, k, PREFIX + [102]);
  }

  lemma TakenOutside()
    ensures Hides(TakenFiles()[0], {0}, {[102]}, TakenOut()[0].value)
  {
    TakenNames();
    TakenAt(TakenFiles()[0], {0}, TakenOut()[0].value, 0, [102]);
  }

  lemma BothHidden(o: Object, hidden: set<Name>, o': Object)
    requires |o.records| == |o'.records| == 2
    requires forall k: nat :: k < 2 ==> RewrittenAt(o.records, o.data, hidden, o'.records, o'.data, k)
    ensures Hides(o, {0, 1}, hidden, o')
  {
  }

  lemma TakenInside()
    ensures Hides(TakenFiles()[1], {0, 1}, {[102]}, TakenOut()[1].value)
  {
    var o, o' := TakenFiles()[1], TakenOut()[1].value;
    TakenNames();
    assert |o.records| == |o'.records| == 2;
    TakenAt(o, {0, 1}, o', 0, [102]);
    TakenAt(o, {0, 1}, o', 1, PREFIX + [102]);
    BothHidden(o, {[102]}, o');
  }

  lemma TakenHidden()
    ensures AllHidden(TakenFiles(), [{0}, {0, 1}], TakenOut(), {[102]}, 2)
  {
    TakenOutside();
    TakenInside();
  }

  /** An input that loses its links: a symbol of the internal file already has the
      name that f gets, and afterwards the two cannot be told apart. */
  lemma LinkingBreaks()
    ensures AllHidden(TakenFiles(), [{0}, {0, 1}], TakenOut(), {[102]}, 2)
    ensures !SameLinks(TakenFiles(), [{0}, {0, 1}], TakenOut())
  {
    var o, out := TakenFiles(), TakenOut();
    var layouts: seq<set<nat>> := [{0}, {0, 1}];
    TakenNames();
    TakenHidden();
    assert Linkable(o, layouts, out, 0, 0, [102]) && Linkable(o, layouts, out, 1, 1, PREFIX + [102]);
    assert Taken([102], PREFIX + [102], {[102]});
    LinkingPreserved(o, layouts, out, {[102]});
  }

  // ---------- the whole tool ----------

  // f says of each file what it defines and uses.
  ghost predicate Described(objects: seq<Object>, layouts: seq<set<nat>>, f: Files, n: nat) {
    && n <= |f.defined| == |f.undefined| <= |objects| == |layouts|
    && forall x :: 0 <= x < n ==> Found(objects[x], layouts[x], |objects[x].records|, f.defined[x], f.undefined[x])
  }

  // The names to be hidden: those that required external files define.
  ghost predicate HiddenBy(f: Files, required: set<int>, hidden: set<Name>) {
    forall s :: s in hidden <==> exists y :: y in required && 0 <= y < |f.defined| && s in f.defined[y]
  }

  // A symbol has a name outside the string table, or the new string table would be too long.
  ghost predicate Stops(o: Object, symbols: set<nat>, hidden: set<Name>) {
    || (exists k: nat :: Broken(o.records, symbols, o.data, k))
    || (exists strings :: Collected(o.records, symbols, o.data, hidden, |o.records|, strings) && TableLength(strings) > MAX_LENGTH)
  }

  ghost predicate SomeStops(objects: seq<Object>, layouts: seq<set<nat>>, hidden: set<Name>) {
    exists x :: 0 <= x < |objects| && |objects| == |layouts| && Stops(objects[x], layouts[x], hidden)
  }

  method Describe(nExternal: nat, objects: seq<Object>, ghost layouts: seq<set<nat>>) returns (ok: bool, f: Files)
    requires |layouts| == |objects| >= nExternal && forall x :: 0 <= x < |objects| ==> Layout(objects[x].records, layouts[x])
    ensures ok ==> Valid(f) && f.nExternal == nExternal && f.nTotal == |objects| && Described(objects, layouts, f, |objects|)
    ensures !ok ==> SomeStops(objects, layouts, {})
  {
    var defined, undefined: seq<seq<Name>> := [], [];
    for i := 0 to |objects|
      invariant |defined| == |undefined| == i
      invariant forall x :: 0 <= x < i ==> Found(objects[x], layouts[x], |objects[x].records|, defined[x], undefined[x])
    {
      var d, u;
      ok, d, u := ComputeExternal(objects[i], layouts[i]);
      if !ok {
        assert Stops(objects[i], layouts[i], {});
        return false, Files(nExternal, |objects|, defined, undefined);
      }
      defined, undefined := defined + [d], undefined + [u];
    }
    return true, Files(nExternal, |objects|, defined, undefined);
  }

  // The names defined by the required files before i have been inserted.
  method HiddenNames(f: Files, required: set<int>) returns (hidden: set<Name>)
    requires Valid(f) && forall y :: y in required ==> 0 <= y < f.nExternal
    ensures HiddenBy(f, required, hidden)
  {
    hidden := {};
    for i := 0 to f.nExternal
      invariant forall s :: s in hidden <==> exists y :: y in required && 0 <= y < i && s in f.defined[y]
    {
      if i in required {
        hidden := hidden + set s | s in f.defined[i];
      }
    }
  }

  /** The tool: it keeps the internal files and the least set of external ones
      that they need, hides what the latter define, and keeps the links between
      all kept files exactly if no name is taken. It stops only on a broken
      symbol table or on a string table that would be too long. */
  method Run(nExternal: nat, objects: seq<Object>, ghost layouts: seq<set<nat>>)
    returns (ok: bool, out: seq<Option<Object>>, f: Files, required: set<int>, hidden: set<Name>)
    requires |layouts| == |objects| >= nExternal && forall x :: 0 <= x < |objects| ==> Layout(objects[x].records, layouts[x])
    ensures ok ==> |out| == |objects| && Valid(f) && f.nExternal == nExternal && f.nTotal == |objects|
    ensures ok ==> Described(objects, layouts, f, |objects|) && HiddenBy(f, required, hidden)
    ensures ok ==> ClosedUnder(f, required) && forall c: set<int> :: ClosedUnder(f, c) ==> required <= c
    ensures ok ==> forall x :: 0 <= x < |objects| ==> (out[x].Some? <==> Kept(f, required, x))
    ensures ok ==> AllHidden(objects, layouts, out, hidden, |objects|)
    ensures !ok ==> SomeStops(objects, layouts, hidden)
    ensures ok ==> (SameLinks(objects, layouts, out) <==> NoneTaken(objects, layouts, out, hidden))
  {
    out, required, hidden := [], {}, {};
    ok, f := Describe(nExternal, objects, layouts);
    if !ok {
      return;
    }
    required := FindRequiredExternal(f);
    hidden := HiddenNames(f, required);
    ok, out := HideAll(f, objects, layouts, required, hidden);
    if ok { LinkingPreserved(objects, layouts, out, hidden); }
  }

  method HideAll(f: Files, objects: seq<Object>, ghost layouts: seq<set<nat>>, required: set<int>, hidden: set<Name>)
    returns (ok: bool, out: seq<Option<Object>>)
    requires |layouts| == |objects| == f.nTotal && forall x :: 0 <= x < |objects| ==> Layout(objects[x].records, layouts[x])
    ensures ok ==> AllHidden(objects, layouts, out, hidden, |objects|)
    ensures ok ==> forall x :: 0 <= x < |objects| ==> (out[x].Some? <==> Kept(f, required, x))
    ensures !ok ==> SomeStops(objects, layouts, hidden)
  {
    out := [];
    for i := 0 to |objects|
      invariant |out| == i && forall x :: 0 <= x < i ==> (out[x].Some? <==> Kept(f, required, x))
      invariant forall x :: 0 <= x < i && out[x].Some? ==> Hides(objects[x], layouts[x], hidden, out[x].value)
    {
      var next: Option<Object> := None;
      if i >= f.nExternal || i in required {
        var done, table;
        ghost var strings;
        done, table, strings := Hide(objects[i].records, layouts[i], objects[i].data, hidden);
        if done.None? {
          assert Stops(objects[i], layouts[i], hidden);
          return false, out;
        }
        next := Some(Object(done.value, table.value.data[..]));
      }
      out := out + [next];
    }
    ok := true;
  }
}
