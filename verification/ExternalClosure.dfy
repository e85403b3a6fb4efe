/** Which of the external object files are needed, directly or indirectly, by
    the internal ones. */
module ExternalClosure {
  import opened Intervals

  type Name = seq<int>

  // operator< on strings.
  predicate Less(a: Name, b: Name) {
    b != [] && (a == [] || a[0] < b[0] || (a[0] == b[0] && Less(a[1..], b[1..])))
  }

  lemma {:induction false} LessTotal(a: Name, b: Name)
    ensures Less(a, b) || Less(b, a) || a == b
    ensures !(Less(a, b) && Less(b, a)) && (Less(a, b) ==> a != b)
  {
    if a != [] && b != [] && a[0] == b[0] {
      LessTotal(a[1..], b[1..]);
      assert a == [a[0]] + a[1..] && b == [b[0]] + b[1..];
    }
  }

  lemma {:induction false} LessTransitive(a: Name, b: Name, c: Name)
    requires Less(a, b) && Less(b, c)
    ensures Less(a, c)
  {
    if a != [] && a[0] == b[0] && b[0] == c[0] { LessTransitive(a[1..], b[1..], c[1..]); }
  }

  // The contents of a std::set of strings, in its order.
  ghost predicate Sorted(s: seq<Name>) {
    forall i, j :: 0 <= i < j < |s| ==> Less(s[i], s[j])
  }

  // Names before position i of a are less than b[k] and all that follow it.
  lemma PastIs(a: seq<Name>, i: nat, b: seq<Name>, k: nat)
    requires i < |a| && k < |b| && Sorted(b) && Less(a[i], b[k])
    ensures forall l :: k <= l < |b| ==> a[i] != b[l]
  {
    forall l | k <= l < |b| ensures a[i] != b[l] {
      if k < l { LessTransitive(a[i], b[k], b[l]); }
      LessTotal(a[i], b[l]);
    }
  }

  /** The merge scan over two sorted sets tells whether they have a common element. */
  method IsDisjoint(a: seq<Name>, b: seq<Name>) returns (disjoint: bool)
    requires Sorted(a) && Sorted(b)
    ensures disjoint <==> forall x :: x in a ==> x !in b
  {
    var ita, itb := 0, 0;
    while ita < |a| && itb < |b|
      invariant 0 <= ita <= |a| && 0 <= itb <= |b|
      invariant forall i, k :: 0 <= i < |a| && 0 <= k < |b| && (i < ita || k < itb) ==> a[i] != b[k]
      decreases |a| - ita + |b| - itb
    {
      if Less(a[ita], b[itb]) {
        PastIs(a, ita, b, itb);
        ita := ita + 1;
      } else if Less(b[itb], a[ita]) {
        PastIs(b, itb, a, ita);
        itb := itb + 1;
      } else {
        LessTotal(a[ita], b[itb]);
        assert a[ita] in a && a[ita] in b;
        return false;
      }
    }
    return true;
  }

  // Object files 0 to nExternal - 1 are external, the rest internal; the names that
  // each defines, and those it uses without defining them.
  datatype Files = Files(nExternal: nat, nTotal: nat, defined: seq<seq<Name>>, undefined: seq<seq<Name>>)

  ghost predicate Valid(f: Files) {
    && f.nExternal <= f.nTotal == |f.defined| == |f.undefined|
    && forall x :: 0 <= x < f.nTotal ==> Sorted(f.defined[x]) && Sorted(f.undefined[x])
  }

  ghost predicate DependsOn(f: Files, x: int, y: int) {
    0 <= x < |f.undefined| && 0 <= y < |f.defined| && exists n :: n in f.undefined[x] && n in f.defined[y]
  }

  ghost predicate Kept(f: Files, required: set<int>, x: int) {
    f.nExternal <= x < f.nTotal || x in required
  }

  // Every external file that a kept file depends on is kept.
  ghost predicate ClosedUnder(f: Files, required: set<int>) {
    forall x, y {:trigger DependsOn(f, x, y)} :: Kept(f, required, x) && 0 <= y < f.nExternal && DependsOn(f, x, y) ==> y in required
  }

  // The least such set: it is within every other one.
  ghost predicate Needed(f: Files, y: int) {
    forall c: set<int> :: ClosedUnder(f, c) ==> y in c
  }

  lemma NeededNext(f: Files, x: int, y: int)
    requires (f.nExternal <= x < f.nTotal || Needed(f, x)) && 0 <= y < f.nExternal && DependsOn(f, x, y)
    ensures Needed(f, y)
  {
    forall c: set<int> | ClosedUnder(f, c) ensures y in c { assert Kept(f, c, x); }
  }

  // All that x depends on has been found.
  ghost predicate Expanded(f: Files, required: set<int>, x: int) {
    forall y :: 0 <= y < f.nExternal && DependsOn(f, x, y) ==> y in required
  }

  // What is known during the search: files waiting in `fresh` or `next` may still have
  // dependencies that have not been found.
  ghost predicate Searching(f: Files, required: set<int>, waiting: set<int>) {
    && (forall y :: y in required ==> 0 <= y < f.nExternal && Needed(f, y))
    && (forall x :: x in waiting ==> Kept(f, required, x))
    && (forall x :: Kept(f, required, x) && x !in waiting ==> Expanded(f, required, x))
  }

  lemma SearchDone(f: Files, required: set<int>)
    requires Searching(f, required, {})
    ensures ClosedUnder(f, required) && forall c: set<int> :: ClosedUnder(f, c) ==> required <= c
  {
    forall x, y | Kept(f, required, x) && 0 <= y < f.nExternal && DependsOn(f, x, y) ensures y in required {
      assert Expanded(f, required, x);
    }
    forall c: set<int> | ClosedUnder(f, c) ensures required <= c {
      forall y | y in required ensures y in c { assert Needed(f, y); }
    }
  }

  lemma FoundOne(f: Files, required: set<int>, waiting: set<int>, i: int)
    requires Searching(f, required, waiting) && 0 <= i < f.nExternal && Needed(f, i)
    ensures Searching(f, required + {i}, waiting + {i})
  {
    forall x | Kept(f, required + {i}, x) && x !in waiting + {i} ensures Expanded(f, required + {i}, x) {
      assert Kept(f, required, x) && Expanded(f, required, x);
    }
  }

  lemma AllFound(f: Files, required: set<int>, waiting: set<int>, x: int)
    requires Searching(f, required, waiting) && Expanded(f, required, x)
    ensures Searching(f, required, waiting - {x})
  {
  }

  // External file i is looked at for file x.
  method Check(f: Files, x: int, i: nat, required0: set<int>, ghost waiting: set<int>) returns (required: set<int>)
    requires Valid(f) && 0 <= x < f.nTotal && i < f.nExternal && Kept(f, required0, x) && Searching(f, required0, waiting)
    ensures required == required0 || (i !in required0 && required == required0 + {i})
    ensures Searching(f, required, if required == required0 then waiting else waiting + {i})
    ensures DependsOn(f, x, i) ==> i in required
  {
    required := required0;
    if i !in required {
      var disjoint := IsDisjoint(f.defined[i], f.undefined[x]);
      if !disjoint {
        NeededNext(f, x, i);
        FoundOne(f, required, waiting, i);
        required := required + {i};
      }
    }
  }

  // The loop over the external files for one file x. `waiting` are the files whose
  // dependencies have not all been found; `found` are new ones.
  method Expand(f: Files, x: int, required0: set<int>, ghost waiting: set<int>) returns (required: set<int>, found: set<int>)
    requires Valid(f) && 0 <= x < f.nTotal && Kept(f, required0, x) && Searching(f, required0, waiting)
    ensures Searching(f, required, (waiting + found) - {x})
    ensures required == required0 + found && found !! required0 && (forall y :: y in found ==> 0 <= y < f.nExternal)
  {
    required, found := required0, {};
    assert waiting + found == waiting;
    for i := 0 to f.nExternal
      invariant Searching(f, required, waiting + found)
      invariant required == required0 + found && found !! required0 && (forall y :: y in found ==> 0 <= y < f.nExternal)
      invariant forall y :: 0 <= y < i && DependsOn(f, x, y) ==> y in required
    {
      var more := Check(f, x, i, required, waiting + found);
      if more != required {
        assert waiting + found + {i} == waiting + (found + {i});
        required := more;
        found := found + {i};
      }
    }
    assert Expanded(f, required, x);
    AllFound(f, required, waiting + found, x);
  }

  // One round: all files of the worklist.
  method Round(f: Files, required0: set<int>, fresh_: set<int>) returns (required: set<int>, next: set<int>)
    requires Valid(f) && Searching(f, required0, fresh_) && (forall x :: x in fresh_ ==> 0 <= x < f.nTotal)
    ensures Searching(f, required, next) && required == required0 + next && next !! required0
    ensures forall x :: x in next ==> 0 <= x < f.nExternal
  {
    required, next := required0, {};
    ghost var left := fresh_;
    for x := 0 to f.nTotal
      invariant left <= fresh_ && (forall y :: y in fresh_ ==> y in left || y < x) && (forall y :: y in left ==> y >= x)
      invariant Searching(f, required, left + next)
      invariant required == required0 + next && next !! required0 && (forall y :: y in next ==> 0 <= y < f.nExternal)
    {
      if x in fresh_ {
        assert Kept(f, required, x);
        var found;
        required, found := Expand(f, x, required, left + next);
        assert left + next + found - {x} == (left - {x}) + (next + found);
        next := next + found;
        left := left - {x};
      }
    }
    assert left + next == next;
  }

  method Internal(f: Files) returns (fresh_: set<int>)
    requires f.nExternal <= f.nTotal
    ensures forall x :: x in fresh_ <==> f.nExternal <= x < f.nTotal
  {
    fresh_ := {};
    for i := f.nTotal downto f.nExternal
      invariant forall x :: x in fresh_ <==> i <= x < f.nTotal
    {
      fresh_ := fresh_ + {i};
    }
  }

  lemma AtMost(s: set<int>, n: nat)
    requires forall x :: x in s ==> 0 <= x < n
    ensures |s| <= n
  {
    var all := set x | 0 <= x < n && Within(0, n, x);
    IntervalSize(0, n);
    assert all == s + (all - s);
  }

  // Every external file that defines a name which file x uses is required.
  ghost predicate Served(f: Files, required: set<int>, x: int) {
    forall y, name {:trigger Provides(f, x, y, name)} :: Provides(f, x, y, name) && y < f.nExternal ==> y in required
  }

  ghost predicate Provides(f: Files, x: int, y: int, name: Name) {
    0 <= x < |f.undefined| && 0 <= y < |f.defined| && name in f.undefined[x] && name in f.defined[y]
  }

  lemma AllServed(f: Files, required: set<int>)
    requires ClosedUnder(f, required)
    ensures forall x :: Kept(f, required, x) ==> Served(f, required, x)
  {
    forall x, y, name | Kept(f, required, x) && Provides(f, x, y, name) && y < f.nExternal ensures y in required {
      assert DependsOn(f, x, y);
    }
  }

  /** findRequiredExternal: the least set of external files that has every
      external file a kept file depends on; no kept file uses a name that only
      removed files define. */
  method FindRequiredExternal(f: Files) returns (required: set<int>)
    requires Valid(f)
    ensures ClosedUnder(f, required) && forall c: set<int> :: ClosedUnder(f, c) ==> required <= c
    ensures forall y :: y in required ==> 0 <= y < f.nExternal
    ensures forall x :: Kept(f, required, x) ==> Served(f, required, x)
  {
    required := {};
    var fresh_ := Internal(f);
    var changed := true;
    while changed
      invariant Searching(f, required, fresh_) && (forall x :: x in fresh_ ==> 0 <= x < f.nTotal)
      invariant forall y :: y in required ==> 0 <= y < f.nExternal
      invariant !changed ==> fresh_ == {}
      decreases f.nExternal - |required|, changed
    {
      var next;
      required, next := Round(f, required, fresh_);
      AtMost(required, f.nExternal);
      changed := next != {};
      fresh_ := next;
    }
    SearchDone(f, required);
    AllServed(f, required);
  }

  // A chain of dependencies that starts at an internal file.
  ghost predicate Chain(f: Files, path: seq<int>) {
    && |path| > 1 && f.nExternal <= path[0] < f.nTotal
    && forall i :: 0 < i < |path| ==> 0 <= path[i] < f.nExternal && DependsOn(f, path[i - 1], path[i])
  }

  /** The result is the transitive closure: a file is required just if a chain of
      dependencies leads to it from an internal file. */
  lemma RequiredByChain(f: Files, required: set<int>, y: int)
    requires Valid(f) && ClosedUnder(f, required) && forall c: set<int> :: ClosedUnder(f, c) ==> required <= c
    requires forall z :: z in required ==> 0 <= z < f.nExternal
    ensures y in required <==> exists path :: Chain(f, path) && path[|path| - 1] == y
  {
    var reached := set z | z in required && ChainTo(f, z);
    forall a, b | Kept(f, reached, a) && 0 <= b < f.nExternal && DependsOn(f, a, b) ensures b in reached {
      assert Kept(f, required, a);
      ChainGrows(f, a, b);
    }
    assert ClosedUnder(f, reached) && required <= reached;
    assert y in required ==> ChainTo(f, y);
    forall path | Chain(f, path) ensures path[|path| - 1] in required { ChainRequired(f, required, path); }
  }

  ghost predicate ChainTo(f: Files, z: int) {
    exists path :: Chain(f, path) && path[|path| - 1] == z
  }

  lemma ChainGrows(f: Files, a: int, b: int)
    requires (f.nExternal <= a < f.nTotal || ChainTo(f, a)) && 0 <= b < f.nExternal && DependsOn(f, a, b)
    ensures ChainTo(f, b)
  {
    if f.nExternal <= a < f.nTotal {
      var path := [a, b];
      assert Chain(f, path) && path[|path| - 1] == b;
    } else {
      var path :| Chain(f, path) && path[|path| - 1] == a;
      var longer := path + [b];
      forall i | 0 < i < |longer| ensures 0 <= longer[i] < f.nExternal && DependsOn(f, longer[i - 1], longer[i]) {
        assert longer[i - 1] == path[i - 1];
        assert i < |path| ==> longer[i] == path[i];
      }
      assert Chain(f, longer) && longer[|longer| - 1] == b;
    }
  }

  lemma {:induction false} ChainRequired(f: Files, required: set<int>, path: seq<int>)
    requires ClosedUnder(f, required) && Chain(f, path)
    ensures path[|path| - 1] in required
    decreases |path|
  {
    var n := |path| - 1;
    if n > 1 {
      assert Chain(f, path[..n]);
      ChainRequired(f, required, path[..n]);
    }
    assert DependsOn(f, path[n - 1], path[n]) && Kept(f, required, path[n - 1]);
  }
}
