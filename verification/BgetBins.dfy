/** The size classes of the thread-private heap: `bget_get_bin` chooses one of
    twenty free lists by a binary chop over a table of bin sizes. */
module BgetBins {

  const BINS := 20

  const BIN_SIZE: seq<int> := [
    0,
    0x80, 0x100, 0x200, 0x400, 0x800, 0x1000, 0x2000, 0x4000, 0x8000, 0x1_0000, 0x2_0000, 0x4_0000,
    0x8_0000, 0x10_0000, 0x20_0000, 0x40_0000, 0x80_0000, 0x100_0000, 0x200_0000
  ]

  // The bins that the chop never returns: it stops as soon as two candidates
  // are left and keeps the lower one without comparing against the upper one.
  const SKIPPED: set<int> := {3, 5, 8, 10, 13, 15, 19}

  ghost function Chop(table: seq<int>, size: int, lo: int, hi: int): int
    requires 0 <= lo <= hi < |table|
    decreases hi - lo
  {
    if hi - lo <= 1 then lo
    else
      var mid := (lo + hi) / 2;
      if size < table[mid] then Chop(table, size, lo, mid - 1) else Chop(table, size, mid, hi)
  }

  ghost function Bin(size: int): int {
    Chop(BIN_SIZE, size, 0, BINS - 1)
  }

  method GetBin(size: int) returns (lo: int)
    requires size > 0
    ensures 0 <= lo < BINS && lo == Bin(size)
  {
    lo := 0;
    var hi := BINS - 1;
    while hi - lo > 1
      invariant 0 <= lo <= hi < BINS
      invariant Chop(BIN_SIZE, size, lo, hi) == Bin(size)
    {
      var mid := (lo + hi) / 2;
      if size < BIN_SIZE[mid] {
        hi := mid - 1;
      } else {
        lo := mid;
      }
    }
  }

  lemma {:induction false} ChopRange(table: seq<int>, size: int, lo: int, hi: int)
    requires 0 <= lo <= hi < |table|
    ensures lo <= Chop(table, size, lo, hi) <= hi
    decreases hi - lo
  {
    if hi - lo > 1 {
      var mid := (lo + hi) / 2;
      if size < table[mid] { ChopRange(table, size, lo, mid - 1); } else { ChopRange(table, size, mid, hi); }
    }
  }

  lemma {:induction false} ChopMonotone(table: seq<int>, small: int, large: int, lo: int, hi: int)
    requires 0 <= lo <= hi < |table| && small <= large
    ensures Chop(table, small, lo, hi) <= Chop(table, large, lo, hi)
    decreases hi - lo
  {
    if hi - lo > 1 {
      var mid := (lo + hi) / 2;
      if large < table[mid] {
        ChopMonotone(table, small, large, lo, mid - 1);
      } else if table[mid] <= small {
        ChopMonotone(table, small, large, mid, hi);
      } else {
        ChopRange(table, small, lo, mid - 1);
        ChopRange(table, large, mid, hi);
      }
    }
  }

  /** A larger size never lands in a lower bin, so every block that can satisfy
      a request lies in the request's own bin or in a later one. */
  lemma BinMonotone(small: int, large: int)
    requires small <= large
    ensures 0 <= Bin(small) <= Bin(large) < BINS
  {
    ChopRange(BIN_SIZE, small, 0, BINS - 1);
    ChopRange(BIN_SIZE, large, 0, BINS - 1);
    ChopMonotone(BIN_SIZE, small, large, 0, BINS - 1);
  }

  // Bin i is the tightest one for a size when the size reaches BIN_SIZE[i] but not the next entry.
  ghost predicate Tightest(size: int, bin: int) {
    0 <= bin < BINS && BIN_SIZE[bin] <= size && (bin == BINS - 1 || size < BIN_SIZE[bin + 1])
  }

  /** The chop returns the tightest bin, except that the seven bins in SKIPPED
      are never used: a size whose tightest bin is one of them goes one lower. */
  lemma BinTightness(size: int, tight: int)
    requires Tightest(size, tight)
    ensures Bin(size) == if tight in SKIPPED then tight - 1 else tight
  {
    assert Bin(size) == if size < BIN_SIZE[9] then Chop(BIN_SIZE, size, 0, 8) else Chop(BIN_SIZE, size, 9, 19);
    if size < BIN_SIZE[9] {
      assert Chop(BIN_SIZE, size, 0, 8) == if size < BIN_SIZE[4] then Chop(BIN_SIZE, size, 0, 3) else Chop(BIN_SIZE, size, 4, 8);
      assert Chop(BIN_SIZE, size, 0, 3) == if size < BIN_SIZE[1] then Chop(BIN_SIZE, size, 0, 0) else Chop(BIN_SIZE, size, 1, 3);
      assert Chop(BIN_SIZE, size, 4, 8) == if size < BIN_SIZE[6] then Chop(BIN_SIZE, size, 4, 5) else Chop(BIN_SIZE, size, 6, 8);
    } else {
      assert Chop(BIN_SIZE, size, 9, 19) == if size < BIN_SIZE[14] then Chop(BIN_SIZE, size, 9, 13) else Chop(BIN_SIZE, size, 14, 19);
      assert Chop(BIN_SIZE, size, 9, 13) == if size < BIN_SIZE[11] then Chop(BIN_SIZE, size, 9, 10) else Chop(BIN_SIZE, size, 11, 13);
      assert Chop(BIN_SIZE, size, 14, 19) == if size < BIN_SIZE[16] then Chop(BIN_SIZE, size, 14, 15) else Chop(BIN_SIZE, size, 16, 19);
      assert Chop(BIN_SIZE, size, 16, 19) == if size < BIN_SIZE[17] then Chop(BIN_SIZE, size, 16, 16) else Chop(BIN_SIZE, size, 17, 19);
    }
  }
}
