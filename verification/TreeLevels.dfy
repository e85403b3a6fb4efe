/** The levels of the barrier tree as values: those it starts from, and what the
    width optimization makes of them. */
module TreeLevels {
  import opened Sums

  const MAX_LEAVES := 4    // maxLeaves
  const MIN_BRANCH := 4    // minBranch
  const LEVELS := 7        // maxLevels of a new hierarchy

  // ---------- halving a level into the next ----------

  // The limit for level d, given the branching factor.
  function Limit(d: nat, branch: nat): nat {
    if d == 0 && branch > MAX_LEAVES then MAX_LEAVES else branch
  }

  // How often a level is halved, rounding up, until it is within the limit, and what is left.
  function Halvings(v: int, limit: nat): nat
    requires limit > 0
  {
    if v <= limit then 0 else 1 + Halvings((v + 1) / 2, limit)
  }

  function Halved(v: int, limit: nat): (r: int)
    requires limit > 0
    ensures r <= limit && (v > 0 ==> r > 0)
  {
    if v <= limit then v else Halved((v + 1) / 2, limit)
  }

  function Pow2(k: nat): (r: nat)
    ensures r > 0
  {
    if k == 0 then 1 else 2 * Pow2(k - 1)
  }

  // The levels and the depth after level d has been dealt with.
  function Next(levels: seq<int>, d: nat, limit: nat): (r: seq<int>)
    requires d + 1 < |levels| && limit > 0
    ensures |r| == |levels|
  {
    levels[d := Halved(levels[d], limit)][d + 1 := levels[d + 1] * Pow2(Halvings(levels[d], limit))]
  }

  function NextDepth(levels: seq<int>, d: nat, limit: nat, depth: nat): nat
    requires d + 1 < |levels| && limit > 0
  {
    if levels[d] > limit && levels[d + 1] == 1 then depth + 1 else depth
  }

  function NextBranch(levels: seq<int>, branch: nat): (r: nat)
    requires levels != []
    ensures branch >= MIN_BRANCH ==> r >= MIN_BRANCH
  {
    if levels[0] == 1 then (if branch / 2 < 4 then MIN_BRANCH else branch / 2) else branch
  }

  // From level d on, spreading the levels out stays within the arrays.
  predicate Fits(levels: seq<int>, d: nat, depth: nat, branch: nat)
    requires branch >= MIN_BRANCH
    decreases |levels| - d
  {
    if d + 1 >= depth then depth <= |levels|
    else
      && d + 1 < |levels|
      && var limit := Limit(d, branch);
         NextDepth(levels, d, limit, depth) <= |levels|
         && Fits(Next(levels, d, limit), d + 1, NextDepth(levels, d, limit, depth), NextBranch(Next(levels, d, limit), branch))
  }

  // The levels and the depth at the end of the width optimization, from level d on.
  function Spread(levels: seq<int>, d: nat, depth: nat, branch: nat): (seq<int>, nat)
    requires branch >= MIN_BRANCH && Fits(levels, d, depth, branch)
    decreases |levels| - d
  {
    if d + 1 >= depth then (levels, depth)
    else
      var limit := Limit(d, branch);
      Spread(Next(levels, d, limit), d + 1, NextDepth(levels, d, limit, depth), NextBranch(Next(levels, d, limit), branch))
  }

  // No level is empty, and from level `from` on there is one node to a level.
  ghost predicate Tree(levels: seq<int>, from: int) {
    forall i :: 0 <= i < |levels| ==> levels[i] > 0 && (i >= from ==> levels[i] == 1)
  }

  // Halving shifts nodes up by one level at most.
  lemma TreeAfter(before: seq<int>, d: nat, limit: nat, depth: nat)
    requires d + 1 < depth <= |before| && limit > 0 && Tree(before, depth - 1)
    ensures Tree(Next(before, d, limit), NextDepth(before, d, limit, depth) - 1)
  {
    PowAtLeast(Halvings(before[d], limit), before[d + 1]);
  }

  lemma PowAtLeast(k: nat, w: int)
    requires w > 0
    ensures w * Pow2(k) > 0 && (k == 0 ==> w * Pow2(k) == w)
  {
  }

  lemma FitsStep(levels: seq<int>, d: nat, depth: nat, branch: nat)
    requires branch >= MIN_BRANCH && d + 1 < depth <= |levels|
    ensures var limit := Limit(d, branch);
            var next, deeper := Next(levels, d, limit), NextDepth(levels, d, limit, depth);
            && Fits(levels, d, depth, branch) == (deeper <= |levels| && Fits(next, d + 1, deeper, NextBranch(next, branch)))
            && NextBranch(next, branch) >= MIN_BRANCH
  {
  }

  // The levels of a machine, finest first; see deriveLevels.
  ghost predicate MachineLevels(levels: seq<int>, numAddrs: nat) {
    (forall i :: 0 <= i < |levels| ==> levels[i] > 0) && Product(levels) >= numAddrs
  }

  function Ones(n: nat): (r: seq<int>)
    ensures |r| == n && forall i :: 0 <= i < n ==> r[i] == 1
  {
    seq(n, _ => 1)
  }

  // The levels to start from: those of the machine, or else leaves in groups of four.
  function StartLevels(machine: seq<int>, numAddrs: nat): (r: seq<int>)
    requires |machine| <= LEVELS
    ensures |r| == LEVELS
  {
    if machine != [] then machine + Ones(LEVELS - |machine|)
    else [MAX_LEAVES, numAddrs / MAX_LEAVES + (if numAddrs % MAX_LEAVES != 0 then 1 else 0)] + Ones(LEVELS - 2)
  }

  function StartBranch(levels: seq<int>, numAddrs: nat): (branch: nat)
    requires levels != []
    ensures branch >= MIN_BRANCH
  {
    if levels[0] == 1 && numAddrs / MAX_LEAVES > MIN_BRANCH then numAddrs / MAX_LEAVES else MIN_BRANCH
  }

  // One more than the number of levels up to the last with several nodes, counting the root.
  function DepthOf(levels: seq<int>): (depth: nat)
    ensures 1 <= depth <= |levels| + 1
  {
    if levels == [] then 1
    else if levels[|levels| - 1] != 1 then |levels| + 1
    else DepthOf(levels[..|levels| - 1])
  }

  lemma {:induction false} DepthIs(levels: seq<int>, depth: nat)
    requires 1 <= depth <= |levels| + 1 && (forall i :: depth - 1 <= i < |levels| ==> levels[i] == 1)
    requires depth == 1 || levels[depth - 2] != 1
    ensures DepthOf(levels) == depth
  {
    if depth < |levels| + 1 { DepthIs(levels[..|levels| - 1], depth); }
  }

  // The hierarchy that init builds keeps to its arrays; FitsExactly says when.
  predicate InitFits(machine: seq<int>, numAddrs: nat) {
    && |machine| <= LEVELS
    && var levels := StartLevels(machine, numAddrs);
       Fits(levels, 0, DepthOf(levels), StartBranch(levels, numAddrs))
  }
}
