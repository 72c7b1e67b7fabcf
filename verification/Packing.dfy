/** Greedy packing with walk-back overlap, shared by Split, splitFenced and splitLines. */
module Packing {

  // ----- sums -----

  function Sum(tok: seq<int>, a: nat, b: nat): int
    requires a <= b <= |tok|
    decreases b
  {
    if a == b then 0 else Sum(tok, a, b - 1) + tok[b - 1]
  }

  ghost predicate NonNegative(tok: seq<int>) {
    forall k :: 0 <= k < |tok| ==> tok[k] >= 0
  }

  lemma {:induction false} SumSplit(tok: seq<int>, a: nat, b: nat, c: nat)
    requires a <= b <= c <= |tok|
    ensures Sum(tok, a, c) == Sum(tok, a, b) + Sum(tok, b, c)
    decreases c
  {
    if b < c {
      SumSplit(tok, a, b, c - 1);
    }
  }

  lemma SumFront(tok: seq<int>, a: nat, b: nat)
    requires a < b <= |tok|
    ensures Sum(tok, a, b) == tok[a] + Sum(tok, a + 1, b)
  {
    SumSplit(tok, a, a + 1, b);
    assert Sum(tok, a, a + 1) == Sum(tok, a, a) + tok[a];
  }

  lemma {:induction false} SumNonNegative(tok: seq<int>, a: nat, b: nat)
    requires NonNegative(tok) && a <= b <= |tok|
    ensures Sum(tok, a, b) >= 0
    decreases b
  {
    if a < b {
      SumNonNegative(tok, a, b - 1);
    }
  }

  /** With non-negative terms a sub-range sums to no more than the whole range. */
  lemma SumMonotone(tok: seq<int>, a: nat, b: nat, c: nat, d: nat)
    requires NonNegative(tok) && a <= b <= c <= d <= |tok|
    ensures Sum(tok, b, c) <= Sum(tok, a, d)
  {
    SumSplit(tok, a, b, d);
    SumSplit(tok, b, c, d);
    SumNonNegative(tok, a, b);
    SumNonNegative(tok, c, d);
  }

  /** A stretch of the terms, taken on its own. */
  lemma {:induction false} SumSlice(tok: seq<int>, part: seq<int>, a: nat, n: nat)
    requires a + n <= |tok| && n <= |part| && forall k :: 0 <= k < n ==> part[k] == tok[a + k]
    ensures Sum(part, 0, n) == Sum(tok, a, a + n)
  {
    if n > 0 {
      SumSlice(tok, part, a, n - 1);
    }
  }

  // ----- the two loops -----

  /** The last unit of the chunk that begins at unit `i` and already reaches unit `j`. */
  function Grow(tok: seq<int>, i: nat, j: nat, maxTok: int): (r: nat)
    requires i <= j < |tok|
    ensures j <= r < |tok|
    ensures forall k: nat :: j + 1 < k <= r + 1 ==> Sum(tok, i, k) <= maxTok
    ensures r + 1 < |tok| ==> Sum(tok, i, r + 2) > maxTok
    decreases |tok| - j
  {
    if j + 1 < |tok| && Sum(tok, i, j + 2) <= maxTok then Grow(tok, i, j + 1, maxTok) else j
  }

  method GrowChunk(tok: seq<int>, i: nat, maxTok: int) returns (j: nat, sum: int)
    requires i < |tok|
    ensures j == Grow(tok, i, i, maxTok)
    ensures sum == Sum(tok, i, j + 1)
  {
    j, sum := i, tok[i];
    while j + 1 < |tok| && sum + tok[j + 1] <= maxTok
      invariant i <= j < |tok|
      invariant sum == Sum(tok, i, j + 1)
      invariant Grow(tok, i, j, maxTok) == Grow(tok, i, i, maxTok)
    {
      j := j + 1;
      sum := sum + tok[j];
    }
  }

  /** The walk back from `ov` towards, but never onto, unit `i`, over the units before `end`. */
  function WalkBack(tok: seq<int>, i: nat, end: nat, ov: nat, overlapTok: int): (r: nat)
    requires i < ov <= end <= |tok|
    ensures i < r <= ov
    ensures forall k: nat :: r <= k < ov ==> Sum(tok, k, end) <= overlapTok
    ensures r - 1 > i ==> Sum(tok, r - 1, end) > overlapTok
    decreases ov
  {
    if ov - 1 > i && Sum(tok, ov - 1, end) <= overlapTok then WalkBack(tok, i, end, ov - 1, overlapTok) else ov
  }

  /** The first unit of the chunk after the one over units `i` to `j`. */
  function NextStart(tok: seq<int>, i: nat, j: nat, overlapTok: int): (r: nat)
    requires i <= j < |tok|
    ensures i < r <= j + 1
    ensures overlapTok <= 0 ==> r == j + 1
  {
    if overlapTok <= 0 then j + 1 else WalkBack(tok, i, j + 1, j + 1, overlapTok)
  }

  method OverlapStart(tok: seq<int>, i: nat, j: nat, overlapTok: int) returns (ov: nat)
    requires i <= j < |tok|
    ensures ov == NextStart(tok, i, j, overlapTok)
  {
    if overlapTok <= 0 {
      return j + 1;
    }
    var ovSum;
    ov, ovSum := j + 1, 0;
    while ov - 1 > i && ovSum + tok[ov - 1] <= overlapTok
      invariant i < ov <= j + 1
      invariant ovSum == Sum(tok, ov, j + 1)
      invariant WalkBack(tok, i, j + 1, ov, overlapTok) == WalkBack(tok, i, j + 1, j + 1, overlapTok)
    {
      SumFront(tok, ov - 1, j + 1);
      ov := ov - 1;
      ovSum := ovSum + tok[ov];
    }
    SumFront(tok, ov - 1, j + 1);
  }

  // ----- what the two loops find -----

  /** growChunk reaches exactly the units that still fit with all units before them. */
  lemma GrowIsLongest(tok: seq<int>, i: nat, maxTok: int, k: nat)
    requires NonNegative(tok) && i <= k < |tok| && tok[i] <= maxTok
    ensures Sum(tok, i, k + 1) <= maxTok <==> k <= Grow(tok, i, i, maxTok)
  {
    var j := Grow(tok, i, i, maxTok);
    assert Sum(tok, i, i + 1) == Sum(tok, i, i) + tok[i];
    if k > j {
      SumMonotone(tok, i, i, j + 2, k + 1);
    } else {
      SumMonotone(tok, i, i, k + 1, j + 1);
    }
  }

  /** overlapStart takes back exactly the trailing units that fit the overlap budget together, never unit `i` itself. */
  lemma OverlapIsLongest(tok: seq<int>, i: nat, j: nat, overlapTok: int, k: nat)
    requires NonNegative(tok) && i < k <= j < |tok| && overlapTok > 0
    ensures Sum(tok, k, j + 1) <= overlapTok <==> NextStart(tok, i, j, overlapTok) <= k
  {
    var r := NextStart(tok, i, j, overlapTok);
    if k < r {
      SumMonotone(tok, k, r - 1, j + 1, j + 1);
    }
  }

  // ----- the plan of a packing run -----

  /** One turn of the packing loop: units first..last packed together, or one oversize unit cut up. */
  datatype Step = Pack(first: nat, last: nat) | Hard(first: nat) {
    function Last(): nat {
      if Pack? then last else first
    }
  }

  /** Where the loop goes on after packing units `i` to `j`: it is over once the last unit is out. */
  function NextTurn(tok: seq<int>, i: nat, j: nat, overlapTok: int): (r: nat)
    requires i <= j < |tok|
    ensures i < r <= |tok|
  {
    if j == |tok| - 1 then |tok| else NextStart(tok, i, j, overlapTok)
  }

  /** The turns of the packing loop from unit `i` on. */
  function Plan(tok: seq<int>, i: nat, maxTok: int, overlapTok: int): seq<Step>
    requires i <= |tok|
    decreases |tok| - i
  {
    if i == |tok| then []
    else if tok[i] > maxTok then [Hard(i)] + Plan(tok, i + 1, maxTok, overlapTok)
    else
      var j := Grow(tok, i, i, maxTok);
      [Pack(i, j)] + Plan(tok, NextTurn(tok, i, j, overlapTok), maxTok, overlapTok)
  }

  /** A packed step stays in budget and holds no oversize unit; a hard step is one oversize unit. */
  ghost predicate StepOk(tok: seq<int>, maxTok: int, s: Step) {
    match s
    case Pack(a, b) =>
      a <= b < |tok| && Sum(tok, a, b + 1) <= maxTok && forall k :: a <= k <= b ==> tok[k] <= maxTok
    case Hard(k) =>
      k < |tok| && tok[k] > maxTok
  }

  /** Step `q` may come right after step `p`; `tight` says there is no overlap. */
  ghost predicate Follows(tight: bool, p: Step, q: Step) {
    && p.first < q.first <= p.Last() + 1
    && p.Last() <= q.Last()
    && (tight || p.Hard? || q.Hard? ==> q.first == p.Last() + 1)
  }

  /** A complete plan: it begins at `i`, skips nothing, and is over as soon as the last unit is out. */
  ghost predicate PlanOk(tok: seq<int>, i: nat, maxTok: int, tight: bool, plan: seq<Step>) {
    && plan != []
    && plan[0].first == i
    && plan[|plan| - 1].Last() + 1 == |tok|
    && (forall k :: 0 <= k < |plan| - 1 ==> plan[k].Last() + 1 < |tok|)
    && (forall k :: 0 <= k < |plan| ==> StepOk(tok, maxTok, plan[k]))
    && (forall k :: 0 <= k < |plan| - 1 ==> Follows(tight, plan[k], plan[k + 1]))
  }

  lemma PlanOkCons(tok: seq<int>, i: nat, maxTok: int, tight: bool, s: Step, rest: seq<Step>)
    requires StepOk(tok, maxTok, s) && s.first == i
    requires if rest == [] then s.Last() + 1 == |tok|
             else s.Last() + 1 < |tok| && PlanOk(tok, rest[0].first, maxTok, tight, rest) && Follows(tight, s, rest[0])
    ensures PlanOk(tok, i, maxTok, tight, [s] + rest)
  {
    var plan := [s] + rest;
    forall k | 0 <= k < |plan| - 1
      ensures Follows(tight, plan[k], plan[k + 1])
    {
      if k > 0 {
        assert Follows(tight, rest[k - 1], rest[k]);
      }
    }
  }

  lemma PackOk(tok: seq<int>, i: nat, maxTok: int)
    requires NonNegative(tok) && i < |tok| && tok[i] <= maxTok
    ensures StepOk(tok, maxTok, Pack(i, Grow(tok, i, i, maxTok)))
  {
    var j := Grow(tok, i, i, maxTok);
    assert Sum(tok, i, i + 1) == Sum(tok, i, i) + tok[i];
    forall k: nat | i <= k <= j
      ensures tok[k] <= maxTok
    {
      SumMonotone(tok, i, k, k + 1, j + 1);
      assert Sum(tok, k, k + 1) == Sum(tok, k, k) + tok[k];
    }
  }

  lemma FirstStep(tok: seq<int>, i: nat, maxTok: int, overlapTok: int)
    requires i < |tok|
    ensures Plan(tok, i, maxTok, overlapTok) != []
    ensures Plan(tok, i, maxTok, overlapTok)[0] ==
            if tok[i] > maxTok then Hard(i) else Pack(i, Grow(tok, i, i, maxTok))
  {
  }

  /** What comes after a packed step begins inside it or right behind it, and reaches at least as far. */
  lemma PackFollows(tok: seq<int>, i: nat, maxTok: int, overlapTok: int)
    requires NonNegative(tok) && i < |tok| && tok[i] <= maxTok
    requires Grow(tok, i, i, maxTok) < |tok| - 1
    ensures var j := Grow(tok, i, i, maxTok);
            var next := Plan(tok, NextStart(tok, i, j, overlapTok), maxTok, overlapTok);
            next != [] && Follows(overlapTok <= 0, Pack(i, j), next[0])
  {
    var j := Grow(tok, i, i, maxTok);
    var ov := NextStart(tok, i, j, overlapTok);
    FirstStep(tok, ov, maxTok, overlapTok);
    PackOk(tok, i, maxTok);
    if ov <= j {
      var j' := Grow(tok, ov, ov, maxTok);
      if j' < j {
        SumMonotone(tok, i, ov, j' + 2, j + 1);
      }
    }
  }

  /** The packing loop's contract, for every token list and budget. */
  lemma {:induction false} PlanShape(tok: seq<int>, i: nat, maxTok: int, overlapTok: int)
    requires NonNegative(tok) && i < |tok|
    ensures PlanOk(tok, i, maxTok, overlapTok <= 0, Plan(tok, i, maxTok, overlapTok))
    decreases |tok| - i
  {
    FirstStep(tok, i, maxTok, overlapTok);
    if tok[i] > maxTok {
      var rest := Plan(tok, i + 1, maxTok, overlapTok);
      if i + 1 < |tok| {
        FirstStep(tok, i + 1, maxTok, overlapTok);
        PlanShape(tok, i + 1, maxTok, overlapTok);
      }
      PlanOkCons(tok, i, maxTok, overlapTok <= 0, Hard(i), rest);
    } else {
      var j := Grow(tok, i, i, maxTok);
      PackOk(tok, i, maxTok);
      if j == |tok| - 1 {
        PlanOkCons(tok, i, maxTok, overlapTok <= 0, Pack(i, j), []);
      } else {
        var ov := NextStart(tok, i, j, overlapTok);
        PlanShape(tok, ov, maxTok, overlapTok);
        PackFollows(tok, i, maxTok, overlapTok);
        PlanOkCons(tok, i, maxTok, overlapTok <= 0, Pack(i, j), Plan(tok, ov, maxTok, overlapTok));
      }
    }
  }

  lemma {:induction false} PlanAscends(tok: seq<int>, i: nat, maxTok: int, tight: bool, plan: seq<Step>, a: nat, b: nat)
    requires PlanOk(tok, i, maxTok, tight, plan) && a < b < |plan|
    ensures plan[a].first < plan[b].first && plan[a].Last() <= plan[b].Last()
    decreases b
  {
    assert Follows(tight, plan[b - 1], plan[b]);
    if a < b - 1 {
      PlanAscends(tok, i, maxTok, tight, plan, a, b - 1);
    }
  }

  /** Every unit from `i` on belongs to some step. */
  lemma {:induction false} PlanCovers(tok: seq<int>, i: nat, maxTok: int, tight: bool, plan: seq<Step>, u: nat, m: nat)
    requires PlanOk(tok, i, maxTok, tight, plan) && m < |plan| && i <= u <= plan[m].Last()
    ensures exists q :: 0 <= q <= m && plan[q].first <= u <= plan[q].Last()
    decreases m
  {
    if u < plan[m].first {
      assert Follows(tight, plan[m - 1], plan[m]);
      PlanCovers(tok, i, maxTok, tight, plan, u, m - 1);
    }
  }

  /** One step hard-splits unit `u`, and no other step touches it. */
  ghost predicate SplitOnce(plan: seq<Step>, u: nat) {
    exists q :: 0 <= q < |plan| && plan[q] == Hard(u) &&
                forall p :: 0 <= p < |plan| && plan[p].first <= u <= plan[p].Last() ==> p == q
  }

  /** Each oversize unit is hard-split by exactly one step, and is part of no other step. */
  lemma OversizeSplitOnce(tok: seq<int>, maxTok: int, overlapTok: int, u: nat)
    requires NonNegative(tok) && u < |tok| && tok[u] > maxTok
    ensures SplitOnce(Plan(tok, 0, maxTok, overlapTok), u)
  {
    var plan := Plan(tok, 0, maxTok, overlapTok);
    PlanShape(tok, 0, maxTok, overlapTok);
    PlanCovers(tok, 0, maxTok, overlapTok <= 0, plan, u, |plan| - 1);
    var q :| 0 <= q < |plan| && plan[q].first <= u <= plan[q].Last();
    assert StepOk(tok, maxTok, plan[q]);
    forall p | 0 <= p < |plan| && plan[p].first <= u <= plan[p].Last()
      ensures p == q
    {
      assert StepOk(tok, maxTok, plan[p]);
      if p < q {
        PlanAscends(tok, 0, maxTok, overlapTok <= 0, plan, p, q);
      } else if q < p {
        PlanAscends(tok, 0, maxTok, overlapTok <= 0, plan, q, p);
      }
    }
    assert plan[q] == Hard(u);
  }

  // ----- the run, said without the loops -----

  /** Units `a` to `k` together are within the budget. */
  ghost predicate Fits(tok: seq<int>, a: nat, k: nat, budget: int) {
    a <= k < |tok| && Sum(tok, a, k + 1) <= budget
  }

  /** A step takes in as much as it may: one oversize unit, or exactly the units that fit the budget with the first. */
  ghost predicate StepIsGreedy(tok: seq<int>, maxTok: int, s: Step) {
    match s
    case Hard(k) =>
      k < |tok| && tok[k] > maxTok
    case Pack(a, b) =>
      a <= b < |tok| && tok[a] <= maxTok && forall k: nat :: a <= k < |tok| ==> (Fits(tok, a, k, maxTok) <==> k <= b)
  }

  /**
    * What comes next begins right behind an oversize unit; behind a packed step it takes back exactly the trailing
    * units that fit the overlap budget together, but not the first one.
    */
  ghost predicate NextIsGreedy(tok: seq<int>, overlapTok: int, p: Step, q: Step) {
    match p
    case Hard(k) =>
      q.first == k + 1
    case Pack(a, b) =>
      a < q.first <= b + 1 <= |tok| &&
      forall k: nat :: a < k <= b ==> (q.first <= k <==> overlapTok > 0 && Fits(tok, k, b, overlapTok))
  }

  /** A run over the units from `i` on: every step greedy, each next one too, and over when the last unit is out. */
  ghost predicate GreedyRun(tok: seq<int>, i: nat, maxTok: int, overlapTok: int, plan: seq<Step>) {
    && (forall k :: 0 <= k < |plan| ==> StepIsGreedy(tok, maxTok, plan[k]))
    && (forall k :: 0 <= k < |plan| - 1 ==> NextIsGreedy(tok, overlapTok, plan[k], plan[k + 1]))
    && (forall k :: 0 <= k < |plan| ==> (plan[k].Last() + 1 == |tok| <==> k == |plan| - 1))
    && (if plan == [] then i == |tok| else plan[0].first == i)
  }

  lemma GreedyStep(tok: seq<int>, i: nat, maxTok: int)
    requires NonNegative(tok) && i < |tok| && tok[i] <= maxTok
    ensures StepIsGreedy(tok, maxTok, Pack(i, Grow(tok, i, i, maxTok)))
  {
    forall k: nat | i <= k < |tok|
      ensures Fits(tok, i, k, maxTok) <==> k <= Grow(tok, i, i, maxTok)
    {
      GrowIsLongest(tok, i, maxTok, k);
    }
  }

  lemma GreedyNext(tok: seq<int>, i: nat, j: nat, overlapTok: int, q: Step)
    requires NonNegative(tok) && i <= j < |tok| && q.first == NextStart(tok, i, j, overlapTok)
    ensures NextIsGreedy(tok, overlapTok, Pack(i, j), q)
  {
    if overlapTok > 0 {
      forall k: nat | i < k <= j
        ensures Fits(tok, k, j, overlapTok) <==> q.first <= k
      {
        OverlapIsLongest(tok, i, j, overlapTok, k);
      }
    }
  }

  lemma GreedyCons(tok: seq<int>, i: nat, maxTok: int, overlapTok: int, s: Step, rest: seq<Step>)
    requires StepIsGreedy(tok, maxTok, s) && s.first == i
    requires if rest == [] then s.Last() + 1 == |tok|
             else s.Last() + 1 < |tok| && NextIsGreedy(tok, overlapTok, s, rest[0]) &&
                  GreedyRun(tok, rest[0].first, maxTok, overlapTok, rest)
    ensures GreedyRun(tok, i, maxTok, overlapTok, [s] + rest)
  {
    var plan := [s] + rest;
    assert forall k :: 1 <= k < |plan| ==> plan[k] == rest[k - 1];
    forall k | 0 <= k < |plan| - 1
      ensures NextIsGreedy(tok, overlapTok, plan[k], plan[k + 1])
    {
      if k > 0 {
        assert NextIsGreedy(tok, overlapTok, rest[k - 1], rest[k]);
      }
    }
  }

  /** The packing loop is such a run. */
  lemma {:induction false} PlanIsGreedy(tok: seq<int>, i: nat, maxTok: int, overlapTok: int)
    requires NonNegative(tok) && i <= |tok|
    ensures GreedyRun(tok, i, maxTok, overlapTok, Plan(tok, i, maxTok, overlapTok))
    decreases |tok| - i
  {
    if i < |tok| {
      if tok[i] > maxTok {
        PlanIsGreedy(tok, i + 1, maxTok, overlapTok);
        GreedyCons(tok, i, maxTok, overlapTok, Hard(i), Plan(tok, i + 1, maxTok, overlapTok));
      } else {
        var j := Grow(tok, i, i, maxTok);
        var next := NextTurn(tok, i, j, overlapTok);
        GreedyStep(tok, i, maxTok);
        PlanIsGreedy(tok, next, maxTok, overlapTok);
        if j < |tok| - 1 {
          FirstStep(tok, next, maxTok, overlapTok);
          GreedyNext(tok, i, j, overlapTok, Plan(tok, next, maxTok, overlapTok)[0]);
        }
        GreedyCons(tok, i, maxTok, overlapTok, Pack(i, j), Plan(tok, next, maxTok, overlapTok));
      }
    }
  }

  lemma GreedyTail(tok: seq<int>, i: nat, maxTok: int, overlapTok: int, plan: seq<Step>)
    requires GreedyRun(tok, i, maxTok, overlapTok, plan) && |plan| > 1
    ensures GreedyRun(tok, plan[1].first, maxTok, overlapTok, plan[1..])
  {
    var rest := plan[1..];
    assert forall k :: 0 <= k < |rest| ==> rest[k] == plan[k + 1];
    forall k | 0 <= k < |rest| - 1
      ensures NextIsGreedy(tok, overlapTok, rest[k], rest[k + 1])
    {
      assert NextIsGreedy(tok, overlapTok, plan[k + 1], plan[k + 1 + 1]);
    }
  }

  lemma GreedyStepIsUnique(tok: seq<int>, maxTok: int, p: Step, q: Step)
    requires StepIsGreedy(tok, maxTok, p) && StepIsGreedy(tok, maxTok, q) && p.first == q.first
    ensures p == q
  {
    if p.Pack? && q.Pack? {
      assert p.first <= p.last < |tok| && p.first <= q.last < |tok|;
      assert Fits(tok, p.first, p.last, maxTok) && Fits(tok, p.first, q.last, maxTok);
    }
  }

  lemma GreedyNextNotLater(tok: seq<int>, overlapTok: int, p: Step, q: Step, q': Step)
    requires NextIsGreedy(tok, overlapTok, p, q) && NextIsGreedy(tok, overlapTok, p, q')
    ensures q'.first <= q.first
  {
    if p.Pack? && q.first <= p.last {
      assert Fits(tok, q.first, p.last, overlapTok);
    }
  }

  lemma GreedyNextIsUnique(tok: seq<int>, overlapTok: int, p: Step, q: Step, q': Step)
    requires NextIsGreedy(tok, overlapTok, p, q) && NextIsGreedy(tok, overlapTok, p, q')
    ensures q.first == q'.first
  {
    GreedyNextNotLater(tok, overlapTok, p, q, q');
    GreedyNextNotLater(tok, overlapTok, p, q', q);
  }

  /** There is only one such run, so these conditions say all there is to say of the packing loop. */
  lemma {:induction false} GreedyRunIsUnique(tok: seq<int>, i: nat, maxTok: int, overlapTok: int,
                                             plan: seq<Step>, other: seq<Step>)
    requires GreedyRun(tok, i, maxTok, overlapTok, plan) && GreedyRun(tok, i, maxTok, overlapTok, other)
    ensures plan == other
    decreases |plan|
  {
    EmptyRun(tok, i, maxTok, overlapTok, plan);
    EmptyRun(tok, i, maxTok, overlapTok, other);
    if plan != [] {
      assert StepIsGreedy(tok, maxTok, plan[0]) && StepIsGreedy(tok, maxTok, other[0]);
      GreedyStepIsUnique(tok, maxTok, plan[0], other[0]);
      assert |plan| == 1 <==> |other| == 1;
      if |plan| > 1 {
        assert NextIsGreedy(tok, overlapTok, plan[0], plan[0 + 1]) &&
               NextIsGreedy(tok, overlapTok, other[0], other[0 + 1]);
        GreedyNextIsUnique(tok, overlapTok, plan[0], plan[1], other[1]);
        GreedyTail(tok, i, maxTok, overlapTok, plan);
        GreedyTail(tok, i, maxTok, overlapTok, other);
        GreedyRunIsUnique(tok, plan[1].first, maxTok, overlapTok, plan[1..], other[1..]);
        assert plan == [plan[0]] + plan[1..] && other == [other[0]] + other[1..];
      }
    }
  }

  lemma EmptyRun(tok: seq<int>, i: nat, maxTok: int, overlapTok: int, plan: seq<Step>)
    requires GreedyRun(tok, i, maxTok, overlapTok, plan)
    ensures plan == [] <==> i == |tok|
  {
    assert plan != [] ==> StepIsGreedy(tok, maxTok, plan[0]);
  }

  // ----- greedy packing without overlap is optimal -----

  /** `ends` cuts units a.. into consecutive groups, each within budget. */
  ghost predicate Partition(tok: seq<int>, a: nat, ends: seq<nat>, maxTok: int)
    decreases |ends|
  {
    if ends == [] then a == |tok|
    else a < ends[0] <= |tok| && Sum(tok, a, ends[0]) <= maxTok && Partition(tok, ends[0], ends[1..], maxTok)
  }

  /** Greedy stays ahead: from unit b on it needs no more steps than any partition from a <= b on. */
  lemma {:induction false} GreedyStaysAhead(tok: seq<int>, maxTok: int, a: nat, b: nat, ends: seq<nat>)
    requires NonNegative(tok) && forall k :: 0 <= k < |tok| ==> tok[k] <= maxTok
    requires a <= b <= |tok| && Partition(tok, a, ends, maxTok)
    ensures |Plan(tok, b, maxTok, 0)| <= |ends|
    decreases |ends|
  {
    if b < |tok| {
      var k := ends[0];
      if k <= b {
        GreedyStaysAhead(tok, maxTok, k, b, ends[1..]);
      } else {
        var j := Grow(tok, b, b, maxTok);
        if j + 1 < k {
          SumMonotone(tok, a, b, j + 2, k);
        }
        GreedyStaysAhead(tok, maxTok, k, j + 1, ends[1..]);
      }
    }
  }

  /** The group ends a run without overlap produces. */
  function PlanEnds(plan: seq<Step>): seq<nat> {
    if plan == [] then [] else [plan[0].Last() + 1] + PlanEnds(plan[1..])
  }

  /** Without overlap or oversize units, the run is itself a partition, and no partition is smaller. */
  lemma GreedyIsOptimal(tok: seq<int>, maxTok: int, ends: seq<nat>)
    requires NonNegative(tok) && forall k :: 0 <= k < |tok| ==> tok[k] <= maxTok
    requires Partition(tok, 0, ends, maxTok)
    ensures Partition(tok, 0, PlanEnds(Plan(tok, 0, maxTok, 0)), maxTok)
    ensures |PlanEnds(Plan(tok, 0, maxTok, 0))| == |Plan(tok, 0, maxTok, 0)| <= |ends|
  {
    GreedyStaysAhead(tok, maxTok, 0, 0, ends);
    PlanPartitions(tok, maxTok, 0);
  }

  lemma {:induction false} PlanPartitions(tok: seq<int>, maxTok: int, i: nat)
    requires NonNegative(tok) && forall k :: 0 <= k < |tok| ==> tok[k] <= maxTok
    requires i <= |tok|
    ensures |PlanEnds(Plan(tok, i, maxTok, 0))| == |Plan(tok, i, maxTok, 0)|
    ensures Partition(tok, i, PlanEnds(Plan(tok, i, maxTok, 0)), maxTok)
    decreases |tok| - i
  {
    if i < |tok| {
      var j := Grow(tok, i, i, maxTok);
      var rest := Plan(tok, j + 1, maxTok, 0);
      PackOk(tok, i, maxTok);
      PlanPartitions(tok, maxTok, j + 1);
      assert Plan(tok, i, maxTok, 0) == [Pack(i, j)] + rest;
      PlanEndsCons(Pack(i, j), rest);
      PartitionCons(tok, i, j + 1, PlanEnds(rest), maxTok);
    }
  }

  lemma PlanEndsCons(s: Step, rest: seq<Step>)
    ensures PlanEnds([s] + rest) == [s.Last() + 1] + PlanEnds(rest)
  {
    assert ([s] + rest)[1..] == rest;
  }

  lemma PartitionCons(tok: seq<int>, a: nat, b: nat, ends: seq<nat>, maxTok: int)
    requires a < b <= |tok| && Sum(tok, a, b) <= maxTok && Partition(tok, b, ends, maxTok)
    ensures Partition(tok, a, [b] + ends, maxTok)
  {
    assert ([b] + ends)[1..] == ends;
  }
}
