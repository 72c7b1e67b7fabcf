/** What a packing run emits: byte spans with token counts, and how neighbouring spans may relate. */
module Cuts {
  import opened Packing

  /** A semantic segment of the source, the half-open byte span Start..End. */
  datatype Unit = Unit(Start: int, End: int)

  /** One emitted chunk before it is given its text and index. */
  datatype Cut = Cut(start: int, end: int, tok: int)

  /** How much of the text neighbouring spans must account for. */
  datatype Mode =
    | Loose     // bytes between spans may be skipped
    | Covering  // no byte is skipped, overlap is allowed
    | Exact     // each span begins where the one before it ends

  /** Starts strictly increase and ends never move back; `mode` says what may lie in between. */
  predicate Adjacent(mode: Mode, x: Cut, y: Cut) {
    && x.start < y.start
    && x.end <= y.end
    && (mode != Loose ==> y.start <= x.end)
    && (mode == Exact ==> y.start == x.end)
  }

  /** Non-empty cuts from `lo` to `hi`, each rightly placed after the one before it; only the last one reaches `hi`. */
  ghost predicate Chain(mode: Mode, cuts: seq<Cut>, lo: int, hi: int) {
    && cuts != []
    && cuts[0].start == lo
    && cuts[|cuts| - 1].end == hi
    && (forall k :: 0 <= k < |cuts| - 1 ==> cuts[k].end < hi)
    && (forall k :: 0 <= k < |cuts| ==> cuts[k].start < cuts[k].end)
    && (forall k :: 0 <= k < |cuts| - 1 ==> Adjacent(mode, cuts[k], cuts[k + 1]))
  }

  lemma ChainConcat(mode: Mode, a: seq<Cut>, b: seq<Cut>, lo: int, m: int, n: int, hi: int)
    requires Chain(mode, a, lo, m) && Chain(mode, b, n, hi)
    requires Adjacent(mode, a[|a| - 1], b[0]) && m < hi
    ensures Chain(mode, a + b, lo, hi)
  {
    var c := a + b;
    forall k | 0 <= k < |c| - 1
      ensures Adjacent(mode, c[k], c[k + 1])
    {
      if k < |a| - 1 {
        assert Adjacent(mode, a[k], a[k + 1]);
      } else if k >= |a| {
        assert Adjacent(mode, b[k - |a|], b[k - |a| + 1]);
      }
    }
  }

  lemma {:induction false} ChainBounds(mode: Mode, cuts: seq<Cut>, lo: int, hi: int, k: nat)
    requires Chain(mode, cuts, lo, hi) && k < |cuts|
    ensures lo <= cuts[k].start < cuts[k].end <= hi
    decreases k
  {
    ChainLower(mode, cuts, lo, hi, k);
    ChainUpper(mode, cuts, lo, hi, k);
  }

  lemma {:induction false} ChainLower(mode: Mode, cuts: seq<Cut>, lo: int, hi: int, k: nat)
    requires Chain(mode, cuts, lo, hi) && k < |cuts|
    ensures lo <= cuts[k].start
    decreases k
  {
    if k > 0 {
      ChainLower(mode, cuts, lo, hi, k - 1);
      assert Adjacent(mode, cuts[k - 1], cuts[k]);
    }
  }

  lemma {:induction false} ChainUpper(mode: Mode, cuts: seq<Cut>, lo: int, hi: int, k: nat)
    requires Chain(mode, cuts, lo, hi) && k < |cuts|
    ensures cuts[k].end <= hi
    decreases |cuts| - k
  {
    if k < |cuts| - 1 {
      assert Adjacent(mode, cuts[k], cuts[k + 1]);
      ChainUpper(mode, cuts, lo, hi, k + 1);
    }
  }

  /** A chain that skips nothing covers every byte between its two ends. */
  lemma {:induction false} ChainCovers(mode: Mode, cuts: seq<Cut>, lo: int, hi: int, p: int)
    requires Chain(mode, cuts, lo, hi) && mode != Loose && lo <= p < hi
    ensures exists k :: 0 <= k < |cuts| && cuts[k].start <= p < cuts[k].end
  {
    var k := |cuts| - 1;
    while p < cuts[k].start
      invariant 0 <= k < |cuts| && p < cuts[k].end
    {
      assert Adjacent(mode, cuts[k - 1], cuts[k]);
      k := k - 1;
    }
  }

  // ----- rendering a plan over spans -----

  /** Spans in ascending order, non-empty and non-overlapping; without gaps unless `mode` is Loose. */
  ghost predicate Ordered(mode: Mode, spans: seq<Unit>) {
    && (forall k :: 0 <= k < |spans| ==> spans[k].Start < spans[k].End)
    && (forall a, b :: 0 <= a < b < |spans| ==> spans[a].End <= spans[b].Start)
    && (mode != Loose ==> forall k :: 0 <= k < |spans| - 1 ==> spans[k].End == spans[k + 1].Start)
  }

  /** The units tile lo..hi: no gap, no overlap, none empty. */
  ghost predicate Tiles(lo: int, hi: int, units: seq<Unit>)
    decreases |units|
  {
    if units == [] then lo == hi
    else units[0].Start == lo < units[0].End && Tiles(units[0].End, hi, units[1..])
  }

  lemma {:induction false} TilesBound(lo: int, hi: int, units: seq<Unit>)
    requires Tiles(lo, hi, units)
    ensures lo <= hi && (units != [] ==> units[0].End <= hi && units[|units| - 1].End == hi)
    ensures forall k :: 0 <= k < |units| ==> lo <= units[k].Start < units[k].End <= hi
    decreases |units|
  {
    if units != [] {
      var rest := units[1..];
      TilesBound(units[0].End, hi, rest);
      forall k | 0 <= k < |units|
        ensures lo <= units[k].Start < units[k].End <= hi
      {
        if k > 0 {
          assert units[k] == rest[k - 1];
        }
      }
    }
  }

  /** Tiling units are well placed in the strictest sense. */
  lemma {:induction false} TilesOrdered(lo: int, hi: int, units: seq<Unit>, mode: Mode)
    requires Tiles(lo, hi, units)
    ensures Ordered(mode, units)
    decreases |units|
  {
    if units != [] {
      var rest := units[1..];
      TilesBound(units[0].End, hi, rest);
      TilesOrdered(units[0].End, hi, rest, mode);
      OrderedCons(mode, units[0], rest);
      assert units == [units[0]] + rest;
    }
  }

  lemma OrderedCons(mode: Mode, u: Unit, rest: seq<Unit>)
    requires u.Start < u.End && Ordered(mode, rest)
    requires forall k :: 0 <= k < |rest| ==> u.End <= rest[k].Start
    requires rest != [] ==> rest[0].Start == u.End
    ensures Ordered(mode, [u] + rest)
  {
    var units := [u] + rest;
    assert forall k :: 1 <= k < |units| ==> units[k] == rest[k - 1];
  }

  /** The chunk over units a..b, counted as the sum of their counts. */
  function PackedCut(spans: seq<Unit>, tok: seq<int>, a: nat, b: nat): Cut
    requires |spans| == |tok| && a <= b < |spans|
  {
    Cut(spans[a].Start, spans[b].End, Sum(tok, a, b + 1))
  }

  function RenderStep(spans: seq<Unit>, tok: seq<int>, pieces: seq<seq<Cut>>, s: Step): seq<Cut>
    requires |spans| == |tok| == |pieces|
  {
    if s.Pack? then
      if s.first <= s.last < |spans| then
        [PackedCut(spans, tok, s.first, s.last)]
      else []
    else if s.first < |spans| then pieces[s.first] else []
  }

  /** The cuts of a whole plan: one per packed step, and the unit's own pieces per hard step. */
  function Render(spans: seq<Unit>, tok: seq<int>, pieces: seq<seq<Cut>>, plan: seq<Step>): seq<Cut>
    requires |spans| == |tok| == |pieces|
  {
    if plan == [] then [] else RenderStep(spans, tok, pieces, plan[0]) + Render(spans, tok, pieces, plan[1..])
  }

  /** All cuts a packing run over `spans` emits. */
  function PackCuts(spans: seq<Unit>, tok: seq<int>, pieces: seq<seq<Cut>>, maxTok: int, overlapTok: int): seq<Cut>
    requires |spans| == |tok| == |pieces|
  {
    Render(spans, tok, pieces, Plan(tok, 0, maxTok, overlapTok))
  }

  /** What the packing run still has to emit when its cursor stands at unit `i`. */
  function CutsFrom(spans: seq<Unit>, tok: seq<int>, pieces: seq<seq<Cut>>, i: nat, maxTok: int,
                    overlapTok: int): seq<Cut>
    requires |spans| == |tok| == |pieces| && i <= |tok|
  {
    Render(spans, tok, pieces, Plan(tok, i, maxTok, overlapTok))
  }

  /** A turn that hard-splits unit `i`. */
  lemma HardTurn(spans: seq<Unit>, tok: seq<int>, pieces: seq<seq<Cut>>, i: nat, maxTok: int, overlapTok: int,
                 done: seq<Cut>)
    requires |spans| == |tok| == |pieces| && i < |tok| && tok[i] > maxTok
    ensures done + CutsFrom(spans, tok, pieces, i, maxTok, overlapTok) ==
            (done + pieces[i]) + CutsFrom(spans, tok, pieces, i + 1, maxTok, overlapTok)
  {
    var rest := Plan(tok, i + 1, maxTok, overlapTok);
    assert ([Hard(i)] + rest)[1..] == rest;
  }

  /** A turn that packs from unit `i` on. */
  lemma PackTurn(spans: seq<Unit>, tok: seq<int>, pieces: seq<seq<Cut>>, i: nat, maxTok: int, overlapTok: int,
                 done: seq<Cut>)
    requires |spans| == |tok| == |pieces| && i < |tok| && tok[i] <= maxTok
    ensures var j := Grow(tok, i, i, maxTok);
            done + CutsFrom(spans, tok, pieces, i, maxTok, overlapTok) ==
            (done + [PackedCut(spans, tok, i, j)]) +
            CutsFrom(spans, tok, pieces, NextTurn(tok, i, j, overlapTok), maxTok, overlapTok)
  {
    var j := Grow(tok, i, i, maxTok);
    var rest := Plan(tok, NextTurn(tok, i, j, overlapTok), maxTok, overlapTok);
    assert Plan(tok, i, maxTok, overlapTok) == [Pack(i, j)] + rest;
    assert ([Pack(i, j)] + rest)[1..] == rest;
  }

  /** Every oversize unit has been cut into a chain that spans exactly that unit. */
  ghost predicate PiecesOk(mode: Mode, spans: seq<Unit>, tok: seq<int>, pieces: seq<seq<Cut>>, maxTok: int) {
    && |spans| == |tok| == |pieces|
    && forall k :: 0 <= k < |spans| && tok[k] > maxTok ==> Chain(mode, pieces[k], spans[k].Start, spans[k].End)
  }

  lemma StepChain(mode: Mode, spans: seq<Unit>, tok: seq<int>, pieces: seq<seq<Cut>>, maxTok: int, s: Step)
    requires Ordered(mode, spans) && PiecesOk(mode, spans, tok, pieces, maxTok) && StepOk(tok, maxTok, s)
    ensures Chain(mode, RenderStep(spans, tok, pieces, s), spans[s.first].Start, spans[s.Last()].End)
  {
    if s.Pack? && s.first < s.last {
      assert spans[s.first].End <= spans[s.last].Start;
    }
  }

  /** Where one step's cuts end and the next step's begin, the two fit together. */
  lemma StepsJoin(mode: Mode, spans: seq<Unit>, tok: seq<int>, pieces: seq<seq<Cut>>, maxTok: int, p: Step, q: Step)
    requires Ordered(mode, spans) && PiecesOk(mode, spans, tok, pieces, maxTok)
    requires StepOk(tok, maxTok, p) && StepOk(tok, maxTok, q) && Follows(mode == Exact, p, q)
    ensures var a, b := RenderStep(spans, tok, pieces, p), RenderStep(spans, tok, pieces, q);
            a != [] && b != [] && Adjacent(mode, a[|a| - 1], b[0])
  {
    var a, b := RenderStep(spans, tok, pieces, p), RenderStep(spans, tok, pieces, q);
    StepChain(mode, spans, tok, pieces, maxTok, p);
    StepChain(mode, spans, tok, pieces, maxTok, q);
    var x, y := a[|a| - 1], b[0];
    assert spans[p.first].End <= spans[q.first].Start;
    assert x.end == spans[p.Last()].End && y.start == spans[q.first].Start;
    assert x.start < y.start by {
      ChainBounds(mode, a, spans[p.first].Start, spans[p.Last()].End, |a| - 1);
    }
    assert x.end <= y.end by {
      if q.first == p.Last() + 1 {
        assert spans[p.Last()].End <= spans[q.first].Start;
      } else if p.Last() < q.Last() {
        assert spans[p.Last()].End <= spans[q.Last()].Start;
      }
    }
    if mode != Loose && q.first <= p.Last() {
      if q.first < p.Last() {
        assert spans[q.first].End <= spans[p.Last()].Start;
      }
    }
  }

  /** A complete plan over well-placed spans renders to one chain from the first span to the last. */
  lemma {:induction false} RenderChain(mode: Mode, spans: seq<Unit>, tok: seq<int>, pieces: seq<seq<Cut>>,
                                       i: nat, maxTok: int, tight: bool, plan: seq<Step>)
    requires Ordered(mode, spans) && PiecesOk(mode, spans, tok, pieces, maxTok)
    requires PlanOk(tok, i, maxTok, tight, plan) && (mode == Exact ==> tight)
    ensures Chain(mode, Render(spans, tok, pieces, plan), spans[i].Start, spans[|spans| - 1].End)
    ensures RenderStep(spans, tok, pieces, plan[0]) <= Render(spans, tok, pieces, plan)
    ensures RenderStep(spans, tok, pieces, plan[0]) != []
    decreases |plan|
  {
    var head := RenderStep(spans, tok, pieces, plan[0]);
    assert StepOk(tok, maxTok, plan[0]);
    StepChain(mode, spans, tok, pieces, maxTok, plan[0]);
    if |plan| == 1 {
      assert Render(spans, tok, pieces, plan) == head + [];
    } else {
      PlanOkTail(tok, i, maxTok, tight, plan);
      RenderChain(mode, spans, tok, pieces, plan[1].first, maxTok, tight, plan[1..]);
      JoinRendered(mode, spans, tok, pieces, maxTok, plan[0], plan[1], Render(spans, tok, pieces, plan[1..]));
    }
  }

  /** A step's cuts in front of the rendered rest of the plan, which begins with the next step. */
  lemma JoinRendered(mode: Mode, spans: seq<Unit>, tok: seq<int>, pieces: seq<seq<Cut>>, maxTok: int, p: Step, q: Step,
                     rest: seq<Cut>)
    requires Ordered(mode, spans) && PiecesOk(mode, spans, tok, pieces, maxTok)
    requires StepOk(tok, maxTok, p) && StepOk(tok, maxTok, q) && Follows(mode == Exact, p, q) && p.Last() + 1 < |tok|
    requires Chain(mode, rest, spans[q.first].Start, spans[|spans| - 1].End)
    requires RenderStep(spans, tok, pieces, q) <= rest && RenderStep(spans, tok, pieces, q) != []
    ensures Chain(mode, RenderStep(spans, tok, pieces, p) + rest, spans[p.first].Start, spans[|spans| - 1].End)
  {
    StepChain(mode, spans, tok, pieces, maxTok, p);
    StepsJoin(mode, spans, tok, pieces, maxTok, p, q);
    assert spans[p.Last()].End <= spans[|spans| - 1].Start;
    ChainConcat(mode, RenderStep(spans, tok, pieces, p), rest, spans[p.first].Start, spans[p.Last()].End,
                spans[q.first].Start, spans[|spans| - 1].End);
  }

  lemma PlanOkTail(tok: seq<int>, i: nat, maxTok: int, tight: bool, plan: seq<Step>)
    requires PlanOk(tok, i, maxTok, tight, plan) && |plan| > 1
    ensures PlanOk(tok, plan[1].first, maxTok, tight, plan[1..])
    ensures StepOk(tok, maxTok, plan[0]) && StepOk(tok, maxTok, plan[1]) && Follows(tight, plan[0], plan[1])
    ensures plan[0].Last() + 1 < |tok|
  {
    var rest := plan[1..];
    forall k | 0 <= k < |rest| - 1
      ensures Follows(tight, rest[k], rest[k + 1])
    {
      assert Follows(tight, plan[k + 1], plan[k + 2]);
    }
  }

  /** The packing loop keeps its contract over any well-placed spans, whatever the mix of steps. */
  lemma PackCutsChain(mode: Mode, spans: seq<Unit>, tok: seq<int>, pieces: seq<seq<Cut>>, maxTok: int, overlapTok: int)
    requires spans != [] && Ordered(mode, spans) && PiecesOk(mode, spans, tok, pieces, maxTok)
    requires NonNegative(tok) && (mode == Exact ==> overlapTok <= 0)
    ensures Chain(mode, PackCuts(spans, tok, pieces, maxTok, overlapTok), spans[0].Start, spans[|spans| - 1].End)
  {
    PlanShape(tok, 0, maxTok, overlapTok);
    RenderChain(mode, spans, tok, pieces, 0, maxTok, overlapTok <= 0, Plan(tok, 0, maxTok, overlapTok));
  }

  // ----- where a cut comes from -----

  /** A packed cut: whole units a..b, counted as the sum of their counts, within budget. */
  ghost predicate IsPacked(spans: seq<Unit>, tok: seq<int>, maxTok: int, c: Cut)
    requires |spans| == |tok|
  {
    exists a: nat, b: nat :: a <= b < |spans| && StepOk(tok, maxTok, Pack(a, b)) &&
      c.start == spans[a].Start && c.end == spans[b].End && c.tok == Sum(tok, a, b + 1)
  }

  /** A piece of one oversize unit. */
  ghost predicate IsPiece(tok: seq<int>, pieces: seq<seq<Cut>>, maxTok: int, c: Cut)
    requires |tok| == |pieces|
  {
    exists k: nat :: k < |tok| && tok[k] > maxTok && c in pieces[k]
  }

  lemma {:induction false} RenderOrigin(spans: seq<Unit>, tok: seq<int>, pieces: seq<seq<Cut>>, maxTok: int,
                                        plan: seq<Step>, c: Cut)
    requires |spans| == |tok| == |pieces|
    requires forall k :: 0 <= k < |plan| ==> StepOk(tok, maxTok, plan[k])
    requires c in Render(spans, tok, pieces, plan)
    ensures IsPacked(spans, tok, maxTok, c) || IsPiece(tok, pieces, maxTok, c)
    decreases |plan|
  {
    var s := plan[0];
    assert StepOk(tok, maxTok, s);
    if c in RenderStep(spans, tok, pieces, s) {
      if s.Pack? {
        assert StepOk(tok, maxTok, Pack(s.first, s.last));
      }
    } else {
      RenderOrigin(spans, tok, pieces, maxTok, plan[1..], c);
    }
  }

  lemma CutOrigin(spans: seq<Unit>, tok: seq<int>, pieces: seq<seq<Cut>>, maxTok: int, overlapTok: int, c: Cut)
    requires |spans| == |tok| == |pieces| && NonNegative(tok)
    requires c in PackCuts(spans, tok, pieces, maxTok, overlapTok)
    ensures IsPacked(spans, tok, maxTok, c) || IsPiece(tok, pieces, maxTok, c)
  {
    var plan := Plan(tok, 0, maxTok, overlapTok);
    if spans != [] {
      PlanShape(tok, 0, maxTok, overlapTok);
    }
    RenderOrigin(spans, tok, pieces, maxTok, plan, c);
  }
}
