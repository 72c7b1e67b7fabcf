/** Token budgets under the default estimator. */
module Budget {
  import opened Basics
  import opened Float64
  import opened Utf8
  import opened Space
  import opened Packing
  import opened Cuts
  import opened Chunks
  import opened Prose
  import opened CodeSplit
  import opened HardSplit
  import opened Split
  import opened SplitTheorems

  // ----- the estimator -----

  /** No rune of the text is wider than `w` bytes: 4 for any text, 1 for single-byte text. */
  ghost predicate Widths(text: bytes, w: int) {
    w == 4 || (w == 1 && forall k :: 0 <= k < |text| ==> text[k] < 0x80)
  }

  lemma RuneLenWithin(text: bytes, w: int, i: nat)
    requires Widths(text, w) && i <= |text|
    ensures RuneLen(text, i) <= w
  {
  }

  /** Ceiling division: four times the estimate lies between the rune count and three more. */
  lemma EstimateIsCeiling(s: bytes)
    ensures RuneCount(s) <= 4 * DefaultEstimate(s) <= RuneCount(s) + 3
  {
  }

  lemma EstimateFromBytes(text: bytes, w: int, a: nat, b: nat)
    requires Widths(text, w) && a <= b <= |text|
    ensures 4 * DefaultEstimate(text[a..b]) <= (b - a) + 3
    ensures b - a <= 4 * w * DefaultEstimate(text[a..b])
  {
    var s := text[a..b];
    EstimateIsCeiling(s);
    CountBounds(s, 0);
    if w == 1 {
      CountSingleByte(s, 0);
    }
  }

  // ----- budget bound -----

  ghost predicate WithinBudget(cuts: seq<Cut>, bound: int) {
    forall c :: c in cuts ==> c.tok <= bound
  }

  /** A chunk of the prose cutter is estimated on its own text and is no longer than the window, or one rune. */
  lemma {:induction false} ProseLengths(text: bytes, pos: nat, end: nat, target: nat, overlap: nat, est: Estimator,
                                        w: int, c: Cut)
    requires pos <= |text| && end <= |text| && target >= 1 && Widths(text, w)
    requires c in ProseCuts(text, pos, end, target, overlap, est)
    ensures 0 <= c.start <= c.end <= |text| && c.tok == est(text[c.start..c.end])
    ensures c.end - c.start <= Max(target, w)
    decreases |text| - pos
  {
    var e := ProseEnd(text, pos, end, target);
    RuneLenWithin(text, w, pos);
    if c != Cut(pos, e, est(text[pos..e])) {
      ProseLengths(text, ProseNext(text, pos, e, overlap), end, target, overlap, est, w, c);
    }
  }

  lemma MulMono(a: int, x: int, y: int)
    requires a >= 0 && x <= y
    ensures a * x <= a * y
  {
  }

  /** The prose window holds at most 4 * w bytes per token of budget. */
  lemma TargetBound(text: bytes, w: int, start: nat, end: nat, maxTok: int)
    requires Widths(text, w) && start <= end <= |text| && maxTok >= 1
    ensures Target(text, start, end, maxTok, DefaultEstimate) <= 4 * (w * maxTok)
  {
    var total := Total(text, start, end, DefaultEstimate);
    EstimateFromBytes(text, w, start, end);
    MulMono(4 * w, DefaultEstimate(text[start..end]), total);
    WindowBound(maxTok, end - start, total, 4 * w);
    TargetFromWindow(Window(maxTok, end - start, total), maxTok, w);
  }

  lemma TargetFromWindow(window: int, maxTok: int, w: int)
    requires window <= maxTok * (4 * w) && maxTok >= 1 && (w == 1 || w == 4)
    ensures Max(window, 1) <= 4 * (w * maxTok)
  {
  }

  /** Any window of at least one byte and at most 4 * w bytes per token of budget will do. */
  lemma ProseCutsWithin(text: bytes, w: int, start: nat, end: nat, target: nat, overlap: nat, maxTok: int)
    requires Widths(text, w) && start <= end <= |text| && maxTok >= 1 && 1 <= target <= 4 * (w * maxTok)
    ensures WithinBudget(ProseCuts(text, start, end, target, overlap, DefaultEstimate), w * maxTok)
  {
    MulMono(w, 1, maxTok);
    forall c | c in ProseCuts(text, start, end, target, overlap, DefaultEstimate)
      ensures c.tok <= w * maxTok
    {
      ProseLengths(text, start, end, target, overlap, DefaultEstimate, w, c);
      EstimateFromBytes(text, w, c.start, c.end);
      TokensFromLength(c.end - c.start, target, w, w * maxTok, c.tok);
    }
  }

  lemma ProseWithin(text: bytes, w: int, start: nat, end: nat, maxTok: int, overlapTok: int)
    requires Widths(text, w) && start <= end <= |text| && maxTok >= 1
    ensures WithinBudget(ProseSplit(text, start, end, maxTok, overlapTok, DefaultEstimate), w * maxTok)
  {
    TargetBound(text, w, start, end, maxTok);
    ProseCutsWithin(text, w, start, end, Target(text, start, end, maxTok, DefaultEstimate),
                    Overlap(text, start, end, overlapTok, DefaultEstimate), maxTok);
  }

  lemma TokensFromLength(len: int, target: int, w: int, bound: int, tok: int)
    requires len <= Max(target, w) && target <= 4 * bound && w <= bound && bound >= 1 && 4 * tok <= len + 3
    ensures tok <= bound
  {
  }

  /** A packing run stays within a bound that its pieces meet and that is no less than the budget. */
  lemma PackWithin(spans: seq<Unit>, tok: seq<int>, pieces: seq<seq<Cut>>, maxTok: int, overlapTok: int, bound: int)
    requires |spans| == |tok| == |pieces| && NonNegative(tok) && maxTok <= bound
    requires forall k :: 0 <= k < |tok| && tok[k] > maxTok ==> WithinBudget(pieces[k], bound)
    ensures WithinBudget(PackCuts(spans, tok, pieces, maxTok, overlapTok), bound)
  {
    forall c | c in PackCuts(spans, tok, pieces, maxTok, overlapTok)
      ensures c.tok <= bound
    {
      CutOrigin(spans, tok, pieces, maxTok, overlapTok, c);
    }
  }

  lemma LineCutsWithin(text: bytes, w: int, start: nat, end: nat, maxTok: int, overlapTok: int)
    requires Widths(text, w) && start <= end <= |text| && maxTok >= 1
    ensures WithinBudget(LineCuts(text, start, end, maxTok, overlapTok, DefaultEstimate), w * maxTok)
  {
    var lines := LinesFrom(text, start, end);
    var pieces := LinePieces(text, lines, maxTok, overlapTok, DefaultEstimate);
    LinesInText(text, start, end);
    forall k | 0 <= k < |lines|
      ensures WithinBudget(pieces[k], w * maxTok)
    {
      ProseWithin(text, w, lines[k].Start, lines[k].End, maxTok, overlapTok);
    }
    MulMono(maxTok, 1, w);
    PackWithin(lines, Tokens(text, lines, DefaultEstimate), pieces, maxTok, overlapTok, w * maxTok);
  }

  lemma RegionCutsWithin(text: bytes, w: int, g: CodeSpan, maxTok: int, overlapTok: int)
    requires Widths(text, w) && g.start <= g.end <= |text| && maxTok >= 1
    ensures WithinBudget(RegionCuts(text, g, maxTok, overlapTok, DefaultEstimate), w * maxTok)
  {
    if g.fence {
      LineCutsWithin(text, w, g.start, g.end, maxTok, overlapTok);
    } else {
      ProseWithin(text, w, g.start, g.end, maxTok, overlapTok);
    }
  }

  lemma FencedCutsWithin(text: bytes, w: int, start: nat, end: nat, maxTok: int, overlapTok: int)
    requires Widths(text, w) && start <= end <= |text| && maxTok >= 1
    ensures WithinBudget(FencedCuts(text, start, end, maxTok, overlapTok, DefaultEstimate), w * maxTok)
  {
    var groups := Groups(text, start, end);
    var spans := UnitsOf(groups);
    var pieces := RegionPieces(text, groups, maxTok, overlapTok, DefaultEstimate);
    GroupsInText(text, start, end);
    forall k | 0 <= k < |groups|
      ensures WithinBudget(pieces[k], w * maxTok)
    {
      assert spans[k] == UnitOf(groups[k]);
      RegionCutsWithin(text, w, groups[k], maxTok, overlapTok);
    }
    MulMono(maxTok, 1, w);
    PackWithin(spans, Tokens(text, spans, DefaultEstimate), pieces, maxTok, overlapTok, w * maxTok);
  }

  lemma UnitCutsWithin(text: bytes, w: int, u: Unit, maxTok: int, overlapTok: int)
    requires Widths(text, w) && 0 <= u.Start <= u.End <= |text| && maxTok >= 1
    ensures WithinBudget(UnitCuts(text, u, maxTok, overlapTok, DefaultEstimate), w * maxTok)
  {
    if HasFenceFrom(text, u.Start, u.End) {
      FencedCutsWithin(text, w, u.Start, u.End, maxTok, overlapTok);
    } else {
      ProseWithin(text, w, u.Start, u.End, maxTok, overlapTok);
    }
  }

  lemma CutsOfUnitsWithin(text: bytes, w: int, units: seq<Unit>, maxTok: int, overlapTok: int)
    requires Widths(text, w) && InText(text, units) && maxTok >= 1
    ensures WithinBudget(CutsOfUnits(text, units, maxTok, overlapTok, DefaultEstimate), w * maxTok)
  {
    var pieces := UnitPieces(text, units, maxTok, overlapTok, DefaultEstimate);
    forall k | 0 <= k < |units|
      ensures WithinBudget(pieces[k], w * maxTok)
    {
      UnitCutsWithin(text, w, units[k], maxTok, overlapTok);
    }
    MulMono(maxTok, 1, w);
    PackWithin(units, Tokens(text, units, DefaultEstimate), pieces, maxTok, overlapTok, w * maxTok);
  }

  /**
    * Under the default estimator no chunk of single-byte text is over budget, and no chunk of any text is over
    * four times the budget, whichever of the packing, prose, fence and line paths produced it.
    */
  lemma SplitStaysInBudget(source: bytes, cfg: Config, w: int, k: nat)
    requires cfg.Estimate.None? && Widths(TrimSpace(source), w) && k < |ChunksOf(source, cfg)|
    ensures ChunksOf(source, cfg)[k].TokenCount <= w * (if cfg.MaxTokens > 0 then cfg.MaxTokens else 512)
  {
    var text := TrimSpace(source);
    var cuts := SplitCuts(text, cfg);
    UnitsForReady(text, cfg);
    CutsOfUnitsWithin(text, w, UnitsFor(text, cfg), MaxTok(cfg), OverlapTok(cfg));
    ChunksAt(source, cfg);
    assert cuts[k] in cuts;
  }

  // ----- summed counts -----

  /** A sum of `m` rounded-up quarters of altogether `runes` runes. */
  predicate RunesCounted(runes: int, sum: int, m: int) {
    runes <= 4 * sum <= runes + 3 * m
  }

  /** The counts of spans a..b against the runes of the text they span. */
  ghost predicate RunCounted(text: bytes, spans: seq<Unit>, tok: seq<int>, a: nat, b: nat)
    requires a <= b < |spans| == |tok|
  {
    RunesCounted(RuneCount(Slice(text, spans[a].Start, spans[b].End)), Sum(tok, a, b + 1), b + 1 - a)
  }

  /** Each count is the rounded-up quarter of its own span's runes. */
  ghost predicate Counted(text: bytes, spans: seq<Unit>, tok: seq<int>) {
    |spans| == |tok| && forall k :: 0 <= k < |spans| ==>
      RunesCounted(RuneCount(Slice(text, spans[k].Start, spans[k].End)), tok[k], 1)
  }

  lemma TokensCounted(text: bytes, spans: seq<Unit>)
    ensures Counted(text, spans, Tokens(text, spans, DefaultEstimate))
  {
    forall k | 0 <= k < |spans|
      ensures RunesCounted(RuneCount(Slice(text, spans[k].Start, spans[k].End)),
                           Tokens(text, spans, DefaultEstimate)[k], 1)
    {
      EstimateIsCeiling(Slice(text, spans[k].Start, spans[k].End));
    }
  }

  /** Contiguous rune-aligned spans: the runes of the whole are the runes of the parts. */
  lemma RunesOfRun(text: bytes, spans: seq<Unit>, tok: seq<int>, a: nat, b: nat)
    requires NoStray(text) && InText(text, spans) && SpansAligned(text, spans) && Ordered(Exact, spans)
    requires Counted(text, spans, tok) && a <= b < |spans|
    ensures RunCounted(text, spans, tok, a, b)
  {
    assert Sum(tok, a, a + 1) == Sum(tok, a, a) + tok[a];
    var k := a;
    while k < b
      invariant a <= k <= b && RunCounted(text, spans, tok, a, k)
    {
      k := k + 1;
      RunesOfOneMore(text, spans, tok, a, k);
    }
  }

  lemma RunesOfOneMore(text: bytes, spans: seq<Unit>, tok: seq<int>, a: nat, b: nat)
    requires NoStray(text) && InText(text, spans) && SpansAligned(text, spans) && Ordered(Exact, spans)
    requires Counted(text, spans, tok) && a < b < |spans|
    requires RunCounted(text, spans, tok, a, b - 1)
    ensures RunCounted(text, spans, tok, a, b)
  {
    assert spans[b - 1].End == spans[b - 1 + 1].Start;
    assert spans[a].End <= spans[b].Start;
    CountAdds(text, spans[a].Start, spans[b].Start, spans[b].End);
    assert Sum(tok, a, b + 1) == Sum(tok, a, b) + tok[b];
  }

  /** The count a packed chunk of units a..b carries is an upper estimate of its text, off by at most 3/4 per unit. */
  ghost predicate HonestCount(text: bytes, c: Cut, m: int) {
    var own := DefaultEstimate(Slice(text, c.start, c.end));
    own <= c.tok && 4 * (c.tok - own) <= 3 * m
  }

  lemma PackedCountHonest(text: bytes, spans: seq<Unit>, a: nat, b: nat)
    requires NoStray(text) && InText(text, spans) && SpansAligned(text, spans) && Ordered(Exact, spans) &&
             a <= b < |spans|
    ensures HonestCount(text, PackedCut(spans, Tokens(text, spans, DefaultEstimate), a, b), b + 1 - a)
  {
    TokensCounted(text, spans);
    RunesOfRun(text, spans, Tokens(text, spans, DefaultEstimate), a, b);
    EstimateIsCeiling(Slice(text, spans[a].Start, spans[b].End));
  }

  /** `c` is packed from units a..b, honestly counted and within budget. */
  ghost predicate HonestlyPacked(text: bytes, units: seq<Unit>, maxTok: int, c: Cut) {
    exists a: nat, b: nat :: a <= b < |units| && c.start == units[a].Start && c.end == units[b].End &&
                             HonestCount(text, c, b + 1 - a) && c.tok <= maxTok
  }

  lemma CountsHonest(text: bytes, units: seq<Unit>, pieces: seq<seq<Cut>>, maxTok: int, overlapTok: int, c: Cut)
    requires NoStray(text) && InText(text, units) && SpansAligned(text, units) && Ordered(Exact, units)
    requires |pieces| == |units| &&
             c in PackCuts(units, Tokens(text, units, DefaultEstimate), pieces, maxTok, overlapTok)
    ensures HonestlyPacked(text, units, maxTok, c) || IsPiece(Tokens(text, units, DefaultEstimate), pieces, maxTok, c)
  {
    var tok := Tokens(text, units, DefaultEstimate);
    CutOrigin(units, tok, pieces, maxTok, overlapTok, c);
    if IsPacked(units, tok, maxTok, c) {
      var a: nat, b: nat :| a <= b < |units| && StepOk(tok, maxTok, Pack(a, b)) &&
        c.start == units[a].Start && c.end == units[b].End && c.tok == Sum(tok, a, b + 1);
      PackedCountHonest(text, units, a, b);
    }
  }

  // ----- no chunk is counted below the estimate of its own text -----

  /** Every cut carries at least the estimate of the text it spans. */
  ghost predicate CountedInFull(text: bytes, cuts: seq<Cut>) {
    forall c :: c in cuts ==> DefaultEstimate(Slice(text, c.start, c.end)) <= c.tok
  }

  lemma PackCountedInFull(text: bytes, units: seq<Unit>, pieces: seq<seq<Cut>>, maxTok: int, overlapTok: int)
    requires NoStray(text) && InText(text, units) && SpansAligned(text, units) && Ordered(Exact, units)
    requires |pieces| == |units| && forall k :: 0 <= k < |pieces| ==> CountedInFull(text, pieces[k])
    ensures CountedInFull(text, PackCuts(units, Tokens(text, units, DefaultEstimate), pieces, maxTok, overlapTok))
  {
    forall c | c in PackCuts(units, Tokens(text, units, DefaultEstimate), pieces, maxTok, overlapTok)
      ensures DefaultEstimate(Slice(text, c.start, c.end)) <= c.tok
    {
      CountsHonest(text, units, pieces, maxTok, overlapTok, c);
    }
  }

  lemma ProseCountedInFull(text: bytes, start: nat, end: nat, maxTok: int, overlapTok: int)
    requires start <= end <= |text|
    ensures CountedInFull(text, ProseSplit(text, start, end, maxTok, overlapTok, DefaultEstimate))
  {
    var target := Target(text, start, end, maxTok, DefaultEstimate);
    var overlap := Overlap(text, start, end, overlapTok, DefaultEstimate);
    forall c | c in ProseCuts(text, start, end, target, overlap, DefaultEstimate)
      ensures DefaultEstimate(Slice(text, c.start, c.end)) <= c.tok
    {
      ProseLengths(text, start, end, target, overlap, DefaultEstimate, 4, c);
    }
  }

  lemma LinesCountedInFull(text: bytes, start: nat, end: nat, maxTok: int, overlapTok: int)
    requires NoStray(text) && Aligned(text, start) && Aligned(text, end) && start < end <= |text|
    ensures CountedInFull(text, LineCuts(text, start, end, maxTok, overlapTok, DefaultEstimate))
  {
    var lines := LinesFrom(text, start, end);
    var pieces := LinePieces(text, lines, maxTok, overlapTok, DefaultEstimate);
    LinesTile(text, start, end);
    LinesAtLines(text, start, start, end);
    SpansReady(text, start, end, lines, Exact);
    forall k | 0 <= k < |lines|
      ensures CountedInFull(text, pieces[k])
    {
      ProseCountedInFull(text, lines[k].Start, lines[k].End, maxTok, overlapTok);
    }
    PackCountedInFull(text, lines, pieces, maxTok, overlapTok);
  }

  lemma RegionCountedInFull(text: bytes, g: CodeSpan, maxTok: int, overlapTok: int)
    requires NoStray(text) && Aligned(text, g.start) && Aligned(text, g.end) && g.start < g.end <= |text|
    ensures CountedInFull(text, RegionCuts(text, g, maxTok, overlapTok, DefaultEstimate))
  {
    if g.fence {
      LinesCountedInFull(text, g.start, g.end, maxTok, overlapTok);
    } else {
      ProseCountedInFull(text, g.start, g.end, maxTok, overlapTok);
    }
  }

  lemma FencedCountedInFull(text: bytes, start: nat, end: nat, maxTok: int, overlapTok: int)
    requires NoStray(text) && Aligned(text, start) && Aligned(text, end) && start < end <= |text|
    ensures CountedInFull(text, FencedCuts(text, start, end, maxTok, overlapTok, DefaultEstimate))
  {
    var groups := Groups(text, start, end);
    var spans := UnitsOf(groups);
    var pieces := RegionPieces(text, groups, maxTok, overlapTok, DefaultEstimate);
    GroupsTile(text, start, end);
    GroupsAtLines(text, start, start, end);
    SpansReady(text, start, end, spans, Exact);
    forall k | 0 <= k < |groups|
      ensures CountedInFull(text, pieces[k])
    {
      assert spans[k] == UnitOf(groups[k]);
      RegionCountedInFull(text, groups[k], maxTok, overlapTok);
    }
    PackCountedInFull(text, spans, pieces, maxTok, overlapTok);
  }

  lemma UnitCountedInFull(text: bytes, u: Unit, maxTok: int, overlapTok: int)
    requires NoStray(text) && Aligned(text, u.Start) && Aligned(text, u.End) && 0 <= u.Start < u.End <= |text|
    ensures CountedInFull(text, UnitCuts(text, u, maxTok, overlapTok, DefaultEstimate))
  {
    if HasFenceFrom(text, u.Start, u.End) {
      FencedCountedInFull(text, u.Start, u.End, maxTok, overlapTok);
    } else {
      ProseCountedInFull(text, u.Start, u.End, maxTok, overlapTok);
    }
  }

  lemma PiecesCountedInFull(text: bytes, units: seq<Unit>, maxTok: int, overlapTok: int)
    requires NoStray(text) && InText(text, units) && SpansAligned(text, units)
    ensures forall k :: 0 <= k < |units| ==>
            CountedInFull(text, UnitPieces(text, units, maxTok, overlapTok, DefaultEstimate)[k])
  {
    forall k | 0 <= k < |units|
      ensures CountedInFull(text, UnitPieces(text, units, maxTok, overlapTok, DefaultEstimate)[k])
    {
      UnitCountedInFull(text, units[k], maxTok, overlapTok);
    }
  }

  /**
    * Every cut of a gap-free Split carries at least the estimate of its own text; it is honestly packed and in budget,
    * or a piece of one oversize unit.
    */
  lemma SplitCountsHonest(text: bytes, cfg: Config, c: Cut)
    requires NoStray(text) && text != [] && cfg.Estimate.None? && GapFree(text, cfg) && c in SplitCuts(text, cfg)
    ensures DefaultEstimate(Slice(text, c.start, c.end)) <= c.tok
    ensures var units := UnitsFor(text, cfg);
            HonestlyPacked(text, units, MaxTok(cfg), c) ||
            IsPiece(Tokens(text, units, DefaultEstimate),
                    UnitPieces(text, units, MaxTok(cfg), OverlapTok(cfg), DefaultEstimate), MaxTok(cfg), c)
  {
    var units := UnitsFor(text, cfg);
    var pieces := UnitPieces(text, units, MaxTok(cfg), OverlapTok(cfg), DefaultEstimate);
    UnitsForReady(text, cfg);
    TilesOrdered(0, |text|, units, Exact);
    PiecesCountedInFull(text, units, MaxTok(cfg), OverlapTok(cfg));
    PackCountedInFull(text, units, pieces, MaxTok(cfg), OverlapTok(cfg));
    CountsHonest(text, units, pieces, MaxTok(cfg), OverlapTok(cfg), c);
  }

  /** Under the default estimator and a gap-free segmentation no chunk is counted below the estimate of its own text. */
  lemma SplitNeverUndercounts(source: bytes, cfg: Config, k: nat)
    requires NoStray(source) && cfg.Estimate.None? && GapFree(TrimSpace(source), cfg) && k < |ChunksOf(source, cfg)|
    ensures DefaultEstimate(ChunksOf(source, cfg)[k].Text) <= ChunksOf(source, cfg)[k].TokenCount
  {
    var text := TrimSpace(source);
    TrimAligned(source);
    ChunksAt(source, cfg);
    assert SplitCuts(text, cfg)[k] in SplitCuts(text, cfg);
    SplitCountsHonest(text, cfg, SplitCuts(text, cfg)[k]);
  }
}
