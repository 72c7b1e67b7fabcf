/** What a hard split guarantees: nothing lost, ends never moving back, fences kept whole, cuts at line starts. */
module HardSplit {
  import opened Float64
  import opened Utf8
  import opened Lines
  import opened Packing
  import opened Cuts
  import opened Chunks
  import opened Prose
  import opened ProseChain
  import opened CodeSplit

  ghost predicate NonNegativeEstimate(est: Estimator) {
    forall s :: est(s) >= 0
  }

  // ----- every hard split is a chain of rune-aligned cuts -----

  /** Every span begins and ends on a rune boundary. */
  ghost predicate SpansAligned(text: bytes, spans: seq<Unit>) {
    forall k :: 0 <= k < |spans| ==> Aligned(text, spans[k].Start) && Aligned(text, spans[k].End)
  }

  ghost predicate PiecesAligned(text: bytes, tok: seq<int>, pieces: seq<seq<Cut>>, maxTok: int)
    requires |tok| == |pieces|
  {
    forall k :: 0 <= k < |tok| && tok[k] > maxTok ==> AllAligned(text, pieces[k])
  }

  lemma PackCutsAligned(text: bytes, spans: seq<Unit>, tok: seq<int>, pieces: seq<seq<Cut>>, maxTok: int,
                        overlapTok: int)
    requires |spans| == |tok| == |pieces| && NonNegative(tok)
    requires SpansAligned(text, spans) && PiecesAligned(text, tok, pieces, maxTok)
    ensures AllAligned(text, PackCuts(spans, tok, pieces, maxTok, overlapTok))
  {
    forall c | c in PackCuts(spans, tok, pieces, maxTok, overlapTok)
      ensures Aligned(text, c.start) && Aligned(text, c.end)
    {
      CutOrigin(spans, tok, pieces, maxTok, overlapTok, c);
    }
  }

  /** Without stray bytes a line start is a rune boundary. */
  lemma LineStartAligned(text: bytes, lo: nat, p: nat)
    requires NoStray(text) && Aligned(text, lo) && LineStart(text, lo, p) && p <= |text|
    ensures Aligned(text, p)
  {
    if p != lo {
      AfterAscii(text, p);
    }
  }

  /** Spans that begin and end at line starts, or at the end. */
  ghost predicate AtLines(text: bytes, lo: nat, hi: nat, spans: seq<Unit>) {
    forall k :: 0 <= k < |spans| ==>
      && LineStart(text, lo, spans[k].Start)
      && (spans[k].End == hi || LineStart(text, lo, spans[k].End))
  }

  lemma AtLinesAligned(text: bytes, lo: nat, hi: nat, spans: seq<Unit>)
    requires NoStray(text) && Aligned(text, lo) && Aligned(text, hi) && lo <= hi <= |text|
    requires AtLines(text, lo, hi, spans) && InText(text, spans)
    ensures SpansAligned(text, spans)
  {
    forall k | 0 <= k < |spans|
      ensures Aligned(text, spans[k].Start) && Aligned(text, spans[k].End)
    {
      LineStartAligned(text, lo, spans[k].Start);
      if spans[k].End != hi {
        LineStartAligned(text, lo, spans[k].End);
      }
    }
  }

  lemma {:induction false} LinesAtLines(text: bytes, lo: nat, i: nat, end: nat)
    requires lo <= i <= end <= |text| && (i == end || LineStart(text, lo, i))
    ensures AtLines(text, lo, end, LinesFrom(text, i, end))
    decreases end - i
  {
    if i < end {
      var next := LineNext(text, i, end);
      LinesAtLines(text, lo, next, end);
      assert LinesFrom(text, i, end) == [Unit(i, next)] + LinesFrom(text, next, end);
    }
  }

  lemma {:induction false} FenceEndAtLine(text: bytes, lo: nat, i: nat, end: nat, ch: byte, n: nat)
    requires lo <= i <= end <= |text| && (i == end || LineStart(text, lo, i))
    ensures var r := FenceEnd(text, i, end, ch, n); r == end || LineStart(text, lo, r)
    decreases end - i
  {
    if i < end && !Closes(LineContent(text, i, end), ch, n) {
      FenceEndAtLine(text, lo, LineNext(text, i, end), end, ch, n);
    }
  }

  lemma RegionEndAtLine(text: bytes, lo: nat, i: nat, end: nat)
    requires lo <= i < end <= |text| && LineStart(text, lo, i)
    ensures var r := RegionEnd(text, i, end); r == end || LineStart(text, lo, r)
  {
    var m := FenceMarkerOf(LineContent(text, i, end));
    if m.Fence? {
      FenceEndAtLine(text, lo, LineNext(text, i, end), end, m.ch, m.n);
    }
  }

  lemma {:induction false} GroupsAtLines(text: bytes, lo: nat, i: nat, end: nat)
    requires lo <= i <= end <= |text| && (i == end || LineStart(text, lo, i))
    ensures AtLines(text, lo, end, UnitsOf(Groups(text, i, end)))
    decreases end - i
  {
    if i < end {
      var e := RegionEnd(text, i, end);
      RegionEndAtLine(text, lo, i, end);
      GroupsAtLines(text, lo, e, end);
      GroupsCons(text, i, end, e);
      AtLinesCons(text, lo, end, Unit(i, e), UnitsOf(Groups(text, e, end)));
    }
  }

  lemma AtLinesCons(text: bytes, lo: nat, hi: nat, u: Unit, rest: seq<Unit>)
    requires AtLines(text, lo, hi, rest) && LineStart(text, lo, u.Start) && (u.End == hi || LineStart(text, lo, u.End))
    ensures AtLines(text, lo, hi, [u] + rest)
  {
  }

  lemma NoOverlapBytes(text: bytes, start: nat, end: nat, overlapTok: int, est: Estimator)
    requires start <= end <= |text| && overlapTok <= 0
    ensures Overlap(text, start, end, overlapTok, est) == 0
  {
    WindowSign(overlapTok, end - start, Total(text, start, end, est));
  }

  /** A prose split of a rune-aligned span, for every budget and overlap. */
  lemma ProseSplitChain(text: bytes, start: nat, end: nat, maxTok: int, overlapTok: int, est: Estimator, mode: Mode)
    requires NoStray(text) && Aligned(text, start) && Aligned(text, end) && start < end <= |text|
    requires mode == Exact ==> overlapTok <= 0
    ensures Chain(mode, ProseSplit(text, start, end, maxTok, overlapTok, est), start, end)
    ensures AllAligned(text, ProseSplit(text, start, end, maxTok, overlapTok, est))
  {
    if overlapTok <= 0 {
      NoOverlapBytes(text, start, end, overlapTok, est);
    }
    ProseIsChain(text, start, end, Target(text, start, end, maxTok, est), Overlap(text, start, end, overlapTok, est),
                 est, mode);
  }

  /** A split of a fenced block at its lines. */
  lemma LineCutsChain(text: bytes, start: nat, end: nat, maxTok: int, overlapTok: int, est: Estimator, mode: Mode)
    requires NoStray(text) && Aligned(text, start) && Aligned(text, end) && start < end <= |text|
    requires NonNegativeEstimate(est) && (mode == Exact ==> overlapTok <= 0)
    ensures Chain(mode, LineCuts(text, start, end, maxTok, overlapTok, est), start, end)
    ensures AllAligned(text, LineCuts(text, start, end, maxTok, overlapTok, est))
  {
    var lines := LinesFrom(text, start, end);
    var tok := Tokens(text, lines, est);
    var pieces := LinePieces(text, lines, maxTok, overlapTok, est);
    LinesTile(text, start, end);
    LinesAtLines(text, start, start, end);
    SpansReady(text, start, end, lines, mode);
    forall k | 0 <= k < |lines| && tok[k] > maxTok
      ensures Chain(mode, pieces[k], lines[k].Start, lines[k].End) && AllAligned(text, pieces[k])
    {
      ProseSplitChain(text, lines[k].Start, lines[k].End, maxTok, overlapTok, est, mode);
    }
    PackCutsChain(mode, lines, tok, pieces, maxTok, overlapTok);
    PackCutsAligned(text, lines, tok, pieces, maxTok, overlapTok);
  }

  /** Line-aligned tiling spans of a rune-aligned stretch are ordered, aligned, and reach from end to end. */
  lemma SpansReady(text: bytes, start: nat, end: nat, spans: seq<Unit>, mode: Mode)
    requires NoStray(text) && Aligned(text, start) && Aligned(text, end) && start < end <= |text|
    requires Tiles(start, end, spans) && AtLines(text, start, end, spans)
    ensures spans != [] && Ordered(mode, spans) && InText(text, spans) && SpansAligned(text, spans)
    ensures spans[0].Start == start && spans[|spans| - 1].End == end
  {
    TilesBound(start, end, spans);
    TilesOrdered(start, end, spans, mode);
    TilesInText(text, start, end, spans);
    AtLinesAligned(text, start, end, spans);
  }

  lemma RegionCutsChain(text: bytes, g: CodeSpan, maxTok: int, overlapTok: int, est: Estimator, mode: Mode)
    requires NoStray(text) && Aligned(text, g.start) && Aligned(text, g.end) && g.start < g.end <= |text|
    requires NonNegativeEstimate(est) && (mode == Exact ==> overlapTok <= 0)
    ensures Chain(mode, RegionCuts(text, g, maxTok, overlapTok, est), g.start, g.end)
    ensures AllAligned(text, RegionCuts(text, g, maxTok, overlapTok, est))
  {
    if g.fence {
      LineCutsChain(text, g.start, g.end, maxTok, overlapTok, est, mode);
    } else {
      ProseSplitChain(text, g.start, g.end, maxTok, overlapTok, est, mode);
    }
  }

  /** A fence-aware split. */
  lemma FencedCutsChain(text: bytes, start: nat, end: nat, maxTok: int, overlapTok: int, est: Estimator, mode: Mode)
    requires NoStray(text) && Aligned(text, start) && Aligned(text, end) && start < end <= |text|
    requires NonNegativeEstimate(est) && (mode == Exact ==> overlapTok <= 0)
    ensures Chain(mode, FencedCuts(text, start, end, maxTok, overlapTok, est), start, end)
    ensures AllAligned(text, FencedCuts(text, start, end, maxTok, overlapTok, est))
  {
    var groups := Groups(text, start, end);
    var spans := UnitsOf(groups);
    var tok := Tokens(text, spans, est);
    var pieces := RegionPieces(text, groups, maxTok, overlapTok, est);
    GroupsTile(text, start, end);
    GroupsAtLines(text, start, start, end);
    SpansReady(text, start, end, spans, mode);
    forall k | 0 <= k < |spans| && tok[k] > maxTok
      ensures Chain(mode, pieces[k], spans[k].Start, spans[k].End) && AllAligned(text, pieces[k])
    {
      assert spans[k] == UnitOf(groups[k]);
      RegionCutsChain(text, groups[k], maxTok, overlapTok, est, mode);
    }
    PackCutsChain(mode, spans, tok, pieces, maxTok, overlapTok);
    PackCutsAligned(text, spans, tok, pieces, maxTok, overlapTok);
  }

  /** hardSplit on any rune-aligned, non-empty span. */
  lemma HardCutsChain(text: bytes, start: nat, end: nat, maxTok: int, overlapTok: int, est: Estimator, mode: Mode)
    requires NoStray(text) && Aligned(text, start) && Aligned(text, end) && start < end <= |text|
    requires NonNegativeEstimate(est) && (mode == Exact ==> overlapTok <= 0)
    ensures Chain(mode, HardCuts(text, start, end, maxTok, overlapTok, est), start, end)
    ensures AllAligned(text, HardCuts(text, start, end, maxTok, overlapTok, est))
  {
    if HasFenceFrom(text, start, end) {
      FencedCutsChain(text, start, end, maxTok, overlapTok, est, mode);
    } else {
      ProseSplitChain(text, start, end, maxTok, overlapTok, est, mode);
    }
  }

  // ----- fences stay whole -----

  /** Position `p` lies strictly inside the span. */
  predicate Inside(u: Unit, p: int) {
    u.Start < p < u.End
  }

  /** A packing run never cuts inside a unit that fits the budget. */
  lemma UnitsStayWhole(mode: Mode, spans: seq<Unit>, tok: seq<int>, pieces: seq<seq<Cut>>, maxTok: int, overlapTok: int,
                       c: Cut, k: nat)
    requires Ordered(mode, spans) && PiecesOk(mode, spans, tok, pieces, maxTok) && NonNegative(tok)
    requires c in PackCuts(spans, tok, pieces, maxTok, overlapTok) && k < |spans| && tok[k] <= maxTok
    ensures !Inside(spans[k], c.start) && !Inside(spans[k], c.end)
  {
    CutOrigin(spans, tok, pieces, maxTok, overlapTok, c);
    if IsPiece(tok, pieces, maxTok, c) {
      var q: nat :| q < |tok| && tok[q] > maxTok && c in pieces[q];
      var m :| 0 <= m < |pieces[q]| && pieces[q][m] == c;
      ChainBounds(mode, pieces[q], spans[q].Start, spans[q].End, m);
      NotInside(spans, q, q, c, k);
    } else {
      var a: nat, b: nat :| a <= b < |spans| && StepOk(tok, maxTok, Pack(a, b)) &&
        c.start == spans[a].Start && c.end == spans[b].End && c.tok == Sum(tok, a, b + 1);
      assert a < b ==> spans[a].End <= spans[b].Start;
      NotInside(spans, a, b, c, k);
    }
  }

  /** A cut between units a and b that begins and ends with them, or lies in a single other unit, splits no unit. */
  lemma NotInside(spans: seq<Unit>, a: nat, b: nat, c: Cut, k: nat)
    requires a <= b < |spans| && k < |spans| && forall x, y :: 0 <= x < y < |spans| ==> spans[x].End <= spans[y].Start
    requires forall x :: 0 <= x < |spans| ==> spans[x].Start < spans[x].End
    requires spans[a].Start <= c.start < c.end <= spans[b].End
    requires (c.start == spans[a].Start && c.end == spans[b].End) || (a == b && a != k)
    ensures !Inside(spans[k], c.start) && !Inside(spans[k], c.end)
  {
  }

  /** No chunk of a fence-aware split starts or ends inside a fenced block, or a line, that fits the budget. */
  lemma FencesStayWhole(text: bytes, start: nat, end: nat, maxTok: int, overlapTok: int, est: Estimator, c: Cut, k: nat)
    requires NoStray(text) && Aligned(text, start) && Aligned(text, end) && start < end <= |text|
    requires NonNegativeEstimate(est)
    requires c in FencedCuts(text, start, end, maxTok, overlapTok, est) && k < |Groups(text, start, end)|
    requires var g := Groups(text, start, end)[k]; est(Slice(text, g.start, g.end)) <= maxTok
    ensures var u := UnitOf(Groups(text, start, end)[k]); !Inside(u, c.start) && !Inside(u, c.end)
  {
    var groups := Groups(text, start, end);
    var spans := UnitsOf(groups);
    var tok := Tokens(text, spans, est);
    var pieces := RegionPieces(text, groups, maxTok, overlapTok, est);
    GroupsTile(text, start, end);
    GroupsAtLines(text, start, start, end);
    SpansReady(text, start, end, spans, Loose);
    forall q | 0 <= q < |spans| && tok[q] > maxTok
      ensures Chain(Loose, pieces[q], spans[q].Start, spans[q].End)
    {
      assert spans[q] == UnitOf(groups[q]);
      RegionCutsChain(text, groups[q], maxTok, overlapTok, est, Loose);
    }
    assert spans[k] == UnitOf(groups[k]);
    UnitsStayWhole(Loose, spans, tok, pieces, maxTok, overlapTok, c, k);
  }

  // ----- cuts fall on line starts -----

  /** text[a..b] is one line of text[lo..hi]. */
  ghost predicate IsLine(text: bytes, lo: nat, hi: nat, a: nat, b: nat) {
    && lo <= a < b <= hi <= |text|
    && LineStart(text, lo, a)
    && b == LineNext(text, a, hi)
  }

  /** No single line of the span is over budget. */
  ghost predicate LinesFit(text: bytes, lo: nat, hi: nat, maxTok: int, est: Estimator) {
    forall a: nat, b: nat :: IsLine(text, lo, hi, a, b) ==> est(Slice(text, a, b)) <= maxTok
  }

  predicate AtLineOrEnd(text: bytes, lo: nat, hi: nat, p: int) {
    p == hi || LineStart(text, lo, p)
  }

  /** A line of a stretch that ends at a line start is a line of the whole. */
  lemma LinesFitWithin(text: bytes, lo: nat, hi: nat, a: nat, b: nat, maxTok: int, est: Estimator)
    requires lo <= a <= b <= hi <= |text| && LineStart(text, lo, a) && AtLineOrEnd(text, lo, hi, b)
    requires LinesFit(text, lo, hi, maxTok, est)
    ensures LinesFit(text, a, b, maxTok, est)
  {
    forall x: nat, y: nat | IsLine(text, a, b, x, y)
      ensures est(Slice(text, x, y)) <= maxTok
    {
      LineWithin(text, x, b, hi);
      assert IsLine(text, lo, hi, x, y);
    }
  }

  lemma {:induction false} LinesAreLines(text: bytes, lo: nat, i: nat, end: nat)
    requires lo <= i <= end <= |text| && (i == end || LineStart(text, lo, i))
    ensures forall u :: u in LinesFrom(text, i, end) ==>
            u.Start >= 0 && u.End >= 0 && IsLine(text, lo, end, u.Start, u.End)
    decreases end - i
  {
    if i < end {
      LinesAreLines(text, lo, LineNext(text, i, end), end);
    }
  }

  /** With no over-long line, a fenced block is cut at line starts only. */
  lemma LineCutsAtLines(text: bytes, start: nat, end: nat, maxTok: int, overlapTok: int, est: Estimator, c: Cut)
    requires start <= end <= |text| && NonNegativeEstimate(est) && LinesFit(text, start, end, maxTok, est)
    requires c in LineCuts(text, start, end, maxTok, overlapTok, est)
    ensures AtLineOrEnd(text, start, end, c.start) && AtLineOrEnd(text, start, end, c.end)
  {
    var lines := LinesFrom(text, start, end);
    var tok := Tokens(text, lines, est);
    LinesAtLines(text, start, start, end);
    LinesAreLines(text, start, start, end);
    forall k | 0 <= k < |lines|
      ensures tok[k] <= maxTok
    {
      assert lines[k] in lines;
    }
    CutOrigin(lines, tok, LinePieces(text, lines, maxTok, overlapTok, est), maxTok, overlapTok, c);
  }

  /** With no over-long line, every cut of a fence-aware split is at a line start, with any overlap. */
  lemma FencedCutsAtLines(text: bytes, start: nat, end: nat, maxTok: int, overlapTok: int, est: Estimator, c: Cut)
    requires start <= end <= |text| && NonNegativeEstimate(est) && LinesFit(text, start, end, maxTok, est)
    requires c in FencedCuts(text, start, end, maxTok, overlapTok, est)
    ensures AtLineOrEnd(text, start, end, c.start) && AtLineOrEnd(text, start, end, c.end)
  {
    var groups := Groups(text, start, end);
    var spans := UnitsOf(groups);
    var tok := Tokens(text, spans, est);
    var pieces := RegionPieces(text, groups, maxTok, overlapTok, est);
    GroupsAtLines(text, start, start, end);
    CutOrigin(spans, tok, pieces, maxTok, overlapTok, c);
    if IsPiece(tok, pieces, maxTok, c) {
      var k: nat :| k < |tok| && tok[k] > maxTok && c in pieces[k];
      assert spans[k] == UnitOf(groups[k]);
      OversizeRegionAtLines(text, start, end, maxTok, overlapTok, est, c, k, groups[k]);
    }
  }

  /** With no over-long line, an oversize region is a fenced block, cut at its lines. */
  lemma OversizeRegionAtLines(text: bytes, start: nat, end: nat, maxTok: int, overlapTok: int, est: Estimator, c: Cut,
                              k: nat, g: CodeSpan)
    requires start <= end <= |text| && NonNegativeEstimate(est) && LinesFit(text, start, end, maxTok, est)
    requires k < |Groups(text, start, end)| && g == Groups(text, start, end)[k]
    requires est(Slice(text, g.start, g.end)) > maxTok && c in RegionCuts(text, g, maxTok, overlapTok, est)
    ensures AtLineOrEnd(text, start, end, c.start) && AtLineOrEnd(text, start, end, c.end)
  {
    GroupsInText(text, start, end);
    GroupsAtLines(text, start, start, end);
    assert UnitsOf(Groups(text, start, end))[k] == UnitOf(g);
    if g.fence {
      LinesFitWithin(text, start, end, g.start, g.end, maxTok, est);
      LineCutsAtLines(text, g.start, g.end, maxTok, overlapTok, est, c);
    } else {
      LoneLines(text, start, start, end, k);
    }
  }

  lemma PlainRegionIsLine(text: bytes, lo: nat, i: nat, end: nat, g: CodeSpan)
    requires lo <= i < end <= |text| && LineStart(text, lo, i)
    requires g == RegionAt(text, i, end) && !g.fence
    ensures IsLine(text, lo, end, g.start, g.end)
  {
  }

  /** A region that is not a fenced block is a single line. */
  lemma {:induction false} LoneLines(text: bytes, lo: nat, i: nat, end: nat, k: nat)
    requires lo <= i <= end <= |text| && (i == end || LineStart(text, lo, i))
    requires k < |Groups(text, i, end)| && !Groups(text, i, end)[k].fence
    ensures var g := Groups(text, i, end)[k]; IsLine(text, lo, end, g.start, g.end)
    decreases end - i
  {
    GroupsStep(text, i, end, []);
    if k == 0 {
      PlainRegionIsLine(text, lo, i, end, RegionAt(text, i, end));
    } else {
      var e := RegionEnd(text, i, end);
      RegionEndAtLine(text, lo, i, end);
      LoneLines(text, lo, e, end, k - 1);
    }
  }

  // ----- how a hard split is made up -----

  /** With a fenced region in it a span is cut at its regions, without one as prose. */
  lemma HardSplitChoice(text: bytes, start: nat, end: nat, maxTok: int, overlapTok: int, est: Estimator)
    requires start <= end <= |text|
    ensures HardCuts(text, start, end, maxTok, overlapTok, est) ==
            if HasFencedRegion(text, start, end) then FencedCuts(text, start, end, maxTok, overlapTok, est)
            else ProseSplit(text, start, end, maxTok, overlapTok, est)
  {
    HasFenceIff(text, start, end);
  }

  lemma TokensNonNegative(text: bytes, spans: seq<Unit>, est: Estimator)
    requires NonNegativeEstimate(est)
    ensures NonNegative(Tokens(text, spans, est))
  {
  }

  /**
    * A fenced block is packed line by line, in one greedy run under the same two budgets, each over-long line cut as
    * prose.
    */
  lemma LineCutsRun(text: bytes, start: nat, end: nat, maxTok: int, overlapTok: int, est: Estimator)
      returns (tok: seq<int>, pieces: seq<seq<Cut>>, plan: seq<Step>)
    requires start <= end <= |text| && NonNegativeEstimate(est)
    ensures var lines := LinesFrom(text, start, end);
            && |tok| == |pieces| == |lines|
            && (forall k :: 0 <= k < |lines| ==> tok[k] == est(Slice(text, lines[k].Start, lines[k].End)))
            && (forall k :: 0 <= k < |lines| ==> 0 <= lines[k].Start <= lines[k].End <= |text|)
            && (forall k :: 0 <= k < |lines| ==>
                  pieces[k] == ProseSplit(text, lines[k].Start, lines[k].End, maxTok, overlapTok, est))
            && GreedyRun(tok, 0, maxTok, overlapTok, plan)
            && LineCuts(text, start, end, maxTok, overlapTok, est) == Render(lines, tok, pieces, plan)
  {
    var lines := LinesFrom(text, start, end);
    tok, pieces := Tokens(text, lines, est), LinePieces(text, lines, maxTok, overlapTok, est);
    plan := Plan(tok, 0, maxTok, overlapTok);
    LinesInText(text, start, end);
    TokensNonNegative(text, lines, est);
    PlanIsGreedy(tok, 0, maxTok, overlapTok);
  }

  /**
    * So is a span with fences, region by region: an oversize block is cut at its lines, an oversize lone line as prose.
    */
  lemma FencedCutsRun(text: bytes, start: nat, end: nat, maxTok: int, overlapTok: int, est: Estimator)
      returns (tok: seq<int>, pieces: seq<seq<Cut>>, plan: seq<Step>)
    requires start <= end <= |text| && NonNegativeEstimate(est)
    ensures var groups := Groups(text, start, end);
            && |tok| == |pieces| == |groups|
            && (forall k :: 0 <= k < |groups| ==> tok[k] == est(Slice(text, groups[k].start, groups[k].end)))
            && (forall k :: 0 <= k < |groups| ==> groups[k].start <= groups[k].end <= |text|)
            && (forall k :: 0 <= k < |groups| && groups[k].fence ==>
                  pieces[k] == LineCuts(text, groups[k].start, groups[k].end, maxTok, overlapTok, est))
            && (forall k :: 0 <= k < |groups| && !groups[k].fence ==>
                  pieces[k] == ProseSplit(text, groups[k].start, groups[k].end, maxTok, overlapTok, est))
            && GreedyRun(tok, 0, maxTok, overlapTok, plan)
            && FencedCuts(text, start, end, maxTok, overlapTok, est) == Render(UnitsOf(groups), tok, pieces, plan)
  {
    var groups := Groups(text, start, end);
    var spans := UnitsOf(groups);
    tok, pieces := Tokens(text, spans, est), RegionPieces(text, groups, maxTok, overlapTok, est);
    plan := Plan(tok, 0, maxTok, overlapTok);
    GroupsInText(text, start, end);
    assert forall k :: 0 <= k < |groups| ==> spans[k] == UnitOf(groups[k]);
    TokensNonNegative(text, spans, est);
    PlanIsGreedy(tok, 0, maxTok, overlapTok);
  }
}
