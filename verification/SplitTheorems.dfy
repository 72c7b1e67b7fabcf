/** What Split promises, from the source text to the chunks. */
module SplitTheorems {
  import opened Basics
  import opened Utf8
  import opened Space
  import opened Packing
  import opened Cuts
  import opened Chunks
  import opened ProseChain
  import opened CodeSplit
  import opened HardSplit
  import opened Paragraphs
  import opened Headings
  import opened HeadingSections
  import opened Split

  // ----- the cuts of a trimmed text -----

  lemma UnitsForReady(text: bytes, cfg: Config)
    requires text != []
    ensures var units := UnitsFor(text, cfg);
            && ValidUnitsOf(text, units) && units != []
            && Ordered(Loose, units) && InText(text, units) && SpansAligned(text, units)
  {
    var units := UnitsFor(text, cfg);
    if !ValidUnitsOf(text, BoundariesOf(cfg)(text)) {
      assert UnitAt(text, units, 0);
    }
    ValidUnitsOrdered(text, units);
    forall k | 0 <= k < |units|
      ensures Aligned(text, units[k].Start) && Aligned(text, units[k].End)
    {
      assert UnitAt(text, units, k);
    }
  }

  /** The hard-split pieces of every oversize unit fit that unit exactly. */
  lemma UnitPiecesReady(text: bytes, units: seq<Unit>, maxTok: int, overlapTok: int, est: Estimator, mode: Mode)
    requires NoStray(text) && InText(text, units) && SpansAligned(text, units)
    requires NonNegativeEstimate(est) && (mode == Exact ==> overlapTok <= 0)
    ensures PiecesOk(mode, units, Tokens(text, units, est), UnitPieces(text, units, maxTok, overlapTok, est), maxTok)
    ensures PiecesAligned(text, Tokens(text, units, est), UnitPieces(text, units, maxTok, overlapTok, est), maxTok)
  {
    var pieces := UnitPieces(text, units, maxTok, overlapTok, est);
    forall k | 0 <= k < |units|
      ensures Chain(mode, pieces[k], units[k].Start, units[k].End) && AllAligned(text, pieces[k])
    {
      HardCutsChain(text, units[k].Start, units[k].End, maxTok, overlapTok, est, mode);
    }
  }

  lemma CutsOfUnitsChain(text: bytes, units: seq<Unit>, maxTok: int, overlapTok: int, est: Estimator, mode: Mode)
    requires NoStray(text) && units != [] && InText(text, units) && SpansAligned(text, units) && Ordered(mode, units)
    requires NonNegativeEstimate(est) && (mode == Exact ==> overlapTok <= 0)
    ensures Chain(mode, CutsOfUnits(text, units, maxTok, overlapTok, est), units[0].Start, units[|units| - 1].End)
    ensures AllAligned(text, CutsOfUnits(text, units, maxTok, overlapTok, est))
  {
    var tok, pieces := Tokens(text, units, est), UnitPieces(text, units, maxTok, overlapTok, est);
    UnitPiecesReady(text, units, maxTok, overlapTok, est, mode);
    PackCutsChain(mode, units, tok, pieces, maxTok, overlapTok);
    PackCutsAligned(text, units, tok, pieces, maxTok, overlapTok);
  }

  // ----- from cuts to chunks -----

  /** The spans of a chunk list. */
  function Spans(chunks: seq<Chunk>): (r: seq<Cut>)
    ensures |r| == |chunks|
    ensures forall k :: 0 <= k < |r| ==> r[k] == Cut(chunks[k].StartByte, chunks[k].EndByte, chunks[k].TokenCount)
  {
    seq(|chunks|, k requires 0 <= k < |chunks| => Cut(chunks[k].StartByte, chunks[k].EndByte, chunks[k].TokenCount))
  }

  /** Chunk `k`: numbered by its position, a rune-aligned non-empty span of the source, holding that span's text. */
  ghost predicate ChunkOk(source: bytes, c: Chunk, k: int) {
    && c.Index == k
    && 0 <= c.StartByte < c.EndByte <= |source|
    && c.Text == source[c.StartByte..c.EndByte]
    && Aligned(source, c.StartByte) && Aligned(source, c.EndByte)
  }

  ghost predicate ChunksOk(source: bytes, chunks: seq<Chunk>) {
    forall k :: 0 <= k < |chunks| ==> ChunkOk(source, chunks[k], k)
  }

  /** A rune boundary of an aligned slice is one of the source. */
  lemma AlignedInSource(source: bytes, off: nat, hi: nat, p: nat)
    requires off <= hi <= |source| && Aligned(source, off) && Aligned(source, hi)
    requires off + p <= hi && Aligned(source[off..hi], p)
    ensures Aligned(source, off + p)
  {
  }

  lemma ShiftedChunkOk(source: bytes, off: nat, hi: nat, c: Cut, k: int)
    requires off <= hi <= |source| && Aligned(source, off) && Aligned(source, hi)
    requires 0 <= c.start < c.end <= hi - off
    requires Aligned(source[off..hi], c.start) && Aligned(source[off..hi], c.end)
    ensures ChunkOk(source, ShiftChunk(MakeChunk(source[off..hi], c, k), off), k)
  {
    AlignedInSource(source, off, hi, c.start);
    AlignedInSource(source, off, hi, c.end);
    SliceOfSlice(source, off, hi, c.start, c.end);
  }

  /** What the chunk list of a source is, cut by cut. */
  lemma ChunksAt(source: bytes, cfg: Config)
    requires TrimSpace(source) != []
    ensures var text := TrimSpace(source);
            var cuts, chunks := SplitCuts(text, cfg), ChunksOf(source, cfg);
            |chunks| == |cuts| &&
            forall k :: 0 <= k < |cuts| ==> chunks[k] == ShiftChunk(MakeChunk(text, cuts[k], k), TrimStart(source))
  {
    MakeChunksAt(TrimSpace(source), SplitCuts(TrimSpace(source), cfg), 0);
  }

  lemma ChainShift(mode: Mode, cuts: seq<Cut>, shifted: seq<Cut>, lo: int, hi: int, off: int)
    requires Chain(mode, cuts, lo, hi) && |shifted| == |cuts|
    requires forall k :: 0 <= k < |cuts| ==> shifted[k] == Cut(cuts[k].start + off, cuts[k].end + off, cuts[k].tok)
    ensures Chain(mode, shifted, lo + off, hi + off)
  {
    forall k | 0 <= k < |shifted| - 1
      ensures Adjacent(mode, shifted[k], shifted[k + 1])
    {
      assert Adjacent(mode, cuts[k], cuts[k + 1]);
    }
  }

  /** A chain of rune-aligned cuts of source[off..hi], numbered and shifted back into the source. */
  lemma ChunksOfCuts(source: bytes, off: nat, hi: nat, cuts: seq<Cut>, chunks: seq<Chunk>, mode: Mode, lo: int,
                     end: int)
    requires off <= hi <= |source| && Aligned(source, off) && Aligned(source, hi)
    requires Chain(mode, cuts, lo, end) && 0 <= lo && end <= hi - off && AllAligned(source[off..hi], cuts)
    requires |chunks| == |cuts|
    requires forall k :: 0 <= k < |cuts| ==> chunks[k] == ShiftChunk(MakeChunk(source[off..hi], cuts[k], k), off)
    ensures ChunksOk(source, chunks) && Chain(mode, Spans(chunks), off + lo, off + end)
  {
    forall k | 0 <= k < |cuts|
      ensures ChunkOk(source, chunks[k], k)
    {
      ChainBounds(mode, cuts, lo, end, k);
      assert cuts[k] in cuts;
      ShiftedChunkOk(source, off, hi, cuts[k], k);
    }
    ChainShift(mode, cuts, Spans(chunks), lo, end, off);
  }

  lemma ChunksFromChain(source: bytes, cfg: Config, mode: Mode, lo: int, hi: int)
    requires NoStray(source) && TrimSpace(source) != []
    requires Chain(mode, SplitCuts(TrimSpace(source), cfg), lo, hi) && 0 <= lo && hi <= |TrimSpace(source)|
    requires AllAligned(TrimSpace(source), SplitCuts(TrimSpace(source), cfg))
    ensures ChunksOk(source, ChunksOf(source, cfg))
    ensures Chain(mode, Spans(ChunksOf(source, cfg)), TrimStart(source) + lo, TrimStart(source) + hi)
  {
    TrimAligned(source);
    ChunksAt(source, cfg);
    ChunksOfCuts(source, TrimStart(source), TrimEnd(source), SplitCuts(TrimSpace(source), cfg), ChunksOf(source, cfg),
                 mode, lo, hi);
  }

  // ----- every Split result -----

  /**
    * For any boundaries function, any estimator that does not go negative and any settings: chunks are numbered
    * in sequence, each is a non-empty rune-aligned span of the source with exactly that text, starts strictly
    * increase and ends never move back.
    */
  lemma SplitContract(source: bytes, cfg: Config)
    requires NoStray(source) && NonNegativeEstimate(EstimateOf(cfg))
    ensures ChunksOk(source, ChunksOf(source, cfg))
    ensures forall k :: 0 <= k < |ChunksOf(source, cfg)| - 1 ==>
              Adjacent(Loose, Spans(ChunksOf(source, cfg))[k], Spans(ChunksOf(source, cfg))[k + 1])
    ensures ChunksOf(source, cfg) == [] <==> TrimSpace(source) == []
  {
    var text := TrimSpace(source);
    if text != [] {
      TrimAligned(source);
      UnitsForReady(text, cfg);
      var units := UnitsFor(text, cfg);
      CutsOfUnitsChain(text, units, MaxTok(cfg), OverlapTok(cfg), EstimateOf(cfg), Loose);
      ChunksFromChain(source, cfg, Loose, units[0].Start, units[|units| - 1].End);
    }
  }

  /** A step of the plan keeps its cuts in the whole run. */
  lemma {:induction false} StepInRender(spans: seq<Unit>, tok: seq<int>, pieces: seq<seq<Cut>>, plan: seq<Step>,
                                        q: nat, c: Cut)
    requires |spans| == |tok| == |pieces| && q < |plan| && c in RenderStep(spans, tok, pieces, plan[q])
    ensures c in Render(spans, tok, pieces, plan)
    decreases |plan|
  {
    if q > 0 {
      StepInRender(spans, tok, pieces, plan[1..], q - 1, c);
    }
  }

  /** Byte `p` lies in the cut. */
  predicate Holds(c: Cut, p: int) {
    c.start <= p < c.end
  }

  /** A packing run leaves out no byte of any span, whatever gaps there are between them. */
  lemma PackCutsCoverSpans(spans: seq<Unit>, tok: seq<int>, pieces: seq<seq<Cut>>, maxTok: int, overlapTok: int,
                           u: nat, p: int)
      returns (c: Cut)
    requires Ordered(Loose, spans) && PiecesOk(Covering, spans, tok, pieces, maxTok) && NonNegative(tok)
    requires u < |spans| && spans[u].Start <= p < spans[u].End
    ensures c in PackCuts(spans, tok, pieces, maxTok, overlapTok) && Holds(c, p)
  {
    var plan := Plan(tok, 0, maxTok, overlapTok);
    PlanShape(tok, 0, maxTok, overlapTok);
    PlanCovers(tok, 0, maxTok, overlapTok <= 0, plan, u, |plan| - 1);
    var q :| 0 <= q < |plan| && plan[q].first <= u <= plan[q].Last();
    assert StepOk(tok, maxTok, plan[q]);
    c := StepHolds(spans, tok, pieces, maxTok, plan[q], u, p);
    StepInRender(spans, tok, pieces, plan, q, c);
  }

  /** A step that takes in unit `u` has a cut for each of its bytes. */
  lemma StepHolds(spans: seq<Unit>, tok: seq<int>, pieces: seq<seq<Cut>>, maxTok: int, s: Step, u: nat, p: int)
      returns (c: Cut)
    requires Ordered(Loose, spans) && PiecesOk(Covering, spans, tok, pieces, maxTok) && StepOk(tok, maxTok, s)
    requires u < |spans| && spans[u].Start <= p < spans[u].End && s.first <= u <= s.Last()
    ensures c in RenderStep(spans, tok, pieces, s) && Holds(c, p)
  {
    if s.Pack? {
      assert s.first < u ==> spans[s.first].End <= spans[u].Start;
      assert u < s.last ==> spans[u].End <= spans[s.last].Start;
      c := PackedCut(spans, tok, s.first, s.last);
    } else {
      ChainCovers(Covering, pieces[u], spans[u].Start, spans[u].End, p);
      var k :| 0 <= k < |pieces[u]| && pieces[u][k].start <= p < pieces[u][k].end;
      c := pieces[u][k];
    }
  }

  /** For any boundaries function, every byte of every unit it marks off lies in some chunk. */
  lemma SplitCoversUnits(source: bytes, cfg: Config, u: nat, p: int)
    requires NoStray(source) && NonNegativeEstimate(EstimateOf(cfg)) && TrimSpace(source) != []
    requires u < |UnitsFor(TrimSpace(source), cfg)|
    requires var unit := UnitsFor(TrimSpace(source), cfg)[u]; unit.Start <= p - TrimStart(source) < unit.End
    ensures exists k :: 0 <= k < |ChunksOf(source, cfg)| &&
                        ChunksOf(source, cfg)[k].StartByte <= p < ChunksOf(source, cfg)[k].EndByte
  {
    var text := TrimSpace(source);
    var units := UnitsFor(text, cfg);
    var maxTok, overlapTok, est := MaxTok(cfg), OverlapTok(cfg), EstimateOf(cfg);
    TrimAligned(source);
    UnitsForReady(text, cfg);
    UnitPiecesReady(text, units, maxTok, overlapTok, est, Covering);
    var c := PackCutsCoverSpans(units, Tokens(text, units, est), UnitPieces(text, units, maxTok, overlapTok, est),
                                maxTok, overlapTok, u, p - TrimStart(source));
    CutIsChunk(source, cfg, c);
  }

  /** Each cut of the trimmed text is some chunk of the source. */
  lemma CutIsChunk(source: bytes, cfg: Config, c: Cut)
    requires TrimSpace(source) != [] && c in SplitCuts(TrimSpace(source), cfg)
    ensures exists k :: 0 <= k < |ChunksOf(source, cfg)| &&
                        ChunksOf(source, cfg)[k].StartByte == c.start + TrimStart(source) &&
                        ChunksOf(source, cfg)[k].EndByte == c.end + TrimStart(source)
  {
    ChunksAt(source, cfg);
    var k :| 0 <= k < |SplitCuts(TrimSpace(source), cfg)| && SplitCuts(TrimSpace(source), cfg)[k] == c;
    assert ChunksOf(source, cfg)[k] == ShiftChunk(MakeChunk(TrimSpace(source), c, k), TrimStart(source));
  }

  /** The segmentation tiles the text, as the bundled ones do. */
  ghost predicate GapFree(text: bytes, cfg: Config) {
    Tiles(0, |text|, UnitsFor(text, cfg))
  }

  /**
    * Without gaps the chunks run from the first trimmed byte to the last, each starting at or before the end of the one
    * before.
    */
  lemma SplitChain(source: bytes, cfg: Config, mode: Mode)
    requires NoStray(source) && TrimSpace(source) != [] && NonNegativeEstimate(EstimateOf(cfg))
    requires GapFree(TrimSpace(source), cfg) && (mode == Exact ==> cfg.NoOverlap)
    ensures ChunksOk(source, ChunksOf(source, cfg))
    ensures Chain(mode, Spans(ChunksOf(source, cfg)), TrimStart(source), TrimEnd(source))
  {
    var text := TrimSpace(source);
    var units := UnitsFor(text, cfg);
    TrimAligned(source);
    UnitsForReady(text, cfg);
    TilesOrdered(0, |text|, units, mode);
    TilesBound(0, |text|, units);
    CutsOfUnitsChain(text, units, MaxTok(cfg), OverlapTok(cfg), EstimateOf(cfg), mode);
    ChunksFromChain(source, cfg, mode, 0, |text|);
  }

  /** Split loses nothing: every byte of the trimmed source lies in some chunk. */
  lemma SplitCovers(source: bytes, cfg: Config, p: int)
    requires NoStray(source) && NonNegativeEstimate(EstimateOf(cfg)) && GapFree(TrimSpace(source), cfg)
    requires TrimStart(source) <= p < TrimEnd(source)
    ensures exists k :: 0 <= k < |ChunksOf(source, cfg)| &&
                        ChunksOf(source, cfg)[k].StartByte <= p < ChunksOf(source, cfg)[k].EndByte
  {
    var units := UnitsFor(TrimSpace(source), cfg);
    TilesCover(0, |TrimSpace(source)|, units, p - TrimStart(source));
    var u: nat :| u < |units| && units[u].Start <= p - TrimStart(source) < units[u].End;
    SplitCoversUnits(source, cfg, u, p);
  }

  lemma {:induction false} TilesCover(lo: int, hi: int, units: seq<Unit>, p: int)
    requires Tiles(lo, hi, units) && lo <= p < hi
    ensures exists k: nat :: k < |units| && units[k].Start <= p < units[k].End
    decreases |units|
  {
    if p < units[0].End {
      assert units[0].Start <= p;
    } else {
      TilesCover(units[0].End, hi, units[1..], p);
      var k: nat :| k < |units[1..]| && units[1..][k].Start <= p < units[1..][k].End;
      assert units[k + 1] == units[1..][k];
    }
  }

  function Join(chunks: seq<Chunk>): bytes {
    if chunks == [] then [] else Join(chunks[..|chunks| - 1]) + chunks[|chunks| - 1].Text
  }

  lemma {:induction false} JoinIsSlice(source: bytes, chunks: seq<Chunk>, lo: int, n: nat)
    requires ChunksOk(source, chunks) && 0 < n <= |chunks| && chunks[0].StartByte == lo
    requires forall k :: 0 <= k < |chunks| - 1 ==> Adjacent(Exact, Spans(chunks)[k], Spans(chunks)[k + 1])
    ensures lo <= chunks[n - 1].EndByte && Join(chunks[..n]) == Slice(source, lo, chunks[n - 1].EndByte)
    decreases n
  {
    assert ChunkOk(source, chunks[n - 1], n - 1);
    assert ChunkOk(source, chunks[0], 0);
    assert chunks[..n][..n - 1] == chunks[..n - 1];
    if n > 1 {
      JoinIsSlice(source, chunks, lo, n - 1);
      assert ChunkOk(source, chunks[n - 2], n - 2);
      assert Adjacent(Exact, Spans(chunks)[n - 2], Spans(chunks)[n - 2 + 1]);
    } else {
      assert chunks[..0] == [];
    }
  }

  lemma {:induction false} JoinWhole(source: bytes, chunks: seq<Chunk>, lo: int, hi: int)
    requires ChunksOk(source, chunks) && chunks != [] && Spans(chunks)[0].start == lo
    requires Spans(chunks)[|chunks| - 1].end == hi
    requires forall k :: 0 <= k < |chunks| - 1 ==> Adjacent(Exact, Spans(chunks)[k], Spans(chunks)[k + 1])
    ensures Join(chunks) == Slice(source, lo, hi)
  {
    JoinIsSlice(source, chunks, lo, |chunks|);
    assert chunks[..|chunks|] == chunks;
  }

  /** With overlap off, the chunk texts joined are exactly the trimmed source. */
  lemma SplitReconstructs(source: bytes, cfg: Config)
    requires NoStray(source) && NonNegativeEstimate(EstimateOf(cfg)) && GapFree(TrimSpace(source), cfg) && cfg.NoOverlap
    ensures Join(ChunksOf(source, cfg)) == TrimSpace(source)
  {
    var chunks := ChunksOf(source, cfg);
    if TrimSpace(source) != [] {
      SplitChain(source, cfg, Exact);
      JoinWhole(source, chunks, TrimStart(source), TrimEnd(source));
    }
  }

  // ----- the bundled segmentations are gap-free and valid -----

  /** A position behind an LF, or the end of the text. */
  predicate EndsAtLF(text: bytes, e: int) {
    e == |text| || (0 < e <= |text| && text[e - 1] == LF)
  }

  lemma TilingUnitsValid(text: bytes, units: seq<Unit>)
    requires text != [] && Tiles(0, |text|, units)
    requires forall k :: 0 <= k < |units| ==> Aligned(text, units[k].Start) && Aligned(text, units[k].End)
    ensures ValidUnitsOf(text, units)
  {
    TilesBound(0, |text|, units);
    TilesOrdered(0, |text|, units, Exact);
  }

  /** Tiling units that end behind an LF are rune-aligned where no byte is stray. */
  lemma {:induction false} EndsAlignedFrom(text: bytes, lo: nat, units: seq<Unit>)
    requires NoStray(text) && Tiles(lo, |text|, units) && Aligned(text, lo)
    requires forall u :: u in units ==> EndsAtLF(text, u.End)
    ensures forall k :: 0 <= k < |units| ==> Aligned(text, units[k].Start) && Aligned(text, units[k].End)
    decreases |units|
  {
    if units != [] {
      TilesBound(lo, |text|, units);
      var end := units[0].End;
      assert units[0] in units;
      if end != |text| {
        AfterAscii(text, end);
      }
      EndsAlignedFrom(text, end, units[1..]);
      assert units == [units[0]] + units[1..];
    }
  }

  lemma {:induction false} ParagraphEndsAtLF(text: bytes, start: nat)
    requires start <= |text|
    ensures forall u :: u in UnitsFrom(text, start) ==> EndsAtLF(text, u.End)
    decreases |text| - start
  {
    if start < |text| {
      ParagraphEndsAtLF(text, ParagraphEnd(text, start));
    }
  }

  /** Paragraphs is accepted by validUnits on every non-empty text without stray bytes. */
  lemma ParagraphsValid(text: bytes)
    requires NoStray(text) && text != []
    ensures ValidUnitsOf(text, ParagraphUnits(text)) && Tiles(0, |text|, ParagraphUnits(text))
  {
    ParagraphsCanonical(text);
    ParagraphEndsAtLF(text, 0);
    EndsAlignedFrom(text, 0, ParagraphUnits(text));
    TilingUnitsValid(text, ParagraphUnits(text));
  }

  lemma ReachedEndsAtLF(text: bytes, p: nat)
    requires Reaches(text, 0, |text|, p) && p > 0
    ensures EndsAtLF(text, p)
  {
    ReachesForward(text, 0, |text|, p);
    ReachedAtLine(text, 0, 0, |text|, p);
  }

  lemma {:induction false} SectionEnds(text: bytes, starts: seq<nat>)
    requires Ascending(starts) && AllReached(text, starts)
    ensures forall u :: u in Sections(starts, |text|) ==> EndsAtLF(text, u.End)
    decreases |starts|
  {
    if |starts| > 1 {
      SectionEnds(text, starts[1..]);
      ReachedEndsAtLF(text, starts[1]);
    } else if |starts| == 1 {
      assert Sections(starts[1..], |text|) == [];
    }
  }

  lemma HeadingEnds(text: bytes, starts: seq<nat>)
    requires starts != [] && Ascending(starts) && AllReached(text, starts)
    ensures forall u :: u in UnitsOfStarts(starts, |text|) ==> EndsAtLF(text, u.End)
  {
    SectionEnds(text, starts);
    if starts[0] > 0 {
      ReachedEndsAtLF(text, starts[0]);
    }
  }

  /** Headings is accepted by validUnits on every non-empty text without stray bytes, and tiles it. */
  lemma HeadingsValid(text: bytes)
    requires NoStray(text) && text != []
    ensures ValidUnitsOf(text, HeadingUnits(text)) && Tiles(0, |text|, HeadingUnits(text))
  {
    if HeadingStarts(text) == [] {
      ParagraphsValid(text);
    } else {
      HeadingsTile(text);
      HeadingStartsAscend(text);
      HeadingStartsAreRegions(text);
      HeadingEnds(text, HeadingStarts(text));
      EndsAlignedFrom(text, 0, HeadingUnits(text));
      TilingUnitsValid(text, HeadingUnits(text));
    }
  }

  /** Both bundled segmentations meet the gap-free condition of the theorems above. */
  lemma BundledBoundariesGapFree(text: bytes, cfg: Config)
    requires NoStray(text) && text != []
    requires cfg.Boundaries.None? || cfg.Boundaries.value(text) == HeadingUnits(text)
    ensures GapFree(text, cfg)
  {
    if cfg.Boundaries.None? {
      ParagraphsValid(text);
    } else {
      HeadingsValid(text);
    }
  }

  /**
    * With a bundled segmentation nothing is lost, whatever path a chunk took, and without overlap nothing is repeated.
    */
  lemma BundledSplitLosesNothing(source: bytes, cfg: Config, p: int)
    requires NoStray(source) && NonNegativeEstimate(EstimateOf(cfg))
    requires cfg.Boundaries.None? || cfg.Boundaries.value == HeadingUnits
    ensures TrimStart(source) <= p < TrimEnd(source) ==>
              exists k :: 0 <= k < |ChunksOf(source, cfg)| &&
                          ChunksOf(source, cfg)[k].StartByte <= p < ChunksOf(source, cfg)[k].EndByte
    ensures cfg.NoOverlap ==> Join(ChunksOf(source, cfg)) == TrimSpace(source)
  {
    if TrimSpace(source) != [] {
      TrimAligned(source);
      BundledBoundariesGapFree(TrimSpace(source), cfg);
      if TrimStart(source) <= p < TrimEnd(source) {
        SplitCovers(source, cfg, p);
      }
      if cfg.NoOverlap {
        SplitReconstructs(source, cfg);
      }
    }
  }

  // ----- oversize units and optimality -----

  /** Each unit over budget is hard-split by exactly one step of the run, and packed by none. */
  lemma OversizeUnitsSplitOnce(text: bytes, cfg: Config, u: nat)
    requires NonNegativeEstimate(EstimateOf(cfg)) && u < |UnitsFor(text, cfg)|
    requires Tokens(text, UnitsFor(text, cfg), EstimateOf(cfg))[u] > MaxTok(cfg)
    ensures SplitOnce(Plan(Tokens(text, UnitsFor(text, cfg), EstimateOf(cfg)), 0, MaxTok(cfg), OverlapTok(cfg)), u)
  {
    OversizeSplitOnce(Tokens(text, UnitsFor(text, cfg), EstimateOf(cfg)), MaxTok(cfg), OverlapTok(cfg), u);
  }

  lemma {:induction false} RenderAllPacked(spans: seq<Unit>, tok: seq<int>, pieces: seq<seq<Cut>>, maxTok: int,
                                           plan: seq<Step>)
    requires |spans| == |tok| == |pieces| && forall k :: 0 <= k < |tok| ==> tok[k] <= maxTok
    requires forall k :: 0 <= k < |plan| ==> StepOk(tok, maxTok, plan[k])
    ensures |Render(spans, tok, pieces, plan)| == |plan|
    decreases |plan|
  {
    if plan != [] {
      assert StepOk(tok, maxTok, plan[0]);
      RenderAllPacked(spans, tok, pieces, maxTok, plan[1..]);
    }
  }

  /**
    * Without overlap, when every unit fits, no partition into consecutive in-budget groups has fewer groups than Split
    * has chunks.
    */
  lemma SplitIsOptimal(source: bytes, cfg: Config, ends: seq<nat>)
    requires NonNegativeEstimate(EstimateOf(cfg)) && cfg.NoOverlap && TrimSpace(source) != []
    requires var tok := Tokens(TrimSpace(source), UnitsFor(TrimSpace(source), cfg), EstimateOf(cfg));
             (forall k :: 0 <= k < |tok| ==> tok[k] <= MaxTok(cfg)) && Partition(tok, 0, ends, MaxTok(cfg))
    ensures |ChunksOf(source, cfg)| <= |ends|
  {
    var text := TrimSpace(source);
    var units := UnitsFor(text, cfg);
    var tok := Tokens(text, units, EstimateOf(cfg));
    GreedyIsOptimal(tok, MaxTok(cfg), ends);
    UnitsForReady(text, cfg);
    PlanShape(tok, 0, MaxTok(cfg), 0);
    RenderAllPacked(units, tok, UnitPieces(text, units, MaxTok(cfg), 0, EstimateOf(cfg)), MaxTok(cfg),
                    Plan(tok, 0, MaxTok(cfg), 0));
    ChunksAt(source, cfg);
  }
}
