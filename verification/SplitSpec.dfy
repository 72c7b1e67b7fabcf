/** What Split does with its settings and its segmentation, said of the configuration itself. */
module SplitSpec {
  import opened Utf8
  import opened Space
  import opened Packing
  import opened Cuts
  import opened Chunks
  import opened Prose
  import opened CodeSplit
  import opened HardSplit
  import opened Paragraphs
  import opened Split
  import opened SplitTheorems

  // ----- the settings -----

  /** The budgets and the estimator in force: the caller's where they are set, the documented defaults where not. */
  ghost predicate InForce(cfg: Config, maxTok: int, overlapTok: int, est: Estimator) {
    && (cfg.MaxTokens > 0 ==> maxTok == cfg.MaxTokens)
    && (cfg.MaxTokens <= 0 ==> maxTok == 512)
    && (cfg.NoOverlap ==> overlapTok == 0)
    && (!cfg.NoOverlap && cfg.OverlapTokens > 0 ==> overlapTok == cfg.OverlapTokens)
    && (!cfg.NoOverlap && cfg.OverlapTokens <= 0 ==> overlapTok == 64)
    && (cfg.Estimate.Some? ==> est == cfg.Estimate.value)
    && (cfg.Estimate.None? ==> est == DefaultEstimate)
  }

  /** The units the segmenter returns: those of the caller's boundaries function, of Paragraphs without one. */
  ghost predicate Segmented(text: bytes, cfg: Config, units: seq<Unit>) {
    && (cfg.Boundaries.Some? ==> units == cfg.Boundaries.value(text))
    && (cfg.Boundaries.None? ==> units == ParagraphUnits(text))
  }

  /** Non-empty rune-aligned spans of the text, at least one, none before the end of the one before it. */
  ghost predicate Accepted(text: bytes, units: seq<Unit>) {
    && units != []
    && (forall k :: 0 <= k < |units| ==>
          && 0 <= units[k].Start < units[k].End <= |text|
          && Aligned(text, units[k].Start) && Aligned(text, units[k].End))
    && (forall k :: 0 <= k < |units| - 1 ==> units[k].End <= units[k + 1].Start)
  }

  /** validUnits accepts exactly those lists. */
  lemma ValidUnitsIff(text: bytes, units: seq<Unit>)
    ensures ValidUnitsOf(text, units) <==> Accepted(text, units)
  {
    if ValidUnitsOf(text, units) {
      forall k | 0 <= k < |units|
        ensures 0 <= units[k].Start < units[k].End <= |text| && Aligned(text, units[k].Start) &&
                Aligned(text, units[k].End)
      {
        assert UnitAt(text, units, k);
      }
      forall k | 0 <= k < |units| - 1
        ensures units[k].End <= units[k + 1].Start
      {
        assert UnitAt(text, units, k + 1);
      }
    }
    if Accepted(text, units) {
      forall k | 0 <= k < |units|
        ensures UnitAt(text, units, k)
      {
        assert k > 0 ==> units[k - 1].End <= units[k - 1 + 1].Start;
      }
    }
  }

  /** The units packed: the segmenter's when they are accepted, else one for the whole text. */
  ghost predicate Packed(text: bytes, cfg: Config, units: seq<Unit>) {
    exists segments :: Segmented(text, cfg, segments) &&
                       units == if Accepted(text, segments) then segments else [Unit(0, |text|)]
  }

  lemma PackedAreUnits(text: bytes, cfg: Config, units: seq<Unit>)
    requires Packed(text, cfg, units)
    ensures UnitsFor(text, cfg) == units
  {
    var segments :| Segmented(text, cfg, segments) &&
      units == if Accepted(text, segments) then segments else [Unit(0, |text|)];
    ValidUnitsIff(text, segments);
  }

  lemma InForceAre(cfg: Config, maxTok: int, overlapTok: int, est: Estimator)
    requires InForce(cfg, maxTok, overlapTok, est)
    ensures maxTok == MaxTok(cfg) && overlapTok == OverlapTok(cfg) && est == EstimateOf(cfg)
  {
  }

  lemma PackedAreUsed(text: bytes, cfg: Config, units: seq<Unit>, maxTok: int, overlapTok: int, est: Estimator)
    requires Packed(text, cfg, units) && InForce(cfg, maxTok, overlapTok, est)
    ensures UnitsFor(text, cfg) == units && SplitCuts(text, cfg) == CutsOfUnits(text, units, maxTok, overlapTok, est)
  {
    PackedAreUnits(text, cfg, units);
    InForceAre(cfg, maxTok, overlapTok, est);
  }

  // ----- the cuts of a Split are one greedy run over its units -----

  /**
    * Whatever the configuration: the units are packed in one greedy run under the two budgets in force, oversize ones
    * cut up.
    */
  lemma SplitRuns(text: bytes, cfg: Config, units: seq<Unit>, maxTok: int, overlapTok: int, est: Estimator)
      returns (tok: seq<int>, pieces: seq<seq<Cut>>, plan: seq<Step>)
    requires text != [] && Packed(text, cfg, units) && InForce(cfg, maxTok, overlapTok, est) && NonNegativeEstimate(est)
    ensures |tok| == |pieces| == |units|
    ensures forall k :: 0 <= k < |units| ==> 0 <= units[k].Start < units[k].End <= |text|
    ensures forall k :: 0 <= k < |units| ==> tok[k] == est(Slice(text, units[k].Start, units[k].End))
    ensures forall k :: 0 <= k < |units| ==>
              pieces[k] == HardCuts(text, units[k].Start, units[k].End, maxTok, overlapTok, est)
    ensures GreedyRun(tok, 0, maxTok, overlapTok, plan)
    ensures SplitCuts(text, cfg) == Render(units, tok, pieces, plan)
  {
    PackedAreUsed(text, cfg, units, maxTok, overlapTok, est);
    UnitsForReady(text, cfg);
    tok, pieces := Tokens(text, units, est), UnitPieces(text, units, maxTok, overlapTok, est);
    plan := Plan(tok, 0, maxTok, overlapTok);
    TokensNonNegative(text, units, est);
    PlanIsGreedy(tok, 0, maxTok, overlapTok);
  }

  // ----- the segmentation shows in the chunks -----

  /** No cut starts or ends inside a unit of the segmentation that fits the budget. */
  lemma SplitKeepsUnits(text: bytes, cfg: Config, units: seq<Unit>, maxTok: int, overlapTok: int, est: Estimator,
                        c: Cut, u: nat)
    requires NoStray(text) && text != [] && Packed(text, cfg, units) && InForce(cfg, maxTok, overlapTok, est)
    requires NonNegativeEstimate(est) && c in SplitCuts(text, cfg)
    requires u < |units| && est(Slice(text, units[u].Start, units[u].End)) <= maxTok
    ensures !Inside(units[u], c.start) && !Inside(units[u], c.end)
  {
    PackedAreUsed(text, cfg, units, maxTok, overlapTok, est);
    UnitsForReady(text, cfg);
    UnitPiecesReady(text, units, maxTok, overlapTok, est, Loose);
    TokensNonNegative(text, units, est);
    UnitsStayWhole(Loose, units, Tokens(text, units, est), UnitPieces(text, units, maxTok, overlapTok, est), maxTok,
                   overlapTok, c, u);
  }

  /**
    * The segmentation is used: no chunk starts or ends inside an accepted unit of the segmenter that fits the budget.
    */
  lemma SplitKeepsSegments(source: bytes, cfg: Config, units: seq<Unit>, maxTok: int, overlapTok: int, est: Estimator,
                           u: nat, k: nat)
    requires NoStray(source) && TrimSpace(source) != [] && InForce(cfg, maxTok, overlapTok, est)
    requires Segmented(TrimSpace(source), cfg, units) && Accepted(TrimSpace(source), units)
    requires NonNegativeEstimate(est) && k < |ChunksOf(source, cfg)|
    requires u < |units| && est(Slice(TrimSpace(source), units[u].Start, units[u].End)) <= maxTok
    ensures !Inside(units[u], ChunksOf(source, cfg)[k].StartByte - TrimStart(source))
    ensures !Inside(units[u], ChunksOf(source, cfg)[k].EndByte - TrimStart(source))
  {
    var text := TrimSpace(source);
    TrimAligned(source);
    ChunksAt(source, cfg);
    var c := SplitCuts(text, cfg)[k];
    assert c in SplitCuts(text, cfg);
    SplitKeepsUnits(text, cfg, units, maxTok, overlapTok, est, c, u);
  }

  /** And every byte of every accepted unit of the segmenter lies in a chunk. */
  lemma SplitCoversSegments(source: bytes, cfg: Config, units: seq<Unit>, u: nat, p: int)
    requires NoStray(source) && TrimSpace(source) != [] && NonNegativeEstimate(EstimateOf(cfg))
    requires Segmented(TrimSpace(source), cfg, units) && Accepted(TrimSpace(source), units)
    requires u < |units| && units[u].Start <= p - TrimStart(source) < units[u].End
    ensures exists k :: 0 <= k < |ChunksOf(source, cfg)| &&
                        ChunksOf(source, cfg)[k].StartByte <= p < ChunksOf(source, cfg)[k].EndByte
  {
    ValidUnitsIff(TrimSpace(source), units);
    SplitCoversUnits(source, cfg, u, p);
  }

  /** When they are not accepted the text is one unit, and one that fits the budget comes out as a single chunk. */
  lemma SplitFallsBack(source: bytes, cfg: Config, units: seq<Unit>, maxTok: int, overlapTok: int, est: Estimator)
    requires TrimSpace(source) != [] && InForce(cfg, maxTok, overlapTok, est)
    requires NonNegativeEstimate(est) && Segmented(TrimSpace(source), cfg, units) && !Accepted(TrimSpace(source), units)
    ensures GapFree(TrimSpace(source), cfg)
    ensures est(TrimSpace(source)) <= maxTok ==>
              ChunksOf(source, cfg) ==
                [Chunk(TrimSpace(source), 0, TrimStart(source), TrimEnd(source), est(TrimSpace(source)))]
  {
    var text := TrimSpace(source);
    WholeTextTiles(text, cfg, units, maxTok, overlapTok, est);
    if est(text) <= maxTok {
      WholeTextCut(text, cfg, units, maxTok, overlapTok, est);
      OneChunk(source, cfg, est(text));
    }
  }

  lemma WholeTextTiles(text: bytes, cfg: Config, units: seq<Unit>, maxTok: int, overlapTok: int, est: Estimator)
    requires text != [] && InForce(cfg, maxTok, overlapTok, est) && Segmented(text, cfg, units) &&
             !Accepted(text, units)
    ensures Packed(text, cfg, [Unit(0, |text|)]) && GapFree(text, cfg)
  {
    var whole := [Unit(0, |text|)];
    assert Packed(text, cfg, whole);
    PackedAreUsed(text, cfg, whole, maxTok, overlapTok, est);
    assert whole[1..] == [];
  }

  lemma WholeTextCut(text: bytes, cfg: Config, units: seq<Unit>, maxTok: int, overlapTok: int, est: Estimator)
    requires text != [] && InForce(cfg, maxTok, overlapTok, est) && Packed(text, cfg, [Unit(0, |text|)])
    requires NonNegativeEstimate(est) && est(text) <= maxTok
    ensures SplitCuts(text, cfg) == [Cut(0, |text|, est(text))]
  {
    var tok, pieces, plan := SplitRuns(text, cfg, [Unit(0, |text|)], maxTok, overlapTok, est);
    assert text[0..|text|] == text;
    OneUnitRun(text, tok, maxTok, overlapTok, plan);
    assert plan[1..] == [];
  }

  lemma OneChunk(source: bytes, cfg: Config, tok: int)
    requires TrimSpace(source) != [] && SplitCuts(TrimSpace(source), cfg) == [Cut(0, |TrimSpace(source)|, tok)]
    ensures ChunksOf(source, cfg) == [Chunk(TrimSpace(source), 0, TrimStart(source), TrimEnd(source), tok)]
  {
    ChunksAt(source, cfg);
    TrimLength(source);
    FromOneCut(ChunksOf(source, cfg), SplitCuts(TrimSpace(source), cfg), TrimSpace(source), TrimStart(source),
               TrimEnd(source), tok);
  }

  lemma FromOneCut(chunks: seq<Chunk>, cuts: seq<Cut>, text: bytes, off: int, end: int, tok: int)
    requires |chunks| == |cuts| && cuts == [Cut(0, |text|, tok)] && off + |text| == end
    requires forall k :: 0 <= k < |cuts| ==> chunks[k] == ShiftChunk(MakeChunk(text, cuts[k], k), off)
    ensures chunks == [Chunk(text, 0, off, end, tok)]
  {
    WholeChunk(text, off, tok);
    assert chunks == [chunks[0]];
  }

  lemma TrimLength(source: bytes)
    ensures TrimStart(source) + |TrimSpace(source)| == TrimEnd(source)
  {
  }

  lemma WholeChunk(text: bytes, off: int, tok: int)
    ensures ShiftChunk(MakeChunk(text, Cut(0, |text|, tok), 0), off) == Chunk(text, 0, off, off + |text|, tok)
  {
    assert text[0..|text|] == text;
  }

  lemma OneUnitRun(text: bytes, tok: seq<int>, maxTok: int, overlapTok: int, plan: seq<Step>)
    requires |tok| == 1 && tok[0] <= maxTok && GreedyRun(tok, 0, maxTok, overlapTok, plan)
    ensures plan == [Pack(0, 0)] && Sum(tok, 0, 1) == tok[0]
  {
    EmptyRun(tok, 0, maxTok, overlapTok, plan);
    assert StepIsGreedy(tok, maxTok, plan[0]);
    assert plan[0].Last() + 1 == |tok|;
    assert Sum(tok, 0, 0) == 0;
  }

  // ----- no repeated tail -----

  /** In a gap-free Split only the last chunk reaches the end of the trimmed source, through all nested loops. */
  lemma SplitStopsAtEnd(source: bytes, cfg: Config, k: nat)
    requires NoStray(source) && NonNegativeEstimate(EstimateOf(cfg)) && GapFree(TrimSpace(source), cfg)
    requires k < |ChunksOf(source, cfg)|
    ensures ChunksOf(source, cfg)[k].EndByte == TrimEnd(source) <==> k == |ChunksOf(source, cfg)| - 1
  {
    SplitChain(source, cfg, Covering);
    assert Spans(ChunksOf(source, cfg))[k].end == ChunksOf(source, cfg)[k].EndByte;
  }

  // ----- what a token count counts -----

  /** The count is the sum of the estimates of the parts, which lie in order from the start of the cut to its end. */
  ghost predicate CountsParts(text: bytes, est: Estimator, c: Cut, parts: seq<Unit>) {
    && parts != [] && parts[0].Start == c.start && parts[|parts| - 1].End == c.end && InText(text, parts)
    && c.tok == Sum(Tokens(text, parts, est), 0, |parts|)
  }

  lemma StretchInText(text: bytes, spans: seq<Unit>, a: nat, b: nat, parts: seq<Unit>)
    requires InText(text, spans) && a <= b < |spans| && parts == spans[a..b + 1]
    ensures |parts| == b + 1 - a && parts[0] == spans[a] && parts[|parts| - 1] == spans[b] && InText(text, parts)
  {
  }

  lemma TokensOfStretch(text: bytes, spans: seq<Unit>, est: Estimator, a: nat, b: nat, parts: seq<Unit>)
    requires a <= b < |spans| && parts == spans[a..b + 1]
    ensures Sum(Tokens(text, parts, est), 0, |parts|) == Sum(Tokens(text, spans, est), a, b + 1)
  {
    SumSlice(Tokens(text, spans, est), Tokens(text, parts, est), a, b + 1 - a);
  }

  lemma PackedCountsParts(text: bytes, spans: seq<Unit>, est: Estimator, a: nat, b: nat, c: Cut, parts: seq<Unit>)
    requires InText(text, spans) && a <= b < |spans| && parts == spans[a..b + 1]
    requires c.start == spans[a].Start && c.end == spans[b].End && c.tok == Sum(Tokens(text, spans, est), a, b + 1)
    ensures CountsParts(text, est, c, parts)
  {
    StretchInText(text, spans, a, b, parts);
    TokensOfStretch(text, spans, est, a, b, parts);
  }

  lemma WholeCountsParts(text: bytes, est: Estimator, c: Cut)
    requires 0 <= c.start < c.end <= |text| && c.tok == est(Slice(text, c.start, c.end))
    ensures CountsParts(text, est, c, [Unit(c.start, c.end)])
  {
    var tok := Tokens(text, [Unit(c.start, c.end)], est);
    assert Sum(tok, 0, 1) == Sum(tok, 0, 0) + tok[0];
  }

  ghost predicate AllCountParts(text: bytes, est: Estimator, cuts: seq<Cut>) {
    forall c :: c in cuts ==> exists parts :: CountsParts(text, est, c, parts)
  }

  lemma PackCountsParts(text: bytes, spans: seq<Unit>, pieces: seq<seq<Cut>>, maxTok: int, overlapTok: int,
                        est: Estimator)
    requires InText(text, spans) && NonNegativeEstimate(est) && |pieces| == |spans|
    requires forall k :: 0 <= k < |pieces| ==> AllCountParts(text, est, pieces[k])
    ensures AllCountParts(text, est, PackCuts(spans, Tokens(text, spans, est), pieces, maxTok, overlapTok))
  {
    var tok := Tokens(text, spans, est);
    forall c | c in PackCuts(spans, tok, pieces, maxTok, overlapTok)
      ensures exists parts :: CountsParts(text, est, c, parts)
    {
      CutOrigin(spans, tok, pieces, maxTok, overlapTok, c);
      if IsPacked(spans, tok, maxTok, c) {
        PackedCutCountsParts(text, spans, maxTok, est, c);
      }
    }
  }

  lemma PackedCutCountsParts(text: bytes, spans: seq<Unit>, maxTok: int, est: Estimator, c: Cut)
    requires InText(text, spans) && IsPacked(spans, Tokens(text, spans, est), maxTok, c)
    ensures exists parts :: CountsParts(text, est, c, parts)
  {
    var tok := Tokens(text, spans, est);
    var a: nat, b: nat :| a <= b < |spans| && StepOk(tok, maxTok, Pack(a, b)) &&
      c.start == spans[a].Start && c.end == spans[b].End && c.tok == Sum(tok, a, b + 1);
    PackedCountsParts(text, spans, est, a, b, c, spans[a..b + 1]);
  }

  lemma ProseCountsParts(text: bytes, start: nat, end: nat, maxTok: int, overlapTok: int, est: Estimator)
    requires start <= end <= |text|
    ensures AllCountParts(text, est, ProseSplit(text, start, end, maxTok, overlapTok, est))
  {
    var target, overlap := Target(text, start, end, maxTok, est), Overlap(text, start, end, overlapTok, est);
    forall c | c in ProseCuts(text, start, end, target, overlap, est)
      ensures exists parts :: CountsParts(text, est, c, parts)
    {
      ProseCutCounts(text, start, end, target, overlap, est, c);
      WholeCountsParts(text, est, c);
    }
  }

  lemma {:induction false} ProseCutCounts(text: bytes, pos: nat, end: nat, target: nat, overlap: nat, est: Estimator,
                                          c: Cut)
    requires pos <= |text| && end <= |text| && target >= 1 && c in ProseCuts(text, pos, end, target, overlap, est)
    ensures 0 <= c.start < c.end <= |text| && c.tok == est(Slice(text, c.start, c.end))
    decreases |text| - pos
  {
    var e := ProseEnd(text, pos, end, target);
    if c != Cut(pos, e, est(text[pos..e])) {
      ProseCutCounts(text, ProseNext(text, pos, e, overlap), end, target, overlap, est, c);
    }
  }

  lemma LinesCountParts(text: bytes, start: nat, end: nat, maxTok: int, overlapTok: int, est: Estimator)
    requires start <= end <= |text| && NonNegativeEstimate(est)
    ensures AllCountParts(text, est, LineCuts(text, start, end, maxTok, overlapTok, est))
  {
    var lines := LinesFrom(text, start, end);
    var pieces := LinePieces(text, lines, maxTok, overlapTok, est);
    LinesTile(text, start, end);
    TilesInText(text, start, end, lines);
    forall k | 0 <= k < |lines|
      ensures AllCountParts(text, est, pieces[k])
    {
      ProseCountsParts(text, lines[k].Start, lines[k].End, maxTok, overlapTok, est);
    }
    PackCountsParts(text, lines, pieces, maxTok, overlapTok, est);
  }

  lemma RegionCountsParts(text: bytes, g: CodeSpan, maxTok: int, overlapTok: int, est: Estimator)
    requires g.start <= g.end <= |text| && NonNegativeEstimate(est)
    ensures AllCountParts(text, est, RegionCuts(text, g, maxTok, overlapTok, est))
  {
    if g.fence {
      LinesCountParts(text, g.start, g.end, maxTok, overlapTok, est);
    } else {
      ProseCountsParts(text, g.start, g.end, maxTok, overlapTok, est);
    }
  }

  lemma HardCountsParts(text: bytes, start: nat, end: nat, maxTok: int, overlapTok: int, est: Estimator)
    requires start <= end <= |text| && NonNegativeEstimate(est)
    ensures AllCountParts(text, est, HardCuts(text, start, end, maxTok, overlapTok, est))
  {
    if HasFenceFrom(text, start, end) {
      var groups := Groups(text, start, end);
      var pieces := RegionPieces(text, groups, maxTok, overlapTok, est);
      GroupsTile(text, start, end);
      TilesInText(text, start, end, UnitsOf(groups));
      forall k | 0 <= k < |groups|
        ensures AllCountParts(text, est, pieces[k])
      {
        assert UnitsOf(groups)[k] == UnitOf(groups[k]);
        RegionCountsParts(text, groups[k], maxTok, overlapTok, est);
      }
      PackCountsParts(text, UnitsOf(groups), pieces, maxTok, overlapTok, est);
    } else {
      ProseCountsParts(text, start, end, maxTok, overlapTok, est);
    }
  }

  /** The span and the count of a chunk, in the trimmed text. */
  function CutOf(chunk: Chunk, off: int): Cut {
    Cut(chunk.StartByte - off, chunk.EndByte - off, chunk.TokenCount)
  }

  /**
    * For any estimator that is never negative: each chunk's count is the sum of the estimates of parts that make it up.
    */
  lemma SplitCountsParts(source: bytes, cfg: Config, k: nat)
    requires NonNegativeEstimate(EstimateOf(cfg)) && k < |ChunksOf(source, cfg)|
    ensures var c := CutOf(ChunksOf(source, cfg)[k], TrimStart(source));
            exists parts :: CountsParts(TrimSpace(source), EstimateOf(cfg), c, parts)
  {
    var text := TrimSpace(source);
    SplitCutsCountParts(text, cfg);
    ChunksAt(source, cfg);
    var c := SplitCuts(text, cfg)[k];
    assert c in SplitCuts(text, cfg);
    assert CutOf(ChunksOf(source, cfg)[k], TrimStart(source)) == c;
  }

  lemma SplitCutsCountParts(text: bytes, cfg: Config)
    requires text != [] && NonNegativeEstimate(EstimateOf(cfg))
    ensures AllCountParts(text, EstimateOf(cfg), SplitCuts(text, cfg))
  {
    var units, est := UnitsFor(text, cfg), EstimateOf(cfg);
    var pieces := UnitPieces(text, units, MaxTok(cfg), OverlapTok(cfg), est);
    UnitsForReady(text, cfg);
    forall u | 0 <= u < |units|
      ensures AllCountParts(text, est, pieces[u])
    {
      HardCountsParts(text, units[u].Start, units[u].End, MaxTok(cfg), OverlapTok(cfg), est);
    }
    PackCountsParts(text, units, pieces, MaxTok(cfg), OverlapTok(cfg), est);
  }
}
