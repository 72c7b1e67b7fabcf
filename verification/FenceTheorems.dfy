/** What Split promises about fenced blocks when it segments at headings. */
module FenceTheorems {
  import opened Utf8
  import opened Space
  import opened Packing
  import opened Cuts
  import opened Chunks
  import opened CodeSplit
  import opened HardSplit
  import opened Headings
  import opened HeadingSections
  import opened Split
  import opened SplitTheorems

  /** Region `g` is the `m`-th region of unit `u`. */
  ghost predicate RegionOf(text: bytes, u: Unit, m: nat, g: CodeSpan) {
    0 <= u.Start < u.End <= |text| && m < |Groups(text, u.Start, u.End)| && Groups(text, u.Start, u.End)[m] == g
  }

  /** A region of the units, taken one after the other, is a region of one of them. */
  lemma {:induction false} RegionInUnit(text: bytes, units: seq<Unit>, k: nat) returns (u: nat, m: nat)
    requires InText(text, units) && k < |GroupsOfUnits(text, units)|
    ensures u < |units| && RegionOf(text, units[u], m, GroupsOfUnits(text, units)[k])
    decreases |units|
  {
    var n := |Groups(text, units[0].Start, units[0].End)|;
    FirstRegions(text, units);
    if k < n {
      u, m := 0, k;
    } else {
      TailInText(text, units);
      u, m := RegionInUnit(text, units[1..], k - n);
      RegionBehind(text, units, Groups(text, units[0].Start, units[0].End), GroupsOfUnits(text, units[1..]), k, u, m);
      u := u + 1;
    }
  }

  lemma FirstRegions(text: bytes, units: seq<Unit>)
    requires InText(text, units) && units != []
    ensures GroupsOfUnits(text, units) ==
            Groups(text, units[0].Start, units[0].End) + GroupsOfUnits(text, units[1..])
  {
  }

  lemma RegionBehind(text: bytes, units: seq<Unit>, first: seq<CodeSpan>, rest: seq<CodeSpan>, k: nat, u: nat, m: nat)
    requires |first| <= k < |first + rest| && u + 1 < |units| && RegionOf(text, units[1..][u], m, rest[k - |first|])
    ensures RegionOf(text, units[u + 1], m, (first + rest)[k])
  {
  }

  lemma TailInText(text: bytes, units: seq<Unit>)
    requires InText(text, units) && units != []
    ensures InText(text, units[1..])
  {
  }

  lemma RegionBounds(text: bytes, u: Unit, m: nat, g: CodeSpan)
    requires RegionOf(text, u, m, g)
    ensures u.Start <= g.start < g.end <= u.End
  {
    GroupsInText(text, u.Start, u.End);
    assert UnitsOf(Groups(text, u.Start, u.End))[m] == UnitOf(g);
  }

  /** The ends of a unit lie inside no region of any unit. */
  lemma UnitEndsOutside(text: bytes, units: seq<Unit>, u: nat, m: nat, g: CodeSpan, a: nat)
    requires InText(text, units) && u < |units| && a < |units| && RegionOf(text, units[u], m, g)
    ensures !Inside(UnitOf(g), units[a].Start) && !Inside(UnitOf(g), units[a].End)
  {
    RegionBounds(text, units[u], m, g);
    assert a < u ==> units[a].End <= units[u].Start;
    assert u < a ==> units[u].End <= units[a].Start;
  }

  /** No piece of a hard-split unit starts or ends inside a fenced block of the unit that fits the budget. */
  lemma PieceOutside(text: bytes, u: Unit, m: nat, g: CodeSpan, maxTok: int, overlapTok: int, est: Estimator, c: Cut)
    requires NoStray(text) && Aligned(text, u.Start) && Aligned(text, u.End) && NonNegativeEstimate(est)
    requires RegionOf(text, u, m, g) && g.fence && est(Slice(text, g.start, g.end)) <= maxTok
    requires c in UnitCuts(text, u, maxTok, overlapTok, est)
    ensures !Inside(UnitOf(g), c.start) && !Inside(UnitOf(g), c.end)
  {
    HasFenceIff(text, u.Start, u.End);
    FencesStayWhole(text, u.Start, u.End, maxTok, overlapTok, est, c, m);
  }

  /** Nor does any piece of another unit. */
  lemma OtherPieceOutside(text: bytes, units: seq<Unit>, u: nat, m: nat, g: CodeSpan, q: nat, maxTok: int,
                          overlapTok: int, est: Estimator, c: Cut)
    requires NoStray(text) && InText(text, units) && SpansAligned(text, units) && NonNegativeEstimate(est)
    requires u < |units| && q < |units| && q != u && RegionOf(text, units[u], m, g)
    requires c in UnitCuts(text, units[q], maxTok, overlapTok, est)
    ensures !Inside(UnitOf(g), c.start) && !Inside(UnitOf(g), c.end)
  {
    var cuts := UnitCuts(text, units[q], maxTok, overlapTok, est);
    HardCutsChain(text, units[q].Start, units[q].End, maxTok, overlapTok, est, Loose);
    var i: nat :| i < |cuts| && cuts[i] == c;
    ChainBounds(Loose, cuts, units[q].Start, units[q].End, i);
    RegionBounds(text, units[u], m, g);
    assert q < u ==> units[q].End <= units[u].Start;
    assert u < q ==> units[u].End <= units[q].Start;
  }

  /**
    * No cut of a packing run over the units starts or ends inside a fenced block of one of them that fits the budget.
    */
  lemma UnitCutOutside(text: bytes, units: seq<Unit>, u: nat, m: nat, g: CodeSpan, maxTok: int, overlapTok: int,
                       est: Estimator, c: Cut)
    requires NoStray(text) && InText(text, units) && SpansAligned(text, units) && NonNegativeEstimate(est)
    requires u < |units| && RegionOf(text, units[u], m, g) && g.fence && est(Slice(text, g.start, g.end)) <= maxTok
    requires c in CutsOfUnits(text, units, maxTok, overlapTok, est)
    ensures !Inside(UnitOf(g), c.start) && !Inside(UnitOf(g), c.end)
  {
    var tok, pieces := Tokens(text, units, est), UnitPieces(text, units, maxTok, overlapTok, est);
    CutOrigin(units, tok, pieces, maxTok, overlapTok, c);
    if IsPacked(units, tok, maxTok, c) {
      var a: nat, b: nat :| a <= b < |units| && StepOk(tok, maxTok, Pack(a, b)) &&
        c.start == units[a].Start && c.end == units[b].End && c.tok == Sum(tok, a, b + 1);
      UnitEndsOutside(text, units, u, m, g, a);
      UnitEndsOutside(text, units, u, m, g, b);
    } else {
      var q: nat :| q < |tok| && tok[q] > maxTok && c in pieces[q];
      if q == u {
        PieceOutside(text, units[u], m, g, maxTok, overlapTok, est, c);
      } else {
        OtherPieceOutside(text, units, u, m, g, q, maxTok, overlapTok, est, c);
      }
    }
  }

  /**
    * With Headings, on a text that has a heading: no cut of a Split starts or ends inside a fenced block of the text
    * that fits the budget, packed or hard-split, with overlap on or off.
    */
  lemma SplitKeepsFencesWhole(text: bytes, cfg: Config, c: Cut, k: nat)
    requires NoStray(text) && NonNegativeEstimate(EstimateOf(cfg)) && HeadingStarts(text) != []
    requires cfg.Boundaries.Some? && cfg.Boundaries.value(text) == HeadingUnits(text)
    requires c in SplitCuts(text, cfg) && k < |Groups(text, 0, |text|)|
    requires var g := Groups(text, 0, |text|)[k]; g.fence && EstimateOf(cfg)(Slice(text, g.start, g.end)) <= MaxTok(cfg)
    ensures var u := UnitOf(Groups(text, 0, |text|)[k]); !Inside(u, c.start) && !Inside(u, c.end)
  {
    var units := HeadingUnits(text);
    HeadingsValid(text);
    UnitsForReady(text, cfg);
    GroupingCommutesWithHeadings(text);
    var u, m := RegionInUnit(text, units, k);
    UnitCutOutside(text, units, u, m, Groups(text, 0, |text|)[k], MaxTok(cfg), OverlapTok(cfg), EstimateOf(cfg), c);
  }

  /** The same of the chunks: in the source's own coordinates none of them starts or ends inside such a block. */
  lemma ChunksKeepFencesWhole(source: bytes, cfg: Config, j: nat, k: nat)
    requires NoStray(source) && NonNegativeEstimate(EstimateOf(cfg)) && HeadingStarts(TrimSpace(source)) != []
    requires cfg.Boundaries.Some? && cfg.Boundaries.value(TrimSpace(source)) == HeadingUnits(TrimSpace(source))
    requires j < |ChunksOf(source, cfg)| && k < |Groups(TrimSpace(source), 0, |TrimSpace(source)|)|
    requires var g := Groups(TrimSpace(source), 0, |TrimSpace(source)|)[k];
             g.fence && EstimateOf(cfg)(Slice(TrimSpace(source), g.start, g.end)) <= MaxTok(cfg)
    ensures var u := UnitOf(Groups(TrimSpace(source), 0, |TrimSpace(source)|)[k]);
            && !Inside(u, ChunksOf(source, cfg)[j].StartByte - TrimStart(source))
            && !Inside(u, ChunksOf(source, cfg)[j].EndByte - TrimStart(source))
  {
    var text := TrimSpace(source);
    TrimAligned(source);
    ChunksAt(source, cfg);
    var c := SplitCuts(text, cfg)[j];
    assert c in SplitCuts(text, cfg);
    SplitKeepsFencesWhole(text, cfg, c, k);
  }
}
