/** Split: trim, segment, pack to a token budget with overlap, hard-split what does not fit. */
module Split {
  import opened Utf8
  import opened Space
  import opened Packing
  import opened Cuts
  import opened Chunks
  import opened CodeSplit
  import opened Paragraphs

  datatype Option<T> = None | Some(value: T)

  type Boundaries = bytes -> seq<Unit>

  datatype Config = Config(
    MaxTokens: int, OverlapTokens: int, NoOverlap: bool, Estimate: Option<Estimator>, Boundaries: Option<Boundaries>)

  const DEFAULT_MAX_TOKENS := 512
  const DEFAULT_OVERLAP_TOKENS := 64
  const APPROX_CHARS_PER_TOKEN := 4

  function MaxTok(cfg: Config): (m: int)
    ensures m >= 1
  {
    if cfg.MaxTokens <= 0 then DEFAULT_MAX_TOKENS else cfg.MaxTokens
  }

  function OverlapTok(cfg: Config): (m: int)
    ensures m >= 0 && (m == 0 <==> cfg.NoOverlap)
  {
    if cfg.NoOverlap then 0
    else if cfg.OverlapTokens <= 0 then DEFAULT_OVERLAP_TOKENS
    else cfg.OverlapTokens
  }

  /** One token per four runes, rounded up. */
  function DefaultEstimate(s: bytes): int {
    if s == [] then 0 else (RuneCount(s) + APPROX_CHARS_PER_TOKEN - 1) / APPROX_CHARS_PER_TOKEN
  }

  function EstimateOf(cfg: Config): Estimator {
    if cfg.Estimate.Some? then cfg.Estimate.value else DefaultEstimate
  }

  function BoundariesOf(cfg: Config): Boundaries {
    if cfg.Boundaries.Some? then cfg.Boundaries.value else ParagraphUnits
  }

  // ----- validUnits -----

  /** Where the unit before unit `k` ends. */
  function PrevEnd(units: seq<Unit>, k: nat): int
    requires k <= |units|
  {
    if k == 0 then 0 else units[k - 1].End
  }

  /** Unit `k` lies in the text, is not empty, is rune-aligned and begins at or after the end of the one before it. */
  predicate UnitAt(text: bytes, units: seq<Unit>, k: nat)
    requires k < |units|
  {
    && 0 <= PrevEnd(units, k) <= units[k].Start < units[k].End <= |text|
    && Aligned(text, units[k].Start) && Aligned(text, units[k].End)
  }

  predicate ValidUnitsOf(text: bytes, units: seq<Unit>) {
    units != [] && forall k :: 0 <= k < |units| ==> UnitAt(text, units, k)
  }

  method ValidUnits(text: bytes, units: seq<Unit>) returns (b: bool)
    ensures b == ValidUnitsOf(text, units)
  {
    if |units| == 0 {
      return false;
    }
    var prevEnd := 0;
    for k := 0 to |units|
      invariant prevEnd == PrevEnd(units, k)
      invariant 0 <= prevEnd
      invariant forall q :: 0 <= q < k ==> UnitAt(text, units, q)
    {
      var u := units[k];
      assert UnitAt(text, units, k) ==> prevEnd <= u.Start < u.End <= |text|;
      if u.Start < 0 || u.Start >= u.End || u.End > |text| {
        return false;
      }
      if u.Start < prevEnd {
        return false;
      }
      if !Aligned(text, u.Start) || !Aligned(text, u.End) {
        return false;
      }
      prevEnd := u.End;
    }
    return true;
  }

  /** Accepted units are in order, whatever gaps they leave. */
  lemma {:induction false} ValidUnitsAscend(text: bytes, units: seq<Unit>, a: nat, b: nat)
    requires ValidUnitsOf(text, units) && a < b < |units|
    ensures units[a].End <= units[b].Start
    decreases b
  {
    assert UnitAt(text, units, b);
    if a < b - 1 {
      ValidUnitsAscend(text, units, a, b - 1);
      assert UnitAt(text, units, b - 1);
    }
  }

  lemma ValidUnitsOrdered(text: bytes, units: seq<Unit>)
    requires ValidUnitsOf(text, units)
    ensures Ordered(Loose, units) && InText(text, units)
  {
    forall k | 0 <= k < |units|
      ensures 0 <= units[k].Start < units[k].End <= |text|
    {
      assert UnitAt(text, units, k);
    }
    forall a, b | 0 <= a < b < |units|
      ensures units[a].End <= units[b].Start
    {
      ValidUnitsAscend(text, units, a, b);
    }
  }

  // ----- the cuts and the chunks -----

  /** The units packed: those of the boundaries function, or one for the whole text when they are invalid. */
  function UnitsFor(text: bytes, cfg: Config): seq<Unit> {
    var units := BoundariesOf(cfg)(text);
    if ValidUnitsOf(text, units) then units else [Unit(0, |text|)]
  }

  function UnitCuts(text: bytes, u: Unit, maxTok: int, overlapTok: int, est: Estimator): seq<Cut> {
    if 0 <= u.Start <= u.End <= |text| then HardCuts(text, u.Start, u.End, maxTok, overlapTok, est) else []
  }

  function UnitPieces(text: bytes, units: seq<Unit>, maxTok: int, overlapTok: int, est: Estimator): (r: seq<seq<Cut>>)
    ensures |r| == |units|
    ensures forall k :: 0 <= k < |units| ==> r[k] == UnitCuts(text, units[k], maxTok, overlapTok, est)
  {
    seq(|units|, k requires 0 <= k < |units| => UnitCuts(text, units[k], maxTok, overlapTok, est))
  }

  /** All cuts of a packing run over the given units. */
  function CutsOfUnits(text: bytes, units: seq<Unit>, maxTok: int, overlapTok: int, est: Estimator): seq<Cut> {
    PackCuts(units, Tokens(text, units, est), UnitPieces(text, units, maxTok, overlapTok, est), maxTok, overlapTok)
  }

  /** All cuts of a trimmed text. */
  function SplitCuts(text: bytes, cfg: Config): seq<Cut> {
    CutsOfUnits(text, UnitsFor(text, cfg), MaxTok(cfg), OverlapTok(cfg), EstimateOf(cfg))
  }

  function ShiftChunk(c: Chunk, off: int): Chunk {
    c.(StartByte := c.StartByte + off, EndByte := c.EndByte + off)
  }

  function Shift(chunks: seq<Chunk>, off: int): (r: seq<Chunk>)
    ensures |r| == |chunks|
    ensures forall k :: 0 <= k < |chunks| ==> r[k] == ShiftChunk(chunks[k], off)
  {
    seq(|chunks|, k requires 0 <= k < |chunks| => ShiftChunk(chunks[k], off))
  }

  /** The chunks of a source: those of its trimmed text, in the source's own coordinates. */
  function ChunksOf(source: bytes, cfg: Config): seq<Chunk> {
    if TrimSpace(source) == [] then []
    else Shift(MakeChunks(TrimSpace(source), SplitCuts(TrimSpace(source), cfg), 0), TrimStart(source))
  }

  // ----- the source's loop -----

  /** One oversize unit. */
  method HardUnit(text: bytes, u: Unit, maxTok: int, overlapTok: int, est: Estimator, sink: Sink,
                  ghost before: seq<Chunk>, ghost first: int, ghost done: seq<Cut>)
    requires 0 <= u.Start <= u.End <= |text|
    requires Received(sink, text, before, first, done)
    modifies sink
    ensures Received(sink, text, before, first, done + UnitCuts(text, u, maxTok, overlapTok, est))
  {
    ghost var mid, midIdx := sink.chunks, sink.idx;
    HardSplit(text, u.Start, u.End, maxTok, overlapTok, est, sink);
    ReceivedBoth(sink, text, before, first, mid, midIdx, done, UnitCuts(text, u, maxTok, overlapTok, est));
  }

  /** One turn of the packing loop at unit `i`: cut as a hard split when it is oversize, packed otherwise. */
  method UnitTurn(text: bytes, units: seq<Unit>, tok: seq<int>, i: nat, maxTok: int, overlapTok: int, est: Estimator,
                  sink: Sink,
                  ghost before: seq<Chunk>, ghost first: int, ghost done: seq<Cut>, ghost pieces: seq<seq<Cut>>)
    returns (next: nat, ghost more: seq<Cut>)
    requires |tok| == |units| && i < |units| && InText(text, units) &&
             pieces == UnitPieces(text, units, maxTok, overlapTok, est)
    requires Received(sink, text, before, first, done)
    modifies sink
    ensures i < next <= |tok| && Received(sink, text, before, first, more)
    ensures more + CutsFrom(units, tok, pieces, next, maxTok, overlapTok) ==
            done + CutsFrom(units, tok, pieces, i, maxTok, overlapTok)
  {
    if tok[i] > maxTok {
      HardUnit(text, units[i], maxTok, overlapTok, est, sink, before, first, done);
      HardTurn(units, tok, pieces, i, maxTok, overlapTok, done);
      next, more := i + 1, done + pieces[i];
    } else {
      PackTurn(units, tok, pieces, i, maxTok, overlapTok, done);
      more := done + [PackedCut(units, tok, i, Grow(tok, i, i, maxTok))];
      next := PackChunk(text, units, tok, i, maxTok, overlapTok, sink, before, first, done);
    }
  }

  /** The packing loop over valid units. */
  method PackUnits(text: bytes, units: seq<Unit>, maxTok: int, overlapTok: int, est: Estimator, sink: Sink)
    requires InText(text, units)
    modifies sink
    ensures Received(sink, text, old(sink.chunks), old(sink.idx), CutsOfUnits(text, units, maxTok, overlapTok, est))
  {
    var tok := CountTokens(text, units, est);
    ghost var pieces := UnitPieces(text, units, maxTok, overlapTok, est);
    ghost var all := PackCuts(units, tok, pieces, maxTok, overlapTok);
    ghost var done: seq<Cut> := [];
    var i := 0;
    while i < |units|
      invariant 0 <= i <= |units|
      invariant Received(sink, text, old(sink.chunks), old(sink.idx), done)
      invariant done + CutsFrom(units, tok, pieces, i, maxTok, overlapTok) == all
    {
      i, done := UnitTurn(text, units, tok, i, maxTok, overlapTok, est, sink, old(sink.chunks), old(sink.idx), done,
                          pieces);
    }
    assert done == all;
  }

  method SegmentText(text: bytes, cfg: Config) returns (units: seq<Unit>)
    ensures units == BoundariesOf(cfg)(text)
  {
    match cfg.Boundaries
    case Some(f) => units := f(text);
    case None => units := Paragraphs.Paragraphs(text);
  }

  /** The units to pack, with the whole text as the fallback for a segmentation that is not valid. */
  method CheckedUnits(text: bytes, cfg: Config) returns (units: seq<Unit>)
    requires text != []
    ensures units == UnitsFor(text, cfg) && InText(text, units)
  {
    units := SegmentText(text, cfg);
    var valid := ValidUnits(text, units);
    if !valid {
      units := [Unit(0, |text|)];
    } else {
      ValidUnitsOrdered(text, units);
    }
  }

  method Split(source: bytes, cfg: Config) returns (chunks: seq<Chunk>)
    ensures chunks == ChunksOf(source, cfg)
  {
    var trimmed := TrimSpace(source);
    if trimmed == [] {
      return [];
    }
    var off := TrimStart(source);
    var text := source[off..off + |trimmed|];
    assert text == trimmed;
    var units := CheckedUnits(text, cfg);
    var sink := new Sink();
    PackUnits(text, units, MaxTok(cfg), OverlapTok(cfg), EstimateOf(cfg), sink);
    chunks := sink.chunks;
    if off > 0 {
      chunks := ShiftAll(chunks, off);
    } else {
      assert chunks == Shift(chunks, 0);
    }
  }

  /** The loop that moves the spans back into the caller's coordinates. */
  method ShiftAll(chunks: seq<Chunk>, off: int) returns (r: seq<Chunk>)
    ensures r == Shift(chunks, off)
  {
    r := chunks;
    for k := 0 to |chunks|
      invariant |r| == |chunks|
      invariant forall q :: 0 <= q < k ==> r[q] == ShiftChunk(chunks[q], off)
      invariant forall q :: k <= q < |chunks| ==> r[q] == chunks[q]
    {
      r := r[k := r[k].(StartByte := r[k].StartByte + off, EndByte := r[k].EndByte + off)];
    }
  }
}
