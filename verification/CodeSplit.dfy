/** The fence-aware line cutter: fenced blocks stay whole where they fit, cuts fall on line boundaries. */
module CodeSplit {
  import opened Utf8
  import opened Space
  import opened Lines
  import opened Packing
  import opened Cuts
  import opened Chunks
  import opened Prose

  // ----- fenced regions -----

  /** An atomic region: one line outside fences, or one whole fenced block. */
  datatype CodeSpan = CodeSpan(start: nat, end: nat, fence: bool)

  predicate IsFenceOpen(line: bytes) {
    FenceMarkerOf(line).Fence?
  }

  /** The line closes a block opened by `n` bytes `ch`: same byte, at least as many, no info string. */
  predicate Closes(line: bytes, ch: byte, n: nat) {
    var m := FenceMarkerOf(line);
    m.Fence? && m.ch == ch && m.n >= n && !m.info
  }

  /**
    * A line closes the block exactly when it is a marker line of the same byte, as long or longer, with nothing behind
    * it.
    */
  lemma ClosesIff(line: bytes, ch: byte, n: nat)
    ensures Closes(line, ch, n) <==>
            exists k: nat, m: nat, rest: bytes :: FenceLine(line, k, ch, m, rest) && m >= n && TrimSpace(rest) == []
  {
    if Closes(line, ch, n) {
      var m := FenceMarkerOf(line);
      FenceMarkerIff(line, ch, m.n, false);
      var k: nat, rest: bytes :| FenceLine(line, k, ch, m.n, rest) && false == !IsBlank(rest);
      BlankIffTrimmedAway(rest);
    }
    if k: nat, m: nat, rest: bytes :| FenceLine(line, k, ch, m, rest) && m >= n && TrimSpace(rest) == [] {
      BlankIffTrimmedAway(rest);
      FenceLineIsMarked(line, k, ch, m, rest);
    }
  }

  /** Where the block that is open at line start `i` ends: behind its closing line, or at `end`. */
  function FenceEnd(text: bytes, i: nat, end: nat, ch: byte, n: nat): (r: nat)
    requires i <= end <= |text|
    ensures i <= r <= end
    decreases end - i
  {
    if i == end then end
    else if Closes(LineContent(text, i, end), ch, n) then LineNext(text, i, end)
    else FenceEnd(text, LineNext(text, i, end), end, ch, n)
  }

  /** Position `p` begins a line of text[i..end], where `i` begins one. */
  predicate LineOf(text: bytes, i: nat, p: nat, end: nat)
    requires i <= end <= |text|
    decreases end - i
  {
    p < end && (p == i || (i < end && LineOf(text, LineNext(text, i, end), p, end)))
  }

  /** The block ends behind the first line that closes it, or with the text. */
  lemma {:induction false} FenceEndIsFirst(text: bytes, i: nat, end: nat, ch: byte, n: nat, p: nat)
    requires i <= end <= |text| && LineOf(text, i, p, end) && Closes(LineContent(text, p, end), ch, n)
    ensures FenceEnd(text, i, end, ch, n) <= LineNext(text, p, end)
    decreases end - i
  {
    LineOfForward(text, i, p, end);
    if p != i {
      FenceEndIsFirst(text, LineNext(text, i, end), end, ch, n, p);
      LineOfForward(text, LineNext(text, i, end), p, end);
    }
  }

  lemma {:induction false} LineOfForward(text: bytes, i: nat, p: nat, end: nat)
    requires i <= end <= |text| && LineOf(text, i, p, end)
    ensures i <= p < end
    decreases end - i
  {
    if p != i {
      LineOfForward(text, LineNext(text, i, end), p, end);
    }
  }

  lemma {:induction false} FenceEndCloses(text: bytes, i: nat, end: nat, ch: byte, n: nat)
    requires i <= end <= |text|
    ensures FenceEnd(text, i, end, ch, n) == end ||
            exists p: nat :: LineOf(text, i, p, end) && Closes(LineContent(text, p, end), ch, n) &&
                             LineNext(text, p, end) == FenceEnd(text, i, end, ch, n)
    decreases end - i
  {
    if i < end {
      var next := LineNext(text, i, end);
      if Closes(LineContent(text, i, end), ch, n) {
        assert LineOf(text, i, i, end);
      } else {
        FenceEndCloses(text, next, end, ch, n);
        if FenceEnd(text, next, end, ch, n) != end {
          var p: nat :| LineOf(text, next, p, end) && Closes(LineContent(text, p, end), ch, n) &&
            LineNext(text, p, end) == FenceEnd(text, next, end, ch, n);
          assert LineOf(text, i, p, end);
        }
      }
    }
  }

  /** The end of the region that begins at line start `i`. */
  function RegionEnd(text: bytes, i: nat, end: nat): (r: nat)
    requires i < end <= |text|
    ensures i < r <= end
  {
    var next := LineNext(text, i, end);
    match FenceMarkerOf(LineContent(text, i, end))
    case NoFence => next
    case Fence(ch, n, _) => FenceEnd(text, next, end, ch, n)
  }

  /** The region that begins at line start `i`. */
  function RegionAt(text: bytes, i: nat, end: nat): (g: CodeSpan)
    requires i < end <= |text|
    ensures i == g.start < g.end <= end
  {
    CodeSpan(i, RegionEnd(text, i, end), IsFenceOpen(LineContent(text, i, end)))
  }

  /** The regions of text[i..end]. */
  function Groups(text: bytes, i: nat, end: nat): seq<CodeSpan>
    requires i <= end <= |text|
    decreases end - i
  {
    if i == end then []
    else [RegionAt(text, i, end)] + Groups(text, RegionAt(text, i, end).end, end)
  }

  /** The block whose lines begin at `i` ends at `r`: behind the first line that closes it, or with the text. */
  ghost predicate EndsBlock(text: bytes, i: nat, end: nat, ch: byte, n: nat, r: nat)
    requires i <= end <= |text|
  {
    && (forall p: nat :: LineOf(text, i, p, end) && LineNext(text, p, end) < r ==>
                         !Closes(LineContent(text, p, end), ch, n))
    && (r == end || exists p: nat :: LineOf(text, i, p, end) && LineNext(text, p, end) == r &&
                                     Closes(LineContent(text, p, end), ch, n))
  }

  /** The region is a line without a fence marker, or a whole block from its marker line on. */
  ghost predicate IsRegion(text: bytes, start: nat, end: nat, g: CodeSpan)
    requires start <= end <= |text|
  {
    && 0 <= g.start < end && LineOf(text, start, g.start, end)
    && var m := FenceMarkerOf(LineContent(text, g.start, end)); var next := LineNext(text, g.start, end);
       if g.fence then m.Fence? && g.end >= 0 && EndsBlock(text, next, end, m.ch, m.n, g.end)
       else m.NoFence? && g.end == next
  }

  lemma RegionIs(text: bytes, i: nat, end: nat)
    requires i < end <= |text|
    ensures IsRegion(text, i, end, RegionAt(text, i, end))
  {
    var m, next, r := FenceMarkerOf(LineContent(text, i, end)), LineNext(text, i, end), RegionEnd(text, i, end);
    if m.Fence? {
      FenceEndCloses(text, next, end, m.ch, m.n);
      forall p: nat | LineOf(text, next, p, end) && LineNext(text, p, end) < r
        ensures !Closes(LineContent(text, p, end), m.ch, m.n)
      {
        if Closes(LineContent(text, p, end), m.ch, m.n) {
          FenceEndIsFirst(text, next, end, m.ch, m.n, p);
        }
      }
    }
  }

  /** A line behind a line start of the text is a line of the text. */
  lemma {:induction false} LineOfJoin(text: bytes, i: nat, p: nat, q: nat, end: nat)
    requires i <= end <= |text| && LineOf(text, i, p, end) && p < end && LineOf(text, LineNext(text, p, end), q, end)
    ensures LineOf(text, i, q, end)
    decreases end - i
  {
    if p != i {
      LineOfJoin(text, LineNext(text, i, end), p, q, end);
    }
  }

  /** Where a region ends, a line begins. */
  lemma RegionEndsLine(text: bytes, i: nat, end: nat)
    requires i < end <= |text|
    ensures RegionEnd(text, i, end) < end ==> LineOf(text, i, RegionEnd(text, i, end), end)
  {
    var m, next, r := FenceMarkerOf(LineContent(text, i, end)), LineNext(text, i, end), RegionEnd(text, i, end);
    if r < end {
      if m.Fence? {
        FenceEndCloses(text, next, end, m.ch, m.n);
        var p: nat :| LineOf(text, next, p, end) && LineNext(text, p, end) == r;
        assert LineOf(text, r, r, end);
        LineOfForward(text, next, p, end);
        LineOfJoin(text, next, p, r, end);
      } else {
        assert LineOf(text, next, next, end);
      }
    }
  }

  lemma {:induction false} LineOfTrans(text: bytes, i: nat, p: nat, q: nat, end: nat)
    requires i <= p <= end <= |text| && LineOf(text, i, p, end) && LineOf(text, p, q, end)
    ensures LineOf(text, i, q, end)
    decreases end - i
  {
    if p != i {
      LineOfForward(text, LineNext(text, i, end), p, end);
      LineOfTrans(text, LineNext(text, i, end), p, q, end);
    }
  }

  /** Each region is a line without a fence marker, or a block from its marker line through the line that closes it. */
  lemma {:induction false} GroupsAreRegions(text: bytes, i: nat, end: nat, k: nat)
    requires i <= end <= |text| && k < |Groups(text, i, end)|
    ensures IsRegion(text, i, end, Groups(text, i, end)[k])
    decreases end - i
  {
    RegionIs(text, i, end);
    if k > 0 {
      var r := RegionEnd(text, i, end);
      GroupsAreRegions(text, r, end, k - 1);
      RegionEndsLine(text, i, end);
      LineOfTrans(text, i, r, Groups(text, r, end)[k - 1].start, end);
    }
  }

  /** Consumes the lines of an open block up to and including its closing line. */
  method CloseFence(text: bytes, start: nat, end: nat, ch: byte, n: nat) returns (i: nat)
    requires start <= end <= |text|
    ensures i == FenceEnd(text, start, end, ch, n)
  {
    i := start;
    while i < end
      invariant start <= i <= end
      invariant FenceEnd(text, i, end, ch, n) == FenceEnd(text, start, end, ch, n)
    {
      var l2, n2 := LineAt(text, i, end);
      var closes := IsClosing(l2, ch, n);
      i := n2;
      if closes {
        break;
      }
    }
  }

  method IsClosing(line: bytes, ch: byte, n: nat) returns (b: bool)
    ensures b == Closes(line, ch, n)
  {
    var m := FenceMarker(line);
    b := m.Fence? && m.ch == ch && m.n >= n && !m.info;
  }

  method FencedGroups(text: bytes, start: nat, end: nat) returns (groups: seq<CodeSpan>)
    requires start <= end <= |text|
    ensures groups == Groups(text, start, end)
  {
    groups := [];
    var i := start;
    while i < end
      invariant start <= i <= end
      invariant groups + Groups(text, i, end) == Groups(text, start, end)
      decreases end - i
    {
      var region := NextRegion(text, i, end);
      GroupsStep(text, i, end, groups);
      groups := groups + [region];
      i := region.end;
    }
  }

  lemma GroupsStep(text: bytes, i: nat, end: nat, done: seq<CodeSpan>)
    requires i < end <= |text|
    ensures done + Groups(text, i, end) ==
            (done + [RegionAt(text, i, end)]) + Groups(text, RegionAt(text, i, end).end, end)
  {
  }

  /** The region at line start `i`: one line, or a block through its closing line. */
  method NextRegion(text: bytes, i: nat, end: nat) returns (region: CodeSpan)
    requires i < end <= |text|
    ensures region == RegionAt(text, i, end)
  {
    var line, next := LineAt(text, i, end);
    var m := FenceMarker(line);
    if m.NoFence? {
      return CodeSpan(i, next, false);
    }
    var gEnd := CloseFence(text, next, end, m.ch, m.n);
    return CodeSpan(i, gEnd, true);
  }

  predicate HasFenceFrom(text: bytes, i: nat, end: nat)
    requires i <= end <= |text|
    decreases end - i
  {
    i < end && (IsFenceOpen(LineContent(text, i, end)) || HasFenceFrom(text, LineNext(text, i, end), end))
  }

  method SpanHasFence(text: bytes, start: nat, end: nat) returns (b: bool)
    requires start <= end <= |text|
    ensures b == HasFenceFrom(text, start, end)
  {
    var i := start;
    while i < end
      invariant start <= i <= end && HasFenceFrom(text, i, end) == HasFenceFrom(text, start, end)
    {
      var line, next := LineAt(text, i, end);
      var m := FenceMarker(line);
      if m.Fence? {
        return true;
      }
      i := next;
    }
    return false;
  }

  ghost predicate HasFencedRegion(text: bytes, start: nat, end: nat)
    requires start <= end <= |text|
  {
    exists k :: 0 <= k < |Groups(text, start, end)| && Groups(text, start, end)[k].fence
  }

  /** The cheap test agrees with the grouping: it is true exactly when some region is a fenced block. */
  lemma {:induction false} HasFenceIff(text: bytes, i: nat, end: nat)
    requires i <= end <= |text|
    ensures HasFenceFrom(text, i, end) <==> HasFencedRegion(text, i, end)
    decreases end - i
  {
    if i < end {
      var groups := Groups(text, i, end);
      if IsFenceOpen(LineContent(text, i, end)) {
        assert groups[0].fence;
      } else {
        var rest := Groups(text, LineNext(text, i, end), end);
        assert groups == [CodeSpan(i, LineNext(text, i, end), false)] + rest;
        HasFenceIff(text, LineNext(text, i, end), end);
        if k :| 0 <= k < |rest| && rest[k].fence {
          assert groups[k + 1].fence;
        }
      }
    }
  }

  // ----- the cuts -----

  function UnitOf(g: CodeSpan): Unit {
    Unit(g.start, g.end)
  }

  function UnitsOf(groups: seq<CodeSpan>): (r: seq<Unit>)
    ensures |r| == |groups|
  {
    seq(|groups|, k requires 0 <= k < |groups| => UnitOf(groups[k]))
  }

  function LinesFrom(text: bytes, i: nat, end: nat): seq<Unit>
    requires i <= end <= |text|
    decreases end - i
  {
    if i == end then [] else [Unit(i, LineNext(text, i, end))] + LinesFrom(text, LineNext(text, i, end), end)
  }

  /** The estimated size of every span. */
  function Tokens(text: bytes, spans: seq<Unit>, est: Estimator): (r: seq<int>)
    ensures |r| == |spans|
    ensures forall k :: 0 <= k < |spans| ==> r[k] == est(Slice(text, spans[k].Start, spans[k].End))
  {
    seq(|spans|, k requires 0 <= k < |spans| => est(Slice(text, spans[k].Start, spans[k].End)))
  }

  method CountTokens(text: bytes, spans: seq<Unit>, est: Estimator) returns (tok: seq<int>)
    requires forall k :: 0 <= k < |spans| ==> 0 <= spans[k].Start <= spans[k].End <= |text|
    ensures tok == Tokens(text, spans, est)
  {
    tok := [];
    for i := 0 to |spans|
      invariant |tok| == i
      invariant forall k :: 0 <= k < i ==> tok[k] == est(Slice(text, spans[k].Start, spans[k].End))
    {
      tok := tok + [est(text[spans[i].Start..spans[i].End])];
    }
  }

  /** The prose cuts of a span; none when the span does not lie in the text. */
  function ProseOf(text: bytes, u: Unit, maxTok: int, overlapTok: int, est: Estimator): seq<Cut> {
    if 0 <= u.Start <= u.End <= |text| then ProseSplit(text, u.Start, u.End, maxTok, overlapTok, est) else []
  }

  function LinePieces(text: bytes, lines: seq<Unit>, maxTok: int, overlapTok: int, est: Estimator): (r: seq<seq<Cut>>)
    ensures |r| == |lines|
    ensures forall k :: 0 <= k < |lines| ==> r[k] == ProseOf(text, lines[k], maxTok, overlapTok, est)
  {
    seq(|lines|, k requires 0 <= k < |lines| => ProseOf(text, lines[k], maxTok, overlapTok, est))
  }

  /** All cuts of splitLines on one fenced block. */
  function LineCuts(text: bytes, start: nat, end: nat, maxTok: int, overlapTok: int, est: Estimator): seq<Cut>
    requires start <= end <= |text|
  {
    var lines := LinesFrom(text, start, end);
    PackCuts(lines, Tokens(text, lines, est), LinePieces(text, lines, maxTok, overlapTok, est), maxTok, overlapTok)
  }

  /** How an oversize region is cut: a block at its lines, a lone line as prose. */
  function RegionCuts(text: bytes, g: CodeSpan, maxTok: int, overlapTok: int, est: Estimator): seq<Cut> {
    if !(g.start <= g.end <= |text|) then []
    else if g.fence then LineCuts(text, g.start, g.end, maxTok, overlapTok, est)
    else ProseSplit(text, g.start, g.end, maxTok, overlapTok, est)
  }

  function RegionPieces(text: bytes, groups: seq<CodeSpan>, maxTok: int, overlapTok: int,
                        est: Estimator): (r: seq<seq<Cut>>)
    ensures |r| == |groups|
    ensures forall k :: 0 <= k < |groups| ==> r[k] == RegionCuts(text, groups[k], maxTok, overlapTok, est)
  {
    seq(|groups|, k requires 0 <= k < |groups| => RegionCuts(text, groups[k], maxTok, overlapTok, est))
  }

  /** All cuts of splitFenced on one span. */
  function FencedCuts(text: bytes, start: nat, end: nat, maxTok: int, overlapTok: int, est: Estimator): seq<Cut>
    requires start <= end <= |text|
  {
    var groups := Groups(text, start, end);
    var spans := UnitsOf(groups);
    PackCuts(spans, Tokens(text, spans, est), RegionPieces(text, groups, maxTok, overlapTok, est), maxTok, overlapTok)
  }

  /** All cuts of hardSplit on one oversize unit. */
  function HardCuts(text: bytes, start: nat, end: nat, maxTok: int, overlapTok: int, est: Estimator): seq<Cut>
    requires start <= end <= |text|
  {
    if HasFenceFrom(text, start, end) then FencedCuts(text, start, end, maxTok, overlapTok, est)
    else ProseSplit(text, start, end, maxTok, overlapTok, est)
  }

  // ----- tiling -----

  lemma {:induction false} LinesTile(text: bytes, i: nat, end: nat)
    requires i <= end <= |text|
    ensures Tiles(i, end, LinesFrom(text, i, end))
    decreases end - i
  {
    if i < end {
      var next := LineNext(text, i, end);
      LinesTile(text, next, end);
      assert LinesFrom(text, i, end)[1..] == LinesFrom(text, next, end);
    }
  }

  lemma UnitsOfCons(g: CodeSpan, rest: seq<CodeSpan>)
    ensures UnitsOf([g] + rest) == [UnitOf(g)] + UnitsOf(rest)
  {
  }

  /** The first region's span, then the spans of the rest. */
  lemma GroupsCons(text: bytes, i: nat, end: nat, e: nat)
    requires i < end <= |text| && e == RegionEnd(text, i, end)
    ensures UnitsOf(Groups(text, i, end)) == [Unit(i, e)] + UnitsOf(Groups(text, e, end))
  {
    UnitsOfCons(RegionAt(text, i, end), Groups(text, e, end));
  }

  lemma {:induction false} GroupsTile(text: bytes, i: nat, end: nat)
    requires i <= end <= |text|
    ensures Tiles(i, end, UnitsOf(Groups(text, i, end)))
    decreases end - i
  {
    if i < end {
      var e := RegionEnd(text, i, end);
      GroupsTile(text, e, end);
      GroupsCons(text, i, end, e);
      assert UnitsOf(Groups(text, i, end))[1..] == UnitsOf(Groups(text, e, end));
    }
  }

  /** All spans lie between lo and hi. */
  ghost predicate Within(lo: int, hi: int, spans: seq<Unit>) {
    forall k :: 0 <= k < |spans| ==> lo <= spans[k].Start < spans[k].End <= hi
  }

  lemma LinesInText(text: bytes, i: nat, end: nat)
    requires i <= end <= |text|
    ensures Within(i, end, LinesFrom(text, i, end))
  {
    LinesTile(text, i, end);
    TilesBound(i, end, LinesFrom(text, i, end));
  }

  lemma GroupsInText(text: bytes, i: nat, end: nat)
    requires i <= end <= |text|
    ensures Within(i, end, UnitsOf(Groups(text, i, end)))
  {
    GroupsTile(text, i, end);
    TilesBound(i, end, UnitsOf(Groups(text, i, end)));
  }

  // ----- the loops -----

  method CollectLines(text: bytes, start: nat, end: nat) returns (lines: seq<Unit>)
    requires start <= end <= |text|
    ensures lines == LinesFrom(text, start, end)
  {
    lines := [];
    var i := start;
    while i < end
      invariant start <= i <= end && lines + LinesFrom(text, i, end) == LinesFrom(text, start, end)
    {
      var _, next := LineAt(text, i, end);
      lines := lines + [Unit(i, next)];
      i := next;
    }
  }

  /** The spans lie in the text in ascending order. */
  ghost predicate InText(text: bytes, spans: seq<Unit>) {
    && (forall k :: 0 <= k < |spans| ==> 0 <= spans[k].Start < spans[k].End <= |text|)
    && (forall a, b :: 0 <= a < b < |spans| ==> spans[a].End <= spans[b].Start)
  }

  lemma TilesInText(text: bytes, lo: nat, hi: nat, spans: seq<Unit>)
    requires hi <= |text| && Tiles(lo, hi, spans)
    ensures InText(text, spans)
  {
    TilesBound(lo, hi, spans);
    TilesOrdered(lo, hi, spans, Loose);
  }

  /** One packed chunk from unit `i` on, and the unit the next turn begins at. */
  method PackChunk(text: bytes, spans: seq<Unit>, tok: seq<int>, i: nat, maxTok: int, overlapTok: int, sink: Sink,
                   ghost before: seq<Chunk>, ghost first: int, ghost done: seq<Cut>)
    returns (next: nat)
    requires |spans| == |tok| && i < |tok| && tok[i] <= maxTok && InText(text, spans)
    requires Received(sink, text, before, first, done)
    modifies sink
    ensures next == NextTurn(tok, i, Grow(tok, i, i, maxTok), overlapTok)
    ensures Received(sink, text, before, first, done + [PackedCut(spans, tok, i, Grow(tok, i, i, maxTok))])
  {
    var j, sum := GrowChunk(tok, i, maxTok);
    AppendCut(sink, text, spans[i].Start, spans[j].End, sum, before, first, done);
    if j == |tok| - 1 {
      return |tok|;
    }
    next := OverlapStart(tok, i, j, overlapTok);
  }

  /** One oversize line cut as prose. */
  method HardLine(text: bytes, u: Unit, maxTok: int, overlapTok: int, est: Estimator, sink: Sink,
                  ghost before: seq<Chunk>, ghost first: int, ghost done: seq<Cut>)
    requires 0 <= u.Start <= u.End <= |text|
    requires Received(sink, text, before, first, done)
    modifies sink
    ensures Received(sink, text, before, first, done + ProseOf(text, u, maxTok, overlapTok, est))
  {
    ghost var mid, midIdx := sink.chunks, sink.idx;
    HardSplitProse(text, u.Start, u.End, maxTok, overlapTok, est, sink);
    ReceivedBoth(sink, text, before, first, mid, midIdx, done, ProseOf(text, u, maxTok, overlapTok, est));
  }

  /** One turn of the packing loop at line `i`: cut as prose when it is oversize, packed otherwise. */
  method LineTurn(text: bytes, lines: seq<Unit>, tok: seq<int>, i: nat, maxTok: int, overlapTok: int, est: Estimator,
                  sink: Sink,
                  ghost before: seq<Chunk>, ghost first: int, ghost done: seq<Cut>, ghost pieces: seq<seq<Cut>>)
    returns (next: nat, ghost more: seq<Cut>)
    requires |tok| == |lines| && i < |lines| && InText(text, lines) &&
             pieces == LinePieces(text, lines, maxTok, overlapTok, est)
    requires Received(sink, text, before, first, done)
    modifies sink
    ensures i < next <= |tok| && Received(sink, text, before, first, more)
    ensures more + CutsFrom(lines, tok, pieces, next, maxTok, overlapTok) ==
            done + CutsFrom(lines, tok, pieces, i, maxTok, overlapTok)
  {
    if tok[i] > maxTok {
      HardLine(text, lines[i], maxTok, overlapTok, est, sink, before, first, done);
      HardTurn(lines, tok, pieces, i, maxTok, overlapTok, done);
      next, more := i + 1, done + pieces[i];
    } else {
      PackTurn(lines, tok, pieces, i, maxTok, overlapTok, done);
      more := done + [PackedCut(lines, tok, i, Grow(tok, i, i, maxTok))];
      next := PackChunk(text, lines, tok, i, maxTok, overlapTok, sink, before, first, done);
    }
  }

  method SplitLines(text: bytes, start: nat, end: nat, maxTok: int, overlapTok: int, est: Estimator, sink: Sink)
    requires start <= end <= |text|
    modifies sink
    ensures Received(sink, text, old(sink.chunks), old(sink.idx), LineCuts(text, start, end, maxTok, overlapTok, est))
  {
    var lines := CollectLines(text, start, end);
    LinesTile(text, start, end);
    TilesInText(text, start, end, lines);
    var tok := CountTokens(text, lines, est);
    ghost var pieces := LinePieces(text, lines, maxTok, overlapTok, est);
    ghost var all := PackCuts(lines, tok, pieces, maxTok, overlapTok);
    ghost var done: seq<Cut> := [];
    var i := 0;
    while i < |lines|
      invariant 0 <= i <= |lines|
      invariant Received(sink, text, old(sink.chunks), old(sink.idx), done)
      invariant done + CutsFrom(lines, tok, pieces, i, maxTok, overlapTok) == all
    {
      i, done := LineTurn(text, lines, tok, i, maxTok, overlapTok, est, sink, old(sink.chunks), old(sink.idx), done,
                          pieces);
    }
    assert done == all;
  }

  /** One oversize region: a block at its lines, a lone line as prose. */
  method HardRegion(text: bytes, g: CodeSpan, maxTok: int, overlapTok: int, est: Estimator, sink: Sink,
                    ghost before: seq<Chunk>, ghost first: int, ghost done: seq<Cut>)
    requires g.start <= g.end <= |text|
    requires Received(sink, text, before, first, done)
    modifies sink
    ensures Received(sink, text, before, first, done + RegionCuts(text, g, maxTok, overlapTok, est))
  {
    ghost var mid, midIdx := sink.chunks, sink.idx;
    if g.fence {
      SplitLines(text, g.start, g.end, maxTok, overlapTok, est, sink);
    } else {
      HardSplitProse(text, g.start, g.end, maxTok, overlapTok, est, sink);
    }
    ReceivedBoth(sink, text, before, first, mid, midIdx, done, RegionCuts(text, g, maxTok, overlapTok, est));
  }

  /** One turn of the packing loop at region `i`: cut as lines or prose when it is oversize, packed otherwise. */
  method RegionTurn(text: bytes, groups: seq<CodeSpan>, spans: seq<Unit>, tok: seq<int>, i: nat,
                    maxTok: int, overlapTok: int, est: Estimator, sink: Sink,
                    ghost before: seq<Chunk>, ghost first: int, ghost done: seq<Cut>, ghost pieces: seq<seq<Cut>>)
    returns (next: nat, ghost more: seq<Cut>)
    requires spans == UnitsOf(groups) && |tok| == |groups| && i < |groups| && InText(text, spans)
    requires pieces == RegionPieces(text, groups, maxTok, overlapTok, est)
    requires Received(sink, text, before, first, done)
    modifies sink
    ensures i < next <= |tok| && Received(sink, text, before, first, more)
    ensures more + CutsFrom(spans, tok, pieces, next, maxTok, overlapTok) ==
            done + CutsFrom(spans, tok, pieces, i, maxTok, overlapTok)
  {
    if tok[i] > maxTok {
      assert spans[i] == UnitOf(groups[i]);
      HardRegion(text, groups[i], maxTok, overlapTok, est, sink, before, first, done);
      HardTurn(spans, tok, pieces, i, maxTok, overlapTok, done);
      next, more := i + 1, done + pieces[i];
    } else {
      PackTurn(spans, tok, pieces, i, maxTok, overlapTok, done);
      more := done + [PackedCut(spans, tok, i, Grow(tok, i, i, maxTok))];
      next := PackChunk(text, spans, tok, i, maxTok, overlapTok, sink, before, first, done);
    }
  }

  method SplitFenced(text: bytes, start: nat, end: nat, maxTok: int, overlapTok: int, est: Estimator, sink: Sink)
    requires start <= end <= |text|
    modifies sink
    ensures Received(sink, text, old(sink.chunks), old(sink.idx), FencedCuts(text, start, end, maxTok, overlapTok, est))
  {
    var groups := FencedGroups(text, start, end);
    var spans := UnitsOf(groups);
    GroupsTile(text, start, end);
    TilesInText(text, start, end, spans);
    var tok := CountTokens(text, spans, est);
    ghost var pieces := RegionPieces(text, groups, maxTok, overlapTok, est);
    ghost var all := PackCuts(spans, tok, pieces, maxTok, overlapTok);
    ghost var done: seq<Cut> := [];
    var i := 0;
    while i < |groups|
      invariant 0 <= i <= |groups|
      invariant Received(sink, text, old(sink.chunks), old(sink.idx), done)
      invariant done + CutsFrom(spans, tok, pieces, i, maxTok, overlapTok) == all
    {
      i, done := RegionTurn(text, groups, spans, tok, i, maxTok, overlapTok, est, sink, old(sink.chunks),
                            old(sink.idx), done, pieces);
    }
    assert done == all;
  }

  method HardSplit(text: bytes, start: nat, end: nat, maxTok: int, overlapTok: int, est: Estimator, sink: Sink)
    requires start <= end <= |text|
    modifies sink
    ensures Received(sink, text, old(sink.chunks), old(sink.idx), HardCuts(text, start, end, maxTok, overlapTok, est))
  {
    var fenced := SpanHasFence(text, start, end);
    if fenced {
      SplitFenced(text, start, end, maxTok, overlapTok, est, sink);
      return;
    }
    HardSplitProse(text, start, end, maxTok, overlapTok, est, sink);
  }
}
