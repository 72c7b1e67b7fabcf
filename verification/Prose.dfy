/** The prose cutter: a window over bytes that prefers a sentence end, then white space, then a rune boundary. */
module Prose {
  import opened Basics
  import opened Float64
  import opened Utf8
  import opened Space
  import opened Cuts
  import opened Chunks

  // ----- findBoundary -----

  /** A sentence-ending mark at `i` with a space behind it. */
  predicate SentenceAt(s: bytes, i: int) {
    0 <= i && i + 1 < |s| && (s[i] == 46 || s[i] == 33 || s[i] == 63) && s[i + 1] == SPACE
  }

  method LastSentenceEnd(s: bytes) returns (last: int)
    ensures -1 <= last < |s|
    ensures last >= 0 ==> SentenceAt(s, last)
    ensures forall k :: last < k < |s| ==> !SentenceAt(s, k)
  {
    last := -1;
    var i := 0;
    while i < |s| - 1
      invariant 0 <= i && -1 <= last < |s|
      invariant last >= 0 ==> SentenceAt(s, last)
      invariant forall k :: last < k < i ==> !SentenceAt(s, k)
    {
      var c := s[i];
      if (c == 46 || c == 33 || c == 63) && s[i + 1] == SPACE {
        last := i;
      }
      i := i + 1;
    }
  }

  /** The last white-space rune; `range` decodes the string rune by rune. */
  method LastWhitespace(s: bytes) returns (last: int)
    ensures -1 <= last < |s|
    ensures last >= 0 ==> SpaceWidth(s, last) > 0
    ensures forall k: nat :: last < k < |s| ==> SpaceWidth(s, k) == 0
  {
    last := -1;
    var i := 0;
    while i < |s|
      invariant 0 <= i <= |s| && -1 <= last < |s|
      invariant last >= 0 ==> SpaceWidth(s, last) > 0
      invariant forall k: nat :: last < k < i ==> SpaceWidth(s, k) == 0
    {
      if SpaceWidth(s, i) > 0 {
        last := i;
      }
      i := i + RuneLen(s, i);
    }
  }

  /** A white-space rune at `p` that ends at or before `hi`. */
  predicate SpaceIn(text: bytes, p: nat, hi: int)
    requires p <= |text|
  {
    SpaceWidth(text, p) > 0 && p + SpaceWidth(text, p) <= hi
  }

  ghost predicate NoSentence(text: bytes, lo: int, hi: int) {
    forall p :: lo <= p < hi - 1 ==> !SentenceAt(text, p)
  }

  ghost predicate NoSpace(text: bytes, lo: int, hi: int)
    requires hi <= |text|
  {
    forall p: nat :: lo <= p < hi ==> !SpaceIn(text, p, hi)
  }

  /**
    * `r` is the cut preferred in the window lo..hi: behind the last sentence mark, else before the last space, else hi.
    */
  ghost predicate Best(text: bytes, lo: int, hi: int, r: int)
    requires 0 <= lo <= hi <= |text|
  {
    || (lo < r < hi && SentenceAt(text, r - 1) && NoSentence(text, r, hi))
    || (lo <= r < hi && NoSentence(text, lo, hi) && SpaceIn(text, r, hi) && NoSpace(text, r + 1, hi))
    || (r == hi && NoSentence(text, lo, hi) && NoSpace(text, lo, hi))
  }

  function LastSentence(text: bytes, lo: int, hi: int): (p: int)
    ensures p == lo - 1 || lo <= p < hi - 1
    ensures p >= lo ==> SentenceAt(text, p)
    ensures NoSentence(text, p + 1, hi)
    decreases hi - lo
  {
    if hi - 1 <= lo then lo - 1
    else if SentenceAt(text, hi - 2) then hi - 2
    else LastSentence(text, lo, hi - 1)
  }

  /** The last space at a position in lo..p whose rune ends by `hi`. */
  function LastSpace(text: bytes, lo: nat, p: nat, hi: nat): (r: int)
    requires lo <= p <= hi <= |text|
    ensures r == lo - 1 || (lo <= r < p && SpaceIn(text, r, hi))
    decreases p
  {
    if p == lo then lo - 1
    else if SpaceIn(text, p - 1, hi) then p - 1
    else LastSpace(text, lo, p - 1, hi)
  }

  lemma {:induction false} LastSpaceIsLast(text: bytes, lo: nat, p: nat, hi: nat, k: nat)
    requires lo <= p <= hi <= |text| && LastSpace(text, lo, p, hi) < k < p
    ensures !SpaceIn(text, k, hi)
    decreases p
  {
    if k < p - 1 {
      LastSpaceIsLast(text, lo, p - 1, hi, k);
    }
  }

  /** The last quarter of the window is searched. */
  function WindowStart(start: int, idealEnd: int): int {
    Max(idealEnd - (idealEnd - start) / 4, start)
  }

  function BoundaryBefore(text: bytes, start: nat, idealEnd: nat): (r: nat)
    requires start <= idealEnd <= |text|
    ensures start <= r <= idealEnd
  {
    var lo := WindowStart(start, idealEnd);
    var p := LastSentence(text, lo, idealEnd);
    if p >= lo then p + 1
    else
      var w := LastSpace(text, lo, idealEnd, idealEnd);
      if w >= lo then w else idealEnd
  }

  lemma BoundaryIsBest(text: bytes, start: nat, idealEnd: nat)
    requires start <= idealEnd <= |text|
    ensures Best(text, WindowStart(start, idealEnd), idealEnd, BoundaryBefore(text, start, idealEnd))
  {
    var lo := WindowStart(start, idealEnd);
    forall k: nat | LastSpace(text, lo, idealEnd, idealEnd) < k < idealEnd
      ensures !SpaceIn(text, k, idealEnd)
    {
      LastSpaceIsLast(text, lo, idealEnd, idealEnd, k);
    }
  }

  lemma BestIsUnique(text: bytes, lo: int, hi: int, r: int, r': int)
    requires 0 <= lo <= hi <= |text| && Best(text, lo, hi, r) && Best(text, lo, hi, r')
    ensures r == r'
  {
  }

  /** A window is searched as a string of its own. */
  lemma SpaceInWindow(text: bytes, lo: nat, hi: nat, i: nat)
    requires lo + i <= hi <= |text|
    ensures SpaceWidth(text[lo..hi], i) > 0 <==> SpaceIn(text, lo + i, hi)
  {
    var s := text[lo..hi];
    assert forall k :: 0 <= k < |s| ==> s[k] == text[lo + k];
  }

  /** A sentence mark of a window is one of the text. */
  lemma SentenceInWindow(text: bytes, lo: nat, hi: nat)
    requires lo <= hi <= |text|
    ensures forall p :: lo <= p < hi - 1 ==> SentenceAt(text, p) == SentenceAt(text[lo..hi], p - lo)
  {
    var s := text[lo..hi];
    assert forall k :: 0 <= k < |s| ==> s[k] == text[lo + k];
  }

  /** The last sentence mark of a window is the preferred cut. */
  lemma SentenceIsBest(text: bytes, lo: nat, hi: nat, i: nat)
    requires lo <= hi <= |text| && i < hi - lo && SentenceAt(text[lo..hi], i)
    requires forall k :: i < k < hi - lo ==> !SentenceAt(text[lo..hi], k)
    ensures Best(text, lo, hi, lo + i + 1)
  {
    SentenceInWindow(text, lo, hi);
    assert SentenceAt(text, lo + i);
  }

  /** Without one, the last white space is, and without that the end of the window. */
  lemma SpaceIsBest(text: bytes, lo: nat, hi: nat, i: int)
    requires lo <= hi <= |text| && -1 <= i < hi - lo
    requires forall k :: 0 <= k < hi - lo ==> !SentenceAt(text[lo..hi], k)
    requires i >= 0 ==> SpaceWidth(text[lo..hi], i) > 0
    requires forall k: nat :: i < k < hi - lo ==> SpaceWidth(text[lo..hi], k) == 0
    ensures Best(text, lo, hi, if i >= 0 then lo + i else hi)
  {
    SentenceInWindow(text, lo, hi);
    forall p: nat | lo <= p < hi
      ensures SpaceIn(text, p, hi) <==> SpaceWidth(text[lo..hi], p - lo) > 0
    {
      SpaceInWindow(text, lo, hi, p - lo);
    }
  }

  method FindBoundary(text: bytes, start: nat, idealEnd: nat) returns (r: nat)
    requires start <= idealEnd <= |text|
    ensures r == BoundaryBefore(text, start, idealEnd)
  {
    var lo := WindowStart(start, idealEnd);
    var window := text[lo..idealEnd];
    BoundaryIsBest(text, start, idealEnd);
    var i := LastSentenceEnd(window);
    if i >= 0 {
      SentenceIsBest(text, lo, idealEnd, i);
      BestIsUnique(text, lo, idealEnd, lo + i + 1, BoundaryBefore(text, start, idealEnd));
      return lo + i + 1;
    }
    i := LastWhitespace(window);
    SpaceIsBest(text, lo, idealEnd, i);
    BestIsUnique(text, lo, idealEnd, if i >= 0 then lo + i else idealEnd, BoundaryBefore(text, start, idealEnd));
    return if i >= 0 then lo + i else idealEnd;
  }

  // ----- the rune snappers -----

  /** Walks back from `e`, not past `start`, to a rune start or the end of the text. */
  function RuneFloor(text: bytes, start: nat, e: nat): (r: nat)
    requires start <= e <= |text|
    ensures start <= r <= e
    decreases e
  {
    if e > start && e < |text| && !RuneStart(text[e]) then RuneFloor(text, start, e - 1) else e
  }

  lemma {:induction false} RuneFloorIsLast(text: bytes, start: nat, e: nat)
    requires start <= e <= |text|
    ensures RuneFloor(text, start, e) == start || Aligned(text, RuneFloor(text, start, e))
    ensures forall k: nat :: RuneFloor(text, start, e) < k <= e ==> !Aligned(text, k)
    decreases e
  {
    if e > start && e < |text| && !RuneStart(text[e]) {
      RuneFloorIsLast(text, start, e - 1);
    }
  }

  /** Walks forward from `i` to a rune start or the end of the text. */
  function RuneCeil(text: bytes, i: nat): (r: nat)
    requires i <= |text|
    ensures i <= r <= |text| && Aligned(text, r)
    decreases |text| - i
  {
    if i < |text| && !RuneStart(text[i]) then RuneCeil(text, i + 1) else i
  }

  /** It does not walk past a rune boundary. */
  lemma {:induction false} RuneCeilIsFirst(text: bytes, i: nat, k: nat)
    requires 0 < i <= k <= |text| && Aligned(text, k)
    ensures RuneCeil(text, i) <= k
    decreases |text| - i
  {
    if i < k {
      RuneCeilIsFirst(text, i + 1, k);
    }
  }

  /** The end actually used: the nearest rune boundary at or before `idealEnd`, or one whole rune. */
  function RuneEnd(text: bytes, start: nat, idealEnd: nat): (r: nat)
    requires start <= idealEnd <= |text|
    ensures start <= r <= |text|
    ensures start < |text| ==> start < r
  {
    var e := RuneFloor(text, start, idealEnd);
    if e > start then e else start + RuneLen(text, start)
  }

  method SnapEndToRuneBoundary(text: bytes, start: nat, idealEnd: nat) returns (r: nat)
    requires start <= idealEnd && start <= |text|
    ensures r == RuneEnd(text, start, Min(idealEnd, |text|))
  {
    var ideal := Min(idealEnd, |text|);
    var end := ideal;
    while end > start && end < |text| && !RuneStart(text[end])
      invariant start <= end <= ideal
      invariant RuneFloor(text, start, end) == RuneFloor(text, start, ideal)
    {
      end := end - 1;
    }
    if end > start {
      return end;
    }
    var size := RuneLen(text, start);
    return Min(start + size, |text|);
  }

  method SnapStartToRuneStart(text: bytes, idx: int) returns (r: nat)
    ensures r == if idx <= 0 then 0 else if idx >= |text| then |text| else RuneCeil(text, idx)
  {
    if idx <= 0 {
      return 0;
    }
    if idx >= |text| {
      return |text|;
    }
    r := idx;
    while r < |text| && !RuneStart(text[r])
      invariant idx <= r <= |text|
      invariant RuneCeil(text, r) == RuneCeil(text, idx)
    {
      r := r + 1;
    }
  }

  // ----- the cutting loop -----

  /** Where the chunk that begins at `pos` ends. */
  function ProseEnd(text: bytes, pos: nat, end: nat, target: nat): (e: nat)
    requires pos < end <= |text| && target >= 1
    ensures pos < e <= |text|
  {
    RuneEnd(text, pos, if pos + target >= end then end else BoundaryBefore(text, pos, pos + target))
  }

  /** Where the next chunk begins: `overlap` bytes back, but always further on than `pos`. */
  function ProseNext(text: bytes, pos: nat, e: nat, overlap: nat): (next: nat)
    requires pos < e <= |text|
    ensures pos < next <= |text| && Aligned(text, next)
  {
    RuneCeil(text, if e - overlap <= pos then pos + 1 else e - overlap)
  }

  function ProseCuts(text: bytes, pos: nat, end: nat, target: nat, overlap: nat, est: Estimator): seq<Cut>
    requires pos <= |text| && end <= |text| && target >= 1
    decreases |text| - pos
  {
    if pos >= end then []
    else
      var e := ProseEnd(text, pos, end, target);
      [Cut(pos, e, est(text[pos..e]))] +
      if e >= end then [] else ProseCuts(text, ProseNext(text, pos, e, overlap), end, target, overlap, est)
  }

  /** One turn of the loop moves the first cut over to the ones already made. */
  lemma ProseCutsStep(text: bytes, pos: nat, end: nat, target: nat, overlap: nat, est: Estimator, done: seq<Cut>)
    requires pos < end <= |text| && target >= 1
    ensures var e := ProseEnd(text, pos, end, target);
            var done' := done + [Cut(pos, e, est(text[pos..e]))];
            done + ProseCuts(text, pos, end, target, overlap, est) ==
            if e >= end then done'
            else done' + ProseCuts(text, ProseNext(text, pos, e, overlap), end, target, overlap, est)
  {
  }

  function Total(text: bytes, start: nat, end: nat, est: Estimator): (t: int)
    requires start <= end <= |text|
    ensures t >= 1
  {
    Max(est(text[start..end]), 1)
  }

  function Target(text: bytes, start: nat, end: nat, maxTok: int, est: Estimator): (t: nat)
    requires start <= end <= |text|
    ensures t >= 1
  {
    Max(Window(maxTok, end - start, Total(text, start, end, est)), 1)
  }

  function Overlap(text: bytes, start: nat, end: nat, overlapTok: int, est: Estimator): nat
    requires start <= end <= |text|
  {
    Max(Window(overlapTok, end - start, Total(text, start, end, est)), 0)
  }

  /** All cuts of hardSplitProse on one span. */
  function ProseSplit(text: bytes, start: nat, end: nat, maxTok: int, overlapTok: int, est: Estimator): seq<Cut>
    requires start <= end <= |text|
  {
    ProseCuts(text, start, end, Target(text, start, end, maxTok, est), Overlap(text, start, end, overlapTok, est), est)
  }

  method HardSplitProse(text: bytes, start: nat, end: nat, maxTok: int, overlapTok: int, est: Estimator, sink: Sink)
    requires start <= end <= |text|
    modifies sink
    ensures Received(sink, text, old(sink.chunks), old(sink.idx), ProseSplit(text, start, end, maxTok, overlapTok, est))
  {
    var span := text[start..end];
    var total := Max(est(span), 1);
    var target := Max(Window(maxTok, |span|, total), 1);
    var overlap := Max(Window(overlapTok, |span|, total), 0);
    assert target == Target(text, start, end, maxTok, est) && overlap == Overlap(text, start, end, overlapTok, est);
    CutProse(text, start, end, target, overlap, est, sink);
  }

  /** The end of the chunk that begins at `pos`: the ideal end, moved to a boundary, moved to a rune boundary. */
  method ChunkEnd(text: bytes, pos: nat, end: nat, target: nat) returns (e: nat)
    requires pos < end <= |text| && target >= 1
    ensures e == ProseEnd(text, pos, end, target)
  {
    e := pos + target;
    if e >= end {
      e := end;
    } else {
      e := FindBoundary(text, pos, e);
    }
    e := SnapEndToRuneBoundary(text, pos, e);
  }

  /** The start of the chunk after the one from `pos` to `e`. */
  method ChunkNext(text: bytes, pos: nat, e: nat, overlap: nat) returns (r: nat)
    requires pos < e <= |text|
    ensures r == ProseNext(text, pos, e, overlap)
  {
    var next := e - overlap;
    if next <= pos {
      next := pos + 1;
    }
    r := SnapStartToRuneStart(text, next);
  }

  /** The loop of hardSplitProse, once the budgets are byte windows. */
  method CutProse(text: bytes, start: nat, end: nat, target: nat, overlap: nat, est: Estimator, sink: Sink)
    requires start <= end <= |text| && target >= 1
    modifies sink
    ensures Received(sink, text, old(sink.chunks), old(sink.idx), ProseCuts(text, start, end, target, overlap, est))
  {
    ghost var all := ProseCuts(text, start, end, target, overlap, est);
    ghost var done: seq<Cut> := [];
    var pos := start;
    while pos < end
      invariant pos <= |text|
      invariant Received(sink, text, old(sink.chunks), old(sink.idx), done)
      invariant done + ProseCuts(text, pos, end, target, overlap, est) == all
      decreases |text| - pos
    {
      var e := ChunkEnd(text, pos, end, target);
      ProseCutsStep(text, pos, end, target, overlap, est, done);
      AppendCut(sink, text, pos, e, est(text[pos..e]), old(sink.chunks), old(sink.idx), done);
      done := done + [Cut(pos, e, est(text[pos..e]))];
      if e >= end {
        return;
      }
      pos := ChunkNext(text, pos, e, overlap);
    }
    assert done == all;
  }
}
