/** The prose cutter always moves forward, never moves an end back, and loses no byte. */
module ProseChain {
  import opened Utf8
  import opened Cuts
  import opened Chunks
  import opened Prose

  /** The end chosen in the later window is not before `b`, or only white space's own bytes lie in between. */
  ghost predicate NotBefore(text: bytes, b: nat, b': nat) {
    b <= b' || forall k: nat :: b' < k <= b ==> !Aligned(text, k)
  }

  /** Shifting the search window forward never brings the preferred cut back past a rune boundary. */
  lemma WindowShift(text: bytes, lo: nat, hi: nat, lo': nat, hi': nat, b: nat, b': nat)
    requires lo <= lo' <= hi' < |text| && lo <= hi < hi' && hi - lo == hi' - lo'
    requires Best(text, lo, hi, b) && Best(text, lo', hi', b')
    ensures NotBefore(text, b, b')
  {
    assert SpaceIn(text, b, hi) ==> SpaceIn(text, b, hi');
    if b' < b == hi {
      ShiftPastHardCut(text, lo, hi, lo', hi', b');
    }
  }

  /**
    * No sentence end or white space fits in the first window, so an earlier cut can only split a space rune it
    * straddles.
    */
  lemma ShiftPastHardCut(text: bytes, lo: nat, hi: nat, lo': nat, hi': nat, b': nat)
    requires lo <= lo' <= hi' < |text| && lo <= hi < hi'
    requires NoSentence(text, lo, hi) && NoSpace(text, lo, hi) && Best(text, lo', hi', b') && b' < hi
    ensures forall k: nat :: b' < k <= hi ==> !Aligned(text, k)
  {
    assert SpaceIn(text, b', hi');
    assert !SpaceIn(text, b', hi);
    assert forall k :: b' < k < b' + RuneLen(text, b') ==> Cont(text[k]);
  }

  /** Snapping to rune boundaries keeps the order of the ends. */
  lemma SnapKeepsOrder(text: bytes, pos: nat, b: nat, pos': nat, b': nat)
    requires NoStray(text) && Aligned(text, pos) && Aligned(text, pos') && pos < pos'
    requires pos <= b <= |text| && pos' <= b' <= |text| && NotBefore(text, b, b')
    ensures RuneEnd(text, pos, b) <= RuneEnd(text, pos', b')
  {
    var f, f' := RuneFloor(text, pos, b), RuneFloor(text, pos', b');
    RuneFloorIsLast(text, pos, b);
    RuneFloorIsLast(text, pos', b');
    NextRune(text, pos, pos');
    assert f <= f';
  }

  /** The window searched is the last quarter of the target. */
  lemma BestInLastQuarter(text: bytes, pos: nat, target: nat)
    requires pos + target <= |text|
    ensures Best(text, pos + target - target / 4, pos + target, BoundaryBefore(text, pos, pos + target))
  {
    BoundaryIsBest(text, pos, pos + target);
    assert WindowStart(pos, pos + target) == pos + target - target / 4;
  }

  lemma BoundariesKeepOrder(text: bytes, pos: nat, pos': nat, target: nat)
    requires pos < pos' && pos' + target < |text|
    ensures NotBefore(text, BoundaryBefore(text, pos, pos + target), BoundaryBefore(text, pos', pos' + target))
  {
    var q := target - target / 4;
    BestInLastQuarter(text, pos, target);
    BestInLastQuarter(text, pos', target);
    WindowShift(text, pos + q, pos + target, pos' + q, pos' + target,
                BoundaryBefore(text, pos, pos + target), BoundaryBefore(text, pos', pos' + target));
  }

  /** A chunk that starts later does not end earlier. */
  lemma EndsNeverMoveBack(text: bytes, pos: nat, pos': nat, end: nat, target: nat)
    requires NoStray(text) && Aligned(text, pos) && Aligned(text, pos') && pos < pos' < end <= |text|
    requires Aligned(text, end) && target >= 1
    ensures ProseEnd(text, pos, end, target) <= ProseEnd(text, pos', end, target)
  {
    var b := if pos + target >= end then end else BoundaryBefore(text, pos, pos + target);
    if pos' + target >= end {
      SnapKeepsOrder(text, pos, b, pos', end);
    } else {
      BoundariesKeepOrder(text, pos, pos', target);
      SnapKeepsOrder(text, pos, b, pos', BoundaryBefore(text, pos', pos' + target));
    }
  }

  /** A chunk ends on a rune boundary, inside the span. */
  lemma ProseEndAligned(text: bytes, pos: nat, end: nat, target: nat)
    requires NoStray(text) && Aligned(text, pos) && Aligned(text, end) && pos < end <= |text| && target >= 1
    ensures Aligned(text, ProseEnd(text, pos, end, target))
    ensures pos < ProseEnd(text, pos, end, target) <= end
  {
    var b := if pos + target >= end then end else BoundaryBefore(text, pos, pos + target);
    RuneFloorIsLast(text, pos, b);
    NextRune(text, pos, end);
  }

  /** The next chunk starts at or before the end of this one, and exactly there without overlap. */
  lemma ProseNextLinks(text: bytes, pos: nat, e: nat, overlap: nat)
    requires pos < e <= |text| && Aligned(text, e)
    ensures pos < ProseNext(text, pos, e, overlap) <= e
    ensures overlap == 0 ==> ProseNext(text, pos, e, overlap) == e
  {
    RuneCeilIsFirst(text, if e - overlap <= pos then pos + 1 else e - overlap, e);
  }

  ghost predicate AllAligned(text: bytes, cuts: seq<Cut>) {
    forall c :: c in cuts ==> Aligned(text, c.start) && Aligned(text, c.end)
  }

  /** hardSplitProse on any rune-aligned span, any target of at least one byte and any overlap. */
  lemma {:induction false} ProseIsChain(text: bytes, pos: nat, end: nat, target: nat, overlap: nat, est: Estimator,
                                        mode: Mode)
    requires NoStray(text) && Aligned(text, pos) && Aligned(text, end) && pos < end <= |text| && target >= 1
    requires mode == Exact ==> overlap == 0
    ensures Chain(mode, ProseCuts(text, pos, end, target, overlap, est), pos, end)
    ensures AllAligned(text, ProseCuts(text, pos, end, target, overlap, est))
    ensures ProseCuts(text, pos, end, target, overlap, est)[0].end == ProseEnd(text, pos, end, target)
    decreases |text| - pos
  {
    var e := ProseEnd(text, pos, end, target);
    ProseEndAligned(text, pos, end, target);
    var head := [Cut(pos, e, est(text[pos..e]))];
    if e < end {
      var next := ProseNext(text, pos, e, overlap);
      ProseNextLinks(text, pos, e, overlap);
      ProseIsChain(text, next, end, target, overlap, est, mode);
      var rest := ProseCuts(text, next, end, target, overlap, est);
      EndsNeverMoveBack(text, pos, next, end, target);
      ChainConcat(mode, head, rest, pos, e, next, end);
    }
  }

  // ----- exactly which texts lose no byte -----

  /**
    * At this target, without overlap, each chunk begins where the one before it ends, from the first byte to the last.
    */
  ghost predicate LosesNothing(text: bytes, target: nat, est: Estimator) {
    text != [] && target >= 1 ==> Chain(Exact, ProseCuts(text, 0, |text|, target, 0, est), 0, |text|)
  }

  /** A window of one byte cuts out one decoding step. */
  lemma OneByteWindow(text: bytes, pos: nat)
    requires pos < |text| && Aligned(text, pos)
    ensures ProseEnd(text, pos, |text|, 1) == pos + RuneLen(text, pos)
  {
    var idealEnd := pos + 1;
    assert BoundaryBefore(text, pos, idealEnd) == idealEnd;
    assert RuneFloor(text, pos, idealEnd) == if Aligned(text, idealEnd) then idealEnd else pos;
  }

  /**
    * When the cuts from `pos` on lose nothing, the second begins where the first ends, and the rest loses nothing
    * either.
    */
  lemma FirstCutLinks(text: bytes, pos: nat, est: Estimator, e: nat, next: nat)
    requires pos < |text| && e == ProseEnd(text, pos, |text|, 1) < |text| && next == ProseNext(text, pos, e, 0)
    requires Chain(Exact, ProseCuts(text, pos, |text|, 1, 0, est), pos, |text|)
    ensures next == e && Chain(Exact, ProseCuts(text, next, |text|, 1, 0, est), next, |text|)
  {
    var cuts, rest := ProseCuts(text, pos, |text|, 1, 0, est), ProseCuts(text, next, |text|, 1, 0, est);
    assert cuts == [Cut(pos, e, est(text[pos..e]))] + rest;
    ChainTail(cuts, rest, pos, e, |text|);
    CutsBegin(text, next, est);
  }

  lemma CutsBegin(text: bytes, pos: nat, est: Estimator)
    requires pos <= |text| && ProseCuts(text, pos, |text|, 1, 0, est) != []
    ensures ProseCuts(text, pos, |text|, 1, 0, est)[0].start == pos
  {
  }

  lemma {:induction false} OneByteWindowWalks(text: bytes, pos: nat, est: Estimator)
    requires pos < |text| && Aligned(text, pos)
    requires Chain(Exact, ProseCuts(text, pos, |text|, 1, 0, est), pos, |text|)
    ensures WalksWhole(text, pos)
    decreases |text| - pos
  {
    var e := pos + RuneLen(text, pos);
    OneByteWindow(text, pos);
    if e < |text| {
      FirstCutLinks(text, pos, est, e, ProseNext(text, pos, e, 0));
      OneByteWindowWalks(text, e, est);
    }
  }

  /** Behind the first cut of a chain without overlap stands a chain that begins where that cut ends. */
  lemma ChainTail(cuts: seq<Cut>, rest: seq<Cut>, pos: nat, e: nat, hi: nat)
    requires Chain(Exact, cuts, pos, hi) && cuts[0].end == e < hi && rest == cuts[1..]
    ensures Chain(Exact, rest, e, hi)
  {
    assert |cuts| > 1;
    assert Adjacent(Exact, cuts[0], cuts[0 + 1]);
    forall k | 0 <= k < |rest| - 1
      ensures Adjacent(Exact, rest[k], rest[k + 1])
    {
      assert Adjacent(Exact, cuts[k + 1], cuts[k + 1 + 1]);
    }
  }

  /**
    * The prose cutter loses no byte of a text, whatever the target, if and only if the text has no stray continuation
    * byte.
    */
  lemma LosesNothingIff(text: bytes, est: Estimator)
    ensures (forall target: nat :: LosesNothing(text, target, est)) <==> NoStray(text)
  {
    if text != [] {
      if NoStray(text) {
        forall target: nat
          ensures LosesNothing(text, target, est)
        {
          if target >= 1 {
            ProseIsChain(text, 0, |text|, target, 0, est, Exact);
          }
        }
      }
      if LosesNothing(text, 1, est) {
        OneByteWindowWalks(text, 0, est);
        NoStrayIffWalks(text);
      }
    }
  }

  /** In this text the byte 0x80 begins no rune and ends none, and a window of one byte skips it. */
  lemma StrayByteSkipped(est: Estimator)
    ensures var text := [65, 0x80, 66];
            ProseCuts(text, 0, 3, 1, 0, est) == [Cut(0, 1, est([65])), Cut(2, 3, est([66]))]
  {
    var text: bytes := [65, 0x80, 66];
    OneByteWindow(text, 0);
    OneByteWindow(text, 2);
    assert ProseNext(text, 0, 1, 0) == 2;
    assert text[0..1] == [65] && text[2..3] == [66];
    assert ProseCuts(text, 2, 3, 1, 0, est) == [Cut(2, 3, est(text[2..3]))];
  }
}
