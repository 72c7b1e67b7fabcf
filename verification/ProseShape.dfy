/** What the prose cutter's loop makes of a span, said without the loop. */
module ProseShape {
  import opened Basics
  import opened Float64
  import opened Utf8
  import opened Cuts
  import opened Chunks
  import opened Prose
  import opened ProseChain

  // ----- where a cut ends and where the next one begins -----

  /**
    * The end aimed at: the span's own when the target reaches it, else the preferred cut of the target's last quarter.
    */
  ghost predicate Aimed(text: bytes, start: nat, end: nat, target: nat, ideal: nat)
    requires end <= |text|
  {
    if start + target >= end then ideal == end
    else Best(text, start + target - target / 4, start + target, ideal)
  }

  /** There is no rune boundary in a+1..b. */
  ghost predicate NoneAligned(text: bytes, a: int, b: int) {
    forall k: nat :: a < k <= b ==> !Aligned(text, k)
  }

  /**
    * The last rune boundary behind `start` that is not behind `ideal`; when there is none, the end of one whole rune.
    */
  ghost predicate Snapped(text: bytes, start: nat, ideal: nat, e: int)
    requires start <= |text|
  {
    || (start < e <= ideal && Aligned(text, e) && NoneAligned(text, e, ideal))
    || (NoneAligned(text, start, ideal) && e == start + RuneLen(text, start))
  }

  /** One cut of the span up to `end`: it ends where it should, and is counted on its own text. */
  ghost predicate CutOk(text: bytes, end: nat, target: nat, est: Estimator, x: Cut)
    requires end <= |text|
  {
    && 0 <= x.start < end && x.tok == est(Slice(text, x.start, x.end))
    && exists ideal: nat :: Aimed(text, x.start, end, target, ideal) && Snapped(text, x.start, ideal, x.end)
  }

  /**
    * The next cut begins at the first rune boundary at or behind the place `overlap` bytes back, but behind the start.
    */
  ghost predicate NextOk(text: bytes, overlap: nat, x: Cut, y: Cut) {
    var from := Max(x.end - overlap, x.start + 1);
    from <= y.start && Aligned(text, y.start) && NoneAligned(text, from - 1, y.start - 1)
  }

  /** All cuts of the span from `pos` to `end`; the first one to reach `end` is the last. */
  ghost predicate ProseRun(text: bytes, pos: nat, end: nat, target: nat, overlap: nat, est: Estimator, cuts: seq<Cut>)
    requires end <= |text|
  {
    && cuts != [] && cuts[0].start == pos
    && (forall k :: 0 <= k < |cuts| ==> CutOk(text, end, target, est, cuts[k]))
    && (forall k :: 0 <= k < |cuts| - 1 ==> NextOk(text, overlap, cuts[k], cuts[k + 1]))
    && (forall k :: 0 <= k < |cuts| ==> (cuts[k].end >= end <==> k == |cuts| - 1))
  }

  // ----- the loop makes such a run -----

  lemma EndIsSnapped(text: bytes, start: nat, ideal: nat)
    requires start <= ideal <= |text|
    ensures Snapped(text, start, ideal, RuneEnd(text, start, ideal))
  {
    RuneFloorIsLast(text, start, ideal);
  }

  lemma FirstCutOk(text: bytes, pos: nat, end: nat, target: nat, est: Estimator)
    requires pos < end <= |text| && target >= 1
    ensures var e := ProseEnd(text, pos, end, target); CutOk(text, end, target, est, Cut(pos, e, est(text[pos..e])))
  {
    var ideal := if pos + target >= end then end else BoundaryBefore(text, pos, pos + target);
    if pos + target < end {
      BestInLastQuarter(text, pos, target);
    }
    assert Aimed(text, pos, end, target, ideal);
    EndIsSnapped(text, pos, ideal);
  }

  lemma FirstNextOk(text: bytes, overlap: nat, x: Cut, y: Cut)
    requires 0 <= x.start < x.end <= |text| && y.start == ProseNext(text, x.start, x.end, overlap)
    ensures NextOk(text, overlap, x, y)
  {
    var from := Max(x.end - overlap, x.start + 1);
    forall k: nat | from - 1 < k <= y.start - 1
      ensures !Aligned(text, k)
    {
      if Aligned(text, k) {
        RuneCeilIsFirst(text, from, k);
      }
    }
  }

  lemma RunCons(text: bytes, pos: nat, end: nat, target: nat, overlap: nat, est: Estimator, x: Cut, rest: seq<Cut>)
    requires end <= |text| && x.start == pos && CutOk(text, end, target, est, x)
    requires if rest == [] then x.end >= end
             else x.end < end && NextOk(text, overlap, x, rest[0]) && rest[0].start >= 0 &&
                  ProseRun(text, rest[0].start, end, target, overlap, est, rest)
    ensures ProseRun(text, pos, end, target, overlap, est, [x] + rest)
  {
    var cuts := [x] + rest;
    assert forall k :: 1 <= k < |cuts| ==> cuts[k] == rest[k - 1];
    forall k | 0 <= k < |cuts| - 1
      ensures NextOk(text, overlap, cuts[k], cuts[k + 1])
    {
      if k > 0 {
        assert NextOk(text, overlap, rest[k - 1], rest[k]);
      }
    }
  }

  /** For any target of at least one byte and any overlap. */
  lemma {:induction false} ProseCutsRun(text: bytes, pos: nat, end: nat, target: nat, overlap: nat, est: Estimator)
    requires NoStray(text) && Aligned(text, pos) && Aligned(text, end) && pos < end <= |text| && target >= 1
    ensures ProseRun(text, pos, end, target, overlap, est, ProseCuts(text, pos, end, target, overlap, est))
    decreases |text| - pos
  {
    var e := ProseEnd(text, pos, end, target);
    var x := Cut(pos, e, est(text[pos..e]));
    FirstCutOk(text, pos, end, target, est);
    ProseEndAligned(text, pos, end, target);
    if e < end {
      var next := ProseNext(text, pos, e, overlap);
      ProseNextLinks(text, pos, e, overlap);
      ProseCutsRun(text, next, end, target, overlap, est);
      var rest := ProseCuts(text, next, end, target, overlap, est);
      FirstNextOk(text, overlap, x, rest[0]);
      RunCons(text, pos, end, target, overlap, est, x, rest);
    } else {
      RunCons(text, pos, end, target, overlap, est, x, []);
      assert ProseCuts(text, pos, end, target, overlap, est) == [x] + [];
    }
  }

  // ----- there is only one such run -----

  lemma AimedIsUnique(text: bytes, start: nat, end: nat, target: nat, a: nat, b: nat)
    requires end <= |text| && Aimed(text, start, end, target, a) && Aimed(text, start, end, target, b)
    ensures a == b
  {
    if start + target < end {
      BestIsUnique(text, start + target - target / 4, start + target, a, b);
    }
  }

  lemma SnappedIsUnique(text: bytes, start: nat, ideal: nat, d: int, e: int)
    requires start <= |text| && Snapped(text, start, ideal, d) && Snapped(text, start, ideal, e)
    ensures d == e
  {
  }

  lemma CutIsUnique(text: bytes, end: nat, target: nat, est: Estimator, x: Cut, y: Cut)
    requires end <= |text| && CutOk(text, end, target, est, x) && CutOk(text, end, target, est, y) && x.start == y.start
    ensures x == y
  {
    var a: nat :| Aimed(text, x.start, end, target, a) && Snapped(text, x.start, a, x.end);
    var b: nat :| Aimed(text, y.start, end, target, b) && Snapped(text, y.start, b, y.end);
    AimedIsUnique(text, x.start, end, target, a, b);
    SnappedIsUnique(text, x.start, a, x.end, y.end);
  }

  lemma NextNotLater(text: bytes, overlap: nat, x: Cut, y: Cut, z: Cut)
    requires x.start >= 0 && NextOk(text, overlap, x, y) && NextOk(text, overlap, x, z)
    ensures z.start <= y.start
  {
    assert Aligned(text, y.start);
  }

  lemma RunTail(text: bytes, pos: nat, end: nat, target: nat, overlap: nat, est: Estimator, cuts: seq<Cut>)
    requires end <= |text| && ProseRun(text, pos, end, target, overlap, est, cuts) && |cuts| > 1
    ensures cuts[1].start >= 0 && ProseRun(text, cuts[1].start, end, target, overlap, est, cuts[1..])
  {
    var rest := cuts[1..];
    assert forall k :: 0 <= k < |rest| ==> rest[k] == cuts[k + 1];
    assert CutOk(text, end, target, est, cuts[1]);
    forall k | 0 <= k < |rest| - 1
      ensures NextOk(text, overlap, rest[k], rest[k + 1])
    {
      assert NextOk(text, overlap, cuts[k + 1], cuts[k + 1 + 1]);
    }
  }

  /** So these conditions say all there is to say of the loop. */
  lemma {:induction false} ProseRunIsUnique(text: bytes, pos: nat, end: nat, target: nat, overlap: nat, est: Estimator,
                                            cuts: seq<Cut>, other: seq<Cut>)
    requires end <= |text| && ProseRun(text, pos, end, target, overlap, est, cuts)
    requires ProseRun(text, pos, end, target, overlap, est, other)
    ensures cuts == other
    decreases |cuts|
  {
    assert CutOk(text, end, target, est, cuts[0]) && CutOk(text, end, target, est, other[0]);
    CutIsUnique(text, end, target, est, cuts[0], other[0]);
    assert |cuts| == 1 <==> |other| == 1;
    if |cuts| > 1 {
      assert NextOk(text, overlap, cuts[0], cuts[0 + 1]) && NextOk(text, overlap, other[0], other[0 + 1]);
      NextNotLater(text, overlap, cuts[0], cuts[1], other[1]);
      NextNotLater(text, overlap, cuts[0], other[1], cuts[1]);
      RunTail(text, pos, end, target, overlap, est, cuts);
      RunTail(text, pos, end, target, overlap, est, other);
      ProseRunIsUnique(text, cuts[1].start, end, target, overlap, est, cuts[1..], other[1..]);
      assert cuts == [cuts[0]] + cuts[1..] && other == [other[0]] + other[1..];
    }
  }

  // ----- sizes -----

  /** There is a rune boundary within four bytes of any place. */
  lemma BoundaryWithin(text: bytes, start: nat, ideal: nat)
    requires NoStray(text) && Aligned(text, start) && start < |text| && start <= ideal <= |text|
    requires NoneAligned(text, start, ideal)
    ensures ideal < start + RuneLen(text, start) <= start + 4
  {
    assert StepsWhole(text, start);
  }

  /** The last rune boundary at or before a place is less than four bytes back. */
  lemma SnapDistance(text: bytes, e: nat, ideal: nat)
    requires NoStray(text) && Aligned(text, e) && e <= ideal <= |text| && NoneAligned(text, e, ideal)
    ensures ideal - e <= 3
  {
    if e < |text| {
      BoundaryWithin(text, e, ideal);
    }
  }

  /**
    * Each cut but the last takes at least the target, less its last quarter and less one rune; none takes more than it
    * and one rune.
    */
  lemma ProseCutSizes(text: bytes, pos: nat, end: nat, target: nat, overlap: nat, est: Estimator, k: nat)
    requires NoStray(text) && Aligned(text, pos) && Aligned(text, end) && pos < end <= |text| && target >= 1
    requires k < |ProseCuts(text, pos, end, target, overlap, est)|
    ensures var cuts := ProseCuts(text, pos, end, target, overlap, est);
            var size := cuts[k].end - cuts[k].start;
            size <= Max(target, 4) && (k < |cuts| - 1 ==> target - target / 4 - 3 <= size)
  {
    var cuts := ProseCuts(text, pos, end, target, overlap, est);
    ProseCutsRun(text, pos, end, target, overlap, est);
    ProseIsChain(text, pos, end, target, overlap, est, Covering);
    assert CutOk(text, end, target, est, cuts[k]) && cuts[k] in cuts;
    CutSize(text, end, target, est, cuts[k]);
  }

  lemma CutSize(text: bytes, end: nat, target: nat, est: Estimator, x: Cut)
    requires NoStray(text) && Aligned(text, x.start) && Aligned(text, end) && 0 <= x.start < end <= |text| &&
             target >= 1
    requires CutOk(text, end, target, est, x)
    ensures x.end - x.start <= Max(target, 4) && (x.end < end ==> target - target / 4 - 3 <= x.end - x.start)
  {
    var ideal: nat :| Aimed(text, x.start, end, target, ideal) && Snapped(text, x.start, ideal, x.end);
    if NoneAligned(text, x.start, ideal) {
      BoundaryWithin(text, x.start, ideal);
    } else {
      SnapDistance(text, x.end, ideal);
    }
  }

  // ----- hardSplitProse -----

  /**
    * A whole prose split: such a run, for the byte window that the token budget makes at the span's own ratio and for
    * the overlap that the overlap budget makes, but at least one byte and none.
    */
  lemma ProseSplitRuns(text: bytes, start: nat, end: nat, maxTok: int, overlapTok: int, est: Estimator)
      returns (target: nat, overlap: nat)
    requires NoStray(text) && Aligned(text, start) && Aligned(text, end) && start < end <= |text|
    ensures var total := if est(text[start..end]) > 1 then est(text[start..end]) else 1;
            var window, back := Window(maxTok, end - start, total), Window(overlapTok, end - start, total);
            && target == (if window > 1 then window else 1) && overlap == (if back > 0 then back else 0)
            && ProseRun(text, start, end, target, overlap, est, ProseSplit(text, start, end, maxTok, overlapTok, est))
  {
    target, overlap := Target(text, start, end, maxTok, est), Overlap(text, start, end, overlapTok, est);
    ProseCutsRun(text, start, end, target, overlap, est);
  }
}
