/** Segmentation at blank lines: the default Boundaries function. */
module Paragraphs {
  import opened Utf8
  import opened Cuts

  /** The length of the newline that stands at `i`: LF is 1, CR LF is 2, anything else 0. */
  function NewlineLen(text: bytes, i: nat): nat
    requires i <= |text|
  {
    if i < |text| && text[i] == LF then 1
    else if i + 1 < |text| && text[i] == CR && text[i + 1] == LF then 2
    else 0
  }

  /**
    * A maximal run of two or more newlines ends at `e`, looking back no further than `lo`:
    * a newline ends here, another one ends right before it, and no newline follows.
    */
  predicate BreakAt(text: bytes, lo: nat, e: int) {
    && lo + 2 <= e <= |text|
    && text[e - 1] == LF
    && (text[e - 2] == LF || (lo + 3 <= e && text[e - 2] == CR && text[e - 3] == LF))
    && NewlineLen(text, e) == 0
  }

  /** Two newlines stand in a row from `a` to `e`, and none behind them. */
  predicate TwoNewlines(text: bytes, a: nat, b: nat, e: nat) {
    && a < b < e <= |text|
    && NewlineLen(text, a) == b - a && NewlineLen(text, b) == e - b && NewlineLen(text, e) == 0
  }

  lemma BreakAtIff(text: bytes, lo: nat, e: nat)
    ensures BreakAt(text, lo, e) <==> exists a: nat, b: nat :: lo <= a && TwoNewlines(text, a, b, e)
  {
    if BreakAt(text, lo, e) {
      if text[e - 2] == LF {
        assert TwoNewlines(text, e - 2, e - 1, e);
      } else {
        assert TwoNewlines(text, e - 3, e - 2, e);
      }
    }
  }

  /** The first break after `i`, or -1. */
  function FirstBreak(text: bytes, lo: nat, i: nat): (e: int)
    requires i <= |text|
    ensures e == -1 || (i <= e <= |text| && BreakAt(text, lo, e))
    ensures forall k :: i <= k <= |text| && (e < 0 || k < e) ==> !BreakAt(text, lo, k)
    decreases |text| - i
  {
    if BreakAt(text, lo, i) then i
    else if i == |text| then -1
    else FirstBreak(text, lo, i + 1)
  }

  /** `text[a..b]` is a run of newlines. */
  predicate NewlineRun(text: bytes, a: nat, b: nat)
    requires a <= b <= |text|
    decreases b - a
  {
    a == b || (NewlineLen(text, a) > 0 && a + NewlineLen(text, a) <= b && NewlineRun(text, a + NewlineLen(text, a), b))
  }

  /** The run of newlines that begins at `i`: how many there are and where it ends. */
  method CountNewlines(text: bytes, i: nat) returns (count: nat, end: nat)
    requires i <= |text|
    ensures i <= end <= |text| && NewlineRun(text, i, end) && NewlineLen(text, end) == 0
    ensures count == 0 <==> end == i
    ensures count == 1 ==> end == i + NewlineLen(text, i)
    ensures count >= 2 ==> BreakAt(text, i, end)
    ensures forall k :: i < k < end ==> text[k - 1] == LF ==> NewlineLen(text, k) > 0
  {
    end, count := i, 0;
    while end < |text|
      invariant i <= end <= |text| && NewlineRun(text, i, end)
      invariant count == 0 <==> end == i
      invariant count == 1 ==> end == i + NewlineLen(text, i)
      invariant end > i ==> text[end - 1] == LF
      invariant count >= 2 ==> end >= i + 2
      invariant count >= 2 ==> text[end - 2] == LF || (end - 3 >= i && text[end - 2] == CR && text[end - 3] == LF)
      invariant forall k :: i < k < end ==> text[k - 1] == LF ==> NewlineLen(text, k) > 0
      decreases |text| - end
    {
      var j := end;
      if j < |text| && text[j] == CR {
        j := j + 1;
      }
      if j < |text| && text[j] == LF {
        NewlineRunExtend(text, i, end, j + 1);
        count := count + 1;
        end := j + 1;
        continue;
      }
      break;
    }
  }

  lemma {:induction false} NewlineRunExtend(text: bytes, a: nat, b: nat, c: nat)
    requires a <= b < c <= |text| && NewlineRun(text, a, b) && NewlineLen(text, b) == c - b
    ensures NewlineRun(text, a, c)
    decreases b - a
  {
    if a < b {
      NewlineRunExtend(text, a + NewlineLen(text, a), b, c);
    } else {
      assert NewlineRun(text, c, c);
    }
  }

  /** No break ends at or before `i`. */
  ghost predicate NoBreakUpTo(text: bytes, pos: nat, i: int) {
    forall k :: pos <= k <= i && k <= |text| ==> !BreakAt(text, pos, k)
  }

  method NextBlankLine(text: bytes, pos: nat) returns (sep: int, runEnd: int)
    requires pos <= |text|
    ensures runEnd == FirstBreak(text, pos, pos)
    ensures runEnd < 0 ==> sep == -1
    ensures runEnd >= 0 ==> pos <= sep < runEnd && NewlineRun(text, sep, runEnd)
    ensures runEnd >= 0 ==> sep == pos || text[sep - 1] != LF
  {
    var i := pos;
    while i < |text|
      invariant pos <= i <= |text|
      invariant NoBreakUpTo(text, pos, i)
      invariant i > pos && text[i - 1] == LF ==> NewlineLen(text, i) == 0
      invariant i > pos + 1 && text[i - 2] == LF ==> NewlineLen(text, i - 1) == 0
    {
      if text[i] != LF {
        i := i + 1;
        continue;
      }
      var count, end := CountNewlines(text, i);
      if count >= 2 {
        FirstBreakIs(text, pos, i, end);
        var s := i;
        if s > pos && text[s - 1] == CR {
          s := s - 1;
        }
        return s, end;
      }
      i := end;
    }
    return -1, -1;
  }

  lemma FirstBreakIs(text: bytes, pos: nat, i: nat, end: nat)
    requires pos <= i < end <= |text|
    requires NoBreakUpTo(text, pos, i) && BreakAt(text, i, end)
    requires forall k :: i < k < end ==> text[k - 1] == LF ==> NewlineLen(text, k) > 0
    ensures end == FirstBreak(text, pos, pos)
  {
    assert BreakAt(text, pos, end);
  }

  // ----- the segmentation -----

  /** The end of the paragraph that begins at `start`. */
  function ParagraphEnd(text: bytes, start: nat): (e: nat)
    requires start < |text|
    ensures start < e <= |text|
  {
    var e := FirstBreak(text, start, start);
    if e < 0 then |text| else e
  }

  function UnitsFrom(text: bytes, start: nat): seq<Unit>
    requires start <= |text|
    decreases |text| - start
  {
    if start == |text| then []
    else [Unit(start, ParagraphEnd(text, start))] + UnitsFrom(text, ParagraphEnd(text, start))
  }

  function ParagraphUnits(text: bytes): seq<Unit> {
    UnitsFrom(text, 0)
  }

  method Paragraphs(text: bytes) returns (units: seq<Unit>)
    ensures units == ParagraphUnits(text)
  {
    if text == [] {
      return [];
    }
    units := [];
    var start := 0;
    while start < |text|
      invariant 0 <= start <= |text|
      invariant units + UnitsFrom(text, start) == ParagraphUnits(text)
    {
      var sep, runEnd := NextBlankLine(text, start);
      var end := if sep < 0 then |text| else runEnd;
      assert UnitsFrom(text, start) == [Unit(start, end)] + UnitsFrom(text, end);
      units := units + [Unit(start, end)];
      if sep < 0 {
        assert UnitsFrom(text, end) == [];
        return;
      }
      start := runEnd;
    }
  }

  // ----- what the segmentation is -----

  /** The interior cuts are exactly the ends of the blank-line runs of the text. */
  ghost predicate CutsAtBreaks(text: bytes, lo: nat, units: seq<Unit>) {
    forall e :: lo < e < |text| ==> ((exists u :: u in units && u.End == e) <==> BreakAt(text, 0, e))
  }

  /** A position a unit can start at: the beginning of the text, or behind a break. */
  predicate UnitStart(text: bytes, i: nat) {
    i == 0 || BreakAt(text, 0, i)
  }

  /** A run never reaches back across a unit start, so looking back to it is looking back to the beginning. */
  lemma BreakIsLocal(text: bytes, lo: nat, e: nat)
    requires UnitStart(text, lo) && lo < e
    ensures BreakAt(text, lo, e) == BreakAt(text, 0, e)
  {
  }

  lemma {:induction false} UnitsFromCanonical(text: bytes, start: nat)
    requires start <= |text| && (start == |text| || UnitStart(text, start))
    ensures Tiles(start, |text|, UnitsFrom(text, start))
    ensures CutsAtBreaks(text, start, UnitsFrom(text, start))
    decreases |text| - start
  {
    if start < |text| {
      var end := ParagraphEnd(text, start);
      var rest := UnitsFrom(text, end);
      var units := UnitsFrom(text, start);
      assert units == [Unit(start, end)] + rest && units[1..] == rest;
      BreakIsLocal(text, start, end);
      UnitsFromCanonical(text, end);
      forall e | start < e < |text|
        ensures (exists u :: u in units && u.End == e) <==> BreakAt(text, 0, e)
      {
        BreakIsLocal(text, start, e);
        if e == end {
          assert units[0] in units;
        } else {
          EndIn(units, rest, e);
          if e < end {
            TilesAbove(text, end, rest, e);
          }
        }
      }
    }
  }

  lemma EndIn(units: seq<Unit>, rest: seq<Unit>, e: int)
    requires units != [] && units[1..] == rest && units[0].End != e
    ensures (exists u :: u in units && u.End == e) <==> (exists u :: u in rest && u.End == e)
  {
    assert units == [units[0]] + rest;
  }

  lemma {:induction false} TilesAbove(text: bytes, lo: nat, units: seq<Unit>, e: int)
    requires Tiles(lo, |text|, units) && e <= lo
    ensures !exists u :: u in units && u.End == e
    decreases |units|
  {
    if units != [] {
      TilesAbove(text, units[0].End, units[1..], e);
      EndIn(units, units[1..], e);
    }
  }

  /** Paragraphs tiles every text, and cuts it at every maximal blank-line run and nowhere else. */
  lemma ParagraphsCanonical(text: bytes)
    ensures Tiles(0, |text|, ParagraphUnits(text)) && CutsAtBreaks(text, 0, ParagraphUnits(text))
  {
    UnitsFromCanonical(text, 0);
  }

  /** No other segmentation has that shape. */
  lemma {:induction false} CanonicalIsUnique(text: bytes, lo: nat, u: seq<Unit>, v: seq<Unit>)
    requires Tiles(lo, |text|, u) && CutsAtBreaks(text, lo, u)
    requires Tiles(lo, |text|, v) && CutsAtBreaks(text, lo, v)
    ensures u == v
    decreases |u|
  {
    TilesBound(lo, |text|, u);
    TilesBound(lo, |text|, v);
    if u != [] && v != [] {
      FirstEndsAgree(text, lo, u, v);
      FirstEndsAgree(text, lo, v, u);
      CutsTail(text, lo, u);
      CutsTail(text, lo, v);
      CanonicalIsUnique(text, u[0].End, u[1..], v[1..]);
      assert u == [u[0]] + u[1..] && v == [v[0]] + v[1..];
    }
  }

  lemma FirstEndsAgree(text: bytes, lo: nat, u: seq<Unit>, v: seq<Unit>)
    requires u != [] && v != []
    requires Tiles(lo, |text|, u) && CutsAtBreaks(text, lo, u)
    requires Tiles(lo, |text|, v) && CutsAtBreaks(text, lo, v)
    ensures v[0].End <= u[0].End
  {
    var e := u[0].End;
    assert u[0] in u;
    TilesBound(lo, |text|, v);
    assert e < |text| ==> BreakAt(text, 0, e);
    if e < v[0].End {
      EndIn(v, v[1..], e);
      TilesAbove(text, v[0].End, v[1..], e);
    }
  }

  lemma CutsTail(text: bytes, lo: nat, u: seq<Unit>)
    requires u != [] && Tiles(lo, |text|, u) && CutsAtBreaks(text, lo, u)
    ensures CutsAtBreaks(text, u[0].End, u[1..])
  {
    forall e | u[0].End < e < |text|
      ensures (exists x :: x in u[1..] && x.End == e) <==> BreakAt(text, 0, e)
    {
      EndIn(u, u[1..], e);
    }
  }

  /** Paragraphs is the only segmentation that cuts at exactly the blank-line runs. */
  lemma ParagraphsUnique(text: bytes, units: seq<Unit>)
    requires Tiles(0, |text|, units) && CutsAtBreaks(text, 0, units)
    ensures units == ParagraphUnits(text)
  {
    ParagraphsCanonical(text);
    CanonicalIsUnique(text, 0, units, ParagraphUnits(text));
  }
}
