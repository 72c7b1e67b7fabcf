/** The heading scanner's fence tracking agrees with the fence grouping, and its sections tile the text. */
module HeadingSections {
  import opened Basics
  import opened Utf8
  import opened Lines
  import opened Cuts
  import opened CodeSplit
  import opened Headings
  import opened HardSplit

  // ----- starts are strictly ascending, so the duplicate guard never fires -----

  /** The least start that can still be recorded. */
  function Floor(i: nat, s: Scan): nat {
    if s.AfterParagraph? then s.prev else i
  }

  /** All entries lie in lo..hi. */
  ghost predicate Between(starts: seq<nat>, lo: nat, hi: nat) {
    forall k :: 0 <= k < |starts| ==> lo <= starts[k] < hi
  }

  /** What one line reveals lies between what can have come before and what can still come. */
  lemma RevealsBetween(line: bytes, i: nat, next: nat, s: Scan)
    requires i < next && (s.AfterParagraph? ==> s.prev < i)
    ensures |Reveals(line, i, s)| <= 1 && Floor(i, s) <= Floor(next, ScanLine(line, i, s))
    ensures Between(Reveals(line, i, s), Floor(i, s), Floor(next, ScanLine(line, i, s)))
    ensures ScanLine(line, i, s).AfterParagraph? ==> ScanLine(line, i, s).prev < next
  {
  }

  lemma {:induction false} StartsAscend(text: bytes, i: nat, s: Scan)
    requires i <= |text| && (s.AfterParagraph? ==> s.prev < i)
    ensures Ascending(StartsFrom(text, i, s)) && Between(StartsFrom(text, i, s), Floor(i, s), |text|)
    decreases |text| - i
  {
    if i < |text| {
      var line, next := LineContent(text, i, |text|), LineNext(text, i, |text|);
      var s' := ScanLine(line, i, s);
      StartsAscend(text, next, s');
      RevealsBetween(line, i, next, s);
      AscendCons(Reveals(line, i, s), StartsFrom(text, next, s'), Floor(i, s), Floor(next, s'), |text|);
    }
  }

  lemma AscendCons(a: seq<nat>, b: seq<nat>, lo: nat, mid: nat, hi: nat)
    requires |a| <= 1 && Ascending(b) && Between(a, lo, mid) && Between(b, mid, hi) && lo <= mid &&
             (a != [] ==> mid <= hi)
    ensures Ascending(a + b) && Between(a + b, lo, hi)
  {
  }

  // ----- the sections tile the text -----

  lemma {:induction false} SectionsTile(starts: seq<nat>, total: nat)
    requires starts != [] && Ascending(starts) && starts[|starts| - 1] < total
    ensures Tiles(starts[0], total, Sections(starts, total))
    decreases |starts|
  {
    var rest := Sections(starts[1..], total);
    assert Sections(starts, total)[1..] == rest;
    if |starts| > 1 {
      SectionsTile(starts[1..], total);
    } else {
      assert rest == [];
    }
  }

  lemma UnitsOfStartsTile(starts: seq<nat>, total: nat)
    requires starts != [] && Ascending(starts) && starts[|starts| - 1] < total
    ensures Tiles(0, total, UnitsOfStarts(starts, total))
  {
    SectionsTile(starts, total);
    if starts[0] > 0 {
      assert UnitsOfStarts(starts, total)[1..] == Sections(starts, total);
    } else {
      assert UnitsOfStarts(starts, total) == Sections(starts, total);
    }
  }

  lemma HeadingStartsAscend(text: bytes)
    ensures Ascending(HeadingStarts(text))
    ensures forall k :: 0 <= k < |HeadingStarts(text)| ==> HeadingStarts(text)[k] < |text|
  {
    StartsAscend(text, 0, Plain);
  }

  /** Headings tiles every non-empty text that has a heading; without one, Paragraphs does. */
  lemma HeadingsTile(text: bytes)
    requires HeadingStarts(text) != []
    ensures Tiles(0, |text|, HeadingUnits(text))
  {
    HeadingStartsAscend(text);
    UnitsOfStartsTile(HeadingStarts(text), |text|);
  }

  // ----- reaching a region boundary -----

  /** The grouping's cursor, started at region start `a`, comes to stand at `m`. */
  predicate Reaches(text: bytes, a: nat, b: nat, m: nat)
    requires a <= b <= |text|
    decreases b - a
  {
    a == m || (a < b && Reaches(text, RegionEnd(text, a, b), b, m))
  }

  lemma {:induction false} ReachesForward(text: bytes, a: nat, b: nat, m: nat)
    requires a <= b <= |text| && Reaches(text, a, b, m)
    ensures a <= m <= b
    decreases b - a
  {
    if a != m {
      ReachesForward(text, RegionEnd(text, a, b), b, m);
    }
  }

  lemma {:induction false} ReachesEnd(text: bytes, a: nat, b: nat)
    requires a <= b <= |text|
    ensures Reaches(text, a, b, b)
    decreases b - a
  {
    if a < b {
      ReachesEnd(text, RegionEnd(text, a, b), b);
    }
  }

  /** Of two reached positions the earlier one reaches the later one. */
  lemma {:induction false} ReachesLater(text: bytes, a: nat, b: nat, m: nat, m': nat)
    requires a <= b <= |text| && Reaches(text, a, b, m) && Reaches(text, a, b, m') && m < m'
    ensures m <= b && Reaches(text, m, b, m')
    decreases b - a
  {
    ReachesForward(text, a, b, m);
    if a != m {
      ReachesLater(text, RegionEnd(text, a, b), b, m, m');
    }
  }

  // ----- cutting at a region boundary splits the grouping -----

  lemma {:induction false} FenceEndWithin(text: bytes, i: nat, m: nat, b: nat, ch: byte, n: nat)
    requires i <= m <= b <= |text| && (m == b || (m > 0 && text[m - 1] == LF))
    requires FenceEnd(text, i, b, ch, n) <= m
    ensures FenceEnd(text, i, m, ch, n) == FenceEnd(text, i, b, ch, n)
    decreases m - i
  {
    if i < m {
      LineWithin(text, i, m, b);
      if !Closes(LineContent(text, i, b), ch, n) {
        FenceEndWithin(text, LineNext(text, i, b), m, b, ch, n);
      }
    }
  }

  lemma RegionWithin(text: bytes, i: nat, m: nat, b: nat)
    requires i < m <= b <= |text| && (m == b || text[m - 1] == LF) && RegionEnd(text, i, b) <= m
    ensures RegionEnd(text, i, m) == RegionEnd(text, i, b)
    ensures LineContent(text, i, m) == LineContent(text, i, b)
  {
    LineWithin(text, i, m, b);
    var k := FenceMarkerOf(LineContent(text, i, b));
    if k.Fence? {
      FenceEndWithin(text, LineNext(text, i, b), m, b, k.ch, k.n);
    }
  }

  lemma {:induction false} GroupsSplit(text: bytes, a: nat, m: nat, b: nat)
    requires a <= m <= b <= |text| && Reaches(text, a, b, m) && (m == b || LineStart(text, a, m))
    ensures Groups(text, a, b) == Groups(text, a, m) + Groups(text, m, b)
    decreases b - a
  {
    if a < m {
      var e := RegionEnd(text, a, b);
      ReachesForward(text, e, b, m);
      RegionWithin(text, a, m, b);
      GroupsSplit(text, e, m, b);
      GroupsFirst(text, a, b);
      GroupsFirst(text, a, m);
      var g := CodeSpan(a, e, IsFenceOpen(LineContent(text, a, b)));
      FirstThenBoth(g, Groups(text, e, m), Groups(text, m, b));
    } else {
      assert Groups(text, a, a) == [];
    }
  }

  lemma FirstThenBoth(g: CodeSpan, x: seq<CodeSpan>, y: seq<CodeSpan>)
    ensures [g] + (x + y) == ([g] + x) + y
  {
  }

  lemma GroupsFirst(text: bytes, a: nat, b: nat)
    requires a < b <= |text|
    ensures Groups(text, a, b) ==
            [CodeSpan(a, RegionEnd(text, a, b), IsFenceOpen(LineContent(text, a, b)))] +
            Groups(text, RegionEnd(text, a, b), b)
  {
  }

  lemma {:induction false} ReachedAtLine(text: bytes, lo: nat, a: nat, b: nat, m: nat)
    requires lo <= a <= b <= |text| && (a == b || LineStart(text, lo, a)) && Reaches(text, a, b, m)
    ensures m == b || LineStart(text, lo, m)
    decreases b - a
  {
    if a != m {
      RegionEndAtLine(text, lo, a, b);
      ReachedAtLine(text, lo, RegionEnd(text, a, b), b, m);
    }
  }

  // ----- the scanner stands at region boundaries whenever it is outside fences -----

  /** Inside a fence the scanner records nothing and comes out where the grouping says the block ends. */
  lemma {:induction false} ScannerLeavesFence(text: bytes, i: nat, ch: byte, n: nat)
    requires i <= |text|
    ensures StartsFrom(text, i, InFence(ch, n)) == StartsFrom(text, FenceEnd(text, i, |text|, ch, n), Plain)
    decreases |text| - i
  {
    if i < |text| {
      var line, next := LineContent(text, i, |text|), LineNext(text, i, |text|);
      InsideFence(text, i, line, ch, n);
      if !Closes(line, ch, n) {
        ScannerLeavesFence(text, next, ch, n);
      }
    }
  }

  /** One line inside a fence reveals nothing, and leads out of the fence exactly when it closes it. */
  lemma InsideFence(text: bytes, i: nat, line: bytes, ch: byte, n: nat)
    requires i < |text| && line == LineContent(text, i, |text|)
    ensures StartsFrom(text, i, InFence(ch, n)) ==
            StartsFrom(text, LineNext(text, i, |text|), if Closes(line, ch, n) then Plain else InFence(ch, n))
    ensures FenceEnd(text, i, |text|, ch, n) ==
            if Closes(line, ch, n) then LineNext(text, i, |text|)
            else FenceEnd(text, LineNext(text, i, |text|), |text|, ch, n)
  {
    var s' := ScanLine(line, i, InFence(ch, n));
    assert Reveals(line, i, InFence(ch, n)) == [];
    assert StartsFrom(text, i, InFence(ch, n)) == [] + StartsFrom(text, LineNext(text, i, |text|), s');
  }

  /** One region at a time: a fenced block is passed over, any other line is judged on its own. */
  lemma ScannerStep(text: bytes, i: nat, s: Scan)
    requires i < |text| && !s.InFence?
    ensures var line := LineContent(text, i, |text|);
            StartsFrom(text, i, s) == Reveals(line, i, s) +
              StartsFrom(text, RegionEnd(text, i, |text|), if IsFenceOpen(line) then Plain else ScanLine(line, i, s))
  {
    var line := LineContent(text, i, |text|);
    if IsFenceOpen(line) {
      var m := FenceMarkerOf(line);
      ScannerLeavesFence(text, LineNext(text, i, |text|), m.ch, m.n);
    }
  }

  /** Every recorded start is a position the grouping's cursor stands at. */
  lemma {:induction false} StartsAreReached(text: bytes, lo: nat, i: nat, s: Scan)
    requires lo <= i <= |text| && !s.InFence?
    requires Reaches(text, lo, |text|, i) && (s.AfterParagraph? ==> Reaches(text, lo, |text|, s.prev))
    ensures forall x :: x in StartsFrom(text, i, s) ==> Reaches(text, lo, |text|, x)
    decreases |text| - i
  {
    if i < |text| {
      var line := LineContent(text, i, |text|);
      ScannerStep(text, i, s);
      ReachesOneMore(text, lo, i);
      StartsAreReached(text, lo, RegionEnd(text, i, |text|), if IsFenceOpen(line) then Plain else ScanLine(line, i, s));
    }
  }

  lemma {:induction false} ReachesOneMore(text: bytes, a: nat, i: nat)
    requires a <= |text| && Reaches(text, a, |text|, i) && i < |text|
    ensures Reaches(text, a, |text|, RegionEnd(text, i, |text|))
    decreases |text| - a
  {
    if a != i {
      ReachesOneMore(text, RegionEnd(text, a, |text|), i);
    } else {
      assert Reaches(text, RegionEnd(text, i, |text|), |text|, RegionEnd(text, i, |text|));
    }
  }

  /** No section starts inside a fenced block: each start is the start of one of the text's regions. */
  lemma HeadingStartsAreRegions(text: bytes)
    ensures AllReached(text, HeadingStarts(text))
  {
    StartsAreReached(text, 0, 0, Plain);
    HeadingStartsAscend(text);
    forall k | 0 <= k < |HeadingStarts(text)|
      ensures Reaches(text, 0, |text|, HeadingStarts(text)[k])
    {
      assert HeadingStarts(text)[k] in StartsFrom(text, 0, Plain);
    }
  }

  ghost predicate AllReached(text: bytes, starts: seq<nat>) {
    forall k :: 0 <= k < |starts| ==> starts[k] < |text| && Reaches(text, 0, |text|, starts[k])
  }

  // ----- grouping section by section is grouping the whole -----

  /** The regions of each unit in turn. */
  function GroupsOfUnits(text: bytes, units: seq<Unit>): seq<CodeSpan> {
    if units == [] then []
    else
      (if 0 <= units[0].Start <= units[0].End <= |text| then Groups(text, units[0].Start, units[0].End) else []) +
      GroupsOfUnits(text, units[1..])
  }

  lemma GroupsSplitAt(text: bytes, a: nat, m: nat)
    requires a < m <= |text| && LineStart(text, 0, a) && Reaches(text, 0, |text|, a) && Reaches(text, 0, |text|, m)
    ensures Groups(text, a, |text|) == Groups(text, a, m) + Groups(text, m, |text|)
  {
    ReachesLater(text, 0, |text|, a, m);
    ReachedAtLine(text, a, a, |text|, m);
    GroupsSplit(text, a, m, |text|);
  }

  lemma {:induction false} SectionGroups(text: bytes, starts: seq<nat>)
    requires starts != [] && Ascending(starts) && AllReached(text, starts)
    ensures GroupsOfUnits(text, Sections(starts, |text|)) == Groups(text, starts[0], |text|)
    decreases |starts|
  {
    var units := Sections(starts, |text|);
    var rest := Sections(starts[1..], |text|);
    assert units[1..] == rest;
    ReachedAtLine(text, 0, 0, |text|, starts[0]);
    if |starts| > 1 {
      SectionGroups(text, starts[1..]);
      GroupsSplitAt(text, starts[0], starts[1]);
    } else {
      assert rest == [];
    }
  }

  lemma UnitsOfStartsGroups(text: bytes, starts: seq<nat>)
    requires starts != [] && Ascending(starts) && AllReached(text, starts)
    ensures GroupsOfUnits(text, UnitsOfStarts(starts, |text|)) == Groups(text, 0, |text|)
  {
    SectionGroups(text, starts);
    var sections := Sections(starts, |text|);
    if starts[0] > 0 {
      GroupsSplitAt(text, 0, starts[0]);
      PreambleGroups(text, starts[0], sections);
    } else {
      assert UnitsOfStarts(starts, |text|) == sections;
    }
  }

  lemma PreambleGroups(text: bytes, m: nat, sections: seq<Unit>)
    requires m <= |text|
    ensures GroupsOfUnits(text, [Unit(0, m)] + sections) == Groups(text, 0, m) + GroupsOfUnits(text, sections)
  {
    assert ([Unit(0, m)] + sections)[1..] == sections;
  }

  /**
    * Fence grouping commutes with heading cuts: when there is a heading, grouping every section on its own
    * and joining the results is grouping the whole text.
    */
  lemma GroupingCommutesWithHeadings(text: bytes)
    requires HeadingStarts(text) != []
    ensures GroupsOfUnits(text, HeadingUnits(text)) == Groups(text, 0, |text|)
  {
    HeadingStartsAscend(text);
    HeadingStartsAreRegions(text);
    UnitsOfStartsGroups(text, HeadingStarts(text));
  }
}
