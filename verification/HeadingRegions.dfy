/**
  * What a section start is, said of the list of fence regions alone, and the proof that the scanner finds exactly
  * those.
  */
module HeadingRegions {
  import opened Utf8
  import opened Space
  import opened Lines
  import opened Paragraphs
  import opened CodeSplit
  import opened Headings
  import opened HeadingSections

  /** The first line of a region. */
  function RegionLine(text: bytes, g: CodeSpan): bytes {
    if g.start < |text| then LineContent(text, g.start, |text|) else []
  }

  /** Region `k` is a line that an underline directly below would turn into a heading. */
  predicate IsParagraph(text: bytes, groups: seq<CodeSpan>, k: nat)
    requires k < |groups|
    decreases k
  {
    var line := RegionLine(text, groups[k]);
    && !groups[k].fence && AtxLevelOf(line) == 0 && !IsBlank(line)
    && !(SetextUnderlineOf(line) && k > 0 && IsParagraph(text, groups, k - 1))
  }

  /** Region `k` underlines the paragraph line before it. */
  predicate IsUnderline(text: bytes, groups: seq<CodeSpan>, k: nat)
    requires k < |groups|
  {
    var line := RegionLine(text, groups[k]);
    !groups[k].fence && AtxLevelOf(line) == 0 && SetextUnderlineOf(line) && k > 0 && IsParagraph(text, groups, k - 1)
  }

  /** Region `k` leads a section: an ATX heading outside fences, or a paragraph line with an underline below it. */
  predicate LeadsSection(text: bytes, groups: seq<CodeSpan>, k: nat)
    requires k < |groups|
  {
    || (!groups[k].fence && AtxLevelOf(RegionLine(text, groups[k])) > 0)
    || (k + 1 < |groups| && IsUnderline(text, groups, k + 1))
  }

  /** The starts of the section-leading regions from region `k` on, in order. */
  function SectionStarts(text: bytes, groups: seq<CodeSpan>, k: nat): seq<nat>
    requires k <= |groups|
    decreases |groups| - k
  {
    if k == |groups| then []
    else (if LeadsSection(text, groups, k) then [groups[k].start] else []) + SectionStarts(text, groups, k + 1)
  }

  /**
    * A region list read off the text: each region is where the grouping's cursor stands, and the next one follows it.
    */
  lemma {:induction false} ListedRegion(text: bytes, i: nat, k: nat)
    requires i <= |text| && k < |Groups(text, i, |text|)|
    ensures var groups := Groups(text, i, |text|);
            var g := groups[k];
            && g.start < |text|
            && g.fence == IsFenceOpen(LineContent(text, g.start, |text|))
            && RegionEnd(text, g.start, |text|) == if k + 1 < |groups| then groups[k + 1].start else |text|
    decreases k
  {
    var e := RegionEnd(text, i, |text|);
    GroupsFirst(text, i, |text|);
    var rest := Groups(text, e, |text|);
    if k > 0 {
      ListedRegion(text, e, k - 1);
    } else if rest != [] {
      GroupsFirst(text, e, |text|);
    } else {
      assert e == |text|;
    }
  }

  /** The scanner's state in front of region `k`. */
  function StateAt(text: bytes, groups: seq<CodeSpan>, k: nat): Scan
    requires k <= |groups|
  {
    if k > 0 && IsParagraph(text, groups, k - 1) then AfterParagraph(groups[k - 1].start) else Plain
  }

  /** The start an underline in region `k` would reveal late. */
  function Pending(text: bytes, groups: seq<CodeSpan>, k: nat): seq<nat>
    requires k <= |groups|
  {
    if k < |groups| && IsUnderline(text, groups, k) then [groups[k - 1].start] else []
  }

  function StartOf(text: bytes, groups: seq<CodeSpan>, k: nat): nat
    requires k <= |groups|
  {
    if k == |groups| then |text| else groups[k].start
  }

  /** One region: what the scanner records now and what it leaves pending is what the definition says of the region. */
  lemma RegionStep(text: bytes, groups: seq<CodeSpan>, k: nat)
    requires k < |groups| && groups[k].start < |text|
    requires groups[k].fence == IsFenceOpen(RegionLine(text, groups[k]))
    ensures var line := RegionLine(text, groups[k]);
            var s := StateAt(text, groups, k);
            && Reveals(line, groups[k].start, s) + Pending(text, groups, k + 1) ==
               Pending(text, groups, k) + (if LeadsSection(text, groups, k) then [groups[k].start] else [])
            && (if IsFenceOpen(line) then Plain else ScanLine(line, groups[k].start, s)) == StateAt(text, groups, k + 1)
  {
  }

  lemma {:induction false} ScannerFollowsRegions(text: bytes, k: nat)
    requires k <= |Groups(text, 0, |text|)|
    ensures var groups := Groups(text, 0, |text|);
            var i := StartOf(text, groups, k);
            i <= |text| && StartsFrom(text, i, StateAt(text, groups, k)) ==
                           Pending(text, groups, k) + SectionStarts(text, groups, k)
    decreases |Groups(text, 0, |text|)| - k
  {
    var groups := Groups(text, 0, |text|);
    if k < |groups| {
      ListedRegion(text, 0, k);
      ScannerStep(text, groups[k].start, StateAt(text, groups, k));
      ScannerFollowsRegions(text, k + 1);
      RegionStep(text, groups, k);
      JoinStarts(Reveals(RegionLine(text, groups[k]), groups[k].start, StateAt(text, groups, k)),
                 Pending(text, groups, k + 1), Pending(text, groups, k),
                 if LeadsSection(text, groups, k) then [groups[k].start] else [], SectionStarts(text, groups, k + 1));
    }
  }

  lemma JoinStarts(a: seq<nat>, b: seq<nat>, c: seq<nat>, d: seq<nat>, rest: seq<nat>)
    requires a + b == c + d
    ensures a + (b + rest) == c + (d + rest)
  {
    assert a + (b + rest) == (a + b) + rest;
    assert c + (d + rest) == (c + d) + rest;
  }

  /**
    * The scanner, which tracks fences line by line, records exactly the starts of the section-leading regions
    * of the grouping, which tracks fences block by block.
    */
  lemma ScannerFindsSections(text: bytes)
    ensures HeadingStarts(text) == SectionStarts(text, Groups(text, 0, |text|), 0)
  {
    ScannerFollowsRegions(text, 0);
    var groups := Groups(text, 0, |text|);
    if groups != [] {
      GroupsFirst(text, 0, |text|);
    }
    assert Pending(text, groups, 0) == [];
  }

  // ----- the units -----

  lemma {:induction false} SectionsStart(starts: seq<nat>, total: nat)
    ensures |Sections(starts, total)| == |starts|
    ensures forall k :: 0 <= k < |starts| ==> Sections(starts, total)[k].Start == starts[k]
  {
    if starts != [] {
      SectionsStart(starts[1..], total);
    }
  }

  /**
    * There is one unit for each section-leading region, beginning there, and one more for a preamble; a text without
    * such a region is cut into paragraphs.
    */
  lemma HeadingsStartSections(text: bytes)
    ensures var starts := SectionStarts(text, Groups(text, 0, |text|), 0);
            var units := HeadingUnits(text);
            if starts == [] then units == ParagraphUnits(text)
            else
              var preamble := if starts[0] > 0 then 1 else 0;
              && |units| == preamble + |starts|
              && units[0].Start == 0
              && forall k :: 0 <= k < |starts| ==> units[preamble + k].Start == starts[k]
  {
    var starts := SectionStarts(text, Groups(text, 0, |text|), 0);
    ScannerFindsSections(text);
    SectionsStart(starts, |text|);
    if text == [] {
      assert HeadingUnits(text) == [] == ParagraphUnits(text);
    }
  }
}
