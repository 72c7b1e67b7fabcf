/** Segmentation at Markdown headings: a line scanner that tracks fences on its own. */
module Headings {
  import opened Basics
  import opened Utf8
  import opened Space
  import opened Lines
  import opened Cuts
  import opened Paragraphs
  import opened CodeSplit

  // ----- the scanner -----

  /**
    * What the scanner remembers between lines: an open fence, or a paragraph line that an underline may still turn into
    * a heading.
    */
  datatype Scan = InFence(ch: byte, n: nat) | AfterParagraph(prev: nat) | Plain

  predicate IsAtx(line: bytes) {
    AtxLevelOf(line) > 0
  }

  /** The state after the line at `i`. */
  function ScanLine(line: bytes, i: nat, s: Scan): Scan {
    if s.InFence? then (if Closes(line, s.ch, s.n) then Plain else s)
    else if IsFenceOpen(line) then InFence(FenceMarkerOf(line).ch, FenceMarkerOf(line).n)
    else if IsAtx(line) || (s.AfterParagraph? && SetextUnderlineOf(line)) || IsBlank(line) then Plain
    else AfterParagraph(i)
  }

  /** The section start the line at `i` reveals: its own for an ATX heading, the line before for an underline. */
  function Reveals(line: bytes, i: nat, s: Scan): seq<nat> {
    if s.InFence? || IsFenceOpen(line) then []
    else if IsAtx(line) then [i]
    else if s.AfterParagraph? && SetextUnderlineOf(line) then [s.prev]
    else []
  }

  /** Every section start the scanner records from line start `i` on. */
  function StartsFrom(text: bytes, i: nat, s: Scan): seq<nat>
    requires i <= |text|
    decreases |text| - i
  {
    if i == |text| then []
    else
      var line := LineContent(text, i, |text|);
      Reveals(line, i, s) + StartsFrom(text, LineNext(text, i, |text|), ScanLine(line, i, s))
  }

  function HeadingStarts(text: bytes): seq<nat> {
    StartsFrom(text, 0, Plain)
  }

  /** One unit per start, each up to the next start, the last up to `total`. */
  function Sections(starts: seq<nat>, total: nat): seq<Unit> {
    if starts == [] then []
    else [Unit(starts[0], if |starts| > 1 then starts[1] else total)] + Sections(starts[1..], total)
  }

  /** The sections, with the text before the first one as its own unit. */
  function UnitsOfStarts(starts: seq<nat>, total: nat): seq<Unit>
    requires starts != []
  {
    (if starts[0] > 0 then [Unit(0, starts[0])] else []) + Sections(starts, total)
  }

  function HeadingUnits(text: bytes): seq<Unit> {
    if text == [] then []
    else if HeadingStarts(text) == [] then ParagraphUnits(text)
    else UnitsOfStarts(HeadingStarts(text), |text|)
  }

  // ----- the source's loops -----

  /** Takes `s` in at the end, once: strictly ascending starts that `s` does not precede stay strictly ascending. */
  method AppendStart(starts: seq<nat>, s: nat) returns (r: seq<nat>)
    ensures starts <= r && |r| <= |starts| + 1
    ensures r != [] && r[|r| - 1] == s
    ensures forall x :: x in r <==> x in starts || x == s
    ensures Ascending(starts) && (starts == [] || starts[|starts| - 1] <= s) ==> Ascending(r)
  {
    if |starts| > 0 && starts[|starts| - 1] == s {
      return starts;
    }
    return starts + [s];
  }

  method UnitsFromStarts(starts: seq<nat>, total: nat) returns (units: seq<Unit>)
    requires starts != []
    ensures units == UnitsOfStarts(starts, total)
  {
    units := [];
    if starts[0] > 0 {
      units := units + [Unit(0, starts[0])];
    }
    ghost var preamble := units;
    assert starts[0..] == starts;
    for k := 0 to |starts|
      invariant units + Sections(starts[k..], total) == preamble + Sections(starts, total)
    {
      var end := total;
      if k + 1 < |starts| {
        end := starts[k + 1];
      }
      assert starts[k..][1..] == starts[k + 1..];
      units := units + [Unit(starts[k], end)];
    }
    assert Sections(starts[|starts|..], total) == [];
    assert units == preamble + Sections(starts, total);
  }

  /** The scanner's variables read as one state. */
  function StateOf(inFence: bool, fenceChar: byte, fenceLen: nat, prevIsParagraph: bool, prevLineStart: nat): Scan {
    if inFence then InFence(fenceChar, fenceLen) else if prevIsParagraph then AfterParagraph(prevLineStart) else Plain
  }

  /** Starts recorded so far are ascending and lie before every start that can still come. */
  ghost predicate Recorded(starts: seq<nat>, i: nat, s: Scan) {
    && Ascending(starts)
    && (s.AfterParagraph? ==> s.prev < i)
    && (forall a :: 0 <= a < |starts| ==> starts[a] < (if s.AfterParagraph? then s.prev else i))
  }

  /** One line of the scan; the duplicate guard in AppendStart never fires, so the record simply grows. */
  lemma RecordedStep(starts: seq<nat>, line: bytes, i: nat, next: nat, s: Scan)
    requires Recorded(starts, i, s) && i < next
    ensures Recorded(starts + Reveals(line, i, s), next, ScanLine(line, i, s))
    ensures Reveals(line, i, s) != [] && starts != [] ==> starts[|starts| - 1] < Reveals(line, i, s)[0]
  {
  }

  lemma StartsFromStep(text: bytes, i: nat, s: Scan, starts: seq<nat>, line: bytes, now: seq<nat>, s': Scan)
    requires i < |text| && line == LineContent(text, i, |text|)
    requires now == Reveals(line, i, s) && s' == ScanLine(line, i, s)
    ensures starts + StartsFrom(text, i, s) == (starts + now) + StartsFrom(text, LineNext(text, i, |text|), s')
  {
    var rest := StartsFrom(text, LineNext(text, i, |text|), s');
    assert StartsFrom(text, i, s) == now + rest;
    assert starts + (now + rest) == (starts + now) + rest;
  }

  /** The cases of the scanner's switch for a line outside any fence that opens none. */
  method HeadingLine(starts: seq<nat>, line: bytes, i: nat, prevIsParagraph: bool, prevLineStart: nat)
    returns (starts': seq<nat>, isParagraph: bool)
    requires !IsFenceOpen(line)
    requires Recorded(starts, i, StateOf(false, 0, 0, prevIsParagraph, prevLineStart))
    ensures var s := StateOf(false, 0, 0, prevIsParagraph, prevLineStart);
            starts' == starts + Reveals(line, i, s) && StateOf(false, 0, 0, isParagraph, i) == ScanLine(line, i, s)
  {
    var level := AtxLevel(line);
    if level > 0 {
      starts' := AppendStart(starts, i);
      return starts', false;
    }
    var underline := SetextUnderline(line);
    if prevIsParagraph && underline {
      starts' := AppendStart(starts, prevLineStart);
      return starts', false;
    }
    return starts, !IsBlank(line);
  }

  /** The body of the scanner's loop for the line at `i`. */
  method ScanStep(starts: seq<nat>, line: bytes, i: nat, inFence: bool, fenceChar: byte, fenceLen: nat,
                  prevIsParagraph: bool, prevLineStart: nat)
    returns (starts': seq<nat>, inFence': bool, fenceChar': byte, fenceLen': nat, isParagraph: bool)
    requires Recorded(starts, i, StateOf(inFence, fenceChar, fenceLen, prevIsParagraph, prevLineStart))
    ensures var s := StateOf(inFence, fenceChar, fenceLen, prevIsParagraph, prevLineStart);
            starts' == starts + Reveals(line, i, s) &&
            StateOf(inFence', fenceChar', fenceLen', isParagraph, i) == ScanLine(line, i, s)
  {
    starts', inFence', fenceChar', fenceLen', isParagraph := starts, inFence, fenceChar, fenceLen, false;
    var m := FenceMarker(line);
    if inFence {
      if m.Fence? && m.ch == fenceChar && m.n >= fenceLen && !m.info {
        inFence' := false;
      }
    } else if m.Fence? {
      inFence', fenceChar', fenceLen' := true, m.ch, m.n;
    } else {
      starts', isParagraph := HeadingLine(starts, line, i, prevIsParagraph, prevLineStart);
    }
  }

  method Headings(text: bytes) returns (units: seq<Unit>)
    ensures units == HeadingUnits(text)
  {
    if text == [] {
      return [];
    }
    var starts: seq<nat> := [];
    var inFence, prevIsParagraph := false, false;
    var fenceChar: byte, fenceLen: nat, prevLineStart: nat := 0, 0, 0;
    var i := 0;
    ghost var s := Plain;
    while i < |text|
      invariant 0 <= i <= |text|
      invariant s == StateOf(inFence, fenceChar, fenceLen, prevIsParagraph, prevLineStart)
      invariant Recorded(starts, i, s)
      invariant starts + StartsFrom(text, i, s) == HeadingStarts(text)
    {
      var line, next := LineAt(text, i, |text|);
      RecordedStep(starts, line, i, next, s);
      StartsFromStep(text, i, s, starts, line, Reveals(line, i, s), ScanLine(line, i, s));
      starts, inFence, fenceChar, fenceLen, prevIsParagraph :=
        ScanStep(starts, line, i, inFence, fenceChar, fenceLen, prevIsParagraph, prevLineStart);
      s := ScanLine(line, i, s);
      prevLineStart := i;
      i := next;
    }
    assert starts == HeadingStarts(text);
    if |starts| == 0 {
      units := Paragraphs.Paragraphs(text);
      return;
    }
    units := UnitsFromStarts(starts, |text|);
  }
}
