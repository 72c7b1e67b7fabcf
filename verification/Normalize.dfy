/** NormalizeWhitespace: trimmed lines, single blank lines between paragraphs, trimmed edges. */
module Normalize {
  import opened Utf8
  import opened Space
  import opened Paragraphs

  // ----- lines -----

  function FirstLF(s: bytes, i: nat): (r: nat)
    requires i <= |s|
    ensures i <= r <= |s| && (r < |s| ==> s[r] == LF)
    ensures forall k :: i <= k < r ==> s[k] != LF
    decreases |s| - i
  {
    if i == |s| || s[i] == LF then i else FirstLF(s, i + 1)
  }

  /** A line: bytes without a line feed. */
  ghost predicate NoLF(line: bytes) {
    forall k :: 0 <= k < |line| ==> line[k] != LF
  }

  /** strings.Split(s, "\n"). */
  function SplitLF(s: bytes): (r: seq<bytes>)
    ensures r != []
    decreases |s|
  {
    var i := FirstLF(s, 0);
    if i == |s| then [s] else [s[..i]] + SplitLF(s[i + 1..])
  }

  /** strings.Join(lines, "\n"). */
  function JoinLF(lines: seq<bytes>): bytes {
    if lines == [] then []
    else if |lines| == 1 then lines[0]
    else lines[0] + [LF] + JoinLF(lines[1..])
  }

  /** What one trimmed line adds: itself, or one blank line when it opens a run of them. */
  function Emitted(trimmed: bytes, prevBlank: bool): seq<bytes> {
    if trimmed == [] && prevBlank then [] else [trimmed]
  }

  /** Trimmed lines with every run of blank ones cut down to one. */
  function Collapse(lines: seq<bytes>, prevBlank: bool): seq<bytes> {
    if lines == [] then []
    else Emitted(TrimSpace(lines[0]), prevBlank) + Collapse(lines[1..], TrimSpace(lines[0]) == [])
  }

  function Normalized(s: bytes): bytes {
    TrimSpace(JoinLF(Collapse(SplitLF(s), false)))
  }

  method NormalizeWhitespace(s: bytes) returns (r: bytes)
    ensures r == Normalized(s)
  {
    var lines := SplitLF(s);
    var out: seq<bytes> := [];
    var blanks := 0;
    ghost var all := Collapse(lines, false);
    assert lines[0..] == lines;
    for i := 0 to |lines|
      invariant blanks >= 0
      invariant out + Collapse(lines[i..], blanks > 0) == all
    {
      var trimmed := TrimSpace(lines[i]);
      CollapseStep(lines, i, trimmed, blanks > 0, out);
      if trimmed == [] {
        blanks := blanks + 1;
        if blanks <= 1 {
          out := out + [[]];
        }
        continue;
      }
      blanks := 0;
      out := out + [trimmed];
    }
    assert out == all;
    r := TrimSpace(JoinLF(out));
  }

  lemma CollapseStep(lines: seq<bytes>, i: nat, trimmed: bytes, prevBlank: bool, out: seq<bytes>)
    requires i < |lines| && trimmed == TrimSpace(lines[i])
    ensures out + Collapse(lines[i..], prevBlank) ==
            (if trimmed == [] && prevBlank then out else out + [trimmed]) + Collapse(lines[i + 1..], trimmed == [])
  {
    var rest := lines[i..];
    assert rest[0] == lines[i] && rest[1..] == lines[i + 1..];
    EmitFirst(out, Emitted(trimmed, prevBlank), Collapse(lines[i + 1..], trimmed == []));
  }

  lemma EmitFirst(out: seq<bytes>, first: seq<bytes>, rest: seq<bytes>)
    ensures out + (first + rest) == (out + first) + rest
    ensures first == [] ==> out + (first + rest) == out + rest
  {
  }

  // ----- trimmed text -----

  /** No white space at either end. */
  predicate IsTrimmed(s: bytes) {
    s == [] || (SpaceWidth(s, 0) == 0 && SpaceBefore(s, 0, |s|) == 0)
  }

  /** White space seen in a slice is white space of the whole. */
  lemma SpaceInSlice(s: bytes, a: nat, b: nat, p: nat)
    requires a + p <= b <= |s|
    ensures SpaceWidth(s[a..b], p) > 0 ==> SpaceWidth(s, a + p) == SpaceWidth(s[a..b], p)
  {
    var t := s[a..b];
    assert forall k :: 0 <= k < |t| ==> t[k] == s[a + k];
  }

  /** No white space begins a slice when none begins there in the whole. */
  lemma SliceStart(s: bytes, a: nat, b: nat)
    requires a <= b <= |s| && SpaceWidth(s, a) == 0
    ensures SpaceWidth(s[a..b], 0) == 0
  {
    SpaceInSlice(s, a, b, 0);
  }

  /** Nor does any end it when none ends there in the whole. */
  lemma SliceEnd(s: bytes, a: nat, b: nat)
    requires a <= b <= |s| && SpaceBefore(s, a, b) == 0
    ensures SpaceBefore(s[a..b], 0, b - a) == 0
  {
    forall p: nat | p < b - a
      ensures SpaceWidth(s[a..b], p) != b - a - p
    {
      SpaceInSlice(s, a, b, p);
      NoSpaceBeforeEnd(s, a, b, a + p);
    }
  }

  lemma TrimIsTrimmed(s: bytes)
    ensures IsTrimmed(TrimSpace(s))
  {
    var a, b := TrimStart(s), TrimEnd(s);
    SkipSpaceStops(s, 0);
    DropSpaceStops(s, a, |s|);
    SliceStart(s, a, b);
    SliceEnd(s, a, b);
  }

  lemma TrimmedStays(s: bytes)
    requires IsTrimmed(s)
    ensures TrimSpace(s) == s
  {
  }

  /** Trimming removes a newline on either side of trimmed text and nothing else. */
  lemma TrimFramed(pre: bytes, mid: bytes, post: bytes)
    requires (pre == [] || pre == [LF]) && (post == [] || post == [LF]) && mid != [] && IsTrimmed(mid)
    ensures TrimSpace(pre + mid + post) == mid
  {
    var s := pre + mid + post;
    var a, b := |pre|, |pre| + |mid|;
    assert s[a..b] == mid;
    NoSpaceAt(pre, mid, post);
    assert SkipSpace(s, a) == a && (a > 0 ==> SpaceWidth(s, 0) == 1);
    assert TrimStart(s) == a;
    NoSpaceBefore(pre, mid, post);
    if post == [] {
      assert TrimEnd(s) == b;
    } else {
      assert SpaceWidth(s, b) == 1 && SpaceBefore(s, a, |s|) == 1;
      assert DropSpace(s, a, b) == b;
      assert TrimEnd(s) == b;
    }
  }

  lemma NoSpaceAt(pre: bytes, mid: bytes, post: bytes)
    requires (pre == [] || pre == [LF]) && (post == [] || post == [LF]) && mid != [] && IsTrimmed(mid)
    ensures SpaceWidth(pre + mid + post, |pre|) == 0
  {
    var s := pre + mid + post;
    assert forall k :: 0 <= k < |mid| ==> s[|pre| + k] == mid[k];
  }

  lemma NoSpaceBefore(pre: bytes, mid: bytes, post: bytes)
    requires (pre == [] || pre == [LF]) && (post == [] || post == [LF]) && mid != [] && IsTrimmed(mid)
    ensures SpaceBefore(pre + mid + post, |pre|, |pre| + |mid|) == 0
  {
    LastRuneOf(pre, mid, post, |mid| - 1);
    if |mid| >= 2 {
      LastRuneOf(pre, mid, post, |mid| - 2);
    }
    if |mid| >= 3 {
      LastRuneOf(pre, mid, post, |mid| - 3);
    }
  }

  /** A white-space rune that ends with `mid` in the middle of a text ends with it on its own. */
  lemma LastRuneOf(pre: bytes, mid: bytes, post: bytes, p: nat)
    requires p < |mid|
    ensures SpaceWidth(pre + mid + post, |pre| + p) == |mid| - p ==> SpaceWidth(mid, p) == |mid| - p
  {
    var s := pre + mid + post;
    assert forall k :: 0 <= k < |mid| ==> s[|pre| + k] == mid[k];
  }

  // ----- clean line lists -----

  /** Trimmed lines without line feeds, no two blank ones in a row. */
  ghost predicate Tidy(lines: seq<bytes>) {
    && (forall k :: 0 <= k < |lines| ==> IsTrimmed(lines[k]) && NoLF(lines[k]))
    && (forall k :: 0 <= k < |lines| - 1 ==> lines[k] != [] || lines[k + 1] != [])
  }

  /** Tidy, with text on the first and the last line. */
  ghost predicate Clean(lines: seq<bytes>) {
    lines != [] && Tidy(lines) && lines[0] != [] && lines[|lines| - 1] != []
  }

  lemma {:induction false} SplitNoLF(s: bytes)
    ensures forall k :: 0 <= k < |SplitLF(s)| ==> NoLF(SplitLF(s)[k])
    decreases |s|
  {
    var i := FirstLF(s, 0);
    if i < |s| {
      SplitNoLF(s[i + 1..]);
    }
  }

  lemma TidyCons(line: bytes, rest: seq<bytes>)
    requires IsTrimmed(line) && NoLF(line) && Tidy(rest)
    requires line == [] && rest != [] ==> rest[0] != []
    ensures Tidy([line] + rest)
  {
    var lines := [line] + rest;
    assert forall k :: 1 <= k < |lines| ==> lines[k] == rest[k - 1];
  }

  lemma {:induction false} CollapseTidy(lines: seq<bytes>, prevBlank: bool)
    requires forall k :: 0 <= k < |lines| ==> NoLF(lines[k])
    ensures Tidy(Collapse(lines, prevBlank))
    ensures prevBlank && Collapse(lines, prevBlank) != [] ==> Collapse(lines, prevBlank)[0] != []
  {
    if lines != [] {
      var trimmed := TrimSpace(lines[0]);
      var rest := Collapse(lines[1..], trimmed == []);
      CollapseTidy(lines[1..], trimmed == []);
      TrimIsTrimmed(lines[0]);
      if trimmed == [] && prevBlank {
        assert Collapse(lines, prevBlank) == rest;
      } else {
        TidyCons(trimmed, rest);
      }
    }
  }

  /** A clean list is left as it is. */
  lemma {:induction false} CollapseKeeps(lines: seq<bytes>, prevBlank: bool)
    requires Tidy(lines) && (prevBlank && lines != [] ==> lines[0] != [])
    ensures Collapse(lines, prevBlank) == lines
  {
    if lines != [] {
      TrimmedStays(lines[0]);
      TidyTail(lines);
      CollapseKeeps(lines[1..], lines[0] == []);
    }
  }

  lemma TidyTail(lines: seq<bytes>)
    requires Tidy(lines) && lines != []
    ensures Tidy(lines[1..]) && (lines[0] == [] && |lines| > 1 ==> lines[1] != [])
  {
    var rest := lines[1..];
    forall k | 0 <= k < |rest| - 1
      ensures rest[k] != [] || rest[k + 1] != []
    {
      assert lines[k + 1] != [] || lines[k + 2] != [];
    }
  }

  /** Joining lines without line feeds and splitting again gives the lines back. */
  lemma {:induction false} SplitJoin(lines: seq<bytes>)
    requires lines != [] && forall k :: 0 <= k < |lines| ==> NoLF(lines[k])
    ensures SplitLF(JoinLF(lines)) == lines
    decreases |lines|
  {
    var s := JoinLF(lines);
    if |lines| == 1 {
      assert FirstLF(s, 0) == |s|;
    } else {
      var n := |lines[0]|;
      assert forall k :: 0 <= k < n ==> s[k] == lines[0][k];
      assert s[n] == LF;
      assert FirstLF(s, 0) == n;
      assert s[..n] == lines[0] && s[n + 1..] == JoinLF(lines[1..]);
      SplitJoin(lines[1..]);
    }
  }

  // ----- the edges -----

  /** The list without a blank first line. */
  function Front(lines: seq<bytes>): seq<bytes> {
    if lines != [] && lines[0] == [] then lines[1..] else lines
  }

  /** The list without a blank first and a blank last line. */
  function Core(lines: seq<bytes>): seq<bytes> {
    var front := Front(lines);
    if front != [] && front[|front| - 1] == [] then front[..|front| - 1] else front
  }

  lemma {:induction false} JoinSnoc(lines: seq<bytes>, last: bytes)
    requires lines != []
    ensures JoinLF(lines + [last]) == JoinLF(lines) + [LF] + last
    decreases |lines|
  {
    var all := lines + [last];
    assert all[1..] == lines[1..] + [last];
    if |lines| > 1 {
      JoinSnoc(lines[1..], last);
    } else {
      assert lines[1..] == [];
    }
  }

  lemma CoreClean(lines: seq<bytes>)
    requires Tidy(lines)
    ensures Core(lines) == [] || Clean(Core(lines))
  {
    var front := Front(lines);
    if lines != [] {
      TidyTail(lines);
    }
    if front != [] && front[|front| - 1] == [] {
      TidyInit(front);
    }
  }

  lemma TidyInit(lines: seq<bytes>)
    requires Tidy(lines) && lines != []
    ensures Tidy(lines[..|lines| - 1]) && (lines[|lines| - 1] == [] && |lines| > 1 ==> lines[|lines| - 2] != [])
  {
    var init := lines[..|lines| - 1];
    forall k | 0 <= k < |init| - 1
      ensures init[k] != [] || init[k + 1] != []
    {
      assert lines[k] != [] || lines[k + 1] != [];
    }
    if |lines| > 1 {
      assert lines[|lines| - 2] != [] || lines[|lines| - 2 + 1] != [];
    }
  }

  lemma {:induction false} JoinNonEmpty(lines: seq<bytes>)
    requires lines != [] && lines[0] != []
    ensures JoinLF(lines) != [] && lines[0] <= JoinLF(lines)
  {
  }

  /** The bytes at the two ends of joined lines belong to the first and the last line. */
  lemma JoinTrimmed(lines: seq<bytes>)
    requires Clean(lines)
    ensures JoinLF(lines) != [] && IsTrimmed(JoinLF(lines))
  {
    JoinNonEmpty(lines);
    if |lines| > 1 {
      var s := JoinLF(lines);
      var first, last := lines[0], lines[|lines| - 1];
      var init := lines[..|lines| - 1];
      assert lines == init + [last];
      JoinSnoc(init, last);
      StartNotSpace(first, JoinLF(lines[1..]));
      EndNotSpace(JoinLF(init), last);
      assert s == first + [LF] + JoinLF(lines[1..]);
    }
  }

  lemma StartNotSpace(first: bytes, rest: bytes)
    requires first != [] && IsTrimmed(first)
    ensures SpaceWidth(first + [LF] + rest, 0) == 0
  {
    var s := first + [LF] + rest;
    assert forall k :: 0 <= k < |first| ==> s[k] == first[k];
    assert s[|first|] == LF;
  }

  lemma EndNotSpace(init: bytes, last: bytes)
    requires last != [] && IsTrimmed(last)
    ensures SpaceBefore(init + [LF] + last, 0, |init| + 1 + |last|) == 0
  {
    var s := init + [LF] + last;
    var pre := init + [LF];
    assert s == pre + last + [];
    assert s[|init|] == LF;
    EndRune(pre, last, 1);
    EndRune(pre, last, 2);
    EndRune(pre, last, 3);
  }

  /** No white-space rune of `v` bytes ends a text whose last line is trimmed and not empty. */
  lemma EndRune(pre: bytes, last: bytes, v: nat)
    requires pre != [] && pre[|pre| - 1] == LF && last != [] && IsTrimmed(last) && v >= 1
    ensures |pre| + |last| >= v ==> SpaceWidth(pre + last + [], |pre| + |last| - v) != v
  {
    var s := pre + last + [];
    if v <= |last| {
      LastRuneOf(pre, last, [], |last| - v);
    } else if v <= |pre| + |last| {
      assert s[|pre| - 1] == LF;
    }
  }

  /** A blank first line is a leading line feed of the joined text. */
  lemma JoinFront(lines: seq<bytes>)
    requires Front(lines) != []
    ensures JoinLF(lines) == (if lines[0] == [] then [LF] else []) + JoinLF(Front(lines))
  {
  }

  /** A blank last line is a trailing one. */
  lemma JoinBack(front: seq<bytes>)
    requires |front| > 1 || (front != [] && front[0] != [])
    ensures front[|front| - 1] == [] ==> JoinLF(front) == JoinLF(front[..|front| - 1]) + [LF]
  {
    if front[|front| - 1] == [] {
      assert front == front[..|front| - 1] + [[]];
      JoinSnoc(front[..|front| - 1], []);
      assert JoinLF(front[..|front| - 1]) + [LF] + [] == JoinLF(front[..|front| - 1]) + [LF];
    }
  }

  lemma JoinCore(lines: seq<bytes>) returns (pre: bytes, post: bytes)
    requires Core(lines) != []
    ensures (pre == [] || pre == [LF]) && (post == [] || post == [LF])
    ensures JoinLF(lines) == pre + JoinLF(Core(lines)) + post
  {
    var front := Front(lines);
    pre := if lines[0] == [] then [LF] else [];
    post := if front[|front| - 1] == [] then [LF] else [];
    JoinFront(lines);
    JoinBack(front);
  }

  /** Trimming the joined lines is joining the lines between the edges. */
  lemma TrimJoin(lines: seq<bytes>)
    requires Tidy(lines)
    ensures TrimSpace(JoinLF(lines)) == JoinLF(Core(lines))
  {
    CoreClean(lines);
    if Core(lines) != [] {
      JoinTrimmed(Core(lines));
      var pre, post := JoinCore(lines);
      TrimFramed(pre, JoinLF(Core(lines)), post);
    } else if lines != [] {
      CoreEmpty(lines);
    }
  }

  lemma CoreEmpty(lines: seq<bytes>)
    requires Tidy(lines) && lines != [] && Core(lines) == []
    ensures JoinLF(lines) == []
  {
    TidyTail(lines);
  }

  // ----- what NormalizeWhitespace guarantees -----

  function Kept(s: bytes): seq<bytes> {
    Core(Collapse(SplitLF(s), false))
  }

  /** The result is the joined lines of a clean list, or empty. */
  lemma NormalizedLines(s: bytes)
    ensures Normalized(s) == JoinLF(Kept(s)) && (Kept(s) == [] || Clean(Kept(s)))
  {
    SplitNoLF(s);
    CollapseTidy(SplitLF(s), false);
    TrimJoin(Collapse(SplitLF(s), false));
    CoreClean(Collapse(SplitLF(s), false));
  }

  /** Normalizing joined clean lines changes nothing. */
  lemma CleanIsFixed(lines: seq<bytes>)
    requires Clean(lines)
    ensures Normalized(JoinLF(lines)) == JoinLF(lines)
  {
    SplitJoin(lines);
    CollapseKeeps(lines, false);
    TrimJoin(lines);
  }

  lemma NormalizeIdempotent(s: bytes)
    ensures Normalized(Normalized(s)) == Normalized(s)
  {
    NormalizedLines(s);
    if Kept(s) == [] {
      assert SplitLF([]) == [[]];
      NormalizedLines([]);
      assert Collapse([[]], false) == [[]] by {
        assert Collapse([[]][1..], true) == [];
      }
    } else {
      CleanIsFixed(Kept(s));
    }
  }

  /** A line with text, and whether it opens a paragraph: nothing or a blank line stands in front of it. */
  datatype TextLine = TextLine(opens: bool, text: bytes)

  /** The lines that are not blank, in order. */
  function TextLines(lines: seq<bytes>, opens: bool): seq<TextLine> {
    if lines == [] then []
    else if lines[0] == [] then TextLines(lines[1..], true)
    else [TextLine(opens, lines[0])] + TextLines(lines[1..], false)
  }

  function TrimmedLines(lines: seq<bytes>): (r: seq<bytes>)
    ensures |r| == |lines|
  {
    seq(|lines|, k requires 0 <= k < |lines| => TrimSpace(lines[k]))
  }

  lemma {:induction false} CollapseKeepsText(lines: seq<bytes>, prevBlank: bool, opens: bool)
    requires prevBlank ==> opens
    ensures TextLines(Collapse(lines, prevBlank), opens) == TextLines(TrimmedLines(lines), opens)
  {
    if lines != [] {
      var trimmed := TrimSpace(lines[0]);
      var rest := Collapse(lines[1..], trimmed == []);
      assert TrimmedLines(lines)[1..] == TrimmedLines(lines[1..]);
      CollapseKeepsText(lines[1..], trimmed == [], trimmed == []);
      assert ([trimmed] + rest)[1..] == rest;
      assert prevBlank && trimmed == [] ==> Collapse(lines, prevBlank) == rest;
    }
  }

  /** A blank last line holds no text. */
  lemma {:induction false} TextLinesSnoc(lines: seq<bytes>, opens: bool)
    ensures TextLines(lines + [[]], opens) == TextLines(lines, opens)
  {
    if lines == [] {
      assert ([[]] + lines)[1..] == [];
    } else {
      assert (lines + [[]])[1..] == lines[1..] + [[]];
      TextLinesSnoc(lines[1..], lines[0] == []);
    }
  }

  lemma CoreKeepsText(lines: seq<bytes>)
    ensures TextLines(Core(lines), true) == TextLines(lines, true)
  {
    var front := Front(lines);
    if front != [] && front[|front| - 1] == [] {
      assert front == front[..|front| - 1] + [[]];
      TextLinesSnoc(front[..|front| - 1], true);
    }
  }

  /**
    * The result holds exactly the source's lines with text, trimmed, in the same paragraphs, with single blank lines in
    * between and none at the edges.
    */
  lemma NormalizeKeepsText(s: bytes)
    ensures Normalized(s) != [] ==> Clean(SplitLF(Normalized(s)))
    ensures TextLines(SplitLF(Normalized(s)), true) == TextLines(TrimmedLines(SplitLF(s)), true)
  {
    NormalizedLines(s);
    CollapseKeepsText(SplitLF(s), false, true);
    CoreKeepsText(Collapse(SplitLF(s), false));
    if Kept(s) != [] {
      SplitJoin(Kept(s));
    } else {
      assert SplitLF([]) == [[]] && SplitLF([])[1..] == [];
    }
  }

  // ----- paragraphs of a normalized text -----

  /** Where line `k` begins in the joined text. */
  function LineOffset(lines: seq<bytes>, k: nat): nat
    requires k <= |lines|
  {
    if k == 0 then 0 else |lines[0]| + 1 + LineOffset(lines[1..], k - 1)
  }

  /** The bytes of line `k`, and the line feed behind it unless it is the last. */
  lemma {:induction false} LineBytes(lines: seq<bytes>, k: nat, i: nat)
    requires k < |lines| && i <= |lines[k]| && (i == |lines[k]| ==> k < |lines| - 1)
    ensures LineOffset(lines, k) + i < |JoinLF(lines)|
    ensures JoinLF(lines)[LineOffset(lines, k) + i] == if i < |lines[k]| then lines[k][i] else LF
    decreases k
  {
    if k > 0 {
      LineBytes(lines[1..], k - 1, i);
    }
  }

  /** Every line feed of the joined text ends some line. */
  lemma {:induction false} LineFeedEndsLine(lines: seq<bytes>, i: nat)
    requires (forall k :: 0 <= k < |lines| ==> NoLF(lines[k])) && i < |JoinLF(lines)| && JoinLF(lines)[i] == LF
    ensures exists k: nat :: k < |lines| - 1 && i == LineOffset(lines, k) + |lines[k]|
    decreases |lines|
  {
    if i == |lines[0]| {
      assert i == LineOffset(lines, 0) + |lines[0]|;
    } else if i > |lines[0]| {
      var rest := lines[1..];
      LineFeedEndsLine(rest, i - |lines[0]| - 1);
      var k: nat :| k < |rest| - 1 && i - |lines[0]| - 1 == LineOffset(rest, k) + |rest[k]|;
      assert i == LineOffset(lines, k + 1) + |lines[k + 1]|;
    }
  }

  /** A blank line ends at `e`. */
  ghost predicate BlankLineEndsAt(lines: seq<bytes>, e: int) {
    exists k: nat :: k < |lines| && lines[k] == [] && e == LineOffset(lines, k) + 1
  }

  lemma {:induction false} NextOffset(lines: seq<bytes>, k: nat)
    requires k < |lines|
    ensures LineOffset(lines, k + 1) == LineOffset(lines, k) + |lines[k]| + 1
    decreases k
  {
    if k > 0 {
      NextOffset(lines[1..], k - 1);
    }
  }

  /** The line before `k` ends with a line feed right before line `k`. */
  lemma FeedBefore(lines: seq<bytes>, k: nat)
    requires 0 < k < |lines|
    ensures 0 < LineOffset(lines, k) <= |JoinLF(lines)| && JoinLF(lines)[LineOffset(lines, k) - 1] == LF
  {
    LineBytes(lines, k - 1, |lines[k - 1]|);
    NextOffset(lines, k - 1);
  }

  /** No newline stands where a trimmed line with text begins. */
  lemma NoNewlineAtText(lines: seq<bytes>, k: nat)
    requires k < |lines| && IsTrimmed(lines[k]) && NoLF(lines[k]) && lines[k] != []
    ensures LineOffset(lines, k) < |JoinLF(lines)| && NewlineLen(JoinLF(lines), LineOffset(lines, k)) == 0
  {
    LineBytes(lines, k, 0);
    FirstByteNotSpace(lines[k]);
  }

  lemma BlankLineIsBreak(lines: seq<bytes>, k: nat)
    requires Clean(lines) && k < |lines| && lines[k] == []
    ensures BreakAt(JoinLF(lines), 0, LineOffset(lines, k) + 1)
  {
    assert lines[k] != [] || lines[k + 1] != [];
    FeedBefore(lines, k);
    FeedBefore(lines, k + 1);
    NextOffset(lines, k);
    NoNewlineAtText(lines, k + 1);
  }

  lemma FirstByteNotSpace(s: bytes)
    requires s != [] && IsTrimmed(s)
    ensures s[0] != CR && s[|s| - 1] != CR
  {
    assert SpaceWidth(s, |s| - 1) != 1;
  }

  lemma BreakIsBlankLine(lines: seq<bytes>, e: int)
    requires Clean(lines) && BreakAt(JoinLF(lines), 0, e)
    ensures BlankLineEndsAt(lines, e)
  {
    LineFeedEndsLine(lines, e - 1);
    var k: nat :| k < |lines| - 1 && e - 1 == LineOffset(lines, k) + |lines[k]|;
    TextLineNoBreak(lines, k, e);
  }

  /** A line that is not blank ends in a byte that is no newline, so no run of newlines ends with it. */
  lemma TextLineNoBreak(lines: seq<bytes>, k: nat, e: int)
    requires Clean(lines) && k < |lines| - 1 && e - 1 == LineOffset(lines, k) + |lines[k]|
    ensures lines[k] != [] ==> !BreakAt(JoinLF(lines), 0, e)
  {
    if lines[k] != [] {
      var last := |lines[k]| - 1;
      LineBytes(lines, k, last);
      FirstByteNotSpace(lines[k]);
      assert JoinLF(lines)[e - 2] == lines[k][last];
    }
  }

  /** On normalized text, Paragraphs cuts behind the blank lines and nowhere else. */
  lemma ParagraphsAtBlankLines(s: bytes, e: int)
    requires Normalized(s) != [] && 0 < e < |Normalized(s)|
    ensures (exists u :: u in ParagraphUnits(Normalized(s)) && u.End == e) <==>
            BlankLineEndsAt(SplitLF(Normalized(s)), e)
  {
    var text, lines := Normalized(s), SplitLF(Normalized(s));
    NormalizedLines(s);
    SplitJoin(Kept(s));
    ParagraphsCanonical(text);
    assert BreakAt(text, 0, e) <==> BlankLineEndsAt(lines, e) by {
      if BreakAt(text, 0, e) {
        BreakIsBlankLine(lines, e);
      }
      if BlankLineEndsAt(lines, e) {
        var k: nat :| k < |lines| && lines[k] == [] && e == LineOffset(lines, k) + 1;
        BlankLineIsBreak(lines, k);
      }
    }
  }
}
