/**
  * Lines of a text, and the Markdown line rules the chunker uses (sections 4.2, 4.3 and 4.5 of CommonMark, simplified).
  */
module Lines {
  import opened Basics
  import opened Utf8
  import opened Space

  const BACKTICK: byte := 96
  const TILDE: byte := 126
  const HASH: byte := 35
  const EQUALS: byte := 61
  const DASH: byte := 45

  // ----- lines -----

  /** The start of the line after the one that begins at `i`, within text[..end]. */
  function LineNext(text: bytes, i: nat, end: nat): (next: nat)
    requires i < end <= |text|
    ensures i < next <= end
    ensures next < end ==> text[next - 1] == LF
    decreases end - i
  {
    if text[i] == LF || i + 1 == end then i + 1 else LineNext(text, i + 1, end)
  }

  /** There is no LF in a line but the one that ends it. */
  lemma {:induction false} LineNextIsFirst(text: bytes, i: nat, end: nat, k: nat)
    requires i <= k && i < end <= |text| && k < LineNext(text, i, end) - 1
    ensures text[k] != LF
    decreases end - i
  {
    if i < k {
      LineNextIsFirst(text, i + 1, end, k);
    }
  }

  /** The line's content: without its LF and without a CR in front of that LF. */
  function LineContent(text: bytes, i: nat, end: nat): bytes
    requires i < end <= |text|
  {
    var next := LineNext(text, i, end);
    if text[next - 1] != LF then text[i..next]
    else if next - 1 > i && text[next - 2] == CR then text[i..next - 2]
    else text[i..next - 1]
  }

  /** How a line ends: at the end of the text, with an LF, or with a CR LF. */
  datatype Terminator = AtEnd | Lf | CrLf

  function TerminatorBytes(t: Terminator): bytes {
    match t
    case AtEnd => []
    case Lf => [LF]
    case CrLf => [CR, LF]
  }

  /** The content and the terminator make up the line; a CR in front of the LF belongs to the terminator. */
  lemma LineReads(text: bytes, i: nat, end: nat) returns (t: Terminator)
    requires i < end <= |text|
    ensures text[i..LineNext(text, i, end)] == LineContent(text, i, end) + TerminatorBytes(t)
    ensures LF !in LineContent(text, i, end)
    ensures t == AtEnd ==> LineNext(text, i, end) == end
    ensures t == Lf ==> !EndsInCR(LineContent(text, i, end))
  {
    t := TerminatorReads(text, i, LineNext(text, i, end), LineContent(text, i, end));
    forall k | i <= k < LineNext(text, i, end) - 1
      ensures text[k] != LF
    {
      LineNextIsFirst(text, i, end, k);
    }
  }

  predicate EndsInCR(s: bytes) {
    s != [] && s[|s| - 1] == CR
  }

  lemma TerminatorReads(text: bytes, i: nat, next: nat, content: bytes) returns (t: Terminator)
    requires i < next <= |text|
    requires content == if text[next - 1] != LF then text[i..next]
                        else if next - 1 > i && text[next - 2] == CR then text[i..next - 2]
                        else text[i..next - 1]
    ensures text[i..next] == content + TerminatorBytes(t)
    ensures t == AtEnd <==> text[next - 1] != LF
    ensures t != AtEnd ==> |content| < next - i
    ensures t == Lf ==> !EndsInCR(content)
  {
    if text[next - 1] != LF {
      return AtEnd;
    }
    SliceSnoc(text, i, next - 1);
    if next - 1 > i && text[next - 2] == CR {
      SliceSnoc(text, i, next - 2);
      assert content + [CR] + [LF] == content + [CR, LF];
      return CrLf;
    }
    t := Lf;
  }

  method LineAt(text: bytes, i: nat, end: nat) returns (content: bytes, next: nat)
    requires i < end <= |text|
    ensures next == LineNext(text, i, end) && content == LineContent(text, i, end)
  {
    next := i + 1;
    while text[next - 1] != LF && next < end
      invariant i < next <= end
      invariant LineNext(text, next - 1, end) == LineNext(text, i, end)
      decreases end - next
    {
      next := next + 1;
    }
    if text[next - 1] != LF {
      return text[i..next], next;
    }
    var lineEnd := next - 1;
    if lineEnd > i && text[lineEnd - 1] == CR {
      lineEnd := lineEnd - 1;
    }
    content := text[i..lineEnd];
  }

  /** Position `p` begins a line of text[lo..]. */
  predicate LineStart(text: bytes, lo: nat, p: int) {
    p == lo || (lo < p <= |text| && text[p - 1] == LF)
  }

  /** A span that ends at a line start or further on shows the same line. */
  lemma {:induction false} LineWithin(text: bytes, i: nat, m: nat, end: nat)
    requires i < m <= end <= |text| && (m == end || text[m - 1] == LF)
    ensures LineNext(text, i, m) == LineNext(text, i, end)
    ensures LineContent(text, i, m) == LineContent(text, i, end)
    decreases m - i
  {
    if text[i] != LF && i + 1 < m {
      LineWithin(text, i + 1, m, end);
    }
  }

  // ----- runs of one byte -----

  /** How many bytes equal to `c` stand in a row from `i` on. */
  function RunLen(line: bytes, i: nat, c: byte): (n: nat)
    requires i <= |line|
    ensures i + n <= |line|
    ensures i + n < |line| ==> line[i + n] != c
    decreases |line| - i
  {
    if i < |line| && line[i] == c then 1 + RunLen(line, i + 1, c) else 0
  }

  lemma {:induction false} RunLenIsRun(line: bytes, i: nat, c: byte, k: nat)
    requires i <= |line| && i <= k < i + RunLen(line, i, c)
    ensures line[k] == c
    decreases |line| - i
  {
    if i < k {
      RunLenIsRun(line, i + 1, c, k);
    }
  }

  /** A run of `c` that something else ends is as long as it looks. */
  lemma {:induction false} RunLenIs(line: bytes, i: nat, c: byte, n: nat)
    requires i + n <= |line| && (i + n < |line| ==> line[i + n] != c)
    requires forall k :: i <= k < i + n ==> line[k] == c
    ensures RunLen(line, i, c) == n
    decreases n
  {
    if n > 0 {
      assert line[i] == c;
      RunLenIs(line, i + 1, c, n - 1);
    }
  }

  method CountRun(line: bytes, i: nat, c: byte) returns (n: nat)
    requires i <= |line|
    ensures n == RunLen(line, i, c)
  {
    n := 0;
    while i + n < |line| && line[i + n] == c
      invariant i + n <= |line| && n + RunLen(line, i + n, c) == RunLen(line, i, c)
    {
      n := n + 1;
    }
  }

  function Repeat(c: byte, n: nat): (r: bytes)
    ensures |r| == n && forall k :: 0 <= k < n ==> r[k] == c
  {
    seq(n, _ => c)
  }

  /** Reads `k` spaces, then `n` bytes `c`, then `rest`. */
  ghost predicate Indented(line: bytes, k: nat, c: byte, n: nat, rest: bytes) {
    line == Repeat(SPACE, k) + Repeat(c, n) + rest
  }

  /** What the scanners see: the longest indent, then the longest run of `c`, then the rest. */
  predicate Scanned(line: bytes, k: nat, c: byte, n: nat, rest: bytes) {
    k == RunLen(line, 0, SPACE) && k < |line| && line[k] == c && n == RunLen(line, k, c) && rest == line[k + n..]
  }

  /** That reading is the only one. */
  lemma IndentedIsScanned(line: bytes, k: nat, c: byte, n: nat, rest: bytes)
    requires c != SPACE && n >= 1
    ensures Indented(line, k, c, n, rest) && (rest == [] || rest[0] != c) <==> Scanned(line, k, c, n, rest)
  {
    if Indented(line, k, c, n, rest) && (rest == [] || rest[0] != c) {
      IndentedRuns(line, k, c, n, rest);
    }
    if Scanned(line, k, c, n, rest) {
      ScannedIndents(line, k, c, n, rest);
    }
  }

  lemma ScannedIndents(line: bytes, k: nat, c: byte, n: nat, rest: bytes)
    requires Scanned(line, k, c, n, rest)
    ensures Indented(line, k, c, n, rest)
    ensures rest == [] || rest[0] != c
  {
    forall j | 0 <= j < k
      ensures line[j] == SPACE
    {
      RunLenIsRun(line, 0, SPACE, j);
    }
    forall j | k <= j < k + n
      ensures line[j] == c
    {
      RunLenIsRun(line, k, c, j);
    }
    assert line[..k] == Repeat(SPACE, k) && line[k..k + n] == Repeat(c, n);
    assert line == line[..k] + line[k..k + n] + line[k + n..];
  }

  lemma IndentedRuns(line: bytes, k: nat, c: byte, n: nat, rest: bytes)
    requires c != SPACE && n >= 1 && Indented(line, k, c, n, rest) && (rest == [] || rest[0] != c)
    ensures Scanned(line, k, c, n, rest)
  {
    assert forall j :: 0 <= j < k ==> line[j] == SPACE;
    assert forall j :: k <= j < k + n ==> line[j] == c;
    assert rest == line[k + n..];
    assert rest != [] ==> line[k + n] == rest[0];
    RunLenIs(line, 0, SPACE, k);
    RunLenIs(line, k, c, n);
  }

  // ----- fence markers -----

  datatype Marker = NoFence | Fence(ch: byte, n: nat, info: bool)

  function FenceMarkerOf(line: bytes): Marker {
    var i := RunLen(line, 0, SPACE);
    if i > 3 || i >= |line| then NoFence
    else if line[i] != BACKTICK && line[i] != TILDE then NoFence
    else MarkerAt(line, i, RunLen(line, i, line[i]))
  }

  /** The run of `n` bytes at `i`, at least three of them. */
  function MarkerAt(line: bytes, i: nat, n: nat): Marker
    requires i < |line| && i + n <= |line|
  {
    if n < 3 then NoFence else MarkerOf(line[i], n, line[i + n..])
  }

  /** A run of `n` bytes `ch` followed by `rest`: backticks may not come back after backticks. */
  function MarkerOf(ch: byte, n: nat, rest: bytes): Marker {
    if ch == BACKTICK && BACKTICK in rest then NoFence else Fence(ch, n, !IsBlank(rest))
  }

  method FenceMarker(line: bytes) returns (m: Marker)
    ensures m == FenceMarkerOf(line)
  {
    var i := CountRun(line, 0, SPACE);
    if i > 3 || i >= |line| {
      return NoFence;
    }
    var c := line[i];
    if c != BACKTICK && c != TILDE {
      return NoFence;
    }
    var n := CountRun(line, i, c);
    m := MarkerOfRun(line, i, n);
  }

  method MarkerOfRun(line: bytes, i: nat, n: nat) returns (m: Marker)
    requires i < |line| && i + n <= |line|
    ensures m == MarkerAt(line, i, n)
  {
    if n < 3 {
      return NoFence;
    }
    var c, rest := line[i], line[i + n..];
    if c == BACKTICK && BACKTICK in rest {
      return NoFence;
    }
    return Fence(c, n, !IsBlank(rest));
  }

  /** Up to three spaces, three or more backticks or tildes, and an info string free of backticks after backticks. */
  ghost predicate FenceLine(line: bytes, k: nat, ch: byte, n: nat, rest: bytes) {
    && k <= 3 && n >= 3 && (ch == BACKTICK || ch == TILDE)
    && Indented(line, k, ch, n, rest)
    && (rest == [] || rest[0] != ch)
    && (ch == BACKTICK ==> BACKTICK !in rest)
  }

  lemma FenceMarkerIff(line: bytes, ch: byte, n: nat, info: bool)
    ensures FenceMarkerOf(line) == Fence(ch, n, info) <==>
            exists k: nat, rest: bytes :: FenceLine(line, k, ch, n, rest) && info == !IsBlank(rest)
  {
    if FenceMarkerOf(line) == Fence(ch, n, info) {
      var k := RunLen(line, 0, SPACE);
      IndentedIsScanned(line, k, ch, n, line[k + n..]);
      assert FenceLine(line, k, ch, n, line[k + n..]);
    }
    forall k: nat, rest: bytes | FenceLine(line, k, ch, n, rest) && info == !IsBlank(rest)
      ensures FenceMarkerOf(line) == Fence(ch, n, info)
    {
      FenceLineIsMarked(line, k, ch, n, rest);
    }
  }

  lemma FenceLineIsMarked(line: bytes, k: nat, ch: byte, n: nat, rest: bytes)
    requires FenceLine(line, k, ch, n, rest)
    ensures FenceMarkerOf(line) == Fence(ch, n, !IsBlank(rest))
  {
    IndentedIsScanned(line, k, ch, n, rest);
    assert MarkerOf(ch, n, rest) == Fence(ch, n, !IsBlank(rest));
  }

  // ----- ATX headings -----

  function AtxLevelOf(line: bytes): nat {
    var i := RunLen(line, 0, SPACE);
    if i > 3 then 0
    else
      var level := RunLen(line, i, HASH);
      if level < 1 || level > 6 then 0
      else if i + level == |line| || line[i + level] == SPACE || line[i + level] == TAB then level
      else 0
  }

  method AtxLevel(line: bytes) returns (level: nat)
    ensures level == AtxLevelOf(line)
  {
    var i := CountRun(line, 0, SPACE);
    if i > 3 {
      return 0;
    }
    level := CountRun(line, i, HASH);
    if level < 1 || level > 6 {
      return 0;
    }
    if i + level == |line| || line[i + level] == SPACE || line[i + level] == TAB {
      return;
    }
    return 0;
  }

  /** At most three spaces, `level` hashes, then a space, a tab or nothing. */
  ghost predicate AtxLine(line: bytes, k: nat, level: nat, rest: bytes) {
    k <= 3 && Indented(line, k, HASH, level, rest) && (rest == [] || rest[0] == SPACE || rest[0] == TAB)
  }

  lemma AtxLevelIff(line: bytes, level: nat)
    requires level > 0
    ensures AtxLevelOf(line) == level <==> level <= 6 && exists k: nat, rest: bytes :: AtxLine(line, k, level, rest)
  {
    if AtxLevelOf(line) == level {
      AtxLevelReads(line);
    }
    if level <= 6 {
      forall k: nat, rest: bytes | AtxLine(line, k, level, rest)
        ensures AtxLevelOf(line) == level
      {
        AtxLineHasLevel(line, k, level, rest);
      }
    }
  }

  lemma AtxLevelReads(line: bytes)
    requires AtxLevelOf(line) > 0
    ensures var k, level := RunLen(line, 0, SPACE), AtxLevelOf(line);
            level <= 6 && k + level <= |line| && AtxLine(line, k, level, line[k + level..])
  {
    var k, level := RunLen(line, 0, SPACE), AtxLevelOf(line);
    RunLenIsRun(line, k, HASH, k);
    assert Scanned(line, k, HASH, level, line[k + level..]);
    ScannedIndents(line, k, HASH, level, line[k + level..]);
  }

  lemma AtxLineHasLevel(line: bytes, k: nat, level: nat, rest: bytes)
    requires 0 < level <= 6 && AtxLine(line, k, level, rest)
    ensures AtxLevelOf(line) == level
  {
    IndentedIsScanned(line, k, HASH, level, rest);
  }

  // ----- setext underlines -----

  predicate IsSpaceOrTab(b: byte) {
    b == SPACE || b == TAB
  }

  predicate OnlySpaceOrTab(s: bytes) {
    forall b :: b in s ==> IsSpaceOrTab(b)
  }

  predicate SetextUnderlineOf(line: bytes) {
    var i := RunLen(line, 0, SPACE);
    && i <= 3 && i < |line|
    && (line[i] == EQUALS || line[i] == DASH)
    && OnlySpaceOrTab(line[i + RunLen(line, i, line[i])..])
  }

  method SetextUnderline(line: bytes) returns (b: bool)
    ensures b == SetextUnderlineOf(line)
  {
    var i := CountRun(line, 0, SPACE);
    if i > 3 || i >= |line| {
      return false;
    }
    var c := line[i];
    if c != EQUALS && c != DASH {
      return false;
    }
    var j := i;
    while j < |line|
      invariant i <= j <= |line| && j - i + RunLen(line, j, c) == RunLen(line, i, c)
    {
      if line[j] != c {
        return OnlySpaceOrTab(line[j..]);
      }
      j := j + 1;
    }
    return true;
  }

  lemma SetextUnderlineIff(line: bytes)
    ensures SetextUnderlineOf(line) <==>
            exists k: nat, c: byte, n: nat, rest: bytes ::
              k <= 3 && n >= 1 && (c == EQUALS || c == DASH) && Indented(line, k, c, n, rest) && OnlySpaceOrTab(rest)
  {
    if SetextUnderlineOf(line) {
      var k := RunLen(line, 0, SPACE);
      var n := RunLen(line, k, line[k]);
      IndentedIsScanned(line, k, line[k], n, line[k + n..]);
      assert Indented(line, k, line[k], n, line[k + n..]);
    }
    forall k: nat, c: byte, n: nat, rest: bytes |
      k <= 3 && n >= 1 && (c == EQUALS || c == DASH) && Indented(line, k, c, n, rest) && OnlySpaceOrTab(rest)
      ensures SetextUnderlineOf(line)
    {
      assert rest == [] || rest[0] in rest;
      IndentedIsScanned(line, k, c, n, rest);
    }
  }
}
