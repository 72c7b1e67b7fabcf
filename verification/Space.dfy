/** White space as strings.TrimSpace and unicode.IsSpace see it, on UTF-8 bytes. */
module Space {
  import opened Utf8

  /** The width of the white-space rune that stands at `s[i..]`, or 0 when none does. */
  function SpaceWidth(s: bytes, i: nat): (w: nat)
    requires i <= |s|
    ensures w <= 3 && i + w <= |s|
    ensures w > 0 ==> RuneAt(s, i, w) && RuneLen(s, i) == w && RuneStart(s[i])
  {
    if i < |s| && IsSpace1(s[i]) then 1
    else if i + 1 < |s| && IsSpace2(s[i], s[i + 1]) then 2
    else if i + 2 < |s| && IsSpace3(s[i], s[i + 1], s[i + 2]) then 3
    else 0
  }

  /** Tab, LF, VT, FF, CR and the space. */
  predicate IsSpace1(a: byte) {
    9 <= a <= 13 || a == 32
  }

  /** U+0085 and U+00A0. */
  predicate IsSpace2(a: byte, b: byte) {
    a == 0xC2 && (b == 0x85 || b == 0xA0)
  }

  /** U+1680, U+2000 to U+200A, U+2028, U+2029, U+202F, U+205F and U+3000. */
  predicate IsSpace3(a: byte, b: byte, c: byte) {
    || (a == 0xE1 && b == 0x9A && c == 0x80)
    || (a == 0xE2 && b == 0x80 && (0x80 <= c <= 0x8A || c == 0xA8 || c == 0xA9 || c == 0xAF))
    || (a == 0xE2 && b == 0x81 && c == 0x9F)
    || (a == 0xE3 && b == 0x80 && c == 0x80)
  }

  /** unicode.IsSpace. */
  predicate IsSpacePoint(c: int) {
    || 9 <= c <= 13 || c == 0x20 || c == 0x85 || c == 0xA0 || c == 0x1680 || 0x2000 <= c <= 0x200A
    || c == 0x2028 || c == 0x2029 || c == 0x202F || c == 0x205F || c == 0x3000
  }

  /** The bytes are those of a white-space code point, and the width is that of its rune. */
  lemma SpaceWidthIff(s: bytes, i: nat, w: nat)
    requires i <= |s| && w > 0
    ensures SpaceWidth(s, i) == w <==> RuneAt(s, i, w) && IsSpacePoint(PointAt(s, i, w))
  {
  }

  /** The width of the white-space rune that ends at byte `j` and begins at or after `lo`, or 0. */
  function SpaceBefore(s: bytes, lo: nat, j: nat): (w: nat)
    requires lo <= j <= |s|
    ensures w <= 3 && lo + w <= j
    ensures w > 0 ==> SpaceWidth(s, j - w) == w
  {
    if lo + 1 <= j && SpaceWidth(s, j - 1) == 1 then 1
    else if lo + 2 <= j && SpaceWidth(s, j - 2) == 2 then 2
    else if lo + 3 <= j && SpaceWidth(s, j - 3) == 3 then 3
    else 0
  }

  /** When there is none, no white-space rune of `s[lo..j]` ends at `j`. */
  lemma NoSpaceBeforeEnd(s: bytes, lo: nat, j: nat, p: nat)
    requires lo <= p < j <= |s| && SpaceBefore(s, lo, j) == 0
    ensures SpaceWidth(s, p) != j - p
  {
  }

  /** `s[a..b]` is a run of white-space runes. */
  predicate SpaceRun(s: bytes, a: nat, b: nat)
    requires a <= b <= |s|
    decreases b - a
  {
    a == b || (SpaceWidth(s, a) > 0 && a + SpaceWidth(s, a) <= b && SpaceRun(s, a + SpaceWidth(s, a), b))
  }

  /** Where the leading white space that begins at `i` ends. */
  function SkipSpace(s: bytes, i: nat): (a: nat)
    requires i <= |s|
    ensures i <= a <= |s|
    decreases |s| - i
  {
    if SpaceWidth(s, i) == 0 then i else SkipSpace(s, i + SpaceWidth(s, i))
  }

  /** What is skipped is white space, all of it. */
  lemma {:induction false} SkipSpaceStops(s: bytes, i: nat)
    requires i <= |s|
    ensures SpaceWidth(s, SkipSpace(s, i)) == 0 && SpaceRun(s, i, SkipSpace(s, i))
    decreases |s| - i
  {
    if SpaceWidth(s, i) > 0 {
      SkipSpaceStops(s, i + SpaceWidth(s, i));
    }
  }

  /** Where the trailing white space of `s[lo..j]` begins. */
  function DropSpace(s: bytes, lo: nat, j: nat): (b: nat)
    requires lo <= j <= |s|
    ensures lo <= b <= j
    decreases j
  {
    if SpaceBefore(s, lo, j) == 0 then j else DropSpace(s, lo, j - SpaceBefore(s, lo, j))
  }

  /** What is dropped is white space, all of it. */
  lemma {:induction false} DropSpaceStops(s: bytes, lo: nat, j: nat)
    requires lo <= j <= |s|
    ensures SpaceBefore(s, lo, DropSpace(s, lo, j)) == 0 && SpaceRun(s, DropSpace(s, lo, j), j)
    decreases j
  {
    var w := SpaceBefore(s, lo, j);
    if w > 0 {
      DropSpaceStops(s, lo, j - w);
      SpaceRunExtend(s, DropSpace(s, lo, j), j - w, j);
    }
  }

  lemma {:induction false} SpaceRunExtend(s: bytes, a: nat, b: nat, c: nat)
    requires a <= b < c <= |s| && SpaceRun(s, a, b) && SpaceWidth(s, b) == c - b
    ensures SpaceRun(s, a, c)
    decreases b - a
  {
    if a < b {
      SpaceRunExtend(s, a + SpaceWidth(s, a), b, c);
    } else {
      assert SpaceRun(s, c, c);
    }
  }

  function TrimStart(s: bytes): nat {
    SkipSpace(s, 0)
  }

  function TrimEnd(s: bytes): nat {
    DropSpace(s, TrimStart(s), |s|)
  }

  /** strings.TrimSpace: the text between the leading and the trailing white space. */
  function TrimSpace(s: bytes): bytes {
    s[TrimStart(s)..TrimEnd(s)]
  }

  /** All of it is white space. */
  predicate IsBlank(s: bytes) {
    TrimStart(s) == |s|
  }

  /** That is, nothing is left of it when it is trimmed. */
  lemma BlankIffTrimmedAway(s: bytes)
    ensures IsBlank(s) <==> TrimSpace(s) == []
  {
    SkipSpaceStops(s, 0);
    DropSpaceStops(s, TrimStart(s), |s|);
  }

  /** White space between rune boundaries ends on a rune boundary. */
  lemma {:induction false} SpaceRunAligned(s: bytes, a: nat, b: nat)
    requires NoStray(s) && a <= b <= |s| && SpaceRun(s, a, b)
    ensures Aligned(s, a) <==> Aligned(s, b)
    decreases b - a
  {
    if a < b {
      assert StepsWhole(s, a);
      SpaceRunAligned(s, a + SpaceWidth(s, a), b);
    }
  }

  /** Trimming cuts at rune boundaries and leaves no stray byte behind. */
  lemma TrimAligned(s: bytes)
    requires NoStray(s)
    ensures Aligned(s, TrimStart(s)) && Aligned(s, TrimEnd(s)) && NoStray(TrimSpace(s))
  {
    SkipSpaceStops(s, 0);
    DropSpaceStops(s, TrimStart(s), |s|);
    SpaceRunAligned(s, 0, TrimStart(s));
    SpaceRunAligned(s, TrimEnd(s), |s|);
    SliceNoStray(s, TrimStart(s), TrimEnd(s));
  }
}
