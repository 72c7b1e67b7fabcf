/** Text as the chunker sees it: a sequence of bytes read as UTF-8 (section 3 of RFC 3629). */
module Utf8 {

  type byte = x: int | 0 <= x < 0x100
  type bytes = seq<byte>

  const LF: byte := 10
  const CR: byte := 13
  const TAB: byte := 9
  const SPACE: byte := 32

  /** A continuation byte, 10xxxxxx. */
  predicate Cont(b: byte) {
    0x80 <= b < 0xC0
  }

  /** utf8.RuneStart: every byte that is not a continuation byte. */
  predicate RuneStart(b: byte) {
    !Cont(b)
  }

  /** One complete, well-formed encoding of `w` bytes stands at `s[i..]`. */
  predicate RuneAt(s: bytes, i: nat, w: nat) {
    && 1 <= w <= 4
    && i + w <= |s|
    && (w == 1 ==> s[i] < 0x80)
    && (w == 2 ==> 0xC2 <= s[i] <= 0xDF && Cont(s[i + 1]))
    && (w == 3 ==> 0xE0 <= s[i] <= 0xEF && SecondOf3(s[i], s[i + 1]) && Cont(s[i + 2]))
    && (w == 4 ==> 0xF0 <= s[i] <= 0xF4 && SecondOf4(s[i], s[i + 1]) && Cont(s[i + 2]) && Cont(s[i + 3]))
  }

  /** Excludes overlong forms and surrogates. */
  predicate SecondOf3(lead: byte, b: byte) {
    (if lead == 0xE0 then 0xA0 else 0x80) <= b <= (if lead == 0xED then 0x9F else 0xBF)
  }

  /** Excludes overlong forms and values above U+10FFFF. */
  predicate SecondOf4(lead: byte, b: byte) {
    (if lead == 0xF0 then 0x90 else 0x80) <= b <= (if lead == 0xF4 then 0x8F else 0xBF)
  }

  // ----- code points -----

  /** Six more bits behind those of `high`. */
  function Bits(high: int, b: int): int {
    high * 0x40 + (b - 0x80)
  }

  /** A lead byte of `w` bytes (0xxxxxxx, 110xxxxx, 1110xxxx or 11110xxx) and the continuation bytes it asks for. */
  predicate ShapedAt(s: bytes, i: nat, w: nat) {
    && 1 <= w <= 4 && i + w <= |s|
    && (if w == 1 then 0 <= s[i] < 0x80 else if w == 2 then 0xC0 <= s[i] < 0xE0
        else if w == 3 then 0xE0 <= s[i] < 0xF0 else 0xF0 <= s[i] < 0xF8)
    && forall k :: i < k < i + w ==> Cont(s[k])
  }

  /** The value these bytes carry. */
  function PointAt(s: bytes, i: nat, w: nat): int
    requires 1 <= w <= 4 && i + w <= |s|
  {
    var lead: int := s[i];
    if w == 1 then lead
    else if w == 2 then Bits(lead - 0xC0, s[i + 1])
    else if w == 3 then Bits(Bits(lead - 0xE0, s[i + 1]), s[i + 2])
    else Bits(Bits(Bits(lead - 0xF0, s[i + 1]), s[i + 2]), s[i + 3])
  }

  /** A code point other than a surrogate, whose shortest form takes `w` bytes. */
  predicate ScalarOf(c: int, w: nat) {
    && (0 <= c < 0xD800 || 0xE000 <= c < 0x11_0000)
    && w == (if c < 0x80 then 1 else if c < 0x800 then 2 else if c < 0x1_0000 then 3 else 4)
  }

  /** A rune is a well-shaped form, as short as can be, of a Unicode scalar value. */
  lemma RuneAtIff(s: bytes, i: nat, w: nat)
    ensures RuneAt(s, i, w) <==> ShapedAt(s, i, w) && ScalarOf(PointAt(s, i, w), w)
  {
  }

  /** The size utf8.DecodeRuneInString reports at `s[i..]`: 0 at the end, 1 on an encoding error. */
  function RuneLen(s: bytes, i: nat): (w: nat)
    requires i <= |s|
    ensures i == |s| ==> w == 0
    ensures i < |s| ==> 1 <= w <= 4 && i + w <= |s|
    ensures forall v :: RuneAt(s, i, v) ==> v == w
  {
    if i == |s| then 0
    else if RuneAt(s, i, 2) then 2
    else if RuneAt(s, i, 3) then 3
    else if RuneAt(s, i, 4) then 4
    else 1
  }

  /** It is the width of the rune that stands there, and 1 where none does. */
  lemma RuneLenIs(s: bytes, i: nat)
    requires i < |s|
    ensures RuneAt(s, i, RuneLen(s, i)) || (RuneLen(s, i) == 1 && forall w :: !RuneAt(s, i, w))
  {
  }

  /** A complete rune stands at `i`, and the next rune or the end of the text follows it. */
  predicate WholeRune(s: bytes, i: nat)
    requires i < |s|
  {
    var w := RuneLen(s, i);
    RuneAt(s, i, w) && (i + w == |s| || RuneStart(s[i + w]))
  }

  /** Valid UTF-8, stated locally: no stray continuation byte and no broken rune. */
  ghost predicate Valid(s: bytes) {
    && (s != [] ==> RuneStart(s[0]))
    && forall i: nat {:trigger WholeRune(s, i)} :: i < |s| && RuneStart(s[i]) ==> WholeRune(s, i)
  }

  /** runeAligned: the ends of the text and every rune start. */
  predicate Aligned(s: bytes, i: int) {
    0 <= i <= |s| && (i == 0 || i == |s| || RuneStart(s[i]))
  }

  /** utf8.RuneCountInString from byte `i` on: one per decoding step, errors included. */
  function RuneCountFrom(s: bytes, i: nat): nat
    requires i <= |s|
    decreases |s| - i
  {
    if i == |s| then 0 else 1 + RuneCountFrom(s, i + RuneLen(s, i))
  }

  function RuneCount(s: bytes): nat {
    RuneCountFrom(s, 0)
  }

  /** Decoding left to right meets no error: the textbook reading of "valid UTF-8". */
  predicate DecodesFrom(s: bytes, i: nat)
    requires i <= |s|
    decreases |s| - i
  {
    i == |s| || (RuneAt(s, i, RuneLen(s, i)) && DecodesFrom(s, i + RuneLen(s, i)))
  }

  /** The local definition of validity is the textbook one. */
  lemma ValidIffDecodes(s: bytes)
    ensures Valid(s) <==> DecodesFrom(s, 0)
  {
    if Valid(s) {
      ValidDecodes(s, 0);
    }
    if DecodesFrom(s, 0) {
      DecodesValid(s, 0);
    }
  }

  lemma {:induction false} ValidDecodes(s: bytes, i: nat)
    requires Valid(s) && Aligned(s, i)
    ensures DecodesFrom(s, i)
    decreases |s| - i
  {
    if i < |s| {
      assert WholeRune(s, i);
      ValidDecodes(s, i + RuneLen(s, i));
    }
  }

  lemma {:induction false} DecodesValid(s: bytes, i: nat)
    requires i <= |s| && DecodesFrom(s, i)
    ensures i < |s| ==> RuneStart(s[i])
    ensures forall k: nat {:trigger WholeRune(s, k)} :: i <= k < |s| && RuneStart(s[k]) ==> WholeRune(s, k)
    decreases |s| - i
  {
    if i < |s| {
      var w := RuneLen(s, i);
      DecodesValid(s, i + w);
      assert WholeRune(s, i);
    }
  }

  // ----- texts without a stray continuation byte -----

  /** The decoding step at `i` ends on a rune boundary. */
  predicate StepsWhole(s: bytes, i: nat)
    requires i < |s|
  {
    Aligned(s, i + RuneLen(s, i))
  }

  /**
    * No continuation byte is left over behind a decoding step: weaker than validity, since a byte that begins
    * no rune is allowed as long as it does not look like the inside of one.
    */
  ghost predicate NoStray(s: bytes) {
    forall i: nat {:trigger StepsWhole(s, i)} :: i < |s| && Aligned(s, i) ==> StepsWhole(s, i)
  }

  lemma ValidNoStray(s: bytes)
    requires Valid(s)
    ensures NoStray(s)
  {
    forall i: nat | i < |s| && Aligned(s, i)
      ensures StepsWhole(s, i)
    {
      assert WholeRune(s, i);
    }
  }

  /** Decoding left to right from `i` steps from rune boundary to rune boundary. */
  predicate WalksWhole(s: bytes, i: nat)
    requires i <= |s|
    decreases |s| - i
  {
    i == |s| || (StepsWhole(s, i) && WalksWhole(s, i + RuneLen(s, i)))
  }

  /** Decoding visits every rune boundary, so it is enough to look at the positions it visits. */
  lemma {:induction false} WalkSeesAll(s: bytes, i: nat, k: nat)
    requires i <= k < |s| && Aligned(s, i) && Aligned(s, k) && WalksWhole(s, i)
    ensures StepsWhole(s, k)
    decreases |s| - i
  {
    if i < k {
      WalkSeesAll(s, i + RuneLen(s, i), k);
    }
  }

  lemma {:induction false} NoStrayWalks(s: bytes, i: nat)
    requires NoStray(s) && Aligned(s, i)
    ensures WalksWhole(s, i)
    decreases |s| - i
  {
    if i < |s| {
      assert StepsWhole(s, i);
      NoStrayWalks(s, i + RuneLen(s, i));
    }
  }

  lemma NoStrayIffWalks(s: bytes)
    ensures NoStray(s) <==> WalksWhole(s, 0)
  {
    if WalksWhole(s, 0) {
      forall i: nat | i < |s| && Aligned(s, i)
        ensures StepsWhole(s, i)
      {
        WalkSeesAll(s, 0, i);
      }
    }
    if NoStray(s) {
      NoStrayWalks(s, 0);
    }
  }

  /** The rune that begins at an aligned position ends at or before any later aligned position. */
  lemma NextRune(s: bytes, i: nat, j: nat)
    requires NoStray(s) && Aligned(s, i) && Aligned(s, j) && i < j
    ensures i + RuneLen(s, i) <= j
    ensures Aligned(s, i + RuneLen(s, i))
  {
    assert StepsWhole(s, i);
  }

  /** A slice between rune boundaries has no stray byte either. */
  lemma SliceNoStray(s: bytes, a: nat, b: nat)
    requires NoStray(s) && Aligned(s, a) && Aligned(s, b) && a <= b
    ensures NoStray(s[a..b])
  {
    var t := s[a..b];
    forall i: nat | i < |t| && Aligned(t, i)
      ensures StepsWhole(t, i)
    {
      assert t[i] == s[a + i];
      NextRune(s, a + i, b);
      RuneLenSlice(s, a, b, i);
    }
  }

  /** A rune that ends inside a slice is read there as it is in the whole text. */
  lemma RuneLenSlice(s: bytes, a: nat, b: nat, i: nat)
    requires a + i < b <= |s| && a + i + RuneLen(s, a + i) <= b
    ensures RuneLen(s[a..b], i) == RuneLen(s, a + i)
  {
    var t := s[a..b];
    assert forall k :: 0 <= k < |t| ==> t[k] == s[a + k];
    assert forall w :: RuneAt(t, i, w) ==> RuneAt(s, a + i, w);
    assert RuneAt(s, a + i, RuneLen(s, a + i)) ==> RuneAt(t, i, RuneLen(s, a + i));
  }

  /** Right after a byte below 0x80 there is a rune boundary. */
  lemma AfterAscii(s: bytes, i: nat)
    requires NoStray(s) && 0 < i <= |s| && s[i - 1] < 0x80
    ensures Aligned(s, i)
  {
    assert StepsWhole(s, i - 1);
  }

  /** The number of rune boundaries before the end: the first byte, and every rune-start byte behind it. */
  function Starts(s: bytes): nat {
    if s == [] then 0
    else Starts(s[..|s| - 1]) + (if |s| == 1 || RuneStart(s[|s| - 1]) then 1 else 0)
  }

  lemma {:induction false} StartsConcat(a: bytes, b: bytes)
    requires b != [] ==> a == [] || RuneStart(b[0])
    ensures Starts(a + b) == Starts(a) + Starts(b)
    decreases |b|
  {
    if b == [] {
      assert a + b == a;
    } else {
      assert (a + b)[..|a + b| - 1] == a + b[..|b| - 1];
      StartsConcat(a, b[..|b| - 1]);
    }
  }

  lemma {:induction false} CountIsStarts(s: bytes, i: nat)
    requires NoStray(s) && Aligned(s, i)
    ensures RuneCountFrom(s, i) == Starts(s[i..])
    decreases |s| - i
  {
    if i < |s| {
      var w := RuneLen(s, i);
      assert StepsWhole(s, i);
      CountIsStarts(s, i + w);
      var head, tail := s[i..i + w], s[i + w..];
      assert s[i..] == head + tail;
      StartsConcat(head, tail);
      OneStart(head);
    }
  }

  lemma {:induction false} OneStart(s: bytes)
    requires s != [] && forall k :: 0 < k < |s| ==> Cont(s[k])
    ensures Starts(s) == 1
  {
    if |s| > 1 {
      OneStart(s[..|s| - 1]);
    } else {
      assert s[..0] == [];
    }
  }

  /** Rune counts add up across a cut at a rune boundary. */
  lemma CountAdds(s: bytes, a: nat, b: nat, c: nat)
    requires NoStray(s) && Aligned(s, a) && Aligned(s, b) && Aligned(s, c) && a <= b <= c
    ensures RuneCount(s[a..c]) == RuneCount(s[a..b]) + RuneCount(s[b..c])
  {
    SliceNoStray(s, a, b);
    SliceNoStray(s, b, c);
    SliceNoStray(s, a, c);
    var left, right := s[a..b], s[b..c];
    assert s[a..c] == left + right;
    CountWhole(left);
    CountWhole(right);
    CountWhole(left + right);
    StartsConcat(left, right);
  }

  lemma CountWhole(s: bytes)
    requires NoStray(s)
    ensures RuneCount(s) == Starts(s)
  {
    CountIsStarts(s, 0);
    assert s[0..] == s;
  }

  /** A rune takes at least one byte and at most four. */
  lemma {:induction false} CountBounds(s: bytes, i: nat)
    requires i <= |s|
    ensures RuneCountFrom(s, i) <= |s| - i <= 4 * RuneCountFrom(s, i)
    decreases |s| - i
  {
    if i < |s| {
      CountBounds(s, i + RuneLen(s, i));
    }
  }

  lemma {:induction false} CountSingleByte(s: bytes, i: nat)
    requires i <= |s| && forall k :: 0 <= k < |s| ==> s[k] < 0x80
    ensures RuneCountFrom(s, i) == |s| - i
    decreases |s| - i
  {
    if i < |s| {
      CountSingleByte(s, i + 1);
    }
  }
}
