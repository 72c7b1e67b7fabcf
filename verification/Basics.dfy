/** Small notions that several modules share. */
module Basics {

  function Min(a: int, b: int): int {
    if a <= b then a else b
  }

  function Max(a: int, b: int): int {
    if a >= b then a else b
  }

  /** Strictly ascending. */
  ghost predicate Ascending(s: seq<nat>) {
    forall a, b :: 0 <= a < b < |s| ==> s[a] < s[b]
  }

  lemma SliceOfSlice<T>(s: seq<T>, a: nat, b: nat, x: nat, y: nat)
    requires a <= b <= |s| && x <= y <= b - a
    ensures s[a..b][x..y] == s[a + x..a + y]
  {
    var t := s[a..b];
    forall i | 0 <= i < y - x
      ensures t[x..y][i] == s[a + x..a + y][i]
    {
      assert t[x..y][i] == t[x + i];
    }
  }

  lemma SliceSnoc<T>(s: seq<T>, a: nat, b: nat)
    requires a <= b < |s|
    ensures s[a..b + 1] == s[a..b] + [s[b]]
  {
  }

  lemma InitAndLast<T>(s: seq<T>)
    requires s != []
    ensures s == s[..|s| - 1] + [s[|s| - 1]]
  {
  }

  // ----- decimal numbers -----

  predicate IsDigit(c: char) {
    '0' <= c <= '9'
  }

  predicate AllDigits(s: string) {
    forall k :: 0 <= k < |s| ==> IsDigit(s[k])
  }

  /** The number that a row of decimal digits stands for. */
  function Magnitude(s: string): nat
    requires AllDigits(s)
  {
    if s == "" then 0 else 10 * Magnitude(s[..|s| - 1]) + (s[|s| - 1] as int - '0' as int)
  }

  function Digit(d: nat): char
    requires d < 10
  {
    ['0', '1', '2', '3', '4', '5', '6', '7', '8', '9'][d]
  }

  /** strconv.Itoa on a natural number. */
  function Itoa(n: nat): string {
    if n < 10 then [Digit(n)] else Itoa(n / 10) + [Digit(n % 10)]
  }

  lemma DigitReads(d: nat)
    requires d < 10
    ensures IsDigit(Digit(d)) && Digit(d) as int - '0' as int == d
  {
  }

  lemma MagnitudeSnoc(s: string, c: char)
    requires AllDigits(s) && IsDigit(c)
    ensures AllDigits(s + [c]) && Magnitude(s + [c]) == 10 * Magnitude(s) + (c as int - '0' as int)
  {
    assert (s + [c])[..|s|] == s;
  }

  /** Reading a printed number gives the number back. */
  lemma {:induction false} ItoaRoundTrip(n: nat)
    ensures AllDigits(Itoa(n)) && Magnitude(Itoa(n)) == n
  {
    DigitReads(n % 10);
    if n < 10 {
      MagnitudeSnoc("", Digit(n));
      assert Itoa(n) == "" + [Digit(n)];
    } else {
      ItoaRoundTrip(n / 10);
      MagnitudeSnoc(Itoa(n / 10), Digit(n % 10));
    }
  }
}
