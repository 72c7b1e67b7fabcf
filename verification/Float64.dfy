/** The two float64 steps that turn a token budget into a number of bytes. */
module Float64 {

  // ----- exact arithmetic, by name -----

  /** float64(n). */
  function Whole(n: int): real {
    n as real
  }

  function Mul(x: real, y: real): real {
    x * y
  }

  function Div(x: real, y: real): real
    requires y != 0.0
  {
    x / y
  }

  // ----- rounding -----

  /**
    * What every IEEE 754 rounding mode does to results that are neither subnormal nor above 2^53: it keeps their order,
    * leaves whole numbers alone, and is off by at most a unit in the last place, one part in 2^52.
    */
  ghost predicate Rounds(round: real -> real) {
    && (forall x: real, y: real :: x <= y ==> round(x) <= round(y))
    && (forall n: int :: round(Whole(n)) == Whole(n))
    && (forall x: real :: x >= 0.0 ==> IsNear(round(x), x))
  }

  /** Off by at most one part in 2^52. */
  predicate IsNear(rounded: real, x: real) {
    -x <= (rounded - x) * 4503599627370496.0 <= x
  }

  type Rounding = round: real -> real | Rounds(round) witness (x: real) => x

  /** The rounding of float64 operations; nothing else is known of it. */
  const ROUND: Rounding

  function Times(x: real, y: real): real {
    ROUND(Mul(x, y))
  }

  function Over(x: real, y: real): real
    requires y != 0.0
  {
    ROUND(Div(x, y))
  }

  /** int(x): truncation towards zero. */
  function Truncate(x: real): int {
    if x >= 0.0 then x.Floor else -((-x).Floor)
  }

  /** Bytes for a number of tokens, at the ratio of `len` bytes to `total` tokens. */
  function BytesFor(tokens: real, len: real, total: real): int
    requires total != 0.0
  {
    Truncate(Times(tokens, Over(len, total)))
  }

  /** A token budget as a number of bytes, at a span's own ratio of `len` bytes to `total` tokens. */
  function Window(tokens: int, len: nat, total: int): int
    requires total >= 1
  {
    BytesFor(Whole(tokens), Whole(len), Whole(total))
  }

  // ----- products and quotients -----

  lemma MulKeepsOrder(a: real, x: real, y: real)
    requires a >= 0.0 && x <= y
    ensures Mul(a, x) <= Mul(a, y)
  {
  }

  lemma MulStrict(a: real, x: real, y: real)
    requires a > 0.0 && x < y
    ensures Mul(a, x) < Mul(a, y)
  {
  }

  lemma MulSign(a: real, x: real)
    requires x >= 0.0
    ensures if a >= 0.0 then Mul(a, x) >= 0.0 else Mul(a, x) <= 0.0
  {
  }

  lemma MulWhole(a: int, b: int)
    ensures Mul(Whole(a), Whole(b)) == Whole(a * b)
  {
  }

  /** A ratio times what it is divided by. */
  lemma DivMul(x: real, y: real)
    requires y > 0.0
    ensures Mul(y, Div(x, y)) == x && (x >= 0.0 ==> Div(x, y) >= 0.0)
  {
  }

  lemma MulAssoc(x: real, y: real, z: real)
    ensures Mul(x, Mul(y, z)) == Mul(y, Mul(x, z))
  {
  }

  /** A whole number on either side of `len` as a multiple of `total` is on that side of the exact ratio. */
  lemma ExactRatio(len: nat, total: int, q: int)
    requires total >= 1
    ensures q * total <= len ==> Whole(q) <= Div(Whole(len), Whole(total))
    ensures len <= q * total ==> Div(Whole(len), Whole(total)) <= Whole(q)
  {
    var r := Div(Whole(len), Whole(total));
    DivMul(Whole(len), Whole(total));
    MulWhole(total, q);
    if r < Whole(q) {
      MulStrict(Whole(total), r, Whole(q));
    } else if Whole(q) < r {
      MulStrict(Whole(total), Whole(q), r);
    }
  }

  // ----- the window lies between whole multiples of the budget -----

  /** Rounding and truncating never leads past a whole number. */
  lemma RoundBelow(x: real, n: int)
    requires x <= Whole(n)
    ensures Truncate(ROUND(x)) <= n
  {
    assert ROUND(Whole(n)) == Whole(n);
  }

  /** Nor does it fall short of one. */
  lemma RoundAbove(x: real, n: int)
    requires 0.0 <= Whole(n) <= x
    ensures Truncate(ROUND(x)) >= n
  {
    assert ROUND(Whole(n)) == Whole(n);
  }

  lemma RatioBetween(len: nat, total: int, q: int)
    requires total >= 1
    ensures 0.0 <= Over(Whole(len), Whole(total))
    ensures q * total <= len ==> Whole(q) <= Over(Whole(len), Whole(total))
    ensures len <= q * total ==> Over(Whole(len), Whole(total)) <= Whole(q)
  {
    ExactRatio(len, total, q);
    DivMul(Whole(len), Whole(total));
    assert ROUND(Whole(0)) == Whole(0) && ROUND(Whole(q)) == Whole(q);
  }

  /** At no more than `q` bytes a token, the window holds no more than `q` bytes for each token of the budget. */
  lemma WindowBound(tokens: int, len: nat, total: int, q: int)
    requires tokens >= 1 && total >= 1 && len <= q * total
    ensures Window(tokens, len, total) <= tokens * q
  {
    var ratio := Over(Whole(len), Whole(total));
    RatioBetween(len, total, q);
    MulKeepsOrder(Whole(tokens), ratio, Whole(q));
    MulWhole(tokens, q);
    RoundBelow(Mul(Whole(tokens), ratio), tokens * q);
  }

  /** At no fewer than `q` bytes a token, the window holds no fewer than `q` bytes for each token of the budget. */
  lemma WindowAtLeast(tokens: int, len: nat, total: int, q: int)
    requires tokens >= 0 && total >= 1 && q >= 0 && q * total <= len
    ensures Window(tokens, len, total) >= tokens * q
  {
    var ratio := Over(Whole(len), Whole(total));
    RatioBetween(len, total, q);
    MulKeepsOrder(Whole(tokens), Whole(q), ratio);
    MulWhole(tokens, q);
    MulSign(Whole(tokens), Whole(q));
    RoundAbove(Mul(Whole(tokens), ratio), tokens * q);
  }

  /** A budget of nothing gives no window. */
  lemma WindowSign(tokens: int, len: nat, total: int)
    requires total >= 1 && tokens <= 0
    ensures Window(tokens, len, total) <= 0
  {
    var ratio := Over(Whole(len), Whole(total));
    RatioBetween(len, total, 0);
    MulSign(Whole(tokens), ratio);
    RoundBelow(Mul(Whole(tokens), ratio), 0);
  }

  /** At exactly `q` bytes a token it holds exactly that many. */
  lemma WindowExact(tokens: int, total: int, q: nat)
    requires tokens >= 0 && total >= 1
    ensures q * total >= 0 && Window(tokens, q * total, total) == tokens * q
  {
    WindowAtLeast(tokens, q * total, total, q);
    if tokens >= 1 {
      WindowBound(tokens, q * total, total, q);
    } else {
      WindowSign(tokens, q * total, total);
    }
  }

  // ----- at any ratio the window is next to the exact quotient -----

  /** `n` is the exact quotient of `num` by `den`, less than two below or one above. */
  predicate Near(n: int, num: int, den: int) {
    (n - 1) * den < num < (n + 2) * den
  }

  lemma Between(y: real, p: real, error: real)
    requires -p <= error * 4503599627370496.0 <= p <= 1125899906842624.0 && y == p + error
    ensures p - 0.3 <= y <= p + 0.3
  {
  }

  lemma MulError(t: real, r: real, rounded: real)
    requires t >= 0.0 && IsNear(rounded, r)
    ensures IsNear(Mul(t, rounded), Mul(t, r))
  {
    var error := rounded - r;
    MulKeepsOrder(t, -r, error * 4503599627370496.0);
    MulKeepsOrder(t, error * 4503599627370496.0, r);
    assert Mul(t, error * 4503599627370496.0) == Mul(t, error) * 4503599627370496.0;
    assert Mul(t, -r) == -Mul(t, r);
    assert Mul(t, rounded) == Mul(t, r) + Mul(t, error);
  }

  lemma TruncateIsNear(x: real)
    requires x >= 0.0
    ensures x - 1.0 < Whole(Truncate(x)) <= x
  {
  }

  /** A result up to 2^50, rounded and truncated. */
  lemma RoundedIsNear(y: real)
    requires 0.0 <= y <= 1125899906842625.0
    ensures y - 1.3 < Whole(Truncate(ROUND(y))) <= y + 0.3
  {
    assert ROUND(Whole(0)) == Whole(0);
    assert IsNear(ROUND(y), y);
    TruncateIsNear(ROUND(y));
  }

  /** A rounded ratio, times a number and rounded again, and truncated: off by less than two below and one above. */
  lemma BytesNear(t: real, l: real, d: real, r: real)
    requires 0.0 <= t && 0.0 <= l && d > 0.0 && r == Div(l, d) && Mul(t, r) <= 1125899906842624.0
    ensures Mul(t, r) - 2.0 < Whole(BytesFor(t, l, d)) < Mul(t, r) + 1.0
  {
    var rounded := Over(l, d);
    DivMul(l, d);
    assert ROUND(Whole(0)) == Whole(0);
    MulError(t, r, rounded);
    MulSign(t, r);
    MulSign(t, rounded);
    Between(Mul(t, rounded), Mul(t, r), Mul(t, rounded) - Mul(t, r));
    RoundedIsNear(Mul(t, rounded));
  }

  lemma BelowFromReal(a: int, den: int, num: int, exact: real)
    requires den >= 1 && Mul(Whole(den), exact) == Whole(num)
    ensures Whole(a) < exact ==> a * den < num
    ensures exact < Whole(a) ==> num < a * den
    ensures exact <= Whole(a) <==> num <= a * den
  {
    MulWhole(den, a);
    if Whole(a) < exact {
      MulStrict(Whole(den), Whole(a), exact);
    } else if exact < Whole(a) {
      MulStrict(Whole(den), exact, Whole(a));
    }
  }

  lemma NearFromReal(n: int, num: int, den: int, exact: real)
    requires den >= 1 && Mul(Whole(den), exact) == Whole(num) && exact - 2.0 < Whole(n) < exact + 1.0
    ensures Near(n, num, den)
  {
    BelowFromReal(n - 1, den, num, exact);
    BelowFromReal(n + 2, den, num, exact);
  }

  /** A whole number of times the exact ratio is the quotient of the products. */
  lemma ExactProduct(tokens: int, len: nat, total: int, r: real)
    requires total >= 1 && r == Div(Whole(len), Whole(total))
    ensures Mul(Whole(total), Mul(Whole(tokens), r)) == Whole(tokens * len)
  {
    DivMul(Whole(len), Whole(total));
    MulAssoc(Whole(total), Whole(tokens), r);
    MulWhole(tokens, len);
  }

  /** The window is next to the exact quotient, as long as that is no more than 2^50 bytes. */
  lemma WindowIsNear(tokens: int, len: nat, total: int)
    requires tokens >= 0 && total >= 1 && tokens * len <= 1125899906842624 * total
    ensures Near(Window(tokens, len, total), tokens * len, total)
  {
    var r := Div(Whole(len), Whole(total));
    var exact := Mul(Whole(tokens), r);
    ExactProduct(tokens, len, total, r);
    BelowFromReal(1125899906842624, total, tokens * len, exact);
    BytesNear(Whole(tokens), Whole(len), Whole(total), r);
    NearFromReal(Window(tokens, len, total), tokens * len, total, exact);
  }
}
