/**
Conversion of positive decimals to IEEE 754 binary64 (round to nearest, ties to even) and back through
the shortest decimal that reads as the same float, which is what `repr` prints.

The exponent range is taken as unbounded; money stays far inside it.
*/
module Binary64 {

  function Pow2(e: int): (p: real)
    ensures p > 0.0
    decreases if e < 0 then -e else e
  {
    if e == 0 then 1.0 else if e > 0 then 2.0 * Pow2(e - 1) else Pow2(e + 1) / 2.0
  }

  function Pow10(e: int): (p: real)
    ensures p > 0.0
    decreases if e < 0 then -e else e
  {
    if e == 0 then 1.0 else if e > 0 then 10.0 * Pow10(e - 1) else Pow10(e + 1) / 10.0
  }

  const MIN_SIGNIFICAND: int := 0x10_0000_0000_0000
  const END_SIGNIFICAND: int := 0x20_0000_0000_0000

  // ---------------------------------------------------------------- rounding

  // `e` scales `y` into the range of 53-bit significands.
  predicate Scales(y: real, e: int) {
    MIN_SIGNIFICAND as real * Pow2(e) <= y < END_SIGNIFICAND as real * Pow2(e)
  }

  function ScaleUp(y: real, e: int): (r: int)
    requires MIN_SIGNIFICAND as real * Pow2(e) <= y
    ensures Scales(y, r)
    decreases (y / Pow2(e)).Floor
  {
    if y < END_SIGNIFICAND as real * Pow2(e) then e
    else
      HalfIsSmaller(y, Pow2(e));
      assert Pow2(e + 1) == 2.0 * Pow2(e) by { Pow2Step(e); }
      ScaleUp(y, e + 1)
  }

  function ScaleDown(y: real, e: int): (r: int)
    requires 0.0 < y < END_SIGNIFICAND as real * Pow2(e)
    ensures Scales(y, r)
    decreases (END_SIGNIFICAND as real * Pow2(e) / y).Floor
  {
    if MIN_SIGNIFICAND as real * Pow2(e) <= y then e
    else
      assert Pow2(e) == 2.0 * Pow2(e - 1) by { Pow2Step(e - 1); }
      HalfIsSmaller(END_SIGNIFICAND as real * Pow2(e), y);
      assert END_SIGNIFICAND as real * Pow2(e - 1) == END_SIGNIFICAND as real * Pow2(e) / 2.0;
      ScaleDown(y, e - 1)
  }

  function Scale(y: real): (e: int)
    requires y > 0.0
    ensures Scales(y, e)
  {
    if MIN_SIGNIFICAND as real * Pow2(0) <= y then ScaleUp(y, 0) else ScaleDown(y, 0)
  }

  lemma Pow2Step(e: int)
    ensures Pow2(e + 1) == 2.0 * Pow2(e)
  {
  }

  lemma HalfIsSmaller(y: real, p: real)
    requires 0.0 < p && p <= y
    ensures 0 <= (y / (2.0 * p)).Floor < (y / p).Floor
    ensures 0 <= (y / 2.0 / p).Floor < (y / p).Floor
  {
    var q := y / p;
    assert q >= 1.0 by { assert q * p == y; }
    assert y / (2.0 * p) == q / 2.0 by { assert q / 2.0 * (2.0 * p) == y; }
    assert y / 2.0 / p == q / 2.0 by { assert q / 2.0 * p == y / 2.0; }
    assert q.Floor >= 1;
    assert (q / 2.0).Floor as real <= q / 2.0;
  }

  // The integer nearest to `q`, the even one of two.
  function NearestInt(q: real): (m: int)
    ensures -0.5 <= q - m as real <= 0.5
    ensures q - m as real == 0.5 || q - m as real == -0.5 ==> m % 2 == 0
  {
    var f := q.Floor;
    var rest := q - f as real;
    if rest < 0.5 then f else if rest > 0.5 then f + 1 else if f % 2 == 0 then f else f + 1
  }

  // float(y)
  function Round(y: real): (f: real)
    requires y > 0.0
    ensures f > 0.0
  {
    var e := Scale(y);
    ScaledQuotient(y, e);
    Positive(NearestInt(y / Pow2(e)) as real, Pow2(e));
    NearestInt(y / Pow2(e)) as real * Pow2(e)
  }

  // A positive binary64 number.
  ghost predicate IsFloat(f: real) {
    exists m, e :: MIN_SIGNIFICAND <= m < END_SIGNIFICAND && f == FloatOf(m, e)
  }

  function FloatOf(m: int, e: int): real {
    m as real * Pow2(e)
  }

  function Abs(x: real): real {
    if x < 0.0 then -x else x
  }

  lemma RoundIsFloat(y: real)
    requires y > 0.0
    ensures IsFloat(Round(y))
  {
    var e := Scale(y);
    var q := y / Pow2(e);
    assert q * Pow2(e) == y;
    assert MIN_SIGNIFICAND as real <= q < END_SIGNIFICAND as real by { ScaledQuotient(y, e); }
    var m := NearestInt(q);
    if m == END_SIGNIFICAND {
      Pow2Step(e);
      assert Round(y) == FloatOf(MIN_SIGNIFICAND, e + 1);
    } else {
      assert Round(y) == FloatOf(m, e);
    }
  }

  lemma ScaledQuotient(y: real, e: int)
    requires Scales(y, e)
    ensures MIN_SIGNIFICAND as real <= y / Pow2(e) < END_SIGNIFICAND as real
    ensures y / Pow2(e) * Pow2(e) == y
  {
    DivBounds(MIN_SIGNIFICAND as real, END_SIGNIFICAND as real, y, Pow2(e));
  }

  lemma DivBounds(a: real, b: real, y: real, p: real)
    requires p > 0.0 && a * p <= y < b * p
    ensures a <= y / p < b && y / p * p == y
  {
    var q := y / p;
    assert q * p == y;
    if q < a {
      ScaledStrictly(q, a, p);
    }
    if b <= q {
      Scaled(b, q, p);
    }
  }

  lemma Positive(a: real, p: real)
    requires a > 0.0 && p > 0.0
    ensures a * p > 0.0
  {
  }

  lemma Scaled(a: real, b: real, p: real)
    requires a <= b && p > 0.0
    ensures a * p <= b * p
  {
  }

  lemma ScaledStrictly(a: real, b: real, p: real)
    requires a < b && p > 0.0
    ensures a * p < b * p
  {
  }

  lemma AbsScaled(a: real, b: real, p: real)
    requires p > 0.0
    ensures Abs(a * p - b * p) == Abs(a - b) * p
  {
    assert a * p - b * p == (a - b) * p;
    if a < b {
      ScaledStrictly(a, b, p);
    } else {
      Scaled(b, a, p);
    }
  }

  lemma {:induction false} Pow2Monotone(d: int, e: int)
    requires d <= e
    ensures Pow2(d) <= Pow2(e)
    decreases e - d
  {
    if d < e {
      Pow2Step(d);
      Pow2Monotone(d + 1, e);
    }
  }

  // A number on the grid of its own scale: quotient, rounded quotient, unit.
  lemma OnGrid(y: real) returns (q: real, m: int, p: real)
    requires y > 0.0
    ensures p == Pow2(Scale(y)) && y == q * p && Round(y) == m as real * p
    ensures MIN_SIGNIFICAND as real <= q && m == NearestInt(q)
  {
    var e := Scale(y);
    ScaledQuotient(y, e);
    p := Pow2(e);
    q := y / p;
    m := NearestInt(q);
  }

  /** The rounding error is at most half a unit in the last place, relative to the number. */
  lemma RelativeError(y: real)
    requires y > 0.0
    ensures Abs(Round(y) - y) * END_SIGNIFICAND as real <= y
  {
    hide Round, Scale, Pow2, NearestInt;
    var q, m, p := OnGrid(y);
    HalfUnit(q, m as real, p);
  }

  lemma HalfUnit(q: real, m: real, p: real)
    requires p > 0.0 && Abs(m - q) <= 0.5 && MIN_SIGNIFICAND as real <= q
    ensures Abs(m * p - q * p) * END_SIGNIFICAND as real <= q * p
  {
    AbsScaled(m, q, p);
    Scaled(Abs(m - q), 0.5, p);
    Scaled(MIN_SIGNIFICAND as real, q, p);
    HalfScaled(Abs(m * p - q * p), p, q * p);
  }

  lemma HalfScaled(u: real, p: real, v: real)
    requires u <= 0.5 * p && MIN_SIGNIFICAND as real * p <= v
    ensures u * END_SIGNIFICAND as real <= v
  {}

  /** No binary64 number is nearer. */
  lemma RoundIsNearest(y: real, g: real)
    requires y > 0.0 && IsFloat(g)
    ensures Abs(Round(y) - y) <= Abs(g - y)
  {
    var n, d :| MIN_SIGNIFICAND <= n < END_SIGNIFICAND && g == FloatOf(n, d);
    var e := Scale(y);
    var k := if d == e then n else if d < e then MIN_SIGNIFICAND else END_SIGNIFICAND;
    if d < e {
      LowerFloat(y, e, n, d);
    } else if e < d {
      UpperFloat(y, e, n, d);
    }
    RoundIsNearestOnGrid(y, k);
  }

  // Among the points of y's own grid the rounded one is nearest.
  lemma RoundIsNearestOnGrid(y: real, k: int)
    requires y > 0.0
    ensures Abs(Round(y) - y) <= Abs(FloatOf(k, Scale(y)) - y)
  {
    hide Round, Scale, Pow2, NearestInt;
    var q, m, p := OnGrid(y);
    NearestIntIsNearest(q, m, k, p, y);
    assert FloatOf(k, Scale(y)) == k as real * p;
  }

  // Any float of a smaller scale lies below the whole grid, any of a larger one above it.
  lemma LowerFloat(y: real, e: int, n: int, d: int)
    requires Scales(y, e) && n < END_SIGNIFICAND && d < e
    ensures Abs(FloatOf(MIN_SIGNIFICAND, e) - y) <= Abs(FloatOf(n, d) - y)
  {
    DoubleAtMost(d, e);
    BelowTheScale(n, Pow2(d), Pow2(e));
    assert FloatOf(n, d) <= FloatOf(MIN_SIGNIFICAND, e) <= y;
  }

  lemma UpperFloat(y: real, e: int, n: int, d: int)
    requires Scales(y, e) && MIN_SIGNIFICAND <= n && e < d
    ensures Abs(FloatOf(END_SIGNIFICAND, e) - y) <= Abs(FloatOf(n, d) - y)
  {
    DoubleAtMost(e, d);
    AboveTheScale(n, Pow2(e), Pow2(d));
    assert y <= FloatOf(END_SIGNIFICAND, e) <= FloatOf(n, d);
  }

  lemma DoubleAtMost(e: int, d: int)
    requires e < d
    ensures 2.0 * Pow2(e) <= Pow2(d)
  {
    Pow2Monotone(e + 1, d);
    Pow2Step(e);
  }

  lemma BelowTheScale(n: int, small: real, p: real)
    requires small > 0.0 && 2.0 * small <= p && n <= END_SIGNIFICAND
    ensures n as real * small <= MIN_SIGNIFICAND as real * p
  {
    Scaled(n as real, END_SIGNIFICAND as real, small);
  }

  lemma AboveTheScale(n: int, p: real, big: real)
    requires p > 0.0 && 2.0 * p <= big && MIN_SIGNIFICAND <= n
    ensures n as real * big >= END_SIGNIFICAND as real * p
  {
    Scaled(MIN_SIGNIFICAND as real, n as real, big);
  }

  lemma NearestIntIsNearest(q: real, m: int, k: int, p: real, y: real)
    requires p > 0.0 && m == NearestInt(q) && y == q * p
    ensures Abs(m as real * p - y) <= Abs(k as real * p - y)
  {
    NearestIntAbs(q, k);
    ScaledOrder(m as real, k as real, q, p);
  }

  lemma NearestIntAbs(q: real, k: int)
    ensures Abs(NearestInt(q) as real - q) <= Abs(k as real - q)
  {
    hide NearestInt;
    var m := NearestInt(q);
    if k < m {
      assert k as real <= m as real - 1.0;
    } else if m < k {
      assert m as real <= k as real - 1.0;
    }
  }

  lemma ScaledOrder(x: real, z: real, q: real, p: real)
    requires p > 0.0 && Abs(x - q) <= Abs(z - q)
    ensures Abs(x * p - q * p) <= Abs(z * p - q * p)
  {
    AbsScaled(x, q, p);
    AbsScaled(z, q, p);
    Scaled(Abs(x - q), Abs(z - q), p);
  }

  // ---------------------------------------------------------------- decimals

  function TenTo(k: nat): (n: nat)
    ensures n > 0
  {
    if k == 0 then 1 else 10 * TenTo(k - 1)
  }

  // `d` is a whole number of at most `k` digits, times a power of ten.
  ghost predicate HasDigits(d: real, k: nat) {
    exists m: nat, j: int :: m < TenTo(k) && d == Decimal(m, j)
  }

  function Decimal(m: nat, j: int): real {
    m as real * Pow10(j)
  }

  // What float() and back promises: `d` reads as `f`, and nothing shorter does.
  ghost predicate IsRepr(f: real, d: real) {
    && d > 0.0 && Round(d) == f
    && forall c, k :: c > 0.0 && HasDigits(c, k) && Round(c) == f ==> HasDigits(d, k)
  }

  lemma {:induction false} Pow10Shift(i: int, n: nat)
    ensures Pow10(i + n) == TenTo(n) as real * Pow10(i)
    decreases n
  {
    if n > 0 {
      Pow10Shift(i, n - 1);
      assert Pow10(i + n) == 10.0 * Pow10(i + n - 1);
    }
  }

  // Two whole numbers, one of them below M, differ by at least an M-th of the larger.
  lemma RelativeGap(a: nat, b: nat, limit: nat)
    requires a != b && a < limit
    ensures limit * (if a < b then b - a else a - b) >= (if a < b then b else a)
  {
    if a < b && b > limit {
      FarApart(a, b, limit);
    } else if a < b {
      MulMonotone(limit, 1, b - a);
    } else {
      MulMonotone(limit, 1, a - b);
    }
  }

  lemma FarApart(a: nat, b: nat, limit: nat)
    requires a < limit < b
    ensures limit * (b - a) >= b
  {
    var least := limit * (b - (limit - 1));
    assert least - b >= 0 by {
      Distribute(limit, b);
      MulMonotone(limit - 1, 0, b - limit);
    }
    MulMonotone(limit, b - (limit - 1), b - a);
  }

  lemma MulMonotone(k: nat, a: int, b: int)
    requires a <= b
    ensures k * a <= k * b
  {
  }

  lemma Distribute(m: int, b: int)
    ensures m * (b - (m - 1)) - b == (m - 1) * (b - m)
  {
  }

  const SAFE_DIGITS: nat := 15

  lemma SafeDigitsFit()
    ensures 2 * TenTo(SAFE_DIGITS) < END_SIGNIFICAND
  {
    assert TenTo(5) == 100000;
    assert TenTo(10) == 100000 * TenTo(5);
    assert TenTo(15) == 100000 * TenTo(10);
  }

  // Two decimals on a common power of ten.
  lemma CommonScale(m: nat, i: int, n: nat, j: int) returns (a: nat, b: nat, p: real)
    ensures p > 0.0 && Decimal(m, i) == a as real * p && Decimal(n, j) == b as real * p
    ensures a == m || b == n
  {
    if i <= j {
      b := Rescale(n, i, j - i);
      a, p := m, Pow10(i);
    } else {
      a := Rescale(m, j, i - j);
      b, p := n, Pow10(j);
    }
  }

  lemma Rescale(n: nat, i: int, k: nat) returns (b: nat)
    ensures Decimal(n, i + k) == b as real * Pow10(i)
  {
    Pow10Shift(i, k);
    b := n * TenTo(k);
    Associate(n, TenTo(k), Pow10(i));
  }

  lemma Associate(n: nat, t: nat, p: real)
    ensures n as real * (t as real * p) == (n * t) as real * p
  {
    assert (n * t) as real == n as real * t as real;
  }

  lemma ShortDecimalsAreDistinct(x: real, y: real, f: real, k: nat)
    requires HasDigits(x, k) && HasDigits(y, k) && 2 * TenTo(k) < END_SIGNIFICAND
    requires Abs(f - x) * END_SIGNIFICAND as real <= x && Abs(f - y) * END_SIGNIFICAND as real <= y
    ensures x == y
  {
    var a, b, p := CommonUnit(x, y, k);
    SameFloat(x, y, f, a, b, p, TenTo(k));
  }

  lemma CommonUnit(x: real, y: real, k: nat) returns (a: nat, b: nat, p: real)
    requires HasDigits(x, k) && HasDigits(y, k)
    ensures p > 0.0 && x == a as real * p && y == b as real * p
    ensures a < TenTo(k) || b < TenTo(k)
  {
    var m, i := DigitsOf(x, k);
    var n, j := DigitsOf(y, k);
    a, b, p := CommonScale(m, i, n, j);
  }

  lemma DigitsOf(x: real, k: nat) returns (m: nat, i: int)
    requires HasDigits(x, k)
    ensures m < TenTo(k) && x == Decimal(m, i)
  {
    m, i :| m < TenTo(k) && x == Decimal(m, i);
  }

  lemma WithinHalfUnit(x: real, y: real) returns (f: real)
    requires x > 0.0 && y > 0.0 && Round(x) == Round(y)
    ensures Abs(f - x) * END_SIGNIFICAND as real <= x && Abs(f - y) * END_SIGNIFICAND as real <= y
  {
    RelativeError(x);
    RelativeError(y);
    f := Round(x);
  }

  // Two multiples of `p`, one of them small, within half a unit of one float.
  lemma SameFloat(x: real, y: real, f: real, a: nat, b: nat, p: real, limit: nat)
    requires p > 0.0 && x == a as real * p && y == b as real * p
    requires (a < limit || b < limit) && 2 * limit < END_SIGNIFICAND
    requires Abs(f - x) * END_SIGNIFICAND as real <= x && Abs(f - y) * END_SIGNIFICAND as real <= y
    ensures x == y
  {
    Triangle(x, y, f);
    var gap := if a < b then b - a else a - b;
    GapBound(a, b, gap, p, x, y);
    assert a == b by {
      if a != b {
        GapTooBig(a, b, gap, limit);
      }
    }
  }

  /** Decimals of at most 15 digits never share a float. */
  lemma SafeDecimalsAreDistinct(x: real, y: real)
    requires x > 0.0 && y > 0.0 && HasDigits(x, SAFE_DIGITS) && HasDigits(y, SAFE_DIGITS)
    requires Round(x) == Round(y)
    ensures x == y
  {
    SafeDigitsFit();
    var f := WithinHalfUnit(x, y);
    ShortDecimalsAreDistinct(x, y, f, SAFE_DIGITS);
  }

  lemma GapTooBig(a: nat, b: nat, gap: nat, limit: nat)
    requires a != b && (a < limit || b < limit) && 2 * limit < END_SIGNIFICAND
    requires gap == if a < b then b - a else a - b
    ensures gap * END_SIGNIFICAND > a + b
  {
    if a < limit { RelativeGap(a, b, limit); } else { RelativeGap(b, a, limit); }
    MulStrict(gap, 2 * limit, END_SIGNIFICAND);
    assert gap * (2 * limit) == 2 * (limit * gap);
  }

  lemma GapBound(a: nat, b: nat, gap: nat, p: real, x: real, y: real)
    requires p > 0.0 && gap == (if a < b then b - a else a - b)
    requires x == a as real * p && y == b as real * p
    requires Abs(x - y) * END_SIGNIFICAND as real <= x + y
    ensures gap * END_SIGNIFICAND <= a + b
  {
    AbsScaled(a as real, b as real, p);
    assert Abs(a as real - b as real) == gap as real;
    assert Abs(x - y) == gap as real * p;
    assert (gap * END_SIGNIFICAND) as real * p == gap as real * p * END_SIGNIFICAND as real;
    assert (a + b) as real * p == x + y;
    Cancel(gap * END_SIGNIFICAND, a + b, p);
  }

  lemma Triangle(x: real, y: real, f: real)
    ensures Abs(x - y) <= Abs(f - x) + Abs(f - y)
  {
  }

  lemma Cancel(m: int, n: int, p: real)
    requires p > 0.0 && m as real * p <= n as real * p
    ensures m <= n
  {
    if m > n {
      ScaledStrictly(n as real, m as real, p);
    }
  }

  lemma MulStrict(g: nat, a: int, b: int)
    requires g > 0 && a < b
    ensures g * a < g * b
  {
  }

  /** Every decimal of at most 15 digits survives float() and back. */
  lemma SafeDecimalsSurvive(x: real, d: real)
    requires x > 0.0 && HasDigits(x, SAFE_DIGITS) && IsRepr(Round(x), d)
    ensures d == x
  {
    SafeDecimalsAreDistinct(x, d);
  }

  lemma RoundAtScaleOne(y: real, m: int)
    requires END_SIGNIFICAND as real <= y < 2.0 * END_SIGNIFICAND as real && m == NearestInt(y / 2.0)
    ensures Round(y) == m as real * 2.0
  {
    assert Pow2(0) == 1.0 && Pow2(1) == 2.0;
    assert Scale(y) == ScaleUp(y, 0) == ScaleUp(y, 1) == 1;
  }

  /** Above fifteen digits two decimals can share a float: 2^53 and its successor do. */
  lemma SixteenDigitsCollide()
    ensures Round(9007199254740992.0) == Round(9007199254740993.0) == 9007199254740992.0
  {
    assert NearestInt(9007199254740992.0 / 2.0) == 4503599627370496;
    assert NearestInt(9007199254740993.0 / 2.0) == 4503599627370496;
    RoundAtScaleOne(9007199254740992.0, 4503599627370496);
    RoundAtScaleOne(9007199254740993.0, 4503599627370496);
  }
}
