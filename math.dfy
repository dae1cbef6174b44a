/**
 * The numeric helpers of the toolbox: type-checking predicates, clamps with a
 * sentinel for invalid input, parity, circular wrapping, interpolation and the
 * degree/radian conversions.
 *
 * Numbers are exact reals. Every helper that opens with the guard
 * `!input || typeof input !== 'number'` takes its input as a `JsValue`, so that
 * `0`, `NaN` and non-numbers reach the guard exactly as they do at run time.
 */
module MathHelpers {
  import opened JsValues

  /** `Number.MAX_VALUE`, the largest finite double, 2^1024 - 2^971, written out exactly. */
  const MAX_VALUE: real := 179769313486231570814527423731704356798070567525844996598917476803157260780028538760589558632766878171540458953514382464234321326889464182768467546703537516986049910576551282076245490090389328944075868508455133942304583236903222948165808559332123348274797826204144723168738177180919299881250404026184124858368.0

  /** `Math.PI`, as its shortest decimal form. Only its positivity matters to the proofs. */
  const PI: real := 3.141592653589793

  // ---------------------------------------------------------------------------
  // Arithmetic building blocks of the JavaScript operators the helpers use
  // ---------------------------------------------------------------------------

  function Abs(x: real): real { if x < 0.0 then -x else x }

  /** `Math.max(a, b)` on numbers that are not NaN. */
  function Max(a: real, b: real): real { if a < b then b else a }

  /** `Math.min(a, b)` on numbers that are not NaN. */
  function Min(a: real, b: real): real { if a < b then a else b }

  /** `Math.trunc(x)`: the integer part, rounding toward zero. */
  function Trunc(x: real): (t: int)
    ensures 0.0 <= x ==> 0 <= t && t as real <= x < t as real + 1.0
    ensures x < 0.0 ==> t <= 0 && t as real - 1.0 < x <= t as real
  {
    if x >= 0.0 then x.Floor else -((-x).Floor)
  }

  /** `Number.isInteger(x)` on a finite number. */
  predicate IsIntegral(x: real)
  {
    x == x.Floor as real
  }

  /**
   * The `%` operator on finite numbers: the remainder of the division truncated
   * toward zero, so it takes the dividend's sign.
   */
  function Rem(a: real, m: real): real
    requires m != 0.0
  {
    a - m * Trunc(a / m) as real
  }

  // ---------------------------------------------------------------------------
  // Type-checking predicates
  // ---------------------------------------------------------------------------

  /** A number is whole exactly when truncating it changes nothing. */
  lemma TruncFixesIntegral(x: real)
    ensures IsIntegral(x) <==> Trunc(x) as real == x
  {
    IntegralIsSymmetric(x);
    var t := Trunc(x);
    assert (t as real).Floor == t;
    if x < 0.0 && IsIntegral(x) {
      assert (-x).Floor as real == -x;
    }
  }

  /** `isInteger`: a truthy number without a fractional part. */
  predicate IsInteger(input: JsValue)
  {
    IsTruthyNumber(input) && IsIntegral(input.n)
  }

  /** `isInteger` holds exactly for a nonzero number that truncation leaves unchanged. */
  lemma IsIntegerMeansWhole(input: JsValue)
    ensures IsInteger(input) <==> input.Num? && input.n != 0.0 && Trunc(input.n) as real == input.n
  {
    if input.Num? {
      TruncFixesIntegral(input.n);
    }
  }

  /** `isFloat`: a truthy number with a fractional part. */
  predicate IsFloat(input: JsValue)
  {
    IsTruthyNumber(input) && !IsIntegral(input.n)
  }

  /** `isFloat` holds exactly for a number whose fractional part is strictly between 0 and 1 in magnitude. */
  lemma IsFloatMeansFraction(input: JsValue)
    ensures IsFloat(input) <==> input.Num? && 0.0 < Abs(input.n - Trunc(input.n) as real) < 1.0
  {
    if input.Num? {
      TruncFixesIntegral(input.n);
      if input.n == 0.0 {
        assert Trunc(input.n) == 0;
      }
    }
  }

  /**
   * `isPositive`. Its documentation calls the test "0 inclusive", but the falsy
   * guard rejects 0 before the comparison `input >= 0` is reached.
   */
  predicate IsPositive(input: JsValue): (r: bool)
    ensures r <==> input.Num? && input.n > 0.0
  {
    IsTruthyNumber(input) && input.n >= 0.0
  }

  /** `isNegative`: a number below 0. */
  predicate IsNegative(input: JsValue): (r: bool)
    ensures r <==> input.Num? && input.n < 0.0
  {
    IsTruthyNumber(input) && input.n < 0.0
  }

  /** Every value is classified by at most one of the predicates of each pair, and a truthy number by exactly one. */
  lemma NumberClassification(input: JsValue)
    ensures !(IsInteger(input) && IsFloat(input)) && !(IsPositive(input) && IsNegative(input))
    ensures IsTruthyNumber(input) <==> IsInteger(input) || IsFloat(input)
    ensures IsTruthyNumber(input) <==> IsPositive(input) || IsNegative(input)
  {
  }

  // ---------------------------------------------------------------------------
  // Parity and multiples
  // ---------------------------------------------------------------------------

  function Pow10(d: nat): (p: real)
    ensures p >= 1.0
  {
    if d == 0 then 1.0 else 10.0 * Pow10(d - 1)
  }

  /** The factor `decimals > 0 ? Math.pow(10, decimals) : 1` by which a fractional input is scaled. */
  function DecimalScale(decimals: int): real
  {
    if decimals > 0 then Pow10(decimals) else 1.0
  }

  /**
   * The whole number whose remainder by 2 `isOdd` and `isEven` examine: the input
   * itself when it is integral, otherwise the input scaled by `DecimalScale(decimals)`
   * and truncated.
   */
  function ParityBase(n: real, decimals: int): real
  {
    if IsIntegral(n) then n else Trunc(n * DecimalScale(decimals)) as real
  }

  /** `isOdd(input, decimals = 2)`: a truthy number whose parity base leaves a remainder of magnitude 1 by 2. */
  predicate IsOdd(input: JsValue, decimals: int := 2)
  {
    IsTruthyNumber(input) && Abs(Rem(ParityBase(input.n, decimals), 2.0)) == 1.0
  }

  /** `isOdd` holds exactly for a truthy number whose whole parity base is odd. */
  lemma IsOddMeansParity(input: JsValue, decimals: int)
    ensures IsOdd(input, decimals) <==> IsTruthyNumber(input) && ParityBase(input.n, decimals).Floor % 2 == 1
  {
    if IsTruthyNumber(input) {
      ParityBaseIsIntegral(input.n, decimals);
      RemainderByTwo(ParityBase(input.n, decimals));
    }
  }

  /** `isEven(input, decimals = 2)`: a truthy number whose parity base leaves no remainder by 2. */
  predicate IsEven(input: JsValue, decimals: int := 2)
  {
    IsTruthyNumber(input) && Abs(Rem(ParityBase(input.n, decimals), 2.0)) == 0.0
  }

  /** `isEven` holds exactly for a truthy number whose whole parity base is even. */
  lemma IsEvenMeansParity(input: JsValue, decimals: int)
    ensures IsEven(input, decimals) <==> IsTruthyNumber(input) && ParityBase(input.n, decimals).Floor % 2 == 0
  {
    if IsTruthyNumber(input) {
      ParityBaseIsIntegral(input.n, decimals);
      RemainderByTwo(ParityBase(input.n, decimals));
    }
  }

  /** The remainder of a whole number by 2 is -1, 0 or 1, and it tells the number's parity. */
  lemma RemainderByTwo(x: real)
    requires IsIntegral(x)
    ensures Rem(x, 2.0) == -1.0 || Rem(x, 2.0) == 0.0 || Rem(x, 2.0) == 1.0
    ensures Abs(Rem(x, 2.0)) == 1.0 <==> x.Floor % 2 == 1
  {
    var k := x.Floor;
    var t := Trunc(x / 2.0);
    assert x == k as real;
    var d := k - 2 * t;
    assert Rem(x, 2.0) == d as real;
    assert -2 < d < 2;
    assert k == 2 * t + d;
  }

  lemma ParityBaseIsIntegral(n: real, decimals: int)
    ensures IsIntegral(ParityBase(n, decimals))
  {
    if !IsIntegral(n) {
      var t := Trunc(n * DecimalScale(decimals));
      assert (t as real).Floor == t;
    }
  }

  /**
   * For every truthy number exactly one of `isOdd` and `isEven` holds, whatever
   * `decimals` is; for 0, NaN and non-numbers neither does.
   */
  lemma {:induction false} OddXorEven(input: JsValue, decimals: int)
    ensures IsTruthyNumber(input) ==> IsOdd(input, decimals) != IsEven(input, decimals)
    ensures !IsTruthyNumber(input) ==> !IsOdd(input, decimals) && !IsEven(input, decimals)
  {
    if IsTruthyNumber(input) {
      ParityBaseIsIntegral(input.n, decimals);
      RemainderByTwo(ParityBase(input.n, decimals));
    }
  }

  lemma TruncIsOdd(x: real)
    ensures Trunc(-x) == -Trunc(x)
  {
    if x > 0.0 {
      assert (-x) < 0.0;
    } else if x < 0.0 {
      assert -(-x) == x;
    }
  }

  lemma RemIsOdd(a: real, m: real)
    requires m != 0.0
    ensures Rem(-a, m) == -Rem(a, m)
  {
    assert (-a) / m == -(a / m);
    TruncIsOdd(a / m);
  }

  lemma IntegralIsSymmetric(x: real)
    ensures IsIntegral(-x) <==> IsIntegral(x)
  {
    if IsIntegral(x) {
      assert -x == (-(x.Floor)) as real;
      assert (-x).Floor == -(x.Floor);
    }
    if IsIntegral(-x) {
      assert x == (-((-x).Floor)) as real;
      assert x.Floor == -((-x).Floor);
    }
  }

  /** Negative numbers are treated like their absolute values, as the documentation of both predicates says. */
  lemma ParityIgnoresSign(n: real, decimals: int)
    ensures IsOdd(Num(-n), decimals) == IsOdd(Num(n), decimals)
    ensures IsEven(Num(-n), decimals) == IsEven(Num(n), decimals)
  {
    ParityBaseIsOdd(n, decimals);
    var b := ParityBase(n, decimals);
    RemIsOdd(b, 2.0);
    assert Abs(Rem(-b, 2.0)) == Abs(Rem(b, 2.0));
  }

  lemma ParityBaseIsOdd(n: real, decimals: int)
    ensures ParityBase(-n, decimals) == -ParityBase(n, decimals)
  {
    IntegralIsSymmetric(n);
    if !IsIntegral(n) {
      assert (-n) * DecimalScale(decimals) == -(n * DecimalScale(decimals));
      TruncIsOdd(n * DecimalScale(decimals));
    }
  }

  /** On nonzero integers `isOdd` and `isEven` are the usual parity tests. */
  lemma {:induction false} ParityOfIntegers(k: int, decimals: int)
    requires k != 0
    ensures IsOdd(Num(k as real), decimals) <==> k % 2 == 1
    ensures IsEven(Num(k as real), decimals) <==> k % 2 == 0
  {
    assert (k as real).Floor == k;
    RemainderByTwo(k as real);
  }

  /** The examples in the documentation of `isOdd` and `isEven`. */
  lemma ParityExamples()
    ensures IsOdd(Num(23.0)) && !IsOdd(Num(3.1415)) && IsOdd(Num(3.1415), 3)
    ensures IsEven(Num(24.0)) && IsEven(Num(3.1415)) && !IsEven(Num(3.1415), 3)
  {
    assert (23.0).Floor == 23;
    assert (24.0).Floor == 24;
    assert Trunc(3.1415 * DecimalScale(2)) == 314;
    assert Trunc(3.1415 * DecimalScale(3)) == 3141;
  }

  /** The truncating remainder is 0 exactly when the quotient is whole. */
  lemma RemZeroIffWholeQuotient(a: real, m: real)
    requires m != 0.0
    ensures Rem(a, m) == 0.0 <==> IsIntegral(a / m)
  {
    var q := a / m;
    var t := Trunc(q);
    assert q * m == a;
    TruncFixesIntegral(q);
    if Rem(a, m) == 0.0 {
      assert m * t as real == q * m;
      assert (t as real - q) * m == 0.0;
    }
  }

  /** `isMultiple(input, multiple)`: two truthy numbers whose quotient is whole, whatever their signs. */
  predicate IsMultiple(input: JsValue, multiple: JsValue)
  {
    IsTruthyNumber(input) && IsTruthyNumber(multiple) && Abs(Rem(input.n, multiple.n)) == 0.0
  }

  /** `isMultiple` holds exactly when both arguments are truthy numbers whose quotient is whole. */
  lemma IsMultipleMeansWholeQuotient(input: JsValue, multiple: JsValue)
    ensures IsMultiple(input, multiple) <==> IsTruthyNumber(input) && IsTruthyNumber(multiple) && IsIntegral(input.n / multiple.n)
  {
    if IsTruthyNumber(input) && IsTruthyNumber(multiple) {
      RemZeroIffWholeQuotient(input.n, multiple.n);
    }
  }

  /** Repeated addition: a positive multiple of a non-negative number is at least that number. */
  lemma {:induction false} MultipleAtLeast(k: int, m: int)
    requires k >= 1 && m >= 0
    ensures k * m >= m
  {
    if k > 1 {
      MultipleAtLeast(k - 1, m);
      assert k * m == (k - 1) * m + m;
    }
  }

  /** A nonzero multiple of `m` is at least as large as `m` in magnitude. */
  lemma NonzeroMultipleMagnitude(k: int, m: int)
    requires k != 0
    ensures k * m >= m || k * m <= -m
    ensures k * m >= -m || k * m <= m
  {
    if k > 0 && m >= 0 {
      MultipleAtLeast(k, m);
    } else if k > 0 {
      MultipleAtLeast(k, -m);
      assert k * (-m) == -(k * m);
    } else if m >= 0 {
      MultipleAtLeast(-k, m);
      assert (-k) * m == -(k * m);
    } else {
      MultipleAtLeast(-k, -m);
      assert (-k) * (-m) == k * m;
    }
  }

  /** Division with a remainder in [0, |m|) has only one remainder, Dafny's `%`. */
  lemma EuclideanRemainderIsUnique(a: int, m: int, q: int, r: int)
    requires m != 0 && 0 <= r && (r < m || r < -m) && a == q * m + r
    ensures a % m == r
  {
    var q', r' := a / m, a % m;
    assert a == q' * m + r';
    assert (q - q') * m == q * m - q' * m;
    if q != q' {
      NonzeroMultipleMagnitude(q - q', m);
    }
  }

  /** The example in the documentation of `isMultiple`: negatives are treated the same. */
  lemma MultipleExample()
    ensures IsMultiple(Num(-6.0), Num(2.0)) && !IsMultiple(Num(7.0), Num(2.0))
  {
    IsMultipleOfIntegers(-6, 2);
    IsMultipleOfIntegers(7, 2);
  }

  /** On nonzero integers, `isMultiple(a, m)` holds exactly when `m` divides `a`, whatever the signs. */
  lemma IsMultipleOfIntegers(a: int, m: int)
    requires a != 0 && m != 0
    ensures IsMultiple(Num(a as real), Num(m as real)) <==> a % m == 0
  {
    if a % m == 0 {
      DivisibleHasZeroRemainder(a, m);
    }
    if Rem(a as real, m as real) == 0.0 {
      ZeroRemainderIsDivisible(a, m);
    }
  }

  lemma DivisibleHasZeroRemainder(a: int, m: int)
    requires m != 0 && a % m == 0
    ensures Rem(a as real, m as real) == 0.0
  {
    var q := a / m;
    assert a == m * q;
    var ar, mr, qr := a as real, m as real, q as real;
    assert ar == mr * qr;
    assert ar / mr == qr;
    assert qr.Floor == q;
    assert Trunc(ar / mr) == q;
  }

  lemma ZeroRemainderIsDivisible(a: int, m: int)
    requires m != 0 && Rem(a as real, m as real) == 0.0
    ensures a % m == 0
  {
    var t := Trunc(a as real / m as real);
    assert a as real == m as real * t as real;
    assert a == t * m;
    EuclideanRemainderIsUnique(a, m, t, 0);
  }

  // ---------------------------------------------------------------------------
  // Clamps
  // ---------------------------------------------------------------------------

  /** `positive(input)`: the input maxed against 0, or -1 when the input is falsy or not a number. */
  function Positive(input: JsValue): (r: real)
    ensures !IsTruthyNumber(input) ==> r == -1.0
    ensures IsTruthyNumber(input) ==> 0.0 <= r && (r == input.n <==> IsPositive(input))
    ensures IsNegative(input) ==> r == 0.0
  {
    if !IsTruthyNumber(input) then -1.0 else Max(input.n, 0.0)
  }

  /**
   * `clampFloat(input, min = 0, max = Number.MAX_VALUE)`. A falsy input, 0 included,
   * yields the sentinel `MAX_VALUE`. The bounds are not swapped: with `min > max`
   * every truthy input yields `max`.
   */
  function ClampFloat(input: JsValue, min: real := 0.0, max: real := MAX_VALUE): (r: real)
    ensures !IsTruthyNumber(input) ==> r == MAX_VALUE
    ensures IsTruthyNumber(input) && min <= max ==> min <= r <= max
    ensures IsTruthyNumber(input) && min <= input.n <= max ==> r == input.n
    ensures IsTruthyNumber(input) && input.n < min <= max ==> r == min
    ensures IsTruthyNumber(input) && max < input.n ==> r == max
    ensures IsTruthyNumber(input) && max < min ==> r == max
  {
    if !IsTruthyNumber(input) then MAX_VALUE else Min(Max(input.n, min), max)
  }

  /** `clampUnit`: 0 for a falsy input, otherwise the input clamped into [0, 1]. */
  function ClampUnit(input: JsValue): (r: real)
    ensures !IsTruthyNumber(input) ==> r == 0.0
    ensures 0.0 <= r <= 1.0
    ensures IsTruthyNumber(input) && 0.0 <= input.n <= 1.0 ==> r == input.n
    ensures IsTruthyNumber(input) && input.n > 1.0 ==> r == 1.0
    ensures IsTruthyNumber(input) ==> r == ClampFloat(input, 0.0, 1.0)
  {
    if !IsTruthyNumber(input) then 0.0 else Min(Max(input.n, 0.0), 1.0)
  }

  /** `clampDegree`: 0 for a falsy input, otherwise the input clamped into [0, 360]. */
  function ClampDegree(input: JsValue): (r: real)
    ensures !IsTruthyNumber(input) ==> r == 0.0
    ensures 0.0 <= r <= 360.0
    ensures IsTruthyNumber(input) && 0.0 <= input.n <= 360.0 ==> r == input.n
    ensures IsTruthyNumber(input) && input.n > 360.0 ==> r == 360.0
    ensures IsTruthyNumber(input) ==> r == ClampFloat(input, 0.0, 360.0)
  {
    if !IsTruthyNumber(input) then 0.0 else Min(Max(input.n, 0.0), 360.0)
  }

  /**
   * `clampInteger(input, min = 0, max = Number.MAX_VALUE)`: `clampFloat` followed by
   * truncation toward zero, or `MAX_VALUE` for a falsy input. With a fractional `min`
   * the truncated result can fall below `min` (24.5 clamped to [26.5, 90] gives 26).
   */
  function ClampInteger(input: JsValue, min: real := 0.0, max: real := MAX_VALUE): (r: real)
    ensures !IsTruthyNumber(input) ==> r == MAX_VALUE
    ensures IsTruthyNumber(input) ==>
              var c := ClampFloat(input, min, max);
              IsIntegral(r) && Abs(r) <= Abs(c) && Abs(c - r) < 1.0
    ensures IsTruthyNumber(input) && min <= max && IsIntegral(min) && IsIntegral(max) ==> min <= r <= max
  {
    if !IsTruthyNumber(input) then MAX_VALUE
    else
      var c := ClampFloat(input, min, max);
      TruncWithinWholeBounds(c, min, max);
      Trunc(c) as real
  }

  /** Truncation yields a whole number and never crosses a whole bound the value respects. */
  lemma TruncWithinWholeBounds(c: real, min: real, max: real)
    ensures IsIntegral(Trunc(c) as real)
    ensures IsIntegral(min) && min <= c ==> min <= Trunc(c) as real
    ensures IsIntegral(max) && c <= max ==> Trunc(c) as real <= max
  {
    var t := Trunc(c);
    assert (t as real).Floor == t;
    if IsIntegral(min) && min <= c { assert min.Floor <= t; }
    if IsIntegral(max) && c <= max { assert t <= max.Floor; }
  }

  /** `clampByte`: for every truthy number a whole number in 0..255; `MAX_VALUE` otherwise. */
  function ClampByte(input: JsValue): (r: real)
    ensures !IsTruthyNumber(input) ==> r == MAX_VALUE
    ensures IsTruthyNumber(input) ==> IsIntegral(r) && 0.0 <= r <= 255.0
    ensures IsTruthyNumber(input) && 0.0 <= input.n <= 255.0 ==> r == Trunc(input.n) as real
    ensures IsTruthyNumber(input) && input.n < 0.0 ==> r == 0.0
    ensures IsTruthyNumber(input) && input.n > 255.0 ==> r == 255.0
  {
    ClampInteger(input, 0.0, 255.0)
  }

  // ---------------------------------------------------------------------------
  // Wrapping
  // ---------------------------------------------------------------------------

  lemma ScaleStrict(a: real, b: real, c: real)
    requires a < b && c > 0.0
    ensures a * c < b * c
  {
    assert (b - a) * c > 0.0;
    assert b * c - a * c == (b - a) * c;
  }

  lemma ScaleReflect(a: real, b: real, c: real)
    requires c > 0.0 && a * c < b * c
    ensures a < b
  {
    assert (b - a) * c == b * c - a * c;
  }

  lemma QuotientIsUnique(a: real, b: real, c: real)
    requires c > 0.0 && a * c == b
    ensures a == b / c
  {
    var q := b / c;
    assert q * c == b;
    if a < q { ScaleStrict(a, q, c); }
    if q < a { ScaleStrict(q, a, c); }
  }

  /** What is left of `x` after taking away `range` as many whole times as the floor of `x / range` says lies in [0, range). */
  lemma FloorRemainder(x: real, range: real)
    requires range > 0.0
    ensures 0.0 <= x - range * (x / range).Floor as real < range
  {
    var f := x / range;
    var k := f.Floor;
    assert k as real <= f < k as real + 1.0;
    assert f * range == x;
    assert k as real * range <= x;
    if k as real < f { ScaleStrict(k as real, f, range); }
    ScaleStrict(f, k as real + 1.0, range);
    assert (k as real + 1.0) * range == k as real * range + range;
    assert range * k as real == k as real * range;
    assert x < k as real * range + range;
  }

  /** Taking `range` away from `x` lowers the floor of `x / range` by one. */
  lemma FloorShift(x: real, range: real)
    requires range > 0.0
    ensures ((x - range) / range).Floor == (x / range).Floor - 1
  {
    var f := x / range;
    assert f * range == x;
    assert (f - 1.0) * range == x - range;
    QuotientIsUnique(f - 1.0, x - range, range);
  }

  /** `x` written as `q * range + r` with `r` in [0, range) has `q` as the floor of `x / range`. */
  lemma FloorDivisionIsUnique(x: real, range: real, q: int, r: real)
    requires range > 0.0 && 0.0 <= r < range && x == q as real * range + r
    ensures (x / range).Floor == q
  {
    var f := r / range;
    assert f * range == r;
    ScaleReflect(f, 1.0, range);
    assert (q as real + f) * range == x;
    QuotientIsUnique(q as real + f, x, range);
  }

  /**
   * `wrapToPositive(input, range)`: a non-negative input is reduced with `%`; for a
   * negative input `range` is subtracted from its absolute value until that is at most
   * `range`, and the result is `range` minus what is left. Either way the result is
   * the unique value in [0, range) that differs from `input` by a whole multiple of
   * `range`.
   */
  method WrapToPositive(input: real, range: real) returns (r: real)
    requires range > 0.0
    ensures 0.0 <= r < range
    ensures r == input - range * (input / range).Floor as real
  {
    if input >= 0.0 {
      r := Rem(input, range);
      FloorRemainder(input, range);
      return;
    }
    var remainder := Abs(input);
    ghost var laps := 0;
    while remainder > range
      invariant 0.0 < remainder
      invariant input + remainder == laps as real * range
      decreases (remainder / range).Floor
    {
      FloorShift(remainder, range);
      remainder := remainder - range;
      laps := laps - 1;
    }
    r := range - remainder;
    FloorDivisionIsUnique(input, range, laps - 1, r);
  }

  /** On whole numbers `wrapToPositive` is Dafny's Euclidean `%`. */
  lemma WrapToPositiveOfIntegers(input: int, range: int)
    requires range > 0
    ensures (input as real / range as real).Floor == input / range
    ensures input as real - range as real * (input as real / range as real).Floor as real == (input % range) as real
  {
    FloorDivisionIsUnique(input as real, range as real, input / range, (input % range) as real);
  }

  // ---------------------------------------------------------------------------
  // Angles
  // ---------------------------------------------------------------------------

  /** `degToRad`: `deg * PI / 180`. A half turn is PI radians. */
  function DegToRad(deg: real): (rad: real)
    ensures deg == 180.0 ==> rad == PI
    ensures (rad < 0.0 <==> deg < 0.0) && (rad == 0.0 <==> deg == 0.0)
  {
    deg * PI / 180.0
  }

  /** `radToDeg`: `rad * 180 / PI`. PI radians are a half turn. */
  function RadToDeg(rad: real): (deg: real)
    ensures rad == PI ==> deg == 180.0
    ensures (deg < 0.0 <==> rad < 0.0) && (deg == 0.0 <==> rad == 0.0)
  {
    rad * 180.0 / PI
  }

  /** The two conversions are inverse to each other (exactly so over the reals). */
  lemma AngleConversionsRoundTrip(deg: real, rad: real)
    ensures RadToDeg(DegToRad(deg)) == deg
    ensures DegToRad(RadToDeg(rad)) == rad
  {
    assert DegToRad(deg) * 180.0 == deg * PI;
    assert RadToDeg(rad) * PI == rad * 180.0;
  }

  // ---------------------------------------------------------------------------
  // Interpolation
  // ---------------------------------------------------------------------------

  /** `linearInterp(start, end, alpha)`: alpha 0 gives `start`, 1 gives `end`, values between lie between. */
  function LinearInterp(start: real, end: real, alpha: real): (r: real)
    ensures alpha == 0.0 ==> r == start
    ensures alpha == 1.0 ==> r == end
    ensures 0.0 <= alpha <= 1.0 ==> Min(start, end) <= r <= Max(start, end)
    ensures r - start == alpha * (end - start)
  {
    LinearInterpOffset(start, end, alpha);
    start * (1.0 - alpha) + end * alpha
  }

  lemma LinearInterpOffset(start: real, end: real, alpha: real)
    ensures start * (1.0 - alpha) + end * alpha - start == alpha * (end - start)
    ensures 0.0 <= alpha <= 1.0 ==>
              Min(start, end) <= start * (1.0 - alpha) + end * alpha <= Max(start, end)
  {
    var span := end - start;
    var offset := alpha * span;
    assert start * (1.0 - alpha) + end * alpha == start + offset;
    if 0.0 <= alpha <= 1.0 {
      if start <= end {
        ProductBetween(alpha, span);
      } else {
        ProductBetween(alpha, -span);
        assert alpha * -span == -offset;
      }
    }
  }

  /** A fraction in [0, 1] of a non-negative span stays within the span. */
  lemma ProductBetween(alpha: real, span: real)
    requires 0.0 <= alpha <= 1.0 && span >= 0.0
    ensures 0.0 <= alpha * span <= span
  {
    assert span - alpha * span == (1.0 - alpha) * span;
  }

  /**
   * `inverseLinearInterp(start, end, delta)`: where `delta` lies between `start` and
   * `end`, clamped into [0, 1] by `clampFloat`. When `delta == start` the position is
   * 0, which `clampFloat` treats as invalid, so the result is `MAX_VALUE`. When
   * `end == start` the division is by zero: 0/0 is NaN (again `MAX_VALUE`), and a
   * nonzero numerator gives an infinity that the clamp pins to 1 or 0.
   */
  function InverseLinearInterp(start: real, end: real, delta: real): (r: real)
    ensures delta == start ==> r == MAX_VALUE
    ensures delta != start ==> 0.0 <= r <= 1.0
    ensures delta != start && end != start && 0.0 <= (delta - start) / (end - start) <= 1.0 ==>
              r == (delta - start) / (end - start)
    ensures delta != start && end != start && (delta - start) / (end - start) < 0.0 ==> r == 0.0
    ensures delta != start && end != start && (delta - start) / (end - start) > 1.0 ==> r == 1.0
  {
    if end != start then
      assert delta != start ==> (delta - start) / (end - start) != 0.0;
      ClampFloat(Num((delta - start) / (end - start)), 0.0, 1.0)
    else if delta == start then ClampFloat(NaN, 0.0, 1.0)
    else if delta - start > 0.0 then 1.0
    else 0.0
  }

  /** The example in the documentation of `inverseLinearInterp`. */
  lemma InverseLinearInterpExample()
    ensures InverseLinearInterp(50.0, 100.0, 75.0) == 0.5
  {
  }

  /** Away from alpha 0, `inverseLinearInterp` recovers the alpha that `linearInterp` was given. */
  lemma InverseLinearInterpInvertsLinearInterp(start: real, end: real, alpha: real)
    requires start != end && 0.0 < alpha <= 1.0
    ensures InverseLinearInterp(start, end, LinearInterp(start, end, alpha)) == alpha
  {
    var delta := LinearInterp(start, end, alpha);
    assert delta - start == alpha * (end - start);
    QuotientOfProduct(alpha, end - start);
  }

  lemma QuotientOfProduct(a: real, c: real)
    requires c != 0.0
    ensures (a * c) / c == a
  {
    if c > 0.0 {
      QuotientIsUnique(a, a * c, c);
    } else {
      QuotientIsUnique(-a, a * c, -c);
      assert (a * c) / c == -((a * c) / -c);
    }
  }

  /** At alpha 0 the round trip fails: the sentinel comes back instead of 0. */
  lemma InverseLinearInterpAtStart(start: real, end: real)
    ensures InverseLinearInterp(start, end, LinearInterp(start, end, 0.0)) == MAX_VALUE
  {
  }

  /**
   * `rescale(value, fromStart, fromEnd, toStart, toEnd)`: the position of `value` in
   * the first range, mapped onto the second. With `value == fromStart` the sentinel
   * `MAX_VALUE` is used as the position.
   */
  function Rescale(value: real, fromStart: real, fromEnd: real, toStart: real, toEnd: real): (r: real)
    ensures value != fromStart ==> Min(toStart, toEnd) <= r <= Max(toStart, toEnd)
    ensures value == fromStart ==> r == LinearInterp(toStart, toEnd, MAX_VALUE)
  {
    LinearInterp(toStart, toEnd, InverseLinearInterp(fromStart, fromEnd, value))
  }

  /** A point at alpha in (0, 1] of the first range is rescaled to the point at alpha of the second. */
  lemma RescaleMapsAlphaToAlpha(fromStart: real, fromEnd: real, toStart: real, toEnd: real, alpha: real)
    requires fromStart != fromEnd && 0.0 < alpha <= 1.0
    ensures Rescale(LinearInterp(fromStart, fromEnd, alpha), fromStart, fromEnd, toStart, toEnd)
            == LinearInterp(toStart, toEnd, alpha)
  {
    InverseLinearInterpInvertsLinearInterp(fromStart, fromEnd, alpha);
  }
}
