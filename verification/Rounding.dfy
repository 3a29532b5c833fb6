/** Decimal scales and the six rounding modes of the policy. */
module Rounding {
  import opened Base

  // ----- Powers of ten

  function Pow10(n: nat): (p: int)
    ensures p >= 1
  {
    if n == 0 then 1 else 10 * Pow10(n - 1)
  }

  lemma {:induction false} Pow10Adds(a: nat, b: nat)
    ensures Pow10(a + b) == Pow10(a) * Pow10(b)
  {
    if b > 0 {
      Pow10Adds(a, b - 1);
      assert Pow10(a + b) == 10 * (Pow10(a) * Pow10(b - 1));
    }
  }

  lemma {:induction false} Pow10Grows(a: nat, b: nat)
    requires a <= b
    ensures Pow10(a) <= Pow10(b)
    ensures a < b ==> Pow10(a) < Pow10(b)
  {
    if a < b {
      Pow10Grows(a, b - 1);
    }
  }

  /** How many digits Python writes for a natural number. */
  function NumDigits(n: nat): (d: nat)
    ensures d >= 1
  {
    if n < 10 then 1 else 1 + NumDigits(n / 10)
  }

  lemma {:induction false} DigitsBound(n: nat)
    ensures n < Pow10(NumDigits(n))
  {
    if n >= 10 {
      DigitsBound(n / 10);
    } else {
      assert Pow10(1) == 10 * Pow10(0);
    }
  }

  lemma {:induction false} DigitsLowerBound(n: nat)
    requires n > 0
    ensures Pow10(NumDigits(n) - 1) <= n
  {
    if n >= 10 {
      DigitsLowerBound(n / 10);
    }
  }

  /** A number has d digits exactly when it lies between two powers of ten; zero has one. */
  lemma DigitsExact(n: nat, d: nat)
    ensures Pow10(0) == 1 && Pow10(1) == 10 && NumDigits(0) == 1
    ensures n > 0 && d > 0 ==> (NumDigits(n) == d <==> Pow10(d - 1) <= n < Pow10(d))
  {
    assert Pow10(1) == 10 * Pow10(0);
    if n > 0 && d > 0 {
      DigitsBound(n);
      DigitsLowerBound(n);
      var k := NumDigits(n);
      hide Pow10, NumDigits;
      if k < d {
        Pow10Grows(k, d - 1);
      } else if d < k {
        Pow10Grows(d, k - 1);
      }
    }
  }

  // ----- Rounding to an integer

  datatype RoundingMode = HalfEven | HalfUp | Down | Up | Floor | Ceiling

  function Ceil(x: real): int {
    -((-x).Floor)
  }

  function RoundInt(x: real, mode: RoundingMode): int {
    match mode
    case Floor => x.Floor
    case Ceiling => Ceil(x)
    case Down => if x >= 0.0 then x.Floor else Ceil(x)
    case Up => if x >= 0.0 then Ceil(x) else x.Floor
    case HalfUp => if x >= 0.0 then (x + 0.5).Floor else Ceil(x - 0.5)
    case HalfEven =>
      var f := x.Floor;
      var d := x - f as real;
      if d < 0.5 then f else if d > 0.5 then f + 1 else if f % 2 == 0 then f else f + 1
  }

  function Distance(x: real, n: int): real {
    if n as real >= x then n as real - x else x - n as real
  }

  /**
   What each mode asks of the integer a number is rounded to. DOWN goes towards zero and UP away from it; the
   HALF modes take a nearest integer, and of two nearest ones the even one or the one away from zero.
   */
  predicate IsRounded(x: real, n: int, mode: RoundingMode) {
    match mode
    case Floor => n as real <= x < n as real + 1.0
    case Ceiling => n as real - 1.0 < x <= n as real
    case Down => if x >= 0.0 then n as real <= x < n as real + 1.0 else n as real - 1.0 < x <= n as real
    case Up => if x >= 0.0 then n as real - 1.0 < x <= n as real else n as real <= x < n as real + 1.0
    case HalfEven => Distance(x, n) < 0.5 || (Distance(x, n) == 0.5 && n % 2 == 0)
    case HalfUp => Distance(x, n) < 0.5 || (Distance(x, n) == 0.5 && if x >= 0.0 then n as real > x else n as real < x)
  }

  lemma RoundIntIsRounded(x: real, mode: RoundingMode)
    ensures IsRounded(x, RoundInt(x, mode), mode)
  {
  }

  /** No two integers meet what a mode asks. */
  lemma RoundedOnce(x: real, m: int, n: int, mode: RoundingMode)
    requires IsRounded(x, m, mode) && IsRounded(x, n, mode)
    ensures m == n
  {
    assert -1 <= m - n <= 1;
  }

  /** Rounding gives the integer that the mode asks for, ties included. */
  lemma RoundIntMeaning(x: real, n: int, mode: RoundingMode)
    ensures RoundInt(x, mode) == n <==> IsRounded(x, n, mode)
  {
    hide RoundInt, IsRounded;
    RoundIntIsRounded(x, mode);
    if IsRounded(x, n, mode) {
      RoundedOnce(x, RoundInt(x, mode), n, mode);
    }
  }

  /** DOWN never grows in magnitude, UP never shrinks, FLOOR is never above and CEILING never below. */
  lemma RoundIntDirection(x: real, mode: RoundingMode)
    ensures
      var n := RoundInt(x, mode) as real;
      && (mode == Floor ==> n <= x) && (mode == Ceiling ==> x <= n)
      && (mode == Down ==> if x >= 0.0 then 0.0 <= n <= x else x <= n <= 0.0)
      && (mode == Up ==> if x >= 0.0 then x <= n else n <= x)
  {
  }

  predicate IsHalf(mode: RoundingMode) {
    mode == HalfEven || mode == HalfUp
  }

  lemma RoundIntExact(n: int, mode: RoundingMode)
    ensures RoundInt(n as real, mode) == n
  {
  }

  lemma RoundIntError(x: real, mode: RoundingMode)
    ensures -1.0 < RoundInt(x, mode) as real - x < 1.0
    ensures IsHalf(mode) ==> -0.5 <= RoundInt(x, mode) as real - x <= 0.5
  {
  }

  lemma RoundIntMonotone(x: real, y: real, mode: RoundingMode)
    requires x <= y
    ensures RoundInt(x, mode) <= RoundInt(y, mode)
  {
    assert x.Floor <= y.Floor && Ceil(x) <= Ceil(y);
  }

  /** Rounding stays between integers that the number lies between. */
  lemma RoundIntBetween(x: real, lo: int, hi: int, mode: RoundingMode)
    requires lo as real <= x <= hi as real
    ensures lo <= RoundInt(x, mode) <= hi
  {
    RoundIntExact(lo, mode);
    RoundIntExact(hi, mode);
    RoundIntMonotone(lo as real, x, mode);
    RoundIntMonotone(x, hi as real, mode);
  }

  // ----- Rounding to a scale

  function Scaled(x: real, scale: nat): real {
    x * Pow10(scale) as real
  }

  /** One unit in the last place kept. */
  function Quantum(scale: nat): (q: real)
    ensures q > 0.0
  {
    1.0 / Pow10(scale) as real
  }

  /** `Decimal.quantize` to `scale` places, on exact values. */
  function RoundTo(x: real, scale: nat, mode: RoundingMode): real {
    RoundInt(Scaled(x, scale), mode) as real / Pow10(scale) as real
  }

  predicate IsWhole(y: real, n: int) {
    y == n as real
  }

  /** A value with at most `scale` fractional digits. */
  ghost predicate Fits(x: real, scale: nat) {
    exists n: int :: IsWhole(Scaled(x, scale), n)
  }

  lemma SameQuotient(m: int, n: int, p: real)
    requires p > 0.0
    ensures m as real / p == n as real / p <==> m == n
  {
    if m < n {
      DivideMonotone(m as real, n as real, p);
    } else if n < m {
      DivideMonotone(n as real, m as real, p);
    }
  }

  lemma QuotientSide(x: real, y: real, n: real, p: real)
    requires p > 0.0 && y == x * p
    ensures n <= y <==> n / p <= x
    ensures n >= y <==> n / p >= x
  {
    assert x == y / p;
    if n < y {
      DivideMonotone(n, y, p);
    } else if y < n {
      DivideMonotone(y, n, p);
    }
  }

  /** Rounding to a scale gives the multiple of its quantum that the mode asks for. */
  lemma RoundToMeaning(x: real, scale: nat, n: int, mode: RoundingMode)
    ensures RoundTo(x, scale, mode) == n as real / Pow10(scale) as real <==> IsRounded(Scaled(x, scale), n, mode)
  {
    hide RoundInt, IsRounded, Scaled, Pow10;
    RoundIntMeaning(Scaled(x, scale), n, mode);
    SameQuotient(RoundInt(Scaled(x, scale), mode), n, Pow10(scale) as real);
  }

  /** A quotient lies on the side of a number, and of zero, on which the dividend lies of the scaled number. */
  lemma SidesKept(x: real, y: real, n: real, r: real, p: real)
    requires p > 0.0 && y == x * p && r == n / p
    ensures (n <= y <==> r <= x) && (n >= y <==> r >= x)
    ensures (n <= 0.0 <==> r <= 0.0) && (n >= 0.0 <==> r >= 0.0) && (y >= 0.0 <==> x >= 0.0)
  {
    QuotientSide(x, y, n, p);
    QuotientSide(0.0, 0.0, n, p);
    QuotientSide(x, y, 0.0, p);
  }

  lemma RoundToSides(x: real, scale: nat, mode: RoundingMode)
    ensures
      var y, n, r := Scaled(x, scale), RoundInt(Scaled(x, scale), mode) as real, RoundTo(x, scale, mode);
      && (n <= y <==> r <= x) && (n >= y <==> r >= x)
      && (n <= 0.0 <==> r <= 0.0) && (n >= 0.0 <==> r >= 0.0) && (y >= 0.0 <==> x >= 0.0)
  {
    hide RoundInt, Pow10;
    SidesKept(x, Scaled(x, scale), RoundInt(Scaled(x, scale), mode) as real, RoundTo(x, scale, mode),
              Pow10(scale) as real);
  }

  /** DOWN never grows in magnitude, UP never shrinks, FLOOR is never above and CEILING never below, at any scale. */
  lemma RoundToDirection(x: real, scale: nat, mode: RoundingMode)
    ensures
      var r := RoundTo(x, scale, mode);
      && (mode == Floor ==> r <= x) && (mode == Ceiling ==> x <= r)
      && (mode == Down ==> if x >= 0.0 then 0.0 <= r <= x else x <= r <= 0.0)
      && (mode == Up ==> if x >= 0.0 then x <= r else r <= x)
  {
    hide RoundInt, RoundTo, Scaled;
    RoundIntDirection(Scaled(x, scale), mode);
    RoundToSides(x, scale, mode);
  }

  lemma ScaledOfQuotient(n: int, scale: nat)
    ensures Scaled(n as real / Pow10(scale) as real, scale) == n as real
  {
  }

  lemma RoundToFits(x: real, scale: nat, mode: RoundingMode)
    ensures Fits(RoundTo(x, scale, mode), scale)
  {
    var n := RoundInt(Scaled(x, scale), mode);
    ScaledOfQuotient(n, scale);
    assert IsWhole(Scaled(RoundTo(x, scale, mode), scale), n);
  }

  /** A value that fits the scale is left as it is. */
  lemma RoundToFixes(x: real, scale: nat, mode: RoundingMode)
    requires Fits(x, scale)
    ensures RoundTo(x, scale, mode) == x
  {
    var n: int :| IsWhole(Scaled(x, scale), n);
    RoundIntExact(n, mode);
    assert x == n as real / Pow10(scale) as real;
  }

  lemma FitsMore(x: real, f: nat, g: nat)
    requires Fits(x, f) && f <= g
    ensures Fits(x, g)
  {
    hide Pow10;
    var n: int :| IsWhole(Scaled(x, f), n);
    Pow10Adds(f, g - f);
    var p, q := Pow10(f), Pow10(g - f);
    assert Pow10(g) == p * q;
    ScaleMore(x, n, p, q);
    assert IsWhole(Scaled(x, g), n * q);
  }

  lemma ScaleMore(x: real, n: int, p: int, q: int)
    requires x * p as real == n as real
    ensures x * (p * q) as real == (n * q) as real
  {
    assert (p * q) as real == p as real * q as real;
  }

  lemma RoundToIdempotent(x: real, scale: nat, mode: RoundingMode, again: RoundingMode)
    ensures RoundTo(RoundTo(x, scale, mode), scale, again) == RoundTo(x, scale, mode)
  {
    RoundToFits(x, scale, mode);
    RoundToFixes(RoundTo(x, scale, mode), scale, again);
  }

  lemma RoundToMonotone(x: real, y: real, scale: nat, mode: RoundingMode)
    requires x <= y
    ensures RoundTo(x, scale, mode) <= RoundTo(y, scale, mode)
  {
    assert Scaled(x, scale) <= Scaled(y, scale);
    RoundIntMonotone(Scaled(x, scale), Scaled(y, scale), mode);
    DivideMonotone(RoundInt(Scaled(x, scale), mode) as real, RoundInt(Scaled(y, scale), mode) as real,
                   Pow10(scale) as real);
  }

  lemma DivideMonotone(a: real, b: real, p: real)
    requires a <= b && p > 0.0
    ensures a / p <= b / p
    ensures a < b ==> a / p < b / p
  {
  }

  /** Off by less than one unit in the last place, by at most half a unit in the HALF modes. */
  lemma RoundToError(x: real, scale: nat, mode: RoundingMode)
    ensures -Quantum(scale) < RoundTo(x, scale, mode) - x < Quantum(scale)
    ensures IsHalf(mode) ==> -Quantum(scale) / 2.0 <= RoundTo(x, scale, mode) - x <= Quantum(scale) / 2.0
  {
    var n, p := RoundInt(Scaled(x, scale), mode), Pow10(scale);
    RoundIntError(Scaled(x, scale), mode);
    hide RoundInt, IsHalf;
    DivideError(n as real, x, p as real, 1.0, IsHalf(mode));
  }

  lemma DivideError(n: real, x: real, p: real, e: real, half: bool)
    requires p > 0.0
    requires -e < n - x * p < e
    requires half ==> -e / 2.0 <= n - x * p <= e / 2.0
    ensures -e / p < n / p - x < e / p
    ensures half ==> -(e / p) / 2.0 <= n / p - x <= (e / p) / 2.0
  {
    var d := n - x * p;
    assert n / p - x == d / p by { assert n == (x + d / p) * p; }
    DivideMonotone(-e, d, p);
    DivideMonotone(d, e, p);
    if half {
      DivideMonotone(-e / 2.0, d, p);
      DivideMonotone(d, e / 2.0, p);
    }
  }

  // ----- The precision that quantize is given

  /** A Python decimal: `coefficient * 10 ** exponent`. */
  datatype Dec = Dec(coefficient: int, exponent: int)

  function Abs(n: int): nat {
    if n < 0 then -n else n
  }

  function Max(a: int, b: int): int {
    if a < b then b else a
  }

  function Value(d: Dec): real {
    if d.exponent >= 0 then (d.coefficient * Pow10(d.exponent)) as real
    else d.coefficient as real / Pow10(-d.exponent) as real
  }

  function Digits(d: Dec): nat {
    NumDigits(Abs(d.coefficient))
  }

  /** `Decimal.adjusted`. */
  function Adjusted(d: Dec): int {
    Digits(d) - 1 + d.exponent
  }

  /** The precision `_quantize` works with. */
  function RequiredPrecision(d: Dec, scale: nat): nat {
    Max(Digits(d), Max(Adjusted(d) + 1, 1) + scale) + 1
  }

  /** Ten to a power that may be negative. */
  function Power(k: int): (p: real)
    ensures p > 0.0
  {
    if k >= 0 then Pow10(k) as real else 1.0 / Pow10(-k) as real
  }

  function Product(x: real, y: real): real {
    x * y
  }

  lemma PowerAdds(a: nat, k: int)
    ensures Power(a + k) == Product(Pow10(a) as real, Power(k))
  {
    hide Pow10, Product;
    if k >= 0 {
      PowerGrows(a, k);
    } else if a + k >= 0 {
      PowerTurns(a + k, -k);
    } else {
      PowerShrinks(a, -(a + k));
    }
  }

  lemma PowerGrows(a: nat, b: nat)
    ensures Pow10(a + b) as real == Product(Pow10(a) as real, Pow10(b) as real)
  {
    Pow10Adds(a, b);
    hide Pow10;
    WholeTimes(Pow10(a), Pow10(b), Pow10(a + b));
  }

  lemma PowerTurns(p: nat, q: nat)
    ensures Pow10(p) as real == Product(Pow10(p + q) as real, 1.0 / Pow10(q) as real)
  {
    Pow10Adds(p, q);
    hide Pow10;
    OverRest(Pow10(p), Pow10(q), Pow10(p + q));
  }

  lemma PowerShrinks(a: nat, p: nat)
    ensures 1.0 / Pow10(p) as real == Product(Pow10(a) as real, 1.0 / Pow10(a + p) as real)
  {
    Pow10Adds(a, p);
    hide Pow10;
    RestUnder(Pow10(a), Pow10(p), Pow10(a + p));
  }

  lemma WholeTimes(a: int, b: int, product: int)
    requires product == a * b
    ensures product as real == a as real * b as real
  {
  }

  lemma OverRest(p: int, q: int, product: int)
    requires q >= 1 && product == p * q
    ensures p as real == product as real * (1.0 / q as real)
  {
    WholeTimes(p, q, product);
    assert (p as real * q as real) / q as real == p as real;
  }

  lemma RestUnder(a: int, p: int, product: int)
    requires a >= 1 && p >= 1 && product == a * p
    ensures 1.0 / p as real == a as real * (1.0 / product as real)
  {
    WholeTimes(a, p, product);
    assert (a as real * (1.0 / product as real)) * p as real == 1.0;
  }

  /** The leading digit of a number other than zero stands at the place that `adjusted` gives. */
  lemma AdjustedExact(d: Dec)
    requires d.coefficient != 0
    ensures
      var magnitude := if Value(d) < 0.0 then -Value(d) else Value(d);
      Power(Adjusted(d)) <= magnitude < Power(Adjusted(d) + 1)
  {
    hide Pow10, Power, Value, NumDigits;
    var c, n := Abs(d.coefficient), Digits(d);
    DigitsBound(c);
    DigitsLowerBound(c);
    PowerAdds(n - 1, d.exponent);
    PowerAdds(n, d.exponent);
    ValueIsScaled(d);
    Leading(Pow10(n - 1), d.coefficient, Pow10(n), Power(d.exponent), Value(d),
            Power(Adjusted(d)), Power(Adjusted(d) + 1));
  }

  lemma ValueIsScaled(d: Dec)
    ensures Value(d) == d.coefficient as real * Power(d.exponent)
  {
    hide Pow10;
    if d.exponent < 0 {
      QuotientTimes(d.coefficient as real, Pow10(-d.exponent) as real);
    } else {
      WholeTimes(d.coefficient, Pow10(d.exponent), d.coefficient * Pow10(d.exponent));
    }
  }

  lemma QuotientTimes(x: real, q: real)
    requires q > 0.0
    ensures x / q == x * (1.0 / q)
  {
  }

  lemma Leading(low: int, c: int, high: int, p: real, x: real, lowest: real, highest: real)
    requires low <= Abs(c) < high && p > 0.0 && x == c as real * p
    requires lowest == low as real * p && highest == high as real * p
    ensures lowest <= (if x < 0.0 then -x else x) < highest
  {
    SignedTimes(c, p, x);
    Ordered(low, Abs(c), p, lowest, if x < 0.0 then -x else x);
    Ordered(Abs(c), high, p, if x < 0.0 then -x else x, highest);
  }

  lemma SignedTimes(c: int, p: real, x: real)
    requires p > 0.0 && x == c as real * p
    ensures (if x < 0.0 then -x else x) == Abs(c) as real * p
  {
  }

  lemma Ordered(a: int, b: int, p: real, x: real, y: real)
    requires p > 0.0 && x == a as real * p && y == b as real * p
    ensures a <= b ==> x <= y
    ensures a < b ==> x < y
  {
  }

  lemma MagnitudeBound(d: Dec)
    ensures
      var m := Max(Adjusted(d) + 1, 1);
      -(Pow10(m) as real) <= Value(d) <= Pow10(m) as real
  {
    var n, m := Digits(d), Max(Adjusted(d) + 1, 1);
    DigitsBound(Abs(d.coefficient));
    var c := d.coefficient;
    assert -Pow10(n) < c < Pow10(n);
    if d.exponent >= 0 {
      Pow10Adds(n, d.exponent);
      ScaleBound(c, Pow10(n), Pow10(d.exponent));
    } else {
      var k: nat := -d.exponent;
      assert n <= m + k;
      Pow10Adds(m, k);
      Pow10Grows(n, m + k);
      QuotientBound(c, Pow10(m), Pow10(k));
    }
  }

  lemma ScaleBound(c: int, b: int, p: int)
    requires -b < c < b && p >= 1
    ensures -(b * p) <= c * p <= b * p
  {
  }

  lemma QuotientBound(c: int, b: int, p: int)
    requires -(b * p) <= c <= b * p && p >= 1
    ensures -(b as real) <= c as real / p as real <= b as real
  {
    assert c as real <= b as real * p as real;
    assert -(b as real) * p as real <= c as real;
  }

  /** The rounded coefficient always has fewer digits than the precision, so `quantize` never fails. */
  lemma QuantizeHasRoom(d: Dec, scale: nat, mode: RoundingMode)
    ensures Abs(RoundInt(Scaled(Value(d), scale), mode)) < Pow10(RequiredPrecision(d, scale))
  {
    var m: nat := Max(Adjusted(d) + 1, 1);
    assert m + scale < RequiredPrecision(d, scale);
    MagnitudeBound(d);
    CoefficientBound(Value(d), m, scale, mode);
    hide Value, Digits, Adjusted, RequiredPrecision, RoundInt, Scaled, Pow10;
    Pow10Grows(m + scale, RequiredPrecision(d, scale));
  }

  lemma CoefficientBound(v: real, m: nat, scale: nat, mode: RoundingMode)
    requires -(Pow10(m) as real) <= v <= Pow10(m) as real
    ensures -Pow10(m + scale) <= RoundInt(Scaled(v, scale), mode) <= Pow10(m + scale)
  {
    hide RoundInt, Pow10;
    ProductBound(v, Pow10(m), Pow10(scale));
    Pow10Adds(m, scale);
    RoundIntBetween(Scaled(v, scale), -Pow10(m + scale), Pow10(m + scale), mode);
  }

  lemma ProductBound(v: real, b: int, p: int)
    requires -(b as real) <= v <= b as real && p >= 1
    ensures -((b * p) as real) <= v * p as real <= (b * p) as real
  {
    assert (b * p) as real == b as real * p as real;
  }

  // ----- The policy

  datatype Point =
    | RuleInputNormalization | RuleComponentResult | MetricFinalAccounting | ReportPresentation | ExportPresentation

  datatype ValueType = MONEY | DECIMAL | RATE | INTEGER | BOOLEAN

  datatype Policy = Policy(
    calculationMode: RoundingMode, calculationScale: nat, moneyScale: nat, rateScale: nat,
    presentationMode: RoundingMode, presentationScale: nat, points: set<Point>,
    maxInputPrecision: nat, maxInputScale: nat)

  function PointMode(p: Policy, point: Point): RoundingMode {
    if point == ReportPresentation || point == ExportPresentation then p.presentationMode else p.calculationMode
  }

  function PointScale(p: Policy, point: Point, t: ValueType): nat {
    match point
    case MetricFinalAccounting => if t == MONEY then p.moneyScale else p.rateScale
    case RuleInputNormalization => p.calculationScale
    case RuleComponentResult => p.calculationScale
    case _ => p.presentationScale
  }

  datatype FinanceError =
    | RoundingPointForbidden | RoundingInputPrecisionExceeded | RoundingInputScaleExceeded
    | ExpressionSchemaInvalid | ExpressionLimitExceeded | ExpressionTypeMismatch | ExpressionUnitMismatch
    | ExpressionCurrencyMismatch | ExpressionArityInvalid | ExpressionOperatorForbidden | ExpressionVariableUnknown
    | ExpressionDependencyUndeclared | ExpressionNonFiniteLiteral
    | ValueSignatureInvalid | ValueCurrencyInvalid | ValueTypeInvalid | ValueDecimalInvalid | ValueReasonInvalid
    | TypedValueMalformed

  /** `_quantize`: the rounded value and the scale it was rounded to. */
  function Quantize(x: real, p: Policy, point: Point, t: ValueType): Result<(real, nat), FinanceError> {
    if point !in p.points then
      Err(RoundingPointForbidden)
    else
      Ok((RoundTo(x, PointScale(p, point, t), PointMode(p, point)), PointScale(p, point, t)))
  }

  /** The scale and the mode that belong to each point of application, and the points that are forbidden. */
  lemma QuantizeMeaning(x: real, p: Policy, point: Point, t: ValueType, n: int)
    ensures
      var accounting := point in {RuleInputNormalization, RuleComponentResult, MetricFinalAccounting};
      var mode := if accounting then p.calculationMode else p.presentationMode;
      var scale :=
        if !accounting then p.presentationScale
        else if point != MetricFinalAccounting then p.calculationScale
        else if t == MONEY then p.moneyScale else p.rateScale;
      && (point !in p.points <==> Quantize(x, p, point, t) == Err(RoundingPointForbidden))
      && (point in p.points ==> Quantize(x, p, point, t).Ok? && Quantize(x, p, point, t).value.1 == scale)
      && (point in p.points ==>
            (Quantize(x, p, point, t) == Ok((n as real / Pow10(scale) as real, scale)) <==>
             IsRounded(Scaled(x, scale), n, mode)))
  {
    hide RoundTo, IsRounded, Pow10, Scaled;
    RoundToMeaning(x, PointScale(p, point, t), n, PointMode(p, point));
  }
}
