/**
 Exact base-10 numbers: sign, coefficient digits and scale.  Every operation is
 proved against the rational number denoted, and the seven rounding modes
 against declarative definitions over the reals.
 */
module Decimals {
  import opened Options
  import opened Magnitude

  datatype RoundingMode = HalfUp | HalfEven | HalfDown | Up | Down | Ceiling | Floor

  /** value = (-1)^negative * coefficient * 10^(-scale) */
  datatype Decimal = Decimal(digits: Mag, scale: nat, negative: bool)

  const MAX_DIGITS: nat := 1_000_000

  const ONE := Decimal([1], 0, false)

  /** The representation invariant: no leading zero digit, and zero is not negative. */
  predicate Valid(x: Decimal) {
    Trimmed(x.digits) && (x.digits == [] ==> !x.negative)
  }

  function Signed(negative: bool, n: int): int {
    if negative then -n else n
  }

  function Coef(x: Decimal): int {
    Signed(x.negative, Val(x.digits))
  }

  function R10(n: nat): (p: real)
    ensures p >= 1.0
  {
    Pow10(n) as real
  }

  /** The rational number denoted. */
  function Value(x: Decimal): real {
    Coef(x) as real / R10(x.scale)
  }

  // ----- rounding, declaratively -----

  /** `q` is the rational `x` rounded to an integer as `mode` specifies. */
  predicate RoundsTo(q: int, x: real, mode: RoundingMode) {
    var y := q as real;
    match mode
    case Floor => y <= x < y + 1.0
    case Ceiling => y - 1.0 < x <= y
    case Down => if x >= 0.0 then y <= x < y + 1.0 else y - 1.0 < x <= y
    case Up => if x >= 0.0 then y - 1.0 < x <= y else y <= x < y + 1.0
    case HalfUp => if x >= 0.0 then y - 0.5 <= x < y + 0.5 else y - 0.5 < x <= y + 0.5
    case HalfDown => if x >= 0.0 then y - 0.5 < x <= y + 0.5 else y - 0.5 <= x < y + 0.5
    case HalfEven => y - 0.5 <= x <= y + 0.5 && (x == y - 0.5 || x == y + 0.5 ==> q % 2 == 0)
  }

  /** Every mode determines its result. */
  lemma RoundsToUnique(q: int, p: int, x: real, mode: RoundingMode)
    requires RoundsTo(q, x, mode) && RoundsTo(p, x, mode)
    ensures q == p
  {
    assert -1.0 <= q as real - p as real <= 1.0;
  }

  /** Rounding toward plus infinity mirrors rounding toward minus infinity. */
  lemma CeilingMirrorsFloor(q: int, x: real)
    ensures RoundsTo(q, x, Floor) <==> RoundsTo(-q, -x, Ceiling)
  {}

  /** Whether the kept coefficient is incremented, given the discarded part. */
  function ApplyRounding(anyRemainder: bool, cmpHalf: int, lastKeptOdd: bool, negative: bool, mode: RoundingMode): bool
  {
    match mode
    case Down => false
    case Up => anyRemainder
    case Ceiling => anyRemainder && !negative
    case Floor => anyRemainder && negative
    case HalfUp => cmpHalf >= 0
    case HalfDown => cmpHalf > 0
    case HalfEven => cmpHalf > 0 || (cmpHalf == 0 && lastKeptOdd)
  }

  /** The decision table implements the declarative definitions: `q` is the kept
      coefficient and `f` the discarded fraction. */
  lemma RoundingCorrect(q: nat, f: real, negative: bool, anyRemainder: bool, cmpHalf: int, mode: RoundingMode)
    requires 0.0 <= f < 1.0
    requires anyRemainder <==> f > 0.0
    requires f < 0.5 ==> cmpHalf == -1
    requires f == 0.5 ==> cmpHalf == 0
    requires f > 0.5 ==> cmpHalf == 1
    ensures var k := if ApplyRounding(anyRemainder, cmpHalf, q % 2 == 1, negative, mode) then q + 1 else q;
            RoundsTo(Signed(negative, k), if negative then -(q as real + f) else q as real + f, mode)
  {
    assert (q + 1) as real == q as real + 1.0;
    assert (-(q + 1)) as real == -(q as real) - 1.0;
    assert (0 - q) as real == -(q as real);
  }

  // ----- rational arithmetic -----

  lemma CastProduct(c: int, a: int, b: int)
    requires c == a * b
    ensures c as real == a as real * b as real
  {}

  lemma R10Add(m: nat, n: nat)
    ensures R10(m + n) == R10(m) * R10(n)
  {
    Pow10Add(m, n);
    CastProduct(Pow10(m + n), Pow10(m), Pow10(n));
  }

  lemma QuotientOf(n: real, d: real, q: real)
    requires d != 0.0 && n == q * d
    ensures n / d == q
  {}

  lemma Expand(c: real, p: real, k: real, ck: real, pk: real)
    requires p != 0.0 && k != 0.0 && ck == c * k && pk == p * k
    ensures pk != 0.0 && c / p == ck / pk
  {
    var v := c / p;
    assert c == v * p;
    assert ck == v * pk;
    QuotientOf(ck, pk, v);
  }

  lemma ExpandCast(c: int, ck: int, k: int, p: real, pk: real, r: real)
    requires ck == c * k && r == k as real && pk == p * r && p >= 1.0 && r >= 1.0
    ensures pk != 0.0 && c as real / p == ck as real / pk
  {
    CastProduct(ck, c, k);
    Expand(c as real, p, r, ck as real, pk);
  }

  /** Appending zeros to the coefficient and to the scale keeps the value. */
  lemma Scaled(c: int, s: nat, k: nat, ck: int)
    requires ck == c * Pow10(k)
    ensures c as real / R10(s) == ck as real / R10(s + k)
  {
    R10Add(s, k);
    ExpandCast(c, ck, Pow10(k), R10(s), R10(s + k), R10(k));
  }

  lemma SumOverScale(a: int, b: int, p: real)
    requires p != 0.0
    ensures a as real / p + b as real / p == (a + b) as real / p
  {
    QuotientOf((a + b) as real, p, a as real / p + b as real / p);
  }

  // ----- operations -----

  /** Removes leading zeros and normalises the sign of zero. */
  method Normalized(digits: Mag, scale: nat, negative: bool) returns (r: Decimal)
    ensures Valid(r) && r.scale == scale && Coef(r) == Signed(negative, Val(digits))
    ensures |r.digits| <= |digits|
  {
    var trimmed := MagTrim(digits);
    if trimmed != [] {
      TrimmedBound(trimmed);
    }
    r := Decimal(trimmed, scale, negative && trimmed != []);
  }

  /** Valid decimals of one scale are determined by their coefficients. */
  lemma SameCoef(x: Decimal, y: Decimal)
    requires Valid(x) && Valid(y) && x.scale == y.scale && Coef(x) == Coef(y)
    ensures x == y
  {
    if x.digits != [] {
      TrimmedBound(x.digits);
    }
    if y.digits != [] {
      TrimmedBound(y.digits);
    }
    ValInjective(x.digits, y.digits);
  }

  function Max(a: nat, b: nat): nat {
    if a < b then b else a
  }

  /** A decimal brought to a larger scale. */
  lemma AtScale(x: Decimal, s: nat, m: nat)
    requires x.scale <= s && m == Val(x.digits) * Pow10(s - x.scale)
    ensures Value(x) == Signed(x.negative, m) as real / R10(s)
  {
    SignedTimes(x.negative, Val(x.digits), Pow10(s - x.scale));
    Scaled(Coef(x), x.scale, s - x.scale, Signed(x.negative, m));
  }

  lemma SignedTimes(negative: bool, n: int, p: int)
    ensures Signed(negative, n) * p == Signed(negative, n * p)
  {}

  method Add(x: Decimal, y: Decimal) returns (r: Decimal)
    requires Valid(x) && Valid(y)
    ensures Valid(r) && r.scale == Max(x.scale, y.scale)
    ensures Value(r) == Value(x) + Value(y)
  {
    var common := Max(x.scale, y.scale);
    var left := MagShiftLeft(x.digits, common - x.scale);
    var right := MagShiftLeft(y.digits, common - y.scale);
    AtScale(x, common, Val(left));
    AtScale(y, common, Val(right));
    SumOverScale(Signed(x.negative, Val(left)), Signed(y.negative, Val(right)), R10(common));
    if x.negative == y.negative {
      var sum := MagAdd(left, right);
      r := Normalized(sum, common, x.negative);
    } else {
      var cmp := MagCompare(left, right);
      if cmp >= 0 {
        NoLonger(right, left);
        var difference := MagSub(left, right);
        r := Normalized(difference, common, x.negative);
      } else {
        NoLonger(left, right);
        var difference := MagSub(right, left);
        r := Normalized(difference, common, y.negative);
      }
    }
  }

  function Negate(x: Decimal): (r: Decimal)
    ensures Valid(x) ==> Valid(r) && Value(r) == -Value(x) && r.scale == x.scale
  {
    NegateValue(x);
    if x.digits == [] then x else x.(negative := !x.negative)
  }

  lemma NegateValue(x: Decimal)
    ensures Value(x.(negative := !x.negative)) == -Value(x)
    ensures x.digits == [] ==> Value(x) == 0.0
  {
    var c := Coef(x);
    assert Coef(x.(negative := !x.negative)) == -c;
    QuotientOf((-c) as real, R10(x.scale), -(c as real / R10(x.scale)));
  }

  method Subtract(x: Decimal, y: Decimal) returns (r: Decimal)
    requires Valid(x) && Valid(y)
    ensures Valid(r) && r.scale == Max(x.scale, y.scale)
    ensures Value(r) == Value(x) - Value(y)
  {
    r := Add(x, Negate(y));
  }

  lemma ProductOver(a: int, b: int, ab: int, p: real, q: real, pq: real, u: real, v: real, w: real)
    requires ab == a * b && pq == p * q && p >= 1.0 && q >= 1.0 && pq >= 1.0
    requires u == a as real / p && v == b as real / q && w == ab as real / pq
    ensures w == u * v
  {
    CastProduct(ab, a, b);
    assert a as real == u * p && b as real == v * q;
    assert (u * p) * (v * q) == (u * v) * pq;
    QuotientOf(ab as real, pq, u * v);
  }

  /** Refuses exactly when the product could exceed the digit cap. */
  method Multiply(x: Decimal, y: Decimal) returns (r: Option<Decimal>)
    requires Valid(x) && Valid(y)
    ensures r.None? <==> |x.digits| + |y.digits| > MAX_DIGITS || x.scale + y.scale > MAX_DIGITS
    ensures r.Some? ==> Valid(r.value) && r.value.scale == x.scale + y.scale && Value(r.value) == Value(x) * Value(y)
  {
    if |x.digits| + |y.digits| > MAX_DIGITS || x.scale + y.scale > MAX_DIGITS {
      return None;
    }
    var product := MagMul(x.digits, y.digits);
    var result := Normalized(product, x.scale + y.scale, x.negative != y.negative);
    SignedProduct(x.negative, Val(x.digits), y.negative, Val(y.digits));
    ProductValue(x, y, result);
    r := Some(result);
  }

  lemma ProductValue(x: Decimal, y: Decimal, r: Decimal)
    requires r.scale == x.scale + y.scale && Coef(r) == Coef(x) * Coef(y)
    ensures Value(r) == Value(x) * Value(y)
  {
    R10Add(x.scale, y.scale);
    ProductOver(Coef(x), Coef(y), Coef(r), R10(x.scale), R10(y.scale), R10(r.scale), Value(x), Value(y), Value(r));
  }

  lemma SignedProduct(s: bool, m: int, t: bool, n: int)
    ensures Signed(s, m) * Signed(t, n) == Signed(s != t, m * n)
  {}

  // ----- division -----

  /** The scaled operand fits the digit cap. */
  predicate DivideFits(x: Decimal, y: Decimal, resultScale: nat) {
    var exp := resultScale + y.scale - x.scale;
    if exp >= 0 then |x.digits| + exp <= MAX_DIGITS else |y.digits| - exp <= MAX_DIGITS
  }

  /** `r` is the quotient at `resultScale` places, rounded as `mode` specifies. */
  predicate IsQuotient(x: Decimal, y: Decimal, resultScale: nat, mode: RoundingMode, r: Decimal) {
    && Value(y) != 0.0 && Valid(r) && r.scale == resultScale
    && RoundsTo(Coef(r), Exact(x, y, resultScale), mode)
  }

  lemma NonzeroValue(y: Decimal)
    requires Valid(y) && y.digits != []
    ensures Value(y) != 0.0 && Val(y.digits) > 0
  {
    TrimmedBound(y.digits);
  }

  /** Integer division with remainder, as a whole part and a fraction. */
  lemma WholeAndFraction(n: nat, d: nat, q: nat, r: nat)
    requires d > 0 && n == q * d + r && r < d
    ensures n as real / d as real == q as real + r as real / d as real
    ensures 0.0 <= r as real / d as real < 1.0
    ensures r as real / d as real > 0.0 <==> r > 0
    ensures r as real / d as real < 0.5 <==> 2 * r < d
    ensures r as real / d as real == 0.5 <==> 2 * r == d
  {
    var f := r as real / d as real;
    var e := d as real;
    assert f * e == r as real;
    CastProduct(q * d, q, d);
    QuotientOf(n as real, e, q as real + f);
    FractionOf(f, e, r as real);
  }

  lemma SameSign(g: real, e: real, h: real)
    requires e > 0.0 && g * e == h
    ensures (g < 0.0 <==> h < 0.0) && (g == 0.0 <==> h == 0.0)
  {}

  lemma FractionOf(f: real, e: real, r: real)
    requires e > 0.0 && f * e == r && 0.0 <= r < e
    ensures 0.0 <= f < 1.0 && (f > 0.0 <==> r > 0.0)
    ensures (f < 0.5 <==> 2.0 * r < e) && (f == 0.5 <==> 2.0 * r == e)
  {
    SameSign(f, e, r);
    assert (f - 1.0) * e == r - e;
    SameSign(f - 1.0, e, r - e);
    assert (f - 0.5) * e == r - 0.5 * e;
    SameSign(f - 0.5, e, r - 0.5 * e);
  }

  /** The exact quotient, in units of the last kept place. */
  function Exact(x: Decimal, y: Decimal, resultScale: nat): real
    requires Value(y) != 0.0
  {
    Value(x) / Value(y) * R10(resultScale)
  }

  /** The quotient of two decimals as a quotient of integers, given at scales that
      differ by the result's. */
  lemma QuotientAsIntegers(x: Decimal, y: Decimal, rs: nat, s1: nat, s2: nat, n: int, d: int)
    requires Value(y) != 0.0 && s1 == rs + s2 && d != 0
    requires Value(x) == n as real / R10(s1) && Value(y) == d as real / R10(s2)
    ensures Exact(x, y, rs) == n as real / d as real
  {
    RatioAtScales(n, d, s1, rs, s2, Value(x), Value(y));
  }

  lemma RatioAtScales(n: int, d: int, s1: nat, rs: nat, s2: nat, x: real, y: real)
    requires s1 == rs + s2 && x == n as real / R10(s1) && y == d as real / R10(s2) && y != 0.0 && d != 0
    ensures x / y * R10(rs) == n as real / d as real
  {
    R10Add(rs, s2);
    Ratio(n as real, d as real, R10(s1), R10(rs), R10(s2), x, y);
  }

  lemma Ratio(n: real, d: real, p: real, t: real, q: real, x: real, y: real)
    requires p == t * q && p >= 1.0 && t >= 1.0 && q >= 1.0 && d != 0.0 && y != 0.0
    requires x == n / p && y == d / q
    ensures x / y * t == n / d
  {
    var w := x / y;
    assert n == x * p && d == y * q && x == w * y;
    assert (w * t) * (y * q) == (w * y) * (t * q);
    QuotientOf(n, d, w * t);
  }

  lemma ParityOf(m: Mag)
    ensures (m != [] && m[0] % 2 == 1) <==> Val(m) % 2 == 1
  {}

  function SignedReal(negative: bool, x: real): real {
    if negative then -x else x
  }

  lemma SignedQuotient(s: bool, n: nat, t: bool, d: nat)
    requires d > 0
    ensures Signed(s, n) as real / Signed(t, d) as real == SignedReal(s != t, n as real / d as real)
  {
    var v := n as real / d as real;
    assert n as real == v * d as real;
    QuotientOf(Signed(s, n) as real, Signed(t, d) as real, SignedReal(s != t, v));
  }

  /** Divides two magnitudes and rounds the signed quotient. */
  method RoundedQuotient(numerator: Mag, denominator: Mag, negative: bool, mode: RoundingMode) returns (q: Mag)
    requires Trimmed(denominator) && Val(denominator) > 0
    ensures RoundsTo(Signed(negative, Val(q)),
                     SignedReal(negative, Val(numerator) as real / Val(denominator) as real), mode)
  {
    var quotient, remainder := MagDivmod(numerator, denominator);
    var cmpHalf := -1;
    var anyRemainder := false;
    if remainder != [] {
      TrimmedBound(remainder);
      anyRemainder := true;
      var doubled := MagMulSmall(remainder, 2);
      cmpHalf := MagCompare(doubled, denominator);
    }
    var lastOdd := quotient != [] && quotient[0] % 2 == 1;
    ParityOf(quotient);
    WholeAndFraction(Val(numerator), Val(denominator), Val(quotient), Val(remainder));
    RoundingCorrect(Val(quotient), Val(remainder) as real / Val(denominator) as real,
                    negative, anyRemainder, cmpHalf, mode);
    q := quotient;
    if ApplyRounding(anyRemainder, cmpHalf, lastOdd, negative, mode) {
      q := MagAdd(quotient, [1]);
    }
  }

  method Divide(x: Decimal, y: Decimal, resultScale: int, mode: RoundingMode) returns (r: Option<Decimal>)
    requires Valid(x) && Valid(y)
    ensures r.None? <==> y.digits == [] || resultScale < 0 || !DivideFits(x, y, resultScale)
    ensures r.Some? ==> IsQuotient(x, y, resultScale, mode, r.value)
  {
    if y.digits != [] {
      NonzeroValue(y);
    }
    if y.digits == [] || resultScale < 0 {
      return None;
    }
    var exp := resultScale + y.scale - x.scale;
    var numerator, denominator := x.digits, y.digits;
    if exp >= 0 {
      if |numerator| + exp > MAX_DIGITS {
        return None;
      }
      numerator := MagShiftLeft(numerator, exp);
    } else {
      if |denominator| - exp > MAX_DIGITS {
        return None;
      }
      denominator := MagShiftLeft(denominator, -exp);
    }
    ghost var up, down := if exp >= 0 then exp else 0, if exp >= 0 then 0 else -exp;
    ExactOf(x, y, resultScale, up, down, Val(numerator), Val(denominator));
    var quotient := RoundedQuotient(numerator, denominator, x.negative != y.negative, mode);
    var result := Normalized(quotient, resultScale, x.negative != y.negative);
    r := Some(result);
  }

  lemma ExactOf(x: Decimal, y: Decimal, rs: nat, up: nat, down: nat, n: nat, d: nat)
    requires Value(y) != 0.0 && rs + (y.scale + down) == x.scale + up && Val(y.digits) > 0
    requires n == Val(x.digits) * Pow10(up) && d == Val(y.digits) * Pow10(down)
    ensures d > 0 && Exact(x, y, rs) == SignedReal(x.negative != y.negative, n as real / d as real)
  {
    ProductPositive(Val(y.digits), Pow10(down), d);
    AtScale(x, x.scale + up, n);
    AtScale(y, y.scale + down, d);
    QuotientAsIntegers(x, y, rs, x.scale + up, y.scale + down, Signed(x.negative, n), Signed(y.negative, d));
    SignedQuotient(x.negative, n, y.negative, d);
  }

  lemma ProductPositive(a: nat, b: nat, c: nat)
    requires a > 0 && b > 0 && c == a * b
    ensures c > 0
  {}

  // ----- rounding -----

  function ClampPlaces(places: int): nat {
    if places < 0 then 0 else if places > MAX_DIGITS then MAX_DIGITS else places
  }

  /** `r` is `x` rounded to the clamped number of places. */
  predicate IsRounded(x: Decimal, places: int, mode: RoundingMode, r: Decimal) {
    && Valid(r) && (places < 0 ==> r.scale == 0) && (places > MAX_DIGITS ==> r.scale == MAX_DIGITS)
    && (0 <= places <= MAX_DIGITS ==> r.scale == places)
    && RoundsTo(Coef(r), Units(x, r.scale), mode)
  }

  /** The value in units of the last of `places` places. */
  function Units(x: Decimal, places: nat): real {
    Value(x) * R10(places)
  }

  lemma ExactRounds(q: int, mode: RoundingMode)
    ensures RoundsTo(q, q as real, mode)
  {}

  lemma TimesScale(c: int, p: real, v: real)
    requires p >= 1.0 && v == c as real / p
    ensures v * p == c as real
  {}

  /** In units of the kept place, a value is its coefficient over 10^drop. */
  lemma DroppedScale(c: int, s: nat, drop: nat, v: real)
    requires v == c as real / R10(s + drop)
    ensures v * R10(s) == c as real / R10(drop)
  {
    R10Add(s, drop);
    DroppedRatio(c as real, R10(s), R10(drop), R10(s + drop), v);
  }

  lemma DroppedRatio(c: real, p: real, q: real, pq: real, v: real)
    requires p >= 1.0 && q >= 1.0 && pq == p * q && pq >= 1.0 && v == c / pq
    ensures v * p == c / q
  {
    assert c == v * pq;
    assert v * pq == (v * p) * q;
    QuotientOf(c, q, v * p);
  }

  lemma {:induction false} NonzeroDigit(m: Mag, k: nat)
    requires k < |m| && m[k] != 0
    ensures Val(m) != 0
  {
    if k > 0 {
      NonzeroDigit(m[1..], k - 1);
    }
  }

  /** Whether any of the `count` lowest stored digits is nonzero. */
  method AnyNonzero(digits: Mag, count: nat) returns (found: bool)
    ensures found <==> Low(digits, count) != 0
  {
    ghost var low := if count < |digits| then digits[..count] else digits;
    var k := 0;
    while k < count && k < |digits|
      invariant 0 <= k <= |low|
      invariant forall j | 0 <= j < k :: digits[j] == 0
    {
      if digits[k] != 0 {
        NonzeroDigit(low, k);
        return true;
      }
      k := k + 1;
    }
    AllZero(low);
    return false;
  }

  /** The discarded digits, compared with one half of the last kept unit. */
  lemma HalfDecides(digits: Mag, drop: nat, first: Digit, rest: nat)
    requires drop > 0 && first == DigitAt(digits, drop - 1) && rest == Low(digits, drop - 1)
    ensures Low(digits, drop) == rest + first * Pow10(drop - 1) && rest < Pow10(drop - 1)
    ensures 2 * Low(digits, drop) > Pow10(drop) <==> first > 5 || (first == 5 && rest != 0)
    ensures 2 * Low(digits, drop) == Pow10(drop) <==> first == 5 && rest == 0
    ensures Low(digits, drop) == 0 <==> first == 0 && rest == 0
  {
    LowStep(digits, drop - 1);
    LowBound(digits, drop - 1);
    HalfByDigit(first, rest, Pow10(drop - 1));
  }

  lemma HalfByDigit(first: Digit, rest: nat, p: nat)
    requires rest < p
    ensures 2 * (rest + first * p) > 10 * p <==> first > 5 || (first == 5 && rest != 0)
    ensures 2 * (rest + first * p) == 10 * p <==> first == 5 && rest == 0
    ensures rest + first * p == 0 <==> first == 0 && rest == 0
  {
    if first > 5 {
      assert first * p >= 6 * p;
    } else if first < 5 {
      assert first * p <= 4 * p;
    }
    assert first != 0 ==> first * p >= p;
  }

  lemma LowBound(m: Mag, i: nat)
    ensures Low(m, i) < Pow10(i)
  {
    ValBound(if i < |m| then m[..i] else m);
    if i >= |m| {
      Pow10Monotone(|m|, i);
    }
  }

  lemma KeptAndDropped(m: Mag, drop: nat)
    ensures Val(m) == Val(if drop < |m| then m[drop..] else []) * Pow10(drop) + Low(m, drop)
  {
    if drop < |m| {
      assert m == m[..drop] + m[drop..];
      ValAppend(m[..drop], m[drop..]);
    }
  }

  lemma UnitsDropped(x: Decimal, p: nat, drop: nat)
    requires x.scale == p + drop
    ensures Units(x, p) == SignedReal(x.negative, Val(x.digits) as real / Pow10(drop) as real)
  {
    UnitsOver(x, p, drop, Coef(x));
    SignedQuotient(x.negative, Val(x.digits), false, Pow10(drop));
  }

  lemma UnitsOver(x: Decimal, p: nat, drop: nat, c: int)
    requires x.scale == p + drop && c == Coef(x)
    ensures Units(x, p) == c as real / R10(drop)
  {
    DroppedScale(c, p, drop, Value(x));
  }

  lemma UnitsWidened(x: Decimal, p: nat, m: nat)
    requires x.scale <= p && m == Val(x.digits) * Pow10(p - x.scale)
    ensures Units(x, p) == Signed(x.negative, m) as real
  {
    AtScale(x, p, m);
    UnitsOf(x, p, Signed(x.negative, m));
  }

  lemma UnitsOf(x: Decimal, p: nat, c: int)
    requires Value(x) == c as real / R10(p)
    ensures Units(x, p) == c as real
  {
    TimesScale(c, R10(p), Value(x));
  }

  /** The decision on a kept part `q` with discarded part `low` out of `d`. */
  lemma RoundParts(
      n: nat, d: nat, q: nat, low: nat, negative: bool, anyRemainder: bool, cmpHalf: int, mode: RoundingMode)
    requires d > 0 && n == q * d + low && low < d
    requires (anyRemainder <==> low != 0) && cmpHalf == Order(2 * low, d)
    ensures var k := if ApplyRounding(anyRemainder, cmpHalf, q % 2 == 1, negative, mode) then q + 1 else q;
            RoundsTo(Signed(negative, k), SignedReal(negative, n as real / d as real), mode)
  {
    WholeAndFraction(n, d, q, low);
    RoundingCorrect(q, low as real / d as real, negative, anyRemainder, cmpHalf, mode);
  }

  method Round(x: Decimal, places: int, mode: RoundingMode) returns (r: Decimal)
    requires Valid(x)
    ensures IsRounded(x, places, mode, r)
  {
    var p := ClampPlaces(places);
    if p >= x.scale {
      var digits := x.digits;
      if p > x.scale && digits != [] {
        digits := MagShiftLeft(digits, p - x.scale);
      }
      r := Normalized(digits, p, x.negative);
      UnitsWidened(x, p, Val(digits));
      ExactRounds(Coef(r), mode);
    } else {
      r := RoundOff(x, p, mode);
    }
  }

  /** Rounding that discards digits: classifies the discarded part by its first
      digit and by whether any later digit is nonzero. */
  method RoundOff(x: Decimal, p: nat, mode: RoundingMode) returns (r: Decimal)
    requires Valid(x) && p < x.scale
    ensures Valid(r) && r.scale == p && RoundsTo(Coef(r), Units(x, p), mode)
  {
    var drop := x.scale - p;
    var kept: Mag := if drop < |x.digits| then x.digits[drop..] else [];
    var firstDropped := DigitAt(x.digits, drop - 1);
    var restNonzero := AnyNonzero(x.digits, drop - 1);
    var anyRemainder := firstDropped != 0 || restNonzero;
    var cmpHalf := -1;
    if firstDropped > 5 || (firstDropped == 5 && restNonzero) {
      cmpHalf := 1;
    } else if firstDropped == 5 {
      cmpHalf := 0;
    }
    var lastOdd := kept != [] && kept[0] % 2 == 1;
    ghost var low := Low(x.digits, drop);
    HalfDecides(x.digits, drop, firstDropped, Low(x.digits, drop - 1));
    assert cmpHalf == Order(2 * low, Pow10(drop)) && (anyRemainder <==> low != 0);
    KeptAndDropped(x.digits, drop);
    LowBound(x.digits, drop);
    RoundParts(Val(x.digits), Pow10(drop), Val(kept), low, x.negative, anyRemainder, cmpHalf, mode);
    UnitsDropped(x, p, drop);
    ParityOf(kept);
    if ApplyRounding(anyRemainder, cmpHalf, lastOdd, x.negative, mode) {
      kept := MagAdd(kept, [1]);
    }
    r := Normalized(kept, p, x.negative);
  }

  // ----- the two roundings agree -----

  lemma ValueOfOne()
    ensures Valid(ONE) && Value(ONE) == 1.0
  {
    assert Val([1]) == 1 + 10 * Val([]);
    assert Pow10(0) == 1;
  }

  lemma ExactByOne(x: Decimal, places: nat)
    ensures Value(ONE) != 0.0 && Exact(x, ONE, places) == Units(x, places)
  {
    ValueOfOne();
    ExactUnits(x, ONE, places);
  }

  lemma ExactUnits(x: Decimal, y: Decimal, places: nat)
    requires Value(y) == 1.0
    ensures Exact(x, y, places) == Units(x, places)
  {
    DividedByOne(Value(x), Value(y), R10(places));
  }

  lemma DividedByOne(v: real, w: real, p: real)
    requires w == 1.0
    ensures v / w * p == v * p
  {}

  /** Rounding to `places` and dividing by one at `places` give the same decimal,
      digit for digit, whenever the division returns a value. */
  lemma RoundIsDivideByOne(x: Decimal, places: nat, mode: RoundingMode, rounded: Decimal, quotient: Decimal)
    requires Valid(x) && places <= MAX_DIGITS
    requires IsRounded(x, places, mode, rounded) && IsQuotient(x, ONE, places, mode, quotient)
    ensures rounded == quotient
  {
    ExactByOne(x, places);
    RoundsToUnique(Coef(rounded), Coef(quotient), Units(x, places), mode);
    SameCoef(rounded, quotient);
  }

  /** Rounds twice, by dropping digits and by dividing by one: the same decimal. */
  method RoundBothWays(x: Decimal, places: nat, mode: RoundingMode)
    returns (rounded: Decimal, quotient: Option<Decimal>)
    requires Valid(x) && places <= MAX_DIGITS
    ensures IsRounded(x, places, mode, rounded)
    ensures quotient == if DivideFits(x, ONE, places) then Some(rounded) else None
  {
    ValueOfOne();
    rounded := Round(x, places, mode);
    quotient := Divide(x, ONE, places, mode);
    if quotient.Some? {
      RoundIsDivideByOne(x, places, mode, rounded, quotient.value);
    }
  }

  /** The ceiling, computed as minus the floor of the negation. */
  method CeilingByFloor(x: Decimal, places: int) returns (r: Decimal)
    requires Valid(x)
    ensures IsRounded(x, places, Ceiling, r)
  {
    var ceiling := Round(x, places, Ceiling);
    var floor := Round(Negate(x), places, Floor);
    NegateTwice(x);
    CeilingOfNegation(Negate(x), places, ceiling, floor);
    r := Negate(floor);
  }

  lemma NegateTwice(x: Decimal)
    requires Valid(x)
    ensures Negate(Negate(x)) == x
  {}

  /** Rounding -x toward plus infinity negates rounding x toward minus infinity. */
  lemma CeilingOfNegation(x: Decimal, places: int, ceiling: Decimal, floor: Decimal)
    requires Valid(x) && IsRounded(Negate(x), places, Ceiling, ceiling) && IsRounded(x, places, Floor, floor)
    ensures ceiling == Negate(floor)
  {
    var p := ClampPlaces(places);
    NegatedUnits(x, p);
    CeilingMirrorsFloor(Coef(floor), Units(x, p));
    RoundsToUnique(Coef(ceiling), -Coef(floor), -Units(x, p), Ceiling);
    SameCoef(ceiling, Negate(floor));
  }

  lemma NegatedUnits(x: Decimal, p: nat)
    requires Valid(x)
    ensures Units(Negate(x), p) == -Units(x, p)
  {
    NegatedProduct(Value(x), Value(Negate(x)), R10(p));
  }

  lemma NegatedProduct(v: real, w: real, p: real)
    requires w == -v
    ensures w * p == -(v * p)
  {}

  // ----- comparison and canonical form -----

  function OrderOf(x: real, y: real): int {
    if x < y then -1 else if x == y then 0 else 1
  }

  lemma OrderOverScale(a: int, b: int, p: real)
    requires p >= 1.0
    ensures OrderOf(a as real / p, b as real / p) == Order(a, b)
  {
    var u, v := a as real / p, b as real / p;
    assert (u - v) * p == a as real - b as real;
    SameSign(u - v, p, a as real - b as real);
  }

  function SignOf(x: Decimal): (s: int)
    ensures Valid(x) ==> s == Order(Coef(x), 0)
  {
    if x.digits == [] then 0
    else if Trimmed(x.digits) then TrimmedBound(x.digits); if x.negative then -1 else 1
    else if x.negative then -1 else 1
  }

  lemma SignDecides(x: Decimal, y: Decimal)
    requires Valid(x) && Valid(y)
    ensures SignOf(x) < SignOf(y) ==> Value(x) < Value(y)
    ensures SignOf(x) == SignOf(y) == 0 ==> Value(x) == Value(y)
  {
    SameSign(Value(x), R10(x.scale), Coef(x) as real);
    SameSign(Value(y), R10(y.scale), Coef(y) as real);
  }

  /** Three-way comparison of the rational values, whatever the scales. */
  method Compare(x: Decimal, y: Decimal) returns (c: int)
    requires Valid(x) && Valid(y)
    ensures c == OrderOf(Value(x), Value(y))
  {
    var signX, signY := SignOf(x), SignOf(y);
    SignDecides(x, y);
    SignDecides(y, x);
    if signX != signY {
      return if signX < signY then -1 else 1;
    }
    if signX == 0 {
      return 0;
    }
    var common := Max(x.scale, y.scale);
    var left := MagShiftLeft(x.digits, common - x.scale);
    var right := MagShiftLeft(y.digits, common - y.scale);
    AtScale(x, common, Val(left));
    AtScale(y, common, Val(right));
    OrderOverScale(Signed(x.negative, Val(left)), Signed(y.negative, Val(right)), R10(common));
    var cmp := MagCompare(left, right);
    return if signX > 0 then cmp else -cmp;
  }

  /** No insignificant trailing fractional zero; zero has scale 0. */
  predicate IsCanonical(x: Decimal) {
    Valid(x) && (x.scale > 0 ==> x.digits != [] && x.digits[0] != 0)
  }

  method Canonical(x: Decimal) returns (r: Decimal)
    requires Valid(x)
    ensures IsCanonical(r) && Value(r) == Value(x)
  {
    r := x;
    while r.scale > 0 && r.digits != [] && r.digits[0] == 0
      invariant Valid(r) && Value(r) == Value(x)
      decreases r.scale
    {
      assert Val(r.digits) == 10 * Val(r.digits[1..]);
      var next := Decimal(r.digits[1..], r.scale - 1, r.negative);
      Scaled(Coef(next), next.scale, 1, Coef(r));
      r := next;
    }
    if r.digits == [] {
      r := Decimal([], 0, false);
    }
  }

  /** Canonical forms of equal values are structurally identical. */
  lemma CanonicalUnique(x: Decimal, y: Decimal)
    requires IsCanonical(x) && IsCanonical(y) && Value(x) == Value(y)
    ensures x == y
  {
    if x.scale < y.scale {
      TrailingZero(x, y);
    } else if y.scale < x.scale {
      TrailingZero(y, x);
    } else {
      OrderOverScale(Coef(x), Coef(y), R10(x.scale));
      SameCoef(x, y);
    }
  }

  /** A value that fits a smaller scale leaves a zero digit at the larger one. */
  lemma TrailingZero(x: Decimal, y: Decimal)
    requires Valid(x) && Valid(y) && Value(x) == Value(y) && x.scale < y.scale
    ensures y.digits != [] ==> y.digits[0] == 0
  {
    var k := y.scale - x.scale;
    var c := Coef(x) * Pow10(k);
    Scaled(Coef(x), x.scale, k, c);
    SameNumerator(c, y);
    PowerMultiple(Coef(x), k, c);
    LowestDigit(y);
  }

  lemma PowerMultiple(c: int, k: nat, d: int)
    requires k > 0 && d == c * Pow10(k)
    ensures d % 10 == 0
  {
    MultipleOfTen(c, Pow10(k - 1), d);
  }

  lemma LowestDigit(y: Decimal)
    requires Coef(y) % 10 == 0
    ensures y.digits != [] ==> y.digits[0] == 0
  {}

  lemma SameNumerator(c: int, y: Decimal)
    requires Value(y) == c as real / R10(y.scale)
    ensures Coef(y) == c
  {
    OrderOverScale(c, Coef(y), R10(y.scale));
  }

  lemma MultipleOfTen(c: int, p: int, d: int)
    requires d == c * (10 * p)
    ensures d % 10 == 0 && (-d) % 10 == 0
  {
    assert d == 10 * (c * p);
  }

  /** Equality by comparing canonical forms is equality of values. */
  method SameCanonical(x: Decimal, y: Decimal) returns (same: bool)
    requires Valid(x) && Valid(y)
    ensures same <==> Value(x) == Value(y)
  {
    var cx := Canonical(x);
    var cy := Canonical(y);
    EqualIffSameCanonical(x, y, cx, cy);
    same := cx == cy;
  }

  /** Two decimals compare equal exactly when their canonical forms are the same. */
  lemma EqualIffSameCanonical(x: Decimal, y: Decimal, cx: Decimal, cy: Decimal)
    requires IsCanonical(cx) && Value(cx) == Value(x) && IsCanonical(cy) && Value(cy) == Value(y)
    ensures OrderOf(Value(x), Value(y)) == 0 <==> cx == cy
  {
    if Value(x) == Value(y) {
      CanonicalUnique(cx, cy);
    }
  }
}
