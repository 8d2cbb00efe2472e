/**
 Arbitrary-precision magnitudes: little-endian sequences of decimal digits, and
 the grade-school algorithms on them, each proved against the number denoted.
 */
module Magnitude {
  type Digit = d: int | 0 <= d < 10

  type Mag = seq<Digit>

  // ----- the number a magnitude denotes -----

  function Pow10(n: nat): (p: nat)
    ensures p >= 1
  {
    if n == 0 then 1 else 10 * Pow10(n - 1)
  }

  function Val(m: Mag): nat {
    if m == [] then 0 else m[0] + 10 * Val(m[1..])
  }

  /** No most significant zero digit, so every number has one form. */
  predicate Trimmed(m: Mag) {
    m != [] ==> m[|m| - 1] != 0
  }

  lemma {:induction false} Pow10Add(m: nat, n: nat)
    ensures Pow10(m + n) == Pow10(m) * Pow10(n)
  {
    if m > 0 {
      Pow10Add(m - 1, n);
      assert Pow10(m + n) == 10 * Pow10(m - 1 + n);
    }
  }

  lemma {:induction false} ValAppend(a: Mag, b: Mag)
    ensures Val(a + b) == Val(a) + Pow10(|a|) * Val(b)
  {
    if a == [] {
      assert a + b == b;
    } else {
      assert (a + b)[1..] == a[1..] + b;
      ValAppend(a[1..], b);
      ShiftedSum(a[0], Val(a[1..]), Pow10(|a| - 1), Val(b));
    }
  }

  lemma ShiftedSum(x: int, a: int, p: int, b: int)
    ensures x + 10 * (a + p * b) == (x + 10 * a) + (10 * p) * b
  {}

  lemma ValSnoc(a: Mag, d: Digit)
    ensures Val(a + [d]) == Val(a) + d * Pow10(|a|)
  {
    ValAppend(a, [d]);
    assert [d][1..] == [];
    ProductIs(Pow10(|a|), Val([d]), d);
  }

  lemma ProductIs(p: int, x: int, y: int)
    requires x == y
    ensures p * x == y * p
  {}

  lemma ProductAtLeast(p: nat, x: int, y: int)
    requires x <= y
    ensures p * x <= p * y && x * p <= y * p
  {}

  lemma {:induction false} ValBound(m: Mag)
    ensures Val(m) < Pow10(|m|)
  {
    if m != [] {
      ValBound(m[1..]);
    }
  }

  lemma TrimmedBound(m: Mag)
    requires m != [] && Trimmed(m)
    ensures Val(m) >= Pow10(|m| - 1)
  {
    var n := |m| - 1;
    assert m == m[..n] + [m[n]];
    ValSnoc(m[..n], m[n]);
    ProductAtLeast(Pow10(n), 1, m[n]);
  }

  lemma {:induction false} Pow10Monotone(m: nat, n: nat)
    requires m <= n
    ensures Pow10(m) <= Pow10(n)
  {
    if m < n {
      Pow10Monotone(m, n - 1);
    }
  }

  /** A longer trimmed magnitude denotes a larger number. */
  lemma LongerIsLarger(a: Mag, b: Mag)
    requires Trimmed(b) && |a| < |b|
    ensures Val(a) < Val(b)
  {
    ValBound(a);
    TrimmedBound(b);
    Pow10Monotone(|a|, |b| - 1);
  }

  /** Equal numbers have equal trimmed magnitudes. */
  lemma {:induction false} ValInjective(a: Mag, b: Mag)
    requires Trimmed(a) && Trimmed(b) && Val(a) == Val(b)
    ensures a == b
  {
    if |a| < |b| {
      LongerIsLarger(a, b);
    } else if |b| < |a| {
      LongerIsLarger(b, a);
    } else if a != [] {
      assert a[0] == Val(a) % 10 && b[0] == Val(b) % 10;
      ValInjective(a[1..], b[1..]);
      assert a == [a[0]] + a[1..] && b == [b[0]] + b[1..];
    }
  }

  lemma ValUpdate(m: Mag, i: nat, d: Digit)
    requires i < |m|
    ensures Val(m[i := d]) == Val(m) + (d - m[i]) * Pow10(i)
  {
    var m' := m[i := d];
    assert m == m[..i] + ([m[i]] + m[i + 1..]);
    assert m' == m[..i] + ([d] + m[i + 1..]);
    ValAppend(m[..i], [m[i]] + m[i + 1..]);
    ValAppend(m[..i], [d] + m[i + 1..]);
    assert Val([m[i]] + m[i + 1..]) == m[i] + 10 * Val(m[i + 1..]);
    assert Val([d] + m[i + 1..]) == d + 10 * Val(m[i + 1..]);
    var p, v := Pow10(i), Val(m[i + 1..]);
    assert p * (d + 10 * v) - p * (m[i] + 10 * v) == (d - m[i]) * p;
  }

  /** The digit at position `i`, with implicit high-order zeros. */
  function DigitAt(m: Mag, i: nat): Digit {
    if i < |m| then m[i] else 0
  }

  /** The number denoted by the `i` lowest digits. */
  function Low(m: Mag, i: nat): nat {
    Val(if i < |m| then m[..i] else m)
  }

  lemma LowStep(m: Mag, i: nat)
    ensures Low(m, i + 1) == Low(m, i) + DigitAt(m, i) * Pow10(i)
  {
    if i < |m| {
      assert (if i + 1 < |m| then m[..i + 1] else m) == m[..i] + [m[i]];
      ValSnoc(m[..i], m[i]);
    }
  }

  // ----- the algorithms -----

  method MagTrim(v: Mag) returns (r: Mag)
    ensures Trimmed(r) && Val(r) == Val(v) && r <= v
  {
    r := v;
    while r != [] && r[|r| - 1] == 0
      invariant Val(r) == Val(v) && r <= v
    {
      var n := |r| - 1;
      assert r == r[..n] + [r[n]];
      ValSnoc(r[..n], r[n]);
      r := r[..n];
    }
  }

  /** The order of two numbers, as -1, 0 or 1. */
  function Order(x: int, y: int): int {
    if x < y then -1 else if x == y then 0 else 1
  }

  method MagCompare(a: Mag, b: Mag) returns (c: int)
    requires Trimmed(a) && Trimmed(b)
    ensures c == Order(Val(a), Val(b))
  {
    if |a| != |b| {
      if |a| < |b| {
        LongerIsLarger(a, b);
        return -1;
      }
      LongerIsLarger(b, a);
      return 1;
    }
    var i := |a|;
    while i > 0
      invariant 0 <= i <= |a|
      invariant a[i..] == b[i..]
    {
      i := i - 1;
      if a[i] != b[i] {
        assert a[i + 1..] == b[i + 1..];
        TopDecides(a, b, i);
        return if a[i] < b[i] then -1 else 1;
      }
      assert a[i..] == [a[i]] + a[i + 1..] && b[i..] == [b[i]] + b[i + 1..];
    }
    assert a == a[0..] && b == b[0..];
    return 0;
  }

  /** The number denoted by the digits from position `i` up. */
  function Above(m: Mag, i: nat): nat
    requires i < |m|
  {
    m[i] + 10 * Val(m[i + 1..])
  }

  lemma SplitAt(m: Mag, i: nat)
    requires i < |m|
    ensures Val(m) == Val(m[..i]) + Pow10(i) * Above(m, i)
  {
    assert m == m[..i] + m[i..];
    ValAppend(m[..i], m[i..]);
    assert m[i..][1..] == m[i + 1..];
  }

  /** With the digits above position `i` equal, position `i` decides the order. */
  lemma TopDecides(a: Mag, b: Mag, i: nat)
    requires |a| == |b| && i < |a| && a[i + 1..] == b[i + 1..] && a[i] != b[i]
    ensures if a[i] < b[i] then Val(a) < Val(b) else Val(b) < Val(a)
  {
    SplitAt(a, i);
    SplitAt(b, i);
    ValBound(a[..i]);
    ValBound(b[..i]);
    if a[i] < b[i] {
      Dominates(Pow10(i), Above(a, i), Above(b, i), Val(a[..i]), Val(b[..i]));
    } else {
      Dominates(Pow10(i), Above(b, i), Above(a, i), Val(b[..i]), Val(a[..i]));
    }
  }

  lemma Dominates(p: nat, x: nat, y: nat, low: nat, high: nat)
    requires x < y && low < p
    ensures low + p * x < high + p * y
  {
    ProductAtLeast(p, x + 1, y);
  }

  method MagAdd(a: Mag, b: Mag) returns (r: Mag)
    ensures Val(r) == Val(a) + Val(b)
    ensures Trimmed(a) && Trimmed(b) ==> Trimmed(r)
  {
    r := [];
    var n := if |a| < |b| then |b| else |a|;
    var carry := 0;
    var i := 0;
    while i < n
      invariant 0 <= i <= n && |r| == i && 0 <= carry <= 1
      invariant Val(r) + carry * Pow10(i) == Low(a, i) + Low(b, i)
      invariant i == n > 0 && Trimmed(a) && Trimmed(b) ==> r[n - 1] != 0 || carry != 0
    {
      var sum := carry + DigitAt(a, i) + DigitAt(b, i);
      LowStep(a, i);
      LowStep(b, i);
      ValSnoc(r, sum % 10);
      CarryStep(sum, Pow10(i), carry, DigitAt(a, i), DigitAt(b, i));
      r := r + [sum % 10];
      carry := sum / 10;
      i := i + 1;
    }
    if carry != 0 {
      ValSnoc(r, carry);
      r := r + [carry];
    }
  }

  lemma CarryStep(sum: nat, p: nat, carry: nat, x: nat, y: nat)
    requires sum == carry + x + y
    ensures (sum % 10) * p + (sum / 10) * (10 * p) == carry * p + x * p + y * p
  {
    assert sum == sum % 10 + 10 * (sum / 10);
    assert (sum / 10) * (10 * p) == (10 * (sum / 10)) * p;
    assert (sum % 10) * p + (10 * (sum / 10)) * p == (sum % 10 + 10 * (sum / 10)) * p;
    assert (carry + x + y) * p == carry * p + x * p + y * p;
  }

  method MagSub(a: Mag, b: Mag) returns (r: Mag)
    requires |b| <= |a| && Val(a) >= Val(b)
    ensures Val(r) == Val(a) - Val(b) && Trimmed(r)
  {
    r := [];
    var borrow := 0;
    var i := 0;
    while i < |a|
      invariant 0 <= i <= |a| && |r| == i && 0 <= borrow <= 1
      invariant Val(r) - borrow * Pow10(i) == Low(a, i) - Low(b, i)
    {
      var digit := a[i] - borrow - DigitAt(b, i);
      LowStep(a, i);
      LowStep(b, i);
      var next := if digit < 0 then 1 else 0;
      BorrowStep(digit, next, Pow10(i), borrow, a[i], DigitAt(b, i));
      if digit < 0 {
        digit := digit + 10;
        borrow := 1;
      } else {
        borrow := 0;
      }
      ValSnoc(r, digit);
      r := r + [digit];
      i := i + 1;
    }
    ValBound(r);
    r := MagTrim(r);
  }

  lemma BorrowStep(digit: int, next: int, p: nat, borrow: nat, x: nat, y: nat)
    requires digit == x - borrow - y
    ensures (digit + 10 * next) * p - next * (10 * p) == x * p - y * p - borrow * p
  {
    assert next * (10 * p) == (10 * next) * p;
    assert (digit + 10 * next) * p == digit * p + (10 * next) * p;
    assert (x - borrow - y) * p == x * p - borrow * p - y * p;
  }

  /** Schoolbook multiplication in place: every index stays in range and every
      carry is at most 9. */
  method MagMul(a: Mag, b: Mag) returns (r: Mag)
    ensures Val(r) == Val(a) * Val(b) && Trimmed(r)
    ensures |r| <= |a| + |b|
  {
    if a == [] || b == [] {
      return [];
    }
    var result := new Digit[|a| + |b|](_ => 0);
    AllZero(result[..]);
    var i := 0;
    while i < |a|
      invariant 0 <= i <= |a|
      invariant Val(result[..]) == Val(a[..i]) * Val(b)
      invariant forall k | i + |b| <= k < result.Length :: result[k] == 0
    {
      MulRow(a, b, i, result);
      assert a[..i + 1] == a[..i] + [a[i]];
      ValSnoc(a[..i], a[i]);
      Distribute(Val(a[..i]), a[i], Pow10(i), Val(b));
      i := i + 1;
    }
    assert a[..i] == a;
    r := MagTrim(result[..]);
  }

  lemma {:induction false} AllZero(m: Mag)
    requires forall k | 0 <= k < |m| :: m[k] == 0
    ensures Val(m) == 0
  {
    if m != [] {
      AllZero(m[1..]);
    }
  }

  lemma Distribute(x: nat, d: nat, p: nat, y: nat)
    ensures (x + d * p) * y == x * y + d * p * y
  {}

  /** Adds `a[i] * b`, shifted by `i` places, to the running product. */
  method MulRow(a: Mag, b: Mag, i: nat, result: array<Digit>)
    requires i < |a| && b != [] && result.Length == |a| + |b|
    requires forall k | i + |b| <= k < result.Length :: result[k] == 0
    modifies result
    ensures Val(result[..]) == old(Val(result[..])) + a[i] * Pow10(i) * Val(b)
    ensures forall k | i + 1 + |b| <= k < result.Length :: result[k] == 0
  {
    var carry := 0;
    var j := 0;
    assert b[..0] == [];
    while j < |b|
      invariant 0 <= j <= |b| && 0 <= carry <= 9
      invariant Val(result[..]) + carry * Pow10(i + j) == old(Val(result[..])) + a[i] * Pow10(i) * Val(b[..j])
      invariant forall k | i + |b| <= k < result.Length :: result[k] == 0
    {
      var idx := i + j;
      var current := result[idx] + a[i] * b[j] + carry;
      Products(a[i], b[j]);
      var digit: Digit := current % 10;
      ghost var before: Mag := result[..];
      ValUpdate(before, idx, digit);
      result[idx] := digit;
      assert result[..] == before[idx := digit];
      assert b[..j + 1] == b[..j] + [b[j]];
      ValSnoc(b[..j], b[j]);
      Pow10Add(i, j);
      RowStep(current, before[idx], a[i], b[j], carry, Pow10(i), Pow10(j), Val(b[..j]));
      carry := current / 10;
      j := j + 1;
    }
    assert b[..j] == b;
    CarryOut(result, i + |b|, carry);
  }

  /** Adds the carry left over from a row, which the row above has room for. */
  method CarryOut(result: array<Digit>, start: nat, left: int)
    requires start < result.Length && 0 <= left <= 9 && forall k | start <= k < result.Length :: result[k] == 0
    modifies result
    ensures Val(result[..]) == old(Val(result[..])) + left * Pow10(start)
    ensures forall k | start + 1 <= k < result.Length :: result[k] == 0
  {
    var carry, idx := left, start;
    while carry != 0
      invariant start <= idx <= start + 1 && 0 <= carry <= 9
      invariant carry != 0 ==> idx == start && result[idx] == 0
      invariant Val(result[..]) + carry * Pow10(idx) == old(Val(result[..])) + left * Pow10(start)
      invariant forall k | start + 1 <= k < result.Length :: result[k] == 0
      decreases carry
    {
      var current := result[idx] + carry;
      var digit: Digit := current % 10;
      ghost var before: Mag := result[..];
      ValUpdate(before, idx, digit);
      result[idx] := digit;
      assert result[..] == before[idx := digit];
      carry := current / 10;
      idx := idx + 1;
    }
  }

  lemma Products(x: Digit, y: Digit)
    ensures 0 <= x * y <= 81
  {
    assert x * y <= 9 * y;
  }

  lemma RowStep(current: nat, was: nat, x: nat, y: nat, carry: nat, p: nat, q: nat, v: nat)
    requires current == was + x * y + carry
    ensures (current % 10 - was) * (p * q) + (current / 10) * (10 * (p * q)) ==
            x * p * (v + y * q) - x * p * v + carry * (p * q)
  {
    var pq := p * q;
    assert current == current % 10 + 10 * (current / 10);
    assert (current / 10) * (10 * pq) == (10 * (current / 10)) * pq;
    assert (current % 10 - was) * pq + (10 * (current / 10)) * pq == (current - was) * pq;
    assert (x * y + carry) * pq == x * y * pq + carry * pq;
    assert x * p * (v + y * q) == x * p * v + x * p * (y * q);
    assert x * p * (y * q) == x * y * pq;
  }

  /** The product with one factor in [0, 9]. */
  method MagMulSmall(a: Mag, factor: Digit) returns (r: Mag)
    ensures Val(r) == Val(a) * factor
    ensures Trimmed(a) ==> Trimmed(r)
  {
    if factor == 0 || a == [] {
      return [];
    }
    r := [];
    var carry := 0;
    var i := 0;
    while i < |a|
      invariant 0 <= i <= |a| && |r| == i && 0 <= carry <= 9
      invariant Val(r) + carry * Pow10(i) == Low(a, i) * factor
      invariant i == |a| && Trimmed(a) ==> r[i - 1] != 0 || carry != 0
    {
      Products(a[i], factor);
      var current := a[i] * factor + carry;
      LowStep(a, i);
      ValSnoc(r, current % 10);
      SmallStep(current, a[i], factor, carry, Pow10(i), Low(a, i));
      r := r + [current % 10];
      carry := current / 10;
      i := i + 1;
    }
    while carry != 0
      invariant 0 <= carry <= 9
      invariant Val(r) + carry * Pow10(|r|) == Val(a) * factor
      invariant Trimmed(a) && carry == 0 ==> Trimmed(r)
      decreases carry
    {
      ValSnoc(r, carry % 10);
      r := r + [carry % 10];
      carry := carry / 10;
    }
  }

  lemma SmallStep(current: nat, x: nat, f: nat, carry: nat, p: nat, low: nat)
    requires current == x * f + carry
    ensures (current % 10) * p + (current / 10) * (10 * p) == (low + x * p) * f - low * f + carry * p
  {
    CarryStep(current, p, carry, x * f, 0);
    assert (low + x * p) * f == low * f + x * p * f;
    assert x * p * f == x * f * p;
  }

  function Zeros(n: nat): (z: Mag)
    ensures |z| == n && Val(z) == 0
  {
    if n == 0 then [] else [0] + Zeros(n - 1)
  }

  method MagShiftLeft(value: Mag, shift: int) returns (r: Mag)
    ensures Val(r) == if shift <= 0 then Val(value) else Val(value) * Pow10(shift)
    ensures Trimmed(value) ==> Trimmed(r)
    ensures |r| == if value == [] || shift <= 0 then |value| else |value| + shift
  {
    if value == [] || shift <= 0 {
      return value;
    }
    r := Zeros(shift) + value;
    ValAppend(Zeros(shift), value);
  }

  method DigitFits(divisor: Mag, rem: Mag, digit: Digit) returns (fits: bool)
    requires Trimmed(divisor) && Trimmed(rem)
    ensures fits <==> digit * Val(divisor) <= Val(rem)
  {
    var multiple := MagMulSmall(divisor, digit);
    var c := MagCompare(multiple, rem);
    fits := c <= 0;
  }

  /** The largest digit whose multiple of `divisor` does not exceed `rem`, by
      binary search over [0, 9]. */
  method QuotientDigit(divisor: Mag, rem: Mag) returns (best: Digit)
    requires Trimmed(divisor) && Trimmed(rem) && Val(rem) < 10 * Val(divisor)
    ensures best * Val(divisor) <= Val(rem) < (best + 1) * Val(divisor)
  {
    ghost var d, n := Val(divisor), Val(rem);
    var low, high := 0, 9;
    best := 0;
    while low <= high
      invariant 0 <= low <= high + 1 <= 10
      invariant best == if low == 0 then 0 else low - 1
      invariant best * d <= n < (high + 1) * d
    {
      var mid := (low + high) / 2;
      var fits := DigitFits(divisor, rem, mid);
      if fits {
        best := mid;
        low := mid + 1;
      } else {
        high := mid - 1;
      }
    }
  }

  /** Long division, most significant digit first. */
  method MagDivmod(numerator: Mag, divisor: Mag) returns (quotient: Mag, remainder: Mag)
    requires Trimmed(divisor) && divisor != []
    ensures Val(numerator) == Val(quotient) * Val(divisor) + Val(remainder)
    ensures Val(remainder) < Val(divisor)
    ensures Trimmed(quotient) && Trimmed(remainder)
  {
    TrimmedBound(divisor);
    var digits := new Digit[|numerator|](_ => 0);
    var rem: Mag := [];
    var i := |numerator|;
    while i > 0
      invariant 0 <= i <= |numerator|
      invariant Val(numerator[i..]) == Val(digits[i..]) * Val(divisor) + Val(rem)
      invariant Val(rem) < Val(divisor) && Trimmed(rem)
    {
      i := i - 1;
      ghost var before, above := Val(rem), Val(digits[i + 1..]);
      assert ([numerator[i]] + rem)[1..] == rem;
      rem := MagTrim([numerator[i]] + rem);
      var best := QuotientDigit(divisor, rem);
      digits[i] := best;
      var multiple := MagMulSmall(divisor, best);
      NoLonger(multiple, rem);
      ghost var part := Val(rem);
      rem := MagSub(rem, multiple);
      assert numerator[i..][1..] == numerator[i + 1..] && digits[i..][1..] == digits[i + 1..];
      DivisionStep(above, Val(divisor), before, best, numerator[i], part);
    }
    quotient := MagTrim(digits[..]);
    remainder := rem;
    assert numerator[0..] == numerator && digits[0..] == digits[..];
  }

  lemma NoLonger(a: Mag, b: Mag)
    requires Trimmed(a) && Val(a) <= Val(b)
    ensures |a| <= |b|
  {
    if |b| < |a| {
      LongerIsLarger(b, a);
    }
  }

  lemma DivisionStep(q: nat, d: nat, r: nat, best: nat, x: nat, part: nat)
    requires part == x + 10 * r && best * d <= part < (best + 1) * d
    ensures x + 10 * (q * d + r) == (best + 10 * q) * d + (part - d * best)
    ensures part - d * best < d
  {
    assert (best + 10 * q) * d == best * d + 10 * (q * d);
    assert (best + 1) * d == best * d + d;
    assert d * best == best * d;
  }
}
