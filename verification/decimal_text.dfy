/**
 Decimal literals: the grammar the parser accepts, the number a literal denotes,
 and the printer's text.
 */
module DecimalText {
  import opened Options
  import opened Magnitude
  import opened Decimals

  datatype Sign = Unsigned | Plus | Minus

  datatype Exponent = NoExponent | Exponent(marker: char, sign: Sign, digits: string)

  /** sign, whole digits, optional point with fraction digits, optional exponent */
  datatype Literal = Literal(sign: Sign, whole: string, fraction: Option<string>, exponent: Exponent)

  const MAX_EXPONENT: nat := 2_000_000_000

  // ----- the grammar -----

  predicate IsDigit(c: char) {
    '0' <= c <= '9'
  }

  predicate AllDigits(s: string) {
    forall i | 0 <= i < |s| :: IsDigit(s[i])
  }

  function SignText(s: Sign): string {
    match s
    case Unsigned => ""
    case Plus => "+"
    case Minus => "-"
  }

  function FractionText(f: Option<string>): string {
    if f.None? then "" else "." + f.value
  }

  function ExponentText(e: Exponent): string {
    if e.NoExponent? then "" else [e.marker] + SignText(e.sign) + e.digits
  }

  function Spell(l: Literal): string {
    SignText(l.sign) + l.whole + FractionText(l.fraction) + ExponentText(l.exponent)
  }

  function FractionDigits(l: Literal): string {
    if l.fraction.None? then "" else l.fraction.value
  }

  predicate WellFormedExponent(e: Exponent) {
    e.Exponent? ==> (e.marker == 'e' || e.marker == 'E') && e.digits != "" && AllDigits(e.digits)
  }

  predicate WellFormed(l: Literal) {
    && AllDigits(l.whole) && AllDigits(FractionDigits(l))
    && l.whole + FractionDigits(l) != ""
    && WellFormedExponent(l.exponent)
  }

  // ----- what a literal denotes -----

  function DigitOf(c: char): Digit
    requires IsDigit(c)
  {
    c as int - '0' as int
  }

  /** The number a digit string spells, most significant digit first. */
  function NumberOf(s: string): nat
    requires AllDigits(s)
  {
    if s == "" then 0 else 10 * NumberOf(s[..|s| - 1]) + DigitOf(s[|s| - 1])
  }

  function ExponentOf(e: Exponent): int
    requires WellFormedExponent(e)
  {
    if e.NoExponent? then 0 else Signed(e.sign == Minus, NumberOf(e.digits))
  }

  function Ten(e: int): real {
    if e >= 0 then R10(e) else 1.0 / R10(-e)
  }

  /** The coefficient without its sign. */
  function CoefficientOf(l: Literal): nat
    requires WellFormed(l)
  {
    NumberOf(l.whole + FractionDigits(l))
  }

  /** The rational number a literal spells. */
  function LiteralValue(l: Literal): real
    requires WellFormed(l)
  {
    Signed(l.sign == Minus, CoefficientOf(l)) as real / R10(|FractionDigits(l)|) * Ten(ExponentOf(l.exponent))
  }

  /** The scale left once the exponent has moved the point. */
  function ScaleOf(l: Literal): int
    requires WellFormed(l)
  {
    |FractionDigits(l)| - ExponentOf(l.exponent)
  }

  /** The literal is well formed and its coefficient, scale and exponent are within the caps. */
  predicate Accepts(l: Literal) {
    && WellFormed(l)
    && -(MAX_EXPONENT as int) <= ExponentOf(l.exponent) <= MAX_EXPONENT
    && |l.whole| + |FractionDigits(l)| <= MAX_DIGITS
    && |l.whole| + |FractionDigits(l)| - ScaleOf(l) <= MAX_DIGITS
    && ScaleOf(l) <= MAX_DIGITS
  }

  predicate Denotes(l: Literal, d: Decimal)
    requires WellFormed(l)
  {
    Valid(d) && d.scale == (if ScaleOf(l) < 0 then 0 else ScaleOf(l)) && Value(d) == LiteralValue(l)
  }

  /** `r` is the right answer for `text`. */
  ghost predicate Parses(text: string, r: Option<Decimal>) {
    && (r.Some? <==> exists l :: Accepts(l) && Spell(l) == text)
    && (forall l | Accepts(l) && Spell(l) == text :: r.Some? && Denotes(l, r.value))
  }

  // ----- scanning is unambiguous -----

  predicate StartsWithDigit(s: string) {
    s != "" && IsDigit(s[0])
  }

  function SignOfText(s: string): (r: Sign) {
    if s == "" then Unsigned else if s[0] == '+' then Plus else if s[0] == '-' then Minus else Unsigned
  }

  /** A digit run ends where the digits do. */
  lemma RunEnds(a: string, x: string, b: string, y: string)
    requires a + x == b + y && AllDigits(a) && AllDigits(b) && !StartsWithDigit(x) && !StartsWithDigit(y)
    ensures a == b && x == y
  {
    var t := a + x;
    assert forall k | 0 <= k < |a| :: t[k] == a[k];
    assert t == b + y && forall k | 0 <= k < |b| :: t[k] == b[k];
    assert (x != "" ==> t[|a|] == x[0]) && (y != "" ==> t[|b|] == y[0]);
    assert |a| == |b|;
    assert a == t[..|a|] && b == t[..|b|] && x == t[|a|..] && y == t[|b|..];
  }

  /** The text after the sign, when it does not itself start with one. */
  lemma SignEnds(s: Sign, x: string, t: Sign, y: string)
    requires SignText(s) + x == SignText(t) + y && SignOfText(x) == SignOfText(y) == Unsigned
    ensures s == t && x == y
  {
    var text := SignText(s) + x;
    assert SignOfText(text) == s;
    assert SignOfText(SignText(t) + y) == t;
    assert x == text[|SignText(s)|..] && y == text[|SignText(t)|..];
  }

  lemma ExponentUnique(e: Exponent, f: Exponent)
    requires WellFormedExponent(e) && WellFormedExponent(f) && ExponentText(e) == ExponentText(f)
    ensures e == f
  {
    ExponentParts(e);
    ExponentParts(f);
    if e.Exponent? {
      SignEnds(e.sign, e.digits, f.sign, f.digits);
    }
  }

  lemma ExponentParts(e: Exponent)
    ensures e.Exponent? <==> ExponentText(e) != ""
    ensures e.Exponent? ==> ExponentText(e)[0] == e.marker && ExponentText(e)[1..] == SignText(e.sign) + e.digits
  {}

  /** Everything after the whole digits. */
  function Tail(l: Literal): string {
    FractionText(l.fraction) + ExponentText(l.exponent)
  }

  lemma TailPoint(l: Literal)
    requires WellFormed(l)
    ensures l.fraction.Some? <==> Tail(l) != "" && Tail(l)[0] == '.'
    ensures l.fraction.Some? ==> Tail(l)[1..] == l.fraction.value + ExponentText(l.exponent)
    ensures l.fraction.None? ==> Tail(l) == ExponentText(l.exponent)
  {}

  lemma TailUnique(l: Literal, m: Literal)
    requires WellFormed(l) && WellFormed(m) && Tail(l) == Tail(m)
    ensures l.fraction == m.fraction && l.exponent == m.exponent
  {
    TailPoint(l);
    TailPoint(m);
    if l.fraction.Some? {
      RunEnds(l.fraction.value, ExponentText(l.exponent), m.fraction.value, ExponentText(m.exponent));
    }
    ExponentUnique(l.exponent, m.exponent);
  }

  lemma TailStart(l: Literal)
    requires WellFormed(l)
    ensures !StartsWithDigit(Tail(l)) && SignOfText(l.whole + Tail(l)) == Unsigned
  {
    if l.whole == "" {
      assert l.fraction.Some?;
      assert l.whole + Tail(l) == Tail(l);
    }
  }

  lemma SpellParts(l: Literal)
    ensures Spell(l) == SignText(l.sign) + (l.whole + Tail(l))
  {}

  /** No text is spelled by two literals. */
  lemma SpellInjective(l: Literal, m: Literal)
    requires WellFormed(l) && WellFormed(m) && Spell(l) == Spell(m)
    ensures l == m
  {
    SpellParts(l);
    SpellParts(m);
    TailStart(l);
    TailStart(m);
    SignEnds(l.sign, l.whole + Tail(l), m.sign, m.whole + Tail(m));
    RunEnds(l.whole, Tail(l), m.whole, Tail(m));
    TailUnique(l, m);
  }

  // ----- the parser -----

  /** The maximal digit run at `start`. */
  method ReadDigits(text: string, start: nat) returns (digits: string, end: nat)
    requires start <= |text|
    ensures start <= end <= |text| && digits == text[start..end] && AllDigits(digits)
    ensures !StartsWithDigit(text[end..])
  {
    digits, end := "", start;
    while end < |text| && IsDigit(text[end])
      invariant start <= end <= |text| && digits == text[start..end] && AllDigits(digits)
    {
      digits := digits + [text[end]];
      end := end + 1;
    }
  }

  /** Reads an exponent that must reach the end of the text; gives up as soon as
      its magnitude exceeds the limit. */
  method ReadExponent(text: string, start: nat) returns (r: Option<Exponent>)
    requires start <= |text|
    ensures r.Some? ==> IsExponent(text[start..], r.value) && InRange(r.value)
    ensures r.None? ==> forall e | IsExponent(text[start..], e) :: !InRange(e)
  {
    ghost var rest := text[start..];
    if start == |text| {
      return Some(NoExponent);
    }
    if text[start] != 'e' && text[start] != 'E' {
      return None;
    }
    var i := start + 1;
    var sign := Unsigned;
    if i < |text| && (text[i] == '+' || text[i] == '-') {
      sign := if text[i] == '-' then Minus else Plus;
      i := i + 1;
    }
    ExponentIs(rest, text[start], sign, text[i..]);
    var digits := ReadExponentDigits(text, i);
    if digits.None? {
      return None;
    }
    return Some(Exponent(text[start], sign, digits.value));
  }

  method ReadExponentDigits(text: string, start: nat) returns (r: Option<string>)
    requires start <= |text|
    ensures r.Some? <==> start < |text| && AllDigits(text[start..]) && NumberOf(text[start..]) <= MAX_EXPONENT
    ensures r.Some? ==> r.value == text[start..]
  {
    if start >= |text| || !IsDigit(text[start]) {
      assert start < |text| ==> text[start..][0] == text[start];
      return None;
    }
    var magnitude, end := ReadMagnitude(text, start);
    assert text[start..] == text[start..end] + text[end..];
    if magnitude > MAX_EXPONENT {
      TooLarge(text[start..end], text[end..]);
      return None;
    }
    if end != |text| {
      assert text[start..][end - start] == text[end];
      return None;
    }
    assert text[start..end] == text[start..];
    return Some(text[start..]);
  }

  /** Reads digits until they end or their number exceeds the limit. */
  method ReadMagnitude(text: string, start: nat) returns (magnitude: nat, end: nat)
    requires start <= |text|
    ensures start <= end <= |text| && AllDigits(text[start..end]) && magnitude == NumberOf(text[start..end])
    ensures magnitude <= MAX_EXPONENT ==> !StartsWithDigit(text[end..])
  {
    magnitude, end := 0, start;
    while end < |text| && IsDigit(text[end])
      invariant start <= end <= |text| && AllDigits(text[start..end]) && magnitude == NumberOf(text[start..end])
    {
      magnitude := magnitude * 10 + DigitOf(text[end]);
      NumberSnoc(text[start..end], text[end]);
      assert text[start..end + 1] == text[start..end] + [text[end]];
      end := end + 1;
      if magnitude > MAX_EXPONENT {
        return;
      }
    }
  }

  lemma NumberSnoc(s: string, c: char)
    requires AllDigits(s) && IsDigit(c)
    ensures AllDigits(s + [c]) && NumberOf(s + [c]) == 10 * NumberOf(s) + DigitOf(c)
  {
    assert (s + [c])[..|s|] == s;
  }

  predicate IsExponent(rest: string, e: Exponent) {
    WellFormedExponent(e) && ExponentText(e) == rest
  }

  predicate InRange(e: Exponent)
    requires WellFormedExponent(e)
  {
    -(MAX_EXPONENT as int) <= ExponentOf(e) <= MAX_EXPONENT
  }

  lemma ExponentIs(rest: string, marker: char, sign: Sign, digits: string)
    requires rest == [marker] + SignText(sign) + digits && (sign.Unsigned? ==> SignOfText(digits) == Unsigned)
    ensures forall e | IsExponent(rest, e) :: e == Exponent(marker, sign, digits)
  {
    forall e | IsExponent(rest, e) ensures e == Exponent(marker, sign, digits) {
      assert e.Exponent?;
      assert rest[0] == marker == e.marker;
      var tail := rest[1..];
      assert tail == SignText(sign) + digits;
      assert tail == SignText(e.sign) + e.digits;
      assert SignOfText(tail) == e.sign == sign;
      assert tail[|SignText(sign)|..] == digits == e.digits;
    }
  }

  /** A prefix beyond the limit puts the whole number beyond it. */
  lemma {:induction false} TooLarge(a: string, b: string)
    requires AllDigits(a) && NumberOf(a) > MAX_EXPONENT
    ensures AllDigits(a + b) ==> NumberOf(a + b) > MAX_EXPONENT
  {
    var n := |b| - 1;
    if b == "" {
      assert a + b == a;
    } else if AllDigits(a + b) {
      assert a + b == (a + b[..n]) + [b[n]];
      assert forall i | 0 <= i < |a + b[..n]| :: (a + b[..n])[i] == (a + b)[i];
      TooLarge(a, b[..n]);
      assert b[n] == (a + b)[|a| + n];
      NumberSnoc(a + b[..n], b[n]);
    }
  }

  /** The sign and whole digits read are those of every literal for the text. */
  lemma WholeIs(text: string, sign: Sign, whole: string, rest: string)
    requires text == SignText(sign) + (whole + rest) && sign == SignOfText(text)
    requires AllDigits(whole) && !StartsWithDigit(rest)
    ensures forall l | WellFormed(l) && Spell(l) == text :: l.sign == sign && l.whole == whole && Tail(l) == rest
  {
    forall l | WellFormed(l) && Spell(l) == text ensures l.sign == sign && l.whole == whole && Tail(l) == rest {
      SpellParts(l);
      TailStart(l);
      assert SignOfText(text) == l.sign;
      assert text[|SignText(sign)|..] == whole + rest;
      assert text[|SignText(sign)|..] == l.whole + Tail(l);
      RunEnds(whole, rest, l.whole, Tail(l));
    }
  }

  lemma FractionIs(rest: string, fraction: Option<string>, after: string)
    requires rest == FractionText(fraction) + after
    requires fraction.None? ==> rest == "" || rest[0] != '.'
    requires fraction.Some? ==> AllDigits(fraction.value) && !StartsWithDigit(after)
    ensures forall l | WellFormed(l) && Tail(l) == rest :: l.fraction == fraction && ExponentText(l.exponent) == after
  {
    forall l | WellFormed(l) && Tail(l) == rest ensures l.fraction == fraction && ExponentText(l.exponent) == after {
      FractionOf(l, fraction, after);
    }
  }

  lemma FractionOf(l: Literal, fraction: Option<string>, after: string)
    requires WellFormed(l) && Tail(l) == FractionText(fraction) + after
    requires fraction.None? ==> Tail(l) == "" || Tail(l)[0] != '.'
    requires fraction.Some? ==> AllDigits(fraction.value) && !StartsWithDigit(after)
    ensures l.fraction == fraction && ExponentText(l.exponent) == after
  {
    TailPoint(l);
    if fraction.Some? {
      assert Tail(l)[0] == '.';
      assert Tail(l)[1..] == fraction.value + after;
      RunEnds(fraction.value, after, l.fraction.value, ExponentText(l.exponent));
    }
  }

  /** Splits a text into the parts of its literal. */
  method Scan(text: string) returns (r: Option<Literal>)
    ensures r.Some? ==> WellFormed(r.value) && Spell(r.value) == text && InRange(r.value.exponent)
    ensures r.None? ==> forall l | WellFormed(l) && Spell(l) == text :: !InRange(l.exponent)
  {
    var sign := SignOfText(text);
    var start := |SignText(sign)|;
    var whole, i := ReadDigits(text, start);
    assert text == SignText(sign) + (whole + text[i..]);
    WholeIs(text, sign, whole, text[i..]);
    r := ScanTail(text, i, sign, whole);
    if r.Some? {
      SpellParts(r.value);
    }
  }

  method ScanTail(text: string, start: nat, sign: Sign, whole: string) returns (r: Option<Literal>)
    requires start <= |text| && AllDigits(whole)
    ensures r.Some? ==>
              && r.value.sign == sign && r.value.whole == whole && Tail(r.value) == text[start..]
              && WellFormed(r.value) && InRange(r.value.exponent)
    ensures r.None? ==> forall l | WellFormed(l) && l.whole == whole && Tail(l) == text[start..] :: !InRange(l.exponent)
  {
    ghost var rest := text[start..];
    var i := start;
    var fraction: Option<string> := None;
    if i < |text| && text[i] == '.' {
      var digits, j := ReadDigits(text, i + 1);
      fraction := Some(digits);
      assert rest == FractionText(fraction) + text[j..];
      i := j;
    }
    FractionIs(rest, fraction, text[i..]);
    if whole == "" && (fraction.None? || fraction.value == "") {
      return None;
    }
    var exponent := ReadExponent(text, i);
    if exponent.None? {
      return None;
    }
    return Some(Literal(sign, whole, fraction, exponent.value));
  }

  /** The little-endian digits of a digit string. */
  method MagOfText(s: string) returns (m: Mag)
    requires AllDigits(s)
    ensures |m| == |s| && Val(m) == NumberOf(s)
  {
    m := [];
    var i := |s|;
    assert s[..i] == s;
    while i > 0
      invariant 0 <= i <= |s| && |m| == |s| - i
      invariant Parted(s, m, i)
    {
      i := i - 1;
      DigitMoves(s, m, i);
      m := m + [DigitOf(s[i])];
    }
  }

  /** The digits not moved yet, scaled, and those moved make up the number. */
  predicate Parted(s: string, m: Mag, i: nat)
    requires AllDigits(s) && i <= |s|
  {
    NumberOf(s) == NumberOf(s[..i]) * Pow10(|m|) + Val(m)
  }

  lemma DigitMoves(s: string, m: Mag, i: nat)
    requires AllDigits(s) && i < |s| && Parted(s, m, i + 1)
    ensures Parted(s, m + [DigitOf(s[i])], i)
  {
    assert s[..i + 1] == s[..i] + [s[i]];
    NumberSnoc(s[..i], s[i]);
    ValSnoc(m, DigitOf(s[i]));
    MoveDigit(NumberOf(s), NumberOf(s[..i]), DigitOf(s[i]), Pow10(|m|), Val(m));
  }

  lemma MoveDigit(all: int, n: int, d: int, p: int, v: int)
    requires all == (10 * n + d) * p + v
    ensures all == n * (10 * p) + (v + d * p)
  {}

  /** Moving the point by the exponent, when a fraction remains. */
  lemma PointMoved(c: int, f: nat, e: int)
    requires f - e >= 0
    ensures c as real / R10(f) * Ten(e) == c as real / R10(f - e)
  {
    var v := c as real / R10(f);
    if e >= 0 {
      DroppedScale(c, e, f - e, v);
    } else {
      R10Add(f, -e);
      DividedTwice(c as real, R10(f), R10(-e), R10(f - e));
    }
  }

  lemma DividedTwice(c: real, p: real, q: real, pq: real)
    requires p >= 1.0 && q >= 1.0 && pq == p * q && pq >= 1.0
    ensures c / p * (1.0 / q) == c / pq
  {
    var v, w := c / p, 1.0 / q;
    assert v * p == c && w * q == 1.0;
    assert (v * w) * (p * q) == (v * p) * (w * q);
    QuotientOf(c, pq, v * w);
  }

  /** Moving the point past the last digit appends zeros. */
  lemma PointPassed(c: int, f: nat, e: nat, d: int)
    requires f < e && d == Shifted(c, e - f)
    ensures c as real / R10(f) * Ten(e) == d as real
  {
    var v := c as real / R10(f);
    TimesScale(c, R10(f), v);
    R10Add(f, e - f);
    ShiftedReal(c, e - f, d);
    Regroup(v, c as real, d as real, R10(f), R10(e - f), R10(e));
  }

  lemma ShiftedReal(c: int, k: nat, d: int)
    requires d == Shifted(c, k)
    ensures d as real == c as real * R10(k)
  {
    ShiftedIs(c, k);
    CastProduct(d, c, Pow10(k));
  }

  lemma Regroup(v: real, c: real, d: real, p: real, q: real, pq: real)
    requires pq == p * q && v * p == c && d == c * q
    ensures v * pq == d
  {
    assert v * pq == (v * p) * q;
  }

  method Parse(text: string) returns (r: Option<Decimal>)
    ensures Parses(text, r)
  {
    var scanned := Scan(text);
    if scanned.None? {
      return None;
    }
    var l := scanned.value;
    forall m | WellFormed(m) && Spell(m) == text ensures m == l {
      SpellInjective(m, l);
    }
    var combined := l.whole + FractionDigits(l);
    if |combined| > MAX_DIGITS {
      return None;
    }
    var exponent := ExponentOf(l.exponent);
    var scale := |FractionDigits(l)| - exponent;
    if (scale < 0 && |combined| - scale > MAX_DIGITS) || scale > MAX_DIGITS {
      return None;
    }
    var result := Convert(l, combined, scale);
    r := Some(result);
  }

  lemma KeptScale(l: Literal, d: Decimal)
    requires WellFormed(l) && Valid(d) && d.scale == ScaleOf(l)
    requires Coef(d) == Signed(l.sign == Minus, CoefficientOf(l))
    ensures Denotes(l, d)
  {
    KeptParts(l, Coef(d), |FractionDigits(l)|, ExponentOf(l.exponent));
  }

  lemma KeptParts(l: Literal, c: int, f: nat, e: int)
    requires WellFormed(l) && f == |FractionDigits(l)| && e == ExponentOf(l.exponent) && e <= f
    requires c == Signed(l.sign == Minus, CoefficientOf(l))
    ensures LiteralValue(l) == c as real / R10(f - e)
  {
    PointMoved(c, f, e);
  }

  /** `c` with `k` zeros appended. */
  function Shifted(c: int, k: nat): int {
    if k == 0 then c else 10 * Shifted(c, k - 1)
  }

  lemma {:induction false} ShiftedIs(c: int, k: nat)
    ensures Shifted(c, k) == c * Pow10(k)
  {
    if k > 0 {
      ShiftedIs(c, k - 1);
      TenOut(c, Pow10(k - 1));
    }
  }

  lemma TenOut(c: int, p: int)
    ensures c * (10 * p) == 10 * (c * p)
  {}

  lemma FoldedScale(l: Literal, c: int, d: Decimal)
    requires WellFormed(l) && Valid(d) && d.scale == 0 && ScaleOf(l) < 0
    requires c == Signed(l.sign == Minus, CoefficientOf(l)) && Coef(d) == Shifted(c, -ScaleOf(l))
    ensures Denotes(l, d)
  {
    FoldedValue(l, c, |FractionDigits(l)|, ExponentOf(l.exponent), Coef(d));
    WholeValue(d);
  }

  lemma FoldedValue(l: Literal, c: int, f: nat, e: nat, d: int)
    requires WellFormed(l) && f == |FractionDigits(l)| && e == ExponentOf(l.exponent) && f < e
    requires c == Signed(l.sign == Minus, CoefficientOf(l)) && d == Shifted(c, e - f)
    ensures LiteralValue(l) == d as real
  {
    PointPassed(c, f, e, d);
    ValueParts(l, c, f, e, d as real);
  }

  lemma ValueParts(l: Literal, c: int, f: nat, e: int, v: real)
    requires WellFormed(l) && f == |FractionDigits(l)| && e == ExponentOf(l.exponent)
    requires c == Signed(l.sign == Minus, CoefficientOf(l)) && v == c as real / R10(f) * Ten(e)
    ensures LiteralValue(l) == v
  {}

  lemma WholeValue(d: Decimal)
    requires d.scale == 0
    ensures Value(d) == Coef(d) as real
  {
    assert R10(0) == 1.0;
  }

  /** The decimal of a literal whose digits and scale are within the caps. */
  method Convert(l: Literal, combined: string, scale: int) returns (d: Decimal)
    requires WellFormed(l) && combined == l.whole + FractionDigits(l) && scale == ScaleOf(l)
    ensures Denotes(l, d)
  {
    var digits := MagOfText(combined);
    var negative := l.sign == Minus;
    if scale < 0 {
      ghost var c := CoefficientOf(l);
      digits := MagShiftLeft(digits, -scale);
      d := Normalized(digits, 0, negative);
      SignedTimes(negative, c, Pow10(-scale));
      ShiftedIs(Signed(negative, c), -scale);
      FoldedScale(l, Signed(negative, c), d);
    } else {
      d := Normalized(digits, scale, negative);
      KeptScale(l, d);
    }
  }

  // ----- the printer -----

  function Zeros(n: nat): (s: string)
    ensures |s| == n && AllDigits(s)
  {
    seq(n, _ => '0')
  }

  function DigitChar(d: Digit): (c: char)
    ensures IsDigit(c) && DigitOf(c) == d
  {
    '0' + d as char
  }

  /** The digits of a magnitude, most significant first. */
  method MagnitudeText(m: Mag) returns (s: string)
    ensures |s| == |m| && AllDigits(s) && NumberOf(s) == Val(m)
    ensures m != [] ==> s[0] == DigitChar(m[|m| - 1])
  {
    s := "";
    var i := |m|;
    while i > 0
      invariant 0 <= i <= |m| && |s| == |m| - i && AllDigits(s)
      invariant s != "" ==> s[0] == DigitChar(m[|m| - 1])
      invariant NumberOf(s) == Val(m[i..])
    {
      i := i - 1;
      NumberSnoc(s, DigitChar(m[i]));
      assert m[i..][1..] == m[i + 1..];
      s := s + [DigitChar(m[i])];
    }
  }

  lemma {:induction false} LeadingZeros(n: nat, s: string)
    requires AllDigits(s)
    ensures AllDigits(Zeros(n) + s) && NumberOf(Zeros(n) + s) == NumberOf(s)
  {
    var t := Zeros(n) + s;
    var k := |t| - 1;
    if s != "" {
      LeadingZeros(n, s[..|s| - 1]);
      assert t[..k] == Zeros(n) + s[..|s| - 1];
    } else if n > 0 {
      LeadingZeros(n - 1, s);
      assert t[..k] == Zeros(n - 1) + s;
    }
  }

  /** Plain notation for `x`: no exponent, no plus sign, exactly `scale` fraction
      digits, and no superfluous leading zero. */
  predicate Prints(x: Decimal, l: Literal) {
    && WellFormed(l) && l.exponent.NoExponent?
    && l.sign == (if x.negative then Minus else Unsigned)
    && |FractionDigits(l)| == x.scale && (l.fraction.None? <==> x.scale == 0)
    && l.whole != "" && (l.whole[0] == '0' ==> l.whole == "0")
    && CoefficientOf(l) == Val(x.digits)
  }

  /** The text the printer produces. */
  ghost predicate IsText(x: Decimal, text: string) {
    exists l :: Prints(x, l) && Spell(l) == text
  }

  function SignFor(x: Decimal): Sign {
    if x.negative then Minus else Unsigned
  }

  lemma PrintsWhole(x: Decimal, magnitude: string)
    requires x.scale == 0 && AllDigits(magnitude) && NumberOf(magnitude) == Val(x.digits)
    requires magnitude != "" && (magnitude[0] == '0' ==> magnitude == "0")
    ensures IsText(x, SignText(SignFor(x)) + magnitude)
  {
    var l := Literal(SignFor(x), magnitude, None, NoExponent);
    assert magnitude + "" == magnitude;
    assert Spell(l) == SignText(SignFor(x)) + magnitude;
    assert Prints(x, l);
  }

  function SplitLiteral(x: Decimal, magnitude: string, point: nat): Literal
    requires point <= |magnitude|
  {
    Literal(SignFor(x), magnitude[..point], Some(magnitude[point..]), NoExponent)
  }

  lemma SplitText(x: Decimal, magnitude: string, point: nat)
    requires point <= |magnitude|
    ensures Spell(SplitLiteral(x, magnitude, point)) ==
            SignText(SignFor(x)) + magnitude[..point] + "." + magnitude[point..]
  {}

  lemma SplitPrints(x: Decimal, magnitude: string, point: nat)
    requires x.scale > 0 && AllDigits(magnitude) && NumberOf(magnitude) == Val(x.digits)
    requires 0 < point == |magnitude| - x.scale && (magnitude[0] == '0' ==> point == 1)
    ensures Prints(x, SplitLiteral(x, magnitude, point))
  {
    assert magnitude[..point] + magnitude[point..] == magnitude;
  }

  lemma PrintsSplit(x: Decimal, magnitude: string, point: nat)
    requires x.scale > 0 && AllDigits(magnitude) && NumberOf(magnitude) == Val(x.digits)
    requires 0 < point == |magnitude| - x.scale && (magnitude[0] == '0' ==> point == 1)
    ensures IsText(x, SignText(SignFor(x)) + magnitude[..point] + "." + magnitude[point..])
  {
    var l := SplitLiteral(x, magnitude, point);
    SplitText(x, magnitude, point);
    SplitPrints(x, magnitude, point);
    assert Prints(x, l) && Spell(l) == SignText(SignFor(x)) + magnitude[..point] + "." + magnitude[point..];
  }

  lemma PrintsZero(x: Decimal)
    requires Valid(x) && x.digits == []
    ensures IsText(x, if x.scale == 0 then "0" else "0." + Zeros(x.scale))
  {
    if x.scale == 0 {
      assert NumberOf("0") == 0;
      PrintsWhole(x, "0");
    } else {
      ZerosDenoteNothing(x.scale + 1);
      PrintsSplit(x, Zeros(x.scale + 1), 1);
      ZeroText(x.scale);
    }
  }

  lemma ZerosDenoteNothing(n: nat)
    ensures NumberOf(Zeros(n)) == 0
  {
    LeadingZeros(n, "");
    assert Zeros(n) + "" == Zeros(n);
  }

  lemma ZeroText(n: nat)
    ensures "" + Zeros(n + 1)[..1] + "." + Zeros(n + 1)[1..] == "0." + Zeros(n)
  {}

  method ToString(x: Decimal) returns (text: string)
    requires Valid(x)
    ensures IsText(x, text)
  {
    if x.digits == [] {
      PrintsZero(x);
      return if x.scale == 0 then "0" else "0." + Zeros(x.scale);
    }
    var magnitude := MagnitudeText(x.digits);
    var out := if x.negative then "-" else "";
    if x.scale == 0 {
      PrintsWhole(x, magnitude);
      return out + magnitude;
    }
    if |magnitude| <= x.scale {
      var padding := Zeros(x.scale - |magnitude| + 1);
      LeadingZeros(|padding|, magnitude);
      magnitude := padding + magnitude;
    }
    var point := |magnitude| - x.scale;
    PrintsSplit(x, magnitude, point);
    return out + magnitude[..point] + "." + magnitude[point..];
  }

  // ----- round trip -----

  lemma PrintDenotes(x: Decimal, l: Literal)
    requires Valid(x) && Prints(x, l)
    ensures Denotes(l, x)
  {
    KeptScale(l, x);
  }

  lemma DenotesUnique(l: Literal, x: Decimal, y: Decimal)
    requires WellFormed(l) && Denotes(l, x) && Denotes(l, y)
    ensures x == y
  {
    OrderOverScale(Coef(x), Coef(y), R10(x.scale));
    SameCoef(x, y);
  }

  /** The digits printed fit the cap exactly when the value's own digits do and
      the point is not at the very edge. */
  lemma PrintedSize(x: Decimal, l: Literal)
    requires Valid(x) && Prints(x, l)
    ensures |l.whole| + x.scale <= MAX_DIGITS <==> |x.digits| <= MAX_DIGITS && x.scale < MAX_DIGITS
  {
    var s := l.whole + FractionDigits(l);
    NumberBound(s);
    ValBound(x.digits);
    if x.digits != [] {
      TrimmedBound(x.digits);
      Pow10Order(|x.digits| - 1, |s|);
    }
    if l.whole[0] != '0' {
      LeadingDigit(s);
      Pow10Order(|s| - 1, |x.digits|);
    }
  }

  lemma Pow10Order(m: nat, n: nat)
    ensures Pow10(m) < Pow10(n) ==> m < n
  {
    if n <= m {
      Pow10Monotone(n, m);
    }
  }

  lemma {:induction false} NumberBound(s: string)
    requires AllDigits(s)
    ensures NumberOf(s) < Pow10(|s|)
  {
    if s != "" {
      NumberBound(s[..|s| - 1]);
    }
  }

  lemma {:induction false} LeadingDigit(s: string)
    requires s != "" && AllDigits(s) && s[0] != '0'
    ensures NumberOf(s) >= Pow10(|s| - 1)
  {
    if |s| > 1 {
      LeadingDigit(s[..|s| - 1]);
    } else {
      assert NumberOf(s[..0]) == 0;
    }
  }

  /** Parsing what was printed rebuilds the value exactly (sign, digits and scale),
      or fails: it rebuilds it just when the coefficient is within the digit cap
      and the scale strictly below it. */
  lemma RoundTrip(x: Decimal, text: string, r: Option<Decimal>)
    requires Valid(x) && IsText(x, text) && Parses(text, r)
    ensures r == if |x.digits| <= MAX_DIGITS && x.scale < MAX_DIGITS then Some(x) else None
  {
    var l :| Prints(x, l) && Spell(l) == text;
    PrintedSize(x, l);
    if Accepts(l) {
      PrintDenotes(x, l);
      DenotesUnique(l, x, r.value);
    } else if r.Some? {
      var m :| Accepts(m) && Spell(m) == text;
      SpellInjective(l, m);
    }
  }

  /** Prints and parses again. */
  method PrintAndParse(x: Decimal) returns (r: Option<Decimal>)
    requires Valid(x)
    ensures r == if |x.digits| <= MAX_DIGITS && x.scale < MAX_DIGITS then Some(x) else None
  {
    var text := ToString(x);
    r := Parse(text);
    RoundTrip(x, text, r);
  }

  /** Every literal whose scale is exactly the cap is parsed, but what its value
      prints as is refused. */
  lemma ScaleAtCap(l: Literal, first: Option<Decimal>)
    requires Accepts(l) && ScaleOf(l) == MAX_DIGITS && Parses(Spell(l), first)
    ensures first.Some? && Denotes(l, first.value)
    ensures forall text, second :: IsText(first.value, text) && Parses(text, second) ==> second == None
  {
    forall text, second | IsText(first.value, text) && Parses(text, second) ensures second == None {
      RoundTrip(first.value, text, second);
    }
  }

  lemma EdgeLiteral()
    ensures var l := Literal(Unsigned, "1", None, Exponent('e', Minus, "1000000"));
            Accepts(l) && ScaleOf(l) == MAX_DIGITS
  {
    TenTimes("", '1', "1");
    TenTimes("1", '0', "10");
    TenTimes("10", '0', "100");
    TenTimes("100", '0', "1000");
    TenTimes("1000", '0', "10000");
    TenTimes("10000", '0', "100000");
    TenTimes("100000", '0', "1000000");
  }

  lemma TenTimes(s: string, c: char, t: string)
    requires AllDigits(s) && IsDigit(c) && t == s + [c]
    ensures AllDigits(t) && NumberOf(t) == 10 * NumberOf(s) + DigitOf(c)
  {
    NumberSnoc(s, c);
  }

  lemma {:induction false} NumberInjective(s: string, t: string)
    requires AllDigits(s) && AllDigits(t) && |s| == |t| && NumberOf(s) == NumberOf(t)
    ensures s == t
  {
    if s != "" {
      var k := |s| - 1;
      NumberInjective(s[..k], t[..k]);
      assert s == s[..k] + [s[k]] && t == t[..k] + [t[k]];
    }
  }

  /** A literal without superfluous zeros determines its length from its number. */
  lemma PrintedNoLonger(x: Decimal, l: Literal, m: Literal)
    requires Prints(x, l) && Prints(x, m)
    ensures |m.whole| <= |l.whole|
  {
    if m.whole[0] != '0' {
      LeadingDigit(m.whole + FractionDigits(m));
      NumberBound(l.whole + FractionDigits(l));
      Pow10Order(|m.whole| + x.scale - 1, |l.whole| + x.scale);
    }
  }

  /** A value has one printed text. */
  lemma PrintUnique(x: Decimal, l: Literal, m: Literal)
    requires Prints(x, l) && Prints(x, m)
    ensures l == m
  {
    PrintedNoLonger(x, l, m);
    PrintedNoLonger(x, m, l);
    var s, t := l.whole + FractionDigits(l), m.whole + FractionDigits(m);
    NumberInjective(s, t);
    var k := |l.whole|;
    assert l.whole == s[..k] && m.whole == t[..k];
    assert FractionDigits(l) == s[k..] && FractionDigits(m) == t[k..];
  }

  /** The hash input is the printed canonical form: two decimals have the same one
      exactly when they are equal in value. */
  lemma SameHashText(x: Decimal, y: Decimal, cx: Decimal, cy: Decimal, tx: string, ty: string)
    requires IsCanonical(cx) && Value(cx) == Value(x) && IsCanonical(cy) && Value(cy) == Value(y)
    requires IsText(cx, tx) && IsText(cy, ty)
    ensures tx == ty <==> Value(x) == Value(y)
  {
    var l :| Prints(cx, l) && Spell(l) == tx;
    var m :| Prints(cy, m) && Spell(m) == ty;
    if tx == ty {
      SpellInjective(l, m);
      PrintDenotes(cx, l);
      PrintDenotes(cy, l);
    }
    if Value(x) == Value(y) {
      CanonicalUnique(cx, cy);
      PrintUnique(cx, l, m);
    }
  }

  /** The text of the canonical form. */
  ghost predicate IsHashText(x: Decimal, text: string) {
    exists c :: IsCanonical(c) && Value(c) == Value(x) && IsText(c, text)
  }

  /** The text that is hashed. */
  method HashText(x: Decimal) returns (text: string)
    requires Valid(x)
    ensures IsHashText(x, text)
  {
    var c := Canonical(x);
    text := ToString(c);
  }

  /** Equality of hash texts is equality of values. */
  method SameHash(x: Decimal, y: Decimal) returns (same: bool)
    requires Valid(x) && Valid(y)
    ensures same <==> Value(x) == Value(y)
  {
    var tx := HashText(x);
    var ty := HashText(y);
    HashTextsDecide(x, y, tx, ty);
    same := tx == ty;
  }

  lemma HashTextsDecide(x: Decimal, y: Decimal, tx: string, ty: string)
    requires IsHashText(x, tx) && IsHashText(y, ty)
    ensures tx == ty <==> Value(x) == Value(y)
  {
    var cx :| IsCanonical(cx) && Value(cx) == Value(x) && IsText(cx, tx);
    var cy :| IsCanonical(cy) && Value(cy) == Value(y) && IsText(cy, ty);
    SameHashText(x, y, cx, cy, tx, ty);
  }
}
