/**
 * Python's `decimal.Decimal` under the default context: 28 significant digits, half-even
 * rounding. Overflow of the exponent and negative zero are not modelled.
 */
module Decimals {
  const PRECISION: nat := 28

  /** `coef * 10^exp`. */
  datatype Decimal = Decimal(coef: int, exp: int)

  /** What an arithmetic operation of the context can return. */
  type Amount = d: Decimal | Fits(d.coef) witness Decimal(0, 0)

  function Pow10(n: nat): (p: nat)
    ensures p > 0
  {
    if n == 0 then 1 else 10 * Pow10(n - 1)
  }

  /** `10^e`, for negative `e` too. */
  function P10(e: int): (p: real)
    ensures p > 0.0
    decreases if e < 0 then -e else e
  {
    if e == 0 then 1.0 else if e > 0 then 10.0 * P10(e - 1) else P10(e + 1) / 10.0
  }

  /** The number a decimal stands for. */
  ghost function Value(d: Decimal): real { d.coef as real * P10(d.exp) }

  function Abs(n: int): nat { if n < 0 then -n else n }

  function DigitCount(n: nat): (k: nat)
    ensures k > 0
  {
    if n < 10 then 1 else DigitCount(n / 10) + 1
  }

  /** At most 28 digits. */
  predicate Fits(c: int) { DigitCount(Abs(c)) <= PRECISION }

  function HalfEven(n: nat, unit: nat): nat
    requires unit > 0
  {
    var q, r := n / unit, n % unit;
    if 2 * r > unit || (2 * r == unit && q % 2 == 1) then q + 1 else q
  }

  /** The digits beyond the precision go; a carry out of the last one moves the exponent again. */
  function Rounded(d: Decimal): Decimal {
    var k := DigitCount(Abs(d.coef)) - PRECISION;
    if k <= 0 then d
    else
      var q := HalfEven(Abs(d.coef), Pow10(k));
      var c := if Fits(q) then q else q / 10;
      Decimal(if d.coef < 0 then -c else c, d.exp + k + (if Fits(q) then 0 else 1))
  }

  // ---- Powers of ten -------------------------------------------------------------------------

  lemma P10Step(e: int)
    ensures P10(e + 1) == 10.0 * P10(e)
  {
  }

  lemma Regroup(x: real, p: real)
    ensures (10.0 * x) * p == x * (10.0 * p)
  {
  }

  lemma TenTimes(c: int)
    ensures (10 * c) as real == 10.0 * (c as real)
  {
  }

  lemma Tenfold(c: int, e: int)
    ensures Value(Decimal(10 * c, e)) == Value(Decimal(c, e + 1))
  {
    P10Step(e);
    hide P10;
    TenTimes(c);
    Regroup(c as real, P10(e));
  }

  lemma Swap(c: int, p: int)
    ensures c * (10 * p) == (10 * c) * p
  {
  }

  lemma Pow10Step(n: nat)
    ensures Pow10(n + 1) == 10 * Pow10(n)
  {
  }

  /** Zeros appended to the coefficient are made up by the exponent. */
  lemma {:induction false} Shift(c: int, e: int, n: nat)
    ensures Value(Decimal(c * Pow10(n), e)) == Value(Decimal(c, e + n))
    decreases n
  {
    if n == 0 {
      assert c * Pow10(0) == c;
    } else {
      Shift(10 * c, e, n - 1);
      Pow10Step(n - 1);
      hide Pow10, Value;
      Swap(c, Pow10(n - 1));
      Tenfold(c, e + n - 1);
    }
  }

  lemma Cancel(a: real, b: real, p: real)
    requires p > 0.0
    ensures a * p == b * p ==> a == b
  {
    if a * p == b * p {
      assert a == a * p / p && b == b * p / p;
    }
  }

  /** At one exponent a value has one coefficient. */
  lemma SameExponent(a: int, b: int, e: int)
    ensures Value(Decimal(a, e)) == Value(Decimal(b, e)) <==> a == b
  {
    hide P10;
    Cancel(a as real, b as real, P10(e));
  }

  lemma {:induction false} Pow10Add(a: nat, b: nat)
    ensures Pow10(a + b) == Pow10(a) * Pow10(b)
  {
    if a > 0 {
      Pow10Add(a - 1, b);
      Pow10Step(a - 1);
      Pow10Step(a - 1 + b);
      hide Pow10;
      Swap(Pow10(b), Pow10(a - 1));
    }
  }

  /** `DigitCount` counts the decimal digits. */
  lemma {:induction false} CountedDigits(n: nat, k: nat)
    requires k > 0
    ensures n < Pow10(k) <==> DigitCount(n) <= k
  {
    Pow10Step(k - 1);
    if k == 1 {
    } else if n < 10 {
      Pow10Step(k - 2);
    } else {
      CountedDigits(n / 10, k - 1);
    }
  }

  // ---- Rounding ------------------------------------------------------------------------------

  function Stripped(c: int): int
    decreases Abs(c)
  {
    if c != 0 && c % 10 == 0 then Stripped(c / 10) else c
  }

  lemma {:induction false} StrippedShift(c: int, n: nat)
    ensures Stripped(c * Pow10(n)) == Stripped(c)
    decreases n
  {
    if n > 0 {
      StrippedShift(c, n - 1);
      Pow10Step(n - 1);
      Swap(c, Pow10(n - 1));
      TenDivides(c, Pow10(n - 1));
    }
  }

  lemma TenDivides(c: int, p: int)
    ensures (10 * c) * p == 10 * (c * p)
    ensures 10 * (c * p) % 10 == 0 && 10 * (c * p) / 10 == c * p
    ensures p != 0 && c != 0 ==> c * p != 0
  {
  }

  lemma {:induction false} StrippedZeros(c: int) returns (n: nat)
    ensures c == Stripped(c) * Pow10(n)
    decreases Abs(c)
  {
    if c != 0 && c % 10 == 0 {
      var m := StrippedZeros(c / 10);
      n := m + 1;
      Pow10Step(m);
      Swap(Stripped(c), Pow10(m));
      TenDivides(Stripped(c), Pow10(m));
    } else {
      n := 0;
    }
  }

  lemma {:induction false} StrippedShrinks(c: int)
    ensures Abs(Stripped(c)) <= Abs(c)
    decreases Abs(c)
  {
    if c != 0 && c % 10 == 0 {
      StrippedShrinks(c / 10);
    }
  }

  lemma QuotientBelow(n: nat, u: nat, p: nat)
    requires u > 0 && n < p * u
    ensures n / u < p
  {
    var q := n / u;
    assert q * u <= n;
    MonotoneTimes(q, p, u);
  }

  lemma HalfEvenExact(x: nat, u: nat)
    requires u > 0
    ensures HalfEven(x * u, u) == x
  {
    assert x * u / u == x && x * u % u == 0 by {
      WholeQuotient(x, u);
    }
  }

  lemma WholeQuotient(x: nat, u: nat)
    requires u > 0
    ensures x * u / u == x && x * u % u == 0
  {
    var q, r := x * u / u, x * u % u;
    assert (x - q) * u == r;
    MultipleBelow(x - q, u);
  }

  lemma MultipleBelow(y: int, u: int)
    requires u > 0
    ensures 0 <= y * u < u ==> y == 0
  {
    assert y >= 1 ==> y * u >= u;
    assert y <= -1 ==> y * u <= -u;
  }

  lemma FitsIff(c: int)
    ensures Fits(c) <==> Abs(c) < Pow10(PRECISION)
  {
    hide Pow10, DigitCount;
    CountedDigits(Abs(c), PRECISION);
  }

  lemma ShorterFits(a: int, b: int)
    requires Abs(a) <= Abs(b) && Fits(b)
    ensures Fits(a)
  {
    hide Pow10, Fits;
    FitsIff(a);
    FitsIff(b);
  }

  lemma RoundedFits(d: Decimal)
    ensures Fits(Rounded(d).coef)
    ensures Rounded(d).exp >= d.exp
  {
    hide Pow10, DigitCount, HalfEven;
    var n := Abs(d.coef);
    var k := DigitCount(n) - PRECISION;
    if k > 0 {
      CountedDigits(n, DigitCount(n));
      Pow10Add(PRECISION, k);
      Pow10Step(PRECISION - 1);
      QuotientBelow(n, Pow10(k), Pow10(PRECISION));
      HalfEvenNear(n, Pow10(k));
      var q := HalfEven(n, Pow10(k));
      FitsIff(q);
      FitsIff(q / 10);
      SignedFits(if Fits(q) then q else q / 10);
    }
  }

  lemma HalfEvenNear(n: nat, u: nat)
    requires u > 0
    ensures n / u <= HalfEven(n, u) <= n / u + 1
  {
  }

  lemma SignedFits(c: nat)
    ensures Fits(c) ==> Fits(0 - c)
  {
  }

  /** A rounding is exact iff the digits before the trailing zeros fit the precision. */
  lemma RoundedExactIff(d: Decimal)
    ensures Value(Rounded(d)) == Value(d) <==> Fits(Stripped(d.coef))
  {
    hide Pow10, Rounded, Stripped, Value;
    if Fits(Stripped(d.coef)) {
      var n := StrippedZeros(d.coef);
      RoundedExact(Stripped(d.coef), n, d.exp);
    } else if Value(Rounded(d)) == Value(d) {
      OnlyZerosWent(d);
    }
  }

  lemma OnlyZerosWent(d: Decimal)
    requires Value(Rounded(d)) == Value(d)
    ensures Fits(Stripped(d.coef))
  {
    hide Pow10, Rounded, Stripped;
    RoundedFits(d);
    var r := Rounded(d);
    var m: nat := r.exp - d.exp;
    Shift(r.coef, d.exp, m);
    SameExponent(r.coef * Pow10(m), d.coef, d.exp);
    hide Value, Fits;
    StrippedShift(r.coef, m);
    StrippedShrinks(r.coef);
    ShorterFits(Stripped(r.coef), r.coef);
  }

  lemma AbsTimes(t: int, p: nat)
    ensures Abs(t * p) == Abs(t) * p
  {
  }

  lemma MonotoneTimes(a: nat, b: nat, p: nat)
    requires p > 0
    ensures a < b <==> a * p < b * p
  {
  }

  /** Digits in excess of the precision are among the `n` zeros appended to a fitting `t`. */
  lemma ExcessIsZeros(t: nat, n: nat)
    requires Fits(t)
    ensures DigitCount(t * Pow10(n)) <= PRECISION + n
  {
    hide Pow10, DigitCount;
    FitsIff(t);
    Pow10Add(PRECISION, n);
    CountedDigits(t * Pow10(n), PRECISION + n);
    MonotoneTimes(t, Pow10(PRECISION), Pow10(n));
  }

  lemma KeptFits(x: nat, k: nat)
    requires DigitCount(x * Pow10(k)) <= PRECISION + k
    ensures Fits(x)
  {
    hide Pow10, DigitCount;
    FitsIff(x);
    CountedDigits(x * Pow10(k), PRECISION + k);
    Pow10Add(PRECISION, k);
    MonotoneTimes(x, Pow10(PRECISION), Pow10(k));
  }

  /** `k` zeros too many: they are dropped and nothing else is. */
  lemma RoundedDrops(x: int, k: nat, e: int)
    requires k > 0 && DigitCount(Abs(x * Pow10(k))) == PRECISION + k
    ensures Rounded(Decimal(x * Pow10(k), e)) == Decimal(x, e + k)
  {
    hide Pow10, DigitCount, HalfEven;
    AbsTimes(x, Pow10(k));
    KeptFits(Abs(x), k);
    HalfEvenExact(Abs(x), Pow10(k));
    SignKept(x, Pow10(k));
  }

  lemma SignKept(x: int, p: nat)
    requires p > 0
    ensures x * p < 0 <==> x < 0
  {
  }

  lemma ProductAssoc(t: int, a: nat, b: nat)
    ensures t * (a * b) == t * a * b
  {
  }

  lemma RoundedExact(t: int, n: nat, e: int)
    requires Fits(t)
    ensures Value(Rounded(Decimal(t * Pow10(n), e))) == Value(Decimal(t * Pow10(n), e))
  {
    hide Pow10, Rounded, DigitCount;
    var c := t * Pow10(n);
    var k := DigitCount(Abs(c)) - PRECISION;
    AbsTimes(t, Pow10(n));
    ExcessIsZeros(Abs(t), n);
    if k > 0 {
      Pow10Add(n - k, k);
      var x := t * Pow10(n - k);
      Shift(x, e, k);
      ProductAssoc(t, Pow10(n - k), Pow10(k));
      hide Value;
      RoundedDrops(x, k, e);
    } else {
      FitsUnrounded(Decimal(c, e));
    }
  }

  /** The nearest multiple of the unit, and of two the one with an even digit. */
  lemma HalfEvenNearest(n: nat, u: nat)
    requires u > 0
    ensures 2 * Abs(HalfEven(n, u) * u - n) <= u
    ensures 2 * Abs(HalfEven(n, u) * u - n) == u ==> HalfEven(n, u) % 2 == 0
  {
    var q, r := n / u, n % u;
    assert n == q * u + r;
    NextMultiple(q, u);
  }

  lemma NextMultiple(q: nat, u: nat)
    ensures (q + 1) * u == q * u + u
  {
  }

  lemma CarryShifts(q: nat, u: nat)
    requires q % 10 == 0
    ensures q / 10 * (10 * u) == q * u
  {
    Swap(q / 10, u);
    assert q == 10 * (q / 10);
  }

  /** A carry out of the last digit leaves a power of ten. */
  lemma CarryIsTen(n: nat, u: nat)
    requires u > 0 && n < Pow10(PRECISION) * u && !Fits(HalfEven(n, u))
    ensures HalfEven(n, u) % 10 == 0
  {
    hide Pow10, HalfEven, DigitCount;
    QuotientBelow(n, u, Pow10(PRECISION));
    HalfEvenNear(n, u);
    FitsIff(HalfEven(n, u));
    Pow10Step(PRECISION - 1);
  }

  /**
   * Rounding takes the nearest number of 28 digits: what is dropped is at most half a unit of the
   * last digit kept, the sign stays, and a number of 28 digits is not touched.
   */
  lemma RoundedIsNearest(d: Decimal) returns (m: nat)
    ensures var r, k := Rounded(d), DigitCount(Abs(d.coef)) - PRECISION;
      && r.exp == d.exp + m && Fits(r.coef)
      && (k <= 0 ==> r == d)
      && (k > 0 ==> 2 * Abs(Abs(r.coef) * Pow10(m) - Abs(d.coef)) <= Pow10(k) && (r.coef < 0 ==> d.coef < 0) && (r.coef > 0 ==> d.coef > 0))
  {
    hide Pow10, DigitCount, HalfEven;
    RoundedFits(d);
    m := Rounded(d).exp - d.exp;
    var n := Abs(d.coef);
    var k := DigitCount(n) - PRECISION;
    if k > 0 {
      CountedDigits(n, DigitCount(n));
      Pow10Add(PRECISION, k);
      ShortenedIsNearest(n, k);
      SignStays(d, k);
    }
  }

  /** What rounding takes for the coefficient, and by how much it moves the exponent. */
  function Shortened(n: nat, k: nat): (nat, nat) {
    var q := HalfEven(n, Pow10(k));
    if Fits(q) then (q, k) else (q / 10, k + 1)
  }

  lemma ShortenedIsNearest(n: nat, k: nat)
    requires n < Pow10(PRECISION) * Pow10(k)
    ensures var (c, m) := Shortened(n, k); 2 * Abs(c * Pow10(m) - n) <= Pow10(k)
  {
    hide Pow10, HalfEven, Fits;
    HalfEvenNearest(n, Pow10(k));
    var q := HalfEven(n, Pow10(k));
    if !Fits(q) {
      CarryIsTen(n, Pow10(k));
      CarryShifts(q, Pow10(k));
      Pow10Step(k);
    }
  }

  lemma SignStays(d: Decimal, k: nat)
    requires k > 0 && DigitCount(Abs(d.coef)) == PRECISION + k
    ensures var r, (c, m) := Rounded(d), Shortened(Abs(d.coef), k);
      Abs(r.coef) == c && r.exp == d.exp + m && (r.coef < 0 ==> d.coef < 0) && (r.coef > 0 ==> d.coef > 0)
  {
    assert DigitCount(0) == 1;
    hide Pow10, HalfEven, Fits, DigitCount;
  }

  // ---- Scaling by a power of ten -------------------------------------------------------------

  /** `d * 10^s` for a factor written without exponent. */
  function Times(d: Decimal, s: nat): (r: Amount)
    ensures r == Rounded(Decimal(d.coef * Pow10(s), d.exp))
  {
    RoundedFits(Decimal(d.coef * Pow10(s), d.exp));
    Rounded(Decimal(d.coef * Pow10(s), d.exp))
  }

  /** Trailing zeros go while the exponent is below `ideal`. */
  function Reduce(d: Decimal, ideal: int): Decimal
    decreases ideal - d.exp
  {
    if d.exp < ideal && d.coef % 10 == 0 then Reduce(Decimal(d.coef / 10, d.exp + 1), ideal) else d
  }

  /**
   * `d / 10^s` for a divisor written without exponent: the dividend is extended by enough zeros
   * for two digits more than the precision, and an exact quotient is then brought as near to
   * the dividend's exponent as its trailing zeros allow.
   */
  function Over(d: Amount, s: nat): Decimal {
    if d.coef == 0 then d
    else
      var extra := PRECISION + 2 - DigitCount(Abs(d.coef));
      Rounded(Reduce(Decimal(d.coef * Pow10(extra), d.exp - s - extra), d.exp))
  }

  /** The quotient in one step: the dividend's own coefficient, shorn of up to `s` zeros. */
  lemma OverIs(d: Amount, s: nat)
    ensures Over(d, s) == Reduce(Decimal(d.coef, d.exp - s), d.exp)
  {
    hide Pow10, DigitCount, Reduce, Rounded;
    if d.coef == 0 {
      ReduceZero(d.exp - s, d.exp);
    } else {
      var extra := PRECISION + 2 - DigitCount(Abs(d.coef));
      ReduceZeros(d.coef, d.exp - s, extra, d.exp);
      var q := Reduce(Decimal(d.coef, d.exp - s), d.exp);
      var n := ReduceShape(Decimal(d.coef, d.exp - s), d.exp);
      NoLonger(q.coef, Pow10(n));
      ShorterFits(q.coef, d.coef);
      FitsUnrounded(q);
    }
  }

  lemma FitsUnrounded(d: Decimal)
    requires Fits(d.coef)
    ensures Rounded(d) == d
  {
  }

  lemma NoLonger(c: int, p: nat)
    requires p > 0
    ensures Abs(c) <= Abs(c * p)
  {
  }

  lemma {:induction false} ReduceZero(e: int, ideal: int)
    requires e <= ideal
    ensures Reduce(Decimal(0, e), ideal) == Decimal(0, ideal)
    decreases ideal - e
  {
    if e < ideal {
      ReduceZero(e + 1, ideal);
    }
  }

  lemma {:induction false} ReduceZeros(c: int, e: int, n: nat, ideal: int)
    requires e <= ideal
    ensures Reduce(Decimal(c * Pow10(n), e - n), ideal) == Reduce(Decimal(c, e), ideal)
    decreases n
  {
    if n > 0 {
      ReduceZeros(c, e, n - 1, ideal);
      Pow10Step(n - 1);
      Swap(c, Pow10(n - 1));
      TenDivides(c, Pow10(n - 1));
    }
  }

  /** What `Reduce` leaves: the same number, at the ideal exponent or with no zero to drop. */
  lemma {:induction false} ReduceShape(d: Decimal, ideal: int) returns (n: nat)
    ensures var r := Reduce(d, ideal);
      && d.coef == r.coef * Pow10(n) && r.exp == d.exp + n
      && (d.exp <= ideal ==> r.exp <= ideal)
      && (r.exp < ideal ==> r.coef % 10 != 0)
    decreases ideal - d.exp
  {
    if d.exp < ideal && d.coef % 10 == 0 {
      var m := ReduceShape(Decimal(d.coef / 10, d.exp + 1), ideal);
      n := m + 1;
      Pow10Step(m);
      Swap(Reduce(d, ideal).coef, Pow10(m));
      TenDivides(Reduce(d, ideal).coef, Pow10(m));
    } else {
      n := 0;
    }
  }

  // ---- Whole multiples -----------------------------------------------------------------------

  /** The value is a whole multiple of `10^p`. */
  ghost predicate MultipleOf(d: Decimal, p: int) {
    exists n: int :: Value(d) == Value(Decimal(n, p))
  }

  predicate Divides(c: int, e: int, p: int) { p <= e || c % Pow10(p - e) == 0 }

  /** Divisibility decided on the coefficient. */
  lemma MultipleIff(c: int, e: int, p: int)
    ensures MultipleOf(Decimal(c, e), p) <==> Divides(c, e, p)
  {
    if p <= e {
      Shift(c, p, e - p);
      assert Value(Decimal(c, e)) == Value(Decimal(c * Pow10(e - p), p));
    } else {
      var u := Pow10(p - e);
      hide Pow10;
      forall n: int ensures Value(Decimal(n, p)) == Value(Decimal(n * u, e)) {
        Shift(n, e, p - e);
      }
      if c % u == 0 {
        assert c == c / u * u;
        assert Value(Decimal(c, e)) == Value(Decimal(c / u, p));
      }
      if n: int :| Value(Decimal(c, e)) == Value(Decimal(n, p)) {
        SameExponent(c, n * u, e);
        RemainderOfMultiple(n, u);
      }
    }
  }

  lemma RemainderOfMultiple(n: int, u: nat)
    requires u > 0
    ensures n * u % u == 0
  {
    var q, r := n * u / u, n * u % u;
    assert (n - q) * u == r;
    MultipleBelow(n - q, u);
  }

  lemma SameValueSameMultiples(a: Decimal, b: Decimal, p: int)
    requires Value(a) == Value(b)
    ensures MultipleOf(a, p) <==> MultipleOf(b, p)
  {
  }

  /** `to_integral_value()` changes nothing. */
  predicate IsIntegral(d: Decimal) { Divides(d.coef, d.exp, 0) }

  /** `normalize()` of a value that fits the precision. */
  function Normalize(d: Decimal): Decimal
    decreases Abs(d.coef)
  {
    if d.coef == 0 then Decimal(0, 0)
    else if d.coef % 10 == 0 then Normalize(Decimal(d.coef / 10, d.exp + 1))
    else d
  }

  lemma {:induction false} NormalizeShape(d: Decimal) returns (n: nat)
    requires d.coef != 0
    ensures var r := Normalize(d);
      && d.coef == r.coef * Pow10(n) && r.exp == d.exp + n && r.coef % 10 != 0
    decreases Abs(d.coef)
  {
    if d.coef % 10 == 0 {
      var m := NormalizeShape(Decimal(d.coef / 10, d.exp + 1));
      n := m + 1;
      Pow10Step(m);
      Swap(Normalize(d).coef, Pow10(m));
      TenDivides(Normalize(d).coef, Pow10(m));
    } else {
      n := 0;
    }
  }

  lemma WholeIffNoPlaces(d: Decimal)
    requires d.coef % 10 != 0
    ensures IsIntegral(d) <==> d.exp >= 0
  {
    if d.exp < 0 {
      Pow10Step(-d.exp - 1);
      hide Pow10;
      NotATenth(d.coef, Pow10(-d.exp - 1));
    }
  }

  lemma NotATenth(c: int, p: nat)
    requires p > 0 && c % 10 != 0
    ensures c % (10 * p) != 0
  {
    var q := c / (10 * p);
    assert c == (10 * p) * q + c % (10 * p);
    Swap(q, p);
    assert (10 * q) * p == 10 * (q * p);
  }
}
