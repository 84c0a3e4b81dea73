/** The money part of src/tybot/canvas_harness.py. */
module Money {
  import opened Basics
  import opened Decimals
  import opened Digits
  import opened DecimalText
  import Markdown

  /** Won, thousand, ten thousand, million and hundred million won. `Man` is read but never shown. */
  datatype Unit = Won | Cheon | Man | BaekMan | Eok

  /** The unit's scale as a power of ten. */
  function Scale(u: Unit): nat {
    match u
    case Won => 0
    case Cheon => 3
    case Man => 4
    case BaekMan => 6
    case Eok => 8
  }

  type Shown = u: Unit | u != Man witness Won

  const UNIT_ORDER: seq<Shown> := [Eok, BaekMan, Cheon, Won]

  function Name(u: Unit): string {
    match u
    case Won => "원"
    case Cheon => "천원"
    case Man => "만원"
    case BaekMan => "백만원"
    case Eok => "억원"
  }

  function ShownUnit(name: string): Option<Shown> {
    if name == Name(Won) then Some(Won)
    else if name == Name(Cheon) then Some(Cheon)
    else if name == Name(BaekMan) then Some(BaekMan)
    else if name == Name(Eok) then Some(Eok)
    else None
  }

  // ---- Reading an amount -------------------------------------------------------------------------

  function Squeezed(s: string): string {
    if s == "" then ""
    else if Markdown.IsSpace(s[0]) then Squeezed(s[1..])
    else [s[0]] + Squeezed(s[1..])
  }

  function UnitOf(s: string): Option<Unit> {
    if s == "원" then Some(Won)
    else if s == "천" || s == "천원" then Some(Cheon)
    else if s == "만원" then Some(Man)
    else if s == "백만" || s == "백만원" then Some(BaekMan)
    else if s == "억" || s == "억원" then Some(Eok)
    else None
  }

  function Negated(d: Amount): Amount { Decimal(-d.coef, d.exp) }

  /** An amount in won. A number without a unit is not an amount, and neither is `3만`. */
  function ParseMoney(raw: string): Option<Amount> {
    var text := Squeezed(raw);
    var negative := text != "" && IsMinus(text[0]);
    var body := if negative then text[1..] else text;
    var n := NumberLength(body);
    if n == 0 then None
    else
      match (UnitOf(body[n..]), Read(RemoveCommas(body[..n])))
      case (Some(unit), Some(number)) =>
        var value := Times(number, Scale(unit));
        Some(if negative then Negated(value) else value)
      case _ => None
  }

  /** The conversion to won is exact iff the number as written has at most 28 significant digits. */
  lemma ParsedExactlyIff(number: Decimal, u: Unit)
    ensures Value(Times(number, Scale(u))) == Value(Decimal(number.coef, number.exp + Scale(u)))
       <==> Fits(Stripped(number.coef))
  {
    hide Pow10, Value, Stripped, Rounded;
    var s := Scale(u);
    RoundedExactIff(Decimal(number.coef * Pow10(s), number.exp));
    Shift(number.coef, number.exp, s);
    StrippedShift(number.coef, s);
  }

  lemma {:induction false} SolidText(s: string)
    requires forall i :: 0 <= i < |s| ==> !Markdown.IsSpace(s[i])
    ensures Squeezed(s) == s
  {
    if s != "" {
      SolidText(s[1..]);
    }
  }

  lemma {:induction false} DigitRun(ds: string, rest: string)
    requires AllDigits(ds) && rest != "" && !IsDigit(rest[0]) && rest[0] != ','
    ensures NumberRun(ds + rest) == |ds|
  {
    if ds == "" {
      assert ds + rest == rest;
    } else {
      TailOfConcat(ds, rest);
      DigitRun(ds[1..], rest);
    }
  }

  lemma PlainDigits(ds: string)
    requires AllDigits(ds)
    ensures RemoveCommas(ds) == ds && Squeezed(ds + "원") == ds + "원"
    ensures NumberLength(ds + "원") == |ds| && (ds + "원")[..|ds|] == ds && (ds + "원")[|ds|..] == "원"
  {
    NoCommas(ds);
    SolidText(ds + "원");
    DigitRun(ds, "원");
  }

  /** Plain digits and 원. */
  lemma PlainWon(n: nat)
    ensures ParseMoney(OfNat(n) + "원") == Some(Times(Decimal(n, 0), 0))
  {
    hide OfNat, NumberLength, RemoveCommas, Read, Squeezed, Times;
    var ds := OfNat(n);
    PlainDigits(ds);
    NoPlaces(n);
    FixedReadsBack(false, n, 0);
    assert !IsMinus(ds[0]);
  }

  lemma TenTimesAndOne(p: nat)
    requires p > 0
    ensures Stripped(10 * p + 1) == 10 * p + 1 && Abs(10 * p + 1) == 10 * p + 1
  {
    assert (10 * p + 1) % 10 == 1;
  }

  lemma OneTooLong()
    ensures !Fits(Stripped(Pow10(28) + 1)) && Pow10(28) + 1 < Pow10(29)
  {
    hide Pow10, Stripped;
    Pow10Step(27);
    Pow10Step(28);
    TenTimesAndOne(Pow10(27));
    CountedDigits(Pow10(28) + 1, 28);
  }

  /** An amount of twenty-nine digits is read as another one. */
  lemma TwentyNineDigits()
    ensures var n := Pow10(28) + 1; var v := ParseMoney(OfNat(n) + "원");
            n < Pow10(29) && v.Some? && Value(v.value) != Value(Decimal(n, 0))
  {
    hide OfNat, Pow10, ParseMoney, Value, Times, Fits, Stripped;
    var n := Pow10(28) + 1;
    OneTooLong();
    PlainWon(n);
    ParsedExactlyIff(Decimal(n, 0), Won);
  }

  // ---- Choosing a unit ---------------------------------------------------------------------------

  predicate ExactIn(v: Amount, u: Unit) {
    var q := Over(v, Scale(u));
    IsIntegral(q) || q.exp >= -2
  }

  predicate AllExact(vs: seq<Amount>, u: Unit) { forall i :: 0 <= i < |vs| ==> ExactIn(vs[i], u) }

  function FirstExact(vs: seq<Amount>, us: seq<Shown>): Shown {
    if us == [] then Won else if AllExact(vs, us[0]) then us[0] else FirstExact(vs, us[1..])
  }

  /** `preferred` is the unit the user named, if it is one the tables show. */
  function CommonUnit(vs: seq<Amount>, preferred: Option<Shown>): Option<Shown> {
    if vs == [] then None
    else if preferred.Some? && AllExact(vs, preferred.value) then preferred
    else Some(FirstExact(vs, UNIT_ORDER))
  }

  /**
   * What the exactness test asks: the value is a whole number of units, or it was written with at
   * most two places and is a whole number of hundredths of the unit.
   */
  lemma ExactInMeans(v: Amount, u: Unit)
    ensures ExactIn(v, u)
       <==> MultipleOf(v, Scale(u)) || (v.exp >= -2 && MultipleOf(v, Scale(u) - 2))
  {
    hide Pow10, Value, Over, Reduce, MultipleOf, IsIntegral, Divides;
    var s := Scale(u);
    var q := Over(v, s);
    OverIs(v, s);
    var n := ReduceShape(Decimal(v.coef, v.exp - s), v.exp);
    Shift(q.coef, v.exp, n);
    var w := Decimal(q.coef, q.exp + s);
    SameValueSameMultiples(v, w, s);
    SameValueSameMultiples(v, w, s as int - 2);
    WholeIff(q, s);
    MultipleIff(w.coef, w.exp, s as int - 2);
    TwoPlacesIff(q, v.exp, s);
  }

  lemma WholeIff(q: Decimal, s: nat)
    ensures IsIntegral(q) <==> MultipleOf(Decimal(q.coef, q.exp + s), s)
  {
    MultipleIff(q.coef, q.exp + s, s);
  }

  lemma TwoPlacesIff(q: Decimal, ideal: int, s: nat)
    requires q.exp <= ideal && (q.exp < ideal ==> q.coef % 10 != 0)
    ensures q.exp >= -2 <==> ideal >= -2 && Divides(q.coef, q.exp + s, s - 2)
  {
    if q.exp < -2 && q.exp < ideal {
      Pow10Step(-2 - q.exp - 1);
      hide Pow10;
      NotATenth(q.coef, Pow10(-2 - q.exp - 1));
    }
  }

  /** An amount in won with three places is exact in no unit, though its text is exact in every one. */
  lemma ThreePlaces(u: Unit)
    ensures !ExactIn(Decimal(1001, -3), u)
  {
    hide ExactIn, MultipleOf, Pow10;
    ExactInMeans(Decimal(1001, -3), u);
    if MultipleOf(Decimal(1001, -3), Scale(u)) {
      CoarserMultiples(Decimal(1001, -3), 0, Scale(u));
      MultipleIff(1001, -3, 0);
      Thousand();
    }
  }

  lemma Thousand()
    ensures Pow10(3) == 1000
  {
  }

  lemma CoarserMultiples(v: Decimal, p: int, q: int)
    requires p <= q && MultipleOf(v, q)
    ensures MultipleOf(v, p)
  {
    hide P10, Pow10;
    var n: int :| Value(v) == Value(Decimal(n, q));
    Shift(n, p, q - p);
    assert Value(v) == Value(Decimal(n * Pow10(q - p), p));
  }

  /** Smaller units are exact whenever larger ones are. */
  lemma SmallerIsExactToo(v: Amount, u: Unit, smaller: Unit)
    requires Scale(smaller) <= Scale(u) && ExactIn(v, u)
    ensures ExactIn(v, smaller)
  {
    hide ExactIn, MultipleOf;
    ExactInMeans(v, u);
    ExactInMeans(v, smaller);
    if MultipleOf(v, Scale(u)) {
      CoarserMultiples(v, Scale(smaller), Scale(u));
    } else {
      CoarserMultiples(v, Scale(smaller) - 2, Scale(u) - 2);
    }
  }

  lemma SmallerSuitsAll(vs: seq<Amount>, u: Unit, smaller: Unit)
    requires Scale(smaller) <= Scale(u) && AllExact(vs, u)
    ensures AllExact(vs, smaller)
  {
    hide ExactIn;
    forall i | 0 <= i < |vs| ensures ExactIn(vs[i], smaller) {
      SmallerIsExactToo(vs[i], u, smaller);
    }
  }

  lemma FirstOf(vs: seq<Amount>)
    ensures FirstExact(vs, UNIT_ORDER)
         == if AllExact(vs, Eok) then Eok else if AllExact(vs, BaekMan) then BaekMan
            else if AllExact(vs, Cheon) then Cheon else Won
  {
    hide AllExact;
    assert UNIT_ORDER[1..] == [BaekMan, Cheon, Won];
    assert [BaekMan, Cheon, Won][1..] == [Cheon, Won];
    assert [Cheon, Won][1..] == [Won];
    assert FirstExact(vs, [Cheon, Won]) == if AllExact(vs, Cheon) then Cheon else FirstExact(vs, [Won]);
    assert FirstExact(vs, [BaekMan, Cheon, Won])
        == if AllExact(vs, BaekMan) then BaekMan else FirstExact(vs, [Cheon, Won]);
  }

  /**
   * Without a usable preference the column gets the largest unit that suits every value, if one
   * does; none does exactly when won itself does not, and then the column is shown in won.
   */
  lemma CommonUnitIsLargest(vs: seq<Amount>, preferred: Option<Shown>)
    requires vs != [] && (preferred.None? || !AllExact(vs, preferred.value))
    ensures CommonUnit(vs, preferred).Some?
    ensures AllExact(vs, CommonUnit(vs, preferred).value) <==> AllExact(vs, Won)
    ensures forall u: Shown :: AllExact(vs, u) ==> Scale(u) <= Scale(CommonUnit(vs, preferred).value)
    ensures !AllExact(vs, Won) ==> CommonUnit(vs, preferred) == Some(Won)
  {
    hide AllExact, FirstExact;
    FirstOf(vs);
    forall u: Shown | AllExact(vs, u) ensures AllExact(vs, Won) {
      SmallerSuitsAll(vs, u, Won);
    }
  }

  // ---- Writing an amount -------------------------------------------------------------------------

  function DropTrailing(s: string, c: char): string {
    if s != "" && s[|s| - 1] == c then DropTrailing(s[..|s| - 1], c) else s
  }

  /** `int(d)` of an integral decimal. */
  function Whole(d: Decimal): int {
    if d.exp >= 0 then d.coef * Pow10(d.exp) else d.coef / Pow10(-d.exp)
  }

  /** `f"{d:,f}"` of a decimal with places. */
  function GroupedFixed(d: Decimal): string
    requires d.exp < 0
  {
    var n, k := Abs(d.coef), -d.exp;
    Signed(d.coef < 0, Group(WholeDigits(n, k)) + "." + FracDigits(n, k))
  }

  function Quotient(v: Amount, u: Unit): Decimal { Normalize(Over(v, Scale(u))) }

  function FormatMoney(v: Amount, u: Unit): string {
    var q := Quotient(v, u);
    if IsIntegral(q) then Signed(Whole(q) < 0, Group(OfNat(Abs(Whole(q)))))
    else DropTrailing(DropTrailing(GroupedFixed(q), '0'), '.')
  }

  // ---- Round trip --------------------------------------------------------------------------------

  /** The quotient is the amount itself with its exponent lowered by the unit's. */
  lemma QuotientShape(v: Amount, u: Unit)
    ensures var q := Quotient(v, u);
      && Abs(q.coef) <= Abs(v.coef)
      && Value(Decimal(q.coef, q.exp + Scale(u))) == Value(v)
      && (q.coef % 10 != 0 || q == Decimal(0, 0))
  {
    hide Pow10, Value, Over, Reduce, Normalize;
    OverIs(v, Scale(u));
    var q0 := Over(v, Scale(u));
    var a := ReduceShape(Decimal(v.coef, v.exp - Scale(u)), v.exp);
    if q0.coef == 0 {
      ZeroQuotient(v, q0, Scale(u));
    } else {
      var b := NormalizeShape(q0);
      var q := Normalize(q0);
      Pow10Add(b, a);
      ProductAssoc(q.coef, Pow10(b), Pow10(a));
      NoLonger(q.coef, Pow10(b + a));
      Shift(q.coef, v.exp, b + a);
    }
  }

  lemma ZeroQuotient(v: Amount, q: Decimal, s: nat)
    requires q.coef == 0 && v.coef == 0
    ensures Normalize(q) == Decimal(0, 0)
    ensures Value(Decimal(0, s)) == Value(v)
  {
  }

  lemma NothingToDrop(q: Decimal)
    requires q.exp < 0 && q.coef % 10 != 0
    ensures DropTrailing(DropTrailing(GroupedFixed(q), '0'), '.') == GroupedFixed(q)
  {
    hide OfNat, Group;
    var n, k := Abs(q.coef), -q.exp;
    LastDigit(n);
    SplitDigits(n, k);
    var text, frac := GroupedFixed(q), FracDigits(n, k);
    assert text[|text| - 1] == frac[|frac| - 1] == DigitChar(n % 10);
    DigitIsNonzero(n % 10);
  }

  lemma DigitIsNonzero(d: nat)
    requires 0 < d < 10
    ensures DigitChar(d) != '0' && DigitChar(d) != '.'
  {
  }

  /** What the displayed text reads back as: the quotient, written out if it has no places. */
  lemma DisplayReads(v: Amount, u: Unit)
    ensures var q := Quotient(v, u);
      Read(RemoveCommas(FormatMoney(v, u)))
      == Some(if q.exp >= 0 then Decimal(q.coef * Pow10(q.exp), 0) else q)
  {
    hide Pow10, Read, RemoveCommas, Group, OfNat, Quotient, IsIntegral, DropTrailing;
    QuotientShape(v, u);
    var q := Quotient(v, u);
    if q.coef % 10 != 0 {
      WholeIffNoPlaces(q);
    } else {
      ZeroIsWhole();
    }
    if q.exp >= 0 {
      GroupedWholeReadsBack(Whole(q) < 0, Abs(Whole(q)));
    } else {
      NothingToDrop(q);
      GroupedPlacesReadBack(q.coef < 0, Abs(q.coef), -q.exp);
    }
  }

  lemma ZeroIsWhole()
    ensures IsIntegral(Decimal(0, 0))
  {
  }

  /**
   * The money round trip: the text without its commas is a number whose product with the unit is
   * the amount, to the last digit - both the exact product and the one the context computes.
   */
  lemma MoneyRoundTrip(v: Amount, u: Unit)
    ensures var back := Read(RemoveCommas(FormatMoney(v, u)));
      && back.Some?
      && Value(Decimal(back.value.coef, back.value.exp + Scale(u))) == Value(v)
      && Value(Times(back.value, Scale(u))) == Value(v)
  {
    hide Pow10, Read, RemoveCommas, FormatMoney, Quotient, Value, Rounded, Fits;
    DisplayReads(v, u);
    QuotientShape(v, u);
    var q, s := Quotient(v, u), Scale(u);
    ShorterFits(q.coef, v.coef);
    if q.exp >= 0 {
      Shift(q.coef, s, q.exp);
      Pow10Add(q.exp, s);
      ProductAssoc(q.coef, Pow10(q.exp), Pow10(s));
      RoundedExact(q.coef, q.exp + s, 0);
      Shift(q.coef, 0, q.exp + s);
    } else {
      RoundedExact(q.coef, s, q.exp);
      Shift(q.coef, q.exp, s);
    }
  }

  /** A column whose unit is exact for all its amounts shows at most two places. */
  lemma ExactShowsTwoPlaces(v: Amount, u: Unit)
    requires ExactIn(v, u)
    ensures var back := Read(RemoveCommas(FormatMoney(v, u))); back.Some? && back.value.exp >= -2
  {
    hide Pow10, Read, RemoveCommas, FormatMoney;
    DisplayReads(v, u);
    var q0 := Over(v, Scale(u));
    if q0.coef != 0 {
      hide Over, Normalize;
      var b := NormalizeShape(q0);
      if IsIntegral(q0) {
        WholeStaysWhole(q0, b);
      }
    }
  }

  lemma WholeStaysWhole(d: Decimal, n: nat)
    requires IsIntegral(d)
    requires var q := Normalize(d); d.coef == q.coef * Pow10(n) && q.exp == d.exp + n && q.coef % 10 != 0
    ensures Normalize(d).exp >= 0
  {
    hide Pow10, Normalize, Value;
    var q := Normalize(d);
    MultipleIff(d.coef, d.exp, 0);
    Shift(q.coef, d.exp, n);
    SameValueSameMultiples(d, q, 0);
    MultipleIff(q.coef, q.exp, 0);
    WholeIffNoPlaces(q);
  }
}
