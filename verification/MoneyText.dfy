/**
 * Which texts are amounts and which number each of them stands for, and that an amount printed
 * with its unit is read as itself (src/tybot/canvas_harness.py).
 */
module MoneyText {
  import opened Basics
  import opened Decimals
  import opened Digits
  import opened DecimalText
  import opened Markdown
  import opened Money
  import opened Harness
  import opened HarnessFacts
  import opened WrittenNumbers

  // ---- What a text stands for ------------------------------------------------------------------

  /** The units a text may name, in won. */
  const WORTH: map<string, nat> :=
    map["원" := 1, "천" := 1_000, "천원" := 1_000, "만원" := 10_000, "백만" := 1_000_000, "백만원" := 1_000_000,
        "억" := 100_000_000, "억원" := 100_000_000]

  predicate IsSign(sign: string) { sign == "" || sign == "-" || sign == "\U{2212}" }

  /** The text without its spaces is a sign, a number with a digit in it, and a unit. */
  predicate IsWritten(raw: string, sign: string, run: string, places: string, unit: string) {
    && Squeezed(raw) == sign + (run + places + unit)
    && IsSign(sign) && IsNumber(run, places) && DigitsOf(run + places) != "" && unit in WORTH
  }

  /** The amount in won, rounded by the context if the number is longer than its precision. */
  function Stated(sign: string, run: string, places: string, unit: string): Decimal
    requires unit in WORTH
  {
    OnlyDigits(run + places);
    var number := Written(run, places);
    Rounded(Decimal((if sign == "" then number.coef else -number.coef) * WORTH[unit], number.exp))
  }

  lemma UnitsAre(unit: string)
    ensures UnitOf(unit).Some? <==> unit in WORTH
    ensures unit in WORTH ==> WORTH[unit] == Pow10(Scale(UnitOf(unit).value)) && Stops(unit)
  {
    Powers();
    hide Pow10;
  }

  lemma Powers()
    ensures Pow10(0) == 1 && Pow10(3) == 1_000 && Pow10(4) == 10_000 && Pow10(6) == 1_000_000 && Pow10(8) == 100_000_000
  {
    Thousand();
    assert Pow10(0) == 1;
    hide Pow10;
    Pow10Step(3);
    Pow10Step(4);
    Pow10Step(5);
    Pow10Step(6);
    Pow10Step(7);
  }

  lemma RoundedNegated(d: Decimal)
    ensures Rounded(Decimal(-d.coef, d.exp)) == Decimal(-Rounded(d).coef, Rounded(d).exp)
  {
    assert DigitCount(0) == 1;
    hide HalfEven, Pow10, DigitCount;
    assert Abs(-d.coef) == Abs(d.coef);
  }

  lemma SignTaken(sign: string, rest: string)
    requires IsSign(sign) && rest != "" && !IsMinus(rest[0])
    ensures var text := sign + rest; var negative := text != "" && IsMinus(text[0]);
            negative == (sign != "") && (if negative then text[1..] else text) == rest
  {
    assert sign + rest == if sign == "" then rest else [sign[0]] + rest;
  }

  /** A text written so is read as the amount it states. */
  lemma WrittenIsRead(raw: string, sign: string, run: string, places: string, unit: string)
    requires IsWritten(raw, sign, run, places, unit)
    ensures ParseMoney(raw) == Some(Stated(sign, run, places, unit))
  {
    hide Squeezed, Rounded, Pow10, NumberLength, RemoveCommas, DigitsOf, ReadUnsigned, Read, DigitsAndCommas, UnitOf, WORTH, AllDigits;
    var body := run + places + unit;
    UnitsAre(unit);
    NumberStands(run, places, unit);
    NumberReads(run, places);
    NumbersHaveNoSign(run, places);
    NumberFirst(run, places, unit);
    SignTaken(sign, body);
    var number := Written(run, places);
    var value := Decimal(number.coef * WORTH[unit], number.exp);
    RoundedNegated(value);
    NegatedProduct(number.coef, WORTH[unit]);
  }

  lemma NumberFirst(run: string, places: string, rest: string)
    requires IsNumber(run, places)
    ensures var body := run + places + rest; body != "" && !IsMinus(body[0]) && run + places != ""
  {
    assert (run + places + rest)[0] == run[0];
  }

  lemma NegatedProduct(a: int, b: nat)
    ensures (-a) * b == -(a * b)
  {
  }

  /** Only such texts are read. */
  lemma ReadIsWritten(raw: string) returns (sign: string, run: string, places: string, unit: string)
    requires ParseMoney(raw).Some?
    ensures IsWritten(raw, sign, run, places, unit)
  {
    hide Squeezed, Pow10, NumberLength, RemoveCommas, DigitsOf, ReadUnsigned, Read, DigitsAndCommas, UnitOf, WORTH, AllDigits, Times;
    var text := Squeezed(raw);
    sign := if text != "" && IsMinus(text[0]) then text[..1] else "";
    var body := text[|sign|..];
    run, places := NumberTaken(body);
    unit := body[NumberLength(body)..];
    UnitsAre(unit);
    NumberReads(run, places);
  }

  /** An amount is a text of this form and no other; the number it stands for is the one it states. */
  lemma ReadIffWritten(raw: string)
    ensures ParseMoney(raw).Some?
       <==> exists sign, run, places, unit :: IsWritten(raw, sign, run, places, unit)
    ensures forall sign, run, places, unit :: IsWritten(raw, sign, run, places, unit) ==>
              ParseMoney(raw) == Some(Stated(sign, run, places, unit))
  {
    hide ParseMoney, Squeezed, IsNumber, DigitsOf, Rounded;
    if ParseMoney(raw).Some? {
      var sign, run, places, unit := ReadIsWritten(raw);
    }
    forall sign, run, places, unit | IsWritten(raw, sign, run, places, unit)
      ensures ParseMoney(raw) == Some(Stated(sign, run, places, unit))
    {
      WrittenIsRead(raw, sign, run, places, unit);
    }
  }

  lemma {:induction false} SqueezedConcat(a: string, b: string)
    ensures Squeezed(a + b) == Squeezed(a) + Squeezed(b)
  {
    if a == "" {
      assert a + b == b;
    } else {
      TailOfConcat(a, b);
      SqueezedConcat(a[1..], b);
    }
  }

  lemma SqueezedOne(c: char)
    ensures Squeezed([c]) == if IsSpace(c) then "" else [c]
  {
    assert [c][1..] == "";
  }

  /** Spaces are passed over wherever they stand, and nothing else is. */
  lemma SpacesDoNotCount(a: string, b: string, c: char)
    ensures Squeezed(a + [c] + b) == Squeezed(a) + (if IsSpace(c) then "" else [c]) + Squeezed(b)
  {
    SqueezedConcat(a + [c], b);
    SqueezedConcat(a, [c]);
    SqueezedOne(c);
  }

  // ---- The sign --------------------------------------------------------------------------------

  /** A minus sign in front, of either kind, negates the amount that follows. */
  lemma SignNegates(raw: string, sign: char)
    requires IsMinus(sign) && ParseMoney(raw).Some? && !IsMinus(Squeezed(raw)[0])
    ensures ParseMoney([sign] + raw) == Some(Decimal(-ParseMoney(raw).value.coef, ParseMoney(raw).value.exp))
  {
    hide ParseMoney, Squeezed, IsNumber, WORTH, Rounded, DigitsOf;
    var none, run, places, unit := ReadIsWritten(raw);
    NoSignWritten(raw, none, run, places, unit);
    SignWritten(raw, sign, run, places, unit);
    WrittenIsRead(raw, "", run, places, unit);
    WrittenIsRead([sign] + raw, [sign], run, places, unit);
    StatedNegated(sign, run, places, unit);
  }

  lemma NoSignWritten(raw: string, sign: string, run: string, places: string, unit: string)
    requires IsWritten(raw, sign, run, places, unit) && !IsMinus(Squeezed(raw)[0])
    ensures sign == ""
  {
    hide Squeezed, IsNumber, DigitsOf;
  }

  lemma SignWritten(raw: string, sign: char, run: string, places: string, unit: string)
    requires IsWritten(raw, "", run, places, unit) && IsMinus(sign)
    ensures IsWritten([sign] + raw, [sign], run, places, unit)
  {
    assert !IsSpace(sign);
    SpacesDoNotCount("", raw, sign);
    assert "" + [sign] + raw == [sign] + raw && "" + (run + places + unit) == run + places + unit;
    assert Squeezed("") == "";
    hide Squeezed, IsNumber, DigitsOf, WORTH;
    assert "" + [sign] == [sign];
  }

  lemma StatedNegated(sign: char, run: string, places: string, unit: string)
    requires unit in WORTH
    ensures Stated([sign], run, places, unit)
         == Decimal(-Stated("", run, places, unit).coef, Stated("", run, places, unit).exp)
  {
    hide Rounded, WORTH, DigitsOf;
    OnlyDigits(run + places);
    var number := Written(run, places);
    NegatedProduct(number.coef, WORTH[unit]);
    RoundedNegated(Decimal(number.coef * WORTH[unit], number.exp));
  }

  // ---- Printed and read ------------------------------------------------------------------------

  lemma {:induction false} GroupIsRun(t: string)
    requires AllDigits(t)
    ensures DigitsAndCommas(Group(t)) && (t != "" ==> Group(t) != "")
  {
    if |t| > 3 {
      GroupIsRun(t[..|t| - 3]);
      RunsJoin(Group(t[..|t| - 3]), t[|t| - 3..]);
    }
  }

  lemma RunsJoin(a: string, b: string)
    requires DigitsAndCommas(a) && AllDigits(b)
    ensures DigitsAndCommas(a + "," + b)
  {
  }

  /** A comma before every third digit from the right, and nowhere else. */
  predicate InThrees(run: string) { forall i :: 0 <= i < |run| ==> (run[|run| - 1 - i] == ',' <==> i % 4 == 3) }

  lemma GroupIsInThrees(t: string)
    requires AllDigits(t)
    ensures InThrees(Group(t))
  {
    hide Group;
    forall i | 0 <= i < |Group(t)| ensures Group(t)[|Group(t)| - 1 - i] == ',' <==> i % 4 == 3 {
      GroupedInThrees(t, i);
    }
  }

  /** An amount is printed as a sign or none, its whole digits in threes, and a point and places if it has any. */
  lemma PrintedIs(v: Amount, u: Unit) returns (run: string, places: string)
    ensures IsNumber(run, places) && InThrees(run)
    ensures FormatMoney(v, u) == Signed(Quotient(v, u).coef < 0, run + places)
  {
    hide Pow10, Group, OfNat, Quotient, IsIntegral, DropTrailing, WholeDigits, FracDigits, AllDigits, DigitsAndCommas, InThrees;
    QuotientShape(v, u);
    var q := Quotient(v, u);
    if q.coef % 10 != 0 {
      WholeIffNoPlaces(q);
    } else {
      ZeroIsWhole();
    }
    if q.exp >= 0 {
      run, places := Group(OfNat(Abs(Whole(q)))), "";
      GroupIsRun(OfNat(Abs(Whole(q))));
      GroupIsInThrees(OfNat(Abs(Whole(q))));
      SignKept(q.coef, Pow10(q.exp));
      assert run + places == run;
    } else {
      NothingToDrop(q);
      var n, k := Abs(q.coef), -q.exp;
      SplitDigits(n, k);
      GroupIsRun(WholeDigits(n, k));
      GroupIsInThrees(WholeDigits(n, k));
      run, places := Group(WholeDigits(n, k)), "." + FracDigits(n, k);
      assert places[1..] == FracDigits(n, k);
      assert run + places == Group(WholeDigits(n, k)) + "." + FracDigits(n, k);
    }
  }

  lemma PrintedIsWritten(v: Amount, u: Unit, run: string, places: string)
    requires IsNumber(run, places) && FormatMoney(v, u) == Signed(Quotient(v, u).coef < 0, run + places)
    ensures Squeezed(FormatMoney(v, u) + Name(u)) == (if Quotient(v, u).coef < 0 then "-" else "") + (run + places + Name(u))
  {
    MoneyIsInky(v, u);
    hide FormatMoney, Quotient, IsNumber, Squeezed;
    SolidText(FormatMoney(v, u) + Name(u));
    var text := FormatMoney(v, u) + Name(u);
    assert text == (if Quotient(v, u).coef < 0 then "-" else "") + (run + places + Name(u));
  }

  lemma ReadsAsSigned(negative: bool, run: string, places: string)
    requires IsNumber(run, places) && Read(RemoveCommas(Signed(negative, run + places))).Some?
    ensures DigitsOf(run + places) != ""
    ensures AllDigits(DigitsOf(run + places))
    ensures var number := Written(run, places);
            Read(RemoveCommas(Signed(negative, run + places))) == Some(Decimal(if negative then -number.coef else number.coef, number.exp))
  {
    hide ReadUnsigned, RemoveCommas, DigitsOf, DigitsAndCommas, ToNat;
    UngroupedSign(negative, run + places);
    NumberReads(run, places);
    var text := RemoveCommas(run + places);
    assert ("-" + text)[1..] == text;
  }

  lemma NameHasWorth(u: Unit)
    ensures Name(u) in WORTH && WORTH[Name(u)] == Pow10(Scale(u)) && UnitOf(Name(u)) == Some(u)
  {
    UnitsAre(Name(u));
  }

  /** Printed with its unit, an amount is read as itself: negative or not, with places or without. */
  lemma PrintedIsRead(v: Amount, u: Unit)
    ensures var back := ParseMoney(FormatMoney(v, u) + Name(u));
            back.Some? && Value(back.value) == Value(v)
  {
    hide FormatMoney, Quotient, Pow10, Value, Rounded, RemoveCommas, Read, ParseMoney, Squeezed, IsNumber, DigitsOf, WORTH, Name, AllDigits;
    var run, places := PrintedIs(v, u);
    PrintedIsWritten(v, u, run, places);
    NameHasWorth(u);
    MoneyRoundTrip(v, u);
    var negative := Quotient(v, u).coef < 0;
    ReadsAsSigned(negative, run, places);
    WrittenIsRead(FormatMoney(v, u) + Name(u), if negative then "-" else "", run, places, Name(u));
  }

  /** A unit asked for by the name it is shown with is that unit, and no other name is. */
  lemma NamesAreShown(name: string, u: Shown)
    ensures ShownUnit(name) == Some(u) <==> name == Name(u)
  {
  }

  // ---- The check of a money cell ---------------------------------------------------------------

  /** The check accepts the display of an amount for a text exactly when the text states that amount. */
  lemma CheckAcceptsIff(raw: string, w: Amount, unit: Shown)
    requires ParseMoney(raw).Some?
    ensures Verify(Cell(raw, FormatMoney(w, unit), MoneyKind, MoneyIn(unit), Percent.Converted)).None?
       <==> Value(w) == Value(ParseMoney(raw).value)
  {
    hide Read, RemoveCommas, FormatMoney, ParseMoney, SameNumber, Value, Rounded, DigitsOf, Percent.ABSENT;
    MoneyRoundTrip(w, unit);
    DashIsNoNumber();
    SameNumberMeans(Times(Read(RemoveCommas(FormatMoney(w, unit))).value, Scale(unit)), ParseMoney(raw).value);
  }
}
