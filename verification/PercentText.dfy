/**
 * Which texts are percentages and which number each of them stands for, and that what is shown
 * stands for the same number (src/tybot/canvas_harness.py).
 */
module PercentText {
  import opened Basics
  import opened Decimals
  import opened Digits
  import opened DecimalText
  import opened Markdown
  import opened Money
  import opened Percent
  import opened Harness
  import opened MoneyText
  import opened WrittenNumbers
  import opened TableText

  /** The words of the cell are a sign, a number with a digit in it, perhaps spaces, and a percent sign. */
  predicate IsWrittenPercent(raw: string, sign: string, run: string, places: string, gap: string) {
    && Joined(raw) == sign + (run + places + (gap + "%"))
    && IsSign(sign) && IsNumber(run, places) && DigitsOf(run + places) != "" && AllSpace(gap)
  }

  /** The percentage stated, every digit of it. */
  function Percentage(sign: string, run: string, places: string): Decimal {
    OnlyDigits(run + places);
    var number := Written(run, places);
    Decimal(if sign == "" then number.coef else -number.coef, number.exp)
  }

  lemma GapStops(gap: string)
    requires AllSpace(gap)
    ensures Stops(gap + "%") && TrimLeft(gap + "%") == "%"
  {
    LeftSpaces(gap, "%");
  }

  lemma SignIs(sign: string, rest: string)
    requires IsSign(sign) && rest != "" && !IsMinus(rest[0])
    ensures var text := sign + rest;
            (if text != "" && IsMinus(text[0]) then text[..1] else "") == sign && text[|sign|..] == rest
  {
  }

  lemma WrittenPercentIsRead(raw: string, sign: string, run: string, places: string, gap: string)
    requires IsWrittenPercent(raw, sign, run, places, gap)
    ensures WrittenPercent(Joined(raw)) == Some(Percentage(sign, run, places))
  {
    hide Joined, NumberLength, RemoveCommas, DigitsOf, ReadUnsigned, Read, DigitsAndCommas, AllDigits, TrimLeft, AllSpace;
    GapStops(gap);
    NumberStands(run, places, gap + "%");
    NumberReads(run, places);
    NumberFirst(run, places, gap + "%");
    SignIs(sign, run + places + (gap + "%"));
  }

  lemma ReadPercentIsWritten(raw: string) returns (sign: string, run: string, places: string, gap: string)
    requires WrittenPercent(Joined(raw)).Some?
    ensures IsWrittenPercent(raw, sign, run, places, gap)
  {
    hide Joined, NumberLength, RemoveCommas, DigitsOf, ReadUnsigned, Read, DigitsAndCommas, AllDigits, TrimLeft, AllSpace;
    var text := Joined(raw);
    sign := PercentOf(text).value.sign;
    var body := text[|sign|..];
    run, places := NumberTaken(body);
    gap := SpacesBefore(body[NumberLength(body)..], "%");
    NumberReads(run, places);
    assert body == run + places + (gap + "%");
  }

  /** A cell is a readable percentage exactly if it has this form, and it stands for the number it states. */
  lemma PercentIffWritten(raw: string)
    ensures WrittenPercent(Joined(raw)).Some?
       <==> exists sign, run, places, gap :: IsWrittenPercent(raw, sign, run, places, gap)
    ensures forall sign, run, places, gap :: IsWrittenPercent(raw, sign, run, places, gap) ==>
              WrittenPercent(Joined(raw)) == Some(Percentage(sign, run, places))
  {
    hide Joined, WrittenPercent, IsNumber, DigitsOf, AllSpace, Percentage;
    if WrittenPercent(Joined(raw)).Some? {
      var sign, run, places, gap := ReadPercentIsWritten(raw);
    }
    forall sign, run, places, gap | IsWrittenPercent(raw, sign, run, places, gap)
      ensures WrittenPercent(Joined(raw)) == Some(Percentage(sign, run, places))
    {
      WrittenPercentIsRead(raw, sign, run, places, gap);
    }
  }

  /** So whatever the column's places, what is shown reads as the percentage that was stated. */
  lemma ShownIsStated(raw: string, sign: string, run: string, places: string, gap: string, decimals: nat)
    requires IsWrittenPercent(raw, sign, run, places, gap)
    ensures var back := ReadPercent(FormatPercent(raw, decimals).0);
            back.Some? && Value(back.value) == Value(Percentage(sign, run, places))
  {
    hide Joined, WrittenPercent, IsNumber, DigitsOf, AllSpace, Percentage, Value, ReadPercent, FormatPercent;
    WrittenPercentIsRead(raw, sign, run, places, gap);
    PercentKeepsValue(raw, decimals);
  }

  // ---- What is said of a cell ------------------------------------------------------------------

  /** The pattern of a percentage, digits or not. */
  predicate HasForm(text: string, sign: string, run: string, places: string, gap: string) {
    text == sign + (run + places + (gap + "%")) && IsSign(sign) && IsNumber(run, places) && AllSpace(gap)
  }

  lemma FormIsCaptured(text: string, sign: string, run: string, places: string, gap: string)
    requires HasForm(text, sign, run, places, gap)
    ensures PercentOf(text) == Some(Capture(sign, run + places))
    ensures Magnitude(Capture(sign, run + places))
         == (OnlyDigits(run + places); if DigitsOf(run + places) == "" then None else Some(Written(run, places)))
  {
    hide Joined, NumberLength, RemoveCommas, DigitsOf, ReadUnsigned, Read, DigitsAndCommas, AllDigits, TrimLeft, AllSpace;
    GapStops(gap);
    NumberStands(run, places, gap + "%");
    NumberReads(run, places);
    NumberFirst(run, places, gap + "%");
    SignIs(sign, run + places + (gap + "%"));
  }

  lemma CapturedHasForm(text: string) returns (sign: string, run: string, places: string, gap: string)
    requires PercentOf(text).Some?
    ensures HasForm(text, sign, run, places, gap)
  {
    hide NumberLength, DigitsAndCommas, AllDigits, TrimLeft, AllSpace;
    sign := PercentOf(text).value.sign;
    var body := text[|sign|..];
    run, places := NumberTaken(body);
    gap := SpacesBefore(body[NumberLength(body)..], "%");
    assert body == run + places + (gap + "%");
  }

  /** A percentage counts as converted if zeros were added, and as unresolved if it has no digit. */
  lemma PercentStatusIs(raw: string, sign: string, run: string, places: string, gap: string, decimals: nat)
    requires HasForm(Joined(raw), sign, run, places, gap)
    ensures FormatPercent(raw, decimals).1
         == if DigitsOf(run + places) == "" then Unresolved else if PlacesIn(places) < decimals then Converted else Exact
    ensures DigitsOf(run + places) == "" ==> FormatPercent(raw, decimals).0 == Joined(raw)
  {
    hide Joined, PercentOf, Magnitude, IsNumber, DigitsOf, AllSpace, Str, Fixed, Pow10;
    FormIsCaptured(Joined(raw), sign, run, places, gap);
    OnlyDigits(run + places);
    EmptyIsNoPercent();
  }

  /** Any other text is kept, or shown as a dash if it is empty, and is exact. */
  lemma OtherTextIsKept(raw: string, decimals: nat)
    requires !exists sign, run, places, gap :: HasForm(Joined(raw), sign, run, places, gap)
    ensures FormatPercent(raw, decimals) == (if Joined(raw) == "" then "-" else Joined(raw), Exact)
  {
    hide Joined, PercentOf, Magnitude, Display, HasForm;
    if PercentOf(Joined(raw)).Some? {
      var sign, run, places, gap := CapturedHasForm(Joined(raw));
    }
  }
}
