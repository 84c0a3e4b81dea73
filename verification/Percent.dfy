/** The percent part of src/tybot/canvas_harness.py. */
module Percent {
  import opened Basics
  import opened Decimals
  import opened Digits
  import opened DecimalText
  import opened Markdown

  const ABSENT := "-"

  datatype Status = Exact | Converted | Unresolved

  /** What `_PERCENT` captures: the sign character, if any, and `[\\d,]+(\\.\\d+)?`. */
  datatype Capture = Capture(sign: string, number: string)

  function PercentOf(text: string): Option<Capture> {
    var sign := if text != "" && IsMinus(text[0]) then text[..1] else "";
    var body := text[|sign|..];
    var n := NumberLength(body);
    if n > 0 && TrimLeft(body[n..]) == "%" then Some(Capture(sign, body[..n])) else None
  }

  /** The number without its sign; none when the capture is commas only. */
  function Magnitude(c: Capture): Option<Decimal> { ReadUnsigned(RemoveCommas(c.number)) }

  function Places(d: Decimal): nat { if d.exp < 0 then -d.exp else 0 }

  /** `f"{value:.{decimals}f}%"` when zeros suffice, `f"{value}%"` when the value is more precise. */
  function Display(negative: bool, coef: nat, k: nat, decimals: nat): (string, Status) {
    if k > decimals then (Str(negative, coef, k) + "%", Exact)
    else
      (Fixed(negative, coef * Pow10(decimals - k), decimals) + "%",
       if k != decimals then Converted else Exact)
  }

  /** One cell. Zeros may be added; digits are never taken away. */
  function FormatPercent(raw: string, decimals: nat): (string, Status) {
    var text := Joined(raw);
    if text == "" then (ABSENT, Exact)
    else
      match PercentOf(text)
      case None => (text, Exact)
      case Some(c) =>
        match Magnitude(c)
        case None => (text, Unresolved)
        case Some(d) => Display(c.sign != "", Abs(d.coef), Places(d), decimals)
  }

  /** Places a cell contributes to its column. U+2212 is not a sign to `Decimal`, so such a cell has none. */
  function PlacesOf(raw: string): nat {
    match PercentOf(Joined(raw))
    case None => 0
    case Some(c) =>
      if c.sign == "\U{2212}" then 0
      else
        match Magnitude(c)
        case None => 0
        case Some(d) => Places(d)
  }

  function MaxPlaces(values: seq<string>): nat {
    if values == [] then 0
    else
      var rest, last := MaxPlaces(values[..|values| - 1]), PlacesOf(values[|values| - 1]);
      if last > rest then last else rest
  }

  /** The column's places, found cell by cell. */
  method PercentDecimals(values: seq<string>) returns (best: nat)
    ensures best == MaxPlaces(values)
  {
    hide PlacesOf;
    best := 0;
    for i := 0 to |values|
      invariant best == MaxPlaces(values[..i])
    {
      assert values[..i + 1][..i] == values[..i];
      if PlacesOf(values[i]) > best {
        best := PlacesOf(values[i]);
      }
    }
    assert values[..|values|] == values;
  }

  /** They are the places of the most precise readable cell. */
  lemma {:induction false} MaxPlacesIsMax(values: seq<string>)
    ensures forall i :: 0 <= i < |values| ==> PlacesOf(values[i]) <= MaxPlaces(values)
    ensures MaxPlaces(values) == 0 || exists i :: 0 <= i < |values| && PlacesOf(values[i]) == MaxPlaces(values)
  {
    hide PlacesOf;
    if values != [] {
      var front := values[..|values| - 1];
      MaxPlacesIsMax(front);
      assert forall i :: 0 <= i < |front| ==> values[i] == front[i];
    }
  }

  // ---- No value is lost --------------------------------------------------------------------------

  lemma {:induction false} CommasLeaveDigits(s: string)
    requires NumberRun(s) == |s|
    ensures AllDigits(RemoveCommas(s))
  {
    if s != "" {
      CommasLeaveDigits(s[1..]);
    }
  }

  lemma {:induction false} RunIsRun(s: string, n: nat)
    requires n <= NumberRun(s)
    ensures NumberRun(s[..n]) == n
  {
    if n > 0 {
      RunIsRun(s[1..], n - 1);
      assert s[..n][1..] == s[1..][..n - 1];
    }
  }

  /** A captured number has no exponent: its magnitude is a whole coefficient with some places. */
  lemma MagnitudeIsPlain(text: string)
    ensures match PercentOf(text)
      case None => true
      case Some(c) => Magnitude(c).Some? ==> Magnitude(c).value.coef >= 0 && Magnitude(c).value.exp <= 0
  {
    match PercentOf(text)
    case None =>
    case Some(c) =>
      NumberIsPlain(text[|c.sign|..]);
  }

  lemma NumberIsPlain(body: string)
    ensures var d := ReadUnsigned(RemoveCommas(body[..NumberLength(body)]));
      d.Some? ==> d.value.coef >= 0 && d.value.exp <= 0
  {
    hide RemoveCommas, NumberRun, Leading, AllDigits;
    var r, n := NumberRun(body), NumberLength(body);
    RunIsRun(body, r);
    var whole := RemoveCommas(body[..r]);
    CommasLeaveDigits(body[..r]);
    if n > r {
      var frac := body[r + 1..][..Leading(body[r + 1..])];
      assert body[..n] == body[..r] + ("." + frac);
      RemoveCommasConcat(body[..r], "." + frac);
      RemoveCommasConcat(".", frac);
      NoCommas(".");
      NoComma(frac);
      NoCommas(frac);
      assert "." + frac + "" == "." + frac;
      PlainWithPoint(whole, frac);
    } else {
      assert whole + "" == whole;
      PlainWhole(whole);
    }
  }

  lemma NoComma(s: string)
    requires AllDigits(s)
    ensures ',' !in s
  {
  }

  lemma PlainWhole(whole: string)
    requires AllDigits(whole)
    ensures var d := ReadUnsigned(whole); d.Some? ==> d.value.coef >= 0 && d.value.exp <= 0
  {
    hide AllDigits, Leading;
    LeadingRun(whole, "");
    assert whole + "" == whole;
  }

  lemma PlainWithPoint(whole: string, frac: string)
    requires AllDigits(whole) && AllDigits(frac)
    ensures var d := ReadUnsigned(whole + ("." + frac)); d.Some? ==> d.value.coef >= 0 && d.value.exp <= 0
  {
    hide AllDigits, Leading;
    LeadingRun(whole, "." + frac);
    LeadingRun(frac, "");
    assert frac + "" == frac;
    assert ("." + frac)[1..] == frac;
  }

  function WrittenPercent(text: string): Option<Decimal> {
    match PercentOf(text)
    case None => None
    case Some(c) =>
      match Magnitude(c)
      case None => None
      case Some(d) => Some(Decimal(if c.sign != "" then -d.coef else d.coef, d.exp))
  }

  /** Reads a displayed percentage. */
  function ReadPercent(shown: string): Option<Decimal> {
    if shown != "" && shown[|shown| - 1] == '%' then Read(shown[..|shown| - 1]) else None
  }

  lemma DisplayKeepsValue(negative: bool, coef: nat, k: nat, decimals: nat)
    ensures var back := ReadPercent(Display(negative, coef, k, decimals).0);
      back.Some? && Value(back.value) == Value(Decimal(SignOf(negative, coef), 0 - k))
  {
    hide Read, Fixed, Str, Pow10, Value;
    if k > decimals {
      StrReadsBack(negative, coef, k);
      DropPercent(Str(negative, coef, k));
    } else {
      var n := decimals - k;
      FixedReadsBack(negative, coef * Pow10(n), decimals);
      DropPercent(Fixed(negative, coef * Pow10(n), decimals));
      SignedProduct(negative, coef, Pow10(n));
      Shift(SignOf(negative, coef), 0 - decimals, n);
    }
  }

  /** Whatever the column's places, a percent cell is shown with the value it was written with. */
  lemma PercentKeepsValue(raw: string, decimals: nat)
    requires WrittenPercent(Joined(raw)).Some?
    ensures var back := ReadPercent(FormatPercent(raw, decimals).0);
      back.Some? && Value(back.value) == Value(WrittenPercent(Joined(raw)).value)
  {
    hide ReadPercent, Magnitude, Joined, Display, Value, PercentOf;
    var text := Joined(raw);
    assert text != "" by { EmptyIsNoPercent(); }
    MagnitudeIsPlain(text);
    match PercentOf(text)
    case None =>
    case Some(c) =>
      var d := Magnitude(c).value;
      DisplayKeepsValue(c.sign != "", Abs(d.coef), Places(d), decimals);
  }

  lemma EmptyIsNoPercent()
    ensures PercentOf("").None?
  {
  }

  lemma DropPercent(s: string)
    ensures (s + "%")[..|s + "%"| - 1] == s
  {
  }

  lemma SignedProduct(negative: bool, c: nat, p: nat)
    ensures SignOf(negative, c * p) == SignOf(negative, c) * p
  {
  }

  lemma DisplayPlaces(negative: bool, coef: nat, k: nat, decimals: nat)
    ensures var back := ReadPercent(Display(negative, coef, k, decimals).0);
      back.Some? && back.value.exp == 0 - if k > decimals then k else decimals
  {
    hide Read, Fixed, Str, Pow10;
    if k > decimals {
      StrReadsBack(negative, coef, k);
      DropPercent(Str(negative, coef, k));
    } else {
      FixedReadsBack(negative, coef * Pow10(decimals - k), decimals);
      DropPercent(Fixed(negative, coef * Pow10(decimals - k), decimals));
    }
  }

  /** The cell is shown with so many places. */
  ghost predicate ShownWith(raw: string, decimals: nat, places: nat) {
    var back := ReadPercent(FormatPercent(raw, decimals).0);
    back.Some? && back.value.exp == 0 - places
  }

  predicate Readable(raw: string) { WrittenPercent(Joined(raw)).Some? }

  function WrittenPlaces(raw: string): nat
    requires Readable(raw)
  {
    Places(WrittenPercent(Joined(raw)).value)
  }

  /** Signed with U+2212, which `Decimal` does not take for a sign. */
  predicate OddMinus(raw: string)
    requires Readable(raw)
  {
    PercentOf(Joined(raw)).value.sign == "\U{2212}"
  }

  lemma CellPlaces(raw: string, decimals: nat)
    requires Readable(raw)
    ensures ShownWith(raw, decimals, decimals) <==> WrittenPlaces(raw) <= decimals
    ensures PlacesOf(raw) == if OddMinus(raw) then 0 else WrittenPlaces(raw)
  {
    hide ReadPercent, Magnitude, Joined, Display, PercentOf;
    var text := Joined(raw);
    assert text != "" by { EmptyIsNoPercent(); }
    match PercentOf(text)
    case None =>
    case Some(c) =>
      var d := Magnitude(c).value;
      DisplayPlaces(c.sign != "", Abs(d.coef), Places(d), decimals);
  }

  /** A cell that cannot be read contributes no places. */
  lemma UnreadablePlaces(raw: string)
    requires !Readable(raw)
    ensures PlacesOf(raw) == 0
  {
  }

  /** Another cell, not signed with U+2212, that was written with at least as many places. */
  predicate Matched(values: seq<string>, i: nat)
    requires i < |values| && Readable(values[i])
  {
    exists j :: 0 <= j < |values| && Readable(values[j]) && !OddMinus(values[j])
                && WrittenPlaces(values[j]) >= WrittenPlaces(values[i])
  }

  lemma MatchedIff(values: seq<string>, i: nat)
    requires i < |values| && Readable(values[i]) && WrittenPlaces(values[i]) > 0
    ensures WrittenPlaces(values[i]) <= MaxPlaces(values) <==> Matched(values, i)
  {
    hide Readable, WrittenPlaces, OddMinus, PlacesOf, MaxPlaces, ShownWith;
    MaxPlacesIsMax(values);
    forall j | 0 <= j < |values|
      ensures PlacesOf(values[j]) == if Readable(values[j]) && !OddMinus(values[j]) then WrittenPlaces(values[j]) else 0
    {
      if Readable(values[j]) {
        CellPlaces(values[j], 0);
      } else {
        UnreadablePlaces(values[j]);
      }
    }
  }

  /**
   * All the percentages of a column are shown with the same places, the column's, exactly when
   * every cell signed with U+2212 that has places is matched by a cell with another sign or none.
   */
  lemma ColumnPlacesIff(values: seq<string>)
    ensures (forall i :: 0 <= i < |values| && Readable(values[i]) ==>
               ShownWith(values[i], MaxPlaces(values), MaxPlaces(values)))
       <==> (forall i :: 0 <= i < |values| && Readable(values[i]) && OddMinus(values[i]) && WrittenPlaces(values[i]) > 0 ==>
               Matched(values, i))
  {
    hide Readable, WrittenPlaces, OddMinus, MaxPlaces, ShownWith, Matched, PlacesOf;
    forall i | 0 <= i < |values| && Readable(values[i])
      ensures ShownWith(values[i], MaxPlaces(values), MaxPlaces(values))
         <==> (OddMinus(values[i]) && WrittenPlaces(values[i]) > 0 ==> Matched(values, i))
    {
      CellPlaces(values[i], MaxPlaces(values));
      MaxPlacesIsMax(values);
      if WrittenPlaces(values[i]) > 0 {
        MatchedIff(values, i);
      }
    }
  }

  /** A column of one such cell has no places, and its cell is shown with one. */
  lemma LonelyOddMinus()
    ensures var column := ["\U{2212}1.5%"];
            && Readable(column[0]) && WrittenPlaces(column[0]) == 1
            && MaxPlaces(column) == 0 && !ShownWith(column[0], MaxPlaces(column), MaxPlaces(column))
  {
    var raw := "\U{2212}1.5%";
    OddMinusRead();
    CellPlaces(raw, 0);
    assert [raw][..0] == [];
    hide PlacesOf;
    assert MaxPlaces([raw]) == PlacesOf(raw);
  }

  lemma CaptureOf(sign: char, number: string)
    requires IsMinus(sign) && number != "" && NumberLength(number + "%") == |number|
    ensures PercentOf([sign] + (number + "%")) == Some(Capture([sign], number))
  {
    hide NumberLength;
    var text, body := [sign] + (number + "%"), number + "%";
    assert text[..1] == [sign] && text[1..] == body;
    assert body[..|number|] == number && body[|number|..] == "%";
    assert TrimLeft("%") == "%";
  }

  lemma OddMinusRead()
    ensures var raw := "\U{2212}1.5%"; Readable(raw) && OddMinus(raw) && WrittenPlaces(raw) == 1
  {
    hide Joined, ReadUnsigned, NumberLength, RemoveCommas, PercentOf;
    SolidStays("\U{2212}1.5%");
    OddMinusCaptured();
    NoCommas("1.5");
    NumberRead();
  }

  lemma OddMinusCaptured()
    ensures PercentOf("\U{2212}1.5%") == Some(Capture("\U{2212}", "1.5"))
  {
    hide NumberLength, PercentOf;
    LengthRead();
    assert "1.5" + "%" == "1.5%" && ['\U{2212}'] + "1.5%" == "\U{2212}1.5%";
    CaptureOf('\U{2212}', "1.5");
  }

  lemma LengthRead()
    ensures NumberLength("1.5%") == 3
  {
    assert "1.5%"[1..] == ".5%" && "1.5%"[2..] == "5%" && "5%"[1..] == "%";
    assert NumberRun("1.5%") == 1;
    assert Leading("5%") == 1;
  }

  lemma NumberRead()
    ensures ReadUnsigned("1.5").Some? && ReadUnsigned("1.5").value.exp == -1
  {
    assert AllDigits("1") && AllDigits("5");
    LeadingRun("1", ".5");
    LeadingRun("5", "");
    assert "1" + ".5" == "1.5" && "5" + "" == "5" && ".5"[1..] == "5";
  }

  lemma {:induction false} SolidStays(s: string)
    requires forall i :: 0 <= i < |s| ==> !IsSpace(s[i])
    ensures Joined(s) == s && Collapsed(s) == s
  {
    if s != "" {
      SolidStays(s[1..]);
    }
  }
}
