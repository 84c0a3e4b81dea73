/**
 * The numbers of a cell as they are written: digits and commas, then perhaps a point and digits.
 * What the code's patterns find in a text, said of the text itself (src/tybot/canvas_harness.py).
 */
module WrittenNumbers {
  import opened Basics
  import opened Decimals
  import opened Digits
  import opened DecimalText
  import opened Markdown
  import opened Percent
  import opened Harness
  import opened PercentCheck

  predicate DigitsAndCommas(s: string) { forall i :: 0 <= i < |s| ==> IsDigit(s[i]) || s[i] == ',' }

  predicate PointAndDigits(s: string) { |s| > 1 && s[0] == '.' && AllDigits(s[1..]) }

  /** `run` and then `places`, which may be missing. */
  predicate IsNumber(run: string, places: string) {
    run != "" && DigitsAndCommas(run) && (places == "" || PointAndDigits(places))
  }

  function PlacesIn(places: string): nat { if places == "" then 0 else |places| - 1 }

  /** The number written, without its sign: all its digits, as many of them behind the point as stand there. */
  function Written(run: string, places: string): Decimal
    requires AllDigits(DigitsOf(run + places))
  {
    Decimal(ToNat(DigitsOf(run + places)), 0 - PlacesIn(places))
  }

  lemma {:induction false} OnlyDigits(s: string)
    ensures AllDigits(DigitsOf(s))
  {
    if s != "" {
      OnlyDigits(s[1..]);
    }
  }

  lemma {:induction false} RunStands(run: string, rest: string)
    requires DigitsAndCommas(run) && (rest == "" || (!IsDigit(rest[0]) && rest[0] != ','))
    ensures NumberRun(run + rest) == |run|
  {
    if run == "" {
      assert run + rest == rest;
    } else {
      TailOfConcat(run, rest);
      RunStands(run[1..], rest);
    }
  }

  /** What follows the number cannot be taken for more of it. */
  predicate Stops(rest: string) { rest == "" || (!IsDigit(rest[0]) && rest[0] != ',' && rest[0] != '.') }

  /** The pattern takes a number written so, to its end. */
  lemma NumberStands(run: string, places: string, rest: string)
    requires IsNumber(run, places) && Stops(rest)
    ensures var body := run + places + rest;
            && NumberLength(body) == |run + places| && body[..|run + places|] == run + places && body[|run + places|..] == rest
  {
    hide Leading, AllDigits, DigitsAndCommas;
    var body := run + places + rest;
    assert body == run + (places + rest);
    RunStands(run, places + rest);
    if places != "" {
      assert places + rest == "." + (places[1..] + rest);
      assert body[|run| + 1..] == places[1..] + rest;
      LeadingRun(places[1..], rest);
    }
  }

  lemma {:induction false} RunHasOnlyThose(s: string)
    ensures DigitsAndCommas(s[..NumberRun(s)])
  {
    if s != "" && (IsDigit(s[0]) || s[0] == ',') {
      RunHasOnlyThose(s[1..]);
      assert s[..NumberRun(s)] == [s[0]] + s[1..][..NumberRun(s[1..])];
    }
  }

  /** What the pattern takes is a number written so. */
  lemma NumberTaken(body: string) returns (run: string, places: string)
    requires NumberLength(body) > 0
    ensures IsNumber(run, places) && body[..NumberLength(body)] == run + places
  {
    hide DigitsAndCommas;
    var r, n := NumberRun(body), NumberLength(body);
    RunHasOnlyThose(body);
    run, places := body[..r], body[r..n];
    if n > r {
      assert places[1..] == body[r + 1..][..Leading(body[r + 1..])];
    }
  }

  /** Its decimal, which is there if it has a digit. */
  lemma NumberReads(run: string, places: string)
    requires IsNumber(run, places)
    ensures AllDigits(DigitsOf(run + places))
    ensures var text := RemoveCommas(run + places);
            && ReadUnsigned(text) == (if DigitsOf(run + places) == "" then None else Some(Written(run, places)))
            && Read(text) == ReadUnsigned(text)
  {
    hide RemoveCommas, DigitsOf, AllDigits, ReadUnsigned, Leading, DigitsAndCommas, ToNat, NumberRun, PointAndDigits;
    NumbersHaveNoSign(run, places);
    NumberStands(run, places, "");
    assert run + places + "" == run + places;
    NumberParts(run + places);
    RunOf(run, places);
    var number := run + places;
    assert number[..|number|] == number;
    OnlyDigits(number);
    BothDigits(WholeOf(number), FracOf(number));
    assert |FracOf(number)| == PlacesIn(places);
    NoSignIn(number);
  }

  lemma RunOf(run: string, places: string)
    requires IsNumber(run, places)
    ensures NumberRun(run + places) == |run| && (places == "" || places[0] == '.')
    ensures (run + places)[|run|..] == places
  {
    RunStands(run, places);
  }

  lemma {:induction false} NothingNew(s: string)
    ensures forall c :: c in RemoveCommas(s) ==> c in s
  {
    if s != "" {
      NothingNew(s[1..]);
      assert forall c :: c in s[1..] ==> c in s;
    }
  }

  lemma NoSignIn(number: string)
    requires '-' !in number && '+' !in number
    ensures Read(RemoveCommas(number)) == ReadUnsigned(RemoveCommas(number))
  {
    hide RemoveCommas, ReadUnsigned;
    var text := RemoveCommas(number);
    NothingNew(number);
    assert text != "" ==> text[0] in text;
  }

  lemma NumbersHaveNoSign(run: string, places: string)
    requires IsNumber(run, places)
    ensures '-' !in run + places && '+' !in run + places
  {
    assert forall i :: 0 < i < |places| ==> places[i] == places[1..][i - 1];
  }
}
