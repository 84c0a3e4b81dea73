/** The date and period part of src/tybot/canvas_harness.py, character by character. */
module Dates {
  import opened Basics
  import opened Digits
  import opened Markdown
  import opened Percent
  import opened Harness

  const PERIOD_SEP := " ~ "

  // ---- One date --------------------------------------------------------------------------------------------

  /** The pieces a pattern captured; `last` is the day or the week, if it has one. */
  datatype Shape = Shape(year: string, month: string, last: string)

  predicate AfterYear(c: char) { c == '.' || c == '/' || c == '년' || c == '-' }

  predicate AfterMonth(c: char) { c == '.' || c == '/' || c == '월' || c == '-' }

  function OneOrTwo(s: string): (k: nat)
    ensures k <= 2 && k <= |s| && AllDigits(s[..k])
  {
    var n := Leading(s);
    assert AllDigits(s[..if n > 2 then 2 else n]);
    if n > 2 then 2 else n
  }

  predicate StartsWithDigits(s: string, n: nat) { Leading(s) >= n }

  /** `_FULL_DATE`, and with two digits for the year `_SHORT_DATE`. */
  function DayShape(s: string, yearDigits: nat): Option<Shape>
  {
    if !StartsWithDigits(s, yearDigits) then None
    else
      var a := TrimLeft(s[yearDigits..]);
      if a == "" || !AfterYear(a[0]) then None
      else
        var b := TrimLeft(a[1..]);
        var k := OneOrTwo(b);
        var c := TrimLeft(b[k..]);
        if k == 0 || c == "" || !AfterMonth(c[0]) then None
        else
          var d := TrimLeft(c[1..]);
          var l := OneOrTwo(d);
          var e := TrimLeft(d[l..]);
          if l == 0 || (e != "" && e != "일") then None
          else Some(Shape(s[..yearDigits], b[..k], d[..l]))
  }

  /** What follows a four-digit year and an optional separator. */
  function AfterFullYear(s: string): Option<string> {
    if !StartsWithDigits(s, 4) then None
    else
      var a := TrimLeft(s[4..]);
      Some(if a != "" && AfterYear(a[0]) then TrimLeft(a[1..]) else a)
  }

  function SkipMonthWord(s: string): string {
    var a := TrimLeft(s);
    if a != "" && a[0] == '월' then TrimLeft(a[1..]) else a
  }

  /** `_MONTH_END` */
  function EndShape(s: string): Option<Shape> {
    match AfterFullYear(s)
    case None => None
    case Some(b) =>
      var k := OneOrTwo(b);
      var c := SkipMonthWord(b[k..]);
      if k > 0 && (c == "말" || c == "말일" || c == "말경") then Some(Shape(s[..4], b[..k], "")) else None
  }

  /** `_MONTH_ONLY` */
  function MonthShape(s: string): Option<Shape> {
    match AfterFullYear(s)
    case None => None
    case Some(b) =>
      var k := OneOrTwo(b);
      if k > 0 && TrimLeft(b[k..]) == "월" then Some(Shape(s[..4], b[..k], "")) else None
  }

  /** A week number and its word, to the end of the text. */
  function WeekDigit(s: string): Option<string> {
    var c := SkipMonthWord(s);
    if Leading(c) == 0 then None
    else
      var d := TrimLeft(c[1..]);
      if d == "" || d[0] != '주' then None
      else
        var e := TrimLeft(d[1..]);
        if e == "" || e == "차" then Some(c[..1]) else None
  }

  /** `_MONTH_WEEK`: a month of two digits is tried before one of one digit. */
  function WeekShape(s: string): Option<Shape> {
    match AfterFullYear(s)
    case None => None
    case Some(b) =>
      if Leading(b) >= 2 && WeekDigit(b[2..]).Some? then Some(Shape(s[..4], b[..2], WeekDigit(b[2..]).value))
      else if Leading(b) >= 1 && WeekDigit(b[1..]).Some? then Some(Shape(s[..4], b[..1], WeekDigit(b[1..]).value))
      else None
  }

  /** `{n:02d}` */
  function TwoDigits(n: nat): string { if n < 10 then "0" + OfNat(n) else OfNat(n) }

  function NumberOf(s: string): nat { if AllDigits(s) then ToNat(s) else 0 }

  function DayText(year: string, f: Shape): string {
    year + "-" + TwoDigits(NumberOf(f.month)) + "-" + TwoDigits(NumberOf(f.last))
  }

  function MonthText(f: Shape): string { f.year + "-" + TwoDigits(NumberOf(f.month)) }

  /** The hint names the century of a two-digit year only if it ends in that year. */
  predicate HintFor(hint: string, year: string) {
    var h := Trim(hint);
    |h| == 4 && AllDigits(h) && h[2..] == year
  }

  /** One date. The precision is never raised and no century is made up. */
  function FormatDate(raw: string, hint: string): (string, Status) {
    var text := Markdown.Joined(raw);
    if text == "" then (ABSENT, Exact)
    else if DayShape(text, 4).Some? then (DayText(DayShape(text, 4).value.year, DayShape(text, 4).value), Converted)
    else if EndShape(text).Some? then (MonthText(EndShape(text).value) + " 말", Converted)
    else if WeekShape(text).Some? then
      (MonthText(WeekShape(text).value) + " " + WeekShape(text).value.last + "주차", Converted)
    else if MonthShape(text).Some? then (MonthText(MonthShape(text).value), Converted)
    else if DayShape(text, 2).Some? then
      var f := DayShape(text, 2).value;
      if HintFor(hint, f.year) then (DayText(Trim(hint), f), Converted) else (text, Unresolved)
    else (text, Exact)
  }

  // ---- A period --------------------------------------------------------------------------------------------

  /** Length of the run of spaces a text begins with. */
  function Spaces(s: string): (n: nat)
    ensures n <= |s| && forall i :: 0 <= i < n ==> IsSpace(s[i])
  {
    if s == "" || !IsSpace(s[0]) then 0 else 1 + Spaces(s[1..])
  }

  /** Length of a separator word at the start of a text. */
  function WordLength(s: string): (n: nat)
    ensures n <= |s| && (n > 0 ==> s[n - 1] != '\\')
  {
    if s == "" then 0
    else if s[0] == '~' || s[0] == '–' || s[0] == '—' then 1
    else if |s| >= 2 && s[0] == '부' && s[1] == '터' then 2
    else if |s| >= 2 && (s[0] == 't' || s[0] == 'T') && (s[1] == 'o' || s[1] == 'O') then 2
    else 0
  }

  predicate DateFollows(s: string) {
    || (|s| > 4 && Leading(s) >= 4 && AfterYear(s[4]))
    || (|s| > 2 && Leading(s) >= 2 && AfterYear(s[2]) && s[2] != '-')
  }

  /** Length of the separator at position `i`, 0 if there is none. */
  function SeparatorAt(s: string, i: nat): (n: nat)
    requires i < |s|
    ensures i + n <= |s| && (n > 0 ==> s[i + n - 1] != '\\')
  {
    var lead := Spaces(s[i..]);
    var rest := s[i + lead..];
    var w := WordLength(rest);
    if w > 0 then
      var after := Spaces(rest[w..]);
      assert forall k :: 0 <= k < after ==> IsSpace(rest[w..][k]);
      lead + w + after
    else if lead > 0 && rest != "" && rest[0] == '-' && Spaces(rest[1..]) > 0 then
      var after := Spaces(rest[1..]);
      assert IsSpace(rest[1..][after - 1]);
      lead + 1 + after
    else if i > 0 && IsDigit(s[i - 1]) && s[i] == '-' && DateFollows(s[i + 1..]) then 1
    else 0
  }

  /** `_PERIOD_SPLIT.split`, with a part open since `start`. */
  function SplitFrom(s: string, start: nat, i: nat): seq<string>
    requires start <= i <= |s|
    decreases |s| - i
  {
    if i == |s| then [s[start..]]
    else
      var n := SeparatorAt(s, i);
      if n > 0 then [s[start..i]] + SplitFrom(s, i + n, i + n) else SplitFrom(s, start, i + 1)
  }

  function PeriodParts(s: string): seq<string> { SplitFrom(s, 0, 0) }

  function NonEmpty(parts: seq<string>): seq<string> {
    if parts == [] then [] else (if parts[0] != "" then [parts[0]] else []) + NonEmpty(parts[1..])
  }

  predicate Opens(c: char) { c == '(' || c == '（' }

  predicate Closes(c: char) { c == ')' || c == '）' }

  /** Position of the first opening bracket. */
  function FirstOpen(s: string): (n: nat)
    ensures n <= |s| && (n < |s| ==> Opens(s[n]))
  {
    if s == "" || Opens(s[0]) then 0 else 1 + FirstOpen(s[1..])
  }

  /** A condition in brackets at the end is kept apart: what is before it, and the condition itself. */
  function Bracketed(text: string): (string, string) {
    var q := FirstOpen(text);
    if text != "" && Closes(text[|text| - 1]) && q < |text| then (Trim(text[..q]), " " + Trim(text[q..]))
    else (text, "")
  }

  /** One period: two dates, or the text as it is. A missing side is not filled in. */
  function FormatPeriod(raw: string, hint: string): (string, Status) {
    var text := Markdown.Joined(raw);
    if text == "" then (ABSENT, Exact)
    else
      var (body, tail) := Bracketed(text);
      var parts := NonEmpty(PeriodParts(body));
      if |parts| != 2 then (Trim(body + tail), if parts == [] then Exact else Unresolved)
      else
        var start, end := FormatDate(parts[0], hint), FormatDate(parts[1], hint);
        (start.0 + PERIOD_SEP + end.0 + tail,
         if start.1 == Unresolved || end.1 == Unresolved then Unresolved else Converted)
  }

  /** The first of exactly two parts, as the column test takes it. */
  function PeriodStart(v: string): Option<string> {
    var parts := PeriodParts(v);
    if |parts| == 2 then Some(parts[0]) else None
  }

  /** The module's own formatters. */
  const TYBOT_FORMATS: Formats := Formats(FormatDate, FormatPeriod, PeriodStart)
}
