/**
 * The dates as people write them and what becomes of each of them, character by character
 * (src/tybot/canvas_harness.py).
 */
module DatesText {
  import opened Basics
  import opened Digits
  import opened DecimalText
  import opened Markdown
  import opened Percent
  import opened PercentCheck
  import opened TableText
  import opened Dates
  import opened DatesFacts

  predicate OneOrTwoDigits(s: string) { AllDigits(s) && 1 <= |s| <= 2 }

  /** A number of one digit gets a zero in front. */
  function InTwo(s: string): string { if |s| == 1 then "0" + s else s }

  /** Nothing that could be one more digit. */
  predicate NoMoreDigits(rest: string) { rest == "" || !IsDigit(rest[0]) }

  /** A separator behind the year, or none. */
  predicate YearMark(mark: string) { mark == "" || mark == "." || mark == "/" || mark == "년" || mark == "-" }

  predicate MonthWord(word: string) { word == "" || word == "월" }

  // ---- Small steps -----------------------------------------------------------------------------

  lemma TakesDigits(d: string, rest: string)
    requires AllDigits(d) && NoMoreDigits(rest)
    ensures Leading(d + rest) == |d| && (d + rest)[..|d|] == d && (d + rest)[|d|..] == rest
    ensures |d| <= 2 ==> OneOrTwo(d + rest) == |d|
  {
    LeadingRun(d, rest);
  }

  lemma PastGap(gap: string, rest: string)
    requires AllSpace(gap) && (rest == "" || !IsSpace(rest[0]))
    ensures TrimLeft(gap + rest) == rest
  {
    LeftSpaces(gap, rest);
  }

  lemma GapIsNoDigit(gap: string, rest: string)
    requires AllSpace(gap) && NoMoreDigits(rest)
    ensures NoMoreDigits(gap + rest)
  {
    if gap != "" {
      Harness.SpaceIsNoDigit(gap[0]);
    }
  }

  lemma DigitIsInk(d: string, rest: string)
    requires AllDigits(d) && d != ""
    ensures d + rest != "" && !IsSpace((d + rest)[0]) && IsDigit((d + rest)[0])
  {
    Harness.SpaceIsNoDigit(d[0]);
  }

  /** Written in two digits. */
  lemma InTwoDigits(s: string)
    requires OneOrTwoDigits(s)
    ensures TwoDigits(NumberOf(s)) == InTwo(s)
  {
    hide ToNat, OfNat, Zeros;
    var n := ToNat(s);
    TwoDigitsAreTwo(s);
    ReadBack(n);
    LeadingZeros(1, OfNat(n));
    LeadingZeros(1, s);
    OneZero();
    assert AllDigits(InTwo(s)) && |InTwo(s)| == 2;
    SameDigits(TwoDigits(n), InTwo(s));
  }

  lemma OneZero()
    ensures Zeros(1) == "0"
  {
  }

  // ---- A day -----------------------------------------------------------------------------------

  /** Year, month and day with their separators, and spaces anywhere around those. */
  predicate DayWritten(text: string, year: string, a: string, month: string, b: string, day: string, gaps: seq<string>)
  {
    && |gaps| == 5 && (forall i :: 0 <= i < 5 ==> AllSpace(gaps[i]))
    && AllDigits(year) && OneOrTwoDigits(month) && OneOrTwoDigits(day)
    && (a == "." || a == "/" || a == "년" || a == "-") && (b == "." || b == "/" || b == "월" || b == "-")
    && (text == year + (gaps[0] + (a + (gaps[1] + (month + (gaps[2] + (b + (gaps[3] + (day + gaps[4]))))))))
        || text == year + (gaps[0] + (a + (gaps[1] + (month + (gaps[2] + (b + (gaps[3] + (day + (gaps[4] + "일"))))))))))
  }

  lemma DayTail(day: string, gap: string, end: string)
    requires OneOrTwoDigits(day) && AllSpace(gap) && (end == "" || end == "일")
    ensures var d := day + (gap + end);
            OneOrTwo(d) == |day| && d[..|day|] == day && TrimLeft(d[|day|..]) == end && d != "" && !IsSpace(d[0])
  {
    hide AllSpace, TrimLeft, Leading;
    GapIsNoDigit(gap, end);
    TakesDigits(day, gap + end);
    PastGap(gap, end);
    DigitIsInk(day, gap + end);
  }

  /** What follows the year of a day: a separator, the month, a separator, the day. */
  lemma DayRest(a: string, g1: string, month: string, g2: string, b: string, g3: string, d: string)
    requires (a == "." || a == "/" || a == "년" || a == "-") && (b == "." || b == "/" || b == "월" || b == "-")
    requires OneOrTwoDigits(month) && AllSpace(g1) && AllSpace(g2) && AllSpace(g3) && d != "" && !IsSpace(d[0])
    ensures var rest := a + (g1 + (month + (g2 + (b + (g3 + d)))));
            && rest[0] == a[0] && AfterYear(rest[0]) && !IsSpace(rest[0])
            && var m := TrimLeft(rest[1..]);
               OneOrTwo(m) == |month| && m[..|month|] == month
               && var c := TrimLeft(m[|month|..]); c != "" && AfterMonth(c[0]) && TrimLeft(c[1..]) == d
  {
    hide AllSpace, TrimLeft, Leading;
    var c := b + (g3 + d);
    assert c[0] == b[0] && c[1..] == g3 + d;
    GapIsNoDigit(g2, c);
    TakesDigits(month, g2 + c);
    PastGap(g2, c);
    PastGap(g3, d);
    DigitIsInk(month, g2 + c);
    PastGap(g1, month + (g2 + c));
    var rest := a + (g1 + (month + (g2 + c)));
    assert rest[0] == a[0] && rest[1..] == g1 + (month + (g2 + c));
  }

  /** A text of this form is taken for a day, whatever the length of its year. */
  lemma DayIsRead(text: string, year: string, a: string, month: string, b: string, day: string, gaps: seq<string>)
    requires DayWritten(text, year, a, month, b, day, gaps)
    ensures DayShape(text, |year|) == Some(Shape(year, month, day)) && Leading(text) == |year|
  {
    hide AllSpace, TrimLeft, Leading, OneOrTwo, AllDigits;
    var end := if text == year + (gaps[0] + (a + (gaps[1] + (month + (gaps[2] + (b + (gaps[3] + (day + gaps[4])))))))) then "" else "일";
    assert gaps[4] + "" == gaps[4];
    var d := day + (gaps[4] + end);
    DayTail(day, gaps[4], end);
    DayRest(a, gaps[1], month, gaps[2], b, gaps[3], d);
    var rest := a + (gaps[1] + (month + (gaps[2] + (b + (gaps[3] + d)))));
    PastGap(gaps[0], rest);
    NoDigit(a);
    GapIsNoDigit(gaps[0], rest);
    TakesDigits(year, gaps[0] + rest);
    assert text == year + (gaps[0] + rest);
  }

  lemma NoDigit(a: string)
    requires a == "." || a == "/" || a == "년" || a == "-"
    ensures !IsDigit(a[0])
  {
  }

  /** A full date is shown in figures, year, month and day, two digits each for these. */
  lemma FullDateIsShown(raw: string, hint: string, year: string, a: string, month: string, b: string, day: string, gaps: seq<string>)
    requires DayWritten(Markdown.Joined(raw), year, a, month, b, day, gaps) && |year| == 4
    ensures FormatDate(raw, hint) == (year + "-" + InTwo(month) + "-" + InTwo(day), Converted)
  {
    hide Markdown.Joined, DayShape, TwoDigits, NumberOf, InTwo;
    DayIsRead(Markdown.Joined(raw), year, a, month, b, day, gaps);
    InTwoDigits(month);
    InTwoDigits(day);
  }

  /** A date with a two-digit year is completed from a hint of four digits that ends in it, and else left as it is. */
  lemma ShortDateIsShown(raw: string, hint: string, year: string, a: string, month: string, b: string, day: string, gaps: seq<string>)
    requires DayWritten(Markdown.Joined(raw), year, a, month, b, day, gaps) && |year| == 2
    ensures var h := Trim(hint);
            FormatDate(raw, hint)
            == if |h| == 4 && AllDigits(h) && h[2..] == year then (h + "-" + InTwo(month) + "-" + InTwo(day), Converted)
               else (Markdown.Joined(raw), Unresolved)
  {
    hide Markdown.Joined, TwoDigits, NumberOf, InTwo, Trim, AllDigits, DayWritten;
    var text := Markdown.Joined(raw);
    DayIsRead(text, year, a, month, b, day, gaps);
    TwoDigitYear(text);
    hide DayShape, EndShape, WeekShape, MonthShape, Leading;
    MonthAndDay(text, year, a, month, b, day, gaps);
    InTwoDigits(month);
    InTwoDigits(day);
  }

  lemma MonthAndDay(text: string, year: string, a: string, month: string, b: string, day: string, gaps: seq<string>)
    requires DayWritten(text, year, a, month, b, day, gaps)
    ensures OneOrTwoDigits(month) && OneOrTwoDigits(day)
  {
  }

  lemma TwoDigitYear(text: string)
    requires Leading(text) < 4
    ensures DayShape(text, 4).None? && EndShape(text).None? && WeekShape(text).None? && MonthShape(text).None?
    ensures Leading(text) > 0 ==> text != ""
  {
    hide TrimLeft, OneOrTwo;
  }

  // ---- A month, its end, a week of it --------------------------------------------------------------

  /** A year of four digits and a month, a separator between them or not, and what stands behind the month. */
  predicate BeginsWithMonth(text: string, year: string, a: string, month: string, rest: string, gaps: seq<string>) {
    && |gaps| == 2 && AllSpace(gaps[0]) && AllSpace(gaps[1]) && |year| == 4 && AllDigits(year)
    && YearMark(a) && OneOrTwoDigits(month)
    && text == year + (gaps[0] + (a + (gaps[1] + (month + rest))))
  }

  predicate MonthWritten(text: string, year: string, a: string, month: string, rest: string, gaps: seq<string>) {
    BeginsWithMonth(text, year, a, month, rest, gaps) && NoMoreDigits(rest)
  }

  /** A separator behind a month and a day behind that, to the end. */
  predicate DayFollows(c: string) {
    && c != "" && AfterMonth(c[0])
    && var d := TrimLeft(c[1..]);
       var e := TrimLeft(d[OneOrTwo(d)..]);
       OneOrTwo(d) > 0 && (e == "" || e == "일")
  }

  lemma MonthIsRead(text: string, year: string, a: string, month: string, rest: string, gaps: seq<string>)
    requires MonthWritten(text, year, a, month, rest, gaps)
    ensures text[..4] == year && Leading(text) >= 4
    ensures AfterFullYear(text) == Some(month + rest)
    ensures Leading(month + rest) == OneOrTwo(month + rest) == |month|
    ensures (month + rest)[..|month|] == month && (month + rest)[|month|..] == rest
    ensures DayShape(text, 4).Some? ==> DayFollows(TrimLeft(rest))
  {
    hide AllSpace, TrimLeft, Leading, AllDigits;
    var behind := gaps[0] + (a + (gaps[1] + (month + rest)));
    TakesDigits(month, rest);
    DigitIsInk(month, rest);
    PastGap(gaps[1], month + rest);
    YearDigits(year, behind);
    if a == "" {
      assert a + (gaps[1] + (month + rest)) == gaps[1] + (month + rest);
      Gaps(gaps[0], gaps[1], month + rest);
    } else {
      var marked := a + (gaps[1] + (month + rest));
      NoDigit(a);
      assert marked[0] == a[0] && marked[1..] == gaps[1] + (month + rest);
      PastGap(gaps[0], marked);
    }
  }

  lemma YearDigits(year: string, behind: string)
    requires |year| == 4 && AllDigits(year)
    ensures (year + behind)[..4] == year && (year + behind)[4..] == behind && Leading(year + behind) >= 4
  {
    AtLeast(year, behind);
  }

  lemma {:induction false} AtLeast(d: string, rest: string)
    requires AllDigits(d)
    ensures Leading(d + rest) >= |d|
  {
    if d != "" {
      TailOfConcat(d, rest);
      AtLeast(d[1..], rest);
    }
  }

  /** What may follow a month: spaces, the word for it or not, spaces, and then something else. */
  lemma PastMonthWord(g: string, word: string, h: string, tail: string)
    requires AllSpace(g) && AllSpace(h) && MonthWord(word)
    requires tail == "" || (!IsSpace(tail[0]) && tail[0] != '월')
    ensures SkipMonthWord(g + (word + (h + tail))) == tail
    ensures var c := TrimLeft(g + (word + (h + tail)));
            if word == "" then c == tail else c != "" && c[0] == '월' && TrimLeft(c[1..]) == tail
  {
    hide AllSpace, TrimLeft;
    PastGap(h, tail);
    if word == "" {
      assert word + (h + tail) == h + tail;
      Gaps(g, h, tail);
    } else {
      PastGap(g, word + (h + tail));
      assert (word + (h + tail))[0] == '월' && (word + (h + tail))[1..] == h + tail;
    }
  }

  lemma Gaps(g: string, h: string, tail: string)
    requires AllSpace(g) && AllSpace(h) && (tail == "" || !IsSpace(tail[0]))
    ensures TrimLeft(g + (h + tail)) == tail
  {
    assert g + (h + tail) == (g + h) + tail;
    LeftSpaces(g + h, tail);
  }

  /** The end of a month keeps its word. */
  lemma MonthEndIsShown(raw: string, hint: string, year: string, a: string, month: string, g: string, word: string, h: string,
                        end: string, gaps: seq<string>)
    requires MonthWritten(Markdown.Joined(raw), year, a, month, g + (word + (h + end)), gaps)
    requires AllSpace(g) && AllSpace(h) && MonthWord(word) && (end == "말" || end == "말일" || end == "말경")
    ensures FormatDate(raw, hint) == (year + "-" + InTwo(month) + " 말", Converted)
  {
    hide Markdown.Joined, AllSpace, TrimLeft, Leading, TwoDigits, NumberOf, InTwo, AllDigits;
    var text, rest := Markdown.Joined(raw), g + (word + (h + end));
    MonthIsRead(text, year, a, month, rest, gaps);
    PastMonthWord(g, word, h, end);
    NoDigitsIn(end);
    InTwoDigits(month);
  }

  lemma NoDigitsIn(end: string)
    requires end != "" && end[0] == '말'
    ensures OneOrTwo(end) == 0 && !AfterMonth(end[0])
  {
  }

  /** A month alone. */
  lemma MonthIsShown(raw: string, hint: string, year: string, a: string, month: string, g: string, gaps: seq<string>)
    requires MonthWritten(Markdown.Joined(raw), year, a, month, g + "월", gaps) && AllSpace(g)
    ensures FormatDate(raw, hint) == (year + "-" + InTwo(month), Converted)
  {
    hide Markdown.Joined, AllSpace, TrimLeft, Leading, TwoDigits, NumberOf, InTwo, AllDigits;
    var text, rest := Markdown.Joined(raw), g + "월";
    NoneLeft();
    assert "월" + ("" + "") == "월";
    MonthIsRead(text, year, a, month, rest, gaps);
    PastMonthWord(g, "월", "", "");
    PastGap(g, "월");
    NoWeek(month, rest);
    InTwoDigits(month);
  }

  lemma NoneLeft()
    ensures AllSpace("") && OneOrTwo("") == 0 && Leading("") == 0
  {
  }

  /** A week: its number, its word, and an ending or none. */
  predicate WeekWritten(tail: string, week: string, k: string, l: string) {
    && |week| == 1 && AllDigits(week) && AllSpace(k) && AllSpace(l)
    && (tail == week + (k + ("주" + l)) || tail == week + (k + ("주" + (l + "차"))))
  }

  lemma WeekIsRead(tail: string, week: string, k: string, l: string)
    requires WeekWritten(tail, week, k, l)
    ensures tail != "" && !IsSpace(tail[0]) && IsDigit(tail[0]) && tail[0] != '월' && Leading(tail) == OneOrTwo(tail) == 1
    ensures tail[..1] == week
    ensures var d := TrimLeft(tail[1..]);
            d != "" && d[0] == '주' && d != "일" && (TrimLeft(d[1..]) == "" || TrimLeft(d[1..]) == "차")
  {
    hide AllSpace, TrimLeft, Leading;
    var end := if tail == week + (k + ("주" + l)) then "" else "차";
    assert l + "" == l;
    var d := "주" + (l + end);
    assert d[0] == '주' && d[1..] == l + end;
    PastGap(l, end);
    PastGap(k, d);
    GapIsNoDigit(k, d);
    TakesDigits(week, k + d);
    DigitIsInk(week, k + d);
  }

  /** A week of a month keeps its number and its word. */
  lemma WeekIsShown(raw: string, hint: string, year: string, a: string, month: string, g: string, word: string, h: string,
                    tail: string, week: string, k: string, l: string, gaps: seq<string>)
    requires MonthWritten(Markdown.Joined(raw), year, a, month, g + (word + (h + tail)), gaps)
    requires AllSpace(g) && AllSpace(h) && MonthWord(word) && WeekWritten(tail, week, k, l)
    ensures FormatDate(raw, hint) == (year + "-" + InTwo(month) + " " + week + "주차", Converted)
  {
    hide Markdown.Joined, AllSpace, TrimLeft, Leading, TwoDigits, NumberOf, InTwo, AllDigits, SkipMonthWord, WeekWritten;
    var text, rest := Markdown.Joined(raw), g + (word + (h + tail));
    MonthIsRead(text, year, a, month, rest, gaps);
    WeekIsRead(tail, week, k, l);
    PastMonthWord(g, word, h, tail);
    assert WeekDigit(rest) == Some(week);
    WeekIsNoDay(rest, word, tail);
    InTwoDigits(month);
    if |month| == 1 {
      assert Leading(month + rest) == 1;
    }
  }

  lemma WeekIsNoDay(rest: string, word: string, tail: string)
    requires tail != "" && IsDigit(tail[0]) && OneOrTwo(tail) == 1
    requires var d := TrimLeft(tail[1..]); d != "" && d[0] == '주' && d != "일"
    requires var c := TrimLeft(rest); if word == "" then c == tail else c != "" && c[0] == '월' && TrimLeft(c[1..]) == tail
    ensures !DayFollows(TrimLeft(rest))
  {
    hide TrimLeft;
  }

  /** Nothing behind the month's word is no week. */
  lemma NoWeek(month: string, rest: string)
    requires OneOrTwoDigits(month) && SkipMonthWord(rest) == "" && Leading(month + rest) == |month|
    ensures var b := month + rest;
            !(Leading(b) >= 2 && WeekDigit(b[2..]).Some?) && (|month| == 1 ==> WeekDigit(b[1..]).None?)
    ensures |month| == 2 ==> WeekDigit((month + rest)[1..]).None?
  {
    hide TrimLeft;
    var b := month + rest;
    assert b[|month|..] == rest;
    NoneLeft();
    if |month| == 2 {
      assert b[1..] == [month[1]] + rest;
      DigitAlone(month[1], rest);
    }
  }

  lemma DigitAlone(c: char, rest: string)
    requires IsDigit(c) && SkipMonthWord(rest) == ""
    ensures WeekDigit([c] + rest).None?
  {
    Harness.SpaceIsNoDigit(c);
    var s := [c] + rest;
    assert s[1..] == rest;
    assert TrimLeft(s) == s;
  }

  // ---- The mark of a short year ------------------------------------------------------------------

  /** Two digits with no third in front, and a date separator right behind them. */
  predicate ShortYearAt(raw: string, a: string, year: string, mark: string, b: string) {
    raw == a + year + mark + b && |year| == 2 && AllDigits(year) && (a == "" || !IsDigit(a[|a| - 1]))
    && (mark == "." || mark == "/" || mark == "년" || mark == "-")
  }

  predicate ShortYearFrom(raw: string, i: nat) {
    && i < |raw| - 2 && IsDigit(raw[i]) && IsDigit(raw[i + 1]) && (i == 0 || !IsDigit(raw[i - 1]))
    && (raw[i + 2] == '.' || raw[i + 2] == '/' || raw[i + 2] == '년' || raw[i + 2] == '-')
  }

  lemma ShortYearSplits(raw: string, i: nat)
    requires ShortYearFrom(raw, i)
    ensures ShortYearAt(raw, raw[..i], raw[i..i + 2], raw[i + 2..i + 3], raw[i + 3..])
  {
    assert raw[i + 2..i + 3] == [raw[i + 2]];
    FourParts(raw, i, i + 2, i + 3);
  }

  lemma FourParts(s: string, i: nat, j: nat, k: nat)
    requires i <= j <= k <= |s|
    ensures s[..i] + s[i..j] + s[j..k] + s[k..] == s
  {
  }

  lemma ShortYearStands(raw: string, a: string, year: string, mark: string, b: string)
    requires ShortYearAt(raw, a, year, mark, b)
    ensures ShortYearFrom(raw, |a|)
  {
    var i := |a|;
    assert raw[i] == year[0] && raw[i + 1] == year[1] && raw[i + 2] == mark[0];
    assert i > 0 ==> raw[i - 1] == a[i - 1];
  }

  lemma ShortYearHas(raw: string)
    requires Harness.HasShortYear(raw)
    ensures exists i: nat :: ShortYearFrom(raw, i)
  {
    var i :| 0 <= i < |raw| - 2 && IsDigit(raw[i]) && IsDigit(raw[i + 1])
      && (i == 0 || !IsDigit(raw[i - 1]))
      && (raw[i + 2] == '.' || raw[i + 2] == '/' || raw[i + 2] == '년' || raw[i + 2] == '-');
    assert ShortYearFrom(raw, i);
  }

  lemma HasShortYearAt(raw: string, i: nat)
    requires ShortYearFrom(raw, i)
    ensures Harness.HasShortYear(raw)
  {
    hide IsDigit;
  }

  lemma ShortYearIff(raw: string)
    ensures Harness.HasShortYear(raw) <==> exists a, year, mark, b :: ShortYearAt(raw, a, year, mark, b)
  {
    hide ShortYearAt, ShortYearFrom, Harness.HasShortYear;
    if Harness.HasShortYear(raw) {
      ShortYearHas(raw);
      var i: nat :| ShortYearFrom(raw, i);
      ShortYearBounds(raw, i);
      ShortYearSplits(raw, i);
    }
    if a, year, mark, b :| ShortYearAt(raw, a, year, mark, b) {
      ShortYearStands(raw, a, year, mark, b);
      HasShortYearAt(raw, |a|);
    }
  }

  lemma ShortYearBounds(raw: string, i: nat)
    requires ShortYearFrom(raw, i)
    ensures i + 3 <= |raw|
  {
  }

  /** A cell is taken for one whose century was added: a hint, a conversion, a short year in the text and the hint in what is shown. */
  lemma CenturyMarkIff(kind: Harness.Kind, raw: string, shown: (string, Status), hint: string)
    ensures Harness.DateCell(kind, raw, shown, hint).transform == Harness.CenturyExpanded
       <==> hint != "" && shown.1 == Converted && (exists a, year, mark, b :: ShortYearAt(raw, a, year, mark, b))
            && (exists a, b :: shown.0 == a + hint + b)
    ensures Harness.DateCell(kind, raw, shown, hint).transform != Harness.CenturyExpanded ==>
              Harness.DateCell(kind, raw, shown, hint).transform == Harness.DateFormat
  {
    ShortYearIff(raw);
    WithinIff(hint, shown.0);
    hide ShortYearAt, Harness.HasShortYear, Harness.Within;
  }

  lemma WithinIff(s: string, t: string)
    ensures Harness.Within(s, t) <==> exists a, b :: t == a + s + b
  {
    if Harness.Within(s, t) {
      var i :| 0 <= i <= |t| && s <= t[i..];
      assert t == t[..i] + s + t[i + |s|..];
    }
    if a, b :| t == a + s + b {
      assert t[|a|..] == s + b;
    }
  }

  // ---- And nothing else is converted ---------------------------------------------------------------

  lemma TakenDigits(s: string, n: nat)
    requires n <= Leading(s)
    ensures s == s[..n] + s[n..] && AllDigits(s[..n])
  {
    LeadingTake(s, n);
  }

  lemma TakenChar(s: string)
    requires s != ""
    ensures s == s[..1] + s[1..] && s[..1] == [s[0]]
  {
  }

  /** A text taken for a day is written as one. */
  lemma DayShapeIsWritten(text: string, n: nat)
    returns (year: string, a: string, month: string, b: string, day: string, gaps: seq<string>)
    requires DayShape(text, n).Some?
    ensures DayWritten(text, year, a, month, b, day, gaps) && |year| == n
    ensures DayShape(text, n).value == Shape(year, month, day)
  {
    hide AllSpace, TrimLeft, Leading, AllDigits;
    TakenDigits(text, n);
    year := text[..n];
    var s1 := TrimLeft(text[n..]);
    var g0 := SpacesBefore(text[n..], s1);
    TakenChar(s1);
    a := s1[..1];
    var s2 := TrimLeft(s1[1..]);
    var g1 := SpacesBefore(s1[1..], s2);
    var k := OneOrTwo(s2);
    month := s2[..k];
    assert s2 == month + s2[k..];
    var s3 := TrimLeft(s2[k..]);
    var g2 := SpacesBefore(s2[k..], s3);
    TakenChar(s3);
    b := s3[..1];
    var s4 := TrimLeft(s3[1..]);
    var g3 := SpacesBefore(s3[1..], s4);
    var l := OneOrTwo(s4);
    day := s4[..l];
    assert s4 == day + s4[l..];
    var s5 := TrimLeft(s4[l..]);
    var g4 := SpacesBefore(s4[l..], s5);
    gaps := [g0, g1, g2, g3, g4];
    assert s5 == "" ==> g4 + s5 == g4;
    OneOf(a, s1, "./년-");
    OneOf(b, s3, "./월-");
  }

  lemma OneOf(mark: string, s: string, choice: string)
    requires s != "" && mark == [s[0]] && s[0] in choice && |choice| == 4
    ensures exists i :: 0 <= i < 4 && mark == [choice[i]]
  {
  }

  lemma FullYearIsWritten(text: string) returns (year: string, a: string, rest: string, gaps: seq<string>)
    requires AfterFullYear(text).Some?
    ensures rest == AfterFullYear(text).value && YearMark(a) && year == text[..4] && AllDigits(year)
    ensures |gaps| == 2 && AllSpace(gaps[0]) && AllSpace(gaps[1]) && text == year + (gaps[0] + (a + (gaps[1] + rest)))
  {
    hide AllSpace, TrimLeft, Leading, AllDigits;
    TakenDigits(text, 4);
    year := text[..4];
    var s1 := TrimLeft(text[4..]);
    var g0 := SpacesBefore(text[4..], s1);
    rest := AfterFullYear(text).value;
    if s1 != "" && AfterYear(s1[0]) {
      TakenChar(s1);
      a := s1[..1];
      var g1 := SpacesBefore(s1[1..], rest);
      gaps := [g0, g1];
    } else {
      a, gaps := "", [g0, ""];
      NoneLeft();
      assert a + (gaps[1] + rest) == rest;
    }
  }

  lemma MonthWordIsWritten(s: string) returns (g: string, word: string, h: string)
    ensures AllSpace(g) && AllSpace(h) && MonthWord(word) && s == g + (word + (h + SkipMonthWord(s)))
  {
    hide AllSpace, TrimLeft;
    var a := TrimLeft(s);
    g := SpacesBefore(s, a);
    if a != "" && a[0] == '월' {
      TakenChar(a);
      word := a[..1];
      h := SpacesBefore(a[1..], SkipMonthWord(s));
    } else {
      word, h := "", "";
      NoneLeft();
      assert word + (h + a) == a;
    }
  }

  lemma NoDigitBehind(s: string)
    requires SkipMonthWord(s) == "" || !IsDigit(SkipMonthWord(s)[0])
    ensures NoMoreDigits(s)
  {
    if s != "" && IsDigit(s[0]) {
      Harness.SpaceIsNoDigit(s[0]);
    }
  }

  /** A text taken for the end of a month is written as one. */
  lemma EndShapeIsWritten(text: string)
    returns (year: string, a: string, month: string, g: string, word: string, h: string, end: string, gaps: seq<string>)
    requires EndShape(text).Some?
    ensures MonthWritten(text, year, a, month, g + (word + (h + end)), gaps)
    ensures AllSpace(g) && AllSpace(h) && MonthWord(word) && (end == "말" || end == "말일" || end == "말경")
  {
    hide AllSpace, TrimLeft, Leading, AllDigits, SkipMonthWord;
    var b;
    year, a, b, gaps := FullYearIsWritten(text);
    month := b[..OneOrTwo(b)];
    var rest := b[OneOrTwo(b)..];
    end := SkipMonthWord(rest);
    g, word, h := MonthWordIsWritten(rest);
    NoDigitsIn(end);
    NoDigitBehind(rest);
    assert b == month + rest;
  }

  /** A text taken for a month alone is written as one. */
  lemma MonthShapeIsWritten(text: string) returns (year: string, a: string, month: string, g: string, gaps: seq<string>)
    requires MonthShape(text).Some?
    ensures MonthWritten(text, year, a, month, g + "월", gaps) && AllSpace(g)
  {
    hide AllSpace, Leading, AllDigits;
    var b;
    year, a, b, gaps := FullYearIsWritten(text);
    month := b[..OneOrTwo(b)];
    var rest := b[OneOrTwo(b)..];
    g := SpacesBefore(rest, "월");
    assert SkipMonthWord(rest) == TrimLeft("");
    NoDigitBehind(rest);
    assert b == month + rest;
  }

  lemma WeekDigitIsWritten(s: string)
    returns (g: string, word: string, h: string, tail: string, week: string, k: string, l: string)
    requires WeekDigit(s).Some?
    ensures AllSpace(g) && AllSpace(h) && MonthWord(word) && s == g + (word + (h + tail))
    ensures WeekWritten(tail, week, k, l) && week == WeekDigit(s).value
  {
    hide AllSpace, TrimLeft, Leading, AllDigits, SkipMonthWord;
    g, word, h := MonthWordIsWritten(s);
    tail := SkipMonthWord(s);
    TakenDigits(tail, 1);
    week := tail[..1];
    var d := TrimLeft(tail[1..]);
    k := SpacesBefore(tail[1..], d);
    TakenChar(d);
    var e := TrimLeft(d[1..]);
    l := SpacesBefore(d[1..], e);
    assert e == "" ==> l + e == l;
  }

  /** A text taken for a week of a month is written as one. */
  lemma WeekShapeIsWritten(text: string)
    returns (year: string, a: string, month: string, g: string, word: string, h: string,
             tail: string, week: string, k: string, l: string, gaps: seq<string>)
    requires WeekShape(text).Some?
    ensures BeginsWithMonth(text, year, a, month, g + (word + (h + tail)), gaps)
    ensures AllSpace(g) && AllSpace(h) && MonthWord(word) && WeekWritten(tail, week, k, l)
    ensures WeekShape(text).value == Shape(year, month, week)
  {
    hide AllSpace, TrimLeft, Leading, AllDigits, SkipMonthWord, WeekDigit, WeekWritten;
    var b;
    year, a, b, gaps := FullYearIsWritten(text);
    var n: nat := if Leading(b) >= 2 && WeekDigit(b[2..]).Some? then 2 else 1;
    TakenDigits(b, n);
    month := b[..n];
    g, word, h, tail, week, k, l := WeekDigitIsWritten(b[n..]);
  }
}
