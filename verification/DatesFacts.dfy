/** The formatters of src/tybot/canvas_harness.py keep a cell a cell, and keep its numbers. */
module DatesFacts {
  import opened Basics
  import opened Digits
  import opened Markdown
  import opened Percent
  import opened TableRows
  import opened HarnessFacts
  import opened Dates

  // ---- Escapes through cutting and joining -------------------------------------------------------------------

  lemma {:induction false} NoPipeIsEscaped(s: string, after: bool)
    requires '|' !in s
    ensures Escaped(s, after)
  {
    if s != "" {
      NoPipeIsEscaped(s[1..], s[0] == '\\');
    }
  }

  lemma EscapedAfterAnything(s: string, after: bool)
    requires Escaped(s, false)
    ensures Escaped(s, after)
  {
  }

  lemma {:induction false} EscapedConcat(a: string, b: string, after: bool)
    requires Escaped(a, after) && Escaped(b, false)
    ensures Escaped(a + b, after)
  {
    if a == "" {
      assert a + b == b;
      EscapedAfterAnything(b, after);
    } else {
      EscapedConcat(a[1..], b, a[0] == '\\');
      assert (a + b)[1..] == a[1..] + b;
    }
  }

  lemma {:induction false} EscapedTake(s: string, n: nat, after: bool)
    requires n <= |s| && Escaped(s, after)
    ensures Escaped(s[..n], after)
  {
    if n > 0 {
      EscapedTake(s[1..], n - 1, s[0] == '\\');
      assert s[..n][1..] == s[1..][..n - 1];
    }
  }

  lemma {:induction false} EscapedDrop(s: string, n: nat, after: bool)
    requires n <= |s| && Escaped(s, after) && (if n == 0 then !after else s[n - 1] != '\\')
    ensures Escaped(s[n..], false)
  {
    if n > 0 {
      EscapedDrop(s[1..], n - 1, s[0] == '\\');
      assert s[n..] == s[1..][n - 1..];
    } else {
      assert s[0..] == s;
    }
  }

  lemma {:induction false} TrimRightIsPrefix(s: string)
    ensures TrimRight(s) <= s && (TrimRight(s) == "" || !IsSpace(TrimRight(s)[|TrimRight(s)| - 1]))
  {
    if s != "" && IsSpace(s[|s| - 1]) {
      TrimRightIsPrefix(s[..|s| - 1]);
    }
  }

  lemma TrimIsClean(s: string)
    requires Escaped(s, false)
    ensures Clean(Trim(s))
  {
    hide Escaped, TrimLeft, TrimRight;
    TrimLeftEscaped(s);
    LeftTrimmed(s);
    var t := TrimLeft(s);
    TrimRightIsPrefix(t);
    EscapedTake(t, |TrimRight(t)|, false);
    assert t[..|TrimRight(t)|] == TrimRight(t);
  }

  // ---- One date ----------------------------------------------------------------------------------------------

  /** Nothing of a date: no pipe anywhere, ink at both ends. */
  predicate Solid(s: string) {
    s != "" && '|' !in s && !IsSpace(s[0]) && !IsSpace(s[|s| - 1])
  }

  lemma SolidIsClean(s: string)
    requires Solid(s)
    ensures Clean(s)
  {
    NoPipeIsEscaped(s, false);
  }

  lemma DigitsAreSolid(s: string)
    requires s != "" && AllDigits(s)
    ensures Solid(s)
  {
  }

  lemma SolidAround(a: string, gap: string, b: string)
    requires Solid(a) && Solid(b) && '|' !in gap
    ensures Solid(a + gap + b)
  {
  }

  lemma TwoDigitsSolid(n: nat)
    ensures TwoDigits(n) != "" && AllDigits(TwoDigits(n))
  {
  }

  lemma {:induction false} LeadingTake(s: string, n: nat)
    requires n <= Leading(s)
    ensures AllDigits(s[..n])
  {
    assert forall i :: 0 <= i < n ==> s[..n][i] == s[..Leading(s)][i];
  }

  lemma DayShapeDigits(s: string, n: nat)
    requires n > 0
    ensures match DayShape(s, n)
      case None => true
      case Some(f) => |f.year| == n && AllDigits(f.year) && f.month != "" && AllDigits(f.month)
                      && f.last != "" && AllDigits(f.last)
  {
    hide TrimLeft, Leading, AllDigits;
    if StartsWithDigits(s, n) {
      LeadingTake(s, n);
    }
  }

  lemma FullYearDigits(s: string)
    ensures AfterFullYear(s).Some? ==> |s| >= 4 && AllDigits(s[..4])
  {
    hide TrimLeft, AllDigits;
    if StartsWithDigits(s, 4) {
      LeadingTake(s, 4);
    }
  }

  lemma DayTextIsSolid(year: string, f: Shape)
    requires year != "" && AllDigits(year)
    ensures Solid(DayText(year, f))
  {
    hide AllDigits, Solid, TwoDigits, NumberOf;
    var m, d := TwoDigits(NumberOf(f.month)), TwoDigits(NumberOf(f.last));
    TwoDigitsSolid(NumberOf(f.month));
    TwoDigitsSolid(NumberOf(f.last));
    DigitsAreSolid(year);
    DigitsAreSolid(m);
    DigitsAreSolid(d);
    SolidAround(year, "-", m);
    SolidAround(year + "-" + m, "-", d);
  }

  lemma MonthTextIsSolid(f: Shape)
    requires f.year != "" && AllDigits(f.year)
    ensures Solid(MonthText(f))
  {
    hide AllDigits, Solid, TwoDigits, NumberOf;
    TwoDigitsSolid(NumberOf(f.month));
    DigitsAreSolid(f.year);
    DigitsAreSolid(TwoDigits(NumberOf(f.month)));
    SolidAround(f.year, "-", TwoDigits(NumberOf(f.month)));
  }

  lemma WeekDigitIsDigit(s: string)
    ensures WeekDigit(s).Some? ==> |WeekDigit(s).value| == 1 && AllDigits(WeekDigit(s).value)
  {
    hide TrimLeft;
    var c := SkipMonthWord(s);
    if Leading(c) > 0 {
      LeadingTake(c, 1);
    }
  }

  lemma WeekTextIsSolid(f: Shape)
    requires f.year != "" && AllDigits(f.year) && f.last != "" && AllDigits(f.last)
    ensures Solid(MonthText(f) + " " + f.last + "주차")
  {
    hide AllDigits, Solid;
    MonthTextIsSolid(f);
    DigitsAreSolid(f.last);
    SolidAround(MonthText(f), " ", f.last);
    assert Solid("주차") by { WordsAreSolid(); }
    SolidAround(MonthText(f) + " " + f.last, "", "주차");
    assert MonthText(f) + " " + f.last + "" == MonthText(f) + " " + f.last;
  }

  lemma WordsAreSolid()
    ensures Solid("주차") && Solid("말")
  {
  }

  lemma ShapesHaveDigits(text: string)
    ensures EndShape(text).Some? ==> EndShape(text).value.year != "" && AllDigits(EndShape(text).value.year)
    ensures MonthShape(text).Some? ==> MonthShape(text).value.year != "" && AllDigits(MonthShape(text).value.year)
    ensures WeekShape(text).Some? ==>
      var f := WeekShape(text).value; f.year != "" && AllDigits(f.year) && f.last != "" && AllDigits(f.last)
  {
    hide AllDigits, WeekDigit, SkipMonthWord, AfterFullYear, TrimLeft, Leading;
    FullYearDigits(text);
    match AfterFullYear(text)
    case None =>
    case Some(b) =>
      if Leading(b) >= 2 {
        WeekDigitIsDigit(b[2..]);
      }
      if Leading(b) >= 1 {
        WeekDigitIsDigit(b[1..]);
      }
  }

  /** A date cell is a cell: never empty, no bare pipe, no space at its ends. */
  lemma DateIsClean(raw: string, hint: string)
    requires Escaped(raw, false)
    ensures FormatDate(raw, hint).0 != "" && Clean(FormatDate(raw, hint).0)
  {
    hide Markdown.Joined, DayShape, EndShape, WeekShape, MonthShape, Clean, Solid, DayText, MonthText, AllDigits, Escaped;
    var text := Markdown.Joined(raw);
    JoinedIsClean(raw);
    AbsentIsClean();
    ShapesHaveDigits(text);
    DayShapeDigits(text, 4);
    DayShapeDigits(text, 2);
    var shown := FormatDate(raw, hint).0;
    if text == "" {
    } else if DayShape(text, 4).Some? {
      DayTextIsSolid(DayShape(text, 4).value.year, DayShape(text, 4).value);
      ShownSolid(shown);
    } else if EndShape(text).Some? {
      EndTextIsSolid(EndShape(text).value);
      ShownSolid(shown);
    } else if WeekShape(text).Some? {
      WeekTextIsSolid(WeekShape(text).value);
      ShownSolid(shown);
    } else if MonthShape(text).Some? {
      MonthTextIsSolid(MonthShape(text).value);
      ShownSolid(shown);
    } else if DayShape(text, 2).Some? && HintFor(hint, DayShape(text, 2).value.year) {
      DayTextIsSolid(Trim(hint), DayShape(text, 2).value);
      ShownSolid(shown);
    }
  }

  lemma EndTextIsSolid(f: Shape)
    requires f.year != "" && AllDigits(f.year)
    ensures Solid(MonthText(f) + " 말")
  {
    hide AllDigits, Solid, MonthText;
    MonthTextIsSolid(f);
    WordsAreSolid();
    SolidAround(MonthText(f), " ", "말");
    assert MonthText(f) + " " + "말" == MonthText(f) + " 말";
  }

  lemma ShownSolid(s: string)
    requires Solid(s)
    ensures s != "" && Clean(s)
  {
    SolidIsClean(s);
  }

  /** `yyyy-mm-dd` */
  predicate IsIso(s: string) {
    |s| == 10 && s[4] == '-' && s[7] == '-' && forall i :: 0 <= i < 10 && i != 4 && i != 7 ==> IsDigit(s[i])
  }

  lemma BelowHundred(s: string)
    requires AllDigits(s) && 0 < |s| <= 2
    ensures NumberOf(s) < 100
  {
    assert ToNat(s) == 10 * ToNat(s[..|s| - 1]) + DigitValue(s[|s| - 1]);
    if |s| == 2 {
      assert s[..1][..0] == "";
      assert ToNat(s[..1]) == 10 * ToNat("") + DigitValue(s[0]);
    } else {
      assert s[..0] == "";
    }
  }

  lemma TwoDigitsLength(n: nat)
    requires n < 100
    ensures |TwoDigits(n)| == 2
  {
    assert n >= 10 ==> OfNat(n) == OfNat(n / 10) + [DigitChar(n % 10)];
    assert n >= 10 ==> OfNat(n / 10) == [DigitChar(n / 10)];
  }

  lemma TwoDigitsAreTwo(s: string)
    requires AllDigits(s) && 0 < |s| <= 2
    ensures |TwoDigits(NumberOf(s))| == 2 && AllDigits(TwoDigits(NumberOf(s)))
  {
    hide TwoDigits, NumberOf, AllDigits;
    BelowHundred(s);
    TwoDigitsLength(NumberOf(s));
    TwoDigitsSolid(NumberOf(s));
  }

  lemma DayShapeLengths(s: string, n: nat)
    ensures DayShape(s, n).Some? ==> |DayShape(s, n).value.month| <= 2 && |DayShape(s, n).value.last| <= 2
  {
    hide TrimLeft, Leading, AllDigits;
  }

  /** A full date, or a short one whose century is known, is shown as `yyyy-mm-dd`. */
  lemma FullDateIsIso(raw: string, hint: string)
    requires FormatDate(raw, hint).1 == Converted
    requires var text := Markdown.Joined(raw);
      DayShape(text, 4).Some? || (EndShape(text).None? && WeekShape(text).None? && MonthShape(text).None?)
    ensures IsIso(FormatDate(raw, hint).0)
  {
    hide Markdown.Joined, DayShape, EndShape, WeekShape, MonthShape, TwoDigits, NumberOf, Trim, DayText, AllDigits;
    var text := Markdown.Joined(raw);
    var n := if DayShape(text, 4).Some? then 4 else 2;
    var f := DayShape(text, n).value;
    DayShapeDigits(text, n);
    DayShapeLengths(text, n);
    TwoDigitsAreTwo(f.month);
    TwoDigitsAreTwo(f.last);
    DayTextIsIso(if n == 4 then f.year else Trim(hint), f);
  }

  lemma DayTextIsIso(year: string, f: Shape)
    requires |year| == 4 && AllDigits(year)
    requires var m, d := TwoDigits(NumberOf(f.month)), TwoDigits(NumberOf(f.last));
      |m| == |d| == 2 && AllDigits(m) && AllDigits(d)
    ensures IsIso(DayText(year, f))
  {
    hide TwoDigits, NumberOf;
  }

  // ---- A period ----------------------------------------------------------------------------------------------

  predicate AllEscaped(parts: seq<string>) { forall i :: 0 <= i < |parts| ==> Escaped(parts[i], false) }

  /** A piece that starts behind no backslash. */
  lemma PieceIsEscaped(s: string, start: nat, end: nat)
    requires start <= end <= |s| && Escaped(s, false) && (start == 0 || s[start - 1] != '\\')
    ensures Escaped(s[start..end], false)
  {
    hide Escaped;
    EscapedDrop(s, start, false);
    EscapedTake(s[start..], end - start, false);
    assert s[start..][..end - start] == s[start..end];
  }

  lemma {:induction false} SplitIsEscaped(s: string, start: nat, i: nat)
    requires start <= i <= |s| && Escaped(s, false)
    requires start == 0 || s[start - 1] != '\\'
    ensures AllEscaped(SplitFrom(s, start, i))
    decreases |s| - i
  {
    hide Escaped, SeparatorAt;
    PieceIsEscaped(s, start, |s|);
    assert s[start..|s|] == s[start..];
    if i < |s| {
      var n := SeparatorAt(s, i);
      if n > 0 {
        PieceIsEscaped(s, start, i);
        SplitIsEscaped(s, i + n, i + n);
      } else {
        SplitIsEscaped(s, start, i + 1);
      }
    }
  }

  lemma {:induction false} NonEmptyEscaped(parts: seq<string>)
    requires AllEscaped(parts)
    ensures AllEscaped(NonEmpty(parts))
  {
    hide Escaped;
    if parts != [] {
      NonEmptyEscaped(parts[1..]);
    }
  }

  lemma BracketedIsEscaped(text: string)
    requires Escaped(text, false)
    ensures var (body, tail) := Bracketed(text);
      Escaped(body, false) && (tail == "" || (|tail| > 1 && tail[0] == ' ' && Clean(tail[1..])))
  {
    hide Escaped, Trim;
    var q := FirstOpen(text);
    if text != "" && Closes(text[|text| - 1]) && q < |text| {
      EscapedTake(text, q, false);
      TrimIsClean(text[..q]);
      FromOpen(text, q);
      TrimIsClean(text[q..]);
      TrimKeepsInk(text[q..]);
      assert (" " + Trim(text[q..]))[1..] == Trim(text[q..]);
    }
  }

  lemma {:induction false} FromOpen(s: string, q: nat)
    requires q < |s| && Opens(s[q]) && Escaped(s, false)
    ensures Escaped(s[q..], false)
  {
    DropOpen(s, q, false);
  }

  lemma {:induction false} DropOpen(s: string, q: nat, after: bool)
    requires q < |s| && Opens(s[q]) && Escaped(s, after)
    ensures Escaped(s[q..], false)
    decreases q
  {
    if q > 0 {
      DropOpen(s[1..], q - 1, s[0] == '\\');
      assert s[q..] == s[1..][q - 1..];
    } else {
      assert s[0..] == s;
    }
  }

  lemma TrimKeepsInk(s: string)
    requires s != "" && !IsSpace(s[0])
    ensures Trim(s) != ""
  {
    SomethingLeft(s);
  }

  lemma {:induction false} SomethingLeft(s: string)
    requires s != "" && !IsSpace(s[0])
    ensures TrimRight(s) != ""
  {
    if IsSpace(s[|s| - 1]) {
      SomethingLeft(s[..|s| - 1]);
    }
  }

  lemma PeriodTextIsClean(start: string, end: string, tail: string)
    requires start != "" && end != "" && Clean(start) && Clean(end)
    requires tail == "" || (|tail| > 1 && tail[0] == ' ' && Clean(tail[1..]))
    ensures Clean(start + PERIOD_SEP + end + tail)
  {
    hide Escaped;
    NoPipeIsEscaped(PERIOD_SEP, false);
    EscapedConcat(start, PERIOD_SEP, false);
    EscapedConcat(start + PERIOD_SEP, end, false);
    TailIsEscaped(tail);
    EscapedConcat(start + PERIOD_SEP + end, tail, false);
  }

  lemma TailIsEscaped(tail: string)
    requires tail == "" || (|tail| > 1 && tail[0] == ' ' && Clean(tail[1..]))
    ensures Escaped(tail, false)
  {
  }

  lemma PeriodIsClean(raw: string, hint: string)
    requires Escaped(raw, false)
    ensures Clean(FormatPeriod(raw, hint).0)
  {
    hide Markdown.Joined, Bracketed, FormatDate, SplitFrom, NonEmpty, Escaped, Trimmed, ABSENT, Trim, PERIOD_SEP;
    var text := Markdown.Joined(raw);
    JoinedIsClean(raw);
    AbsentIsClean();
    BracketedIsEscaped(text);
    var (body, tail) := Bracketed(text);
    TailIsEscaped(tail);
    SplitIsEscaped(body, 0, 0);
    NonEmptyEscaped(PeriodParts(body));
    var parts := NonEmpty(PeriodParts(body));
    if |parts| == 2 {
      DateIsClean(parts[0], hint);
      DateIsClean(parts[1], hint);
      PeriodTextIsClean(FormatDate(parts[0], hint).0, FormatDate(parts[1], hint).0, tail);
    } else {
      EscapedConcat(body, tail, false);
      TrimIsClean(body + tail);
    }
  }

  /** The module's own formatters meet what the table theorems ask of formatters. */
  lemma FormatsKeepClean()
    ensures KeepsClean(TYBOT_FORMATS)
  {
    hide FormatDate, FormatPeriod, Escaped;
    forall raw: string, hint: string | Clean(raw) && AllDigits(hint)
      ensures Clean(TYBOT_FORMATS.date(raw, hint).0) && Clean(TYBOT_FORMATS.period(raw, hint).0)
    {
      DateIsClean(raw, hint);
      PeriodIsClean(raw, hint);
    }
  }
}
