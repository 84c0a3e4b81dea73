/** The numbers of a converted date: kept one for one, unless the text ran two of them together. */
module DatesNumbers {
  import opened Basics
  import opened Digits
  import opened Markdown
  import opened Percent
  import opened Harness
  import opened HarnessFacts
  import opened Dates
  import DatesFacts
  import PercentCheck

  // ---- Tokens of a text -----------------------------------------------------------------------------------------

  lemma {:induction false} TokensTrim(s: string)
    ensures NumberTokens(TrimLeft(s)) == NumberTokens(s)
  {
    if s != "" && IsSpace(s[0]) {
      SpaceIsNoDigit(s[0]);
      TokensTrim(s[1..]);
    }
  }

  /** A digit run that ends where it is cut is one number. */
  lemma CutRun(s: string, n: nat)
    requires 0 < n <= Leading(s)
    requires TrimLeft(s[n..]) == "" || !IsDigit(TrimLeft(s[n..])[0])
    ensures Leading(s) == n && AllDigits(s[..n])
    ensures NumberTokens(s) == [ToNat(s[..n])] + NumberTokens(TrimLeft(s[n..]))
  {
    RunEnds(s, n);
    CutWhole(s);
  }

  lemma CutWhole(s: string)
    requires Leading(s) > 0
    ensures NumberTokens(s) == [ToNat(s[..Leading(s)])] + NumberTokens(TrimLeft(s[Leading(s)..]))
  {
    TokensTrim(s[Leading(s)..]);
  }

  lemma {:induction false} RunEnds(s: string, n: nat)
    requires n <= Leading(s)
    requires TrimLeft(s[n..]) == "" || !IsDigit(TrimLeft(s[n..])[0])
    ensures Leading(s) == n
  {
    if n > 0 {
      assert s[n..] == s[1..][n - 1..];
      RunEnds(s[1..], n - 1);
    } else {
      assert s[0..] == s;
      if s != "" && IsDigit(s[0]) {
        SpaceIsNoDigit(s[0]);
      }
    }
  }

  lemma WordsHaveNoTokens()
    ensures NumberTokens("") == [] && NumberTokens("일") == [] && NumberTokens("말") == []
    ensures NumberTokens("말일") == [] && NumberTokens("말경") == [] && NumberTokens("차") == []
  {
    NoDigitsNoTokens("일");
    NoDigitsNoTokens("말");
    NoDigitsNoTokens("차");
    assert DigitsOf("말일"[1..]) == "" && DigitsOf("말경"[1..]) == "";
    NoDigitsNoTokens("말일");
    NoDigitsNoTokens("말경");
  }

  lemma TokensSkip(s: string)
    requires s != "" && !IsDigit(s[0])
    ensures NumberTokens(s) == NumberTokens(s[1..])
  {
  }

  lemma TokensMonthWord(s: string)
    ensures NumberTokens(SkipMonthWord(s)) == NumberTokens(s)
  {
    hide NumberTokens, TrimLeft;
    TokensTrim(s);
    var a := TrimLeft(s);
    if a != "" && a[0] == '월' {
      TokensSkip(a);
      TokensTrim(a[1..]);
    }
  }

  // ---- What the patterns read -----------------------------------------------------------------------------------

  function Numbers(f: Shape): seq<nat> {
    [NumberOf(f.year), NumberOf(f.month)] + (if f.last == "" then [] else [NumberOf(f.last)])
  }

  lemma DayTokens(s: string, n: nat)
    requires n > 0 && DayShape(s, n).Some?
    ensures NumberTokens(s) == Numbers(DayShape(s, n).value)
  {
    hide NumberTokens, TrimLeft, Leading, ToNat, AllDigits;
    var a := TrimLeft(s[n..]);
    var b := TrimLeft(a[1..]);
    var k := OneOrTwo(b);
    var c := TrimLeft(b[k..]);
    var d := TrimLeft(c[1..]);
    var l := OneOrTwo(d);
    CutRun(s, n);
    TokensSkip(a);
    TokensTrim(a[1..]);
    CutRun(b, k);
    TokensSkip(c);
    TokensTrim(c[1..]);
    CutRun(d, l);
    WordsHaveNoTokens();
  }

  /** After a four-digit year: the year is a number of its own unless more digits follow at once. */
  lemma YearTokens(s: string)
    requires AfterFullYear(s).Some?
    ensures var b := AfterFullYear(s).value;
      && Leading(s) >= 4 && AllDigits(s[..4])
      && (Leading(s) == 4 ==> NumberTokens(s) == [ToNat(s[..4])] + NumberTokens(b))
      && (Leading(s) > 4 ==> b == s[4..] && Leading(b) == Leading(s) - 4)
  {
    hide NumberTokens, ToNat;
    DatesFacts.FullYearDigits(s);
    var a := TrimLeft(s[4..]);
    if Leading(s) == 4 {
      CutWhole(s);
      if a != "" && AfterYear(a[0]) {
        TokensSkip(a);
        TokensTrim(a[1..]);
      }
    } else {
      RestOfRun(s, 4);
      SpaceIsNoDigit(s[4]);
    }
  }

  lemma {:induction false} RestOfRun(s: string, n: nat)
    requires n <= Leading(s)
    ensures Leading(s[n..]) == Leading(s) - n
    ensures n < Leading(s) ==> IsDigit(s[n])
  {
    if n > 0 {
      assert s[n..] == s[1..][n - 1..];
      RestOfRun(s[1..], n - 1);
    } else {
      assert s[0..] == s;
    }
  }

  /** A month of `k` digits before a word: one number, and nothing after it. */
  lemma MonthTokens(b: string, k: nat, word: string)
    requires 0 < k <= Leading(b) && SkipMonthWord(b[k..]) == word
    requires word == "말" || word == "말일" || word == "말경"
    ensures Leading(b) == k && NumberTokens(b) == [ToNat(b[..k])] && NumberTokens(b[k..]) == []
  {
    hide NumberTokens, TrimLeft, ToNat;
    var a := TrimLeft(b[k..]);
    assert a != "" && !IsDigit(a[0]);
    CutRun(b, k);
    TokensTrim(b[k..]);
    TokensMonthWord(b[k..]);
    WordsHaveNoTokens();
  }

  lemma MonthOnlyTokens(b: string, k: nat)
    requires 0 < k <= Leading(b) && TrimLeft(b[k..]) == "월"
    ensures Leading(b) == k && NumberTokens(b) == [ToNat(b[..k])] && NumberTokens(b[k..]) == []
  {
    hide NumberTokens, TrimLeft, ToNat;
    CutRun(b, k);
    TokensTrim(b[k..]);
    TokensSkip("월");
    WordsHaveNoTokens();
    assert ("월")[1..] == "";
  }

  /** Two numbers, or one when they were written without a gap. */
  lemma YearAndMonth(s: string, k: nat)
    requires AfterFullYear(s).Some?
    requires var b := AfterFullYear(s).value;
      && 0 < k <= |b| && Leading(b) == k && AllDigits(b[..k])
      && NumberTokens(b) == [ToNat(b[..k])] && NumberTokens(b[k..]) == []
    ensures AllDigits(s[..4])
    ensures Leading(s) == 4 ==> NumberTokens(s) == [ToNat(s[..4]), ToNat(AfterFullYear(s).value[..k])]
    ensures Leading(s) > 4 ==> |NumberTokens(s)| == 1
  {
    hide ToNat, AfterFullYear;
    YearTokens(s);
    var b := AfterFullYear(s).value;
    if Leading(s) > 4 {
      assert s[Leading(s)..] == b[k..];
    }
  }

  /** Week and its word: one number. */
  lemma WeekTokens(x: string)
    requires WeekDigit(x).Some?
    ensures var c := SkipMonthWord(x);
      && Leading(c) == 1 && AllDigits(c[..1]) && NumberTokens(c) == [ToNat(c[..1])] && NumberTokens(c[1..]) == []
  {
    hide NumberTokens, TrimLeft, ToNat, AllDigits;
    var c := SkipMonthWord(x);
    var d := TrimLeft(c[1..]);
    CutRun(c, 1);
    TokensTrim(c[1..]);
    TokensSkip(d);
    TokensTrim(d[1..]);
    WordsHaveNoTokens();
  }

  lemma MonthAndWeek(b: string, k: nat)
    requires 0 < k <= Leading(b) && WeekDigit(b[k..]).Some?
    ensures AllDigits(b[..k])
    ensures Leading(b) == k ==>
      NumberTokens(b) == [ToNat(b[..k]), ToNat(WeekDigit(b[k..]).value)]
    ensures Leading(b) > k ==> Leading(b) == k + 1 && |NumberTokens(b)| == 1 && NumberTokens(b[Leading(b)..]) == []
    ensures Leading(b) == k ==> |NumberTokens(b[Leading(b)..])| == 1
  {
    hide ToNat, NumberTokens, TrimLeft;
    DatesFacts.LeadingTake(b, k);
    WeekTokens(b[k..]);
    TokensMonthWord(b[k..]);
    RestOfRun(b, k);
    CutWhole(b);
    TokensTrim(b[Leading(b)..]);
    if Leading(b) > k {
      DigitStays(b[k..]);
      RestOfRun(b, k + 1);
      assert b[k..][1..] == b[k + 1..];
    }
  }

  lemma DigitStays(x: string)
    requires x != "" && IsDigit(x[0])
    ensures SkipMonthWord(x) == x
  {
    SpaceIsNoDigit(x[0]);
  }

  // ---- Joining words keeps the numbers ----------------------------------------------------------------------------

  lemma {:induction false} CollapsedRun(s: string, n: nat)
    requires n <= Leading(s)
    ensures Collapsed(s) == s[..n] + Collapsed(s[n..])
    decreases n
  {
    if n > 0 {
      SpaceIsNoDigit(s[0]);
      CollapsedRun(s[1..], n - 1);
      assert s[n..] == s[1..][n - 1..];
      assert s[..n] == [s[0]] + s[1..][..n - 1];
    } else {
      assert s[0..] == s;
    }
  }

  lemma CollapsedStart(s: string)
    requires s == "" || !IsDigit(s[0])
    ensures Collapsed(s) == "" || !IsDigit(Collapsed(s)[0])
  {
  }

  lemma TokensOfRun(d: string, rest: string)
    requires d != "" && AllDigits(d) && (rest == "" || !IsDigit(rest[0]))
    ensures NumberTokens(d + rest) == [ToNat(d)] + NumberTokens(rest)
  {
    LeadingRun(d, rest);
  }

  lemma {:induction false} TokensCollapsed(s: string)
    ensures NumberTokens(Collapsed(s)) == NumberTokens(s)
    decreases |s|
  {
    hide ToNat;
    if s == "" {
    } else if IsDigit(s[0]) {
      var n := Leading(s);
      CollapsedRun(s, n);
      RestOfRun(s, n);
      CollapsedStart(s[n..]);
      TokensCollapsed(s[n..]);
      hide NumberTokens, Collapsed;
      TokensOfRun(s[..n], Collapsed(s[n..]));
      assert s[..n] + s[n..] == s;
      TokensOfRun(s[..n], s[n..]);
    } else if IsSpace(s[0]) {
      LeftTrimmed(s);
      TokensCollapsed(TrimLeft(s));
      TokensTrim(s);
      SpaceFirst(Collapsed(TrimLeft(s)));
    } else {
      TokensCollapsed(s[1..]);
      assert ([s[0]] + Collapsed(s[1..]))[1..] == Collapsed(s[1..]);
    }
  }

  lemma SpaceFirst(t: string)
    ensures NumberTokens(" " + t) == NumberTokens(t)
  {
    assert (" " + t)[1..] == t;
  }

  lemma TokensJoined(raw: string)
    ensures NumberTokens(Markdown.Joined(raw)) == NumberTokens(raw)
  {
    hide NumberTokens, Collapsed;
    TokensTrim(raw);
    TokensCollapsed(TrimLeft(raw));
  }

  // ---- What is shown ------------------------------------------------------------------------------------------------

  lemma TwoDigitsValue(n: nat)
    ensures AllDigits(TwoDigits(n)) && TwoDigits(n) != "" && ToNat(TwoDigits(n)) == n
  {
    DatesFacts.TwoDigitsSolid(n);
    ReadBack(n);
    hide ToNat;
    LeadingZeros(1, OfNat(n));
    assert Zeros(1) + OfNat(n) == "0" + OfNat(n);
  }

  lemma DashTokens(rest: string)
    ensures NumberTokens("-" + rest) == NumberTokens(rest)
  {
    assert ("-" + rest)[1..] == rest;
  }

  lemma RegroupDay(y: string, m: string, d: string)
    ensures y + "-" + m + "-" + d == y + ("-" + (m + ("-" + (d + ""))))
  {
  }

  lemma DayTextTokens(year: string, f: Shape)
    requires year != "" && AllDigits(year)
    ensures NumberTokens(DayText(year, f)) == [ToNat(year), NumberOf(f.month), NumberOf(f.last)]
  {
    hide NumberTokens, ToNat, AllDigits, TwoDigits, NumberOf;
    var m, d := TwoDigits(NumberOf(f.month)), TwoDigits(NumberOf(f.last));
    TwoDigitsValue(NumberOf(f.month));
    TwoDigitsValue(NumberOf(f.last));
    RegroupDay(year, m, d);
    TokensOfRun(year, "-" + (m + ("-" + (d + ""))));
    DashTokens(m + ("-" + (d + "")));
    TokensOfRun(m, "-" + (d + ""));
    DashTokens(d + "");
    TokensOfRun(d, "");
    WordsHaveNoTokens();
  }

  lemma RegroupMonth(y: string, m: string, rest: string)
    ensures y + "-" + m + rest == y + ("-" + (m + rest))
  {
  }

  lemma MonthTextTokens(f: Shape, rest: string)
    requires f.year != "" && AllDigits(f.year) && (rest == "" || !IsDigit(rest[0]))
    ensures NumberTokens(MonthText(f) + rest) == [ToNat(f.year), NumberOf(f.month)] + NumberTokens(rest)
  {
    hide NumberTokens, ToNat, AllDigits, TwoDigits, NumberOf;
    var m := TwoDigits(NumberOf(f.month));
    TwoDigitsValue(NumberOf(f.month));
    RegroupMonth(f.year, m, rest);
    TokensOfRun(f.year, "-" + (m + rest));
    DashTokens(m + rest);
    TokensOfRun(m, rest);
  }

  lemma WeekTextTokens(f: Shape)
    requires f.year != "" && AllDigits(f.year) && |f.last| == 1 && AllDigits(f.last)
    ensures NumberTokens(MonthText(f) + " " + f.last + "주차") == [ToNat(f.year), NumberOf(f.month), ToNat(f.last)]
  {
    hide NumberTokens, ToNat, AllDigits, NumberOf, MonthText;
    var rest := " " + (f.last + "주차");
    assert MonthText(f) + " " + f.last + "주차" == MonthText(f) + rest;
    MonthTextTokens(f, rest);
    SpaceFirst(f.last + "주차");
    TokensOfRun(f.last, "주차");
    WeekWordTokens();
  }

  lemma WeekWordTokens()
    ensures NumberTokens("주차") == [] && NumberTokens(" 말") == []
  {
    assert DigitsOf(("주차")[1..]) == "" && DigitsOf((" 말")[1..]) == "";
    NoDigitsNoTokens("주차");
    NoDigitsNoTokens(" 말");
  }

  // ---- The theorem ----------------------------------------------------------------------------------------------------

  /** Two numbers of the text stand without a gap: `202608월말`, `2026-092주차`. */
  predicate RunTogether(text: string) {
    && DayShape(text, 4).None?
    && (if EndShape(text).Some? then Leading(text) > 4
        else if WeekShape(text).Some? then
          Leading(text) > 4 || Leading(AfterFullYear(text).value) > |WeekShape(text).value.month|
        else MonthShape(text).Some? && Leading(text) > 4)
  }

  /** Only a date with a two-digit year can be given its century. */
  predicate NeedsCentury(text: string) {
    DayShape(text, 4).None? && EndShape(text).None? && WeekShape(text).None? && MonthShape(text).None?
  }

  lemma SameNumbersSameTokens(ns: seq<nat>, century: bool)
    ensures SameTokens(ns, ns, century)
  {
  }

  lemma FourDigitNumber(h: string)
    requires |h| == 4 && AllDigits(h)
    ensures ToNat(h) == 100 * ToNat(h[..2]) + (10 * DigitValue(h[2]) + DigitValue(h[3]))
  {
    assert h[..3][..2] == h[..2];
    LastOf(h);
    LastOf(h[..3]);
  }

  lemma LastOf(s: string)
    requires s != "" && AllDigits(s)
    ensures ToNat(s) == 10 * ToNat(s[..|s| - 1]) + DigitValue(s[|s| - 1])
  {
  }

  lemma CenturyToken(hint: string, f: Shape)
    requires HintFor(hint, f.year) && |f.year| == 2 && AllDigits(f.year)
    ensures AllDigits(Trim(hint)) && Trim(hint) != ""
    ensures SameToken(ToNat(f.year), ToNat(Trim(hint)), true)
  {
    hide Trim, ToNat;
    var h := Trim(hint);
    FourDigitNumber(h);
    TwoDigitNumber(h[2..]);
  }

  lemma TwoDigitNumber(s: string)
    requires |s| == 2 && AllDigits(s)
    ensures ToNat(s) == 10 * DigitValue(s[0]) + DigitValue(s[1]) && ToNat(s) < 100
  {
    assert s[..1][..0] == "";
    assert ToNat(s[..1]) == 10 * ToNat("") + DigitValue(s[0]);
  }

  lemma DayKept(text: string)
    requires DayShape(text, 4).Some?
    ensures var f := DayShape(text, 4).value;
      NumberTokens(DayText(f.year, f)) == NumberTokens(text)
  {
    hide NumberTokens, DayShape, DayText, ToNat, AllDigits;
    DatesFacts.DayShapeDigits(text, 4);
    var f := DayShape(text, 4).value;
    DayTokens(text, 4);
    DayTextTokens(f.year, f);
  }

  lemma CenturyKept(text: string, hint: string)
    requires DayShape(text, 2).Some? && HintFor(hint, DayShape(text, 2).value.year)
    ensures var f := DayShape(text, 2).value;
      SameTokens(NumberTokens(text), NumberTokens(DayText(Trim(hint), f)), true)
  {
    hide NumberTokens, DayShape, DayText, ToNat, AllDigits, HintFor, Trim;
    DatesFacts.DayShapeDigits(text, 2);
    var f := DayShape(text, 2).value;
    DayTokens(text, 2);
    CenturyToken(hint, f);
    DayTextTokens(Trim(hint), f);
  }

  lemma EndKeptIff(text: string, century: bool)
    requires EndShape(text).Some?
    ensures var f := EndShape(text).value;
      SameTokens(NumberTokens(text), NumberTokens(MonthText(f) + " 말"), century) <==> Leading(text) == 4
    ensures |NumberTokens(text)| <= |NumberTokens(MonthText(EndShape(text).value) + " 말")|
  {
    hide NumberTokens, MonthText, ToNat, AfterFullYear, SkipMonthWord;
    var b := AfterFullYear(text).value;
    var k := OneOrTwo(b);
    var f := EndShape(text).value;
    DatesFacts.FullYearDigits(text);
    MonthTokens(b, k, SkipMonthWord(b[k..]));
    YearAndMonth(text, k);
    YearTokens(text);
    MonthTextTokens(f, " 말");
    WeekWordTokens();
    if Leading(text) == 4 {
      SameNumbersSameTokens(NumberTokens(text), century);
    }
  }

  lemma MonthKeptIff(text: string, century: bool)
    requires MonthShape(text).Some?
    ensures var f := MonthShape(text).value;
      SameTokens(NumberTokens(text), NumberTokens(MonthText(f)), century) <==> Leading(text) == 4
    ensures |NumberTokens(text)| <= |NumberTokens(MonthText(MonthShape(text).value))|
  {
    hide NumberTokens, MonthText, ToNat, AfterFullYear, TrimLeft;
    var b := AfterFullYear(text).value;
    var k := OneOrTwo(b);
    var f := MonthShape(text).value;
    DatesFacts.FullYearDigits(text);
    MonthOnlyTokens(b, k);
    YearAndMonth(text, k);
    YearTokens(text);
    MonthTextTokens(f, "");
    WordsHaveNoTokens();
    assert MonthText(f) + "" == MonthText(f);
    if Leading(text) == 4 {
      SameNumbersSameTokens(NumberTokens(text), century);
    }
  }

  lemma WeekCount(text: string, b: string, k: nat)
    requires AfterFullYear(text) == Some(b) && 0 < k <= Leading(b) && WeekDigit(b[k..]).Some?
    ensures AllDigits(text[..4]) && AllDigits(b[..k]) && |text| >= 4
    ensures Leading(text) == 4 && Leading(b) == k ==>
      NumberTokens(text) == [ToNat(text[..4]), ToNat(b[..k]), ToNat(WeekDigit(b[k..]).value)]
    ensures !(Leading(text) == 4 && Leading(b) == k) ==> |NumberTokens(text)| < 3
  {
    hide NumberTokens, ToNat, AfterFullYear, WeekDigit;
    YearTokens(text);
    MonthAndWeek(b, k);
    if Leading(text) > 4 {
      CutWhole(text);
      assert text[Leading(text)..] == b[Leading(b)..];
      TokensTrim(text[Leading(text)..]);
    }
  }

  lemma WeekKeptIff(text: string, century: bool)
    requires WeekShape(text).Some?
    ensures var f := WeekShape(text).value;
      SameTokens(NumberTokens(text), NumberTokens(MonthText(f) + " " + f.last + "주차"), century)
      <==> Leading(text) == 4 && Leading(AfterFullYear(text).value) == |f.month|
    ensures var f := WeekShape(text).value; |NumberTokens(text)| <= |NumberTokens(MonthText(f) + " " + f.last + "주차")|
  {
    hide NumberTokens, MonthText, ToNat, AfterFullYear, WeekDigit;
    var f := WeekShape(text).value;
    var b := AfterFullYear(text).value;
    var k := |f.month|;
    DatesFacts.FullYearDigits(text);
    WeekCount(text, b, k);
    DatesFacts.WeekDigitIsDigit(b[k..]);
    WeekTextTokens(f);
    if Leading(text) == 4 && Leading(b) == k {
      SameNumbersSameTokens(NumberTokens(text), century);
    }
  }

  lemma KeptIff(raw: string, hint: string, century: bool)
    requires FormatDate(raw, hint).1 == Converted && (NeedsCentury(Markdown.Joined(raw)) ==> century)
    ensures var text := Markdown.Joined(raw);
      SameTokens(NumberTokens(raw), NumberTokens(FormatDate(raw, hint).0), century) <==> !RunTogether(text)
    ensures |NumberTokens(raw)| <= |NumberTokens(FormatDate(raw, hint).0)|
  {
    hide NumberTokens, DayShape, EndShape, WeekShape, MonthShape, DayText, MonthText, SameTokens, Markdown.Joined, HintFor;
    var text := Markdown.Joined(raw);
    TokensJoined(raw);
    if DayShape(text, 4).Some? {
      DayKept(text);
      SameNumbersSameTokens(NumberTokens(text), century);
    } else if EndShape(text).Some? {
      EndKeptIff(text, century);
      AtLeastFour(text);
    } else if WeekShape(text).Some? {
      WeekKeptIff(text, century);
      AtLeastFour(text);
    } else if MonthShape(text).Some? {
      MonthKeptIff(text, century);
      AtLeastFour(text);
    } else {
      CenturyKept(text, hint);
      SameTokensAsMany(NumberTokens(text), NumberTokens(FormatDate(raw, hint).0));
    }
  }

  lemma SameTokensAsMany(raw: seq<nat>, shown: seq<nat>)
    requires SameTokens(raw, shown, true)
    ensures |raw| == |shown|
  {
  }

  /**
   * A converted date shows the numbers of its text one for one - a two-digit year with its
   * century - exactly when no two of them were written without a gap. When they were, the check
   * of the cell fails and the table goes back.
   */
  lemma DateKeepsNumbersIff(raw: string, hint: string)
    requires FormatDate(raw, hint).1 == Converted
    ensures var text := Markdown.Joined(raw);
      SameTokens(NumberTokens(raw), NumberTokens(FormatDate(raw, hint).0), NeedsCentury(text)) <==> !RunTogether(text)
  {
    KeptIff(raw, hint, NeedsCentury(Markdown.Joined(raw)));
  }

  /** Without the century mark an expanded year is a number that was not there. */
  lemma CenturyMarked(text: string, hint: string)
    requires DayShape(text, 2).Some? && HintFor(hint, DayShape(text, 2).value.year)
    ensures var f := DayShape(text, 2).value;
      SameTokens(NumberTokens(text), NumberTokens(DayText(Trim(hint), f)), false)
      <==> NumberOf(f.year) == NumberOf(Trim(hint))
  {
    hide NumberTokens, DayShape, DayText, ToNat, AllDigits, HintFor, Trim;
    DatesFacts.DayShapeDigits(text, 2);
    var f := DayShape(text, 2).value;
    DayTokens(text, 2);
    CenturyToken(hint, f);
    DayTextTokens(Trim(hint), f);
    FirstTokens(NumberOf(f.year), NumberOf(Trim(hint)), NumberOf(f.month), NumberOf(f.last));
  }

  lemma FirstTokens(a: nat, b: nat, m: nat, d: nat)
    ensures SameTokens([a, m, d], [b, m, d], false) <==> a == b
  {
    assert SameTokens([a, m, d], [b, m, d], false) ==> SameToken([a, m, d][0], [b, m, d][0], false);
  }

  /** The check of a date cell, in terms of the text it was made from. */
  predicate DateFits(raw: string, hint: string) {
    var text := Markdown.Joined(raw);
    FormatDate(raw, hint).1 == Converted ==>
      if NeedsCentury(text) then HasShortYear(raw) || NumberOf(DayShape(text, 2).value.year) == NumberOf(hint)
      else !RunTogether(text)
  }

  lemma {:induction false} DigitsStayDigits(s: string)
    requires AllDigits(s)
    ensures Trim(s) == s
  {
    if s != "" {
      SpaceIsNoDigit(s[0]);
      SpaceIsNoDigit(s[|s| - 1]);
    }
  }

  lemma HintInDay(hint: string, f: Shape)
    ensures Within(hint, DayText(hint, f))
  {
    hide TwoDigits, NumberOf;
    assert hint <= DayText(hint, f)[0..];
  }

  lemma ConvertedIsShown(raw: string, hint: string)
    requires FormatDate(raw, hint).1 == Converted
    ensures FormatDate(raw, hint).0 != ABSENT
  {
    hide Markdown.Joined, DayShape, EndShape, WeekShape, MonthShape, TwoDigits, NumberOf, Trim, AllDigits, DayText, MonthText;
    var text := Markdown.Joined(raw);
    DatesFacts.ShapesHaveDigits(text);
    DatesFacts.DayShapeDigits(text, 4);
    if DayShape(text, 4).Some? {
      DayTextIsLong(DayShape(text, 4).value.year, DayShape(text, 4).value);
    } else if EndShape(text).Some? {
      MonthTextIsLong(EndShape(text).value);
    } else if WeekShape(text).Some? {
      MonthTextIsLong(WeekShape(text).value);
    } else if MonthShape(text).Some? {
      MonthTextIsLong(MonthShape(text).value);
    } else {
      DayTextIsLong(Trim(hint), DayShape(text, 2).value);
    }
  }

  lemma DayTextIsLong(year: string, f: Shape)
    requires year != ""
    ensures |DayText(year, f)| > 1
  {
  }

  lemma MonthTextIsLong(f: Shape)
    requires f.year != ""
    ensures |MonthText(f)| > 1
  {
  }

  lemma AtLeastFour(text: string)
    ensures EndShape(text).Some? || MonthShape(text).Some? || WeekShape(text).Some? ==> Leading(text) >= 4
    ensures WeekShape(text).Some? ==> Leading(AfterFullYear(text).value) >= |WeekShape(text).value.month|
  {
  }

  lemma SameTokensMatch(raw: seq<nat>, shown: seq<nat>, cell: Cell)
    requires cell.kind == DateKind && cell.status != Unresolved && cell.display != ABSENT
    requires NumberTokens(cell.raw) == raw && NumberTokens(cell.display) == shown
    ensures Verify(cell).None? <==> SameTokens(raw, shown, cell.transform.CenturyExpanded?)
  {
    hide NumberTokens;
  }

  /** An unconverted date is the text as it was: nothing can be missing. */
  lemma UnconvertedPasses(raw: string, hint: string)
    requires FormatDate(raw, hint).1 != Converted
    ensures Verify(DateCell(DateKind, raw, FormatDate(raw, hint), hint)).None?
  {
    hide DayShape, EndShape, WeekShape, MonthShape, HintFor, NumberTokens, DigitsOf, Collapsed, DayText, MonthText, ABSENT;
    var text := Markdown.Joined(raw);
    TokensJoined(raw);
    TokensTrim(raw);
    PercentCheck.DigitsOfCollapsed(TrimLeft(raw));
    PercentCheck.DigitsOfCollapsed(raw);
    DashOnly();
    SameNumbersSameTokens(NumberTokens(raw), false);
  }

  lemma DashOnly()
    ensures DigitsOf(ABSENT) == "" && DigitsOf("") == ""
  {
  }

  /**
   * A date cell passes its check exactly when it is not converted, or no two numbers of its text
   * were written without a gap - and, for a two-digit year, some number of two digits alone in
   * the text, the year or another, stands right before a separator, or the century adds nothing.
   */
  lemma DateCellPassesIff(raw: string, hint: string)
    requires AllDigits(hint)
    ensures Verify(CellFor(TYBOT_FORMATS, AsDate, hint, raw)).None? <==> DateFits(raw, hint)
  {
    hide NumberTokens, SameTokens, RunTogether, HasShortYear, Within, Verify, NumberOf;
    hide DayShape, EndShape, WeekShape, MonthShape, DayText, MonthText, Markdown.Joined, HintFor, ABSENT, AllDigits;
    var text := Markdown.Joined(raw);
    var shown := FormatDate(raw, hint);
    var cell := DateCell(DateKind, raw, shown, hint);
    if shown.1 != Converted {
      UnconvertedPasses(raw, hint);
    } else {
      ConvertedIsShown(raw, hint);
      SameTokensMatch(NumberTokens(raw), NumberTokens(shown.0), cell);
      if NeedsCentury(text) {
        CenturyCell(raw, hint);
      } else {
        KeptIff(raw, hint, cell.transform.CenturyExpanded?);
      }
    }
  }

  lemma CenturyCell(raw: string, hint: string)
    requires FormatDate(raw, hint).1 == Converted && NeedsCentury(Markdown.Joined(raw)) && AllDigits(hint)
    ensures var cell := DateCell(DateKind, raw, FormatDate(raw, hint), hint);
      SameTokens(NumberTokens(raw), NumberTokens(cell.display), cell.transform.CenturyExpanded?) <==> DateFits(raw, hint)
  {
    hide NumberTokens, SameTokens, HasShortYear, Within, NumberOf;
    hide DayShape, EndShape, WeekShape, MonthShape, DayText, MonthText, Markdown.Joined, AllDigits, Trim;
    var text := Markdown.Joined(raw);
    var f := DayShape(text, 2).value;
    DigitsStayDigits(hint);
    HintInDay(hint, f);
    TokensJoined(raw);
    CenturyMarked(text, hint);
    CenturyKept(text, hint);
  }

  // ---- A period ---------------------------------------------------------------------------------------------------------

  predicate NoDigits(s: string) { forall i :: 0 <= i < |s| ==> !IsDigit(s[i]) }

  lemma {:induction false} TokensConcat(a: string, b: string)
    requires b == "" || !IsDigit(b[0])
    ensures NumberTokens(a + b) == NumberTokens(a) + NumberTokens(b)
    decreases |a|
  {
    hide NumberTokens, ToNat, AllDigits, Leading;
    if a == "" {
      WordsHaveNoTokens();
      assert a + b == b;
    } else if !IsDigit(a[0]) {
      TokensConcat(a[1..], b);
      TokensSkip(a);
      TokensSkip(a + b);
      assert (a + b)[1..] == a[1..] + b;
    } else {
      var d, rest := FirstRun(a);
      TokensConcat(rest, b);
      RunInFront(d, rest, b);
      assert d + (rest + b) == a + b;
    }
  }

  lemma FirstRun(a: string) returns (d: string, rest: string)
    requires a != "" && IsDigit(a[0])
    ensures a == d + rest && d != "" && AllDigits(d) && (rest == "" || !IsDigit(rest[0])) && |rest| < |a|
  {
    var n := Leading(a);
    RestOfRun(a, n);
    d, rest := a[..n], a[n..];
  }

  lemma RunInFront(d: string, rest: string, b: string)
    requires d != "" && AllDigits(d) && (rest == "" || !IsDigit(rest[0])) && (b == "" || !IsDigit(b[0]))
    requires NumberTokens(rest + b) == NumberTokens(rest) + NumberTokens(b)
    ensures NumberTokens(d + (rest + b)) == NumberTokens(d + rest) + NumberTokens(b)
  {
    hide NumberTokens, ToNat, AllDigits;
    TokensOfRun(d, rest + b);
    TokensOfRun(d, rest);
  }

  lemma {:induction false} TokensSkipAll(sep: string, b: string)
    requires NoDigits(sep)
    ensures NumberTokens(sep + b) == NumberTokens(b)
  {
    if sep == "" {
      assert sep + b == b;
    } else {
      TokensSkipAll(sep[1..], b);
      assert (sep + b)[1..] == sep[1..] + b;
    }
  }

  lemma {:induction false} SpacesHaveNoDigits(s: string)
    ensures NoDigits(s[..Spaces(s)])
  {
    forall i | 0 <= i < Spaces(s) ensures !IsDigit(s[i]) {
      SpaceIsNoDigit(s[i]);
    }
  }

  lemma NoDigitsConcat(a: string, b: string)
    requires NoDigits(a) && NoDigits(b)
    ensures NoDigits(a + b)
  {
  }

  /** A separator holds no digit. */
  lemma SeparatorHasNoDigits(s: string, i: nat)
    requires i < |s|
    ensures NoDigits(s[i..i + SeparatorAt(s, i)])
  {
    hide Spaces, NoDigits;
    var lead := Spaces(s[i..]);
    var rest := s[i + lead..];
    var w := WordLength(rest);
    SpacesHaveNoDigits(s[i..]);
    assert s[i..][..lead] == s[i..i + lead];
    if w > 0 {
      SpacesHaveNoDigits(rest[w..]);
      WordHasNoDigits(rest);
      Threefold(s, i, lead, w, Spaces(rest[w..]));
    } else if lead > 0 && rest != "" && rest[0] == '-' && Spaces(rest[1..]) > 0 {
      SpacesHaveNoDigits(rest[1..]);
      assert NoDigits(rest[..1]) by { DashHasNoDigit(rest); }
      Threefold(s, i, lead, 1, Spaces(rest[1..]));
    } else if SeparatorAt(s, i) > 0 {
      DashHasNoDigit(s[i..]);
      assert s[i..][..1] == s[i..i + 1];
    } else {
      assert s[i..i] == "";
      NothingHasNoDigits();
    }
  }

  lemma NothingHasNoDigits()
    ensures NoDigits("")
  {
  }

  lemma WordHasNoDigits(s: string)
    ensures NoDigits(s[..WordLength(s)])
  {
  }

  lemma DashHasNoDigit(s: string)
    requires s != "" && s[0] == '-'
    ensures NoDigits(s[..1])
  {
  }

  lemma Threefold(s: string, i: nat, a: nat, b: nat, c: nat)
    requires i + a + b + c <= |s|
    requires NoDigits(s[i..i + a]) && NoDigits(s[i + a..][..b]) && NoDigits(s[i + a..][b..][..c])
    ensures NoDigits(s[i..i + (a + b + c)])
  {
    hide NoDigits;
    NoDigitsConcat(s[i..i + a], s[i + a..][..b]);
    NoDigitsConcat(s[i..i + a] + s[i + a..][..b], s[i + a..][b..][..c]);
    assert s[i..i + (a + b + c)] == s[i..i + a] + s[i + a..][..b] + s[i + a..][b..][..c];
  }

  function PartTokens(parts: seq<string>): seq<nat> {
    if parts == [] then [] else NumberTokens(parts[0]) + PartTokens(parts[1..])
  }

  /** Splitting at separators keeps every number, in order. */
  lemma {:induction false} SplitKeepsTokens(s: string, start: nat, i: nat)
    requires start <= i <= |s|
    ensures PartTokens(SplitFrom(s, start, i)) == NumberTokens(s[start..])
    decreases |s| - i
  {
    hide NumberTokens, SeparatorAt, NoDigits;
    if i < |s| {
      var n := SeparatorAt(s, i);
      if n > 0 {
        SplitKeepsTokens(s, i + n, i + n);
        SeparatorHasNoDigits(s, i);
        SeparatorCut(s, start, i, n);
      } else {
        SplitKeepsTokens(s, start, i + 1);
      }
    }
  }

  lemma SeparatorCut(s: string, start: nat, i: nat, n: nat)
    requires start <= i && n > 0 && i + n <= |s| && NoDigits(s[i..i + n])
    ensures NumberTokens(s[start..]) == NumberTokens(s[start..i]) + NumberTokens(s[i + n..])
  {
    hide NumberTokens;
    var sep, after := s[i..i + n], s[i + n..];
    assert s[start..] == s[start..i] + (sep + after);
    assert (sep + after)[0] == sep[0];
    TokensConcat(s[start..i], sep + after);
    TokensSkipAll(sep, after);
  }

  lemma {:induction false} NonEmptyTokens(parts: seq<string>)
    ensures PartTokens(NonEmpty(parts)) == PartTokens(parts)
  {
    hide NumberTokens;
    WordsHaveNoTokens();
    if parts != [] {
      var rest := NonEmpty(parts[1..]);
      NonEmptyTokens(parts[1..]);
      assert ([parts[0]] + rest)[1..] == rest;
      assert [] + rest == rest;
    }
  }

  lemma TwoPartTokens(parts: seq<string>)
    requires |parts| == 2
    ensures PartTokens(parts) == NumberTokens(parts[0]) + NumberTokens(parts[1])
  {
    hide NumberTokens;
    assert PartTokens(parts[1..][1..]) == [];
    assert PartTokens(parts[1..]) == NumberTokens(parts[1]) + [];
  }

  lemma BracketedTokens(text: string)
    ensures var (body, tail) := Bracketed(text);
      && NumberTokens(text) == NumberTokens(body) + NumberTokens(tail)
      && (tail == "" || !IsDigit(tail[0]))
  {
    hide NumberTokens, Trim, FirstOpen, DigitsOf;
    var q := FirstOpen(text);
    WordsHaveNoTokens();
    assert text + "" == text;
    if text != "" && Closes(text[|text| - 1]) && q < |text| {
      assert text == text[..q] + text[q..];
      TokensConcat(text[..q], text[q..]);
      TokensTrimBoth(text[..q]);
      TokensTrimBoth(text[q..]);
      SpaceFirst(Trim(text[q..]));
    }
  }

  lemma TokensTrimBoth(s: string)
    ensures NumberTokens(Trim(s)) == NumberTokens(s)
  {
    hide NumberTokens, TrimLeft, TrimRight;
    TokensTrim(s);
    TokensTrimRight(TrimLeft(s));
  }

  lemma {:induction false} TokensTrimRight(s: string)
    ensures NumberTokens(TrimRight(s)) == NumberTokens(s)
  {
    if s != "" && IsSpace(s[|s| - 1]) {
      TokensTrimRight(s[..|s| - 1]);
      SpaceIsNoDigit(s[|s| - 1]);
      assert s == s[..|s| - 1] + [s[|s| - 1]];
      hide NumberTokens;
      TokensConcat(s[..|s| - 1], [s[|s| - 1]]);
      NoDigitsNoTokens([s[|s| - 1]]);
    }
  }

  lemma PeriodTextTokens(start: string, end: string, tail: string)
    requires tail == "" || !IsDigit(tail[0])
    ensures NumberTokens(start + PERIOD_SEP + end + tail)
         == NumberTokens(start) + NumberTokens(end) + NumberTokens(tail)
  {
    hide NumberTokens;
    TokensConcat(start + PERIOD_SEP + end, tail);
    assert start + PERIOD_SEP + end == start + (PERIOD_SEP + end);
    TokensConcat(start, PERIOD_SEP + end);
    TokensSkipAll(PERIOD_SEP, end);
  }

  /** The two dates a period is made of, and the condition kept apart from them. */
  function PeriodPieces(raw: string): (seq<string>, string) {
    var (body, tail) := Bracketed(Markdown.Joined(raw));
    (NonEmpty(PeriodParts(body)), tail)
  }

  /**
   * A converted period is its two dates: the numbers of the text are those of the two parts and
   * the condition, in order, and what is shown are the numbers of the two formatted dates and the
   * same condition. So a period keeps its numbers as its dates do.
   */
  lemma PeriodIsItsDates(raw: string, hint: string)
    requires FormatPeriod(raw, hint).1 == Converted
    ensures var (parts, tail) := PeriodPieces(raw);
      && |parts| == 2
      && NumberTokens(raw) == NumberTokens(parts[0]) + NumberTokens(parts[1]) + NumberTokens(tail)
      && NumberTokens(FormatPeriod(raw, hint).0)
         == NumberTokens(FormatDate(parts[0], hint).0) + NumberTokens(FormatDate(parts[1], hint).0) + NumberTokens(tail)
      && FormatDate(parts[0], hint).1 != Unresolved && FormatDate(parts[1], hint).1 != Unresolved
  {
    hide NumberTokens, FormatDate, Bracketed, SplitFrom, NonEmpty, Markdown.Joined, PERIOD_SEP;
    var text := Markdown.Joined(raw);
    TokensJoined(raw);
    BracketedTokens(text);
    var (body, tail) := Bracketed(text);
    var parts := NonEmpty(PeriodParts(body));
    SplitKeepsTokens(body, 0, 0);
    assert body[0..] == body;
    NonEmptyTokens(PeriodParts(body));
    if |parts| == 2 {
      TwoPartTokens(parts);
      PeriodTextTokens(FormatDate(parts[0], hint).0, FormatDate(parts[1], hint).0, tail);
    }
  }

  // ---- When a period passes ----------------------------------------------------------------------------------------------

  /** One date of a period, in a cell that does or does not say that a century was added. */
  predicate PartFits(part: string, hint: string, century: bool) {
    var text := Markdown.Joined(part);
    FormatDate(part, hint).1 == Converted ==>
      if NeedsCentury(text) then century || NumberOf(DayShape(text, 2).value.year) == NumberOf(Trim(hint))
      else !RunTogether(text)
  }

  lemma PartTokensIff(part: string, hint: string, century: bool)
    requires FormatDate(part, hint).1 != Unresolved
    ensures |NumberTokens(part)| <= |NumberTokens(FormatDate(part, hint).0)|
    ensures SameTokens(NumberTokens(part), NumberTokens(FormatDate(part, hint).0), century) <==> PartFits(part, hint, century)
  {
    hide NumberTokens, SameTokens, RunTogether, NumberOf, ABSENT, Trim;
    hide DayShape, EndShape, WeekShape, MonthShape, DayText, MonthText, Markdown.Joined, HintFor;
    var text := Markdown.Joined(part);
    TokensJoined(part);
    if FormatDate(part, hint).1 == Exact {
      NoTokensInDash();
      SameNumbersSameTokens(NumberTokens(part), century);
    } else {
      KeptIff(part, hint, if NeedsCentury(text) then true else century);
      if NeedsCentury(text) {
        CenturyMarked(text, hint);
        CenturyKept(text, hint);
        assert !RunTogether(text) by { NoShapeNotTogether(text); }
      }
    }
  }

  lemma NoShapeNotTogether(text: string)
    requires NeedsCentury(text)
    ensures !RunTogether(text)
  {
  }

  lemma NoTokensInDash()
    ensures NumberTokens(ABSENT) == [] && NumberTokens("") == []
  {
    NoDigitsNoTokens(ABSENT);
    NoDigitsNoTokens("");
  }

  /** No date shows fewer numbers than it has, so three runs of numbers agree only run by run. */
  lemma RunByRun(a: seq<nat>, a': seq<nat>, b: seq<nat>, b': seq<nat>, tail: seq<nat>, century: bool)
    requires |a| <= |a'| && |b| <= |b'|
    ensures SameTokens(a + b + tail, a' + b' + tail, century) <==> SameTokens(a, a', century) && SameTokens(b, b', century)
  {
    var raw, shown := a + b + tail, a' + b' + tail;
    if SameTokens(raw, shown, century) {
      forall i | 0 <= i < |a| ensures SameToken(a[i], a'[i], century) {
        assert SameToken(raw[i], shown[i], century);
      }
      forall i | 0 <= i < |b| ensures SameToken(b[i], b'[i], century) {
        assert SameToken(raw[|a| + i], shown[|a| + i], century);
      }
    }
    if SameTokens(a, a', century) && SameTokens(b, b', century) {
      forall i | 0 <= i < |raw| ensures SameToken(raw[i], shown[i], century) {
        if i < |a| {
          assert SameToken(a[i], a'[i], century);
        } else if i < |a| + |b| {
          assert SameToken(b[i - |a|], b'[i - |a|], century);
        }
      }
    }
  }

  /** The check of a period cell, in terms of the text: one mark of an added century covers both dates. */
  predicate PeriodFits(raw: string, hint: string) {
    FormatPeriod(raw, hint).1 == Converted ==>
      var (parts, _) := PeriodPieces(raw);
      && |parts| == 2
      && PartFits(parts[0], hint, HasShortYear(raw)) && PartFits(parts[1], hint, HasShortYear(raw))
  }

  lemma PeriodTokensMatch(raw: seq<nat>, shown: seq<nat>, cell: Cell)
    requires cell.kind == PeriodKind && cell.status != Unresolved && cell.display != ABSENT
    requires NumberTokens(cell.raw) == raw && NumberTokens(cell.display) == shown
    ensures Verify(cell).None? <==> SameTokens(raw, shown, cell.transform.CenturyExpanded?)
  {
    hide NumberTokens;
  }

  lemma {:induction false} NoTokensNoDigits(s: string)
    requires NumberTokens(s) == []
    ensures DigitsOf(s) == ""
  {
    if s != "" {
      NoTokensNoDigits(s[1..]);
    }
  }

  /** A period that is not converted is shown with its own numbers. */
  lemma UnconvertedPeriodPasses(raw: string, hint: string)
    requires FormatPeriod(raw, hint).1 != Converted
    ensures Verify(DateCell(PeriodKind, raw, FormatPeriod(raw, hint), hint)).None?
  {
    hide NumberTokens, DigitsOf, Trim, NonEmpty, PeriodParts, Bracketed, Markdown.Joined, FormatDate, HasShortYear, Within;
    var text := Markdown.Joined(raw);
    var shown := FormatPeriod(raw, hint);
    if shown.1 == Exact {
      TokensJoined(raw);
      NoTokensInDash();
      var (body, tail) := Bracketed(text);
      BracketedTokens(text);
      if text != "" {
        TokensConcat(body, tail);
        TokensTrimBoth(body + tail);
      }
      assert NumberTokens(shown.0) == NumberTokens(raw);
      ShownNumbersPass(DateCell(PeriodKind, raw, shown, hint));
    }
  }

  lemma ShownNumbersPass(cell: Cell)
    requires cell.kind == PeriodKind && NumberTokens(cell.raw) == NumberTokens(cell.display)
    ensures Verify(cell).None?
  {
    hide NumberTokens;
    NoTokensInDash();
    if cell.display == ABSENT {
      NoTokensNoDigits(cell.raw);
    } else if cell.status != Unresolved {
      SameNumbersSameTokens(NumberTokens(cell.raw), cell.transform.CenturyExpanded?);
      PeriodTokensMatch(NumberTokens(cell.raw), NumberTokens(cell.display), cell);
    }
  }

  lemma WithinPeriod(hint: string, before: string, part: string, after: string)
    requires Within(hint, part)
    ensures Within(hint, before + part + after)
  {
    var i :| 0 <= i <= |part| && hint <= part[i..];
    var all := before + part + after;
    assert all[|before| + i..] == part[i..] + after;
  }

  /** A date that gets its century shows the hint, and so does its period. */
  lemma CenturyShown(part: string, hint: string)
    requires AllDigits(hint) && FormatDate(part, hint).1 == Converted && NeedsCentury(Markdown.Joined(part))
    ensures Trim(hint) == hint && hint != "" && Within(hint, FormatDate(part, hint).0)
  {
    hide DayShape, EndShape, WeekShape, MonthShape, Markdown.Joined, Within, DayText;
    DigitsStayDigits(hint);
    HintInDay(hint, DayShape(Markdown.Joined(part), 2).value);
  }

  predicate GetsCentury(part: string, hint: string) {
    FormatDate(part, hint).1 == Converted && NeedsCentury(Markdown.Joined(part))
  }

  lemma PeriodMark(raw: string, hint: string)
    requires AllDigits(hint) && FormatPeriod(raw, hint).1 == Converted
    ensures var (parts, _) := PeriodPieces(raw);
            && |parts| == 2
            && (GetsCentury(parts[0], hint) || GetsCentury(parts[1], hint) ==>
                 (DateCell(PeriodKind, raw, FormatPeriod(raw, hint), hint).transform.CenturyExpanded? <==> HasShortYear(raw)))
  {
    hide FormatDate, NeedsCentury, Markdown.Joined, Bracketed, NonEmpty, PeriodParts, Within, HasShortYear, AllDigits;
    var (parts, tail) := PeriodPieces(raw);
    var start, end := FormatDate(parts[0], hint).0, FormatDate(parts[1], hint).0;
    if GetsCentury(parts[0], hint) {
      CenturyShown(parts[0], hint);
      WithinPeriod(hint, "", start, PERIOD_SEP + end + tail);
      assert "" + start + (PERIOD_SEP + end + tail) == start + PERIOD_SEP + end + tail;
    } else if GetsCentury(parts[1], hint) {
      CenturyShown(parts[1], hint);
      WithinPeriod(hint, start + PERIOD_SEP, end, tail);
    }
  }

  lemma PeriodIsLong(raw: string, hint: string)
    requires FormatPeriod(raw, hint).1 == Converted
    ensures FormatPeriod(raw, hint).0 != ABSENT
  {
    hide FormatDate, Markdown.Joined, Bracketed, NonEmpty, PeriodParts;
  }

  /** A part without an added century does not ask whether the cell is marked. */
  lemma MarkMatters(part: string, hint: string, a: bool, b: bool)
    requires GetsCentury(part, hint) ==> a == b
    ensures PartFits(part, hint, a) <==> PartFits(part, hint, b)
  {
    hide FormatDate, NeedsCentury, Markdown.Joined, RunTogether;
  }

  /**
   * A period cell passes its check exactly when it is not converted, or neither of its dates ran
   * two numbers together and - one mark for both dates - some number of two digits alone in the
   * text stands right before a separator, or the century adds nothing to the dates that got it.
   */
  lemma PeriodCellPassesIff(raw: string, hint: string)
    requires AllDigits(hint)
    ensures Verify(CellFor(TYBOT_FORMATS, AsPeriod, hint, raw)).None? <==> PeriodFits(raw, hint)
  {
    hide NumberTokens, SameTokens, HasShortYear, Within, Verify, PartFits, FormatDate, FormatPeriod, PeriodPieces, ABSENT, GetsCentury;
    var shown := FormatPeriod(raw, hint);
    var cell := DateCell(PeriodKind, raw, shown, hint);
    if shown.1 != Converted {
      UnconvertedPeriodPasses(raw, hint);
    } else {
      PeriodIsItsDates(raw, hint);
      PeriodMark(raw, hint);
      PeriodIsLong(raw, hint);
      var (parts, tail) := PeriodPieces(raw);
      var c := cell.transform.CenturyExpanded?;
      PeriodTokensMatch(NumberTokens(raw), NumberTokens(shown.0), cell);
      PartTokensIff(parts[0], hint, c);
      PartTokensIff(parts[1], hint, c);
      RunByRun(NumberTokens(parts[0]), NumberTokens(FormatDate(parts[0], hint).0),
               NumberTokens(parts[1]), NumberTokens(FormatDate(parts[1], hint).0), NumberTokens(tail), c);
      BothMarks(parts, hint, c, HasShortYear(raw));
    }
  }

  lemma BothMarks(parts: seq<string>, hint: string, a: bool, b: bool)
    requires |parts| == 2 && (GetsCentury(parts[0], hint) || GetsCentury(parts[1], hint) ==> a == b)
    ensures PartFits(parts[0], hint, a) && PartFits(parts[1], hint, a)
       <==> PartFits(parts[0], hint, b) && PartFits(parts[1], hint, b)
  {
    hide PartFits, GetsCentury;
    MarkMatters(parts[0], hint, a, b);
    MarkMatters(parts[1], hint, a, b);
  }

  // ---- A date that runs two numbers together -------------------------------------------------------------------------------

  lemma GluedFails(text: string, hint: string)
    requires AllDigits(hint) && Markdown.Joined(text) == text
    requires DayShape(text, 4).None? && EndShape(text).Some? && Leading(text) > 4
    ensures RunTogether(text) && FormatDate(text, hint).1 == Converted
    ensures Verify(CellFor(TYBOT_FORMATS, AsDate, hint, text)).Some?
  {
    hide Markdown.Joined, DayShape, EndShape, Leading, Verify, CellFor, AllDigits;
    DateCellPassesIff(text, hint);
  }

  lemma GluedShape(year: string, month: string)
    requires AllDigits(year) && |year| == 4 && AllDigits(month) && |month| == 2
    ensures var text := year + month + "월말"; DayShape(text, 4).None? && EndShape(text).Some? && Leading(text) > 4
  {
    var text := year + month + "월말";
    LeadingRun(year + month, "월말");
    LeadingRun(month, "월말");
    assert text[4..] == month + "월말" && !IsSpace(month[0]) by { SpaceIsNoDigit(month[0]); }
    assert AfterFullYear(text) == Some(month + "월말");
    assert (month + "월말")[2..] == "월말" && "월말"[1..] == "말";
    assert SkipMonthWord("월말") == "말";
  }

  /** The end of August 2026 without a gap after the year: one number in the text, two in what is shown. */
  lemma GluedMonthEnd(hint: string)
    requires AllDigits(hint)
    ensures RunTogether("202608월말") && FormatDate("202608월말", hint).1 == Converted
    ensures Verify(CellFor(TYBOT_FORMATS, AsDate, hint, "202608월말")).Some?
  {
    hide DayShape, EndShape, Leading, Markdown.Joined, RunTogether, Verify, CellFor, FormatDate;
    GluedShape("2026", "08");
    assert "2026" + "08" + "월말" == "202608월말";
    SolidStays("202608월말");
    GluedFails("202608월말", hint);
  }
}
