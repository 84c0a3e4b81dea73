/**
 * Periods as people write them: two dates, what stands between them, and a condition in brackets
 * (src/tybot/canvas_harness.py).
 */
module PeriodsText {
  import opened Basics
  import opened Digits
  import opened Markdown
  import opened Percent
  import opened TableRows
  import opened TableText
  import opened Dates

  /** What a date is written with, apart from hyphens. */
  predicate DateChar(c: char) { IsDigit(c) || c in "./년월일말주차" }

  /** A hyphen inside a date: a number of one or two digits behind it, and no year's mark behind that. */
  predicate HyphenInside(s: string, i: nat)
    requires i < |s|
  {
    var n := Leading(s[i + 1..]);
    s[i] == '-' && 1 <= n <= 2 && (i + 1 + n < |s| ==> s[i + 1 + n] !in "./년")
  }

  predicate IsPart(s: string) {
    && s != "" && DateChar(s[0]) && DateChar(s[|s| - 1])
    && forall i :: 0 <= i < |s| ==> DateChar(s[i]) || HyphenInside(s, i)
  }

  /** Words that separate two dates, with spaces around them or without. */
  predicate IsWord(w: string) {
    w == "~" || w == "–" || w == "—" || w == "부터" || w == "to" || w == "To" || w == "tO" || w == "TO"
  }

  lemma DateCharIsPlain(c: char)
    requires DateChar(c)
    ensures !IsSpace(c) && !Opens(c) && !Closes(c) && c != '-' && c != '~' && c != '–' && c != '—' && c != '부' && c != 't' && c != 'T'
  {
  }

  lemma {:induction false} SpacesOf(gap: string, rest: string)
    requires AllSpace(gap) && (rest == "" || !IsSpace(rest[0]))
    ensures Spaces(gap + rest) == |gap|
  {
    if gap == "" {
      assert gap + rest == rest;
    } else {
      TailOfConcat(gap, rest);
      SpacesOf(gap[1..], rest);
    }
  }

  lemma PlainInside(s: string, i: nat)
    requires i < |s| && DateChar(s[i])
    ensures SeparatorAt(s, i) == 0
  {
    DateCharIsPlain(s[i]);
    assert s[i..][0] == s[i] && s[i + 0..] == s[i..];
  }

  /** Nothing that could make more of the number a date ends with, or a year of it. */
  predicate Closed(behind: string) { behind == "" || (!IsDigit(behind[0]) && behind[0] !in "./년") }

  lemma HyphenIsInside(a: string, s: string, behind: string, i: nat)
    requires i < |s| && HyphenInside(s, i) && Closed(behind)
    ensures SeparatorAt(a + (s + behind), |a| + i) == 0
  {
    var text, rest := a + (s + behind), s[i + 1..];
    var n := Leading(rest);
    assert text[|a| + i..] == [s[i]] + (rest + behind) && text[|a| + i + 0..] == text[|a| + i..];
    assert text[|a| + i + 1..] == rest + behind;
    assert Spaces(text[|a| + i..]) == 0 && WordLength(text[|a| + i..]) == 0;
    hide SeparatorAt, Leading;
    StillTwo(rest, behind);
    NotADate(text, |a| + i, rest + behind);
  }

  lemma StillTwo(rest: string, behind: string)
    requires Closed(behind) && 1 <= Leading(rest) <= 2 && (Leading(rest) < |rest| ==> rest[Leading(rest)] !in "./년")
    ensures !DateFollows(rest + behind)
  {
    hide Leading, AllDigits;
    var n := Leading(rest);
    LeadingStops(rest);
    assert rest + behind == rest[..n] + (rest[n..] + behind);
    LeadingRun(rest[..n], rest[n..] + behind);
    assert n < |rest + behind| ==> (rest + behind)[n] == (rest[n..] + behind)[0];
  }

  lemma {:induction false} LeadingStops(s: string)
    ensures Leading(s) < |s| ==> !IsDigit(s[Leading(s)])
  {
    if s != "" && IsDigit(s[0]) {
      LeadingStops(s[1..]);
    }
  }

  lemma NotADate(s: string, i: nat, rest: string)
    requires i < |s| && s[i] == '-' && s[i + 1..] == rest && !DateFollows(rest)
    requires Spaces(s[i..]) == 0 && WordLength(s[i..]) == 0
    ensures SeparatorAt(s, i) == 0
  {
    hide DateFollows, Spaces, WordLength;
    assert s[i + 0..] == s[i..];
  }

  /** No separator stands inside a date. */
  lemma NoneInside(a: string, s: string, behind: string, i: nat)
    requires i < |s| && IsPart(s) && Closed(behind)
    ensures SeparatorAt(a + (s + behind), |a| + i) == 0
  {
    hide SeparatorAt, HyphenInside, DateChar;
    if DateChar(s[i]) {
      assert (a + (s + behind))[|a| + i] == s[i];
      PlainInside(a + (s + behind), |a| + i);
    } else {
      HyphenIsInside(a, s, behind, i);
    }
  }

  lemma {:induction false} PastPart(a: string, s: string, behind: string, i: nat)
    requires i <= |s| && IsPart(s) && Closed(behind)
    ensures SplitFrom(a + (s + behind), |a|, |a| + i) == SplitFrom(a + (s + behind), |a|, |a| + |s|)
    decreases |s| - i
  {
    hide IsPart, SeparatorAt;
    if i < |s| {
      NoneInside(a, s, behind, i);
      PastPart(a, s, behind, i + 1);
    }
  }

  lemma WordIsTaken(w: string, rest: string)
    requires IsWord(w)
    ensures WordLength(w + rest) == |w| && w + rest != "" && !IsSpace((w + rest)[0])
  {
    assert (w + rest)[0] == w[0] && (|w| > 1 ==> (w + rest)[1] == w[1]);
  }

  lemma WordBefore(a: string, g: string, w: string, h: string, b: string)
    requires AllSpace(g) && AllSpace(h) && IsWord(w) && (b == "" || !IsSpace(b[0]))
    ensures var s := a + (g + (w + (h + b))); |a| < |s| && SeparatorAt(s, |a|) == |g| + |w| + |h|
  {
    hide AllSpace, Spaces, IsWord, WordLength;
    var s, rest := a + (g + (w + (h + b))), w + (h + b);
    WordIsTaken(w, h + b);
    SpacesOf(g, rest);
    SpacesOf(h, b);
    Cuts(a, g, rest);
    assert rest[|w|..] == h + b;
    WordHasLength(w);
  }

  lemma WordHasLength(w: string)
    requires IsWord(w)
    ensures |w| > 0
  {
  }

  lemma Cuts(a: string, g: string, rest: string)
    ensures (a + (g + rest))[|a|..] == g + rest && (a + (g + rest))[|a| + |g|..] == rest
  {
  }

  /** A hyphen between spaces. */
  lemma HyphenBetween(a: string, g: string, h: string, b: string)
    requires AllSpace(g) && AllSpace(h) && g != "" && h != "" && b != "" && !IsSpace(b[0])
    ensures var s := a + (g + ("-" + (h + b))); |a| < |s| && SeparatorAt(s, |a|) == |g| + 1 + |h|
  {
    hide AllSpace, Spaces;
    var s, rest := a + (g + ("-" + (h + b))), "-" + (h + b);
    SpacesOf(g, rest);
    SpacesOf(h, b);
    Cuts(a, g, rest);
    assert rest[1..] == h + b && WordLength(rest) == 0;
  }

  /** A hyphen between a digit and a date with a year. */
  lemma HyphenBefore(a: string, b: string)
    requires a != "" && IsDigit(a[|a| - 1]) && DateFollows(b)
    ensures var s := a + ("-" + b); |a| < |s| && SeparatorAt(s, |a|) == 1
  {
    hide DateFollows;
    var s := a + ("-" + b);
    assert s[|a|..] == "-" + b && s[|a| + 0..] == s[|a|..] && s[|a| + 1..] == b && s[|a|] == '-';
    assert ("-" + b)[0] == '-';
  }

  ghost predicate ByWord(between: string) {
    exists g, w, h :: between == g + (w + h) && AllSpace(g) && AllSpace(h) && IsWord(w)
  }

  ghost predicate BySpacedHyphen(between: string) {
    exists g, h :: between == g + ("-" + h) && AllSpace(g) && AllSpace(h) && g != "" && h != ""
  }

  /** The second date begins with its year. */
  predicate BeginsWithYear(b: string) {
    (|b| > 4 && AllDigits(b[..4]) && b[4] in "./년") || (|b| > 2 && AllDigits(b[..2]) && b[2] in "./년")
  }

  /** What may stand between two dates. */
  ghost predicate Separates(a: string, between: string, b: string) {
    ByWord(between) || BySpacedHyphen(between) || (between == "-" && a != "" && IsDigit(a[|a| - 1]) && BeginsWithYear(b))
  }

  lemma {:induction false} AtLeastDigits(s: string, n: nat)
    requires n <= |s| && AllDigits(s[..n])
    ensures Leading(s) >= n
  {
    if n > 0 {
      assert s[0] == s[..n][0];
      assert s[1..][..n - 1] == s[..n][1..];
      AtLeastDigits(s[1..], n - 1);
    }
  }

  lemma YearFollows(b: string)
    requires BeginsWithYear(b)
    ensures DateFollows(b)
  {
    hide Leading, AllDigits;
    if |b| > 4 && AllDigits(b[..4]) && b[4] in "./년" {
      AtLeastDigits(b, 4);
    } else {
      AtLeastDigits(b, 2);
    }
  }

  lemma Regroup(g: string, w: string, h: string, b: string)
    ensures (g + (w + h)) + b == g + (w + (h + b)) && |g + (w + h)| == |g| + |w| + |h|
  {
    assert (w + h) + b == w + (h + b);
  }

  ghost predicate SeparatedHere(a: string, between: string, b: string) {
    var s := a + (between + b);
    |a| < |s| && SeparatorAt(s, |a|) == |between| > 0
  }

  lemma WordSeparates(a: string, between: string, b: string)
    requires ByWord(between) && b != "" && !IsSpace(b[0])
    ensures SeparatedHere(a, between, b)
  {
    hide SeparatorAt, AllSpace, IsWord;
    var g, w, h :| between == g + (w + h) && AllSpace(g) && AllSpace(h) && IsWord(w);
    WordBefore(a, g, w, h, b);
    WordHasLength(w);
    Regroup(g, w, h, b);
  }

  lemma SpacedHyphenSeparates(a: string, between: string, b: string)
    requires BySpacedHyphen(between) && b != "" && !IsSpace(b[0])
    ensures SeparatedHere(a, between, b)
  {
    hide SeparatorAt, AllSpace;
    var g, h :| between == g + ("-" + h) && AllSpace(g) && AllSpace(h) && g != "" && h != "";
    HyphenBetween(a, g, h, b);
    Regroup(g, "-", h, b);
  }

  lemma SeparatorIs(a: string, between: string, b: string)
    requires IsPart(a) && IsPart(b) && Separates(a, between, b)
    ensures SeparatedHere(a, between, b)
  {
    DateCharIsPlain(b[0]);
    hide SeparatorAt, DateChar, BeginsWithYear, DateFollows, ByWord, BySpacedHyphen;
    if ByWord(between) {
      WordSeparates(a, between, b);
    } else if BySpacedHyphen(between) {
      SpacedHyphenSeparates(a, between, b);
    } else {
      YearFollows(b);
      HyphenBefore(a, b);
    }
  }

  lemma SpaceIsClosed(c: char)
    requires IsSpace(c) || c == '-' || c == '~' || c == '–' || c == '—' || c == '부' || c == 't' || c == 'T'
    ensures !IsDigit(c) && c !in "./년"
  {
  }

  lemma SeparatorIsClosed(a: string, between: string, b: string)
    requires Separates(a, between, b)
    ensures Closed(between + b) && between != ""
  {
    forall c | IsSpace(c) || c == '-' || c == '~' || c == '–' || c == '—' || c == '부' || c == 't' || c == 'T'
      ensures !IsDigit(c) && c !in "./년"
    {
      SpaceIsClosed(c);
    }
    hide IsSpace, IsDigit, BeginsWithYear;
    if ByWord(between) {
      var g, w, h :| between == g + (w + h) && AllSpace(g) && AllSpace(h) && IsWord(w);
      assert between[0] == if g != "" then g[0] else w[0];
    } else if BySpacedHyphen(between) {
      var g, h :| between == g + ("-" + h) && AllSpace(g) && AllSpace(h) && g != "" && h != "";
      assert between[0] == g[0];
    }
    assert (between + b)[0] == between[0];
  }

  /** Two dates with a separator between them are two parts. */
  lemma TwoParts(a: string, between: string, b: string)
    requires IsPart(a) && IsPart(b) && Separates(a, between, b)
    ensures PeriodParts(a + (between + b)) == [a, b]
  {
    hide SeparatorAt, Separates, IsPart, SplitFrom;
    var s, n, m := a + (between + b), |a|, |a| + |between|;
    SeparatorIs(a, between, b);
    SeparatorIsClosed(a, between, b);
    Pieces(a, between, b);
    PastPart("", a, between + b, 0);
    PastPart(a + between, b, "", 0);
    SplitHere(s, 0, n, |between|);
    SplitEnds(s, m);
  }

  lemma Pieces(a: string, between: string, b: string)
    ensures var s := a + (between + b);
      && s == "" + (a + (between + b)) == (a + between) + (b + "")
      && |s| == |a| + |between| + |b| && s[0..|a|] == a && s[|a| + |between|..] == b
  {
    Assoc(a, between, b);
    assert b + "" == b && "" + (a + (between + b)) == a + (between + b);
  }

  lemma SplitHere(s: string, start: nat, i: nat, n: nat)
    requires start <= i < |s| && SeparatorAt(s, i) == n > 0
    ensures SplitFrom(s, start, i) == [s[start..i]] + SplitFrom(s, i + n, i + n)
  {
    hide SeparatorAt;
  }

  lemma SplitEnds(s: string, start: nat)
    requires start <= |s|
    ensures SplitFrom(s, start, |s|) == [s[start..]]
  {
  }

  /** The part before a separator, whatever comes behind it. */
  lemma FirstPart(a: string, between: string, rest: string)
    requires IsPart(a) && ByWord(between) && (rest == "" || !IsSpace(rest[0]))
    ensures PeriodParts(a + (between + rest)) == [a] + SplitFrom(a + (between + rest), |a| + |between|, |a| + |between|)
  {
    hide SeparatorAt, IsPart, SplitFrom, ByWord;
    var s := a + (between + rest);
    WordSplits(a, between, rest);
    WordIsClosed(between, rest);
    Pieces(a, between, rest);
    PastPart("", a, between + rest, 0);
    SplitHere(s, 0, |a|, |between|);
  }

  lemma WordSplits(a: string, between: string, rest: string)
    requires ByWord(between) && (rest == "" || !IsSpace(rest[0]))
    ensures SeparatedHere(a, between, rest)
  {
    hide SeparatorAt, AllSpace, IsWord;
    var g, w, h :| between == g + (w + h) && AllSpace(g) && AllSpace(h) && IsWord(w);
    WordBefore(a, g, w, h, rest);
    WordHasLength(w);
    Regroup(g, w, h, rest);
  }

  lemma WordIsClosed(between: string, rest: string)
    requires ByWord(between)
    ensures Closed(between + rest)
  {
    SeparatorIsClosed("", between, rest);
  }

  /** Three dates with words between them are three parts, and so no period. */
  lemma ThreeParts(a: string, between: string, b: string, between': string, c: string)
    requires IsPart(a) && IsPart(b) && IsPart(c) && ByWord(between) && ByWord(between')
    ensures var s := a + (between + (b + (between' + c)));
      && PeriodParts(s) == [a, b, c] && PeriodStart(s) == None
  {
    hide SeparatorAt, IsPart, SplitFrom, ByWord, PeriodParts, DateChar;
    var tail := b + (between' + c);
    var s, m := a + (between + tail), |a| + |between|;
    StartsInInk(b, between' + c);
    StartsInInk(c, "");
    assert c + "" == c;
    FirstPart(a, between, tail);
    WordSplits(a + between + b, between', c);
    WordIsClosed(between', c);
    assert (a + between) + (b + (between' + c)) == s;
    assert (a + between + b) + (between' + c) == s;
    PastPart(a + between, b, between' + c, 0);
    SplitHere(s, m, m + |b|, |between'|);
    assert s[m..m + |b|] == b;
    var n := m + |b| + |between'|;
    assert (a + between + b + between') + (c + "") == s;
    PastPart(a + between + b + between', c, "", 0);
    SplitEnds(s, n);
    assert s[n..] == c;
    assert [a] + ([b] + [c]) == [a, b, c];
  }

  lemma StartsInInk(b: string, rest: string)
    requires IsPart(b)
    ensures b + rest != "" && !IsSpace((b + rest)[0])
  {
    DateCharIsPlain(b[0]);
  }

  /** What the column test takes for the start of a period. */
  lemma StartOfPeriod(a: string, between: string, b: string)
    requires IsPart(a) && IsPart(b) && Separates(a, between, b)
    ensures PeriodStart(a + (between + b)) == Some(a)
  {
    hide IsPart, Separates, PeriodParts;
    TwoParts(a, between, b);
  }

  /** A side that is missing is not filled in: the text is kept, and marked. */
  lemma MissingSideIsKept(raw: string, hint: string, a: string, between: string)
    requires Markdown.Joined(raw) == a + (between + "") && IsPart(a) && ByWord(between) && !IsSpace(between[|between| - 1])
    ensures FormatPeriod(raw, hint) == (Markdown.Joined(raw), Unresolved)
  {
    hide Markdown.Joined, PeriodParts, FormatDate, ByWord, DateChar, SplitFrom;
    var text, m := a + (between + ""), |a| + |between|;
    FirstPart(a, between, "");
    WordCloses(between);
    assert between + "" == between && text[|text| - 1] == between[|between| - 1];
    DateCharIsPlain(a[0]);
    SplitEnds(text, m);
    assert text[m..] == "" && |text| == m;
    OneLeft(a);
    NoSpaces();
    TrimTakesSpaces("", text, "");
    assert "" + text + "" == text && text + "" == text;
  }

  lemma WordCloses(between: string)
    requires ByWord(between)
    ensures between != "" && !Closes(between[|between| - 1])
  {
    var g, w, h :| between == g + (w + h) && AllSpace(g) && AllSpace(h) && IsWord(w);
    assert between[|between| - 1] == if h != "" then h[|h| - 1] else w[|w| - 1];
  }

  lemma OneLeft(a: string)
    requires a != ""
    ensures NonEmpty([a] + [""]) == [a]
  {
    assert ([a] + [""])[1..] == [""] && [""][1..] == [];
  }

  lemma {:induction false} NoneOpen(s: string)
    requires forall i :: 0 <= i < |s| ==> !Opens(s[i])
    ensures FirstOpen(s) == |s|
  {
    if s != "" {
      NoneOpen(s[1..]);
    }
  }

  /** Both parts. */
  lemma NoneEmpty(a: string, b: string)
    requires a != "" && b != ""
    ensures NonEmpty([a, b]) == [a, b]
  {
    assert [a, b][1..] == [b] && [b][1..] == [];
    assert NonEmpty([b]) == [b];
  }

  function StatusOf(a: Status, b: Status): Status { if a == Unresolved || b == Unresolved then Unresolved else Converted }

  /** Each is shown as its date, joined in one way whatever stood between them. */
  lemma PeriodIsShown(raw: string, hint: string, a: string, between: string, b: string)
    requires Markdown.Joined(raw) == a + (between + b) && IsPart(a) && IsPart(b) && Separates(a, between, b)
    ensures FormatPeriod(raw, hint)
         == (FormatDate(a, hint).0 + " ~ " + FormatDate(b, hint).0, StatusOf(FormatDate(a, hint).1, FormatDate(b, hint).1))
  {
    hide Markdown.Joined, PeriodParts, FormatDate, Separates, DateChar;
    var text := a + (between + b);
    DateCharIsPlain(b[|b| - 1]);
    assert text[|text| - 1] == b[|b| - 1];
    TwoParts(a, between, b);
    NoneEmpty(a, b);
    var shown := FormatDate(a, hint).0 + " ~ " + FormatDate(b, hint).0;
    assert shown + "" == shown;
  }

  /** A condition in brackets behind the dates is kept as it is. */
  lemma ConditionIsKept(raw: string, hint: string, a: string, between: string, b: string, gap: string, condition: string)
    requires Markdown.Joined(raw) == a + (between + b) + (gap + ("(" + condition + ")"))
    requires IsPart(a) && IsPart(b) && Separates(a, between, b) && AllSpace(gap)
    ensures FormatPeriod(raw, hint)
         == (FormatDate(a, hint).0 + " ~ " + FormatDate(b, hint).0 + " (" + condition + ")",
             StatusOf(FormatDate(a, hint).1, FormatDate(b, hint).1))
  {
    hide Markdown.Joined, PeriodParts, FormatDate, Separates, DateChar, AllSpace, Bracketed;
    BracketsApart(a, between, b, gap, condition);
    TwoParts(a, between, b);
    NoneEmpty(a, b);
    var shown := FormatDate(a, hint).0 + " ~ " + FormatDate(b, hint).0;
    assert shown + (" " + ("(" + condition + ")")) == shown + " (" + condition + ")";
  }

  lemma BracketsApart(a: string, between: string, b: string, gap: string, condition: string)
    requires IsPart(a) && IsPart(b) && Separates(a, between, b) && AllSpace(gap)
    ensures Bracketed(a + (between + b) + (gap + ("(" + condition + ")"))) == (a + (between + b), " " + ("(" + condition + ")"))
  {
    var body, tail := a + (between + b), "(" + condition + ")";
    var text := body + (gap + tail);
    NoneOpenBetween(a, between, b);
    hide Separates, DateChar, Trim;
    FirstIs(body + gap, tail);
    assert text == body + gap + tail;
    assert text[..|body + gap|] == body + gap && text[|body + gap|..] == tail;
    assert text[|text| - 1] == tail[|tail| - 1] == ')';
    TrimsTo(a, between, b, gap);
    NoSpaces();
    TrimTakesSpaces("", tail, "");
    assert "" + tail + "" == tail;
  }

  lemma TrimsTo(a: string, between: string, b: string, gap: string)
    requires IsPart(a) && IsPart(b) && AllSpace(gap)
    ensures Trim(a + (between + b) + gap) == a + (between + b)
  {
    hide DateChar;
    var body := a + (between + b);
    DateCharIsPlain(a[0]);
    DateCharIsPlain(b[|b| - 1]);
    assert body[0] == a[0] && body[|body| - 1] == b[|b| - 1];
    NoSpaces();
    TrimTakesSpaces("", body, gap);
    assert "" + body + gap == body + gap;
  }

  lemma {:induction false} FirstIs(front: string, tail: string)
    requires (forall i :: 0 <= i < |front| ==> !Opens(front[i])) && tail != "" && Opens(tail[0])
    ensures FirstOpen(front + tail) == |front|
  {
    if front == "" {
      assert front + tail == tail;
    } else {
      TailOfConcat(front, tail);
      FirstIs(front[1..], tail);
    }
  }

  lemma SpaceOpensNothing(c: char)
    requires IsSpace(c)
    ensures !Opens(c)
  {
  }

  lemma NoneOpenBetween(a: string, between: string, b: string)
    requires IsPart(a) && IsPart(b) && Separates(a, between, b)
    ensures forall i :: 0 <= i < |a + (between + b)| ==> !Opens((a + (between + b))[i])
  {
    var s := a + (between + b);
    forall c | DateChar(c) || IsSpace(c) ensures !Opens(c) {
      if DateChar(c) {
        DateCharIsPlain(c);
      } else {
        SpaceOpensNothing(c);
      }
    }
    hide DateChar, IsSpace;
    forall i | 0 <= i < |between| ensures !Opens(between[i]) {
      WordsOpenNothing(a, between, b, i);
    }
  }

  lemma WordsOpenNothing(a: string, between: string, b: string, i: nat)
    requires Separates(a, between, b) && i < |between|
    ensures !Opens(between[i])
  {
    forall c | IsSpace(c) ensures !Opens(c) {
      SpaceOpensNothing(c);
    }
    hide IsSpace;
    if ByWord(between) {
      var g, w, h :| between == g + (w + h) && AllSpace(g) && AllSpace(h) && IsWord(w);
      assert forall k :: 0 <= k < |w| ==> !Opens(w[k]);
    }
  }
}
