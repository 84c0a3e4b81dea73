/** What a rewritten table says, compared with the one it came from. */
module HarnessFacts {
  import opened Basics
  import opened Decimals
  import opened Digits
  import opened DecimalText
  import opened Markdown
  import opened Money
  import opened Percent
  import opened TableRows
  import opened Harness

  // ---- Which cells can fail ------------------------------------------------------------------------

  lemma DashHasNoDigits(raw: string)
    ensures OrAbsent(raw) == ABSENT ==> DigitsOf(raw) == ""
  {
  }

  lemma DashIsNoNumber()
    ensures Read(RemoveCommas(ABSENT)).None?
  {
    assert RemoveCommas(ABSENT[1..]) == "";
    assert RemoveCommas(ABSENT) == "-";
    assert ("-")[1..] == "";
  }

  /** A money cell always verifies: the conversion can be undone exactly. */
  lemma MoneyCellVerifies(fmt: Formats, unit: Shown, hint: string, raw: string)
    ensures Verify(CellFor(fmt, AsMoney(unit), hint, raw)).None?
  {
    hide Read, RemoveCommas, FormatMoney, ParseMoney, SameNumber, Value, Rounded, DigitsOf, ABSENT;
    match ParseMoney(raw)
    case None =>
      DashHasNoDigits(raw);
    case Some(v) =>
      MoneyRoundTrip(v, unit);
      DashIsNoNumber();
      SameNumberMeans(Times(Read(RemoveCommas(FormatMoney(v, unit))).value, Scale(unit)), v);
  }

  lemma TextCellVerifies(fmt: Formats, plan: Plan, hint: string, raw: string)
    requires plan.AsText? || plan.AsIs?
    ensures Verify(CellFor(fmt, plan, hint, raw)).None?
  {
    DashHasNoDigits(raw);
  }

  /** Only a ragged row, or a cell of a percent, date or period column, sends a table back. */
  lemma FallbackOnlyFrom(s: Setting, lines: seq<string>)
    requires |lines| >= 2 && !Passes(s, lines)
    ensures var header, rows := Cells(lines[0]), RowsOf(lines[2..]);
      !Rectangular(|header|, rows)
      || exists r, c :: 0 <= r < |rows| && 0 <= c < |header| && Verify(CellAt(s, rows, |header|, r, c)).Some?
                        && (var plan := PlanAt(s, rows, |header|, c); plan.AsPercent? || plan.AsDate? || plan.AsPeriod?)
  {
    hide Cells, Verify, CellFor, PlanFor, RowsOf;
    var header, rows := Cells(lines[0]), RowsOf(lines[2..]);
    if Rectangular(|header|, rows) {
      var r, c :| 0 <= r < |rows| && 0 <= c < |header| && Verify(CellAt(s, rows, |header|, r, c)).Some?;
      match PlanAt(s, rows, |header|, c)
      case AsMoney(unit) => MoneyCellVerifies(s.fmt, unit, s.hint, rows[r][c]);
      case AsText => TextCellVerifies(s.fmt, AsText, s.hint, rows[r][c]);
      case AsIs => TextCellVerifies(s.fmt, AsIs, s.hint, rows[r][c]);
      case _ =>
    }
  }

  // ---- What a money column looks like ----------------------------------------------------------------

  lemma {:induction false} CountedIsThere(values: seq<string>, p: string -> bool)
    requires CountOf(values, p) > 0
    ensures exists v :: v in values && p(v)
  {
    if p(values[0]) {
      assert values[0] in values;
    } else {
      CountedIsThere(values[1..], p);
      var v :| v in values[1..] && p(v);
      assert v in values;
    }
  }

  lemma {:induction false} FilledAreValues(values: seq<string>)
    ensures forall v :: v in Filled(values) ==> v in values
  {
    if values != [] {
      FilledAreValues(values[1..]);
      assert values == [values[0]] + values[1..];
    }
  }

  lemma {:induction false} AmountsOf(values: seq<string>)
    ensures Amounts(values) != [] <==> exists v :: v in values && ParseMoney(v).Some?
  {
    hide ParseMoney;
    if values != [] {
      AmountsOf(values[1..]);
      assert values == [values[0]] + values[1..];
    }
  }

  lemma MoneyIsMostly(fmt: Formats, values: seq<string>)
    requires KindOf(fmt, values) == MoneyKind
    ensures CountOf(Filled(values), IsAmount) > 0
  {
    hide CountOf, Filled, IsAmount, IsPercent, LooksLikePeriod, LooksLikeDate;
  }

  lemma MoneyColumnHasAmounts(fmt: Formats, values: seq<string>)
    requires KindOf(fmt, values) == MoneyKind
    ensures Amounts(values) != []
  {
    MoneyIsMostly(fmt, values);
    hide ParseMoney, KindOf, CountOf, Amounts, Filled;
    CountedIsThere(Filled(values), IsAmount);
    FilledAreValues(values);
    AmountsOf(values);
    var v :| v in Filled(values) && IsAmount(v);
    assert v in values;
  }

  /** A money column always finds a unit: the case of a column without amounts does not arise. */
  lemma MoneyPlanHasUnit(fmt: Formats, values: seq<string>, target: Option<Shown>)
    requires KindOf(fmt, values) == MoneyKind
    ensures PlanFor(fmt, values, target).AsMoney?
  {
    MoneyColumnHasAmounts(fmt, values);
    hide KindOf, Amounts, AllExact, FirstExact;
  }

  /** The heading of a money column names its unit. */
  lemma HeadingNamesUnit(header: string, unit: Shown)
    ensures Within("(" + Name(unit) + ")", Heading(header, AsMoney(unit)))
  {
    hide Name;
    var mark := "(" + Name(unit) + ")";
    if !Within(mark, header) {
      var heading := header + " (" + Name(unit) + ")";
      assert heading[|header| + 1..] == mark;
    }
  }

  // ---- The facts of one cell -------------------------------------------------------------------------

  /** The text itself, or a dash for none. */
  predicate Verbatim(text: string, shown: string) { shown == if text == "" then "-" else text }

  /**
   * `shown` says what `raw` said: the same amount, the same percentage, the same numbers of a
   * date - or, where nothing could be read, the same text.
   */
  ghost predicate SaysTheSame(s: Setting, plan: Plan, raw: string, shown: string) {
    match plan
    case AsIs => shown == raw
    case AsText => Verbatim(raw, shown)
    case AsMoney(unit) =>
      (match ParseMoney(raw)
       case None => Verbatim(raw, shown)
       case Some(v) =>
         var back := Read(RemoveCommas(shown));
         back.Some? && Value(Decimal(back.value.coef, back.value.exp + Scale(unit))) == Value(v))
    case AsPercent(decimals) =>
      (match WrittenPercent(Markdown.Joined(raw))
       case None => Verbatim(Markdown.Joined(raw), shown)
       case Some(d) => ReadPercent(shown).Some? && Value(ReadPercent(shown).value) == Value(d))
    case AsDate => DateKept(s, plan, raw, shown)
    case AsPeriod => DateKept(s, plan, raw, shown)
  }

  /** Unless the cell is marked unresolved, its numbers are those of the text, one for one. */
  ghost predicate DateKept(s: Setting, plan: Plan, raw: string, shown: string) {
    var cell := CellFor(s.fmt, plan, s.hint, raw);
    cell.status == Unresolved
    || SameTokens(NumberTokens(raw), NumberTokens(shown), cell.transform.CenturyExpanded?)
  }

  lemma {:induction false} NoDigitsNoTokens(t: string)
    requires DigitsOf(t) == ""
    ensures NumberTokens(t) == []
  {
    if t != "" {
      NoDigitsNoTokens(t[1..]);
    }
  }

  lemma DashHasNoTokens()
    ensures NumberTokens(ABSENT) == []
  {
    NoDigitsNoTokens(ABSENT);
  }

  lemma VerifiedDate(cell: Cell)
    requires cell.kind.DateKind? || cell.kind.PeriodKind?
    requires Verify(cell).None? && cell.status != Unresolved
    ensures NumbersKept(cell)
  {
    hide SameTokens, NumberTokens, DigitsOf, ABSENT;
    if cell.display == ABSENT {
      NoDigitsNoTokens(cell.raw);
      DashHasNoTokens();
      NothingToKeep(cell.transform.CenturyExpanded?);
    }
  }

  lemma NothingToKeep(century: bool)
    ensures SameTokens([], [], century)
  {
  }

  lemma UnreadPercent(raw: string, decimals: nat)
    requires WrittenPercent(Markdown.Joined(raw)).None?
    ensures FormatPercent(raw, decimals).0 == OrAbsent(Markdown.Joined(raw))
  {
    hide PercentOf, Magnitude, Display;
  }

  /** A verified cell says the same as the text it was made from. */
  lemma VerifiedCellSaysTheSame(s: Setting, plan: Plan, raw: string)
    requires Verify(CellFor(s.fmt, plan, s.hint, raw)).None?
    ensures SaysTheSame(s, plan, raw, CellFor(s.fmt, plan, s.hint, raw).display)
  {
    hide Verify, Read, RemoveCommas, FormatMoney, ParseMoney, Value, FormatPercent, WrittenPercent, ReadPercent, NumberTokens, SameTokens;
    var cell := CellFor(s.fmt, plan, s.hint, raw);
    match plan
    case AsIs =>
    case AsText =>
    case AsMoney(unit) =>
      match ParseMoney(raw) {
        case None =>
        case Some(v) => MoneyRoundTrip(v, unit);
      }
    case AsPercent(decimals) =>
      match WrittenPercent(Markdown.Joined(raw)) {
        case None => UnreadPercent(raw, decimals);
        case Some(d) => PercentKeepsValue(raw, decimals);
      }
    case AsDate =>
      if cell.status != Unresolved {
        VerifiedDate(cell);
      }
    case AsPeriod =>
      if cell.status != Unresolved {
        VerifiedDate(cell);
      }
  }

  // ---- What is shown can be read back ------------------------------------------------------------------

  predicate Inky(s: string) { forall i :: 0 <= i < |s| ==> !IsSpace(s[i]) && s[i] != '|' }

  lemma {:induction false} InkyIsEscaped(t: string, after: bool)
    requires Inky(t)
    ensures Escaped(t, after)
  {
    if t != "" {
      assert forall i :: 0 <= i < |t| - 1 ==> t[1..][i] == t[i + 1];
      InkyIsEscaped(t[1..], t[0] == '\\');
    }
  }

  lemma InkyIsClean(t: string)
    requires Inky(t)
    ensures Clean(t)
  {
    InkyIsEscaped(t, false);
  }

  lemma DigitsAreInky(t: string)
    requires AllDigits(t)
    ensures Inky(t)
  {
  }

  lemma InkyConcat(a: string, b: string)
    requires Inky(a) && Inky(b)
    ensures Inky(a + b)
  {
  }

  lemma InkySigned(negative: bool, t: string)
    requires Inky(t)
    ensures Inky(Signed(negative, t))
  {
  }

  lemma {:induction false} GroupIsInky(t: string)
    requires AllDigits(t)
    ensures Inky(Group(t))
  {
    if |t| > 3 {
      GroupIsInky(t[..|t| - 3]);
      InkyConcat(Group(t[..|t| - 3]), ",");
      InkyConcat(Group(t[..|t| - 3]) + ",", t[|t| - 3..]);
    }
  }

  lemma {:induction false} DropIsInky(t: string, c: char)
    requires Inky(t)
    ensures Inky(DropTrailing(t, c))
  {
    if t != "" && t[|t| - 1] == c {
      DropIsInky(t[..|t| - 1], c);
    }
  }

  lemma MoneyIsInky(v: Amount, unit: Unit)
    ensures Inky(FormatMoney(v, unit))
  {
    hide Pow10, IsIntegral, Group, OfNat, Inky, DropTrailing, WholeDigits, FracDigits, Signed, AllDigits;
    var q := Quotient(v, unit);
    hide Quotient;
    if IsIntegral(q) {
      GroupIsInky(OfNat(Abs(Whole(q))));
      InkySigned(Whole(q) < 0, Group(OfNat(Abs(Whole(q)))));
    } else {
      IntegralAbove(q);
      var n, k := Abs(q.coef), -q.exp;
      SplitDigits(n, k);
      GroupIsInky(WholeDigits(n, k));
      DigitsAreInky(FracDigits(n, k));
      PointIsInky(Group(WholeDigits(n, k)), FracDigits(n, k));
      InkySigned(q.coef < 0, Group(WholeDigits(n, k)) + "." + FracDigits(n, k));
      DropIsInky(GroupedFixed(q), '0');
      DropIsInky(DropTrailing(GroupedFixed(q), '0'), '.');
    }
  }

  lemma IntegralAbove(d: Decimal)
    requires !IsIntegral(d)
    ensures d.exp < 0
  {
  }

  lemma PointIsInky(whole: string, frac: string)
    requires Inky(whole) && Inky(frac)
    ensures Inky(whole + "." + frac)
  {
  }

  lemma FixedIsInky(negative: bool, coef: nat, k: nat)
    ensures Inky(Fixed(negative, coef, k))
  {
    hide WholeDigits, FracDigits, AllDigits, Inky, Signed;
    SplitDigits(coef, k);
    var whole, frac := WholeDigits(coef, k), FracDigits(coef, k);
    DigitsAreInky(whole);
    DigitsAreInky(frac);
    PointIsInky(whole, frac);
    InkySigned(negative, Pointed(whole, frac));
  }

  lemma StrIsInky(negative: bool, coef: nat, k: nat)
    ensures Inky(Str(negative, coef, k))
  {
    hide Fixed, AllDigits, OfNat, Signed;
    var digits := OfNat(coef);
    if |digits| - k > -6 {
      FixedIsInky(negative, coef, k);
    } else {
      var e := OfNat(k - |digits| + 1);
      DigitsAreInky(digits);
      DigitsAreInky(e);
      PointIsInky(digits[..1], digits[1..]);
      var mantissa := Pointed(digits[..1], digits[1..]);
      hide Inky, Pointed;
      ExponentIsInky(mantissa, e);
      InkySigned(negative, mantissa + "E-" + e);
    }
  }

  lemma ExponentIsInky(mantissa: string, e: string)
    requires Inky(mantissa) && Inky(e)
    ensures Inky(mantissa + "E-" + e)
  {
  }

  lemma DisplayIsInky(negative: bool, coef: nat, k: nat, decimals: nat)
    ensures Inky(Display(negative, coef, k, decimals).0)
  {
    hide Fixed, Str, Pow10;
    assert Inky("%");
    hide Inky;
    if k > decimals {
      StrIsInky(negative, coef, k);
      InkyConcat(Str(negative, coef, k), "%");
    } else {
      FixedIsInky(negative, coef * Pow10(decimals - k), decimals);
      InkyConcat(Fixed(negative, coef * Pow10(decimals - k), decimals), "%");
    }
  }

  lemma AbsentIsClean()
    ensures Clean(ABSENT)
  {
    InkyIsClean(ABSENT);
  }

  lemma PercentIsClean(raw: string, decimals: nat)
    requires Clean(raw)
    ensures Clean(FormatPercent(raw, decimals).0)
  {
    hide Markdown.Joined, PercentOf, Magnitude, Display, Escaped, Trimmed, ABSENT;
    var text := Markdown.Joined(raw);
    JoinedIsClean(raw);
    AbsentIsClean();
    match PercentOf(text)
    case None =>
    case Some(c) =>
      match Magnitude(c)
      case None =>
      case Some(d) =>
        DisplayIsInky(c.sign != "", Abs(d.coef), Places(d), decimals);
        InkyIsClean(Display(c.sign != "", Abs(d.coef), Places(d), decimals).0);
  }

  /** The formatters put no bare pipe and no outer space into a cell that had none. */
  ghost predicate KeepsClean(fmt: Formats) {
    forall raw: string, hint: string ::
      Clean(raw) && AllDigits(hint) ==> Clean(fmt.date(raw, hint).0) && Clean(fmt.period(raw, hint).0)
  }

  lemma ShownIsClean(s: Setting, plan: Plan, raw: string)
    requires Clean(raw) && KeepsClean(s.fmt) && AllDigits(s.hint)
    ensures Clean(CellFor(s.fmt, plan, s.hint, raw).display)
  {
    hide Clean, AllDigits, ParseMoney, FormatMoney, FormatPercent, ABSENT;
    AbsentIsClean();
    match plan
    case AsMoney(unit) => {
      match ParseMoney(raw) {
        case None =>
        case Some(v) =>
          MoneyIsInky(v, unit);
          InkyIsClean(FormatMoney(v, unit));
      }
    }
    case AsPercent(decimals) => PercentIsClean(raw, decimals);
    case _ =>
  }

  // ---- A whole table ---------------------------------------------------------------------------------

  /** Every rewritten row reads back as exactly the cells that were rendered. */
  lemma RowsReadBack(s: Setting, lines: seq<string>, r: nat)
    requires |lines| >= 2 && r < |lines| - 2 && Passes(s, lines)
    requires KeepsClean(s.fmt) && AllDigits(s.hint)
    ensures var header, rows := Cells(lines[0]), RowsOf(lines[2..]);
      Cells(Formatted(s, lines)[2 + r]) == Displays(s, rows, |header|, r)
  {
    hide Cells, Clean, CellFor, PlanFor, KeepsClean, AllDigits, AllVerify, Render, Heading;
    var header, rows := Cells(lines[0]), RowsOf(lines[2..]);
    var shown := Displays(s, rows, |header|, r);
    CellsAreClean(lines[2 + r]);
    forall c | 0 <= c < |header| ensures Clean(shown[c]) {
      ShownIsClean(s, PlanAt(s, rows, |header|, c), rows[r][c]);
    }
    RowReadsBack(shown);
  }

  /**
   * A table that is rewritten keeps its lines, its columns and its facts: read back, each cell
   * says the same as the cell that was there.
   */
  lemma TableKeepsFacts(s: Setting, lines: seq<string>, r: nat, c: nat)
    requires |lines| >= 2 && r < |lines| - 2 && c < |Cells(lines[0])| && Passes(s, lines)
    requires KeepsClean(s.fmt) && AllDigits(s.hint)
    ensures var header, rows, out := Cells(lines[0]), RowsOf(lines[2..]), Formatted(s, lines);
      && |out| == |lines| && out[1] == lines[1]
      && |Cells(out[2 + r])| == |Cells(lines[2 + r])| == |header|
      && SaysTheSame(s, PlanAt(s, rows, |header|, c), Cells(lines[2 + r])[c], Cells(out[2 + r])[c])
  {
    hide Cells, CellFor, PlanFor, KeepsClean, AllDigits, SaysTheSame, Verify, Render, Heading;
    var header, rows := Cells(lines[0]), RowsOf(lines[2..]);
    RowsReadBack(s, lines, r);
    assert rows[r] == Cells(lines[2 + r]);
    assert Verify(CellAt(s, rows, |header|, r, c)).None?;
    VerifiedCellSaysTheSame(s, PlanAt(s, rows, |header|, c), rows[r][c]);
  }
}
