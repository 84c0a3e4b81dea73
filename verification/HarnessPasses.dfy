/** When a table passes at all, with the module's own formatters: the checks of its cells put together. */
module HarnessPasses {
  import opened Basics
  import opened Digits
  import opened Markdown
  import opened Percent
  import opened PercentCheck
  import opened Harness
  import opened HarnessFacts
  import opened Dates
  import opened DatesNumbers

  /** A percentage is shown without an exponent, and was written with no zero too many or is zero. */
  predicate PercentFits(raw: string, decimals: nat) {
    var text := Joined(raw);
    WrittenPercent(text).Some? ==>
      var c := PercentOf(text).value;
      var d := Magnitude(c).value;
      !Exponential(d, decimals) && (NoExtraZero(WholeOf(c.number)) || d.coef == 0)
  }

  /** What the check of a cell comes to, in terms of its text and its column's plan. */
  predicate CellFits(plan: Plan, hint: string, raw: string) {
    match plan
    case AsPercent(decimals) => PercentFits(raw, decimals)
    case AsDate => DateFits(raw, hint)
    case AsPeriod => PeriodFits(raw, hint)
    case _ => true
  }

  /** A percent cell that cannot be read is shown as it is, or marked. */
  lemma UnreadablePercentPasses(raw: string, decimals: nat, hint: string)
    requires WrittenPercent(Joined(raw)).None?
    ensures Verify(CellFor(TYBOT_FORMATS, AsPercent(decimals), hint, raw)).None?
  {
    hide Collapsed, DigitsOf, PercentOf, Magnitude, ABSENT;
    DigitsOfCollapsed(TrimLeft(raw));
    DigitsOfCollapsed(raw);
    DashOnly();
  }

  lemma CellPassesIff(plan: Plan, hint: string, raw: string)
    requires AllDigits(hint)
    ensures Verify(CellFor(TYBOT_FORMATS, plan, hint, raw)).None? <==> CellFits(plan, hint, raw)
  {
    hide Verify, CellFor, DateFits, PeriodFits, WrittenPercent, Exponential, NoExtraZero, WholeOf, PercentOf, Magnitude, Joined;
    match plan {
      case AsPercent(decimals) =>
        if WrittenPercent(Joined(raw)).Some? {
          PercentPassesIff(TYBOT_FORMATS, hint, raw, decimals);
        } else {
          UnreadablePercentPasses(raw, decimals, hint);
        }
      case AsDate => DateCellPassesIff(raw, hint);
      case AsPeriod => PeriodCellPassesIff(raw, hint);
      case AsMoney(unit) => MoneyCellVerifies(TYBOT_FORMATS, unit, hint, raw);
      case AsText => TextCellVerifies(TYBOT_FORMATS, plan, hint, raw);
      case AsIs => TextCellVerifies(TYBOT_FORMATS, plan, hint, raw);
    }
  }

  /**
   * A table is rewritten exactly when every row is as wide as the header and every cell of a
   * percent, date or period column fits; what stands in money and text columns never matters.
   */
  lemma TablePassesIff(s: Setting, lines: seq<string>)
    requires |lines| >= 2 && s.fmt == TYBOT_FORMATS && AllDigits(s.hint)
    ensures var header, rows := Cells(lines[0]), RowsOf(lines[2..]);
      Passes(s, lines)
      <==> Rectangular(|header|, rows)
           && forall r, c :: 0 <= r < |rows| && 0 <= c < |header| ==>
                CellFits(PlanAt(s, rows, |header|, c), s.hint, rows[r][c])
  {
    hide Cells, Verify, CellFor, PlanFor, RowsOf, CellFits, TYBOT_FORMATS;
    var header, rows := Cells(lines[0]), RowsOf(lines[2..]);
    if Rectangular(|header|, rows) {
      forall r, c | 0 <= r < |rows| && 0 <= c < |header|
        ensures Verify(CellAt(s, rows, |header|, r, c)).None? <==> CellFits(PlanAt(s, rows, |header|, c), s.hint, rows[r][c])
      {
        CellPassesIff(PlanAt(s, rows, |header|, c), s.hint, rows[r][c]);
      }
    }
  }
}
