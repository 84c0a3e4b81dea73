/**
 * What decides the format of a column, which unit its amounts are shown in, and what becomes of
 * its heading (src/tybot/canvas_harness.py).
 */
module HarnessColumns {
  import opened Basics
  import opened Decimals
  import opened Digits
  import opened Markdown
  import opened Money
  import opened Percent
  import opened TableRows
  import opened TableText
  import opened Harness
  import opened HarnessFacts
  import opened PercentText

  // ---- Kinds -----------------------------------------------------------------------------------

  /** The cells with something in them. */
  function FilledAt(values: seq<string>): set<nat> { set i | 0 <= i < |values| && Trim(values[i]) != "" :: i }

  function FilledWith(values: seq<string>, p: string -> bool): set<nat> {
    set i | 0 <= i < |values| && Trim(values[i]) != "" && p(values[i]) :: i
  }

  /** More than half of the filled cells. */
  predicate Prevails(values: seq<string>, p: string -> bool) { 2 * |FilledWith(values, p)| > |FilledAt(values)| }

  lemma {:induction false} FilledSnoc(values: seq<string>, last: string)
    ensures Filled(values + [last]) == Filled(values) + if Trim(last) != "" then [last] else []
  {
    hide Trim;
    if values == [] {
      assert [] + [last] == [last] && [last][1..] == [];
    } else {
      FilledSnoc(values[1..], last);
      assert (values + [last])[0] == values[0] && (values + [last])[1..] == values[1..] + [last];
    }
  }

  lemma {:induction false} CountSnoc(values: seq<string>, last: string, p: string -> bool)
    ensures CountOf(values + [last], p) == CountOf(values, p) + if p(last) then 1 else 0
  {
    if values == [] {
      assert [] + [last] == [last] && [last][1..] == [];
    } else {
      CountSnoc(values[1..], last, p);
      assert (values + [last])[1..] == values[1..] + [last];
    }
  }

  lemma FilledAtSnoc(values: seq<string>, last: string)
    ensures |FilledAt(values + [last])| == |FilledAt(values)| + if Trim(last) != "" then 1 else 0
  {
    hide Trim;
    var all, n := values + [last], |values|;
    assert all[n] == last && forall i :: 0 <= i < n ==> all[i] == values[i];
    assert FilledAt(all) == FilledAt(values) + if Trim(last) != "" then {n} else {};
  }

  lemma FilledWithSnoc(values: seq<string>, last: string, p: string -> bool)
    ensures |FilledWith(values + [last], p)| == |FilledWith(values, p)| + if Trim(last) != "" && p(last) then 1 else 0
  {
    hide Trim;
    var all, n := values + [last], |values|;
    assert all[n] == last && forall i :: 0 <= i < n ==> all[i] == values[i];
    assert FilledWith(all, p) == FilledWith(values, p) + if Trim(last) != "" && p(last) then {n} else {};
  }

  lemma {:induction false} CountedFilled(values: seq<string>, p: string -> bool)
    ensures |Filled(values)| == |FilledAt(values)| && CountOf(Filled(values), p) == |FilledWith(values, p)|
  {
    if values != [] {
      hide Trim, Filled, CountOf, FilledAt, FilledWith;
      var front, last := values[..|values| - 1], values[|values| - 1];
      CountedFilled(front, p);
      assert values == front + [last];
      FilledSnoc(front, last);
      CountSnoc(Filled(front), last, p);
      FilledAtSnoc(front, last);
      FilledWithSnoc(front, last, p);
      assert Filled(front) + [] == Filled(front);
    }
  }

  lemma PrevailsIff(values: seq<string>, p: string -> bool)
    ensures Mostly(Filled(values), p) <==> Prevails(values, p)
  {
    hide Filled, CountOf;
    CountedFilled(values, p);
  }

  lemma NothingPrevails(values: seq<string>, p: string -> bool)
    requires Filled(values) == []
    ensures !Prevails(values, p)
  {
    PrevailsIff(values, p);
  }

  /** Written as a percentage, with or without a digit. */
  ghost predicate SaysPercent(v: string) {
    exists sign, run, places, gap :: HasForm(Trim(v), sign, run, places, gap)
  }

  /** Converted, or left for a human, by the date formatter with no hint. */
  predicate SaysDate(fmt: Formats, v: string) {
    fmt.date(v, "").1 == Converted || fmt.date(v, "").1 == Unresolved
  }

  /** Of exactly two parts, the first of them a date. */
  predicate SaysPeriod(fmt: Formats, v: string) {
    match fmt.start(Trim(v))
    case None => false
    case Some(start) => SaysDate(fmt, start)
  }

  lemma SaysPercentIff(v: string)
    ensures SaysPercent(v) <==> IsPercent(v)
  {
    hide Trim, HasForm, PercentOf;
    if PercentOf(Trim(v)).Some? {
      var sign, run, places, gap := CapturedHasForm(Trim(v));
    }
    if sign, run, places, gap :| HasForm(Trim(v), sign, run, places, gap) {
      FormIsCaptured(Trim(v), sign, run, places, gap);
    }
  }

  lemma SameCells(values: seq<string>, p: string -> bool, q: string -> bool)
    requires forall v :: p(v) == q(v)
    ensures Prevails(values, p) <==> Prevails(values, q)
  {
    hide Trim;
    assert FilledWith(values, p) == FilledWith(values, q);
  }

  /** The kind that was found first, of those that more than half of the filled cells are of. */
  lemma FirstKind(fmt: Formats, values: seq<string>)
    ensures var period, date := v => LooksLikePeriod(fmt, v), v => LooksLikeDate(fmt, v);
      KindOf(fmt, values)
      == if Prevails(values, IsPercent) then PercentKind else if Prevails(values, IsAmount) then MoneyKind
         else if Prevails(values, period) then PeriodKind else if Prevails(values, date) then DateKind else TextKind
  {
    var period, date := v => LooksLikePeriod(fmt, v), v => LooksLikeDate(fmt, v);
    hide Prevails, Mostly, Filled, IsPercent, IsAmount, LooksLikePeriod, LooksLikeDate;
    PrevailsIff(values, IsPercent);
    PrevailsIff(values, IsAmount);
    PrevailsIff(values, period);
    PrevailsIff(values, date);
    if Filled(values) == [] {
      NothingPrevails(values, IsPercent);
      NothingPrevails(values, IsAmount);
      NothingPrevails(values, period);
      NothingPrevails(values, date);
    }
  }

  /**
   * A column is of the first of the four kinds that more than half of its filled cells are of:
   * percentages, amounts, periods, dates; otherwise it is text.
   */
  lemma KindIs(fmt: Formats, values: seq<string>, percent: string -> bool)
    requires forall v :: percent(v) <==> SaysPercent(v)
    ensures var amount, period, date := v => ParseMoney(v).Some?, v => SaysPeriod(fmt, v), v => SaysDate(fmt, v);
      KindOf(fmt, values)
      == if Prevails(values, percent) then PercentKind else if Prevails(values, amount) then MoneyKind
         else if Prevails(values, period) then PeriodKind else if Prevails(values, date) then DateKind else TextKind
  {
    var amount, period, date := v => ParseMoney(v).Some?, v => SaysPeriod(fmt, v), v => SaysDate(fmt, v);
    forall v ensures percent(v) == IsPercent(v) {
      SaysPercentIff(v);
    }
    hide SaysPercent, IsPercent, ParseMoney, Prevails, KindOf;
    FirstKind(fmt, values);
    SameCells(values, percent, IsPercent);
    SameCells(values, amount, IsAmount);
    SameCells(values, period, v => LooksLikePeriod(fmt, v));
    SameCells(values, date, v => LooksLikeDate(fmt, v));
  }

  // ---- The unit of a column --------------------------------------------------------------------

  /** Every amount of the column can be shown in the unit without rounding. */
  predicate SuitsColumn(values: seq<string>, u: Unit) {
    forall i :: 0 <= i < |values| && ParseMoney(values[i]).Some? ==> ExactIn(ParseMoney(values[i]).value, u)
  }

  lemma {:induction false} SuitsIff(values: seq<string>, u: Unit)
    ensures AllExact(Amounts(values), u) <==> SuitsColumn(values, u)
  {
    hide ParseMoney, ExactIn;
    if values != [] {
      SuitsIff(values[1..], u);
      SuitsNext(values, u);
      if ParseMoney(values[0]).Some? {
        ExactNext(ParseMoney(values[0]).value, Amounts(values[1..]), u);
      }
      hide AllExact, SuitsColumn;
    }
  }

  lemma ExactNext(v: Amount, rest: seq<Amount>, u: Unit)
    ensures AllExact([v] + rest, u) <==> ExactIn(v, u) && AllExact(rest, u)
  {
    hide ExactIn;
    var all := [v] + rest;
    assert all[0] == v;
    if AllExact(all, u) {
      forall i | 0 <= i < |rest| ensures ExactIn(rest[i], u) {
        assert all[i + 1] == rest[i];
      }
    }
  }

  lemma SuitsNext(values: seq<string>, u: Unit)
    requires values != []
    ensures SuitsColumn(values, u)
       <==> (ParseMoney(values[0]).Some? ==> ExactIn(ParseMoney(values[0]).value, u)) && SuitsColumn(values[1..], u)
  {
    hide ExactIn, ParseMoney;
    if SuitsColumn(values, u) {
      forall i | 0 <= i < |values[1..]| && ParseMoney(values[1..][i]).Some?
        ensures ExactIn(ParseMoney(values[1..][i]).value, u)
      {
        assert values[i + 1] == values[1..][i];
      }
    }
  }

  /**
   * A money column is shown in the unit asked for if that suits all its amounts, and otherwise in
   * the largest unit that does - or in won, when none does.
   */
  lemma ColumnUnitIs(s: Setting, values: seq<string>, u: Shown)
    requires PlanFor(s.fmt, values, s.Preferred()) == AsMoney(u)
    ensures var asked := ShownUnit(s.target);
      && (asked.Some? && SuitsColumn(values, asked.value) ==> u == asked.value)
      && (asked.None? || !SuitsColumn(values, asked.value) ==>
            (SuitsColumn(values, u) <==> SuitsColumn(values, Won))
            && (SuitsColumn(values, Won) ==> forall w: Shown :: SuitsColumn(values, w) ==> Scale(w) <= Scale(u))
            && (!SuitsColumn(values, Won) ==> u == Won))
  {
    hide KindOf, Amounts, AllExact, SuitsColumn, FirstExact, ShownUnit;
    assert KindOf(s.fmt, values) == MoneyKind;
    var asked := ShownUnit(s.target);
    forall w: Unit ensures AllExact(Amounts(values), w) <==> SuitsColumn(values, w) {
      SuitsIff(values, w);
    }
    MoneyColumnHasAmounts(s.fmt, values);
    if asked.None? || !AllExact(Amounts(values), asked.value) {
      CommonUnitIsLargest(Amounts(values), asked);
    }
  }

  // ---- Headings --------------------------------------------------------------------------------

  /** What is read from a heading: itself, with the unit behind it if it did not name it. */
  function HeadingRead(header: string, plan: Plan): string {
    if plan.AsMoney? && !Within("(" + Name(plan.unit) + ")", header) then
      var mark := "(" + Name(plan.unit) + ")";
      if header == "" then mark else header + (" " + mark)
    else header
  }

  lemma UnitIsInky(u: Shown)
    ensures Inky("(" + Name(u) + ")") && Inky(Name(u))
  {
  }

  lemma {:induction false} EscapedJoin(a: string, b: string, after: bool)
    requires Escaped(a, after) && '|' !in b
    ensures Escaped(a + b, after)
  {
    if a == "" {
      assert a + b == b;
      NoPipe(b, after);
    } else {
      TailOfConcat(a, b);
      EscapedJoin(a[1..], b, a[0] == '\\');
    }
  }

  lemma {:induction false} NoPipe(b: string, after: bool)
    requires '|' !in b
    ensures Escaped(b, after)
  {
    if b != "" {
      NoPipe(b[1..], b[0] == '\\');
    }
  }

  lemma WithUnitIsClean(header: string, mark: string)
    requires Clean(header) && Inky(mark) && mark != ""
    ensures Clean(mark) && (header != "" ==> Clean(header + (" " + mark)))
  {
    InkyIsClean(mark);
    EscapedJoin(header, " " + mark, false);
    hide Escaped;
  }

  lemma Parenthesised(header: string, name: string)
    ensures header + " (" + name + ")" == header + (" " + ("(" + name + ")"))
    ensures "" + (" " + ("(" + name + ")")) == " " + ("(" + name + ")")
    ensures "(" + name + ")" != ""
  {
  }

  lemma HeadingIsClean(header: string, plan: Plan)
    requires Clean(header)
    ensures Clean(HeadingRead(header, plan))
    ensures Heading(header, plan) == HeadingRead(header, plan) || Heading(header, plan) == " " + HeadingRead(header, plan)
  {
    hide Within, Clean, Inky;
    if plan.AsMoney? {
      UnitIsInky(plan.unit);
      hide Name;
      var mark := "(" + Name(plan.unit) + ")";
      WithUnitIsClean(header, mark);
      Parenthesised(header, Name(plan.unit));
    }
  }

  /** Read back, the heading row of a rewritten table is the old one with units added where money columns did not name theirs. */
  lemma HeadingsReadBack(s: Setting, lines: seq<string>, c: nat)
    requires |lines| >= 2 && c < |Cells(lines[0])| && Passes(s, lines)
    ensures var header, rows, out := Cells(lines[0]), RowsOf(lines[2..]), Formatted(s, lines);
      && |Cells(out[0])| == |header|
      && Cells(out[0])[c] == HeadingRead(header[c], PlanAt(s, rows, |header|, c))
  {
    hide Cells, Clean, HeadingRead, PlanFor, AllVerify, Render, Heading;
    var header, rows := Cells(lines[0]), RowsOf(lines[2..]);
    var shown := Headings(s, header, rows);
    CellsAreClean(lines[0]);
    var cores := seq(|header|, i requires 0 <= i < |header| => HeadingRead(header[i], PlanAt(s, rows, |header|, i)));
    forall i | 0 <= i < |header| ensures Clean(cores[i]) && (shown[i] == cores[i] || shown[i] == " " + cores[i]) {
      HeadingIsClean(header[i], PlanAt(s, rows, |header|, i));
    }
    SpacedRowReadsBack(shown, cores);
  }

  // ---- Counts ----------------------------------------------------------------------------------

  /** A cell is converted if its amount was, and otherwise what its formatter said. */
  lemma CellStatusIs(fmt: Formats, plan: Plan, hint: string, raw: string)
    ensures CellFor(fmt, plan, hint, raw).status
         == match plan
            case AsIs => Exact
            case AsText => Exact
            case AsMoney(_) => if ParseMoney(raw).Some? then Converted else Exact
            case AsPercent(decimals) => FormatPercent(raw, decimals).1
            case AsDate => fmt.date(raw, hint).1
            case AsPeriod => fmt.period(raw, hint).1
  {
    hide ParseMoney, FormatPercent;
  }

  function Places(columns: seq<seq<Cell>>, status: Status): set<(nat, nat)> {
    set c, r | 0 <= c < |columns| && 0 <= r < |columns[c]| && columns[c][r].status == status :: (c, r)
  }

  /** For each cell of a column, whether it has the status. */
  function Marks(cells: seq<Cell>, status: Status): (marks: seq<bool>)
    ensures |marks| == |cells|
  {
    seq(|cells|, r requires 0 <= r < |cells| => cells[r].status == status)
  }

  function MarkedIn(marks: seq<bool>, c: nat): set<(nat, nat)> { set r | 0 <= r < |marks| && marks[r] :: (c, r) }

  function PlacesInColumn(cells: seq<Cell>, status: Status, c: nat): set<(nat, nat)> { MarkedIn(Marks(cells, status), c) }

  lemma MarkedSnoc(marks: seq<bool>, last: bool, c: nat)
    ensures |MarkedIn(marks + [last], c)| == |MarkedIn(marks, c)| + if last then 1 else 0
  {
    var all, n := marks + [last], |marks|;
    var before, after := MarkedIn(marks, c), MarkedIn(all, c);
    assert (c, n) !in before;
    forall p: (nat, nat) ensures p in after <==> p in before || (last && p == (c, n)) {
      assert p in after <==> p.0 == c && p.1 < |all| && all[p.1];
      assert p in before <==> p.0 == c && p.1 < n && marks[p.1];
    }
    assert after == if last then before + {(c, n)} else before;
  }

  lemma ColumnSnoc(cells: seq<Cell>, last: Cell, status: Status, c: nat)
    ensures |PlacesInColumn(cells + [last], status, c)|
         == |PlacesInColumn(cells, status, c)| + if last.status == status then 1 else 0
  {
    MarkedSnoc(Marks(cells, status), last.status == status, c);
    assert Marks(cells + [last], status) == Marks(cells, status) + [last.status == status];
  }

  lemma {:induction false} ColumnCount(cells: seq<Cell>, status: Status, c: nat)
    ensures StatusCount(cells, status) == |PlacesInColumn(cells, status, c)|
  {
    if cells == [] {
      assert PlacesInColumn(cells, status, c) == {};
    } else {
      hide PlacesInColumn;
      ColumnCount(cells[..|cells| - 1], status, c);
      ColumnSnoc(cells[..|cells| - 1], cells[|cells| - 1], status, c);
      assert cells == cells[..|cells| - 1] + [cells[|cells| - 1]];
    }
  }

  lemma InColumn(cells: seq<Cell>, status: Status, n: nat)
    ensures forall c: nat, r: nat :: (c, r) in PlacesInColumn(cells, status, n) <==> c == n && r < |cells| && cells[r].status == status
  {
  }

  lemma InTable(columns: seq<seq<Cell>>, status: Status)
    ensures forall c: nat, r: nat ::
      (c, r) in Places(columns, status) <==> c < |columns| && r < |columns[c]| && columns[c][r].status == status
  {
  }

  lemma TableSnoc(columns: seq<seq<Cell>>, last: seq<Cell>, status: Status)
    ensures |Places(columns + [last], status)| == |Places(columns, status)| + |PlacesInColumn(last, status, |columns|)|
  {
    var all, n := columns + [last], |columns|;
    var before, more, after := Places(columns, status), PlacesInColumn(last, status, n), Places(all, status);
    InColumn(last, status, n);
    InTable(columns, status);
    InTable(all, status);
    hide Places, PlacesInColumn;
    assert all[n] == last && forall c :: 0 <= c < n ==> all[c] == columns[c];
    forall c: nat, r: nat ensures (c, r) in after <==> (c, r) in before || (c, r) in more {
    }
    SameUnion(before, more, after);
  }

  lemma SameUnion(before: set<(nat, nat)>, more: set<(nat, nat)>, after: set<(nat, nat)>)
    requires forall c: nat, r: nat :: (c, r) in after <==> (c, r) in before || (c, r) in more
    requires forall c: nat, r: nat :: (c, r) in more ==> (c, r) !in before
    ensures |after| == |before| + |more|
  {
    forall p ensures p in after <==> p in before || p in more {
      assert p == (p.0, p.1);
    }
    assert after == before + more;
    forall p | p in more ensures p !in before {
      assert p == (p.0, p.1);
    }
  }

  lemma {:induction false} TableCount(columns: seq<seq<Cell>>, status: Status)
    ensures TotalCount(columns, status) == |Places(columns, status)|
  {
    if columns == [] {
      assert Places(columns, status) == {};
    } else {
      var front, last := columns[..|columns| - 1], columns[|columns| - 1];
      hide Places, PlacesInColumn, StatusCount;
      TableCount(front, status);
      ColumnCount(last, status, |front|);
      TableSnoc(front, last, status);
      assert columns == front + [last];
    }
  }

  /** The counts of a rewritten table are the numbers of its cells with that status. */
  lemma CountsAreCells(s: Setting, lines: seq<string>, status: Status)
    requires |lines| >= 2 && Passes(s, lines)
    ensures var header, rows := Cells(lines[0]), RowsOf(lines[2..]);
      Cellwise(s, lines, status)
      == |set c, r | 0 <= c < |header| && 0 <= r < |rows| && CellAt(s, rows, |header|, r, c).status == status :: (c, r)|
  {
    hide Cells, RowsOf, AllVerify, CellFor, PlanFor, TotalCount;
    var header, rows := Cells(lines[0]), RowsOf(lines[2..]);
    var columns := Columns(s, rows, |header|);
    TableCount(columns, status);
    assert Places(columns, status)
        == set c, r | 0 <= c < |header| && 0 <= r < |rows| && CellAt(s, rows, |header|, r, c).status == status :: (c, r);
  }
}
