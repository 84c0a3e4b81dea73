/**
 * The table part of src/tybot/canvas_harness.py: every column gets one format, every cell is
 * checked against the text it came from, and one failing cell leaves the whole table as it was.
 *
 * The date and period formatters are parameters: nothing below depends on what they return.
 */
module Harness {
  import opened Basics
  import opened Decimals
  import opened Digits
  import opened DecimalText
  import opened Markdown
  import opened Money
  import opened Percent
  import opened TableRows

  /**
   * `format_date`, `format_period`, and the first of exactly two parts `_PERIOD_SPLIT` makes of
   * a text.
   */
  datatype Formats = Formats(
    date: (string, string) -> (string, Status),
    period: (string, string) -> (string, Status),
    start: string -> Option<string>)

  datatype Kind = TextKind | DateKind | PeriodKind | MoneyKind | PercentKind

  datatype Transform = Identity | MoneyIn(unit: Shown) | DateFormat | CenturyExpanded

  datatype Cell = Cell(raw: string, display: string, kind: Kind, transform: Transform, status: Status)

  datatype Problem = RaggedRows | DataBlanked | Unreadable | AmountChanged | NumberCount | NewNumber | PercentChanged

  // ---- Checking a cell ---------------------------------------------------------------------------

  lemma SpaceIsNoDigit(c: char)
    ensures IsSpace(c) ==> !IsDigit(c)
  {
  }

  /** The digits of a text, run together. */
  function DigitsOf(s: string): string {
    if s == "" then "" else if IsDigit(s[0]) then [s[0]] + DigitsOf(s[1..]) else DigitsOf(s[1..])
  }

  /** The numbers in a text, one for each run of digits. */
  function NumberTokens(s: string): seq<nat>
    decreases |s|
  {
    if s == "" then []
    else if IsDigit(s[0]) then
      assert Leading(s) > 0;
      [ToNat(s[..Leading(s)])] + NumberTokens(s[Leading(s)..])
    else NumberTokens(s[1..])
  }

  /** Equality of decimals is equality of numbers. */
  predicate SameNumber(a: Decimal, b: Decimal) {
    if a.exp <= b.exp then a.coef == b.coef * Pow10(b.exp - a.exp) else a.coef * Pow10(a.exp - b.exp) == b.coef
  }

  lemma SameNumberMeans(a: Decimal, b: Decimal)
    ensures SameNumber(a, b) <==> Value(a) == Value(b)
  {
    hide Pow10, Value;
    if a.exp <= b.exp {
      Shift(b.coef, a.exp, b.exp - a.exp);
      SameExponent(a.coef, b.coef * Pow10(b.exp - a.exp), a.exp);
    } else {
      Shift(a.coef, b.exp, a.exp - b.exp);
      SameExponent(a.coef * Pow10(a.exp - b.exp), b.coef, b.exp);
    }
  }

  /** One number stands for the other: the same, or a two-digit year with its century. */
  predicate SameToken(raw: nat, shown: nat, century: bool) {
    raw == shown || (century && raw < 100 && shown % 100 == raw)
  }

  predicate SameTokens(raw: seq<nat>, shown: seq<nat>, century: bool) {
    |raw| == |shown| && forall i :: 0 <= i < |raw| ==> SameToken(raw[i], shown[i], century)
  }

  predicate NumbersKept(cell: Cell) {
    SameTokens(NumberTokens(cell.raw), NumberTokens(cell.display), cell.transform.CenturyExpanded?)
  }

  function VerifyMoney(cell: Cell): Option<Problem> {
    match (ParseMoney(cell.raw), cell.transform)
    case (Some(value), MoneyIn(unit)) =>
      (match Read(RemoveCommas(cell.display))
       case None => Some(Unreadable)
       case Some(back) => if SameNumber(Times(back, Scale(unit)), value) then None else Some(AmountChanged))
    case _ => None
  }

  function VerifyDate(cell: Cell): Option<Problem> {
    if |NumberTokens(cell.display)| != |NumberTokens(cell.raw)| then Some(NumberCount)
    else if NumbersKept(cell) then None else Some(NewNumber)
  }

  function VerifyPercent(cell: Cell): Option<Problem> {
    var raw, shown := DigitsOf(cell.raw), DigitsOf(cell.display);
    if raw <= shown || shown <= raw then None else Some(PercentChanged)
  }

  function Verify(cell: Cell): Option<Problem> {
    if cell.status == Unresolved then None
    else if cell.display == ABSENT then (if DigitsOf(cell.raw) == "" then None else Some(DataBlanked))
    else
      match cell.kind
      case MoneyKind => VerifyMoney(cell)
      case DateKind => VerifyDate(cell)
      case PeriodKind => VerifyDate(cell)
      case PercentKind => VerifyPercent(cell)
      case TextKind => None
  }

  // ---- Formatting a column -----------------------------------------------------------------------

  function Filled(values: seq<string>): seq<string> {
    if values == [] then []
    else (if Trim(values[0]) != "" then [values[0]] else []) + Filled(values[1..])
  }

  function CountOf(values: seq<string>, p: string -> bool): nat {
    if values == [] then 0 else (if p(values[0]) then 1 else 0) + CountOf(values[1..], p)
  }

  predicate Mostly(values: seq<string>, p: string -> bool) { 2 * CountOf(values, p) > |values| }

  predicate IsPercent(v: string) { PercentOf(Trim(v)).Some? }

  predicate IsAmount(v: string) { ParseMoney(v).Some? }

  predicate LooksLikeDate(fmt: Formats, v: string) { fmt.date(v, "").1 != Exact }

  predicate LooksLikePeriod(fmt: Formats, v: string) {
    var start := fmt.start(Trim(v));
    start.Some? && LooksLikeDate(fmt, start.value)
  }

  /** A column has a kind only when more than half of its filled cells do. */
  function KindOf(fmt: Formats, values: seq<string>): Kind {
    var filled := Filled(values);
    if filled == [] then TextKind
    else if Mostly(filled, IsPercent) then PercentKind
    else if Mostly(filled, IsAmount) then MoneyKind
    else if Mostly(filled, v => LooksLikePeriod(fmt, v)) then PeriodKind
    else if Mostly(filled, v => LooksLikeDate(fmt, v)) then DateKind
    else TextKind
  }

  function Amounts(values: seq<string>): seq<Amount> {
    if values == [] then []
    else
      match ParseMoney(values[0])
      case None => Amounts(values[1..])
      case Some(v) => [v] + Amounts(values[1..])
  }

  /** How a column is going to be written. */
  datatype Plan = AsIs | AsText | AsMoney(unit: Shown) | AsPercent(decimals: nat) | AsDate | AsPeriod

  function PlanFor(fmt: Formats, values: seq<string>, target: Option<Shown>): Plan {
    match KindOf(fmt, values)
    case MoneyKind =>
      (match CommonUnit(Amounts(values), target)
       case None => AsIs
       case Some(unit) => AsMoney(unit))
    case PercentKind => AsPercent(MaxPlaces(values))
    case DateKind => AsDate
    case PeriodKind => AsPeriod
    case TextKind => AsText
  }

  predicate Within(s: string, t: string) {
    exists i :: 0 <= i <= |t| && s <= t[i..]
  }

  /** Two digits, not preceded by a third, before a date separator. */
  predicate HasShortYear(raw: string) {
    exists i :: 0 <= i < |raw| - 2 && IsDigit(raw[i]) && IsDigit(raw[i + 1])
      && (i == 0 || !IsDigit(raw[i - 1]))
      && (raw[i + 2] == '.' || raw[i + 2] == '/' || raw[i + 2] == '년' || raw[i + 2] == '-')
  }

  function DateCell(kind: Kind, raw: string, shown: (string, Status), hint: string): Cell {
    var expanded := hint != "" && shown.1 == Converted && HasShortYear(raw) && Within(hint, shown.0);
    Cell(raw, shown.0, kind, if expanded then CenturyExpanded else DateFormat, shown.1)
  }

  function OrAbsent(raw: string): string { if raw == "" then ABSENT else raw }

  function CellFor(fmt: Formats, plan: Plan, hint: string, raw: string): Cell {
    match plan
    case AsIs => Cell(raw, raw, TextKind, Identity, Exact)
    case AsText => Cell(raw, OrAbsent(raw), TextKind, Identity, Exact)
    case AsMoney(unit) =>
      (match ParseMoney(raw)
       case None => Cell(raw, OrAbsent(raw), MoneyKind, Identity, Exact)
       case Some(v) => Cell(raw, FormatMoney(v, unit), MoneyKind, MoneyIn(unit), Converted))
    case AsPercent(decimals) =>
      var shown := FormatPercent(raw, decimals);
      Cell(raw, shown.0, PercentKind, Identity, shown.1)
    case AsDate => DateCell(DateKind, raw, fmt.date(raw, hint), hint)
    case AsPeriod => DateCell(PeriodKind, raw, fmt.period(raw, hint), hint)
  }

  /** The unit is written once, in the heading. */
  function Heading(header: string, plan: Plan): string {
    if plan.AsMoney? && !Within("(" + Name(plan.unit) + ")", header) then header + " (" + Name(plan.unit) + ")"
    else header
  }

  /**
   * What the tables of one answer share: the formatters, the century hint, and the unit asked
   * for as it was written; only the name of a unit that tables show counts.
   */
  datatype Setting = Setting(fmt: Formats, hint: string, target: string) {
    function Preferred(): Option<Shown> { ShownUnit(target) }
  }

  method FormatColumn(s: Setting, header: string, values: seq<string>) returns (heading: string, cells: seq<Cell>)
    ensures heading == Heading(header, PlanFor(s.fmt, values, s.Preferred()))
    ensures |cells| == |values|
    ensures forall i :: 0 <= i < |values| ==>
      cells[i] == CellFor(s.fmt, PlanFor(s.fmt, values, s.Preferred()), s.hint, values[i])
  {
    hide CellFor, Heading, KindOf;
    var plan;
    if KindOf(s.fmt, values) == PercentKind {
      var decimals := PercentDecimals(values);
      plan := AsPercent(decimals);
    } else {
      plan := PlanFor(s.fmt, values, s.Preferred());
    }
    heading := Heading(header, plan);
    cells := [];
    hide PlanFor;
    for i := 0 to |values|
      invariant |cells| == i
      invariant forall j :: 0 <= j < i ==> cells[j] == CellFor(s.fmt, plan, s.hint, values[j])
    {
      cells := cells + [CellFor(s.fmt, plan, s.hint, values[i])];
    }
  }

  // ---- A table -------------------------------------------------------------------------------------

  predicate Rectangular(width: nat, rows: seq<seq<string>>) {
    forall r :: 0 <= r < |rows| ==> |rows[r]| == width
  }

  function ColumnAt(rows: seq<seq<string>>, width: nat, c: nat): (r: seq<string>)
    requires Rectangular(width, rows) && c < width
    ensures |r| == |rows|
  {
    seq(|rows|, r requires 0 <= r < |rows| => rows[r][c])
  }

  function PlanAt(s: Setting, rows: seq<seq<string>>, width: nat, c: nat): Plan
    requires Rectangular(width, rows) && c < width
  {
    PlanFor(s.fmt, ColumnAt(rows, width, c), s.Preferred())
  }

  function CellAt(s: Setting, rows: seq<seq<string>>, width: nat, r: nat, c: nat): Cell
    requires Rectangular(width, rows) && r < |rows| && c < width
  {
    CellFor(s.fmt, PlanAt(s, rows, width, c), s.hint, rows[r][c])
  }

  function RowsOf(lines: seq<string>): (rows: seq<seq<string>>)
    ensures |rows| == |lines|
  {
    seq(|lines|, i requires 0 <= i < |lines| => Cells(lines[i]))
  }

  function Headings(s: Setting, header: seq<string>, rows: seq<seq<string>>): (h: seq<string>)
    requires Rectangular(|header|, rows)
    ensures |h| == |header|
  {
    seq(|header|, c requires 0 <= c < |header| => Heading(header[c], PlanAt(s, rows, |header|, c)))
  }

  function Displays(s: Setting, rows: seq<seq<string>>, width: nat, r: nat): (d: seq<string>)
    requires Rectangular(width, rows) && r < |rows|
    ensures |d| == width
  {
    seq(width, c requires 0 <= c < width => CellAt(s, rows, width, r, c).display)
  }

  function Columns(s: Setting, rows: seq<seq<string>>, width: nat): (columns: seq<seq<Cell>>)
    requires Rectangular(width, rows)
    ensures |columns| == width && forall c :: 0 <= c < width ==> |columns[c]| == |rows|
  {
    seq(width, c requires 0 <= c < width =>
      seq(|rows|, r requires 0 <= r < |rows| => CellAt(s, rows, width, r, c)))
  }

  predicate AllVerify(s: Setting, rows: seq<seq<string>>, width: nat)
    requires Rectangular(width, rows)
  {
    forall r, c :: 0 <= r < |rows| && 0 <= c < width ==> Verify(CellAt(s, rows, width, r, c)).None?
  }

  /** The table is rewritten at all: every row has the header's width and every cell verifies. */
  predicate Passes(s: Setting, lines: seq<string>)
    requires |lines| >= 2
  {
    var header, rows := Cells(lines[0]), RowsOf(lines[2..]);
    Rectangular(|header|, rows) && AllVerify(s, rows, |header|)
  }

  function Formatted(s: Setting, lines: seq<string>): (out: seq<string>)
    requires |lines| >= 2 && Passes(s, lines)
    ensures |out| == |lines|
  {
    var header, rows := Cells(lines[0]), RowsOf(lines[2..]);
    [Render(Headings(s, header, rows)), lines[1]]
    + seq(|rows|, r requires 0 <= r < |rows| => Render(Displays(s, rows, |header|, r)))
  }

  method ReadRows(lines: seq<string>) returns (rows: seq<seq<string>>)
    ensures rows == RowsOf(lines)
  {
    hide Cells;
    rows := [];
    for i := 0 to |lines|
      invariant |rows| == i && forall j :: 0 <= j < i ==> rows[j] == Cells(lines[j])
    {
      rows := rows + [Cells(lines[i])];
    }
  }

  method FormatColumns(s: Setting, header: seq<string>, rows: seq<seq<string>>)
    returns (headings: seq<string>, columns: seq<seq<Cell>>)
    requires header != [] && Rectangular(|header|, rows)
    ensures headings == Headings(s, header, rows)
    ensures columns == Columns(s, rows, |header|)
  {
    hide CellFor, Heading, PlanFor;
    headings, columns := [], [];
    for c := 0 to |header|
      invariant |headings| == c && forall k :: 0 <= k < c ==> headings[k] == Heading(header[k], PlanAt(s, rows, |header|, k))
      invariant columns == Columns(s, rows, |header|)[..c]
    {
      var head, cells := FormatColumn(s, header[c], ColumnAt(rows, |header|, c));
      headings := headings + [head];
      assert cells == Columns(s, rows, |header|)[c];
      columns := columns + [cells];
    }
  }

  method FirstProblem(columns: seq<seq<Cell>>) returns (problem: Option<Problem>)
    ensures problem.None? <==> forall c, r :: 0 <= c < |columns| && 0 <= r < |columns[c]| ==> Verify(columns[c][r]).None?
  {
    hide Verify;
    for c := 0 to |columns|
      invariant forall k, r :: 0 <= k < c && 0 <= r < |columns[k]| ==> Verify(columns[k][r]).None?
    {
      for r := 0 to |columns[c]|
        invariant forall k :: 0 <= k < r ==> Verify(columns[c][k]).None?
      {
        problem := Verify(columns[c][r]);
        if problem.Some? {
          return;
        }
      }
    }
    problem := None;
  }

  function StatusCount(cells: seq<Cell>, status: Status): nat {
    if cells == [] then 0
    else StatusCount(cells[..|cells| - 1], status) + (if cells[|cells| - 1].status == status then 1 else 0)
  }

  function TotalCount(columns: seq<seq<Cell>>, status: Status): nat {
    if columns == [] then 0
    else TotalCount(columns[..|columns| - 1], status) + StatusCount(columns[|columns| - 1], status)
  }

  /** How many of a table's cells have a status. */
  function Cellwise(s: Setting, lines: seq<string>, status: Status): nat
    requires |lines| >= 2 && Passes(s, lines)
  {
    TotalCount(Columns(s, RowsOf(lines[2..]), |Cells(lines[0])|), status)
  }

  /** What a row shows, read across the columns. */
  function DisplaysAt(columns: seq<seq<Cell>>, r: nat): seq<string>
    requires forall c :: 0 <= c < |columns| ==> r < |columns[c]|
  {
    seq(|columns|, c requires 0 <= c < |columns| => columns[c][r].display)
  }

  method RenderRows(columns: seq<seq<Cell>>, count: nat) returns (out: seq<string>)
    requires columns != [] && forall c :: 0 <= c < |columns| ==> |columns[c]| == count
    ensures |out| == count
    ensures forall r :: 0 <= r < count ==>
      out[r] == Render(DisplaysAt(columns, r))
  {
    hide Render;
    out := [];
    for r := 0 to count
      invariant |out| == r
      invariant forall k :: 0 <= k < r ==>
        out[k] == Render(DisplaysAt(columns, k))
    {
      out := out + [Render(DisplaysAt(columns, r))];
    }
  }

  /** One table: rewritten as a whole if it passes, otherwise returned untouched. */
  method ApplyTable(s: Setting, lines: seq<string>)
    returns (out: seq<string>, converted: nat, unresolved: nat, problem: Option<Problem>)
    requires |lines| >= 2
    ensures problem.None? <==> Passes(s, lines)
    ensures out == if Passes(s, lines) then Formatted(s, lines) else lines
    ensures problem.Some? ==> converted == 0 && unresolved == 0
    ensures problem.None? ==> converted == Cellwise(s, lines, Converted) && unresolved == Cellwise(s, lines, Unresolved)
  {
    hide Cells, Render, Heading, CellFor, PlanFor, Verify, RowsOf;
    var header := Cells(lines[0]);
    var rows := ReadRows(lines[2..]);
    if !Rectangular(|header|, rows) {
      return lines, 0, 0, Some(RaggedRows);
    }
    var headings, columns := FormatColumns(s, header, rows);
    problem := FirstProblem(columns);
    AllVerifyIff(s, rows, |header|);
    if problem.Some? {
      return lines, 0, 0, problem;
    }
    converted := TotalCount(columns, Converted);
    unresolved := TotalCount(columns, Unresolved);
    var body := RenderRows(columns, |rows|);
    Assembled(s, lines, body);
    out := [Render(headings), lines[1]] + body;
  }

  lemma Assembled(s: Setting, lines: seq<string>, body: seq<string>)
    requires |lines| >= 2 && Passes(s, lines)
    requires var header, rows := Cells(lines[0]), RowsOf(lines[2..]);
      var columns := Columns(s, rows, |header|);
      && |body| == |rows|
      && forall r :: 0 <= r < |rows| ==>
           body[r] == Render(DisplaysAt(columns, r))
    ensures [Render(Headings(s, Cells(lines[0]), RowsOf(lines[2..]))), lines[1]] + body == Formatted(s, lines)
  {
    hide Cells, Render, Heading, CellFor, PlanFor, Verify, RowsOf;
    var header, rows := Cells(lines[0]), RowsOf(lines[2..]);
    var columns := Columns(s, rows, |header|);
    forall r | 0 <= r < |rows|
      ensures DisplaysAt(columns, r) == Displays(s, rows, |header|, r)
    {
    }
  }

  lemma AllVerifyIff(s: Setting, rows: seq<seq<string>>, width: nat)
    requires Rectangular(width, rows)
    ensures var columns := Columns(s, rows, width);
      AllVerify(s, rows, width)
      <==> forall c, r :: 0 <= c < |columns| && 0 <= r < |columns[c]| ==> Verify(columns[c][r]).None?
  {
    hide Verify, CellAt;
    var columns := Columns(s, rows, width);
    if forall c, r :: 0 <= c < |columns| && 0 <= r < |columns[c]| ==> Verify(columns[c][r]).None? {
      forall r, c | 0 <= r < |rows| && 0 <= c < width ensures Verify(CellAt(s, rows, width, r, c)).None? {
        assert Verify(columns[c][r]).None?;
      }
    }
  }
}
