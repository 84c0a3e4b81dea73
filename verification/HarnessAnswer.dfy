/** `apply` of src/tybot/canvas_harness.py: all the tables of an answer, and the lines between them. */
module HarnessAnswer {
  import opened Basics
  import opened Digits
  import opened Markdown
  import opened Percent
  import opened Harness

  /** A table starts here: a line with a pipe, a separator, and at least one more line in the answer. */
  predicate TableAt(lines: seq<string>) {
    |lines| > 2 && '|' in lines[0] && IsSeparator(lines[1])
  }

  /** Lines the table at the start takes; none unless it has a row below the separator. */
  function TableLength(lines: seq<string>): (n: nat)
    ensures n <= |lines| && (n == 0 || n > 2)
  {
    if TableAt(lines) && RowCount(lines[2..]) > 0 then 2 + RowCount(lines[2..]) else 0
  }

  /** The tables of an answer, in order. */
  function Tables(lines: seq<string>): seq<seq<string>>
    decreases |lines|
  {
    if lines == [] then []
    else
      var n := TableLength(lines);
      if n > 0 then [lines[..n]] + Tables(lines[n..]) else Tables(lines[1..])
  }

  function TableResult(s: Setting, lines: seq<string>): seq<string> {
    if |lines| >= 2 && Passes(s, lines) then Formatted(s, lines) else lines
  }

  function TableCount(s: Setting, lines: seq<string>, status: Status): nat {
    if |lines| >= 2 && Passes(s, lines) then Cellwise(s, lines, status) else 0
  }

  /** The answer's lines with each table replaced by its result. */
  function Applied(s: Setting, lines: seq<string>): seq<string>
    decreases |lines|
  {
    if lines == [] then []
    else
      var n := TableLength(lines);
      if n > 0 then TableResult(s, lines[..n]) + Applied(s, lines[n..]) else [lines[0]] + Applied(s, lines[1..])
  }

  function CountIn(s: Setting, tables: seq<seq<string>>, status: Status): nat {
    if tables == [] then 0 else TableCount(s, tables[0], status) + CountIn(s, tables[1..], status)
  }

  function Failures(s: Setting, tables: seq<seq<string>>): nat {
    if tables == [] then 0
    else (if |tables[0]| >= 2 && Passes(s, tables[0]) then 0 else 1) + Failures(s, tables[1..])
  }

  /** The lines after the answer: how many values kept their own precision, and that nothing was rounded. */
  function Footer(converted: nat, unresolved: nat, target: string): seq<string> {
    (if unresolved > 0 then
       ["", "_일부 값은 원문 정밀도를 유지했습니다(확인 필요 " + OfNat(unresolved) + "건)._"] else [])
    + (if converted > 0 && target != "" then ["", "_금액은 표시 단위로 환산했으며 반올림하지 않았습니다._"] else [])
  }

  // ---- The loop ------------------------------------------------------------------------------------

  method RowsEnd(lines: seq<string>, start: nat) returns (end: nat)
    requires start <= |lines|
    ensures end == start + RowCount(lines[start..])
  {
    hide IsRow;
    end := start;
    while end < |lines| && IsRow(lines[end])
      invariant start <= end <= |lines|
      invariant end + RowCount(lines[end..]) == start + RowCount(lines[start..])
    {
      assert lines[end..][1..] == lines[end + 1..];
      end := end + 1;
    }
  }

  /** The table at `index`: none, or its lines up to `end`. */
  method TableEnd(lines: seq<string>, index: nat) returns (end: nat)
    requires index < |lines|
    ensures end == index + TableLength(lines[index..])
  {
    hide IsSeparator, RowCount;
    end := index;
    if index + 2 < |lines| && '|' in lines[index] && IsSeparator(lines[index + 1]) {
      var stop := RowsEnd(lines, index + 2);
      assert lines[index..][2..] == lines[index + 2..];
      if stop - index > 2 {
        end := stop;
      }
    }
  }

  lemma StepOver(s: Setting, lines: seq<string>, i: nat)
    requires i < |lines| && TableLength(lines[i..]) == 0
    ensures Applied(s, lines[i..]) == [lines[i]] + Applied(s, lines[i + 1..])
    ensures Tables(lines[i..]) == Tables(lines[i + 1..])
  {
    hide TableLength, TableResult;
    assert lines[i..][1..] == lines[i + 1..];
  }

  lemma StepTable(s: Setting, lines: seq<string>, i: nat, n: nat)
    requires i < |lines| && n == TableLength(lines[i..]) && n > 0
    ensures i + n <= |lines|
    ensures Applied(s, lines[i..]) == TableResult(s, lines[i..i + n]) + Applied(s, lines[i + n..])
    ensures Tables(lines[i..]) == [lines[i..i + n]] + Tables(lines[i + n..])
  {
    hide TableLength, TableResult;
    assert lines[i..][..n] == lines[i..i + n];
    assert lines[i..][n..] == lines[i + n..];
  }

  lemma CountStep(s: Setting, table: seq<string>, rest: seq<seq<string>>, status: Status)
    ensures CountIn(s, [table] + rest, status) == TableCount(s, table, status) + CountIn(s, rest, status)
  {
    assert ([table] + rest)[1..] == rest;
  }

  lemma FailureStep(s: Setting, table: seq<string>, rest: seq<seq<string>>)
    requires |table| >= 2
    ensures Failures(s, [table] + rest) == (if Passes(s, table) then 0 else 1) + Failures(s, rest)
  {
    assert ([table] + rest)[1..] == rest;
  }

  lemma NothingLeft(s: Setting, out: seq<string>)
    ensures out + Applied(s, []) == out && Tables([]) == []
    ensures CountIn(s, [], Converted) == 0 && CountIn(s, [], Unresolved) == 0 && Failures(s, []) == 0
  {
  }

  /** What is still to come when the loop stands before `rest`. */
  ghost predicate Due(s: Setting, lines: seq<string>, rest: seq<string>,
                      out: seq<string>, converted: nat, unresolved: nat, failed: nat)
  {
    && out + Applied(s, rest) == Applied(s, lines)
    && converted + CountIn(s, Tables(rest), Converted) == CountIn(s, Tables(lines), Converted)
    && unresolved + CountIn(s, Tables(rest), Unresolved) == CountIn(s, Tables(lines), Unresolved)
    && failed + Failures(s, Tables(rest)) == Failures(s, Tables(lines))
  }

  lemma DueAfterLine(s: Setting, lines: seq<string>, i: nat, out: seq<string>, c: nat, u: nat, f: nat)
    requires i < |lines| && TableLength(lines[i..]) == 0 && Due(s, lines, lines[i..], out, c, u, f)
    ensures Due(s, lines, lines[i + 1..], out + [lines[i]], c, u, f)
  {
    hide Applied, Tables, CountIn, Failures, TableLength;
    StepOver(s, lines, i);
    Assoc(out, [lines[i]], Applied(s, lines[i + 1..]));
  }

  lemma DueAfterTable(s: Setting, lines: seq<string>, i: nat, n: nat, out: seq<string>, c: nat, u: nat, f: nat)
    requires i < |lines| && n == TableLength(lines[i..]) && n > 0 && Due(s, lines, lines[i..], out, c, u, f)
    ensures i + n <= |lines|
    ensures var table := lines[i..i + n];
      Due(s, lines, lines[i + n..], out + TableResult(s, table), c + TableCount(s, table, Converted),
          u + TableCount(s, table, Unresolved), f + if Passes(s, table) then 0 else 1)
  {
    hide Applied, Tables, CountIn, Failures, TableLength, Passes, TableResult, TableCount;
    StepTable(s, lines, i, n);
    var table, rest := lines[i..i + n], Tables(lines[i + n..]);
    Assoc(out, TableResult(s, table), Applied(s, lines[i + n..]));
    CountStep(s, table, rest, Converted);
    CountStep(s, table, rest, Unresolved);
    FailureStep(s, table, rest);
  }

  /** The loop over an answer's lines. A failing table leaves a note and its own lines. */
  method Apply(s: Setting, lines: seq<string>)
    returns (text: seq<string>, converted: nat, unresolved: nat, notes: seq<Problem>)
    ensures text == Applied(s, lines) + Footer(converted, unresolved, s.target)
    ensures converted == CountIn(s, Tables(lines), Converted)
    ensures unresolved == CountIn(s, Tables(lines), Unresolved)
    ensures |notes| == Failures(s, Tables(lines))
  {
    hide Applied, Tables, CountIn, Failures, TableLength, Passes, Formatted, Cellwise, Due, Footer;
    var out := [];
    converted, unresolved, notes := 0, 0, [];
    var index := 0;
    DueAtStart(s, lines);
    while index < |lines|
      invariant index <= |lines|
      invariant Due(s, lines, lines[index..], out, converted, unresolved, |notes|)
    {
      var end := TableEnd(lines, index);
      if end > index {
        DueAfterTable(s, lines, index, end - index, out, converted, unresolved, |notes|);
        var newBlock, got, left, problem := ApplyTable(s, lines[index..end]);
        if problem.Some? {
          notes := notes + [problem.value];
        }
        out := out + newBlock;
        converted, unresolved := converted + got, unresolved + left;
        index := end;
      } else {
        DueAfterLine(s, lines, index, out, converted, unresolved, |notes|);
        out := out + [lines[index]];
        index := index + 1;
      }
    }
    DueAtEnd(s, lines, lines[index..], out, converted, unresolved, |notes|);
    text := out + Footer(converted, unresolved, s.target);
  }

  lemma DueAtStart(s: Setting, lines: seq<string>)
    ensures Due(s, lines, lines[0..], [], 0, 0, 0)
  {
    hide Applied, Tables, CountIn, Failures;
    assert lines[0..] == lines;
    assert [] + Applied(s, lines) == Applied(s, lines);
  }

  lemma DueAtEnd(s: Setting, lines: seq<string>, rest: seq<string>, out: seq<string>, c: nat, u: nat, f: nat)
    requires rest == [] && Due(s, lines, rest, out, c, u, f)
    ensures out == Applied(s, lines) && c == CountIn(s, Tables(lines), Converted)
    ensures u == CountIn(s, Tables(lines), Unresolved) && f == Failures(s, Tables(lines))
  {
    hide Applied, Tables, CountIn, Failures;
    NothingLeft(s, out);
  }

  // ---- Lines outside tables --------------------------------------------------------------------------

  /** For each line, whether a table takes it. */
  function Taken(lines: seq<string>): (r: seq<bool>)
    decreases |lines|
  {
    if lines == [] then []
    else
      var n := TableLength(lines);
      if n > 0 then seq(n, i => true) + Taken(lines[n..]) else [false] + Taken(lines[1..])
  }

  /** What one replaced piece keeps: its length, and its lines where `mark` is false. */
  ghost predicate Keeps(mark: seq<bool>, before: seq<string>, after: seq<string>) {
    && |mark| == |before| == |after|
    && forall i :: 0 <= i < |mark| && (!mark[i] || '|' !in before[i]) ==> after[i] == before[i]
  }

  lemma KeepsConcat(m: seq<bool>, a: seq<string>, x: seq<string>, n: seq<bool>, b: seq<string>, y: seq<string>)
    requires Keeps(m, a, x) && Keeps(n, b, y)
    ensures Keeps(m + n, a + b, x + y)
  {
  }

  lemma TableHasPipes(lines: seq<string>)
    requires TableLength(lines) > 0
    ensures forall i :: 0 <= i < TableLength(lines) && i != 1 ==> '|' in lines[i]
  {
    hide IsSeparator, RowCount;
    assert forall i :: 2 <= i < TableLength(lines) ==> lines[i] == lines[2..][i - 2] && IsRow(lines[2..][i - 2]);
  }

  /** A table's own lines without a pipe can only be its separator, and that is kept. */
  lemma TableKeepsPipeless(s: Setting, lines: seq<string>, n: nat)
    requires n == TableLength(lines) && n > 0
    ensures Keeps(seq(n, i => true), lines[..n], TableResult(s, lines[..n]))
  {
    TableHasPipes(lines);
    hide TableLength, TableResult;
    KeptLines(s, lines[..n]);
  }

  lemma KeptLines(s: Setting, table: seq<string>)
    requires |table| >= 2
    ensures |TableResult(s, table)| == |table| && TableResult(s, table)[1] == table[1]
    ensures !Passes(s, table) ==> TableResult(s, table) == table
  {
    hide Passes, RowsOf;
  }

  /**
   * Every line stays on its own line number: lines outside tables are verbatim, and so is any
   * line without a pipe, separators included.
   */
  lemma {:induction false} OtherLinesVerbatim(s: Setting, lines: seq<string>)
    ensures Keeps(Taken(lines), lines, Applied(s, lines))
    decreases |lines|
  {
    hide TableLength, TableResult, Keeps;
    if lines == [] {
      KeepsNothing();
    } else {
      var n := TableLength(lines);
      if n > 0 {
        TableKeepsPipeless(s, lines, n);
        OtherLinesVerbatim(s, lines[n..]);
        KeepsConcat(seq(n, i => true), lines[..n], TableResult(s, lines[..n]),
                    Taken(lines[n..]), lines[n..], Applied(s, lines[n..]));
        assert lines[..n] + lines[n..] == lines;
      } else {
        KeepsLine(lines[0]);
        OtherLinesVerbatim(s, lines[1..]);
        KeepsConcat([false], [lines[0]], [lines[0]], Taken(lines[1..]), lines[1..], Applied(s, lines[1..]));
        assert [lines[0]] + lines[1..] == lines;
      }
    }
  }

  lemma KeepsNothing()
    ensures Keeps([], [], [])
  {
  }

  lemma KeepsLine(line: string)
    ensures Keeps([false], [line], [line])
  {
  }

  // ---- The footer --------------------------------------------------------------------------------

  /** The footer tells how many cells are unresolved, if any are, and of the conversion if a unit was asked for. */
  lemma FooterTells(converted: nat, unresolved: nat, target: string)
    ensures var lines, told := Footer(converted, unresolved, target), converted > 0 && target != "";
      && |lines| == (if unresolved > 0 then 2 else 0) + (if told then 2 else 0)
      && (unresolved > 0 ==> lines[0] == "" && Within("(확인 필요 " + OfNat(unresolved) + "건)", lines[1]))
      && (told ==> lines[|lines| - 2..] == ["", "_금액은 표시 단위로 환산했으며 반올림하지 않았습니다._"])
  {
    hide OfNat;
    var front, count := "_일부 값은 원문 정밀도를 유지했습니다", "(확인 필요 " + OfNat(unresolved) + "건)";
    var line := "_일부 값은 원문 정밀도를 유지했습니다(확인 필요 " + OfNat(unresolved) + "건)._";
    assert line == front + (count + "._");
    assert line[|front|..] == count + "._" && count <= line[|front|..];
  }
}
