/**
 * Splitting wide answers' tables so that each stays within the Canvas limit of 300 cells
 * (`_split_large_tables` of src/tybot/canvas_answer.py).
 */
module TableSplitter {
  import opened Basics
  import opened Text
  import opened Markdown

  const MAX_TABLE_CELLS := 300

  // ---- What a text contains -----------------------------------------------------------------

  datatype Block = Line(text: string) | Table(header: string, separator: string, rows: seq<string>)

  predicate TableStarts(lines: seq<string>) {
    |lines| >= 2 && '|' in lines[0] && IsSeparator(lines[1])
  }

  function Parse(lines: seq<string>): seq<Block>
    decreases |lines|
  {
    if lines == [] then []
    else if TableStarts(lines) then
      var n := RowCount(lines[2..]);
      [Table(lines[0], lines[1], lines[2..2 + n])] + Parse(lines[2 + n..])
    else [Line(lines[0])] + Parse(lines[1..])
  }

  function EmitOne(b: Block): seq<string> {
    match b
    case Line(text) => [text]
    case Table(h, s, rows) => [h, s] + rows
  }

  function Emit(bs: seq<Block>): seq<string> {
    if bs == [] then [] else EmitOne(bs[0]) + Emit(bs[1..])
  }

  // ---- What the splitter does to a block --------------------------------------------------------

  function RowsPerTable(header: string): int {
    MAX_TABLE_CELLS / |Cells(header)| - 1
  }

  predicate Leaves(header: string, rows: nat) {
    RowsPerTable(header) < 1 || (rows + 1) * |Cells(header)| <= MAX_TABLE_CELLS
  }

  /** The rows in runs of `per`, each under the header again, a blank line between them. */
  function Chunks(h: string, s: string, rows: seq<string>, per: nat): seq<Block>
    requires per > 0
    decreases |rows|
  {
    if |rows| <= per then [Table(h, s, rows)]
    else [Table(h, s, rows[..per]), Line("")] + Chunks(h, s, rows[per..], per)
  }

  function SplitOne(b: Block): seq<Block> {
    match b
    case Line(_) => [b]
    case Table(h, s, rows) =>
      if Leaves(h, |rows|) then [b] else Chunks(h, s, rows, RowsPerTable(h))
  }

  function SplitBlocks(bs: seq<Block>): seq<Block> {
    if bs == [] then [] else SplitOne(bs[0]) + SplitBlocks(bs[1..])
  }

  function Split(lines: seq<string>): seq<string> { Emit(SplitBlocks(Parse(lines))) }

  // ---- The loop --------------------------------------------------------------------------------

  lemma {:induction false} EmitConcat(a: seq<Block>, b: seq<Block>)
    ensures Emit(a + b) == Emit(a) + Emit(b)
  {
    if a == [] {
      assert a + b == b;
    } else {
      assert (a + b)[1..] == a[1..] + b;
      EmitConcat(a[1..], b);
    }
  }

  lemma EmitSingle(b: Block)
    ensures Emit([b]) == EmitOne(b)
  {
    assert Emit([b][1..]) == [];
  }

  /** What the chunk loop still has to write when it stands at `start`. */
  function FromChunk(h: string, s: string, data: seq<string>, start: nat, per: nat): seq<string>
    requires per > 0
  {
    if start >= |data| then [] else (if start > 0 then [""] else []) + Emit(Chunks(h, s, data[start..], per))
  }

  function EndOf(data: seq<string>, start: nat, per: nat): (end: nat)
    requires start <= |data|
    ensures start <= end <= |data|
  {
    if start + per < |data| then start + per else |data|
  }

  lemma ChunkStep(h: string, s: string, data: seq<string>, start: nat, per: nat)
    requires per > 0 && start < |data|
    ensures Emit(Chunks(h, s, data[start..], per))
         == [h, s] + data[start..EndOf(data, start, per)] + FromChunk(h, s, data, start + per, per)
  {
    if start + per < |data| {
      var t := Table(h, s, data[start..][..per]);
      var more := Chunks(h, s, data[start..][per..], per);
      assert data[start..][per..] == data[start + per..];
      assert data[start..][..per] == data[start..start + per];
      assert Emit([t, Line("")] + more) == EmitOne(t) + ([""] + Emit(more)) by {
        assert ([t, Line("")] + more)[1..] == [Line("")] + more;
        assert ([Line("")] + more)[1..] == more;
      }
    } else {
      EmitSingle(Table(h, s, data[start..]));
    }
  }

  /** The chunk loop over one table that is too large. */
  method EmitChunks(header: string, separator: string, data: seq<string>, rowsPerTable: nat) returns (out: seq<string>)
    requires rowsPerTable > 0 && data != []
    ensures out == Emit(Chunks(header, separator, data, rowsPerTable))
  {
    hide Chunks, Emit;
    out := [];
    var start: nat := 0;
    ghost var rest := FromChunk(header, separator, data, 0, rowsPerTable);
    assert data[0..] == data;
    while start < |data|
      invariant rest == FromChunk(header, separator, data, start, rowsPerTable)
      invariant out + rest == Emit(Chunks(header, separator, data, rowsPerTable))
      decreases |data| - start
    {
      ChunkStep(header, separator, data, start, rowsPerTable);
      var piece := [header, separator] + data[start..EndOf(data, start, rowsPerTable)];
      if start > 0 {
        Assoc([""], piece, FromChunk(header, separator, data, start + rowsPerTable, rowsPerTable));
        piece := [""] + piece;
      }
      rest := FromChunk(header, separator, data, start + rowsPerTable, rowsPerTable);
      Assoc(out, piece, rest);
      out := out + piece;
      start := start + rowsPerTable;
    }
  }

  method CollectRows(lines: seq<string>, start: nat) returns (data: seq<string>, cursor: nat)
    requires start <= |lines|
    ensures start <= cursor <= |lines| && data == lines[start..cursor]
    ensures forall i :: start <= i < cursor ==> IsRow(lines[i])
    ensures cursor < |lines| ==> !IsRow(lines[cursor])
  {
    data, cursor := [], start;
    while cursor < |lines| && IsRow(lines[cursor])
      invariant start <= cursor <= |lines| && data == lines[start..cursor]
      invariant forall i :: start <= i < cursor ==> IsRow(lines[i])
    {
      data := data + [lines[cursor]];
      cursor := cursor + 1;
    }
  }

  method SplitLargeTables(lines: seq<string>) returns (out: seq<string>)
    ensures out == Split(lines)
  {
    hide IsSeparator, IsRow, Parse, SplitBlocks, Emit, Leaves, RowsPerTable, SplitOne;
    out := [];
    var index := 0;
    ghost var rest := Split(lines);
    assert lines[0..] == lines;
    while index < |lines|
      invariant 0 <= index <= |lines|
      invariant rest == Split(lines[index..]) && out + rest == Split(lines)
    {
      var piece: seq<string>;
      var next: nat;
      if index + 1 >= |lines| || '|' !in lines[index] || !IsSeparator(lines[index + 1]) {
        LineStep(lines[index..]);
        assert lines[index..][1..] == lines[index + 1..];
        piece, next := [lines[index]], index + 1;
      } else {
        piece, next := SplitTableAt(lines, index);
      }
      rest := Split(lines[next..]);
      Assoc(out, piece, rest);
      out := out + piece;
      index := next;
    }
    assert lines[index..] == [];
    EmptyText();
  }

  lemma EmptyText()
    ensures Split([]) == []
  {
  }

  /** The table that starts at `index`: what is written for it, and where the text goes on. */
  method SplitTableAt(lines: seq<string>, index: nat) returns (out: seq<string>, cursor: nat)
    requires index + 2 <= |lines| && TableStarts(lines[index..])
    ensures index < cursor <= |lines| && Split(lines[index..]) == out + Split(lines[cursor..])
  {
    hide IsSeparator, IsRow, Parse, SplitBlocks;
    var header, separator := lines[index], lines[index + 1];
    var data;
    data, cursor := CollectRows(lines, index + 2);
    TableStep(lines, index, cursor);
    if Leaves(header, |data|) {
      EmitSingle(Table(header, separator, data));
      out := [header, separator] + data;
    } else {
      out := EmitChunks(header, separator, data, RowsPerTable(header));
    }
  }

  lemma LineStep(lines: seq<string>)
    requires lines != [] && !TableStarts(lines)
    ensures Split(lines) == [lines[0]] + Split(lines[1..])
  {
    assert SplitBlocks(Parse(lines)) == [Line(lines[0])] + SplitBlocks(Parse(lines[1..]));
  }

  lemma {:induction false} CountsRows(lines: seq<string>, n: nat)
    requires n <= |lines| && (forall i :: 0 <= i < n ==> IsRow(lines[i])) && (n < |lines| ==> !IsRow(lines[n]))
    ensures RowCount(lines) == n
  {
    if n > 0 {
      CountsRows(lines[1..], n - 1);
    }
  }

  lemma TableStep(lines: seq<string>, index: nat, cursor: nat)
    requires index + 2 <= cursor <= |lines| && TableStarts(lines[index..])
    requires forall i :: index + 2 <= i < cursor ==> IsRow(lines[i])
    requires cursor < |lines| ==> !IsRow(lines[cursor])
    ensures cursor == index + 2 ==> Leaves(lines[index], 0)
    ensures Split(lines[index..])
         == Emit(SplitOne(Table(lines[index], lines[index + 1], lines[index + 2..cursor]))) + Split(lines[cursor..])
  {
    hide IsSeparator, IsRow, Split, Parse, SplitOne, Leaves;
    var here, n := lines[index..], cursor - index - 2;
    CountsRows(here[2..], n);
    assert here[2..2 + n] == lines[index + 2..cursor];
    assert here[2 + n..] == lines[cursor..];
    SplitOfTable(here, n);
    NoRowsFit(lines[index]);
  }

  lemma NoRowsFit(header: string)
    ensures Leaves(header, 0)
  {
  }

  lemma SplitOfTable(lines: seq<string>, n: nat)
    requires TableStarts(lines) && n == RowCount(lines[2..])
    ensures Split(lines) == Emit(SplitOne(Table(lines[0], lines[1], lines[2..2 + n]))) + Split(lines[2 + n..])
  {
    hide IsSeparator, IsRow, SplitOne, Emit;
    var t, rest := Table(lines[0], lines[1], lines[2..2 + n]), Parse(lines[2 + n..]);
    assert Parse(lines) == [t] + rest;
    assert ([t] + rest)[1..] == rest;
    EmitConcat(SplitOne(t), SplitBlocks(rest));
  }

  // ---- The output re-parses into what was emitted -------------------------------------------------

  /** The line that stands first when the blocks are written. */
  function FirstLine(bs: seq<Block>): seq<string> {
    if bs == [] then [] else match bs[0] case Line(text) => [text] case Table(h, _, _) => [h]
  }

  /** A block is read back as itself when `next` follows it. */
  ghost predicate ReadsBack(b: Block, next: seq<string>) {
    match b
    case Line(text) => !(next != [] && '|' in text && IsSeparator(next[0]))
    case Table(h, s, rows) =>
      && '|' in h && IsSeparator(s)
      && (forall i :: 0 <= i < |rows| ==> IsRow(rows[i]))
      && (next != [] ==> !IsRow(next[0]))
  }

  ghost predicate Coherent(bs: seq<Block>) {
    bs != [] ==> ReadsBack(bs[0], FirstLine(bs[1..])) && Coherent(bs[1..])
  }

  lemma FirstLineEmitted(bs: seq<Block>)
    ensures FirstLine(bs) == if Emit(bs) == [] then [] else [Emit(bs)[0]]
  {
    if bs != [] {
      assert EmitOne(bs[0]) != [];
      assert Emit(bs)[0] == EmitOne(bs[0])[0];
    }
  }

  lemma TableReadsBack(lines: seq<string>, n: nat)
    requires TableStarts(lines) && n == RowCount(lines[2..])
    ensures ReadsBack(Table(lines[0], lines[1], lines[2..2 + n]), if 2 + n < |lines| then [lines[2 + n]] else [])
  {
    hide IsSeparator, IsRow;
    var all := lines[2..];
    assert forall i :: 0 <= i < n ==> lines[2..2 + n][i] == all[i];
    assert 2 + n < |lines| ==> lines[2 + n] == all[n];
  }

  lemma ParseTable(lines: seq<string>, n: nat)
    requires TableStarts(lines) && n == RowCount(lines[2..])
    ensures Parse(lines) == [Table(lines[0], lines[1], lines[2..2 + n])] + Parse(lines[2 + n..])
  {
    hide IsSeparator, IsRow;
  }

  lemma TableLines(lines: seq<string>, n: nat)
    requires 2 + n <= |lines|
    ensures [lines[0], lines[1]] + lines[2..2 + n] + lines[2 + n..] == lines
  {
  }

  /** Parsing loses nothing, and what it finds can be read back. */
  lemma {:induction false} ParseFaithful(lines: seq<string>)
    ensures Emit(Parse(lines)) == lines
    ensures Coherent(Parse(lines))
    decreases |lines|
  {
    hide IsSeparator, IsRow, ReadsBack, FirstLine;
    if lines != [] {
      if TableStarts(lines) {
        var n := RowCount(lines[2..]);
        var rest := lines[2 + n..];
        ParseTable(lines, n);
        TableReadsBack(lines, n);
        TableLines(lines, n);
        ParseFaithful(rest);
        FirstLineEmitted(Parse(rest));
        assert Parse(lines)[1..] == Parse(rest);
      } else {
        ParseFaithful(lines[1..]);
        FirstLineEmitted(Parse(lines[1..]));
        LineReadsBack(lines);
        assert Parse(lines)[1..] == Parse(lines[1..]);
      }
    }
  }

  lemma LineReadsBack(lines: seq<string>)
    requires lines != [] && !TableStarts(lines)
    ensures ReadsBack(Line(lines[0]), if lines[1..] == [] then [] else [lines[1..][0]])
  {
  }

  lemma EmittedTable(h: string, s: string, rows: seq<string>, rest: seq<string>)
    requires ReadsBack(Table(h, s, rows), if rest == [] then [] else [rest[0]])
    ensures var all := [h, s] + rows + rest;
            Parse(all) == [Table(h, s, rows)] + Parse(rest)
  {
    hide IsSeparator, IsRow;
    var all := [h, s] + rows + rest;
    assert all[2..] == rows + rest;
    CountsRows(all[2..], |rows|);
    assert all[2..2 + |rows|] == rows && all[2 + |rows|..] == rest;
  }

  lemma EmittedLine(text: string, rest: seq<string>)
    requires ReadsBack(Line(text), if rest == [] then [] else [rest[0]])
    ensures Parse([text] + rest) == [Line(text)] + Parse(rest)
  {
    hide IsSeparator;
    assert ([text] + rest)[1..] == rest;
    assert rest != [] ==> ([text] + rest)[1] == rest[0];
  }

  /** Coherent blocks, once written, are parsed back. */
  lemma {:induction false} ParseEmitted(bs: seq<Block>)
    requires Coherent(bs)
    ensures Parse(Emit(bs)) == bs
  {
    hide IsSeparator, IsRow, Parse, ReadsBack;
    if bs == [] {
      NothingParsed();
    } else {
      ParseEmitted(bs[1..]);
      FirstLineEmitted(bs[1..]);
      match bs[0] {
        case Line(text) => EmittedLine(text, Emit(bs[1..]));
        case Table(h, s, rows) => EmittedTable(h, s, rows, Emit(bs[1..]));
      }
    }
  }

  lemma NothingParsed()
    ensures Parse([]) == []
  {
  }

  lemma FirstLineOfSplit(bs: seq<Block>)
    ensures FirstLine(SplitBlocks(bs)) == FirstLine(bs)
  {
    hide Leaves, RowsPerTable;
    if bs != [] {
      assert SplitBlocks(bs)[0] == SplitOne(bs[0])[0];
    }
  }

  lemma CoherentCons(b: Block, rest: seq<Block>)
    requires ReadsBack(b, FirstLine(rest)) && Coherent(rest)
    ensures Coherent([b] + rest)
  {
    assert ([b] + rest)[1..] == rest;
  }

  lemma ChunkReadsBack(h: string, s: string, rows: seq<string>, per: nat, next: seq<string>)
    requires ReadsBack(Table(h, s, rows), next) && per <= |rows|
    ensures ReadsBack(Table(h, s, rows[..per]), [""]) && ReadsBack(Table(h, s, rows[per..]), next)
    ensures ReadsBack(Line(""), [h])
  {
  }

  /** The chunks of one table are coherent before whatever followed the table. */
  lemma {:induction false} ChunksCoherent(h: string, s: string, rows: seq<string>, per: nat, rest: seq<Block>)
    requires per > 0 && ReadsBack(Table(h, s, rows), FirstLine(rest)) && Coherent(rest)
    ensures Coherent(Chunks(h, s, rows, per) + rest)
    ensures FirstLine(Chunks(h, s, rows, per) + rest) == [h]
    decreases |rows|
  {
    hide ReadsBack, Coherent;
    if |rows| <= per {
      CoherentCons(Table(h, s, rows), rest);
    } else {
      ChunkReadsBack(h, s, rows, per, FirstLine(rest));
      ChunksCoherent(h, s, rows[per..], per, rest);
      var more := Chunks(h, s, rows[per..], per) + rest;
      CoherentCons(Line(""), more);
      CoherentCons(Table(h, s, rows[..per]), [Line("")] + more);
      assert Chunks(h, s, rows, per) + rest == [Table(h, s, rows[..per])] + ([Line("")] + more);
    }
  }

  lemma LeavesNot(header: string, rows: nat)
    requires !Leaves(header, rows)
    ensures RowsPerTable(header) >= 1
  {
  }

  lemma {:induction false} SplitCoherent(bs: seq<Block>)
    requires Coherent(bs)
    ensures Coherent(SplitBlocks(bs))
  {
    hide Leaves, RowsPerTable, IsSeparator, IsRow;
    if bs != [] {
      SplitCoherent(bs[1..]);
      FirstLineOfSplit(bs[1..]);
      var rest := SplitBlocks(bs[1..]);
      if bs[0].Line? || Leaves(bs[0].header, |bs[0].rows|) {
        assert ([bs[0]] + rest)[1..] == rest;
      } else {
        LeavesNot(bs[0].header, |bs[0].rows|);
        ChunksCoherent(bs[0].header, bs[0].separator, bs[0].rows, RowsPerTable(bs[0].header), rest);
      }
    }
  }

  /** The blank line and the repeated header make the output parse into exactly the tables emitted. */
  lemma OutputParses(lines: seq<string>)
    ensures Parse(Split(lines)) == SplitBlocks(Parse(lines))
  {
    ParseFaithful(lines);
    SplitCoherent(Parse(lines));
    ParseEmitted(SplitBlocks(Parse(lines)));
  }

  // ---- The bound ------------------------------------------------------------------------------------

  ghost predicate Fits(b: Block) {
    b.Table? ==> Leaves(b.header, |b.rows|)
  }

  lemma RowsFit(columns: nat, per: int)
    requires columns > 0 && per == MAX_TABLE_CELLS / columns - 1
    ensures per >= 1 <==> columns <= 150
    ensures (per + 1) * columns <= MAX_TABLE_CELLS
  {
  }

  lemma FewerFit(columns: nat, rows: nat, per: nat)
    requires rows <= per && (per + 1) * columns <= MAX_TABLE_CELLS
    ensures (rows + 1) * columns <= MAX_TABLE_CELLS
  {
    assert (rows + 1) * columns <= (per + 1) * columns;
  }

  lemma {:induction false} ChunksFit(h: string, s: string, rows: seq<string>, per: nat)
    requires per > 0 && per == RowsPerTable(h)
    ensures forall b :: b in Chunks(h, s, rows, per) ==> Fits(b)
    decreases |rows|
  {
    RowsFit(|Cells(h)|, per);
    if |rows| <= per {
      FewerFit(|Cells(h)|, |rows|, per);
    } else {
      FewerFit(|Cells(h)|, per, per);
      ChunksFit(h, s, rows[per..], per);
    }
  }

  lemma {:induction false} SplitFits(bs: seq<Block>)
    ensures forall b :: b in SplitBlocks(bs) ==> Fits(b)
  {
    if bs != [] {
      SplitFits(bs[1..]);
      if bs[0].Table? && !Leaves(bs[0].header, |bs[0].rows|) {
        ChunksFit(bs[0].header, bs[0].separator, bs[0].rows, RowsPerTable(bs[0].header));
      }
    }
  }

  /** Every table of the output with at most 150 columns has at most 300 cells, its header row counted. */
  lemma EveryTableWithinLimit(lines: seq<string>, b: Block)
    requires b in Parse(Split(lines)) && b.Table? && |Cells(b.header)| <= 150
    ensures (|b.rows| + 1) * |Cells(b.header)| <= 300
  {
    hide Parse, SplitBlocks, Emit, Cells;
    OutputParses(lines);
    SplitFits(Parse(lines));
    RowsFit(|Cells(b.header)|, RowsPerTable(b.header));
  }

  lemma {:induction false} ChunksAreFull(h: string, s: string, rows: seq<string>, per: nat, i: nat)
    requires per > 0 && i < |Chunks(h, s, rows, per)| - 1
    ensures var b := Chunks(h, s, rows, per)[i]; b.Table? ==> |b.rows| == per
    decreases |rows|
  {
    if i >= 2 {
      ChunksAreFull(h, s, rows[per..], per, i - 2);
    }
  }

  lemma OneRowTooMany(columns: nat, per: nat)
    requires columns > 0 && per == 300 / columns - 1
    ensures (per + 2) * columns > 300
  {
    assert (per + 2) * columns == (300 / columns) * columns + columns;
  }

  /**
   * No more tables than needed: a table is left alone exactly when it fits or has more than 150
   * columns, and of the tables made of another each but the last is full - one more row and it
   * would exceed 300 cells.
   */
  lemma NoTableTooMany(h: string, s: string, rows: seq<string>, i: nat)
    ensures var bs, columns := SplitOne(Table(h, s, rows)), |Cells(h)|;
      && (|bs| == 1 <==> columns > 150 || (|rows| + 1) * columns <= 300)
      && (|bs| == 1 ==> bs == [Table(h, s, rows)])
      && (i < |bs| - 1 && bs[i].Table? ==> (|bs[i].rows| + 2) * columns > 300)
  {
    hide Cells;
    var columns, per := |Cells(h)|, RowsPerTable(h);
    RowsFit(columns, per);
    if !Leaves(h, |rows|) {
      OneRowTooMany(columns, per);
      if |rows| <= per {
        FewerFit(columns, |rows|, per);
      }
      if i < |Chunks(h, s, rows, per)| - 1 {
        ChunksAreFull(h, s, rows, per, i);
      }
    }
  }

  // ---- The content ------------------------------------------------------------------------------------

  function RowsOf(bs: seq<Block>): seq<string> {
    if bs == [] then [] else (if bs[0].Table? then bs[0].rows else []) + RowsOf(bs[1..])
  }

  /** Blank lines, and tables under one heading. */
  predicate UnderHeading(bs: seq<Block>, h: string, s: string) {
    forall b :: b in bs ==> b == Line("") || (b.Table? && b.header == h && b.separator == s)
  }

  lemma {:induction false} ChunksHaveRows(h: string, s: string, rows: seq<string>, per: nat)
    requires per > 0
    ensures RowsOf(Chunks(h, s, rows, per)) == rows
    decreases |rows|
  {
    if |rows| > per {
      ChunksHaveRows(h, s, rows[per..], per);
      var more := Chunks(h, s, rows[per..], per);
      hide Chunks;
      RowsOfMore(Table(h, s, rows[..per]), more);
      assert rows[..per] + rows[per..] == rows;
    } else {
      assert [Table(h, s, rows)][1..] == [];
      assert rows + [] == rows;
    }
  }

  lemma RowsOfMore(t: Block, more: seq<Block>)
    requires t.Table?
    ensures RowsOf([t, Line("")] + more) == t.rows + RowsOf(more)
  {
    var all := [t, Line("")] + more;
    assert all[1..] == [Line("")] + more && all[1..][1..] == more;
    assert [] + RowsOf(more) == RowsOf(more);
  }

  lemma {:induction false} ChunksUnderHeading(h: string, s: string, rows: seq<string>, per: nat)
    requires per > 0
    ensures var cs := Chunks(h, s, rows, per);
      UnderHeading(cs, h, s) && cs != [] && cs[0].Table? && cs[|cs| - 1].Table?
    decreases |rows|
  {
    if |rows| > per {
      ChunksUnderHeading(h, s, rows[per..], per);
    }
  }

  /** A table becomes tables of the same heading, blank lines between; together they have its rows, in order. */
  lemma ChunksKeepRows(h: string, s: string, rows: seq<string>, per: nat)
    requires per > 0
    ensures var cs := Chunks(h, s, rows, per);
      && RowsOf(cs) == rows && UnderHeading(cs, h, s)
      && cs != [] && cs[0].Table? && cs[|cs| - 1].Table?
  {
    hide Chunks, RowsOf, UnderHeading;
    ChunksHaveRows(h, s, rows, per);
    ChunksUnderHeading(h, s, rows, per);
  }

  /**
   * Block by block: a line outside tables is kept as it is, and a table keeps its header, its
   * separator and all of its rows in order.
   */
  lemma EveryBlockKept(lines: seq<string>)
    ensures Split(lines) == Emit(SplitBlocks(Parse(lines))) && lines == Emit(Parse(lines))
    ensures forall b :: b in Parse(lines) && b.Line? ==> SplitOne(b) == [b]
    ensures forall b :: b in Parse(lines) && b.Table? ==>
              RowsOf(SplitOne(b)) == b.rows && UnderHeading(SplitOne(b), b.header, b.separator)
  {
    ParseFaithful(lines);
    forall b | b in Parse(lines) && b.Table?
      ensures RowsOf(SplitOne(b)) == b.rows && UnderHeading(SplitOne(b), b.header, b.separator)
    {
      if Leaves(b.header, |b.rows|) {
        assert [b][1..] == [] && b.rows + [] == b.rows;
      } else {
        ChunksKeepRows(b.header, b.separator, b.rows, RowsPerTable(b.header));
      }
    }
  }

  // ---- Once more changes nothing ------------------------------------------------------------------------

  lemma {:induction false} FittingStay(bs: seq<Block>)
    requires forall b :: b in bs ==> Fits(b)
    ensures SplitBlocks(bs) == bs
  {
    hide Leaves;
    if bs != [] {
      assert Fits(bs[0]);
      FittingStay(bs[1..]);
    }
  }

  /** A second pass over the lines changes nothing. */
  lemma Idempotent(lines: seq<string>)
    ensures Split(Split(lines)) == Split(lines)
  {
    hide Parse, SplitBlocks, Emit;
    OutputParses(lines);
    SplitFits(Parse(lines));
    FittingStay(SplitBlocks(Parse(lines)));
  }

  // ---- On whole texts ---------------------------------------------------------------------------------------

  /** `"\n".join`. */
  function Join(lines: seq<string>): string {
    if lines == [] then "" else if |lines| == 1 then lines[0] else lines[0] + [NL] + Join(lines[1..])
  }

  /** The characters at which `str.splitlines` cuts. */
  predicate IsBreak(c: char) {
    c in "\n\r\U{0B}\U{0C}\U{1C}\U{1D}\U{1E}\U{85}\U{2028}\U{2029}"
  }

  function BreakAt(text: string): (k: nat)
    ensures k <= |text| && forall i :: 0 <= i < k ==> !IsBreak(text[i])
    ensures k < |text| ==> IsBreak(text[k])
  {
    if text == "" || IsBreak(text[0]) then 0 else 1 + BreakAt(text[1..])
  }

  /** `str.splitlines`: a carriage return and a line feed behind it are one break. */
  function SplitLines(text: string): seq<string>
    decreases |text|
  {
    if text == "" then []
    else
      var k := BreakAt(text);
      if k == |text| then [text]
      else [text[..k]] + SplitLines(text[k + (if "\r\n" <= text[k..] then 2 else 1)..])
  }

  lemma {:induction false} BreakStands(line: string, rest: string)
    requires Unbroken(line) && (rest == "" || IsBreak(rest[0]))
    ensures BreakAt(line + rest) == |line|
  {
    if line == "" {
      assert line + rest == rest;
    } else {
      TailOfConcat(line, rest);
      BreakStands(line[1..], rest);
    }
  }

  /** A break ends a line: one character, or a carriage return and its line feed. */
  lemma SplitAtBreak(line: string, brk: string, rest: string)
    requires Unbroken(line)
    requires brk == "\r\n" || (|brk| == 1 && IsBreak(brk[0]) && !(brk == "\r" && rest != "" && rest[0] == '\n'))
    ensures SplitLines(line + (brk + rest)) == [line] + SplitLines(rest)
    ensures line != "" ==> SplitLines(line) == [line]
  {
    var text := line + (brk + rest);
    assert (brk + rest)[0] == brk[0];
    BreakStands(line, brk + rest);
    BreakStands(line, "");
    assert line + "" == line;
    assert text[|line|..] == brk + rest && text[..|line|] == line;
    assert text[|line| + |brk|..] == rest;
    assert "\r\n" <= brk + rest <==> brk == "\r\n" by {
      assert |brk| == 1 && |brk + rest| > 1 ==> (brk + rest)[1] == rest[0];
    }
  }

  /** The function as it is called: `text.splitlines()`, the loop, and the join. */
  function SplitText(text: string): string { Join(Split(SplitLines(text))) }

  predicate Unbroken(line: string) {
    forall i :: 0 <= i < |line| ==> !IsBreak(line[i])
  }

  ghost predicate NoBreaks(lines: seq<string>) {
    forall i :: 0 <= i < |lines| ==> Unbroken(lines[i])
  }

  lemma {:induction false} LinesUnbrokenAll(text: string)
    ensures NoBreaks(SplitLines(text))
    decreases |text|
  {
    hide IsBreak;
    if text != "" {
      var k := BreakAt(text);
      assert Unbroken(text[..k]);
      if k < |text| {
        LinesUnbrokenAll(text[k + (if "\r\n" <= text[k..] then 2 else 1)..]);
      }
    }
  }

  /** In a text whose only breaks are line feeds `splitlines` cuts at those. */
  lemma {:induction false} OnlyLineFeeds(text: string)
    requires forall i :: 0 <= i < |text| && IsBreak(text[i]) ==> text[i] == NL
    ensures SplitLines(text) == Lines(text)
    decreases |text|
  {
    if text != "" {
      var k := BreakAt(text);
      FirstFeed(text);
      if k < |text| {
        assert text[k..][0] == NL;
        OnlyLineFeeds(text[k + 1..]);
      }
    }
  }

  lemma {:induction false} FirstFeed(text: string)
    requires forall i :: 0 <= i < |text| && IsBreak(text[i]) ==> text[i] == NL
    ensures BreakAt(text) == LineEnd(text)
  {
    assert IsBreak(NL);
    if text != "" && !IsBreak(text[0]) {
      FirstFeed(text[1..]);
    }
  }

  lemma {:induction false} JoinedByFeeds(lines: seq<string>)
    requires NoBreaks(lines)
    ensures forall i :: 0 <= i < |Join(lines)| && IsBreak(Join(lines)[i]) ==> Join(lines)[i] == NL
  {
    if |lines| > 1 {
      JoinedByFeeds(lines[1..]);
    }
  }

  lemma {:induction false} JoinClosed(lines: seq<string>)
    requires lines != []
    ensures Join(lines) == Closed(lines[..|lines| - 1]) + LastOf(lines)
  {
    if |lines| > 1 {
      JoinClosed(lines[1..]);
      assert lines[..|lines| - 1][1..] == lines[1..][..|lines| - 2];
      assert lines[0] + [NL] + (Closed(lines[1..][..|lines| - 2]) + LastOf(lines))
          == lines[0] + [NL] + Closed(lines[1..][..|lines| - 2]) + LastOf(lines);
    } else {
      assert "" + lines[0] == lines[0];
    }
  }

  lemma UnbrokenLines(lines: seq<string>)
    requires NoBreaks(lines) && lines != []
    ensures Lines(Closed(lines[..|lines| - 1])) == lines[..|lines| - 1] && NL !in LastOf(lines)
  {
    hide Closed, Lines;
    assert IsBreak(NL);
    assert forall i :: 0 <= i < |lines| ==> NL !in lines[i];
    LinesOfClosed(lines[..|lines| - 1]);
  }

  lemma LinesOfJoin(lines: seq<string>)
    requires NoBreaks(lines) && lines != []
    ensures SplitLines(Join(lines)) == if LastOf(lines) == "" then lines[..|lines| - 1] else lines
  {
    hide Join, Closed, Whole, Lines, SplitLines, NoBreaks, IsBreak;
    var init, last := lines[..|lines| - 1], LastOf(lines);
    JoinedByFeeds(lines);
    OnlyLineFeeds(Join(lines));
    JoinClosed(lines);
    ClosedWhole(init);
    LinesConcat(Closed(init), last);
    UnbrokenLines(lines);
    if last == "" {
      EmptyJoin();
      assert init + [] == init;
    } else {
      OneLine(last);
      assert init + [last] == lines;
    }
  }

  lemma OneLine(line: string)
    requires NL !in line && line != ""
    ensures Lines(line) == [line]
  {
    assert LineEnd(line) == |line|;
  }

  lemma JoinLonger(lines: seq<string>)
    requires |lines| >= 2
    ensures |Join(lines)| > |Join(lines[..|lines| - 1])|
  {
    hide Join, Closed;
    var init := lines[..|lines| - 1];
    JoinClosed(lines);
    JoinClosed(init);
    assert init == init[..|init| - 1] + [LastOf(init)];
    ClosedConcat(init[..|init| - 1], [LastOf(init)]);
    ClosedOne(LastOf(init));
  }

  function LastOf(lines: seq<string>): string
    requires lines != []
  {
    lines[|lines| - 1]
  }

  /** A text whose last line is blank and not its only one. */
  predicate EndsBlank(lines: seq<string>) { |lines| >= 2 && LastOf(lines) == "" }

  predicate OnlyFrom(lines: seq<string>, h: string, s: string, rows: seq<string>) {
    forall line :: line in lines ==> line == h || line == s || line == "" || line in rows
  }

  lemma StepWritten(h: string, s: string, first: seq<string>, more: seq<string>, after: seq<string>)
    requires more != [] && |after| >= |more| + 2 && LastOf(after) == LastOf(more) && OnlyFrom(after, h, s, more)
    ensures var all := [h, s] + first + ([""] + after);
      && |all| >= |first + more| + 2 && LastOf(all) == LastOf(first + more) && OnlyFrom(all, h, s, first + more)
  {
  }

  lemma FirstChunk(h: string, s: string, rows: seq<string>, per: nat)
    requires 0 < per < |rows|
    ensures Emit(Chunks(h, s, rows, per)) == [h, s] + rows[..per] + ([""] + Emit(Chunks(h, s, rows[per..], per)))
  {
    ChunkStep(h, s, rows, 0, per);
    hide Emit, Chunks;
    assert rows[0..] == rows;
  }

  lemma {:induction false} ChunksWritten(h: string, s: string, rows: seq<string>, per: nat)
    requires per > 0 && rows != []
    ensures |Emit(Chunks(h, s, rows, per))| >= |rows| + 2
    ensures LastOf(Emit(Chunks(h, s, rows, per))) == LastOf(rows)
    ensures OnlyFrom(Emit(Chunks(h, s, rows, per)), h, s, rows)
    decreases |rows|
  {
    if |rows| <= per {
      EmitSingle(Table(h, s, rows));
    } else {
      hide Emit, Chunks, LastOf, OnlyFrom;
      FirstChunk(h, s, rows, per);
      ChunksWritten(h, s, rows[per..], per);
      StepWritten(h, s, rows[..per], rows[per..], Emit(Chunks(h, s, rows[per..], per)));
      assert rows[0..] == rows && rows[..per] + rows[per..] == rows;
    }
  }

  /** What one block turns into, as lines. */
  lemma SplitOneWritten(b: Block)
    requires b.Table? ==> (b.rows == [] ==> Leaves(b.header, 0))
    ensures |Emit(SplitOne(b))| >= |EmitOne(b)| > 0
    ensures LastOf(Emit(SplitOne(b))) == LastOf(EmitOne(b))
    ensures forall line :: line in Emit(SplitOne(b)) ==> line == "" || line in EmitOne(b)
  {
    EmitSingle(b);
    if b.Table? && !Leaves(b.header, |b.rows|) {
      ChunksWritten(b.header, b.separator, b.rows, RowsPerTable(b.header));
    }
  }

  /** What a split writes: no line fewer, no line but blank ones added. */
  ghost predicate Writes(out: seq<string>, lines: seq<string>) {
    |out| >= |lines| && forall line :: line in out ==> line == "" || line in lines
  }

  lemma WritesConcat(a: seq<string>, x: seq<string>, b: seq<string>, y: seq<string>)
    requires Writes(a, x) && Writes(b, y)
    ensures Writes(a + b, x + y)
    ensures b != [] && y != [] && LastOf(b) == LastOf(y) ==> LastOf(a + b) == LastOf(x + y)
  {
  }

  lemma {:induction false} SplitWritten(bs: seq<Block>)
    ensures Writes(Emit(SplitBlocks(bs)), Emit(bs))
    ensures bs != [] ==> Emit(bs) != [] && LastOf(Emit(SplitBlocks(bs))) == LastOf(Emit(bs))
  {
    if bs == [] {
    } else {
      if bs[0].Table? { NoRowsFit(bs[0].header); }
      SplitOneWritten(bs[0]);
      assert Writes(Emit(SplitOne(bs[0])), EmitOne(bs[0]));
      SplitBlocksStep(bs);
      hide SplitOne, EmitOne, Emit, SplitBlocks, Writes, Leaves;
      SplitWritten(bs[1..]);
      WritesConcat(Emit(SplitOne(bs[0])), EmitOne(bs[0]), Emit(SplitBlocks(bs[1..])), Emit(bs[1..]));
    }
  }

  lemma SplitBlocksStep(bs: seq<Block>)
    requires bs != []
    ensures Emit(SplitBlocks(bs)) == Emit(SplitOne(bs[0])) + Emit(SplitBlocks(bs[1..]))
    ensures Emit(bs) == EmitOne(bs[0]) + Emit(bs[1..])
    ensures bs[1..] == [] ==> Emit(bs[1..]) == [] && Emit(SplitBlocks(bs[1..])) == []
    ensures bs[1..] == [] ==> Emit(bs) == EmitOne(bs[0]) && Emit(SplitBlocks(bs)) == Emit(SplitOne(bs[0]))
  {
    hide SplitOne, EmitOne;
    EmitConcat(SplitOne(bs[0]), SplitBlocks(bs[1..]));
  }

  lemma OutputLines(lines: seq<string>)
    requires NoBreaks(lines)
    ensures NoBreaks(Split(lines)) && |Split(lines)| >= |lines|
    ensures lines != [] ==> LastOf(Split(lines)) == LastOf(lines)
  {
    hide Parse, SplitBlocks, Emit;
    ParseFaithful(lines);
    SplitWritten(Parse(lines));
    NothingParsed();
    EmptyText();
    forall line | line in Split(lines) ensures Unbroken(line) {
      if line in lines {
        var i :| 0 <= i < |lines| && lines[i] == line;
      }
    }
    forall i | 0 <= i < |Split(lines)| ensures Unbroken(Split(lines)[i]) {
      assert Split(lines)[i] in Split(lines);
    }
  }

  lemma LastBlockBlank(b: Block, next: seq<string>)
    requires ReadsBack(b, next) && LastOf(EmitOne(b)) == ""
    ensures b == Line("")
  {
    hide IsRow, IsSeparator;
    BlankIsNeither();
  }

  lemma EmitCons(b: Block, rest: seq<Block>)
    ensures Emit([b] + rest) == EmitOne(b) + Emit(rest)
  {
    assert ([b] + rest)[1..] == rest;
  }

  lemma ReadsBackAtEnd(b: Block, next: seq<string>)
    requires ReadsBack(b, next)
    ensures ReadsBack(b, [])
  {
  }

  /** Without a last blank line, coherent blocks stay coherent. */
  lemma {:induction false} WithoutLastBlank(bs: seq<Block>)
    requires Coherent(bs) && bs != [] && LastOf(Emit(bs)) == ""
    ensures bs[|bs| - 1] == Line("")
    ensures Coherent(bs[..|bs| - 1])
    ensures Emit(bs) == Emit(bs[..|bs| - 1]) + [""]
  {
    hide ReadsBack, EmitOne, Emit, Coherent, LastOf, FirstLine;
    CoherentParts(bs);
    if |bs| == 1 {
      OnlyBlank(bs);
    } else {
      SplitLast(bs);
      WithoutLastBlank(bs[1..]);
      var init := bs[1..][..|bs| - 2];
      assert bs[..|bs| - 1] == [bs[0]] + init;
      WithoutLastOf(bs[0], bs[1..], init);
      assert bs == [bs[0]] + bs[1..];
    }
  }

  lemma CoherentParts(bs: seq<Block>)
    requires bs != [] && Coherent(bs)
    ensures ReadsBack(bs[0], FirstLine(bs[1..])) && Coherent(bs[1..])
  {
    hide ReadsBack, FirstLine;
  }

  lemma OnlyBlank(bs: seq<Block>)
    requires |bs| == 1 && Coherent(bs) && LastOf(Emit(bs)) == ""
    ensures bs[0] == Line("") && bs[..0] == [] && Coherent(bs[..0]) && Emit(bs) == Emit(bs[..0]) + [""]
  {
    hide ReadsBack, EmitOne;
    assert bs == [bs[0]] + bs[1..];
    EmitCons(bs[0], bs[1..]);
    LastBlockBlank(bs[0], []);
    BlankLine();
  }

  /** One block in front of blocks that end in a blank line. */
  lemma WithoutLastOf(b: Block, rest: seq<Block>, init: seq<Block>)
    requires ReadsBack(b, FirstLine(rest)) && rest != [] && init == rest[..|rest| - 1] && Coherent(init)
    requires Emit(rest) == Emit(init) + [""]
    ensures Coherent([b] + init)
    ensures Emit([b] + rest) == Emit([b] + init) + [""]
  {
    hide ReadsBack, EmitOne, Coherent;
    EmitCons(b, rest);
    EmitCons(b, init);
    ReadsBackAtEnd(b, FirstLine(rest));
    assert init != [] ==> init[0] == rest[0] && FirstLine(init) == FirstLine(rest);
    CoherentCons(b, init);
  }

  lemma BlankLine()
    ensures EmitOne(Line("")) == [""]
  {
  }

  lemma SplitLast(bs: seq<Block>)
    requires |bs| >= 2
    ensures Emit(bs[1..]) != [] && LastOf(Emit(bs)) == LastOf(Emit(bs[1..]))
  {
    assert EmitOne(bs[1]) != [];
    assert Emit(bs[1..]) == EmitOne(bs[1]) + Emit(bs[1..][1..]);
  }

  lemma BlankIsNeither()
    ensures !IsRow("") && !IsSeparator("")
  {
    assert Cells("")[0] == "";
  }

  /** Dropping the output's last blank line leaves an output that a pass does not change. */
  lemma WithoutBlankStays(lines: seq<string>)
    requires lines != [] && LastOf(Split(lines)) == ""
    ensures var out := Split(lines); Split(out[..|out| - 1]) == out[..|out| - 1]
  {
    hide Parse, SplitOne, IsSeparator, IsRow;
    var bs := SplitBlocks(Parse(lines));
    ParseFaithful(lines);
    SplitCoherent(Parse(lines));
    SplitFits(Parse(lines));
    SplitWritten(Parse(lines));
    WithoutLastBlank(bs);
    var init := bs[..|bs| - 1];
    assert Emit(bs)[..|Emit(bs)| - 1] == Emit(init);
    ParseEmitted(init);
    FittingStay(init);
  }

  lemma SingleStays(lines: seq<string>)
    requires |lines| == 1
    ensures Split(lines) == lines
  {
    hide IsSeparator;
    LineStep(lines);
    EmptyText();
    assert lines[1..] == [];
  }

  /**
   * Called twice on a whole text, the function changes nothing the second time exactly when the
   * text does not end in a blank line after other lines: `splitlines` and the join lose that line.
   */
  lemma TextIdempotentIff(text: string)
    ensures SplitText(SplitText(text)) == SplitText(text) <==> !EndsBlank(SplitLines(text))
  {
    hide Split, SplitLines, Join;
    var lines := SplitLines(text);
    LinesUnbrokenAll(text);
    var out := Split(lines);
    OutputLines(lines);
    Idempotent(lines);
    EmptyJoin();
    EmptyText();
    if |lines| == 1 {
      SingleStays(lines);
    }
    if out != [] {
      LinesOfJoin(out);
      if |out| == 1 {
        assert out == [LastOf(out)] && out[..0] == [];
      } else if LastOf(out) == "" {
        WithoutBlankStays(lines);
        JoinLonger(out);
      }
    }
  }

  lemma EmptyJoin()
    ensures Join([]) == "" && SplitLines("") == [] && Lines("") == [] && Join([""]) == ""
  {
  }

  /** A text that loses its last blank line the second time. */
  lemma LosesBlankLine()
    ensures SplitText(SplitText("a\n\n")) != SplitText("a\n\n")
  {
    hide SplitText;
    TextIdempotentIff("a\n\n");
    BlankLinesOf();
  }

  lemma BlankLinesOf()
    ensures EndsBlank(SplitLines("a\n\n"))
  {
    var text := "a\n\n";
    assert !IsBreak('a') && IsBreak(NL);
    assert text == Closed(["a", ""]) by {
      ClosedConcat(["a"], [""]);
      ClosedOne("a");
      ClosedOne("");
      assert ["a"] + [""] == ["a", ""];
    }
    OnlyLineFeeds(text);
    LinesOfClosed(["a", ""]);
  }
}
