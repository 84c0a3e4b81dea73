/**
 * Markdown table rows as both Canvas modules read them: `_table_cells` of
 * src/tybot/canvas_answer.py and `_cells` of src/tybot/canvas_harness.py are the same code.
 */
module Markdown {
  /** What Python's `str.strip` removes. */
  predicate IsSpace(c: char) {
    || '\U{09}' <= c <= '\U{0D}' || '\U{1C}' <= c <= '\U{20}' || c == '\U{85}' || c == '\U{A0}'
    || c == '\U{1680}' || '\U{2000}' <= c <= '\U{200A}' || c == '\U{2028}' || c == '\U{2029}'
    || c == '\U{202F}' || c == '\U{205F}' || c == '\U{3000}'
  }

  function Trim(s: string): string { TrimRight(TrimLeft(s)) }

  function TrimLeft(s: string): string {
    if s != "" && IsSpace(s[0]) then TrimLeft(s[1..]) else s
  }

  function TrimRight(s: string): string {
    if s != "" && IsSpace(s[|s| - 1]) then TrimRight(s[..|s| - 1]) else s
  }

  /** `" ".join(s.split())`. */
  function Joined(s: string): string { Collapsed(TrimLeft(s)) }

  function Collapsed(s: string): string
    decreases |s|
  {
    if s == "" then ""
    else if !IsSpace(s[0]) then [s[0]] + Collapsed(s[1..])
    else
      LeftTrimmed(s);
      var rest := Collapsed(TrimLeft(s));
      if rest == "" then "" else " " + rest
  }

  lemma {:induction false} LeftTrimmed(s: string)
    ensures |TrimLeft(s)| <= |s| && (TrimLeft(s) == "" || !IsSpace(TrimLeft(s)[0]))
    ensures s != "" && IsSpace(s[0]) ==> |TrimLeft(s)| < |s|
  {
    if s != "" {
      LeftTrimmed(s[1..]);
    }
  }

  /** A row with its escaped pipes set aside, as the marker does. */
  datatype Tok = Ch(c: char) | EscapedPipe

  function Protect(s: string): seq<Tok> {
    if s == "" then []
    else if |s| >= 2 && s[0] == '\\' && s[1] == '|' then [EscapedPipe] + Protect(s[2..])
    else [Ch(s[0])] + Protect(s[1..])
  }

  function Restore(ts: seq<Tok>): string {
    if ts == [] then "" else (if ts[0].Ch? then [ts[0].c] else "\\|") + Restore(ts[1..])
  }

  const BAR := Ch('|')

  function StripBars(ts: seq<Tok>): seq<Tok> { StripBarsRight(StripBarsLeft(ts)) }

  function StripBarsLeft(ts: seq<Tok>): seq<Tok> {
    if ts != [] && ts[0] == BAR then StripBarsLeft(ts[1..]) else ts
  }

  function StripBarsRight(ts: seq<Tok>): seq<Tok> {
    if ts != [] && ts[|ts| - 1] == BAR then StripBarsRight(ts[..|ts| - 1]) else ts
  }

  function SplitBars(ts: seq<Tok>): (cells: seq<seq<Tok>>)
    ensures cells != []
  {
    if ts == [] then [[]]
    else
      var rest := SplitBars(ts[1..]);
      if ts[0] == BAR then [[]] + rest else [[ts[0]] + rest[0]] + rest[1..]
  }

  predicate IsSpaceTok(t: Tok) { t.Ch? && IsSpace(t.c) }

  function TrimToks(ts: seq<Tok>): seq<Tok> { TrimToksRight(TrimToksLeft(ts)) }

  function TrimToksLeft(ts: seq<Tok>): seq<Tok> {
    if ts != [] && IsSpaceTok(ts[0]) then TrimToksLeft(ts[1..]) else ts
  }

  function TrimToksRight(ts: seq<Tok>): seq<Tok> {
    if ts != [] && IsSpaceTok(ts[|ts| - 1]) then TrimToksRight(ts[..|ts| - 1]) else ts
  }

  function Finish(cells: seq<seq<Tok>>): (r: seq<string>)
    ensures |r| == |cells|
  {
    seq(|cells|, i requires 0 <= i < |cells| => Restore(TrimToks(cells[i])))
  }

  /** The cells of a row, escaped pipes kept as they are written. */
  function Cells(line: string): (r: seq<string>)
    ensures r != []
  {
    Finish(SplitBars(StripBars(Protect(Trim(line)))))
  }

  /** `:?-{3,}:?` over the whole cell. */
  predicate IsDashes(cell: string) {
    var left := if cell != "" && cell[0] == ':' then cell[1..] else cell;
    var body := if left != "" && left[|left| - 1] == ':' then left[..|left| - 1] else left;
    |body| >= 3 && forall i :: 0 <= i < |body| ==> body[i] == '-'
  }

  predicate IsSeparator(line: string) {
    var cells := Cells(line);
    forall i :: 0 <= i < |cells| ==> IsDashes(cells[i])
  }

  /** A line that continues a table. */
  predicate IsRow(line: string) { '|' in line && Trim(line) != "" }

  /** How many rows follow one another from here. */
  function RowCount(lines: seq<string>): (n: nat)
    ensures n <= |lines|
    ensures forall i :: 0 <= i < n ==> IsRow(lines[i])
    ensures n < |lines| ==> !IsRow(lines[n])
  {
    if lines == [] || !IsRow(lines[0]) then 0 else RowCount(lines[1..]) + 1
  }
}
