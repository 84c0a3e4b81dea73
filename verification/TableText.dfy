/**
 * What counts as a table row or a separator, said of the text: spaces around a row and its outer
 * bars may be missing, and a separator's cells are dashes (src/tybot/canvas_answer.py and
 * src/tybot/canvas_harness.py).
 */
module TableText {
  import opened Basics
  import opened Markdown
  import opened TableRows

  predicate AllSpace(s: string) { forall i :: 0 <= i < |s| ==> IsSpace(s[i]) }

  lemma {:induction false} LeftSpaces(a: string, s: string)
    requires AllSpace(a) && (s == "" || !IsSpace(s[0]))
    ensures TrimLeft(a + s) == s
  {
    if a == "" {
      assert a + s == s;
    } else {
      TailOfConcat(a, s);
      LeftSpaces(a[1..], s);
    }
  }

  lemma {:induction false} RightSpaces(s: string, b: string)
    requires AllSpace(b) && (s == "" || !IsSpace(s[|s| - 1]))
    ensures TrimRight(s + b) == s
  {
    if b == "" {
      assert s + b == s;
    } else {
      assert (s + b)[..|s + b| - 1] == s + b[..|b| - 1];
      RightSpaces(s, b[..|b| - 1]);
    }
  }

  lemma {:induction false} OnlySpaces(a: string)
    requires AllSpace(a)
    ensures TrimLeft(a) == ""
  {
    if a != "" {
      OnlySpaces(a[1..]);
    }
  }

  /** Trimming takes the spaces at both ends and nothing else. */
  lemma TrimTakesSpaces(a: string, s: string, b: string)
    requires AllSpace(a) && Trimmed(s) && AllSpace(b)
    ensures Trim(a + s + b) == s
  {
    if s == "" {
      OnlySpaces(a + b);
      assert a + s + b == a + b;
    } else {
      assert a + s + b == a + (s + b);
      LeftSpaces(a, s + b);
      RightSpaces(s, b);
    }
  }

  /** Every text is some spaces and what trimming leaves. */
  lemma {:induction false} SpacesBefore(s: string, rest: string) returns (gap: string)
    requires TrimLeft(s) == rest
    ensures AllSpace(gap) && s == gap + rest
  {
    if s != "" && IsSpace(s[0]) {
      var more := SpacesBefore(s[1..], rest);
      gap := [s[0]] + more;
      assert [s[0]] + (more + rest) == gap + rest;
    } else {
      gap := "";
    }
  }

  // ---- Words -----------------------------------------------------------------------------------

  predicate NoSpace(s: string) { forall i :: 0 <= i < |s| ==> !IsSpace(s[i]) }

  lemma {:induction false} CollapsedWord(word: string, rest: string)
    requires NoSpace(word)
    ensures Collapsed(word + rest) == word + Collapsed(rest)
  {
    if word == "" {
      assert word + rest == rest;
    } else {
      TailOfConcat(word, rest);
      CollapsedWord(word[1..], rest);
      Assoc([word[0]], word[1..], Collapsed(rest));
      assert [word[0]] + word[1..] == word;
    }
  }

  lemma CollapsedGap(gap: string, rest: string)
    requires gap != "" && AllSpace(gap)
    ensures Collapsed(gap + rest) == if Joined(rest) == "" then "" else " " + Joined(rest)
  {
    GapTrimmed(gap, rest);
    hide TrimLeft;
    assert (gap + rest)[0] == gap[0];
  }

  lemma {:induction false} GapTrimmed(gap: string, rest: string)
    requires AllSpace(gap)
    ensures TrimLeft(gap + rest) == TrimLeft(rest)
  {
    if gap == "" {
      assert gap + rest == rest;
    } else {
      TailOfConcat(gap, rest);
      GapTrimmed(gap[1..], rest);
    }
  }

  /** The words of a text, one space between them: the first word, and the others if there are any. */
  lemma WordsJoined(before: string, word: string, gap: string, rest: string)
    requires AllSpace(before) && word != "" && NoSpace(word) && gap != "" && AllSpace(gap)
    ensures Joined(before) == "" && Joined(before + word) == word
    ensures Joined(before + word + gap + rest) == word + if Joined(rest) == "" then "" else " " + Joined(rest)
  {
    hide Collapsed;
    OnlySpaces(before);
    LeftSpaces(before, word);
    LeftSpaces(before, word + (gap + rest));
    assert before + word + gap + rest == before + (word + (gap + rest));
    CollapsedWord(word, "");
    assert word + "" == word;
    NothingCollapsed();
    CollapsedWord(word, gap + rest);
    CollapsedGap(gap, rest);
  }

  // ---- Cells of a row --------------------------------------------------------------------------

  lemma SpaceInFront(t: Tok, seg: seq<Tok>)
    requires IsSpaceTok(t)
    ensures TrimToks([t] + seg) == TrimToks(seg)
  {
    assert ([t] + seg)[1..] == seg;
  }

  lemma {:induction false} SpaceBehind(seg: seq<Tok>, t: Tok)
    requires IsSpaceTok(t)
    ensures TrimToks(seg + [t]) == TrimToks(seg)
  {
    if seg != [] && IsSpaceTok(seg[0]) {
      SpaceBehind(seg[1..], t);
      assert (seg + [t])[1..] == seg[1..] + [t];
    } else if seg == [] {
      assert [] + [t] == [t] && [t][1..] == [];
    } else {
      assert TrimToksLeft(seg + [t]) == seg + [t];
      assert (seg + [t])[..|seg + [t]| - 1] == seg;
    }
  }

  lemma SpaceBefore(t: Tok, ts: seq<Tok>)
    requires IsSpaceTok(t)
    ensures Finish(SplitBars([t] + ts)) == Finish(SplitBars(ts))
  {
    SplitStep(t, ts);
    SpaceInFront(t, SplitBars(ts)[0]);
    hide TrimToks, Restore, SplitBars;
    var a, b := SplitBars([t] + ts), SplitBars(ts);
    assert forall i :: 0 < i < |a| ==> a[i] == b[i];
  }

  lemma SplitBar(ts: seq<Tok>)
    ensures SplitBars([BAR] + ts) == [[]] + SplitBars(ts)
  {
    assert ([BAR] + ts)[1..] == ts;
  }

  /** One more token goes to the last piece. */
  ghost predicate LastGrows(a: seq<seq<Tok>>, b: seq<seq<Tok>>, t: Tok)
    requires b != []
  {
    |a| == |b| && a[|a| - 1] == b[|b| - 1] + [t] && forall i :: 0 <= i < |a| - 1 ==> a[i] == b[i]
  }

  lemma {:induction false} SplitSnoc(ts: seq<Tok>, t: Tok)
    requires t != BAR
    ensures LastGrows(SplitBars(ts + [t]), SplitBars(ts), t)
  {
    if ts == [] {
      assert [] + [t] == [t] && [t][1..] == [];
      assert SplitBars([t][1..]) == [[]];
    } else {
      SplitSnoc(ts[1..], t);
      assert ts + [t] == [ts[0]] + (ts[1..] + [t]) && ts == [ts[0]] + ts[1..];
      hide SplitBars;
      if ts[0] == BAR {
        SplitBar(ts[1..] + [t]);
        SplitBar(ts[1..]);
        BarGrows(SplitBars(ts[1..] + [t]), SplitBars(ts[1..]), t);
      } else {
        SplitStep(ts[0], ts[1..] + [t]);
        SplitStep(ts[0], ts[1..]);
        TokGrows(ts[0], SplitBars(ts[1..] + [t]), SplitBars(ts[1..]), t);
      }
    }
  }

  lemma BarGrows(a: seq<seq<Tok>>, b: seq<seq<Tok>>, t: Tok)
    requires b != [] && LastGrows(a, b, t)
    ensures LastGrows([[]] + a, [[]] + b, t)
  {
  }

  lemma TokGrows(s: Tok, a: seq<seq<Tok>>, b: seq<seq<Tok>>, t: Tok)
    requires b != [] && LastGrows(a, b, t)
    ensures LastGrows([[s] + a[0]] + a[1..], [[s] + b[0]] + b[1..], t)
  {
    if |b| == 1 {
      assert [s] + (b[0] + [t]) == [s] + b[0] + [t];
    }
  }

  lemma SpaceAfter(ts: seq<Tok>, t: Tok)
    requires IsSpaceTok(t)
    ensures Finish(SplitBars(ts + [t])) == Finish(SplitBars(ts))
  {
    SplitSnoc(ts, t);
    SpaceBehind(SplitBars(ts)[|SplitBars(ts)| - 1], t);
    hide TrimToks, Restore, SplitBars;
  }

  /** Cells of which each is clean and the outer ones are not empty, so that no bar or space is lost between them. */
  predicate StandAlone(cells: seq<string>) {
    cells != [] && AllClean(cells) && cells[0] != "" && cells[|cells| - 1] != ""
  }

  lemma {:induction false} BetweenEnds(cells: seq<string>)
    requires cells != [] && cells[0] != "" && cells[|cells| - 1] != ""
    ensures Between(cells) != "" && Between(cells)[0] == cells[0][0]
    ensures Between(cells)[|Between(cells)| - 1] == cells[|cells| - 1][|cells[|cells| - 1]| - 1]
  {
    LastChar(cells);
  }

  lemma {:induction false} LastChar(cells: seq<string>)
    requires cells != [] && cells[|cells| - 1] != ""
    ensures Between(cells) != ""
    ensures Between(cells)[|Between(cells)| - 1] == cells[|cells| - 1][|cells[|cells| - 1]| - 1]
  {
    if |cells| > 1 {
      LastChar(cells[1..]);
    }
  }

  lemma PaddedBetween(cells: seq<string>)
    requires StandAlone(cells)
    ensures Inner(cells) == [Ch(' ')] + Protect(Between(cells)) + [Ch(' ')]
  {
    hide Protect, Between, Inner;
    var body := Between(cells);
    ProtectInner(cells);
    ProtectConcat(" " + body, " ");
    ProtectConcat(" ", body);
    SpaceTok();
  }

  lemma FirstAndLast(ts: seq<Tok>)
    requires ts != [] && ts[0] != BAR && ts[|ts| - 1] != BAR
    ensures StripBars(ts) == ts
  {
  }

  lemma {:induction false} InnerLast(cells: seq<string>)
    requires cells != [] && cells[|cells| - 1] != "" && Protect(cells[|cells| - 1]) != []
    ensures |Inner(cells)| >= 3
    ensures Inner(cells)[|Inner(cells)| - 2] == Protect(cells[|cells| - 1])[|Protect(cells[|cells| - 1])| - 1]
  {
    hide Protect;
    if |cells| > 1 {
      InnerLast(cells[1..]);
    }
  }

  lemma InnerFirst(cells: seq<string>)
    requires cells != [] && Protect(cells[0]) != []
    ensures |Inner(cells)| >= 3 && Inner(cells)[1] == Protect(cells[0])[0]
  {
    hide Protect;
  }

  lemma ProtectsSome(cell: string)
    requires Clean(cell) && cell != ""
    ensures Protect(cell) != [] && BAR !in Protect(cell)
  {
    NoBar(cell);
    EndTokens(cell);
  }

  lemma NoOuterBars(cells: seq<string>)
    requires StandAlone(cells)
    ensures var ts := Protect(Between(cells)); ts != [] && ts[0] != BAR && ts[|ts| - 1] != BAR
  {
    hide Inner, Between, Clean, Protect;
    ProtectsSome(cells[0]);
    ProtectsSome(cells[|cells| - 1]);
    InnerFirst(cells);
    InnerLast(cells);
    PaddedBetween(cells);
  }

  lemma BetweenIsTrimmed(cells: seq<string>)
    requires StandAlone(cells)
    ensures Trimmed(Between(cells))
  {
    hide Between, Escaped;
    BetweenEnds(cells);
  }

  /** A row reads as its cells with its outer bars or without them, and with any spaces around it. */
  lemma BareRowReads(cells: seq<string>, a: string, b: string)
    requires StandAlone(cells) && AllSpace(a) && AllSpace(b)
    ensures Cells(a + Between(cells) + b) == cells
    ensures Cells(a + Render(cells) + b) == cells
  {
    hide Between, Render, Inner, Protect, SplitBars, Finish, StripBars, Trim, Trimmed, Escaped, AllSpace;
    BetweenIsTrimmed(cells);
    RenderIsTrimmed(cells);
    TrimTakesSpaces(a, Between(cells), b);
    TrimTakesSpaces(a, Render(cells), b);
    TrimTakesSpaces("", Render(cells), "") by { NoSpaces(); }
    assert "" + Render(cells) + "" == Render(cells);
    RowReadsBack(cells);
    var ts := Protect(Between(cells));
    NoOuterBars(cells);
    FirstAndLast(ts);
    PaddedBetween(cells);
    InnerReads(cells);
    SpaceAfter([Ch(' ')] + ts, Ch(' '));
    SpaceBefore(Ch(' '), ts);
  }

  lemma NoSpaces()
    ensures AllSpace("")
  {
  }

  lemma RenderIsTrimmed(cells: seq<string>)
    requires cells != []
    ensures Trimmed(Render(cells))
  {
    hide Between;
    var row := Render(cells);
    assert row[0] == '|' && row[|row| - 1] == '|';
  }

  /** What stands between the outer bars splits into the cells. */
  lemma InnerReads(cells: seq<string>)
    requires cells != [] && AllClean(cells)
    ensures Finish(SplitBars(Inner(cells))) == cells
  {
    hide Protect, SplitBars, Padded, Inner, Escaped, Trimmed, Restore, TrimToks;
    SplitInner(cells);
    forall i | 0 <= i < |cells| ensures Restore(TrimToks(Segments(cells)[i])) == cells[i] {
      TrimPadded(cells[i]);
      RestoreProtect(cells[i]);
    }
  }

  /** A line continues a table exactly if it has a pipe. */
  lemma RowIffPipe(line: string)
    ensures IsRow(line) <==> '|' in line
  {
    if '|' in line {
      var i :| 0 <= i < |line| && line[i] == '|';
      InkStays(line, i);
    }
  }

  lemma {:induction false} InkStays(s: string, i: nat)
    requires i < |s| && !IsSpace(s[i])
    ensures Trim(s) != ""
  {
    if IsSpace(s[0]) {
      InkStays(s[1..], i - 1);
    } else {
      InkStaysRight(s, 0);
    }
  }

  lemma {:induction false} InkStaysRight(s: string, i: nat)
    requires i < |s| && !IsSpace(s[i])
    ensures TrimRight(s) != ""
  {
    if IsSpace(s[|s| - 1]) {
      InkStaysRight(s[..|s| - 1], i);
    }
  }

  // ---- More outer bars than one ----------------------------------------------------------------

  function Bars(n: nat): string { seq(n, i => '|') }

  function BarToks(n: nat): seq<Tok> { seq(n, i => BAR) }

  lemma {:induction false} ProtectBars(n: nat)
    ensures Protect(Bars(n)) == BarToks(n)
  {
    if n > 0 {
      ProtectBars(n - 1);
      assert Bars(n)[1..] == Bars(n - 1);
      assert BarToks(n) == [BAR] + BarToks(n - 1);
    }
  }

  lemma {:induction false} BarsInFront(n: nat, ts: seq<Tok>)
    requires ts != [] && ts[0] != BAR
    ensures StripBarsLeft(BarToks(n) + ts) == ts
  {
    if n > 0 {
      BarsInFront(n - 1, ts);
      assert (BarToks(n) + ts)[1..] == BarToks(n - 1) + ts;
    } else {
      assert BarToks(0) + ts == ts;
    }
  }

  lemma {:induction false} BarsBehind(ts: seq<Tok>, n: nat)
    requires ts != [] && ts[|ts| - 1] != BAR
    ensures StripBarsRight(ts + BarToks(n)) == ts
  {
    if n > 0 {
      BarsBehind(ts, n - 1);
      assert (ts + BarToks(n))[..|ts + BarToks(n)| - 1] == ts + BarToks(n - 1);
    } else {
      assert ts + BarToks(0) == ts;
    }
  }

  lemma BarsStripped(m: nat, ts: seq<Tok>, n: nat)
    requires ts != [] && ts[0] != BAR && ts[|ts| - 1] != BAR
    ensures StripBars(BarToks(m) + (ts + BarToks(n))) == ts
  {
    hide BarToks;
    BarsInFront(m, ts + BarToks(n));
    BarsBehind(ts, n);
  }

  /** Their tokens split into the cells. */
  lemma BetweenReads(cells: seq<string>)
    requires StandAlone(cells)
    ensures Finish(SplitBars(Protect(Between(cells)))) == cells
  {
    hide Between, Protect, SplitBars, Finish, Inner;
    var ts := Protect(Between(cells));
    PaddedBetween(cells);
    InnerReads(cells);
    SpaceAfter([Ch(' ')] + ts, Ch(' '));
    SpaceBefore(Ch(' '), ts);
  }

  lemma BarredIsTrimmed(cells: seq<string>, m: nat, n: nat)
    requires StandAlone(cells)
    ensures Trim(Bars(m) + (Between(cells) + Bars(n))) == Bars(m) + (Between(cells) + Bars(n))
  {
    var text := Bars(m) + (Between(cells) + Bars(n));
    BetweenEnds(cells);
    BetweenIsTrimmed(cells);
    hide Between, Trim, Escaped;
    NoSpaces();
    TrimTakesSpaces("", text, "");
    assert "" + text + "" == text;
  }

  /** All the bars at both ends are passed over, however many. */
  lemma OuterBarsDoNotCount(cells: seq<string>, m: nat, n: nat)
    requires StandAlone(cells) && (n > 0 ==> cells[|cells| - 1][|cells[|cells| - 1]| - 1] != '\\')
    ensures Cells(Bars(m) + (Between(cells) + Bars(n))) == cells
  {
    var body := Between(cells);
    BetweenEnds(cells);
    BarredIsTrimmed(cells, m, n);
    BarFirst(n);
    BarFirst(m);
    hide Between, Protect, SplitBars, Finish, StripBars, Trim, Clean, BarToks, Bars;
    ProtectBars(m);
    ProtectBars(n);
    ProtectConcat(body, Bars(n));
    ProtectConcat(Bars(m), body + Bars(n));
    NoOuterBars(cells);
    BarsStripped(m, Protect(body), n);
    BetweenReads(cells);
  }

  lemma BarFirst(n: nat)
    ensures Bars(n) == "" <==> n == 0
    ensures n > 0 ==> Bars(n)[|Bars(n)| - 1] != '\\'
  {
  }

  // ---- Separators ------------------------------------------------------------------------------

  function Dashes(n: nat): string { seq(n, i => '-') }

  predicate IsColon(s: string) { s == "" || s == ":" }

  lemma DashesBetween(cell: string) returns (n: nat, left: string, right: string)
    requires IsDashes(cell)
    ensures n >= 3 && IsColon(left) && IsColon(right) && cell == left + Dashes(n) + right
  {
    left := if cell[0] == ':' then ":" else "";
    var rest := if cell != "" && cell[0] == ':' then cell[1..] else cell;
    var body := if rest != "" && rest[|rest| - 1] == ':' then rest[..|rest| - 1] else rest;
    right := if rest[|rest| - 1] == ':' then ":" else "";
    n := |body|;
    AllDashes(body);
    Reassembled(cell, left, rest, body, right);
  }

  lemma AllDashes(body: string)
    requires forall i :: 0 <= i < |body| ==> body[i] == '-'
    ensures body == Dashes(|body|)
  {
  }

  lemma Reassembled(cell: string, left: string, rest: string, body: string, right: string)
    requires if cell != "" && cell[0] == ':' then rest == cell[1..] && left == ":" else rest == cell && left == ""
    requires if rest != "" && rest[|rest| - 1] == ':' then body == rest[..|rest| - 1] && right == ":" else body == rest && right == ""
    ensures cell == left + body + right
  {
    FrontChar(cell);
    BackChar(rest);
    Assoc(left, body, right);
  }

  lemma FrontChar(s: string)
    ensures s != "" ==> s == [s[0]] + s[1..]
    ensures "" + s == s
  {
  }

  lemma BackChar(s: string)
    ensures s != "" ==> s == s[..|s| - 1] + [s[|s| - 1]]
    ensures s + "" == s
  {
  }

  lemma DashesMake(n: nat, left: string, right: string)
    requires n >= 3 && IsColon(left) && IsColon(right)
    ensures IsDashes(left + Dashes(n) + right)
  {
    var cell := left + Dashes(n) + right;
    var rest := Dashes(n) + right;
    assert cell == left + rest && rest[0] == '-';
    assert left == ":" ==> cell[1..] == rest;
    assert rest[..n] == Dashes(n);
    assert right == "" ==> rest == Dashes(n);
  }

  /** A separator's cell is three or more dashes, with a colon before or behind them or not. */
  lemma SeparatorCellIs(cell: string)
    ensures IsDashes(cell)
       <==> exists n: nat, left, right ::
              n >= 3 && IsColon(left) && IsColon(right) && cell == left + Dashes(n) + right
  {
    hide IsDashes;
    if IsDashes(cell) {
      var n, left, right := DashesBetween(cell);
    }
    if n: nat, left, right :| n >= 3 && IsColon(left) && IsColon(right) && cell == left + Dashes(n) + right {
      DashesMake(n, left, right);
    }
  }

  // ---- Cells that are written with a space in front ----------------------------------------------

  lemma SpacedTok(s: string)
    requires Clean(s)
    ensures TrimToks(Padded(" " + s)) == Protect(s) && Escaped(" " + s, false)
  {
    TrimPadded(s);
    hide Protect, Trimmed;
    ProtectConcat(" ", s);
    SpaceTok();
    assert Padded(" " + s) == [Ch(' ')] + Padded(s);
    SpaceInFront(Ch(' '), Padded(s));
  }

  /** A rendered row reads back as its cells without the space some of them began with. */
  lemma SpacedRowReadsBack(cells: seq<string>, cores: seq<string>)
    requires cells != [] && |cells| == |cores| && AllClean(cores)
    requires forall i :: 0 <= i < |cells| ==> cells[i] == cores[i] || cells[i] == " " + cores[i]
    ensures Cells(Render(cells)) == cores
  {
    hide Render, Protect, Trim, StripBars, SplitBars, Padded, Inner, Escaped, Trimmed, Restore, TrimToks;
    forall i | 0 <= i < |cells| ensures Escaped(cells[i], false) && Restore(TrimToks(Segments(cells)[i])) == cores[i] {
      SpacedTok(cores[i]);
      TrimPadded(cores[i]);
      RestoreProtect(cores[i]);
    }
    RowTrimmed(cells);
    ProtectRow(cells);
    InnerEnds(cells);
    OuterBars(Inner(cells));
    SplitInner(cells);
  }
}
