/** Rows written from cells, and read back (`apply_table` and `_cells` of src/tybot/canvas_harness.py). */
module TableRows {
  import opened Basics
  import opened Markdown

  /** Every pipe comes right after a backslash; `after` says whether the text itself does. */
  predicate Escaped(s: string, after: bool) {
    s == "" || ((s[0] == '|' ==> after) && Escaped(s[1..], s[0] == '\\'))
  }

  predicate Trimmed(s: string) { s == "" || (!IsSpace(s[0]) && !IsSpace(s[|s| - 1])) }

  /** What a cell can hold: no bare pipe, no space at either end. */
  predicate Clean(s: string) { Trimmed(s) && Escaped(s, false) }

  predicate AllClean(cells: seq<string>) { forall i :: 0 <= i < |cells| ==> Clean(cells[i]) }

  function Between(cells: seq<string>): string
    requires cells != []
  {
    if |cells| == 1 then cells[0] else cells[0] + " | " + Between(cells[1..])
  }

  function Render(cells: seq<string>): string
    requires cells != []
  {
    "| " + Between(cells) + " |"
  }

  // ---- Tokens of a rendered row ------------------------------------------------------------------

  lemma TailTailOf(a: string, b: string)
    requires |a| >= 2
    ensures (a + b)[2..] == a[2..] + b && (a + b)[0] == a[0] && (a + b)[1] == a[1]
  {
  }

  lemma {:induction false} ProtectConcat(a: string, b: string)
    requires a == "" || a[|a| - 1] != '\\' || b == "" || b[0] != '|'
    ensures Protect(a + b) == Protect(a) + Protect(b)
    decreases |a|
  {
    if a == "" {
      assert a + b == b;
    } else if |a| >= 2 && a[0] == '\\' && a[1] == '|' {
      TailTailOf(a, b);
      ProtectConcat(a[2..], b);
      Assoc([EscapedPipe], Protect(a[2..]), Protect(b));
    } else {
      TailOfConcat(a, b);
      ProtectConcat(a[1..], b);
      Assoc([Ch(a[0])], Protect(a[1..]), Protect(b));
    }
  }

  lemma {:induction false} RestoreProtect(s: string)
    ensures Restore(Protect(s)) == s
    decreases |s|
  {
    if s == "" {
    } else if |s| >= 2 && s[0] == '\\' && s[1] == '|' {
      RestoreProtect(s[2..]);
      assert s == "\\|" + s[2..];
    } else {
      RestoreProtect(s[1..]);
      assert s == [s[0]] + s[1..];
    }
  }

  /** An escaped text has no bar among its tokens. */
  lemma {:induction false} NoBar(s: string)
    requires Escaped(s, false)
    ensures BAR !in Protect(s)
    decreases |s|
  {
    if s == "" {
    } else if |s| >= 2 && s[0] == '\\' && s[1] == '|' {
      NoBar(s[2..]);
    } else {
      if |s| >= 2 {
        assert s[1..][0] == s[1];
      }
      NoBarHead(s);
      NoBar(s[1..]);
    }
  }

  lemma NoBarHead(s: string)
    requires s != "" && Escaped(s, false) && !(|s| >= 2 && s[0] == '\\' && s[1] == '|')
    ensures s[0] != '|' && Escaped(s[1..], false)
  {
  }

  /** The tokens of a cell between its two spaces. */
  function Padded(s: string): seq<Tok> { [Ch(' ')] + Protect(s) + [Ch(' ')] }

  /** The tokens between the outer bars. */
  function Inner(cells: seq<string>): seq<Tok>
    requires cells != []
  {
    if |cells| == 1 then Padded(cells[0]) else Padded(cells[0]) + [BAR] + Inner(cells[1..])
  }

  lemma ProtectPadded(s: string)
    ensures Protect(" " + s + " ") == Padded(s)
  {
    hide Protect;
    ProtectConcat(" " + s, " ");
    ProtectConcat(" ", s);
    SpaceTok();
  }

  lemma SpaceTok()
    ensures Protect(" ") == [Ch(' ')] && Protect("|") == [BAR]
  {
  }

  lemma RegroupCells(x: string, rest: string)
    ensures " " + (x + " | " + rest) + " " == (" " + x + " ") + ("|" + (" " + rest + " "))
  {
  }

  lemma {:induction false} ProtectInner(cells: seq<string>)
    requires cells != []
    ensures Protect(" " + Between(cells) + " ") == Inner(cells)
  {
    hide Protect;
    if |cells| == 1 {
      ProtectPadded(cells[0]);
    } else {
      var x, rest := cells[0], Between(cells[1..]);
      ProtectInner(cells[1..]);
      ProtectPadded(x);
      RegroupCells(x, rest);
      ProtectConcat(" " + x + " ", "|" + (" " + rest + " "));
      ProtectConcat("|", " " + rest + " ");
      SpaceTok();
      Assoc(Padded(x), [BAR], Inner(cells[1..]));
    }
  }

  lemma RegroupRow(body: string)
    ensures "| " + body + " |" == "|" + ((" " + body + " ") + "|")
  {
  }

  lemma ProtectRow(cells: seq<string>)
    requires cells != []
    ensures Protect(Render(cells)) == [BAR] + (Inner(cells) + [BAR])
  {
    hide Protect, Between;
    var body := Between(cells);
    RegroupRow(body);
    ProtectInner(cells);
    SpaceTok();
    ProtectConcat("|", (" " + body + " ") + "|");
    ProtectConcat(" " + body + " ", "|");
  }

  // ---- Reading it back ---------------------------------------------------------------------------

  lemma RowTrimmed(cells: seq<string>)
    requires cells != []
    ensures Trim(Render(cells)) == Render(cells)
  {
    hide Between;
    var row := Render(cells);
    assert row[0] == '|' && row[|row| - 1] == '|';
  }

  lemma {:induction false} InnerEnds(cells: seq<string>)
    requires cells != []
    ensures |Inner(cells)| >= 2 && Inner(cells)[0] == Ch(' ') && Inner(cells)[|Inner(cells)| - 1] == Ch(' ')
  {
    hide Protect;
    if |cells| > 1 {
      InnerEnds(cells[1..]);
    }
  }

  lemma OuterBars(ts: seq<Tok>)
    requires |ts| >= 1 && ts[0] != BAR && ts[|ts| - 1] != BAR
    ensures StripBars([BAR] + (ts + [BAR])) == ts
  {
    var all := [BAR] + (ts + [BAR]);
    assert all[1..] == ts + [BAR];
    assert StripBarsLeft(ts + [BAR]) == ts + [BAR];
    assert (ts + [BAR])[..|ts + [BAR]| - 1] == ts;
    assert StripBarsRight(ts) == ts;
  }

  lemma {:induction false} SplitSegment(seg: seq<Tok>, rest: seq<Tok>)
    requires BAR !in seg
    ensures SplitBars(seg) == [seg]
    ensures SplitBars(seg + [BAR] + rest) == [seg] + SplitBars(rest)
  {
    if seg == [] {
      assert [] + [BAR] + rest == [BAR] + rest;
      assert ([BAR] + rest)[1..] == rest;
    } else {
      SplitSegment(seg[1..], rest);
      var all := seg + [BAR] + rest;
      assert all[1..] == seg[1..] + [BAR] + rest;
      assert [seg[0]] + seg[1..] == seg;
      hide SplitBars;
      SplitStep(seg[0], seg[1..]);
      SplitStep(seg[0], all[1..]);
      assert [seg[0]] + seg[1..] == seg;
      assert [seg[0]] + all[1..] == all;
      assert ([seg[1..]] + SplitBars(rest))[1..] == SplitBars(rest);
    }
  }

  lemma SplitStep(t: Tok, ts: seq<Tok>)
    requires t != BAR
    ensures SplitBars([t] + ts) == [[t] + SplitBars(ts)[0]] + SplitBars(ts)[1..]
  {
    assert ([t] + ts)[1..] == ts;
  }

  function Segments(cells: seq<string>): (r: seq<seq<Tok>>)
    ensures |r| == |cells|
  {
    seq(|cells|, i requires 0 <= i < |cells| => Padded(cells[i]))
  }

  lemma NoBarPadded(s: string)
    requires Escaped(s, false)
    ensures BAR !in Padded(s)
  {
    hide Protect, Escaped;
    NoBar(s);
  }

  lemma {:induction false} SplitInner(cells: seq<string>)
    requires cells != [] && forall i :: 0 <= i < |cells| ==> Escaped(cells[i], false)
    ensures SplitBars(Inner(cells)) == Segments(cells)
  {
    hide Padded, SplitBars, Escaped;
    NoBarPadded(cells[0]);
    if |cells| == 1 {
      SplitSegment(Padded(cells[0]), []);
      assert Segments(cells) == [Padded(cells[0])];
    } else {
      SplitInner(cells[1..]);
      SplitSegment(Padded(cells[0]), Inner(cells[1..]));
      assert Segments(cells) == [Padded(cells[0])] + Segments(cells[1..]);
    }
  }

  /** The first and last tokens of a text are its first and last characters, or an escaped pipe. */
  lemma {:induction false} EndTokens(s: string)
    requires s != ""
    ensures Protect(s) != []
    ensures IsSpaceTok(Protect(s)[0]) ==> IsSpace(s[0])
    ensures IsSpaceTok(Protect(s)[|Protect(s)| - 1]) ==> IsSpace(s[|s| - 1])
    decreases |s|
  {
    if |s| >= 2 && s[0] == '\\' && s[1] == '|' {
      if |s| > 2 {
        EndTokens(s[2..]);
      }
    } else if |s| > 1 {
      EndTokens(s[1..]);
    }
  }

  lemma TrimPadded(s: string)
    requires Trimmed(s)
    ensures TrimToks(Padded(s)) == Protect(s)
  {
    hide Protect;
    var p := Protect(s);
    if s == "" {
      EmptyToks();
      assert Padded(s) == [Ch(' '), Ch(' ')];
      assert [Ch(' '), Ch(' ')][1..] == [Ch(' ')];
      assert TrimToksLeft([Ch(' ')]) == [];
    } else {
      EndTokens(s);
      assert Padded(s)[1..] == p + [Ch(' ')];
      assert TrimToksLeft(p + [Ch(' ')]) == p + [Ch(' ')];
      assert (p + [Ch(' ')])[..|p + [Ch(' ')]| - 1] == p;
      assert TrimToksRight(p) == p;
    }
  }

  lemma EmptyToks()
    ensures Protect("") == []
  {
  }

  /** A rendered row reads back as exactly the cells it was rendered from. */
  lemma RowReadsBack(cells: seq<string>)
    requires cells != [] && AllClean(cells)
    ensures Cells(Render(cells)) == cells
  {
    hide Render, Protect, Trim, StripBars, SplitBars, Padded, Inner, Escaped, Trimmed, Restore, TrimToks;
    RowTrimmed(cells);
    ProtectRow(cells);
    InnerEnds(cells);
    OuterBars(Inner(cells));
    SplitInner(cells);
    forall i | 0 <= i < |cells| ensures Restore(TrimToks(Segments(cells)[i])) == cells[i] {
      TrimPadded(cells[i]);
      RestoreProtect(cells[i]);
    }
  }

  // ---- What a row reads as is clean ----------------------------------------------------------------

  lemma {:induction false} SegmentsHaveNoBar(ts: seq<Tok>, i: nat)
    requires i < |SplitBars(ts)|
    ensures BAR !in SplitBars(ts)[i]
  {
    if ts != [] {
      var rest := SplitBars(ts[1..]);
      if ts[0] == BAR {
        if i > 0 {
          SegmentsHaveNoBar(ts[1..], i - 1);
        }
      } else {
        SegmentsHaveNoBar(ts[1..], i);
      }
    }
  }

  lemma {:induction false} TrimToksLeftEnds(ts: seq<Tok>)
    ensures var r := TrimToksLeft(ts);
      && (r == [] || !IsSpaceTok(r[0])) && (BAR !in ts ==> BAR !in r)
  {
    if ts != [] {
      TrimToksLeftEnds(ts[1..]);
    }
  }

  lemma {:induction false} TrimToksRightEnds(ts: seq<Tok>)
    ensures var r := TrimToksRight(ts);
      && |r| <= |ts|
      && (r == [] || (!IsSpaceTok(r[|r| - 1]) && r[0] == ts[0])) && (BAR !in ts ==> BAR !in r)
  {
    if ts != [] {
      TrimToksRightEnds(ts[..|ts| - 1]);
    }
  }

  lemma {:induction false} RestoreEnds(ts: seq<Tok>)
    requires ts != [] && !IsSpaceTok(ts[|ts| - 1])
    ensures Restore(ts) != ""
    ensures !IsSpaceTok(ts[0]) ==> !IsSpace(Restore(ts)[0])
    ensures !IsSpace(Restore(ts)[|Restore(ts)| - 1])
  {
    if |ts| == 1 {
      assert Restore(ts[1..]) == "";
    } else {
      RestoreEnds(ts[1..]);
    }
  }

  lemma EscapedPrefix(c: char, rest: string, after: bool)
    ensures Escaped([c] + rest, after) <==> (c == '|' ==> after) && Escaped(rest, c == '\\')
  {
    assert ([c] + rest)[1..] == rest;
  }

  lemma EscapedPair(rest: string, after: bool)
    ensures Escaped("\\|" + rest, after) <==> Escaped(rest, false)
  {
    EscapedPrefix('|', rest, true);
    EscapedPrefix('\\', "|" + rest, after);
    assert "\\|" + rest == ['\\'] + ("|" + rest);
  }

  lemma {:induction false} RestoreEscaped(ts: seq<Tok>, after: bool)
    requires BAR !in ts
    ensures Escaped(Restore(ts), after)
  {
    if ts != [] {
      hide Escaped;
      match ts[0]
      case Ch(c) =>
        RestoreEscaped(ts[1..], c == '\\');
        EscapedPrefix(c, Restore(ts[1..]), after);
      case EscapedPipe =>
        RestoreEscaped(ts[1..], false);
        EscapedPair(Restore(ts[1..]), after);
    } else {
      EscapedNothing(after);
    }
  }

  lemma EscapedNothing(after: bool)
    ensures Escaped("", after)
  {
  }

  lemma SegmentIsClean(seg: seq<Tok>)
    requires BAR !in seg
    ensures Clean(Restore(TrimToks(seg)))
  {
    hide Escaped, Restore, TrimToksLeft, TrimToksRight;
    TrimToksLeftEnds(seg);
    TrimToksRightEnds(TrimToksLeft(seg));
    var ts := TrimToks(seg);
    RestoreEscaped(ts, false);
    if ts != [] {
      RestoreEnds(ts);
    } else {
      NothingRestored();
    }
  }

  lemma NothingRestored()
    ensures Restore([]) == ""
  {
  }

  /** Whatever the line, the cells read from it hold no bare pipe and no space at their ends. */
  lemma CellsAreClean(line: string)
    ensures AllClean(Cells(line))
  {
    hide Clean, SplitBars, Restore, TrimToks;
    var segs := SplitBars(StripBars(Protect(Trim(line))));
    forall i | 0 <= i < |segs| ensures Clean(Restore(TrimToks(segs[i]))) {
      SegmentsHaveNoBar(StripBars(Protect(Trim(line))), i);
      SegmentIsClean(segs[i]);
    }
  }

  // ---- Joining words keeps a cell clean ------------------------------------------------------------

  lemma {:induction false} TrimLeftEscaped(s: string)
    requires Escaped(s, false)
    ensures Escaped(TrimLeft(s), false)
  {
    if s != "" && IsSpace(s[0]) {
      assert s[0] != '\\';
      TrimLeftEscaped(s[1..]);
    }
  }

  lemma {:induction false} CollapsedEscaped(s: string, after: bool)
    requires Escaped(s, after)
    ensures Escaped(Collapsed(s), after)
    decreases |s|
  {
    if s == "" {
    } else if !IsSpace(s[0]) {
      CollapsedEscaped(s[1..], s[0] == '\\');
      EscapedPrefix(s[0], Collapsed(s[1..]), after);
    } else {
      LeftTrimmed(s);
      TrimLeftEscaped(s[1..]);
      CollapsedEscaped(TrimLeft(s), false);
      EscapedPrefix(' ', Collapsed(TrimLeft(s)), after);
      EscapedNothing(after);
    }
  }

  lemma {:induction false} CollapsedEnds(s: string)
    ensures var r := Collapsed(s);
      r == "" || (!IsSpace(r[|r| - 1]) && (!IsSpace(s[0]) ==> r[0] == s[0]))
    decreases |s|
  {
    if s == "" {
    } else if !IsSpace(s[0]) {
      CollapsedEnds(s[1..]);
    } else {
      LeftTrimmed(s);
      CollapsedEnds(TrimLeft(s));
    }
  }

  lemma JoinedIsClean(s: string)
    requires Escaped(s, false)
    ensures Clean(Markdown.Joined(s))
  {
    hide Escaped, Collapsed, TrimLeft;
    TrimLeftEscaped(s);
    CollapsedEscaped(TrimLeft(s), false);
    CollapsedEnds(TrimLeft(s));
    LeftTrimmed(s);
    NothingCollapsed();
  }

  lemma NothingCollapsed()
    ensures Collapsed("") == ""
  {
  }
}
