/**
 * What the drain does when names do not appear in order, and what becomes of a row written after
 * a drain that raised (src/tybot/audit.py).
 */
module AuditDisorder {
  import opened Basics
  import opened StringOrder
  import opened Text
  import opened AuditDrain

  /** How many lines carry the mark of `stem`. */
  function Marked(ls: seq<string>, stem: Stem): nat {
    if ls == [] then 0 else (if EndsWith(ls[0] + [NL], Mark(stem)) then 1 else 0) + Marked(ls[1..], stem)
  }

  lemma {:induction false} MarkedConcat(a: seq<string>, b: seq<string>, stem: Stem)
    ensures Marked(a + b, stem) == Marked(a, stem) + Marked(b, stem)
  {
    if a == [] {
      assert a + b == b;
    } else {
      assert (a + b)[1..] == a[1..] + b;
      MarkedConcat(a[1..], b, stem);
    }
  }

  lemma MarkedOne(line: string, stem: Stem)
    ensures Marked([line], stem) == if EndsWith(line + [NL], Mark(stem)) then 1 else 0
  {
    assert Marked([line][1..], stem) == 0;
  }

  /** The line of an entry carries its own mark and no other. */
  lemma OwnMark(e: Entry, stem: Stem)
    requires OneRow(e)
    ensures EndsWith(LineOf(e) + [NL], Mark(stem)) <==> stem == e.stem
  {
    DataOfOneRow(e);
    if EndsWith(LineOf(e) + [NL], Mark(stem)) {
      MarksDiffer(LineOf(e) + [NL], stem, e.stem);
    }
  }

  /** A file ends with the rows of at most one of two entries of different names. */
  lemma EndsWithOne(main: string, a: Entry, b: Entry)
    requires OneRow(a) && OneRow(b)
    requires EndsWith(main, LineOf(a) + [NL]) && EndsWith(main, LineOf(b) + [NL])
    ensures a.stem == b.stem
  {
    DataOfOneRow(a);
    DataOfOneRow(b);
    EndsWithTrans(main, LineOf(a) + [NL], Mark(a.stem));
    EndsWithTrans(main, LineOf(b) + [NL], Mark(b.stem));
    MarksDiffer(main, a.stem, b.stem);
  }

  // ---- Draining a file of whole lines ----------------------------------------------------------

  ghost predicate Listing(parts: seq<Entry>) {
    && (forall e :: e in parts ==> OneRow(e))
    && (forall i, j :: 0 <= i < j < |parts| ==> Before(parts[i].stem, parts[j].stem))
  }

  lemma ListingRest(parts: seq<Entry>)
    requires parts != [] && Listing(parts)
    ensures Listing(parts[1..]) && OneRow(parts[0]) && forall e :: e in parts[1..] ==> e.stem != parts[0].stem
  {
    forall e | e in parts[1..] ensures e.stem != parts[0].stem {
      var i :| 0 <= i < |parts| - 1 && parts[1..][i] == e;
      BeforeIsStrict(parts[0].stem, parts[i + 1].stem);
    }
  }

  /** The entries a drain still appends: all but a first one whose row ends the file. */
  function Due(main: string, parts: seq<Entry>): (due: seq<Entry>)
    requires Listing(parts)
    ensures Listing(due)
  {
    if parts != [] && EndsWith(main, LineOf(parts[0]) + [NL]) then parts[1..] else parts
  }

  /** One entry, on a file of whole lines. */
  lemma DrainOneWhole(main: string, parts: seq<Entry>)
    requires Whole(main) && Listing(parts) && parts != []
    ensures var row := LineOf(parts[0]) + [NL];
            var main' := if EndsWith(main, row) then main else main + row;
            && Whole(main') && EndsWith(main', row)
            && Drain(Disk(main, parts), Survives) == Drain(Disk(main', parts[1..]), Survives)
  {
    hide LineOf, Pending;
    var row := LineOf(parts[0]) + [NL];
    EndsInBrace(parts[0]);
    PendingIs(main, "", parts[0]);
    assert main + "" == main && row[0..] == row && "" <= LineOf(parts[0]);
    DrainStep(Disk(main, parts), Survives);
  }

  lemma NothingDueTwice(main: string, parts: seq<Entry>)
    requires Listing(parts) && parts != [] && EndsWith(main, LineOf(parts[0]) + [NL])
    ensures Listing(parts[1..]) && Due(main, parts[1..]) == parts[1..]
  {
    ListingRest(parts);
    if |parts| > 1 && EndsWith(main, LineOf(parts[1]) + [NL]) {
      EndsWithOne(main, parts[0], parts[1]);
    }
  }

  /** A complete drain of a whole file appends exactly what is due, in order. */
  lemma {:induction false} DrainWhole(main: string, parts: seq<Entry>)
    requires Whole(main) && Listing(parts)
    ensures Drain(Disk(main, parts), Survives) == (Disk(main + Closed(EntryLines(Due(main, parts))), []), Merged)
    decreases |parts|
  {
    hide LineOf, Drain, Whole, EndsWith;
    if parts == [] {
      DrainStep(Disk(main, parts), Survives);
      assert main + "" == main;
    } else {
      DrainOneWhole(main, parts);
      ListingRest(parts);
      var row := LineOf(parts[0]) + [NL];
      var main' := if EndsWith(main, row) then main else main + row;
      NothingDueTwice(main', parts);
      DrainWhole(main', parts[1..]);
      LedgerNext(main, parts);
    }
  }

  lemma {:induction false} EntryMarks(parts: seq<Entry>, stem: Stem)
    requires Listing(parts)
    ensures Marked(EntryLines(parts), stem) == if exists e :: e in parts && e.stem == stem then 1 else 0
    ensures forall i :: 0 <= i < |EntryLines(parts)| ==> NL !in EntryLines(parts)[i]
  {
    hide LineOf, EndsWith, Mark;
    if parts != [] {
      ListingRest(parts);
      EntryMarks(parts[1..], stem);
      EndsInBrace(parts[0]);
      OwnMark(parts[0], stem);
    }
  }

  /** So it adds the mark of every entry that is due once, and no other. */
  lemma DrainMarks(main: string, parts: seq<Entry>, stem: Stem)
    requires Whole(main) && Listing(parts)
    ensures Marked(Lines(Drain(Disk(main, parts), Survives).0.main), stem)
         == Marked(Lines(main), stem) + if exists e :: e in Due(main, parts) && e.stem == stem then 1 else 0
  {
    hide EntryLines, Marked, Lines, Drain;
    DrainWhole(main, parts);
    var ls := EntryLines(Due(main, parts));
    EntryMarks(Due(main, parts), stem);
    LinesOfClosed(ls);
    LinesConcat(main, Closed(ls));
    MarkedConcat(Lines(main), ls, stem);
  }

  /**
   * A drain of a whole file adds the row of a listed entry once, unless it is the first and its
   * row ends the file already. So an entry that was appended and not unlinked appears once more
   * when another one sorts before it.
   */
  lemma AppendedAgainUnlessFirst(main: string, parts: seq<Entry>, j: nat)
    requires Whole(main) && Listing(parts) && j < |parts|
    ensures Marked(Lines(Drain(Disk(main, parts), Survives).0.main), parts[j].stem)
         == Marked(Lines(main), parts[j].stem) + if j == 0 && EndsWith(main, LineOf(parts[0]) + [NL]) then 0 else 1
  {
    hide LineOf, Marked, Lines, Drain, EndsWith;
    DrainMarks(main, parts, parts[j].stem);
    ListingRest(parts);
    assert parts[j] in parts && (j > 0 ==> parts[j] == parts[1..][j - 1]);
  }

  /** After it every listed entry has one line exactly when it had as many before as the drain passes over. */
  lemma EachOnceAfterIff(main: string, parts: seq<Entry>)
    requires Whole(main) && Listing(parts)
    ensures (forall j :: 0 <= j < |parts| ==> Marked(Lines(Drain(Disk(main, parts), Survives).0.main), parts[j].stem) == 1)
       <==> (forall j :: 0 <= j < |parts| ==> Marked(Lines(main), parts[j].stem)
                                              == if j == 0 && EndsWith(main, LineOf(parts[0]) + [NL]) then 1 else 0)
  {
    hide LineOf, Marked, Lines, Drain, EndsWith;
    forall j | 0 <= j < |parts|
      ensures Marked(Lines(Drain(Disk(main, parts), Survives).0.main), parts[j].stem)
           == Marked(Lines(main), parts[j].stem) + if j == 0 && EndsWith(main, LineOf(parts[0]) + [NL]) then 0 else 1
    {
      AppendedAgainUnlessFirst(main, parts, j);
    }
  }

  // ---- Draining a torn file --------------------------------------------------------------------

  /**
   * The file ends in the torn bytes `t`. The drain goes on exactly when those bytes could also be
   * the beginning of the first entry's row; otherwise it raises and leaves everything as it was.
   */
  lemma TornRowBlocksUnlessShared(base: string, t: string, parts: seq<Entry>)
    requires Whole(base) && Listing(parts) && parts != [] && t != "" && NL !in t
    ensures Drain(Disk(base + t, parts), Survives)
         == if t <= LineOf(parts[0]) then (Disk(base + Closed(EntryLines(parts)), []), Merged)
            else (Disk(base + t, parts), Failed)
  {
    var row := LineOf(parts[0]) + [NL];
    assert !EndsWith(base + t, row) by { TornEnd(base, t, LineOf(parts[0])); }
    PendingIs(base, t, parts[0]);
    hide LineOf, Pending, Drain, EndsWith, Whole, EntryLines;
    DrainStep(Disk(base + t, parts), Survives);
    if t <= LineOf(parts[0]) {
      Completes(base, t, row);
      AfterFirst(base, parts);
    }
  }

  lemma TornEnd(base: string, t: string, line: string)
    requires t != "" && NL !in t
    ensures !EndsWith(base + t, line + [NL])
  {
    assert (base + t)[|base + t| - 1] == t[|t| - 1];
  }

  /** With the first entry's row at the end of the file, the others complete the ledger. */
  lemma AfterFirst(base: string, parts: seq<Entry>)
    requires Whole(base) && Listing(parts) && parts != []
    ensures Drain(Disk(base + (LineOf(parts[0]) + [NL]), parts[1..]), Survives)
         == (Disk(base + Closed(EntryLines(parts)), []), Merged)
  {
    var row := LineOf(parts[0]) + [NL];
    assert (base + row)[|base + row| - 1] == NL;
    EndsWithConcat(base, row, row);
    hide LineOf, Drain;
    ListingRest(parts);
    NothingDueTwice(base + row, parts);
    DrainWhole(base + row, parts[1..]);
    LedgerNext(base, parts);
  }

  // ---- Names that appear late ------------------------------------------------------------------

  /** The later name is published first, its drain dies after `written` bytes, then the earlier name appears. */
  function OutOfOrder(early: Entry, late: Entry, written: nat): seq<Event> {
    [Publishes(late), DrainDies(0, written), Publishes(early)]
  }

  lemma OutOfOrderReaches(early: Entry, late: Entry, written: nat)
    requires OneRow(early) && OneRow(late) && Before(early.stem, late.stem) && written <= |LineOf(late)| + 1
    ensures Listing([early, late])
    ensures Run(Disk("", []), OutOfOrder(early, late, written)) == Disk((LineOf(late) + [NL])[..written], [early, late])
  {
    hide Drain, LineOf, Pending;
    var evs := OutOfOrder(early, late, written);
    assert evs[1..] == [DrainDies(0, written), Publishes(early)] && evs[1..][1..] == [Publishes(early)];
    PendingOfFirst(late);
    DiesInFirst(Disk("", [late]), written);
    var torn := (LineOf(late) + [NL])[..written];
    assert "" + torn == torn;
    RunOne(Disk("", []), evs);
    RunOne(Disk("", [late]), evs[1..]);
    RunOne(Disk(torn, [late]), evs[1..][1..]);
    assert Perform(Disk("", [late]), evs[1]).main == torn;
    assert Listed([late], early) == [early, late];
    assert Listed([], late) == [late];
  }

  lemma PendingOfFirst(e: Entry)
    requires OneRow(e)
    ensures Pending("", e) == Some(LineOf(e) + [NL])
  {
    PendingIs("", "", e);
    assert "" + "" == "" && (LineOf(e) + [NL])[0..] == LineOf(e) + [NL];
  }

  lemma DiesInFirst(d: Disk, written: nat)
    requires d.parts != [] && Pending(d.main, d.parts[0]).Some? && written <= |Pending(d.main, d.parts[0]).value|
    ensures Drain(d, Dies(0, written)).0 == d.(main := d.main + Pending(d.main, d.parts[0]).value[..written])
  {
  }

  lemma RunOne(d: Disk, evs: seq<Event>)
    requires evs != []
    ensures Run(d, evs) == Run(Perform(d, evs[0]), evs[1..])
    ensures |evs| == 1 ==> Run(d, evs) == Perform(d, evs[0])
  {
  }

  /** A drain that dies before its unlink, and an earlier name that appears after it: the later row is there twice. */
  lemma LateNameIsDoubled(early: Entry, late: Entry)
    requires OneRow(early) && OneRow(late) && Before(early.stem, late.stem)
    ensures Drain(Run(Disk("", []), OutOfOrder(early, late, |LineOf(late)| + 1)), Survives)
         == (Disk(Closed([LineOf(late), LineOf(early), LineOf(late)]), []), Merged)
  {
    hide Drain, LineOf, Run;
    OutOfOrderReaches(early, late, |LineOf(late)| + 1);
    var row := LineOf(late) + [NL];
    assert row[..|LineOf(late)| + 1] == row;
    BeforeIsStrict(early.stem, late.stem);
    if EndsWith(row, LineOf(early) + [NL]) {
      EndsWithOne(row, early, late);
    }
    DrainWhole(row, [early, late]);
    TwoLines(early, late);
    ClosedConcat([LineOf(late)], [LineOf(early), LineOf(late)]);
    ClosedOne(LineOf(late));
    assert [LineOf(late)] + [LineOf(early), LineOf(late)] == [LineOf(late), LineOf(early), LineOf(late)];
  }

  lemma TwoLines(a: Entry, b: Entry)
    requires OneRow(a) && OneRow(b)
    ensures EntryLines([a, b]) == [LineOf(a), LineOf(b)]
  {
    assert EntryLines([a, b][1..]) == [LineOf(b)];
  }

  /** The same with the row torn where the two rows differ: every drain raises from then on. */
  lemma LateNameBlocks(early: Entry, late: Entry, written: nat)
    requires OneRow(early) && OneRow(late) && Before(early.stem, late.stem) && written <= |LineOf(late)|
    requires !(LineOf(late)[..written] <= LineOf(early))
    ensures var d := Run(Disk("", []), OutOfOrder(early, late, written));
            d == Disk(LineOf(late)[..written], [early, late]) && Drain(d, Survives) == (d, Failed)
  {
    hide Drain, LineOf, Run;
    OutOfOrderReaches(early, late, written);
    var t := LineOf(late)[..written];
    assert (LineOf(late) + [NL])[..written] == t == "" + t;
    EndsInBrace(late);
    BeginningHasNoBreak(t, LineOf(late));
    TornRowBlocksUnlessShared("", t, [early, late]);
  }

  function Repeated(c: char): (stem: Stem)
    requires InStem(c)
    ensures stem[0] == c
  {
    seq(STEM_LENGTH, i => c)
  }

  /** Two such records. */
  lemma LateNameExample()
    ensures var early, late := Entry(Repeated('1'), Rows(["\"q\": 1"])), Entry(Repeated('2'), Rows(["\"q\": 2"]));
            && OneRow(early) && OneRow(late) && Before(early.stem, late.stem)
            && 7 <= |LineOf(late)| && !(LineOf(late)[..7] <= LineOf(early))
  {
    var early, late := Entry(Repeated('1'), Rows(["\"q\": 1"])), Entry(Repeated('2'), Rows(["\"q\": 2"]));
    assert LineOf(early)[6] == '1' && LineOf(late)[..7][6] == LineOf(late)[6] == '2';
  }

  // ---- A row written after the drain ------------------------------------------------------------

  /**
   * What makes a torn file whole again: the first listed entry that is not blank can be read,
   * and its bytes begin with the torn row.
   */
  predicate Heals(d: Disk)
    decreases |d.parts|
  {
    Whole(d.main) ||
    (d.parts != [] &&
     match d.parts[0].content
     case Blank => Heals(Disk(d.main, d.parts[1..]))
     case Malformed => false
     case Rows(rows) => rows != [] && AfterLastBreak(d.main) <= Closed(SpilledLines(rows, d.parts[0].stem, 0)))
  }

  lemma ClosedLast(ls: seq<string>)
    requires ls != []
    ensures Closed(ls) != "" && Closed(ls)[|Closed(ls)| - 1] == NL
  {
    ClosedWhole(ls);
  }

  lemma {:induction false} DrainKeepsWhole(d: Disk)
    requires Whole(d.main)
    ensures Whole(Drain(d, Survives).0.main)
    decreases |d.parts|
  {
    hide Whole, Pending, EndsWith;
    if d.parts != [] && Pending(d.main, d.parts[0]).Some? {
      var p := Pending(d.main, d.parts[0]).value;
      AppendingEndsWith(d.main, d.parts[0]);
      EntryEndsWhole(d.main, d.parts[0]);
      DrainKeepsWhole(Disk(d.main + p, d.parts[1..]));
    }
  }

  lemma EntryEndsWhole(main: string, e: Entry)
    requires Pending(main, e).Some?
    ensures e.content.Rows? || Whole(main) ==> Whole(main + Pending(main, e).value)
  {
    AppendingEndsWith(main, e);
    if e.content.Rows? {
      ClosedLast(SpilledLines(e.content.rows, e.stem, 0));
    } else {
      assert main + "" == main;
    }
  }

  /** A torn row can only be completed by an entry whose bytes begin with it. */
  lemma PendingIff(main: string, data: string)
    requires !Whole(main) && data != "" && data[|data| - 1] == NL
    ensures Missing(main, data).Some? <==> AfterLastBreak(main) <= data
  {
    Parted(main);
    assert !EndsWith(main, data);
    MissingIs(WholePart(main), AfterLastBreak(main), data);
  }

  /** A complete drain leaves whole lines exactly when the disk heals. */
  lemma {:induction false} WholeAfterDrainIff(d: Disk)
    ensures Whole(Drain(d, Survives).0.main) <==> Heals(d)
    decreases |d.parts|
  {
    if Whole(d.main) {
      DrainKeepsWhole(d);
    } else if d.parts != [] {
      var e := d.parts[0];
      match e.content {
        case Blank =>
          assert d.main + "" == d.main;
          WholeAfterDrainIff(Disk(d.main, d.parts[1..]));
        case Malformed =>
        case Rows(rows) =>
          if rows != [] {
            ClosedLast(SpilledLines(rows, e.stem, 0));
            PendingIff(d.main, Closed(SpilledLines(rows, e.stem, 0)));
            if Pending(d.main, e).Some? {
              EntryEndsWhole(d.main, e);
              DrainKeepsWhole(Disk(d.main + Pending(d.main, e).value, d.parts[1..]));
            }
          }
      }
    }
  }

  /**
   * A row written by a lock holder is a line of its own exactly when the disk it found heals;
   * otherwise it is glued to the torn row before it.
   */
  lemma LiveRowIsALineIff(d: Disk, row: Fields)
    ensures EndsInLine(Perform(d, Live(row)).main, LiveLine(row)) <==> Heals(d)
    ensures Lines(Perform(d, Live(row)).main) != []
    ensures EndsWith(Last(Lines(Perform(d, Live(row)).main)), LiveLine(row))
  {
    RowAfter(Drain(d, Survives).0.main, LiveLine(row));
    WholeAfterDrainIff(d);
  }

  /** The disk of `LateNameBlocks` does not heal: the next live row is glued to the torn one. */
  lemma GluedRow(early: Entry, late: Entry, written: nat, row: Fields)
    requires OneRow(early) && OneRow(late) && Before(early.stem, late.stem) && written <= |LineOf(late)|
    requires !(LineOf(late)[..written] <= LineOf(early))
    ensures var d := Run(Disk("", []), OutOfOrder(early, late, written));
            !EndsInLine(Perform(d, Live(row)).main, LiveLine(row))
  {
    hide LineOf, Run, Drain, EndsInLine, Perform, LiveLine;
    LateNameBlocks(early, late, written);
    var d := Run(Disk("", []), OutOfOrder(early, late, written));
    LiveRowIsALineIff(d, row);
    WholeAfterDrainIff(d);
    EndsInBrace(late);
    BeginningHasNoBreak(d.main, LineOf(late));
  }

  function Last(ls: seq<string>): string
    requires ls != []
  {
    ls[|ls| - 1]
  }

  predicate EndsInLine(main: string, line: string) {
    Lines(main) != [] && Last(Lines(main)) == line
  }

  lemma RowAfter(before: string, line: string)
    requires NL !in line
    ensures Lines(before + line + [NL]) != []
    ensures Last(Lines(before + line + [NL])) == AfterLastBreak(before) + line
    ensures Last(Lines(before + line + [NL])) == line <==> Whole(before)
    ensures EndsWith(Last(Lines(before + line + [NL])), line)
  {
    var t, base := AfterLastBreak(before), WholePart(before);
    Parted(before);
    AssocLine(base, t, line);
    LastLine(base, t + line);
    EndsWithConcat(t, line, line);
    assert |t + line| == |t| + |line|;
    assert t == "" ==> t + line == line;
  }

  lemma AssocLine(base: string, t: string, line: string)
    ensures base + t + line + [NL] == base + (t + line + [NL])
  {
  }

  lemma LastLine(base: string, line: string)
    requires Whole(base) && NL !in line
    ensures Lines(base + (line + [NL])) != []
    ensures Last(Lines(base + (line + [NL]))) == line
  {
    LinesConcat(base, line + [NL]);
    LinesOfOne(line);
  }
}
