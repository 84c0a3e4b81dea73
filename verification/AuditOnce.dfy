/**
 * Exactly once, for entries of one row whose names appear in any order: in every interleaving of
 * lock holders, deaths, direct rows, retention passes and publications, an entry's row stands in
 * the file once if and only if no drain ever started while that row ended the file and another
 * entry came first (src/tybot/audit.py).
 */
module AuditOnce {
  import opened Basics
  import opened StringOrder
  import opened Text
  import opened AuditDrain
  import opened AuditDisorder
  import opened AuditProtocol
  import opened AuditLines

  // ---- Counting an entry's rows ----------------------------------------------------------------

  /** How many whole lines carry the identity. */
  function Count(main: string, stem: Stem): nat { Marked(Lines(WholePart(main)), stem) }

  /** The entry's row ends the file. */
  predicate Ends(main: string, e: Entry)
    requires OneRow(e)
  {
    EndsWith(main, LineOf(e) + [NL])
  }

  function TheRecord(e: Entry): Record
    requires OneRow(e)
  {
    Spilled(e.stem, 0, e.content.rows[0])
  }

  lemma RecordsOfOne(e: Entry)
    requires OneRow(e)
    ensures RecordsOf(e) == {TheRecord(e)} && RecordLine(TheRecord(e)) == LineOf(e)
    ensures SpillData(e) == Some(LineOf(e) + [NL]) && e.content.Rows?
  {
    DataOfOneRow(e);
    forall x | x in RecordsOf(e) ensures x == TheRecord(e) {}
    assert TheRecord(e) in RecordsOf(e);
  }

  lemma MarkIsTag(line: string, stem: Stem)
    ensures EndsWith(line + [NL], Mark(stem)) <==> EndsWith(line, Tag(stem, 0))
  {
    var s, m, t := line + [NL], Mark(stem), Tag(stem, 0);
    if |t| <= |line| {
      assert s[|s| - |m|..] == line[|line| - |t|..] + [NL];
      assert m[..|t|] == t && (line[|line| - |t|..] + [NL])[..|t|] == line[|line| - |t|..];
    }
  }

  lemma CountWith(base: string, line: string, stem: Stem)
    requires Whole(base) && NL !in line
    ensures var main := base + (line + [NL]);
            && Whole(main) && WholePart(main) == main
            && Count(main, stem) == Marked(Lines(base), stem) + if EndsWith(line + [NL], Mark(stem)) then 1 else 0
  {
    hide Marked;
    LinesConcat(base, line + [NL]);
    LinesOfOne(line);
    MarkedConcat(Lines(base), [line], stem);
    MarkedOne(line, stem);
    assert (base + (line + [NL]))[|base| + |line|] == NL;
    Parted(base + (line + [NL]));
  }

  /** What merging an entry does to the counts. */
  lemma MergeCount(main: string, x: Entry, stem: Stem)
    requires OneRow(x) && Pending(main, x).Some?
    ensures var main' := main + Pending(main, x).value;
            && Whole(main') && Ends(main', x)
            && main' == (if Ends(main, x) then main else WholePart(main) + (LineOf(x) + [NL]))
            && Count(main', stem) == Count(main, stem) + if !Ends(main, x) && stem == x.stem then 1 else 0
  {
    hide LineOf, Pending, Marked, Lines, WholePart;
    RecordsOfOne(x);
    MergedMain(main, x);
    Parted(main);
    EndsInBrace(x);
    if Ends(main, x) {
      assert main[|main| - 1] == (LineOf(x) + [NL])[|LineOf(x)|];
    } else {
      CountWith(WholePart(main), LineOf(x), stem);
      OwnMark(x, stem);
    }
  }

  /** An entry that cannot be merged stands before a torn row. */
  lemma BlockedIsTorn(main: string, x: Entry)
    requires OneRow(x) && Pending(main, x).None?
    ensures !Whole(main)
  {
    hide LineOf, Pending;
    Parted(main);
    PendingIs(WholePart(main), AfterLastBreak(main), x);
    assert "" <= LineOf(x);
  }

  lemma TornEndsNothing(main: string, e: Entry)
    requires OneRow(e) && Ends(main, e)
    ensures Whole(main)
  {
    assert main[|main| - 1] == (LineOf(e) + [NL])[|LineOf(e)|];
  }

  /** A row that ends the file is counted. */
  lemma EndsCounted(main: string, e: Entry)
    requires OneRow(e) && Ends(main, e)
    ensures Whole(main) && Count(main, e.stem) >= 1
  {
    hide LineOf, Lines, WholePart, AfterLastBreak, Marked;
    EndsInBrace(e);
    EndsSplit(main, LineOf(e) + [NL]);
    TornEndsNothing(main, e);
    Parted(main);
    var y := main[..|main| - |LineOf(e) + [NL]|];
    var line := AfterLastBreak(y) + LineOf(e);
    ClosedOne(LineOf(e));
    LinesBefore(y, [LineOf(e)]);
    assert Lines(main) == Lines(WholePart(y)) + [line];
    MarkedConcat(Lines(WholePart(y)), [line], e.stem);
    MarkedOne(line, e.stem);
    OwnMark(e, e.stem);
    EndsWithConcat(AfterLastBreak(y), LineOf(e) + [NL], Mark(e.stem));
    assert AfterLastBreak(y) + (LineOf(e) + [NL]) == line + [NL];
  }

  lemma TornBytes(base: string, line: string, n: nat)
    requires Whole(base) && NL !in line && n <= |line|
    ensures var main := base + (line + [NL])[..n];
            WholePart(main) == base && AfterLastBreak(main) <= line && (Whole(main) ==> n == 0)
  {
    var t := line[..n];
    assert (line + [NL])[..n] == t;
    WholePartIs(base, t);
    Parted(base + t);
  }

  /** A death before the last byte of the append leaves the whole lines. */
  lemma DeadCount(main: string, x: Entry, k: nat, stem: Stem)
    requires OneRow(x) && Pending(main, x).Some? && k < |Pending(main, x).value|
    ensures var main' := main + Pending(main, x).value[..k];
            && Count(main', stem) == Count(main, stem)
            && (main' == main || !Whole(main'))
            && WholePart(main') == WholePart(main) && AfterLastBreak(main') <= LineOf(x)
  {
    hide LineOf, Pending, Marked, Lines, WholePart, AfterLastBreak, Whole, Ends;
    MergeCount(main, x, stem);
    Parted(main);
    EndsInBrace(x);
    var base, p := WholePart(main), Pending(main, x).value;
    assert main + p == main || main + p == base + (LineOf(x) + [NL]);
    CutShort(main, p, k, base, LineOf(x));
    TornBytes(base, LineOf(x), |main| - |base| + k);
    assert k == 0 ==> main + p[..k] == main;
  }

  lemma CutShort(main: string, p: string, k: nat, base: string, line: string)
    requires k < |p| && base <= main && (main + p == main || main + p == base + (line + [NL]))
    ensures |main| - |base| + k <= |line| && main + p[..k] == base + (line + [NL])[..|main| - |base| + k]
  {
    assert |main + p| == |main| + |p| && |base + (line + [NL])| == |base| + |line| + 1;
    Cut(main, p, k, base, line + [NL]);
  }

  /** A row written directly carries nobody's identity, not even behind a torn row. */
  lemma RowCount(main: string, row: Fields, stem: Stem, names: set<Stem>)
    requires Plain(row, names) && stem in names
    ensures var main' := main + (LiveLine(row) + [NL]);
            && Whole(main') && WholePart(main') == main' && Count(main', stem) == Count(main, stem)
            && !EndsWith(main', Mark(stem))
  {
    hide Lines, Marked, WholePart, AfterLastBreak, LiveLine, Mark;
    var line := AfterLastBreak(main) + LiveLine(row);
    Parted(main);
    RowLines(main, LiveLine(row));
    CountWith(WholePart(main), line, stem);
    assert main + (LiveLine(row) + [NL]) == WholePart(main) + (line + [NL]);
    MarkIsTag(line, stem);
    if EndsWith(line, Tag(stem, 0)) {
      TagInRow(AfterLastBreak(main), row, stem, 0);
    }
    if EndsWith(main + (LiveLine(row) + [NL]), Mark(stem)) {
      MarkWithinRow(WholePart(main), line, stem);
    }
  }

  lemma NotMarkedNotEnds(main: string, e: Entry)
    requires OneRow(e) && !EndsWith(main, Mark(e.stem))
    ensures !Ends(main, e)
  {
    DataOfOneRow(e);
    EndsWithTrans(main, LineOf(e) + [NL], Mark(e.stem));
  }

  lemma {:induction false} KeptMarks(ls: seq<string>, dropped: set<nat>, at: nat, stem: Stem)
    ensures Marked(Kept(ls, dropped, at), stem) <= Marked(ls, stem)
    ensures (forall i :: 0 <= i < |ls| && at + i in dropped ==> !EndsWith(ls[i] + [NL], Mark(stem))) ==>
              Marked(Kept(ls, dropped, at), stem) == Marked(ls, stem)
  {
    hide EndsWith, Mark;
    if ls != [] {
      KeptMarks(ls[1..], dropped, at + 1, stem);
      var rest := Kept(ls[1..], dropped, at + 1);
      if at in dropped {
        assert [] + rest == rest;
      } else {
        MarkedConcat([ls[0]], rest, stem);
        MarkedOne(ls[0], stem);
      }
      if forall i :: 0 <= i < |ls| && at + i in dropped ==> !EndsWith(ls[i] + [NL], Mark(stem)) {
        forall i | 0 <= i < |ls[1..]| && at + 1 + i in dropped ensures !EndsWith(ls[1..][i] + [NL], Mark(stem)) {
          assert ls[1..][i] == ls[i + 1] && at + (i + 1) in dropped;
        }
      }
    }
  }

  // ---- Order of the listing --------------------------------------------------------------------

  lemma BeforeEither(a: string, b: string)
    ensures a != b ==> Before(a, b) || Before(b, a)
  {
    LeTotal(a, b);
  }

  lemma BeforeBoth(a: string, b: string, c: string)
    requires Before(a, b) && Before(b, c)
    ensures Before(a, c)
  {
    LeTrans(a, b, c);
    if a == c {
      BeforeIsStrict(a, b);
    }
  }

  lemma ListingHead(parts: seq<Entry>)
    requires parts != [] && Listing(parts)
    ensures Listing(parts[1..]) && OneRow(parts[0]) && forall e :: e in parts[1..] ==> Before(parts[0].stem, e.stem)
  {
    hide Before;
    forall e | e in parts[1..] ensures Before(parts[0].stem, e.stem) {
      var i :| 0 <= i < |parts| - 1 && parts[1..][i] == e;
      assert parts[i + 1] == e;
    }
  }

  lemma ListingCons(e: Entry, parts: seq<Entry>)
    requires OneRow(e) && Listing(parts) && forall x :: x in parts ==> Before(e.stem, x.stem)
    ensures Listing([e] + parts)
  {
    hide Before;
  }

  lemma {:induction false} ListedListing(parts: seq<Entry>, e: Entry)
    requires Listing(parts) && OneRow(e) && forall x :: x in parts ==> x.stem != e.stem
    ensures Listing(Listed(parts, e))
  {
    if parts == [] {
      ListingCons(e, parts);
    } else {
      ListingHead(parts);
      BeforeEither(e.stem, parts[0].stem);
      hide Listing;
      if Before(e.stem, parts[0].stem) {
        forall x | x in parts ensures Before(e.stem, x.stem) {
          if x != parts[0] {
            assert x in parts[1..];
            BeforeBoth(e.stem, parts[0].stem, x.stem);
          }
        }
        ListingCons(e, parts);
      } else {
        ListedListing(parts[1..], e);
        forall x | x in Listed(parts[1..], e) ensures Before(parts[0].stem, x.stem) {
          InListed(parts[1..], e, x);
        }
        ListingCons(parts[0], Listed(parts[1..], e));
      }
    }
  }

  lemma {:induction false} WithoutListing(parts: seq<Entry>, e: Entry)
    requires Listing(parts)
    ensures Listing(Without(parts, e))
  {
    if parts != [] {
      ListingHead(parts);
      hide Listing, Before;
      WithoutListing(parts[1..], e);
      if parts[0] == e {
        assert [] + Without(parts[1..], e) == Without(parts[1..], e);
      } else {
        forall x | x in Without(parts[1..], e) ensures Before(parts[0].stem, x.stem) {
          InWithout(parts[1..], e, x);
        }
        ListingCons(parts[0], Without(parts[1..], e));
      }
    }
  }

  /** The listing is in order, and so is what the holder has still to do. */
  ghost predicate Sorted(s: State) {
    && Listing(s.parts)
    && (s.lock.Draining? ==> Listing(s.lock.todo))
    && (s.lock.Appended? ==> Listing([s.lock.entry] + s.lock.todo))
  }

  lemma StepSorted(s: State, step: Step, later: seq<Stem>, names: set<Stem>)
    requires Sorted(s) && NamesRight(s, later, names)
    requires step.PublishEntry? ==> OneRow(step.e) && step.e.stem in later
    ensures Sorted(Apply(s, step))
  {
    match step {
      case MergeNext =>
        if s.lock.Draining? && s.lock.todo != [] {
          assert s.lock.todo == [s.lock.todo[0]] + s.lock.todo[1..];
        }
      case Unlink =>
        if s.lock.Appended? {
          WithoutListing(s.parts, s.lock.entry);
          ListingHead([s.lock.entry] + s.lock.todo);
          assert ([s.lock.entry] + s.lock.todo)[1..] == s.lock.todo;
        }
      case PublishEntry(e) =>
        if e.stem in s.temporary {
          ListedListing(s.parts, e);
        }
      case _ =>
    }
  }

  // ---- What becomes of one entry ---------------------------------------------------------------

  /** A drain starts while the entry's row ends the file and another entry comes first. */
  ghost predicate Overtaken(s: State, e: Entry)
    requires OneRow(e)
  {
    e in s.parts && Ends(s.main, e) && s.parts[0] != e
  }

  /** A listed entry's row is not counted yet - or once, at the end of the file, with the entry next in line. */
  ghost predicate ListedGood(s: State, e: Entry)
    requires OneRow(e)
  {
    var c := Count(s.main, e.stem);
    match s.lock
    case Free => c == 0 || (c == 1 && Ends(s.main, e))
    case Draining(todo) => c == 0 || (c == 1 && Ends(s.main, e) && todo != [] && todo[0] == e)
    case Appended(x, todo) => if x == e then c == 1 && Ends(s.main, e) else c == 0
    case Drained(_) => c == 0
  }

  ghost predicate Good(s: State, e: Entry)
    requires OneRow(e)
  {
    if e in s.parts then ListedGood(s, e) else TheRecord(e) in s.expired || Count(s.main, e.stem) == 1
  }

  /** A row in the file that the drain will not recognise when it comes to the entry. */
  ghost predicate Stuck(s: State, e: Entry)
    requires OneRow(e)
  {
    match s.lock
    case Free => s.parts != [] && (!Ends(s.main, e) || s.parts[0] != e)
    case Draining(todo) => e in todo && (todo[0] != e || !Ends(s.main, e))
    case Appended(x, todo) => x != e && e in todo && OneRow(x) && Ends(s.main, x)
    case Drained(complete) => !complete && !Ends(s.main, e)
  }

  ghost predicate Bad(s: State, e: Entry)
    requires OneRow(e)
  {
    TheRecord(e) in s.expired || Count(s.main, e.stem) >= 2 || (e in s.parts && Count(s.main, e.stem) >= 1 && Stuck(s, e))
  }

  ghost predicate Tracks(s: State, e: Entry, later: seq<Stem>, names: set<Stem>) {
    && OneRow(e) && e.stem in names && TheRecord(e) in s.finished
    && NamesRight(s, later, names) && LockRight(s) && Sorted(s)
  }

  lemma OneOfName(s: State, e: Entry, x: Entry, later: seq<Stem>, names: set<Stem>)
    requires Tracks(s, e, later, names) && x in s.parts
    ensures OneRow(x) && (x.stem == e.stem ==> x == e)
  {
    RecordsOfOne(x);
    assert TheRecord(x) in RecordsOf(x);
    if x.stem == e.stem {
      assert TheRecord(x) == TheRecord(e);
      assert x.content.rows == [x.content.rows[0]] == e.content.rows;
    }
  }

  lemma SameCounts(s: State, s': State, e: Entry)
    requires OneRow(e) && s'.main == s.main && s'.expired == s.expired
    ensures Count(s'.main, e.stem) == Count(s.main, e.stem) && Ends(s'.main, e) == Ends(s.main, e)
  {
  }

  lemma Ended(main: string, e: Entry)
    requires OneRow(e)
    ensures Ends(main, e) ==> Whole(main) && Count(main, e.stem) >= 1
  {
    if Ends(main, e) {
      EndsCounted(main, e);
    }
  }

  lemma NotBothEnd(main: string, a: Entry, b: Entry)
    requires OneRow(a) && OneRow(b) && a.stem != b.stem && Ends(main, a)
    ensures !Ends(main, b)
  {
    if Ends(main, b) {
      EndsWithOne(main, a, b);
    }
  }

  // ---- Merging one entry -----------------------------------------------------------------------

  /** The merge as the entry sees it. */
  lemma MergeNow(s: State, s': State, e: Entry, x: Entry, rest: seq<Entry>)
    requires OneRow(e) && OneRow(x) && (x.stem == e.stem ==> x == e)
    requires s.lock == Draining([x] + rest) && x in s.parts && s'.lock == Appended(x, rest)
    requires s'.parts == s.parts && s'.expired == s.expired && Ends(s'.main, x)
    requires Count(s'.main, e.stem) == Count(s.main, e.stem) + if !Ends(s.main, x) && e.stem == x.stem then 1 else 0
    requires Ends(s.main, e) ==> Count(s.main, e.stem) >= 1
    ensures Good(s, e) ==> Good(s', e)
    ensures Bad(s, e) ==> Bad(s', e)
  {
    hide Count, Ends, TheRecord;
    assert ([x] + rest)[0] == x && forall y :: y in [x] + rest ==> y == x || y in rest;
  }

  lemma BlockedNow(s: State, s': State, e: Entry)
    requires OneRow(e) && s.lock.Draining? && s'.lock == Drained(false)
    requires s'.main == s.main && s'.parts == s.parts && s'.expired == s.expired && !Ends(s.main, e)
    ensures Good(s, e) ==> Good(s', e)
    ensures Bad(s, e) ==> Bad(s', e)
  {
    hide Count, Ends, TheRecord;
  }

  lemma MergeStatus(s: State, e: Entry, later: seq<Stem>, names: set<Stem>)
    requires Tracks(s, e, later, names) && s.lock.Draining? && s.lock.todo != []
    ensures Good(s, e) ==> Good(Apply(s, MergeNext), e)
    ensures Bad(s, e) ==> Bad(Apply(s, MergeNext), e)
  {
    var x, rest := s.lock.todo[0], s.lock.todo[1..];
    assert x in s.lock.todo && s.lock.todo == [x] + rest;
    OneOfName(s, e, x, later, names);
    Ended(s.main, e);
    assert OneRow(e);
    hide Tracks, Count, Ends, Pending, Whole, Good, Bad;
    if Pending(s.main, x).None? {
      BlockedIsTorn(s.main, x);
      BlockedNow(s, Apply(s, MergeNext), e);
    } else {
      MergeCount(s.main, x, e.stem);
      MergeNow(s, Apply(s, MergeNext), e, x, rest);
    }
  }

  lemma UnlinkNow(s: State, s': State, e: Entry, x: Entry, todo: seq<Entry>)
    requires OneRow(e) && s.lock == Appended(x, todo) && s'.lock == Draining(todo)
    requires s'.main == s.main && s'.expired == s.expired && (e in s'.parts <==> e in s.parts && e != x)
    requires OneRow(x) && x != e && Ends(s.main, x) ==> !Ends(s.main, e)
    ensures Good(s, e) ==> Good(s', e)
    ensures Bad(s, e) ==> Bad(s', e)
  {
    hide Count, Ends, TheRecord;
  }

  lemma UnlinkStatus(s: State, e: Entry, later: seq<Stem>, names: set<Stem>)
    requires Tracks(s, e, later, names) && s.lock.Appended?
    ensures Good(s, e) ==> Good(Apply(s, Unlink), e)
    ensures Bad(s, e) ==> Bad(Apply(s, Unlink), e)
  {
    var x := s.lock.entry;
    OneOfName(s, e, x, later, names);
    InWithout(s.parts, x, e);
    if x != e && Ends(s.main, x) {
      NotBothEnd(s.main, x, e);
    }
    assert OneRow(e);
    hide Tracks, Count, Ends, Without, Good, Bad;
    UnlinkNow(s, Apply(s, Unlink), e, x, s.lock.todo);
  }

  // ---- A death ---------------------------------------------------------------------------------

  /** The main file after a death is that of the merge, or has the same whole lines and is torn or unchanged. */
  lemma DeadMain(s: State, x: Entry, written: nat, stem: Stem)
    requires OneRow(x) && Pending(s.main, x).Some?
    ensures var p := Pending(s.main, x).value; var main' := s.main + p[..Min(written, |p|)];
            || (Ends(main', x) && Count(main', stem) == Count(s.main, stem) + if !Ends(s.main, x) && stem == x.stem then 1 else 0)
            || (Count(main', stem) == Count(s.main, stem) && (main' == s.main || !Whole(main')) && !Ends(s.main, x))
  {
    hide Count, Ends, Pending, Whole;
    var p := Pending(s.main, x).value;
    MergeCount(s.main, x, stem);
    if written < |p| {
      DeadCount(s.main, x, written, stem);
      assert |s.main + p| > |s.main|;
    } else {
      assert p[..|p|] == p;
    }
  }

  /** A death while `x` is written, as the entry sees it. */
  lemma DeathNow(s: State, s': State, e: Entry, x: Entry, rest: seq<Entry>)
    requires OneRow(e) && OneRow(x) && (x.stem == e.stem ==> x == e)
    requires s.lock == Draining([x] + rest) && x in s.parts
    requires s'.lock == Free && s'.parts == s.parts && s'.expired == s.expired
    requires || (Ends(s'.main, x) && Count(s'.main, e.stem) == Count(s.main, e.stem) + if !Ends(s.main, x) && e.stem == x.stem then 1 else 0)
             || (Count(s'.main, e.stem) == Count(s.main, e.stem) && (s'.main == s.main || !Ends(s'.main, e)) && !Ends(s.main, x))
    requires Ends(s.main, e) ==> Count(s.main, e.stem) >= 1
    requires e in [x] + rest && x != e ==> s.parts != [] && s.parts[0] != e
    ensures Good(s, e) ==> Good(s', e)
    ensures Bad(s, e) ==> Bad(s', e)
  {
    hide Count, Ends, TheRecord;
    assert ([x] + rest)[0] == x;
  }

  /** A death that writes nothing. */
  lemma QuietDeathNow(s: State, s': State, e: Entry)
    requires OneRow(e) && s'.lock == Free && s'.main == s.main && s'.parts == s.parts && s'.expired == s.expired
    requires s.lock.Draining? ==> !Ends(s.main, e) || e !in s.lock.todo
    requires s.lock.Appended? && s.lock.entry != e && OneRow(s.lock.entry) && Ends(s.main, s.lock.entry) ==> !Ends(s.main, e)
    requires e in s.parts ==> s.parts != []
    ensures Good(s, e) ==> Good(s', e)
    ensures Bad(s, e) ==> Bad(s', e)
  {
    hide Count, Ends, TheRecord;
  }

  /** What the holder has still to do stands in the listing in the same order. */
  lemma LaterIsNotFirst(s: State, x: Entry, e: Entry)
    requires Listing(s.parts) && x in s.parts && Before(x.stem, e.stem)
    ensures s.parts[0] != e
  {
    BeforeIsStrict(x.stem, e.stem);
    ListingHead(s.parts);
    assert x == s.parts[0] || x in s.parts[1..];
  }

  lemma TodoIsNotFirst(s: State, e: Entry)
    requires Sorted(s) && LockRight(s) && s.lock.Draining? && e in s.lock.todo && s.lock.todo[0] != e
    ensures s.parts != [] && s.parts[0] != e
  {
    var x := s.lock.todo[0];
    assert x in s.lock.todo && e in s.lock.todo[1..] by {
      assert s.lock.todo == [x] + s.lock.todo[1..];
    }
    ListingHead(s.lock.todo);
    LaterIsNotFirst(s, x, e);
  }

  /** A death of the holder that was about to merge `x`. */
  lemma DieWriting(s: State, e: Entry, written: nat, x: Entry, rest: seq<Entry>)
    requires OneRow(e) && OneRow(x) && (x.stem == e.stem ==> x == e)
    requires s.lock == Draining([x] + rest) && x in s.parts
    requires Ends(s.main, e) ==> Whole(s.main) && Count(s.main, e.stem) >= 1
    requires Ends(Apply(s, Die(written)).main, e) ==> Whole(Apply(s, Die(written)).main)
    requires e in [x] + rest && x != e ==> s.parts != [] && s.parts[0] != e
    ensures Good(s, e) ==> Good(Apply(s, Die(written)), e)
    ensures Bad(s, e) ==> Bad(Apply(s, Die(written)), e)
  {
    hide Count, Ends, Pending, Whole, Good, Bad;
    var s' := Apply(s, Die(written));
    assert ([x] + rest)[0] == x;
    if Pending(s.main, x).None? {
      BlockedIsTorn(s.main, x);
      QuietDeathNow(s, s', e);
    } else {
      DeadMain(s, x, written, e.stem);
      DeathNow(s, s', e, x, rest);
    }
  }

  lemma DieStatus(s: State, e: Entry, written: nat, later: seq<Stem>, names: set<Stem>)
    requires Tracks(s, e, later, names)
    ensures Good(s, e) ==> Good(Apply(s, Die(written)), e)
    ensures Bad(s, e) ==> Bad(Apply(s, Die(written)), e)
  {
    var s' := Apply(s, Die(written));
    Ended(s.main, e);
    Ended(s'.main, e);
    assert OneRow(e);
    if s.lock.Draining? && s.lock.todo != [] {
      var x, rest := s.lock.todo[0], s.lock.todo[1..];
      assert x in s.lock.todo && s.lock.todo == [x] + rest;
      OneOfName(s, e, x, later, names);
      if e in s.lock.todo && x != e {
        TodoIsNotFirst(s, e);
      }
      DieWriting(s, e, written, x, rest);
    } else {
      if s.lock.Appended? && OneRow(s.lock.entry) && s.lock.entry != e && Ends(s.main, s.lock.entry) {
        OneOfName(s, e, s.lock.entry, later, names);
        NotBothEnd(s.main, s.lock.entry, e);
      }
      hide Tracks, Count, Ends, Good, Bad;
      QuietDeathNow(s, s', e);
    }
  }

  // ---- Rows, passes, and steps that touch neither -----------------------------------------------

  lemma RowNow(s: State, s': State, e: Entry)
    requires OneRow(e) && s.lock.Drained? && s'.lock == Free && s'.parts == s.parts && s'.expired == s.expired
    requires Count(s'.main, e.stem) == Count(s.main, e.stem) && !Ends(s'.main, e)
    ensures Good(s, e) ==> Good(s', e)
    ensures Bad(s, e) ==> Bad(s', e)
  {
    hide Count, Ends, TheRecord;
  }

  lemma RowStatus(s: State, e: Entry, row: Fields, later: seq<Stem>, names: set<Stem>)
    requires Tracks(s, e, later, names) && Plain(row, names) && s.lock.Drained?
    ensures Good(s, e) ==> Good(Apply(s, AppendRow(row)), e)
    ensures Bad(s, e) ==> Bad(Apply(s, AppendRow(row)), e)
  {
    RowCount(s.main, row, e.stem, names);
    NotMarkedNotEnds(s.main + (LiveLine(row) + [NL]), e);
    assert OneRow(e);
    hide Tracks, Count, Ends, LiveLine, EndsWith, Whole, Good, Bad, Plain;
    RowNow(s, Apply(s, AppendRow(row)), e);
  }

  /** A pass that drops no line of the record drops none with its identity. */
  lemma PassCount(s: State, prior: set<string>, glued: set<Record>, e: Entry, later: seq<Stem>, names: set<Stem>,
                  dropped: set<nat>, expiring: set<Record>)
    requires OneRow(e) && Tracks(s, e, later, names) && Steady(s, prior, glued, later, names)
    requires s.lock == Drained(true) && DropsExpiredOnly(s, dropped, expiring)
    ensures var main' := Closed(Kept(Lines(s.main), dropped, 0));
            && Whole(main') && Count(main', e.stem) <= Count(s.main, e.stem)
            && (TheRecord(e) !in expiring ==> Count(main', e.stem) == Count(s.main, e.stem))
  {
    PassFinds(s, prior, glued, later, names);
    hide Lines, Kept, Closed, Marked, WholePart, PlainLine, LockRight, Sorted, Lined;
    KeptMain(s.main, dropped);
    Parted(s.main);
    KeptMarks(Lines(s.main), dropped, 0, e.stem);
    if TheRecord(e) !in expiring {
      forall i | 0 <= i < |Lines(s.main)| && i in dropped ensures !EndsWith(Lines(s.main)[i] + [NL], Mark(e.stem)) {
        if EndsWith(Lines(s.main)[i] + [NL], Mark(e.stem)) {
          MarkedLineIs(s, prior, glued, e, later, names, Lines(s.main)[i]);
        }
      }
    }
  }

  lemma MarkedLineIs(s: State, prior: set<string>, glued: set<Record>, e: Entry, later: seq<Stem>, names: set<Stem>, line: string)
    requires Tracks(s, e, later, names) && IsCarried(line, prior, s.finished, glued)
    requires forall l :: l in prior ==> PlainLine(l, names)
    requires EndsWith(line + [NL], Mark(e.stem))
    ensures line == RecordLine(TheRecord(e)) && EndsWith(line, RecordLine(TheRecord(e)))
  {
    MarkIsTag(line, e.stem);
    hide LockRight, Sorted, RecordsOf, EndsWith, Tag, Mark, PlainLine, IsCarried;
    CarriedWithTag(line, prior, s.finished, glued, names, TheRecord(e));
    EndsItself(line);
  }

  lemma EndsItself(line: string)
    ensures EndsWith(line, line)
  {
  }

  lemma PassNow(s: State, s': State, e: Entry)
    requires OneRow(e) && s.lock == Drained(true) && s'.lock == Free && s'.parts == s.parts && s.expired <= s'.expired
    requires Count(s'.main, e.stem) <= Count(s.main, e.stem)
    requires TheRecord(e) !in s'.expired ==> Count(s'.main, e.stem) == Count(s.main, e.stem)
    ensures Good(s, e) ==> Good(s', e)
    ensures Bad(s, e) ==> Bad(s', e)
  {
    hide Count, Ends, TheRecord;
  }

  lemma TrackedOneRow(s: State, e: Entry, later: seq<Stem>, names: set<Stem>)
    requires Tracks(s, e, later, names)
    ensures OneRow(e)
  {
  }

  /** A pass finds whole lines, each with an owner. */
  lemma PassFinds(s: State, prior: set<string>, glued: set<Record>, later: seq<Stem>, names: set<Stem>)
    requires Lined(s, prior, glued, later, names) && s.lock == Drained(true)
    ensures Whole(s.main) && AllCarried(s.main, prior, s.finished, glued)
  {
    hide Whole, AllCarried;
  }

  lemma PassStatus(s: State, prior: set<string>, glued: set<Record>, e: Entry, later: seq<Stem>, names: set<Stem>,
                   dropped: set<nat>, expiring: set<Record>)
    requires OneRow(e) && Tracks(s, e, later, names) && Steady(s, prior, glued, later, names)
    requires s.lock == Drained(true) && DropsExpiredOnly(s, dropped, expiring)
    ensures Good(s, e) ==> Good(Apply(s, Rewrite(dropped, expiring)), e)
    ensures Bad(s, e) ==> Bad(Apply(s, Rewrite(dropped, expiring)), e)
  {
    hide Tracks, Steady, Count, Kept, Closed, Lines, DropsExpiredOnly, Good, Bad;
    PassCount(s, prior, glued, e, later, names, dropped, expiring);
    PassNow(s, Apply(s, Rewrite(dropped, expiring)), e);
  }

  lemma AcquireNow(s: State, e: Entry)
    requires OneRow(e) && (Ends(s.main, e) ==> Count(s.main, e.stem) >= 1)
    ensures Good(s, e) && !OvertakenBy(s, Acquire, e) ==> Good(Apply(s, Acquire), e)
    ensures Bad(s, e) || OvertakenBy(s, Acquire, e) ==> Bad(Apply(s, Acquire), e)
  {
    hide Count, Ends, TheRecord;
  }

  /** Steps that change the lock alone. */
  lemma LockStatus(s: State, e: Entry, step: Step, later: seq<Stem>, names: set<Stem>)
    requires Tracks(s, e, later, names)
    requires step.Acquire? || step.ListingDone? || step.Release? || step.OpenTemporary? || step.AbandonTemporary?
    ensures Good(s, e) && !OvertakenBy(s, step, e) ==> Good(Apply(s, step), e)
    ensures Bad(s, e) || OvertakenBy(s, step, e) ==> Bad(Apply(s, step), e)
  {
    TrackedOneRow(s, e, later, names);
    hide Tracks, Count, Ends, TheRecord;
    if step.Acquire? {
      Ended(s.main, e);
      hide Good, Bad, OvertakenBy, Apply;
      AcquireNow(s, e);
    }
  }

  /** The step is a drain's start that overtakes the entry. */
  ghost predicate OvertakenBy(s: State, step: Step, e: Entry)
    requires OneRow(e)
  {
    step.Acquire? && s.lock.Free? && Overtaken(s, e)
  }

  lemma FirstAfterListing(parts: seq<Entry>, f: Entry)
    ensures Listed(parts, f) != [] && (Listed(parts, f)[0] == f || (parts != [] && Listed(parts, f)[0] == parts[0]))
  {
  }

  lemma PublishStatus(s: State, e: Entry, f: Entry, later: seq<Stem>, names: set<Stem>)
    requires Tracks(s, e, later, names) && f.stem != e.stem
    ensures Good(s, e) ==> Good(Apply(s, PublishEntry(f)), e)
    ensures Bad(s, e) ==> Bad(Apply(s, PublishEntry(f)), e)
  {
    InListed(s.parts, f, e);
    FirstAfterListing(s.parts, f);
    hide Count, Ends, NamesRight, Sorted, LockRight, Listed;
  }

  // ---- Runs ------------------------------------------------------------------------------------

  ghost predicate OvertakenIn(s: State, steps: seq<Step>, e: Entry)
    requires OneRow(e)
    decreases |steps|
  {
    steps != [] && (OvertakenBy(s, steps[0], e) || OvertakenIn(Apply(s, steps[0]), steps[1..], e))
  }

  /** What is known of an entry before it is published, and after. */
  ghost predicate Status(s: State, e: Entry, later: seq<Stem>, over: bool)
    requires OneRow(e)
  {
    if TheRecord(e) in s.finished then (if over then Bad(s, e) else Good(s, e))
    else !over && (e.stem in later ==> Count(s.main, e.stem) == 0)
  }

  /** The invariants of a run, other than the entry's own. */
  ghost predicate Steady(s: State, prior: set<string>, glued: set<Record>, later: seq<Stem>, names: set<Stem>) {
    && Lined(s, prior, glued, later, names) && Sorted(s)
    && forall l :: l in prior ==> PlainLine(l, names)
  }

  lemma StepStatus(s: State, prior: set<string>, glued: set<Record>, e: Entry, step: Step,
                   later: seq<Stem>, names: set<Stem>, over: bool)
    requires Steady(s, prior, glued, later, names) && OneRow(e) && e.stem in names && TheRecord(e) in s.finished
    requires PlainStep(step, names) && (step.PublishEntry? ==> step.e.stem in later)
    requires if over then Bad(s, e) else Good(s, e)
    ensures if over || OvertakenBy(s, step, e) then Bad(Apply(s, step), e) else Good(Apply(s, step), e)
  {
    assert Tracks(s, e, later, names);
    match step {
      case MergeNext =>
        if s.lock.Draining? && s.lock.todo != [] {
          MergeStatus(s, e, later, names);
        }
      case Unlink =>
        if s.lock.Appended? {
          UnlinkStatus(s, e, later, names);
        }
      case AppendRow(row) =>
        if s.lock.Drained? {
          RowStatus(s, e, row, later, names);
        }
      case Rewrite(dropped, expiring) =>
        if s.lock == Drained(true) && DropsExpiredOnly(s, dropped, expiring) {
          PassStatus(s, prior, glued, e, later, names, dropped, expiring);
        }
      case Die(written) =>
        DieStatus(s, e, written, later, names);
      case PublishEntry(f) =>
        assert f.stem != e.stem by { FreshName(s, e, f.stem, later, names); }
        PublishStatus(s, e, f, later, names);
      case _ =>
        LockStatus(s, e, step, later, names);
    }
  }

  lemma FreshName(s: State, e: Entry, name: Stem, later: seq<Stem>, names: set<Stem>)
    requires Tracks(s, e, later, names) && name in later
    ensures name != e.stem
  {
  }

  /** A pass brings in no line. */
  lemma PassMarks(main: string, dropped: set<nat>, stem: Stem)
    requires Whole(main)
    ensures Count(Closed(Kept(Lines(main), dropped, 0)), stem) <= Count(main, stem)
  {
    hide Kept, Closed, Lines, Marked, WholePart;
    KeptMain(main, dropped);
    Parted(main);
    KeptMarks(Lines(main), dropped, 0, stem);
  }

  /** Before an entry appears no line carries its identity. */
  lemma StepBefore(s: State, prior: set<string>, glued: set<Record>, stem: Stem, step: Step, later: seq<Stem>, names: set<Stem>)
    requires Steady(s, prior, glued, later, names) && stem in later && stem in names && Count(s.main, stem) == 0
    requires PlainStep(step, names)
    ensures Count(Apply(s, step).main, stem) == 0
  {
    hide Count, Lines, Kept, Closed, LiveLine, Pending, AllCarried, AllPresent, PlainLine, Plain;
    match step {
      case MergeNext =>
        if s.lock.Draining? && s.lock.todo != [] && Pending(s.main, s.lock.todo[0]).Some? {
          assert s.lock.todo[0] in s.lock.todo;
          MergeCount(s.main, s.lock.todo[0], stem);
        }
      case AppendRow(row) =>
        RowCount(s.main, row, stem, names);
      case Rewrite(dropped, expiring) =>
        if s.lock == Drained(true) {
          PassMarks(s.main, dropped, stem);
        }
      case Die(written) =>
        if s.lock.Draining? && s.lock.todo != [] && Pending(s.main, s.lock.todo[0]).Some? {
          assert s.lock.todo[0] in s.lock.todo;
          DeadMain(s, s.lock.todo[0], written, stem);
        }
      case _ =>
    }
  }

  lemma Published(s: State, e: Entry, later: seq<Stem>, names: set<Stem>)
    requires OneRow(e) && NamesRight(s, [e.stem] + later, names) && LockRight(s) && Count(s.main, e.stem) == 0
    requires e.stem in s.temporary
    ensures TheRecord(e) in Apply(s, PublishEntry(e)).finished && Good(Apply(s, PublishEntry(e)), e)
  {
    RecordsOfOne(e);
    InListed(s.parts, e, e);
    assert e.stem in [e.stem] + later;
    hide Count, Ends;
  }

  lemma NextStatus(s: State, prior: set<string>, glued: set<Record>, e: Entry, step: Step,
                   later: seq<Stem>, later': seq<Stem>, names: set<Stem>, over: bool)
    requires Steady(s, prior, glued, later, names) && OneRow(e) && e.stem in names && Status(s, e, later, over)
    requires PlainStep(step, names)
    requires if step.PublishEntry? then OneRow(step.e) && later == [step.e.stem] + later' && step.e.stem !in later' else later == later'
    ensures Status(Apply(s, step), e, later', over || OvertakenBy(s, step, e))
  {
    hide Good, Bad, Count, LockRight, Sorted, AllCarried, AllPresent;
    var s' := Apply(s, step);
    assert step.PublishEntry? ==> step.e.stem in later;
    if TheRecord(e) in s.finished {
      StepStatus(s, prior, glued, e, step, later, names, over);
      FinishedStays(s, step, TheRecord(e));
    } else {
      NotListedYet(s, e, later, names);
      if e.stem in later' {
        assert e.stem in later;
        StepBefore(s, prior, glued, e.stem, step, later, names);
        NotFinishedYet(s, e, step, later', later, names);
      } else if step.PublishEntry? && step.e == e && e.stem in s.temporary {
        Published(s, e, later', names);
      } else {
        NotFinishedYet(s, e, step, later', later, names);
      }
    }
  }

  lemma FinishedStays(s: State, step: Step, r: Record)
    requires r in s.finished
    ensures r in Apply(s, step).finished
  {
  }

  lemma NotListedYet(s: State, e: Entry, later: seq<Stem>, names: set<Stem>)
    requires NamesRight(s, later, names) && OneRow(e) && TheRecord(e) !in s.finished
    ensures e !in s.parts
  {
    RecordsOfOne(e);
  }

  lemma NotFinishedYet(s: State, e: Entry, step: Step, later': seq<Stem>, later: seq<Stem>, names: set<Stem>)
    requires OneRow(e) && TheRecord(e) !in s.finished
    requires step.PublishEntry? ==> OneRow(step.e) && (step.e != e || e.stem !in s.temporary)
    ensures TheRecord(e) !in Apply(s, step).finished
  {
    if step.PublishEntry? {
      RecordsOfOne(step.e);
      RecordsOfOne(e);
      if TheRecord(step.e) == TheRecord(e) {
        assert step.e.content.rows == [step.e.content.rows[0]] == e.content.rows;
      }
    }
  }

  ghost predicate OneRows(steps: seq<Step>) {
    forall step :: step in steps && step.PublishEntry? ==> OneRow(step.e)
  }

  lemma StepSteady(s: State, prior: set<string>, glued: set<Record>, step: Step, later: seq<Stem>, later': seq<Stem>, names: set<Stem>)
    requires Steady(s, prior, glued, later, names) && PlainStep(step, names)
    requires if step.PublishEntry? then OneRow(step.e) && step.e.stem in names && later == [step.e.stem] + later' && step.e.stem !in later'
             else later == later'
    ensures Steady(Apply(s, step), prior, glued + GluedBy(s, step), later', names)
  {
    assert step.PublishEntry? ==> step.e.stem in later;
    StepSorted(s, step, later, names);
    hide Sorted;
    if step.PublishEntry? {
      PublishLined(s, prior, glued, step.e, later', names);
      NotGlued(s, step);
      assert glued + {} == glued;
    } else {
      StepLined(s, prior, glued, step, later, names);
    }
  }

  lemma {:induction false} RunStatus(s: State, prior: set<string>, glued: set<Record>, steps: seq<Step>, e: Entry,
                                     names: set<Stem>, over: bool)
    requires Steady(s, prior, glued, NamesIn(steps), names) && Sound(steps, names) && OneRows(steps)
    requires OneRow(e) && e.stem in names && Status(s, e, NamesIn(steps), over)
    ensures Steady(RunSteps(s, steps), prior, glued + GluedIn(s, steps), [], names)
    ensures Status(RunSteps(s, steps), e, [], over || OvertakenIn(s, steps, e))
    decreases |steps|
  {
    hide Steady, Status, Sound, GluedBy, PlainStep, OvertakenBy, Apply;
    if steps == [] {
      assert glued + {} == glued;
    } else {
      SoundRest(steps, names);
      var step, rest := steps[0], steps[1..];
      assert step in steps && forall x :: x in rest ==> x in steps;
      StepSteady(s, prior, glued, step, NamesIn(steps), NamesIn(rest), names);
      NextStatus(s, prior, glued, e, step, NamesIn(steps), NamesIn(rest), names, over);
      var s' := Apply(s, step);
      RunStatus(s', prior, glued + GluedBy(s, step), rest, e, names, over || OvertakenBy(s, step, e));
      assert glued + GluedBy(s, step) + GluedIn(s', rest) == glued + (GluedBy(s, step) + GluedIn(s', rest));
    }
  }

  /** An interleaving of entries of one row, each name given once, from a file of whole lines. */
  ghost predicate OneRowRun(start: string, steps: seq<Step>) {
    var names := AsNames(NamesIn(steps));
    PlainStart(start, names) && Sound(steps, names) && OneRows(steps)
  }

  lemma StartSteady(start: string, later: seq<Stem>, names: set<Stem>, e: Entry)
    requires PlainStart(start, names) && OneRow(e) && e.stem in names
    ensures Steady(StartWith(start), LinesOf(start), {}, later, names)
    ensures Status(StartWith(start), e, later, false)
  {
    StartLined(start, later, names);
    Parted(start);
    NoMarks(Lines(start), e.stem, names);
  }

  lemma {:induction false} NoMarks(ls: seq<string>, stem: Stem, names: set<Stem>)
    requires stem in names && forall l :: l in ls ==> PlainLine(l, names)
    ensures Marked(ls, stem) == 0
  {
    hide EndsWith, Tag, Mark;
    if ls != [] {
      NoMarks(ls[1..], stem, names);
      MarkIsTag(ls[0], stem);
      assert ls[0] in ls;
    }
  }

  lemma RunFrom(start: string, steps: seq<Step>, e: Entry)
    requires OneRowRun(start, steps) && OneRow(e) && e.stem in AsNames(NamesIn(steps))
    ensures var s0 := StartWith(start);
            && Steady(RunSteps(s0, steps), LinesOf(start), GluedIn(s0, steps), [], AsNames(NamesIn(steps)))
            && Status(RunSteps(s0, steps), e, [], OvertakenIn(s0, steps, e))
  {
    var names := AsNames(NamesIn(steps));
    StartSteady(start, NamesIn(steps), names, e);
    hide Steady, Status, Sound, RunSteps, GluedIn, OvertakenIn, PlainStart;
    RunStatus(StartWith(start), LinesOf(start), {}, steps, e, names, false);
    assert {} + GluedIn(StartWith(start), steps) == GluedIn(StartWith(start), steps);
  }

  /** The one-row entry of a record that was spilled. */
  function EntryOf(r: Record): (e: Entry)
    requires r.Spilled?
    ensures OneRow(e)
  {
    Entry(r.stem, Rows([r.row]))
  }

  lemma EntryIs(s: State, r: Record, later: seq<Stem>, names: set<Stem>)
    requires Listing(s.parts) && r.Spilled? && r.index == 0
    ensures TheRecord(EntryOf(r)) == r && (EntryOf(r) in s.parts <==> IsListed(s.parts, r))
  {
    RecordsOfOne(EntryOf(r));
    if IsListed(s.parts, r) {
      var x :| x in s.parts && r in RecordsOf(x);
      RecordsOfOne(x);
      assert x.content.rows == [x.content.rows[0]];
    }
  }

  lemma FinishedByStep(s: State, step: Step, r: Record)
    requires r in Apply(s, step).finished && r !in s.finished && r.Spilled?
    ensures step.PublishEntry? && r in RecordsOf(step.e)
  {
  }

  /** Only first rows are finished when every entry holds one. */
  lemma {:induction false} FirstRows(s: State, steps: seq<Step>, r: Record)
    requires OneRows(steps) && r in RunSteps(s, steps).finished && r !in s.finished && r.Spilled?
    ensures r.index == 0 && r.stem in AsNames(NamesIn(steps))
    decreases |steps|
  {
    hide RunSteps, Apply, RecordsOf;
    RunOneStep(s, steps);
    var s' := Apply(s, steps[0]);
    assert steps[0] in steps && forall x :: x in steps[1..] ==> x in steps;
    if r in s'.finished {
      FinishedByStep(s, steps[0], r);
      RecordsOfOne(steps[0].e);
      assert NamesIn(steps)[0] == steps[0].e.stem;
    } else {
      FirstRows(s', steps[1..], r);
      LaterNames(steps);
    }
  }

  lemma LaterNames(steps: seq<Step>)
    requires steps != []
    ensures forall n :: n in NamesIn(steps[1..]) ==> n in NamesIn(steps)
  {
  }

  lemma RunOneStep(s: State, steps: seq<Step>)
    ensures steps == [] ==> RunSteps(s, steps) == s
    ensures steps != [] ==> RunSteps(s, steps) == RunSteps(Apply(s, steps[0]), steps[1..])
  {
  }

  /**
   * A record that is no longer listed is a line of its own, and its identity stands on no other
   * line, exactly when no drain ever started while its row ended the file and another entry came
   * first. Whatever else died, was published in between, or was written behind a torn row.
   */
  lemma OnceIff(start: string, steps: seq<Step>, r: Record)
    requires OneRowRun(start, steps) && r.Spilled?
    requires var s := RunSteps(StartWith(start), steps); r in s.finished && r !in s.expired && !IsListed(s.parts, r)
    ensures var s := RunSteps(StartWith(start), steps);
            && RecordLine(r) in Lines(WholePart(s.main)) && Count(s.main, r.stem) >= 1
            && (Count(s.main, r.stem) == 1 <==> !OvertakenIn(StartWith(start), steps, EntryOf(r)))
  {
    hide RunSteps, GluedIn, OvertakenIn, WholePart, Count;
    var s := RunSteps(StartWith(start), steps);
    FirstRows(StartWith(start), steps, r);
    RunFrom(start, steps, EntryOf(r));
    EntryIs(s, r, [], AsNames(NamesIn(steps)));
    GluedAreDirect(StartWith(start), steps);
  }

  lemma {:induction false} GluedAreDirect(s: State, steps: seq<Step>)
    ensures forall r :: r in GluedIn(s, steps) ==> r.Direct?
    decreases |steps|
  {
    if steps != [] {
      GluedAreDirect(Apply(s, steps[0]), steps[1..]);
    }
  }
}
