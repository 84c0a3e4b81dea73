/**
 * At least once, as whole lines: in every interleaving a finished record is listed or is a line
 * of its own in the file, unless it was written directly behind a torn row (src/tybot/audit.py).
 * Entries may be of any shape and appear in any order.
 */
module AuditLines {
  import opened Basics
  import opened Text
  import opened AuditDrain
  import opened AuditProtocol
  import Digits

  // ---- Identities at the end of a line ---------------------------------------------------------

  lemma TagChars(stem: Stem, i: nat)
    ensures var n := Digits.OfNat(i);
            && |Tag(stem, i)| == STEM_LENGTH + |n| + 3
            && Tag(stem, i)[..STEM_LENGTH] == stem && Tag(stem, i)[STEM_LENGTH] == ':'
            && (forall k :: 0 <= k < |n| ==> Tag(stem, i)[STEM_LENGTH + 1 + k] == n[k] != ':')
            && (forall k :: 0 <= k < |Tag(stem, i)| ==> Tag(stem, i)[k] != '{')
  {
    assert Digits.AllDigits(Digits.OfNat(i));
  }

  lemma EndChar(s: string, t: string, k: nat)
    requires EndsWith(s, t) && k < |t|
    ensures t[k] == s[|s| - |t| + k]
  {
    assert t[k] == s[|s| - |t|..][k];
  }

  /** The longer of two identities at the end of one line has a digit where the shorter has its colon. */
  lemma SameTagLength(line: string, a: Stem, i: nat, b: Stem, j: nat)
    requires EndsWith(line, Tag(a, i)) && EndsWith(line, Tag(b, j))
    ensures |Tag(a, i)| >= |Tag(b, j)|
  {
    hide Tag, EndsWith, Digits.OfNat;
    TagChars(a, i);
    TagChars(b, j);
    var m, n := Digits.OfNat(i), Digits.OfNat(j);
    if |m| < |n| {
      var k := |n| - |m| - 1;
      assert Tag(b, j)[STEM_LENGTH + 1 + k] == n[k] != ':';
      EndChar(line, Tag(a, i), STEM_LENGTH);
      EndChar(line, Tag(b, j), STEM_LENGTH + 1 + k);
    }
  }

  lemma TagsAgree(line: string, a: Stem, i: nat, b: Stem, j: nat)
    requires EndsWith(line, Tag(a, i)) && EndsWith(line, Tag(b, j))
    ensures a == b && i == j
  {
    SameTagLength(line, a, i, b, j);
    SameTagLength(line, b, j, a, i);
    EndingsAgree(line, Tag(a, i), Tag(b, j));
    hide Tag, EndsWith, Digits.OfNat;
    TagChars(a, i);
    TagChars(b, j);
    assert Digits.OfNat(i) == Digits.OfNat(j);
    Digits.ReadBack(i);
    Digits.ReadBack(j);
  }

  lemma EntryTag(stem: Stem, i: nat, row: Fields)
    ensures EndsWith(SpilledLine(row, stem, i), Tag(stem, i))
  {
    EndsWithConcat("{" + row + ", \"_audit_spill_id\": \"", Tag(stem, i), Tag(stem, i));
  }

  /** An identity at the end of a glued line stands in the row written last, for it holds no brace. */
  lemma TagInRow(x: string, row: Fields, stem: Stem, i: nat)
    requires EndsWith(x + LiveLine(row), Tag(stem, i))
    ensures EndsWith(LiveLine(row), Tag(stem, i))
  {
    var s, line, tag := x + LiveLine(row), LiveLine(row), Tag(stem, i);
    TagChars(stem, i);
    hide Tag, Digits.OfNat;
    assert s[|x|] == line[0] == '{';
    if |tag| > |line| {
      EndChar(s, tag, |tag| - |line|);
    }
    assert line[|line| - |tag|..] == s[|s| - |tag|..];
  }

  /** The row does not end like the row of one of these entries. */
  ghost predicate Plain(row: Fields, names: set<Stem>) {
    forall stem, i: nat :: stem in names ==> !EndsWith(LiveLine(row), Tag(stem, i))
  }

  ghost predicate PlainLine(line: string, names: set<Stem>) {
    forall stem, i: nat :: stem in names ==> !EndsWith(line, Tag(stem, i))
  }

  // ---- Interleavings with distinct names -------------------------------------------------------

  /** The names published by the steps, in the order in which they appear. */
  function NamesIn(steps: seq<Step>): seq<Stem> {
    if steps == [] then []
    else (if steps[0].PublishEntry? then [steps[0].e.stem] else []) + NamesIn(steps[1..])
  }

  ghost predicate Distinct(names: seq<Stem>) { forall i, j :: 0 <= i < j < |names| ==> names[i] != names[j] }

  function AsNames(names: seq<Stem>): set<Stem> { set n | n in names }

  ghost predicate PlainStep(step: Step, names: set<Stem>) { step.AppendRow? ==> Plain(step.row, names) }

  /** No name is given twice, and no row written directly ends like an entry's. */
  ghost predicate Sound(steps: seq<Step>, names: set<Stem>) {
    && Distinct(NamesIn(steps)) && AsNames(NamesIn(steps)) <= names
    && forall step :: step in steps ==> PlainStep(step, names)
  }

  lemma SoundRest(steps: seq<Step>, names: set<Stem>)
    requires steps != [] && Sound(steps, names)
    ensures Sound(steps[1..], names) && PlainStep(steps[0], names)
    ensures steps[0].PublishEntry? ==>
      steps[0].e.stem in names && steps[0].e.stem !in NamesIn(steps[1..]) && NamesIn(steps) == [steps[0].e.stem] + NamesIn(steps[1..])
    ensures !steps[0].PublishEntry? ==> NamesIn(steps) == NamesIn(steps[1..])
  {
    var all, rest := NamesIn(steps), NamesIn(steps[1..]);
    hide PlainStep;
    assert steps[0] in steps && forall step :: step in steps[1..] ==> step in steps;
    if steps[0].PublishEntry? {
      assert all == [steps[0].e.stem] + rest;
      forall i | 0 <= i < |rest| ensures rest[i] == all[i + 1] != all[0] {}
      assert all[0] in all && forall n :: n in rest ==> n in all;
    } else {
      assert all == [] + rest == rest;
    }
  }

  // ---- The invariant ---------------------------------------------------------------------------

  predicate IsListed(parts: seq<Entry>, r: Record) { exists e :: e in parts && r in RecordsOf(e) }

  /** The line is the record's, or the record was written directly at its end, behind a torn row. */
  predicate Carries(line: string, r: Record, glued: set<Record>) {
    line == RecordLine(r) || (r.Direct? && r in glued && EndsWith(line, RecordLine(r)))
  }

  predicate IsCarried(line: string, prior: set<string>, finished: set<Record>, glued: set<Record>) {
    line in prior || exists r :: r in finished && Carries(line, r, glued)
  }

  predicate NoRepeats(parts: seq<Entry>) { forall i, j :: 0 <= i < j < |parts| ==> parts[i] != parts[j] }

  lemma NoRepeatsTail(parts: seq<Entry>)
    requires parts != [] && NoRepeats(parts)
    ensures NoRepeats(parts[1..]) && parts[0] !in parts[1..]
  {
    forall e | e in parts[1..] ensures e != parts[0] {
      var i :| 0 <= i < |parts| - 1 && parts[1..][i] == e;
      assert parts[i + 1] == e;
    }
  }

  lemma NoRepeatsCons(e: Entry, parts: seq<Entry>)
    requires NoRepeats(parts) && e !in parts
    ensures NoRepeats([e] + parts)
  {
  }

  /** What has a name has it alone, and no name still to come is used. */
  ghost predicate NamesRight(s: State, later: seq<Stem>, names: set<Stem>) {
    && NoRepeats(s.parts)
    && (forall e :: e in s.parts ==> e.stem in names && e.stem !in later && RecordsOf(e) <= s.finished)
    && (forall e, f :: e in s.parts && f in s.parts && e.stem == f.stem ==> e == f)
    && (forall r :: r in s.finished && r.Spilled? ==> r.stem in names && r.stem !in later)
    && (forall r, q :: r in s.finished && q in s.finished && r.Spilled? && q.Spilled? && r.stem == q.stem && r.index == q.index ==> r == q)
    && (forall r :: r in s.finished && r.Direct? ==> Plain(r.row, names))
  }

  /** The holder works on listed entries, and a torn row belongs to one it has not come to. */
  ghost predicate LockRight(s: State) {
    match s.lock
    case Free => !Whole(s.main) ==> exists e :: e in s.parts && e.content.Rows?
    case Draining(todo) =>
      && NoRepeats(todo)
      && (forall e :: e in todo ==> e in s.parts)
      && (!Whole(s.main) ==> exists e :: e in todo && e.content.Rows?)
    case Appended(x, todo) =>
      && NoRepeats([x] + todo)
      && x in s.parts && (forall e :: e in todo ==> e in s.parts)
      && (x.content.Rows? ==> Whole(s.main))
      && (!Whole(s.main) ==> exists e :: e in todo && e.content.Rows?)
    case Drained(complete) =>
      if complete then Whole(s.main) else (!Whole(s.main) ==> exists e :: e in s.parts && e.content.Rows?)
  }

  ghost predicate AllCarried(main: string, prior: set<string>, finished: set<Record>, glued: set<Record>) {
    forall line :: line in Lines(WholePart(main)) ==> IsCarried(line, prior, finished, glued)
  }

  ghost predicate AllPresent(s: State, glued: set<Record>) {
    && (forall r :: r in s.finished && r !in s.expired ==>
          r in glued || RecordLine(r) in Lines(WholePart(s.main)) || IsListed(s.parts, r))
    && (s.lock.Appended? ==> forall r :: r in RecordsOf(s.lock.entry) ==> RecordLine(r) in Lines(WholePart(s.main)))
  }

  ghost predicate Lined(s: State, prior: set<string>, glued: set<Record>, later: seq<Stem>, names: set<Stem>) {
    && NamesRight(s, later, names) && LockRight(s)
    && AllCarried(s.main, prior, s.finished, glued) && AllPresent(s, glued)
  }

  // ---- Merging ---------------------------------------------------------------------------------

  lemma SpillDataIs(e: Entry)
    requires e.content.Rows? && SpillData(e).Some?
    ensures var ls := SpilledLines(e.content.rows, e.stem, 0);
            && SpillData(e).value == Closed(ls) && ls != []
            && Closed(ls) != "" && Closed(ls)[|Closed(ls)| - 1] == NL
            && forall i :: 0 <= i < |ls| ==> NL !in ls[i]
  {
    ClosedWhole(SpilledLines(e.content.rows, e.stem, 0));
  }

  /** The records of an entry and its lines. */
  lemma LinesOfEntry(e: Entry)
    requires e.content.Rows?
    ensures var ls := SpilledLines(e.content.rows, e.stem, 0);
            && (forall r :: r in RecordsOf(e) ==> r.Spilled? && RecordLine(r) in ls)
            && (forall line :: line in ls ==> exists r :: r in RecordsOf(e) && line == RecordLine(r))
  {
    var ls := SpilledLines(e.content.rows, e.stem, 0);
    forall r | r in RecordsOf(e) ensures RecordLine(r) in ls {
      assert RecordLine(r) == ls[r.index];
    }
    forall line | line in ls ensures exists r :: r in RecordsOf(e) && line == RecordLine(r) {
      var i :| 0 <= i < |ls| && ls[i] == line;
      assert Spilled(e.stem, i, e.content.rows[i]) in RecordsOf(e);
    }
  }

  /** The entry's bytes end the file already, or they come to stand behind its whole lines. */
  lemma MergedMain(main: string, e: Entry)
    requires e.content.Rows? && Pending(main, e).Some?
    ensures SpillData(e).Some?
    ensures var data := SpillData(e).value;
            main + Pending(main, e).value == if EndsWith(main, data) then main else WholePart(main) + data
  {
    SpillDataIs(e);
    Parted(main);
    var data, base, t := SpillData(e).value, WholePart(main), AfterLastBreak(main);
    MissingIs(base, t, data);
    if EndsWith(main, data) {
      assert main + "" == main;
    } else {
      Completes(base, t, data);
    }
  }

  /** The lines once the bytes of an entry stand behind a whole file. */
  lemma LinesWithEntry(base: string, e: Entry)
    requires Whole(base) && e.content.Rows? && SpillData(e).Some?
    ensures var main := base + SpillData(e).value;
            && Whole(main) && WholePart(main) == main
            && Lines(main) == Lines(base) + SpilledLines(e.content.rows, e.stem, 0)
  {
    SpillDataIs(e);
    var ls := SpilledLines(e.content.rows, e.stem, 0);
    LinesOfClosed(ls);
    LinesConcat(base, Closed(ls));
    Parted(base + Closed(ls));
    assert (base + Closed(ls))[|base + Closed(ls)| - 1] == NL;
  }

  /** A carried line with an entry's identity is that entry's line. */
  lemma CarriedWithTag(line: string, prior: set<string>, finished: set<Record>, glued: set<Record>, names: set<Stem>, r: Record)
    requires IsCarried(line, prior, finished, glued) && r.Spilled? && r in finished && r.stem in names
    requires EndsWith(line, Tag(r.stem, r.index))
    requires forall l :: l in prior ==> PlainLine(l, names)
    requires forall q :: q in finished && q.Direct? ==> Plain(q.row, names)
    requires forall q :: q in finished && q.Spilled? && q.stem == r.stem && q.index == r.index ==> q == r
    ensures line == RecordLine(r)
  {
    hide Tag, EndsWith;
    if line in prior {
      assert false;
    }
    var q :| q in finished && Carries(line, q, glued);
    if q.Spilled? {
      EntryTag(q.stem, q.index, q.row);
      TagsAgree(line, q.stem, q.index, r.stem, r.index);
    } else {
      EndsSplit(line, LiveLine(q.row));
      TagInRow(line[..|line| - |LiveLine(q.row)|], q.row, r.stem, r.index);
      assert false;
    }
  }

  lemma SplitClosed(ls: seq<string>)
    requires ls != []
    ensures Closed(ls) == ls[0] + [NL] + Closed(ls[1..])
  {
  }

  lemma RegroupLines(base: string, t: string, first: string, rest: string)
    ensures base + t + (first + [NL] + rest) == base + (t + first + [NL] + rest)
  {
  }

  /** Lines of a text that ends with closed lines, the first of which may stand behind something. */
  lemma LinesBefore(y: string, ls: seq<string>)
    requires ls != [] && forall i :: 0 <= i < |ls| ==> NL !in ls[i]
    ensures Lines(y + Closed(ls)) == Lines(WholePart(y)) + [AfterLastBreak(y) + ls[0]] + ls[1..]
  {
    hide Lines, WholePart, AfterLastBreak, Closed, Whole;
    Parted(y);
    var base, t, rest := WholePart(y), AfterLastBreak(y), Closed(ls[1..]);
    SplitClosed(ls);
    RegroupLines(base, t, ls[0], rest);
    LinesConcat(base, t + ls[0] + [NL] + rest);
    LinesOfFirst(t + ls[0], rest);
    LinesOfClosed(ls[1..]);
    assert Lines(base) + ([t + ls[0]] + ls[1..]) == Lines(base) + [t + ls[0]] + ls[1..];
  }

  lemma LinesOfFirst(line: string, rest: string)
    requires NL !in line
    ensures Lines(line + [NL] + rest) == [line] + Lines(rest)
  {
    hide Lines;
    LinesConcat(line + [NL], rest);
    LinesOfOne(line);
  }

  /** Bytes of an entry that end the file are its lines, each on its own. */
  lemma EndsAsLines(main: string, e: Entry, prior: set<string>, finished: set<Record>, glued: set<Record>, names: set<Stem>)
    requires e.content.Rows? && SpillData(e).Some? && EndsWith(main, SpillData(e).value)
    requires AllCarried(main, prior, finished, glued) && RecordsOf(e) <= finished && e.stem in names
    requires forall l :: l in prior ==> PlainLine(l, names)
    requires forall q :: q in finished && q.Direct? ==> Plain(q.row, names)
    requires forall r, q :: r in RecordsOf(e) && q in finished && q.Spilled? && q.stem == r.stem && q.index == r.index ==> q == r
    ensures Whole(main) && forall r :: r in RecordsOf(e) ==> RecordLine(r) in Lines(main)
  {
    SpillDataIs(e);
    LinesOfEntry(e);
    var ls := SpilledLines(e.content.rows, e.stem, 0);
    EndsSplit(main, Closed(ls));
    Parted(main);
    assert main[|main| - 1] == NL;
    var y := main[..|main| - |Closed(ls)|];
    LinesBefore(y, ls);
    var r0 := Spilled(e.stem, 0, e.content.rows[0]);
    var first := AfterLastBreak(y) + ls[0];
    assert r0 in RecordsOf(e) && RecordLine(r0) == ls[0];
    assert first in Lines(main) by {
      assert Lines(main)[|Lines(WholePart(y))|] == first;
    }
    EntryTag(e.stem, 0, e.content.rows[0]);
    EndsWithConcat(AfterLastBreak(y), ls[0], Tag(e.stem, 0));
    CarriedWithTag(first, prior, finished, glued, names, r0);
    forall line | line in ls ensures line in Lines(main) {
      assert line == ls[0] || line in ls[1..];
    }
  }

  /** What the merge of one entry does to the lines. */
  lemma MergedLinesAre(s: State, e: Entry, prior: set<string>, glued: set<Record>, later: seq<Stem>, names: set<Stem>)
    requires NamesRight(s, later, names) && AllCarried(s.main, prior, s.finished, glued) && e in s.parts && e.content.Rows?
    requires forall l :: l in prior ==> PlainLine(l, names)
    requires Pending(s.main, e).Some?
    ensures var main := s.main + Pending(s.main, e).value;
            && Whole(main) && AllCarried(main, prior, s.finished, glued)
            && (forall line :: line in Lines(WholePart(s.main)) ==> line in Lines(WholePart(main)))
            && (forall r :: r in RecordsOf(e) ==> RecordLine(r) in Lines(WholePart(main)))
  {
    hide RecordsOf, RecordLine, Plain, PlainLine, Pending;
    MergedMain(s.main, e);
    LinesOfEntry(e);
    Parted(s.main);
    if EndsWith(s.main, SpillData(e).value) {
      AllOneRecord(s, e, later, names);
      EndsAsLines(s.main, e, prior, s.finished, glued, names);
    } else {
      LinesWithEntry(WholePart(s.main), e);
      CarriedEntry(e, prior, s.finished, glued);
    }
  }

  lemma AllOneRecord(s: State, e: Entry, later: seq<Stem>, names: set<Stem>)
    requires NamesRight(s, later, names) && e in s.parts
    ensures forall r, q :: r in RecordsOf(e) && q in s.finished && q.Spilled? && q.stem == r.stem && q.index == r.index ==> q == r
    ensures forall r :: r in RecordsOf(e) ==> r.Spilled?
  {
  }

  lemma CarriedEntry(e: Entry, prior: set<string>, finished: set<Record>, glued: set<Record>)
    requires e.content.Rows? && RecordsOf(e) <= finished
    ensures forall line :: line in SpilledLines(e.content.rows, e.stem, 0) ==> IsCarried(line, prior, finished, glued)
  {
    var ls := SpilledLines(e.content.rows, e.stem, 0);
    forall line | line in ls ensures IsCarried(line, prior, finished, glued) {
      var i :| 0 <= i < |ls| && ls[i] == line;
      var r := Spilled(e.stem, i, e.content.rows[i]);
      assert r in RecordsOf(e) && Carries(line, r, glued);
    }
  }

  lemma StillPresent(s: State, s': State, glued: set<Record>)
    requires AllPresent(s, glued) && !s'.lock.Appended?
    requires s'.finished == s.finished && s'.expired == s.expired
    requires forall e :: e in s.parts ==> e in s'.parts
    requires forall line :: line in Lines(WholePart(s.main)) ==> line in Lines(WholePart(s'.main))
    ensures AllPresent(s', glued)
  {
    hide Lines, WholePart, RecordLine, RecordsOf;
    forall r | IsListed(s.parts, r) ensures IsListed(s'.parts, r) {
      var e :| e in s.parts && r in RecordsOf(e);
    }
  }

  lemma RowsOrNothing(main: string, e: Entry)
    requires Pending(main, e).Some? && !e.content.Rows?
    ensures main + Pending(main, e).value == main && RecordsOf(e) == {}
  {
    assert main + "" == main;
  }

  lemma NamesSame(s: State, s': State, later: seq<Stem>, names: set<Stem>)
    requires NamesRight(s, later, names) && s'.parts == s.parts && s'.finished == s.finished
    ensures NamesRight(s', later, names)
  {
  }

  lemma LockMerges(s: State, s': State, e: Entry, rest: seq<Entry>)
    requires LockRight(s) && s.lock == Draining([e] + rest) && s'.parts == s.parts && s'.lock == Appended(e, rest)
    requires e.content.Rows? ==> Whole(s'.main)
    requires !e.content.Rows? ==> s'.main == s.main
    ensures LockRight(s')
  {
    hide Whole;
    assert e in [e] + rest && forall x :: x in rest ==> x in [e] + rest;
    assert forall x :: x in [e] + rest ==> x == e || x in rest;
  }

  lemma LockFails(s: State, s': State)
    requires LockRight(s) && s.lock.Draining? && s'.parts == s.parts && s'.main == s.main && s'.lock == Drained(false)
    ensures LockRight(s')
  {
    hide Whole;
  }

  lemma PresentMerged(s: State, s': State, glued: set<Record>, e: Entry, rest: seq<Entry>)
    requires AllPresent(s, glued) && s'.lock == Appended(e, rest)
    requires s'.finished == s.finished && s'.expired == s.expired && s'.parts == s.parts
    requires forall line :: line in Lines(WholePart(s.main)) ==> line in Lines(WholePart(s'.main))
    requires forall r :: r in RecordsOf(e) ==> RecordLine(r) in Lines(WholePart(s'.main))
    ensures AllPresent(s', glued)
  {
    hide Lines, WholePart, RecordLine, RecordsOf;
  }

  lemma MergeLined(s: State, prior: set<string>, glued: set<Record>, later: seq<Stem>, names: set<Stem>)
    requires Lined(s, prior, glued, later, names) && s.lock.Draining? && s.lock.todo != []
    requires forall l :: l in prior ==> PlainLine(l, names)
    ensures Lined(Apply(s, MergeNext), prior, glued, later, names)
  {
    var s' := Apply(s, MergeNext);
    var e, rest := s.lock.todo[0], s.lock.todo[1..];
    assert s.lock.todo == [e] + rest && e in s.lock.todo;
    assert e in s.parts;
    hide Lines, WholePart, RecordLine, RecordsOf, Pending, PlainLine, NamesRight, LockRight, AllCarried, AllPresent;
    NamesSame(s, s', later, names);
    if Pending(s.main, e).None? {
      LockFails(s, s');
      StillPresent(s, s', glued);
    } else {
      if e.content.Rows? {
        MergedLinesAre(s, e, prior, glued, later, names);
      } else {
        RowsOrNothing(s.main, e);
      }
      LockMerges(s, s', e, rest);
      PresentMerged(s, s', glued, e, rest);
    }
  }

  // ---- A death while an entry is written -------------------------------------------------------

  lemma {:induction false} PartOfClosed(ls: seq<string>, q: string) returns (j: nat)
    requires q <= Closed(ls) && forall i :: 0 <= i < |ls| ==> NL !in ls[i]
    ensures j <= |ls| && WholePart(q) == Closed(ls[..j])
  {
    j := 0;
    assert Closed(ls[..0]) == "";
    if ls == [] {
      Parted(q);
    } else {
      var row := ls[0] + [NL];
      SplitClosed(ls);
      if |q| < |row| {
        assert q == ls[0][..|q|];
        WholePartIs("", q);
        assert "" + q == q;
      } else {
        var rest := q[|row|..];
        assert q == row + rest && rest <= Closed(ls[1..]) by {
          assert q == (row + Closed(ls[1..]))[..|q|];
        }
        var k := PartOfClosed(ls[1..], rest);
        WholePartBehind(row, rest);
        j := k + 1;
        assert ls[..j][1..] == ls[1..][..k];
        SplitClosed(ls[..j]);
      }
    }
  }

  lemma WholePartBehind(base: string, q: string)
    requires Whole(base)
    ensures WholePart(base + q) == base + WholePart(q)
  {
    hide WholePart, AfterLastBreak;
    Parted(q);
    assert base + q == base + WholePart(q) + AfterLastBreak(q);
    assert Whole(base + WholePart(q)) by {
      assert WholePart(q) == "" ==> base + WholePart(q) == base;
    }
    WholePartIs(base + WholePart(q), AfterLastBreak(q));
  }

  lemma Cut(main: string, p: string, k: nat, base: string, data: string)
    requires main + p == base + data && |base| <= |main| && k <= |p|
    ensures |main| - |base| + k <= |data| && main + p[..k] == base + data[..|main| - |base| + k]
  {
    assert main + p[..k] == (base + data)[..|main| + k];
  }

  /** The whole lines once part of an entry's bytes stand behind a whole file. */
  lemma PartLines(base: string, ls: seq<string>, q: string) returns (j: nat)
    requires Whole(base) && q <= Closed(ls) && forall i :: 0 <= i < |ls| ==> NL !in ls[i]
    ensures j <= |ls| && Lines(WholePart(base + q)) == Lines(base) + ls[..j]
  {
    j := PartOfClosed(ls, q);
    WholePartBehind(base, q);
    hide WholePart, Lines;
    LinesOfClosed(ls[..j]);
    LinesConcat(base, Closed(ls[..j]));
  }

  lemma DeadLines(s: State, e: Entry, k: nat, prior: set<string>, glued: set<Record>)
    requires AllCarried(s.main, prior, s.finished, glued) && RecordsOf(e) <= s.finished && e.content.Rows?
    requires Pending(s.main, e).Some? && k <= |Pending(s.main, e).value|
    ensures var main := s.main + Pending(s.main, e).value[..k];
            && AllCarried(main, prior, s.finished, glued)
            && (forall line :: line in Lines(WholePart(s.main)) ==> line in Lines(WholePart(main)))
  {
    hide RecordsOf, Pending, IsCarried, SpillData, SpilledLines, Closed, Lines, WholePart, Whole;
    MergedMain(s.main, e);
    var p, data := Pending(s.main, e).value, SpillData(e).value;
    if EndsWith(s.main, data) {
      assert |s.main + p| == |s.main| + |p|;
      assert s.main + p[..k] == s.main;
    } else {
      var base, ls := WholePart(s.main), SpilledLines(e.content.rows, e.stem, 0);
      Parted(s.main);
      SpillDataIs(e);
      CarriedEntry(e, prior, s.finished, glued);
      Cut(s.main, p, k, base, data);
      var j := PartLines(base, ls, data[..|s.main| - |base| + k]);
    }
  }

  lemma DieLined(s: State, prior: set<string>, glued: set<Record>, later: seq<Stem>, names: set<Stem>, written: nat)
    requires Lined(s, prior, glued, later, names)
    ensures Lined(Apply(s, Die(written)), prior, glued, later, names)
  {
    var s' := Apply(s, Die(written));
    hide Lines, WholePart, RecordLine, RecordsOf, Pending, Plain, IsCarried;
    if s.lock.Draining? && s.lock.todo != [] && Pending(s.main, s.lock.todo[0]).Some? {
      var e := s.lock.todo[0];
      var p := Pending(s.main, e).value;
      assert e in s.lock.todo;
      if e.content.Rows? {
        DeadLines(s, e, Min(written, |p|), prior, glued);
      } else {
        RowsOrNothing(s.main, e);
        assert |p| == 0;
        assert s'.main == s.main;
      }
      assert e.content.Rows? ==> exists x :: x in s'.parts && x.content.Rows?;
    }
    StillPresent(s, s', glued);
  }

  // ---- The other steps of a holder -------------------------------------------------------------

  lemma {:induction false} WithoutNoRepeats(parts: seq<Entry>, e: Entry)
    requires NoRepeats(parts)
    ensures NoRepeats(Without(parts, e))
  {
    if parts != [] {
      NoRepeatsTail(parts);
      hide NoRepeats;
      WithoutNoRepeats(parts[1..], e);
      InWithout(parts[1..], e, parts[0]);
      if parts[0] == e {
        assert [] + Without(parts[1..], e) == Without(parts[1..], e);
      } else {
        NoRepeatsCons(parts[0], Without(parts[1..], e));
      }
    }
  }

  lemma LockUnlinks(s: State, s': State)
    requires LockRight(s) && s.lock.Appended? && s'.main == s.main && s'.lock == Draining(s.lock.todo)
    requires forall e :: e in s'.parts <==> e in s.parts && e != s.lock.entry
    ensures LockRight(s')
  {
    hide Whole;
    var x, todo := s.lock.entry, s.lock.todo;
    NoRepeatsTail([x] + todo);
    assert ([x] + todo)[1..] == todo;
  }

  lemma PresentUnlinked(s: State, s': State, glued: set<Record>)
    requires AllPresent(s, glued) && s.lock.Appended? && s'.lock.Draining?
    requires s'.main == s.main && s'.finished == s.finished && s'.expired == s.expired
    requires forall e :: e in s'.parts <==> e in s.parts && e != s.lock.entry
    ensures AllPresent(s', glued)
  {
    hide Lines, WholePart, RecordLine, RecordsOf;
    forall r | IsListed(s.parts, r) ensures IsListed(s'.parts, r) || RecordLine(r) in Lines(WholePart(s'.main)) {
      var e :| e in s.parts && r in RecordsOf(e);
      assert e == s.lock.entry || e in s'.parts;
    }
  }

  lemma NamesUnlinked(s: State, s': State, later: seq<Stem>, names: set<Stem>)
    requires NamesRight(s, later, names) && s'.finished == s.finished && NoRepeats(s'.parts)
    requires forall e :: e in s'.parts ==> e in s.parts
    ensures NamesRight(s', later, names)
  {
  }

  lemma UnlinkLined(s: State, prior: set<string>, glued: set<Record>, later: seq<Stem>, names: set<Stem>)
    requires Lined(s, prior, glued, later, names) && s.lock.Appended?
    ensures Lined(Apply(s, Unlink), prior, glued, later, names)
  {
    var s' := Apply(s, Unlink);
    WithoutNoRepeats(s.parts, s.lock.entry);
    forall e ensures e in s'.parts <==> e in s.parts && e != s.lock.entry {
      InWithout(s.parts, s.lock.entry, e);
    }
    hide NamesRight, LockRight, AllPresent, AllCarried;
    NamesUnlinked(s, s', later, names);
    LockUnlinks(s, s');
    PresentUnlinked(s, s', glued);
  }

  lemma RowPresent(s: State, s': State, glued: set<Record>, row: Fields)
    requires AllPresent(s, glued) && s.lock.Drained? && s'.lock.Free?
    requires s'.finished == s.finished + {Direct(row)} && s'.expired == s.expired && s'.parts == s.parts
    requires Lines(WholePart(s'.main)) == Lines(WholePart(s.main)) + [AfterLastBreak(s.main) + LiveLine(row)]
    requires Whole(s.main) ==> AfterLastBreak(s.main) == ""
    ensures AllPresent(s', glued + GluedBy(s, AppendRow(row)))
  {
    assert RecordLine(Direct(row)) == LiveLine(row);
    assert "" + LiveLine(row) == LiveLine(row);
    hide Lines, WholePart, AfterLastBreak, RecordsOf, RecordLine, LiveLine;
    var ls := Lines(WholePart(s'.main));
    assert ls[|ls| - 1] == AfterLastBreak(s.main) + LiveLine(row);
  }

  lemma RowCarried(s: State, s': State, prior: set<string>, glued: set<Record>, row: Fields)
    requires AllCarried(s.main, prior, s.finished, glued) && s'.finished == s.finished + {Direct(row)} && s.lock.Drained?
    requires Lines(WholePart(s'.main)) == Lines(WholePart(s.main)) + [AfterLastBreak(s.main) + LiveLine(row)]
    requires Whole(s.main) ==> AfterLastBreak(s.main) == ""
    ensures AllCarried(s'.main, prior, s'.finished, glued + GluedBy(s, AppendRow(row)))
  {
    var more := glued + GluedBy(s, AppendRow(row));
    CarriedStill(s.main, prior, s.finished, s'.finished, glued, more);
    EndsWithConcat(AfterLastBreak(s.main), LiveLine(row), LiveLine(row));
    assert "" + LiveLine(row) == LiveLine(row);
    assert Carries(AfterLastBreak(s.main) + LiveLine(row), Direct(row), more);
    hide Lines, WholePart, AfterLastBreak, LiveLine, Carries;
    assert Direct(row) in s'.finished;
  }

  lemma NamesWithRow(s: State, s': State, later: seq<Stem>, names: set<Stem>, row: Fields)
    requires NamesRight(s, later, names) && s'.parts == s.parts && s'.finished == s.finished + {Direct(row)}
    requires Plain(row, names)
    ensures NamesRight(s', later, names)
  {
    hide Plain;
  }

  lemma AppendLined(s: State, prior: set<string>, glued: set<Record>, later: seq<Stem>, names: set<Stem>, row: Fields)
    requires Lined(s, prior, glued, later, names) && s.lock.Drained? && Plain(row, names)
    ensures Lined(Apply(s, AppendRow(row)), prior, glued + GluedBy(s, AppendRow(row)), later, names)
  {
    var s' := Apply(s, AppendRow(row));
    RowLines(s.main, LiveLine(row));
    Parted(s.main);
    hide Lines, WholePart, AfterLastBreak, Plain, LiveLine, NamesRight, AllPresent, AllCarried;
    NamesWithRow(s, s', later, names, row);
    RowCarried(s, s', prior, glued, row);
    RowPresent(s, s', glued, row);
  }

  lemma RowLines(main: string, line: string)
    requires NL !in line
    ensures var main' := main + (line + [NL]);
            && Whole(main') && WholePart(main') == main'
            && Lines(main') == Lines(WholePart(main)) + [AfterLastBreak(main) + line]
  {
    ClosedOne(line);
    LinesBefore(main, [line]);
    Parted(main + (line + [NL]));
    assert (main + (line + [NL]))[|main| + |line|] == NL;
  }

  lemma CarriedStill(main: string, prior: set<string>, finished: set<Record>, finished': set<Record>,
                     glued: set<Record>, glued': set<Record>)
    requires AllCarried(main, prior, finished, glued) && finished <= finished' && glued <= glued'
    ensures AllCarried(main, prior, finished', glued')
  {
    hide Lines, WholePart, RecordLine;
    forall line | line in Lines(WholePart(main)) ensures IsCarried(line, prior, finished', glued') {
      if line !in prior {
        var r :| r in finished && Carries(line, r, glued);
        assert Carries(line, r, glued');
      }
    }
  }

  /** A record that does not expire keeps its line. */
  lemma LineKept(s: State, dropped: set<nat>, expiring: set<Record>, r: Record)
    requires DropsExpiredOnly(s, dropped, expiring) && r in s.finished && r !in expiring
    requires RecordLine(r) in Lines(s.main)
    ensures RecordLine(r) in Kept(Lines(s.main), dropped, 0)
  {
    hide Lines, Kept, RecordLine;
    var ls := Lines(s.main);
    var i :| 0 <= i < |ls| && ls[i] == RecordLine(r);
    assert EndsWith(ls[i], RecordLine(r));
    var _ := KeptLine(ls, dropped, 0, i);
  }

  lemma {:induction false} KeptAmong(ls: seq<string>, dropped: set<nat>, at: nat)
    ensures forall line :: line in Kept(ls, dropped, at) ==> line in ls
  {
    if ls != [] {
      KeptAmong(ls[1..], dropped, at + 1);
    }
  }

  /** The file after a retention pass. */
  lemma KeptMain(main: string, dropped: set<nat>)
    ensures var main' := Closed(Kept(Lines(main), dropped, 0));
            && Whole(main') && WholePart(main') == main' && Lines(main') == Kept(Lines(main), dropped, 0)
  {
    LinesUnbroken(main);
    KeptAmong(Lines(main), dropped, 0);
    LinesOfClosed(Kept(Lines(main), dropped, 0));
    ClosedWhole(Kept(Lines(main), dropped, 0));
    Parted(Closed(Kept(Lines(main), dropped, 0)));
  }

  lemma RewriteLined(s: State, prior: set<string>, glued: set<Record>, later: seq<Stem>, names: set<Stem>,
                     dropped: set<nat>, expiring: set<Record>)
    requires Lined(s, prior, glued, later, names) && s.lock == Drained(true) && DropsExpiredOnly(s, dropped, expiring)
    ensures Lined(Apply(s, Rewrite(dropped, expiring)), prior, glued, later, names)
  {
    KeptMain(s.main, dropped);
    Parted(s.main);
    var s' := Apply(s, Rewrite(dropped, expiring));
    hide Lines, WholePart, RecordLine, RecordsOf, Plain, IsCarried, Kept, Closed, DropsExpiredOnly;
    KeptAmong(Lines(s.main), dropped, 0);
    forall r | r in s'.finished && r !in s'.expired && RecordLine(r) in Lines(s.main) ensures RecordLine(r) in Lines(s'.main) {
      LineKept(s, dropped, expiring, r);
    }
  }

  lemma LockLined(s: State, s': State, prior: set<string>, glued: set<Record>, later: seq<Stem>, names: set<Stem>)
    requires Lined(s, prior, glued, later, names)
    requires s' == s.(lock := s'.lock, temporary := s'.temporary) && LockRight(s') && !s'.lock.Appended?
    ensures Lined(s', prior, glued, later, names)
  {
    StillPresent(s, s', glued);
  }

  // ---- Publishing ------------------------------------------------------------------------------

  lemma {:induction false} ListedNoRepeats(parts: seq<Entry>, e: Entry)
    requires NoRepeats(parts) && e !in parts
    ensures NoRepeats(Listed(parts, e))
  {
    hide NoRepeats;
    if parts == [] || Before(e.stem, parts[0].stem) {
      NoRepeatsCons(e, parts);
    } else {
      NoRepeatsTail(parts);
      ListedNoRepeats(parts[1..], e);
      InListed(parts[1..], e, parts[0]);
      NoRepeatsCons(parts[0], Listed(parts[1..], e));
    }
  }

  lemma NamesAfterPublish(s: State, s': State, e: Entry, later: seq<Stem>, names: set<Stem>)
    requires NamesRight(s, [e.stem] + later, names) && e.stem in names && e.stem !in later
    requires s'.parts == Listed(s.parts, e) && s'.finished == s.finished + RecordsOf(e)
    ensures NamesRight(s', later, names)
  {
    hide Plain;
    assert e.stem in [e.stem] + later && forall n :: n in later ==> n in [e.stem] + later;
    ListedNoRepeats(s.parts, e);
    forall x ensures x in s'.parts <==> x in s.parts || x == e {
      InListed(s.parts, e, x);
    }
  }

  lemma PublishLined(s: State, prior: set<string>, glued: set<Record>, e: Entry, later: seq<Stem>, names: set<Stem>)
    requires Lined(s, prior, glued, [e.stem] + later, names) && e.stem in names && e.stem !in later
    ensures Lined(Apply(s, PublishEntry(e)), prior, glued, later, names)
  {
    assert forall n :: n in later ==> n in [e.stem] + later;
    if e.stem in s.temporary {
      var s' := Apply(s, PublishEntry(e));
      NamesAfterPublish(s, s', e, later, names);
      hide Lines, WholePart, RecordLine, RecordsOf, Plain, NamesRight;
      forall x ensures x in s'.parts <==> x in s.parts || x == e {
        InListed(s.parts, e, x);
      }
      CarriedStill(s.main, prior, s.finished, s'.finished, glued, glued);
      forall r | IsListed(s.parts, r) || r in RecordsOf(e) ensures IsListed(s'.parts, r) {
        if IsListed(s.parts, r) {
          var x :| x in s.parts && r in RecordsOf(x);
        }
      }
    }
  }

  // ---- Every interleaving ----------------------------------------------------------------------

  /** The row a step writes behind a torn one. */
  function GluedBy(s: State, step: Step): set<Record> {
    if step.AppendRow? && s.lock.Drained? && !Whole(s.main) then {Direct(step.row)} else {}
  }

  ghost function GluedIn(s: State, steps: seq<Step>): set<Record>
    decreases |steps|
  {
    if steps == [] then {} else GluedBy(s, steps[0]) + GluedIn(Apply(s, steps[0]), steps[1..])
  }

  lemma StepLined(s: State, prior: set<string>, glued: set<Record>, step: Step, later: seq<Stem>, names: set<Stem>)
    requires Lined(s, prior, glued, later, names) && PlainStep(step, names) && !step.PublishEntry?
    requires forall l :: l in prior ==> PlainLine(l, names)
    ensures Lined(Apply(s, step), prior, glued + GluedBy(s, step), later, names)
  {
    assert !step.AppendRow? ==> glued + GluedBy(s, step) == glued;
    match step {
      case MergeNext =>
        if s.lock.Draining? && s.lock.todo != [] {
          MergeLined(s, prior, glued, later, names);
        }
      case Unlink =>
        if s.lock.Appended? {
          UnlinkLined(s, prior, glued, later, names);
        }
      case AppendRow(row) =>
        if s.lock.Drained? {
          AppendLined(s, prior, glued, later, names, row);
        } else {
          assert glued + {} == glued;
        }
      case Rewrite(dropped, expiring) =>
        if s.lock == Drained(true) && DropsExpiredOnly(s, dropped, expiring) {
          RewriteLined(s, prior, glued, later, names, dropped, expiring);
        }
      case Die(written) =>
        DieLined(s, prior, glued, later, names, written);
      case _ =>
        QuietStepLined(s, prior, glued, step, later, names);
    }
  }

  lemma QuietStepLined(s: State, prior: set<string>, glued: set<Record>, step: Step, later: seq<Stem>, names: set<Stem>)
    requires Lined(s, prior, glued, later, names)
    requires step.Acquire? || step.ListingDone? || step.Release? || step.OpenTemporary? || step.AbandonTemporary?
    ensures Lined(Apply(s, step), prior, glued, later, names)
  {
    hide Lines, WholePart, RecordLine, RecordsOf, Plain, IsCarried, AllCarried;
    if !s.lock.Appended? {
      LockLined(s, Apply(s, step), prior, glued, later, names);
    }
  }

  lemma {:induction false} RunLined(s: State, prior: set<string>, glued: set<Record>, steps: seq<Step>, names: set<Stem>)
    requires Lined(s, prior, glued, NamesIn(steps), names) && Sound(steps, names)
    requires forall l :: l in prior ==> PlainLine(l, names)
    ensures Lined(RunSteps(s, steps), prior, glued + GluedIn(s, steps), [], names)
    decreases |steps|
  {
    hide Lined, Sound, PlainLine, GluedBy, PlainStep;
    if steps == [] {
      assert glued + {} == glued;
    } else {
      SoundRest(steps, names);
      var step, rest := steps[0], steps[1..];
      var s' := Apply(s, step);
      if step.PublishEntry? {
        PublishLined(s, prior, glued, step.e, NamesIn(rest), names);
        NotGlued(s, step);
        assert glued + {} == glued;
      } else {
        StepLined(s, prior, glued, step, NamesIn(rest), names);
      }
      RunLined(s', prior, glued + GluedBy(s, step), rest, names);
      assert glued + GluedBy(s, step) + GluedIn(s', rest) == glued + (GluedBy(s, step) + GluedIn(s', rest));
    }
  }

  lemma NotGlued(s: State, step: Step)
    requires !step.AppendRow?
    ensures GluedBy(s, step) == {}
  {
  }

  /** A log that holds whole lines from before, none of which ends like an entry's row of this run. */
  ghost predicate PlainStart(main: string, names: set<Stem>) {
    Whole(main) && forall line :: line in Lines(main) ==> PlainLine(line, names)
  }

  function LinesOf(main: string): set<string> { set line | line in Lines(main) }

  lemma StartLined(main: string, later: seq<Stem>, names: set<Stem>)
    requires Whole(main)
    ensures Lined(StartWith(main), LinesOf(main), {}, later, names)
  {
    Parted(main);
  }

  lemma LinesOfWholePart(main: string)
    ensures forall line :: line in Lines(WholePart(main)) ==> line in Lines(main)
  {
    Parted(main);
    LinesConcat(WholePart(main), AfterLastBreak(main));
  }

  /** The invariant after any interleaving from a whole file. */
  lemma RunIsLined(start: string, steps: seq<Step>, names: set<Stem>)
    requires PlainStart(start, names) && Sound(steps, names)
    ensures Lined(RunSteps(StartWith(start), steps), LinesOf(start), GluedIn(StartWith(start), steps), [], names)
  {
    StartLined(start, NamesIn(steps), names);
    hide Lined, Sound, PlainLine, RunSteps, GluedIn;
    RunLined(StartWith(start), LinesOf(start), {}, steps, names);
    assert {} + GluedIn(StartWith(start), steps) == GluedIn(StartWith(start), steps);
  }

  /**
   * Every line before the last break is one from before, a record's own, or ends with a row that
   * was written behind a torn one.
   */
  lemma EveryLineIsARecord(start: string, steps: seq<Step>, line: string)
    requires var names := AsNames(NamesIn(steps)); PlainStart(start, names) && Sound(steps, names)
    requires var s := RunSteps(StartWith(start), steps); line in Lines(WholePart(s.main))
    ensures var s := RunSteps(StartWith(start), steps);
            IsCarried(line, LinesOf(start), s.finished, GluedIn(StartWith(start), steps))
  {
    hide RunSteps, GluedIn, Sound, PlainStart, WholePart;
    RunIsLined(start, steps, AsNames(NamesIn(steps)));
  }

  /**
   * At least once, as a line: in every interleaving, for entries of any shape in any order, a
   * record that was finished and has not expired is a line of its own in the main file, or in a
   * published entry, or was written directly behind a torn row.
   */
  lemma EveryRecordIsALine(start: string, steps: seq<Step>, r: Record)
    requires var names := AsNames(NamesIn(steps)); PlainStart(start, names) && Sound(steps, names)
    requires var s := RunSteps(StartWith(start), steps); r in s.finished && r !in s.expired
    ensures var s := RunSteps(StartWith(start), steps);
            RecordLine(r) in Lines(s.main) || IsListed(s.parts, r) || r in GluedIn(StartWith(start), steps)
  {
    hide RunSteps, GluedIn, Sound, PlainStart, WholePart;
    RunIsLined(start, steps, AsNames(NamesIn(steps)));
    LinesOfWholePart(RunSteps(StartWith(start), steps).main);
  }
}
