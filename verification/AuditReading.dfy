/**
 * What a reader of the log finds in it: the lines give back the rows they were written from, so
 * what the theorems say of lines holds of the records themselves (src/tybot/audit.py).
 */
module AuditReading {
  import opened Basics
  import opened Text
  import opened AuditDrain
  import opened AuditDisorder
  import opened AuditProtocol
  import opened AuditLines
  import opened AuditOnce
  import opened AuditRuns
  import Digits

  // ---- Readers ---------------------------------------------------------------------------------

  /** The members of a JSON row. */
  function RowOf(line: string): Option<string> {
    if |line| >= 2 && line[0] == '{' && line[|line| - 1] == '}' then Some(line[1..|line| - 1]) else None
  }

  /** The run of digits a text ends with. */
  function LastDigits(s: string): (n: nat)
    ensures n <= |s| && Digits.AllDigits(s[|s| - n..])
  {
    if s == "" || !Digits.IsDigit(s[|s| - 1]) then 0
    else
      var n := LastDigits(s[..|s| - 1]) + 1;
      assert s[|s| - n..] == s[..|s| - 1][|s| - n..] + [s[|s| - 1]];
      n
  }

  /** A row with an identity as its last member: the row without it, the entry's name, the number in the entry. */
  datatype Spill = Spill(row: string, stem: string, index: nat)

  const KEY := ", \"_audit_spill_id\": \""

  /** Reads `row, "_audit_spill_id": "stem:`. */
  function NameOf(text: string): Option<(string, string)> {
    if |text| < STEM_LENGTH + 1 || text[|text| - 1] != ':' then None
    else
      var front := text[..|text| - 1 - STEM_LENGTH];
      if EndsWith(front, KEY) then Some((front[..|front| - |KEY|], text[|text| - 1 - STEM_LENGTH..|text| - 1])) else None
  }

  function SpillOf(line: string): Option<Spill> {
    match RowOf(line)
    case None => None
    case Some(members) =>
      if !EndsWith(members, "\"") then None
      else
        var text := members[..|members| - 1];
        var n := LastDigits(text);
        match NameOf(text[..|text| - n])
        case None => None
        case Some((row, stem)) =>
          if n == 0 then None else Some(Spill(row, stem, Digits.ToNat(text[|text| - n..])))
  }

  /** The line says the record: what is read from it is the record's row and, for an entry's, its identity. */
  predicate Says(line: string, r: Record) {
    match r
    case Direct(row) => RowOf(line) == Some(row)
    case Spilled(stem, index, row) => SpillOf(line) == Some(Spill(row, stem, index))
  }

  lemma {:induction false} LastDigitsOf(s: string, d: string)
    requires Digits.AllDigits(d) && (s == "" || !Digits.IsDigit(s[|s| - 1]))
    ensures LastDigits(s + d) == |d|
  {
    if d == "" {
      assert s + d == s;
    } else {
      hide LastDigits;
      LastDigitsOf(s, d[..|d| - 1]);
      assert (s + d)[..|s + d| - 1] == s + d[..|d| - 1] && (s + d)[|s + d| - 1] == d[|d| - 1];
      OneDigitMore(s + d);
    }
  }

  lemma OneDigitMore(s: string)
    requires s != "" && Digits.IsDigit(s[|s| - 1])
    ensures LastDigits(s) == LastDigits(s[..|s| - 1]) + 1
  {
  }

  lemma RowReads(row: string)
    ensures RowOf("{" + row + "}") == Some(row)
  {
    assert ("{" + row + "}")[1..|row| + 1] == row;
  }

  lemma NameReads(row: string, stem: Stem)
    ensures NameOf(row + KEY + stem + ":") == Some((row, stem))
  {
    var text := row + KEY + stem + ":";
    assert text[..|text| - 1 - STEM_LENGTH] == row + KEY;
    assert text[|text| - 1 - STEM_LENGTH..|text| - 1] == stem;
    assert (row + KEY)[|row|..] == KEY && (row + KEY)[..|row|] == row;
  }

  lemma SpillIs(line: string, before: string, digits: string, row: string, stem: string)
    requires RowOf(line) == Some(before + digits + "\"") && NameOf(before) == Some((row, stem))
    requires digits != "" && Digits.AllDigits(digits) && before != "" && before[|before| - 1] == ':'
    ensures SpillOf(line) == Some(Spill(row, stem, Digits.ToNat(digits)))
  {
    hide LastDigits, Digits.ToNat, RowOf, NameOf, Digits.AllDigits;
    var members := before + digits + "\"";
    LastDigitsOf(before, digits);
    assert members[..|members| - 1] == before + digits;
    assert (before + digits)[..|before|] == before && (before + digits)[|before|..] == digits;
  }

  lemma SpillReads(row: Fields, stem: Stem, index: nat)
    ensures SpillOf(SpilledLine(row, stem, index)) == Some(Spill(row, stem, index))
  {
    hide SpillOf, NameOf, Digits.OfNat, Digits.ToNat, Digits.AllDigits;
    var before, n := row + KEY + stem + ":", Digits.OfNat(index);
    SpilledIs(row, stem, index);
    RowReads(before + n + "\"");
    NameReads(row, stem);
    Digits.ReadBack(index);
    SpillIs(SpilledLine(row, stem, index), before, n, row, stem);
  }

  lemma SpilledIs(row: Fields, stem: Stem, index: nat)
    ensures SpilledLine(row, stem, index) == "{" + (row + KEY + stem + ":" + Digits.OfNat(index) + "\"") + "}"
  {
    hide Digits.OfNat;
  }

  /** Every record can be read from its line. */
  lemma LineSaysRecord(r: Record)
    ensures Says(RecordLine(r), r)
  {
    hide RowOf, SpillOf;
    match r
    case Direct(row) => RowReads(row);
    case Spilled(stem, index, row) => SpillReads(row, stem, index);
  }

  /** A line says at most one record of either kind. */
  lemma OneRecordOfAKind(line: string, a: Record, b: Record)
    requires Says(line, a) && Says(line, b) && (a.Direct? <==> b.Direct?)
    ensures a == b
  {
    hide RowOf, SpillOf;
  }

  /** Two records of one kind share a line only if they are the same record. */
  lemma SameLineSameRecord(a: Record, b: Record)
    requires a.Direct? <==> b.Direct?
    ensures RecordLine(a) == RecordLine(b) <==> a == b
  {
    hide Says, RecordLine;
    LineSaysRecord(a);
    LineSaysRecord(b);
    if RecordLine(a) == RecordLine(b) {
      OneRecordOfAKind(RecordLine(a), a, b);
    }
  }

  /** A lock holder's row can be told from the file it leaves. */
  lemma LiveRowsDiffer(d: Disk, a: Fields, b: Fields)
    ensures Perform(d, Live(a)).main == Perform(d, Live(b)).main <==> a == b
  {
    hide Drain, LiveLine;
    var main := Drain(d, Survives).0.main;
    if Perform(d, Live(a)).main == Perform(d, Live(b)).main {
      assert (main + LiveLine(a) + [NL])[|main|..|main| + |LiveLine(a)|] == LiveLine(a);
      assert |LiveLine(a)| == |LiveLine(b)|;
      SameLineSameRecord(Direct(a), Direct(b));
    }
  }

  // ---- The log read line by line ---------------------------------------------------------------

  function RecordsBy(ev: Event): seq<Record>
    requires ev.Publishes? ==> OneRow(ev.entry)
  {
    match ev
    case Publishes(e) => [Spilled(e.stem, 0, e.content.rows[0])]
    case DrainDies(_, _) => []
    case Live(row) => [Direct(row)]
  }

  /** The records the events finish, in order. */
  function RecordsIn(evs: seq<Event>): seq<Record>
    requires forall ev :: ev in evs && ev.Publishes? ==> OneRow(ev.entry)
  {
    if evs == [] then [] else RecordsBy(evs[0]) + RecordsIn(evs[1..])
  }

  ghost predicate AllSay(lines: seq<string>, records: seq<Record>) {
    |lines| == |records| && forall i :: 0 <= i < |lines| ==> Says(lines[i], records[i])
  }

  lemma {:induction false} LedgerSays(evs: seq<Event>)
    requires forall ev :: ev in evs && ev.Publishes? ==> OneRow(ev.entry)
    ensures AllSay(Ledger(evs), RecordsIn(evs))
  {
    hide Says, RecordLine;
    if evs != [] {
      LedgerSays(evs[1..]);
      match evs[0]
      case Publishes(e) => RecordSays(Spilled(e.stem, 0, e.content.rows[0]), LineOf(e));
      case DrainDies(_, _) =>
      case Live(row) => RecordSays(Direct(row), LiveLine(row));
    }
  }

  lemma RecordSays(r: Record, line: string)
    requires match r case Direct(row) => line == LiveLine(row) case Spilled(stem, i, row) => line == SpilledLine(row, stem, i)
    ensures Says(line, r)
  {
    LineSaysRecord(r);
  }

  /**
   * With names in order and drains dying anywhere, the log read line by line after one complete
   * drain gives the old lines and then every record, row for row, in the order they were finished.
   */
  lemma LogReadsBack(start: string, evs: seq<Event>)
    requires Whole(start) && Orderly(Disk(start, []), evs)
    requires forall stem :: stem in Names(evs) ==> !EndsWith(start, Mark(stem))
    ensures var lines := Lines(Drain(Run(Disk(start, []), evs), Survives).0.main);
            && Lines(start) <= lines
            && AllSay(lines[|Lines(start)|..], RecordsIn(evs))
  {
    EveryRecordOnceInOrder(start, evs);
    LedgerSays(evs);
    hide Drain, Run, Orderly, Lines, Ledger, RecordsIn, Says;
  }

  // ---- In every interleaving -------------------------------------------------------------------

  /** Some whole line of the file says the record. */
  ghost predicate ReadFrom(main: string, r: Record) {
    exists line :: line in Lines(main) && Says(line, r)
  }

  /**
   * At least once, read back: in every interleaving, entries of any shape and names in any order,
   * a record that was finished and has not expired can be read from a line of the file, is in a
   * published entry, or was written directly behind a torn row.
   */
  lemma EveryRecordIsRead(start: string, steps: seq<Step>, r: Record)
    requires var names := AsNames(NamesIn(steps)); PlainStart(start, names) && Sound(steps, names)
    requires var s := RunSteps(StartWith(start), steps); r in s.finished && r !in s.expired
    ensures var s := RunSteps(StartWith(start), steps);
            ReadFrom(s.main, r) || IsListed(s.parts, r) || r in GluedIn(StartWith(start), steps)
  {
    EveryRecordIsALine(start, steps, r);
    LineSaysRecord(r);
    hide RunSteps, GluedIn, Sound, PlainStart, Says, RecordLine, Lines;
  }

  /** The bytes from `k` to `n` are followed by a line break and say the record. */
  predicate SaysAt(main: string, k: nat, n: nat, r: Record) {
    k <= n < |main| && main[n] == NL && Says(main[k..n], r)
  }

  /** With no assumption on rows and names: the record can be read from bytes that end at a line break, or is listed. */
  lemma NothingIsLost(steps: seq<Step>, r: Record)
    requires var s := RunSteps(START, steps); r in s.finished && r !in s.expired
    ensures var s := RunSteps(START, steps);
            (exists k: nat, n: nat :: SaysAt(s.main, k, n, r)) || exists e :: e in s.parts && r in RecordsOf(e)
  {
    NoRecordIsLostFromStart(steps);
    LineSaysRecord(r);
    hide RunSteps, Says, RecordLine, RecordsOf;
    var s := RunSteps(START, steps);
    if Shows(s.main, RecordLine(r)) {
      var k: nat :| At(s.main, RecordLine(r), k);
      AtBytes(s.main, RecordLine(r), k);
      assert SaysAt(s.main, k, k + |RecordLine(r)|, r);
    }
  }

  lemma AtBytes(main: string, line: string, k: nat)
    requires At(main, line, k)
    ensures main[k..k + |line|] == line && main[k + |line|] == NL
  {
    AtChars(main, line, k);
  }

  /** For names in order: once a drain is through, every record owed is read from a line of the file. */
  lemma OwedIsRead(start: string, steps: seq<Step>)
    requires OneRowRun(start, steps) && Increasing(NamesIn(steps)) && RunSteps(StartWith(start), steps).lock.Free?
    ensures var s := RunSteps(StartWith(start), steps);
            var s' := RunSteps(s, DrainSteps(|s.parts|, Survives));
            && (forall r :: Owed(s, r) ==> ReadFrom(s'.main, r))
            && (forall line :: line in Lines(s'.main) ==>
                  line in LinesOf(start) || exists r :: r in s'.finished && Says(line, r))
  {
    ExactlyOnceInOrder(start, steps);
    hide RunSteps, OneRowRun, DrainSteps, Lines, Increasing, Says, RecordLine, Marked, LinesOf;
    var s := RunSteps(StartWith(start), steps);
    var s' := RunSteps(s, DrainSteps(|s.parts|, Survives));
    forall r | Owed(s, r) ensures ReadFrom(s'.main, r) {
      LineSaysRecord(r);
    }
    forall line | line in Lines(s'.main) && line !in LinesOf(start) ensures exists r :: r in s'.finished && Says(line, r) {
      var r :| r in s'.finished && line == RecordLine(r);
      LineSaysRecord(r);
    }
  }
}
