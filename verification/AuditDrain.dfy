/**
 * The audit log file, the side directory that takes records while the file is locked, and
 * the drain that moves them into the file (src/tybot/audit.py).
 *
 * The file and every entry are byte strings. A drain may stop at any byte it writes, or
 * between writing and deleting an entry, and is run again later.
 */
module AuditDrain {
  import opened Basics
  import opened StringOrder
  import opened Text
  import Digits

  /** `time_ns` in twenty digits, a hyphen, and a UUID in hexadecimal. */
  const STEM_LENGTH := 53

  /** The JSON members of one audit record, without the surrounding braces. */
  type Fields = s: string | NL !in s
  type Stem = s: string | |s| == STEM_LENGTH && forall i :: 0 <= i < |s| ==> InStem(s[i])
    witness seq(STEM_LENGTH, i => '0')

  predicate InStem(c: char) { '0' <= c <= '9' || 'a' <= c <= 'f' || c == '-' }

  /** What reading one `.part` file can give: white space only, text that is no JSON row, or rows. */
  datatype Content = Blank | Malformed | Rows(rows: seq<Fields>)
  datatype Entry = Entry(stem: Stem, content: Content)

  /** The row a writer appends when it holds the lock. */
  function LiveLine(row: Fields): (line: string)
    ensures NL !in line
  {
    "{" + row + "}"
  }

  function Tag(stem: Stem, index: nat): (t: string)
    ensures NL !in t
  {
    NoBreakInDigits(index);
    stem + ":" + Digits.OfNat(index) + "\"}"
  }

  lemma NoBreakInDigits(n: nat)
    ensures NL !in Digits.OfNat(n)
  {
    assert Digits.AllDigits(Digits.OfNat(n));
  }

  /** The row of an entry once the drain has given it its identity. */
  function SpilledLine(row: Fields, stem: Stem, index: nat): (line: string)
    ensures NL !in line
  {
    "{" + row + ", \"_audit_spill_id\": \"" + Tag(stem, index)
  }

  function SpilledLines(rows: seq<Fields>, stem: Stem, index: nat): (ls: seq<string>)
    ensures |ls| == |rows|
    ensures forall i :: 0 <= i < |ls| ==> ls[i] == SpilledLine(rows[i], stem, index + i)
    decreases |rows|
  {
    if rows == [] then [] else [SpilledLine(rows[0], stem, index)] + SpilledLines(rows[1..], stem, index + 1)
  }

  /** `_spill_data`: the bytes an entry contributes; `None` is the `OSError` of an unreadable entry. */
  function SpillData(e: Entry): Option<string> {
    match e.content
    case Blank => Some("")
    case Malformed => None
    case Rows(rows) => if rows == [] then None else Some(Closed(SpilledLines(rows, e.stem, 0)))
  }

  /** What follows the last line break. */
  function AfterLastBreak(s: string): string {
    if s == "" || s[|s| - 1] == NL then "" else AfterLastBreak(s[..|s| - 1]) + [s[|s| - 1]]
  }

  /** The bytes `drain_spill` still has to append for `data`; `None` when the torn tail is another entry's. */
  function Missing(main: string, data: string): Option<string> {
    if data == "" || EndsWith(main, data) then Some("")
    else
      var tail := main[if |main| < |data| then 0 else |main| - |data|..];
      if tail != "" && tail[|tail| - 1] != NL then
        var fragment := AfterLastBreak(tail);
        if fragment <= data then Some(data[|fragment|..]) else None
      else Some(data)
  }

  /** What processing one entry appends, or `None` for an `OSError`. */
  function Pending(main: string, e: Entry): Option<string> {
    match SpillData(e)
    case None => None
    case Some(data) => Missing(main, data)
  }

  lemma {:induction false} AfterLastBreakEnds(s: string)
    ensures EndsWith(s, AfterLastBreak(s)) && NL !in AfterLastBreak(s)
  {
    if s != "" && s[|s| - 1] != NL {
      AfterLastBreakEnds(s[..|s| - 1]);
      var t := AfterLastBreak(s[..|s| - 1]);
      assert s == s[..|s| - 1] + [s[|s| - 1]];
      assert s[|s| - |t| - 1..] == s[..|s| - 1][|s| - 1 - |t|..] + [s[|s| - 1]];
    }
  }

  lemma MissingEndsWith(main: string, data: string)
    requires Missing(main, data).Some? && data != "" && !EndsWith(main, data)
    ensures EndsWith(main + Missing(main, data).value, data)
  {
    var tail := main[if |main| < |data| then 0 else |main| - |data|..];
    assert EndsWith(main, tail);
    AfterLastBreakEnds(tail);
    EndsWithTrans(main, tail, AfterLastBreak(tail));
    if tail != "" && tail[|tail| - 1] != NL {
      Resumed(main, AfterLastBreak(tail), data);
    } else {
      EndsWithConcat(main, data, data);
    }
  }

  /** Whatever the drain appends for an entry, torn tail or not, the file then ends with its bytes. */
  lemma AppendingEndsWith(main: string, e: Entry)
    requires Pending(main, e).Some?
    ensures SpillData(e).Some? && EndsWith(main + Pending(main, e).value, SpillData(e).value)
  {
    var data := SpillData(e).value;
    if data == "" || EndsWith(main, data) {
      assert main + "" == main;
    } else {
      MissingEndsWith(main, data);
    }
  }

  /** Where a drain dies: at the entry so many places down the listing, after so many appended bytes. */
  datatype Fate = Survives | Dies(entry: nat, written: nat)
  datatype Outcome = Merged | Failed | Crashed

  datatype Disk = Disk(main: string, parts: seq<Entry>)

  /** One drain over the listed entries: the disk it leaves and how it ended. */
  function Drain(d: Disk, fate: Fate): (Disk, Outcome)
    decreases |d.parts|
  {
    if d.parts == [] then (d, Merged)
    else
      match Pending(d.main, d.parts[0])
      case None => (d, Failed)
      case Some(p) =>
        if fate.Dies? && fate.entry == 0 then
          (d.(main := d.main + p[..Min(fate.written, |p|)]), Crashed)
        else
          Drain(Disk(d.main + p, d.parts[1..]), Later(fate, 1))
  }

  /** The fate as the entries after the first `k` see it. */
  function Later(fate: Fate, k: nat): Fate
    requires fate.Dies? ==> k <= fate.entry
  {
    if fate.Dies? then Dies(fate.entry - k, fate.written) else Survives
  }

  predicate IsBlank(line: string) {
    forall c :: c in line ==> c in " \t\r\U{0B}\U{0C}"
  }

  function NonBlank(ls: seq<string>): nat {
    if ls == [] then 0 else (if IsBlank(ls[0]) then 0 else 1) + NonBlank(ls[1..])
  }

  /** The lines a drain counts: the non-blank ones among what it appended, entry by entry. */
  function MergedLines(d: Disk): nat
    decreases |d.parts|
  {
    if d.parts == [] then 0
    else
      match Pending(d.main, d.parts[0])
      case None => 0
      case Some(p) => NonBlank(Lines(p)) + MergedLines(Disk(d.main + p, d.parts[1..]))
  }

  /** One entry of a drain. */
  lemma DrainStep(d: Disk, fate: Fate)
    ensures d.parts == [] ==> Drain(d, fate) == (d, Merged) && MergedLines(d) == 0
    ensures d.parts != [] && Pending(d.main, d.parts[0]).None? ==> Drain(d, fate) == (d, Failed)
    ensures d.parts != [] && Pending(d.main, d.parts[0]).Some? ==>
      var p := Pending(d.main, d.parts[0]).value;
      var next := Disk(d.main + p, d.parts[1..]);
      && Drain(d, fate) == (if fate.Dies? && fate.entry == 0 then (d.(main := d.main + p[..Min(fate.written, |p|)]), Crashed)
                            else Drain(next, Later(fate, 1)))
      && MergedLines(d) == NonBlank(Lines(p)) + MergedLines(next)
  {
    hide Pending, NonBlank, Lines;
  }

  /** The live file and its side directory, listed in name order. */
  class AuditFile {
    var main: string
    var parts: seq<Entry>

    ghost function Contents(): Disk
      reads this
    {
      Disk(main, parts)
    }

    constructor ()
      ensures Contents() == Disk("", [])
    {
      main, parts := "", [];
    }

    /** `drain_spill`, called with the lock held. */
    method DrainSpill(fate: Fate) returns (outcome: Outcome, merged: nat)
      modifies this
      ensures (Contents(), outcome) == Drain(old(Contents()), fate)
      ensures outcome.Merged? ==> merged == MergedLines(old(Contents()))
    {
      hide Drain, MergedLines, Pending, NonBlank, Lines;
      merged := 0;
      var i := 0;
      var entries := parts;
      while i < |entries|
        invariant 0 <= i <= |entries|
        invariant parts == entries[i..]
        invariant fate.Dies? ==> i <= fate.entry
        invariant Drain(old(Contents()), fate) == Drain(Contents(), Later(fate, i))
        invariant merged + MergedLines(Contents()) == MergedLines(old(Contents()))
      {
        assert parts[0] == entries[i] && parts[1..] == entries[i + 1..];
        DrainStep(Contents(), Later(fate, i));
        var p := Pending(main, entries[i]);
        if p.None? {
          return Failed, merged;
        }
        if fate.Dies? && fate.entry == i {
          main := main + p.value[..Min(fate.written, |p.value|)];
          return Crashed, merged;
        }
        main := main + p.value;
        merged := merged + NonBlank(Lines(p.value));
        parts := parts[1..];
        i := i + 1;
      }
      DrainStep(Contents(), Later(fate, i));
      outcome := Merged;
    }

    /** `appending` with the lock held: drain first, swallow its error, then write one whole row. */
    method AppendLocked(row: Fields)
      modifies this
      ensures Contents() == Perform(old(Contents()), Live(row))
    {
      var _, _ := DrainSpill(Survives);
      main := main + LiveLine(row) + [NL];
    }

    /** `_spilling`: the finished temporary file takes its name, and so its place in the listing. */
    method Publish(e: Entry)
      modifies this
      ensures Contents() == Perform(old(Contents()), Publishes(e))
    {
      parts := Listed(parts, e);
    }
  }

  /** Byte order of names. */
  predicate Before(a: string, b: string) { a != b && Le(a, b) }

  /** The sorted listing with one more entry. */
  function Listed(parts: seq<Entry>, e: Entry): (r: seq<Entry>)
    ensures multiset(r) == multiset(parts) + multiset{e}
  {
    if parts == [] || Before(e.stem, parts[0].stem) then [e] + parts
    else
      assert parts == [parts[0]] + parts[1..];
      [parts[0]] + Listed(parts[1..], e)
  }

  datatype Event =
    | Publishes(entry: Entry)
    | DrainDies(entryIndex: nat, written: nat)
    | Live(row: Fields)

  function Perform(d: Disk, ev: Event): Disk {
    match ev
    case Publishes(e) => d.(parts := Listed(d.parts, e))
    case DrainDies(i, k) => Drain(d, Dies(i, k)).0
    case Live(row) =>
      var d' := Drain(d, Survives).0;
      d'.(main := d'.main + LiveLine(row) + [NL])
  }

  function Run(d: Disk, evs: seq<Event>): Disk
    decreases |evs|
  {
    if evs == [] then d else Run(Perform(d, evs[0]), evs[1..])
  }

  // ---- Exactly once ----------------------------------------------------------------------

  /** What `QALog.write` puts in an entry: one row. */
  predicate OneRow(e: Entry) {
    e.content.Rows? && |e.content.rows| == 1
  }

  function LineOf(e: Entry): string
    requires OneRow(e)
  {
    SpilledLine(e.content.rows[0], e.stem, 0)
  }

  /** The bytes every one-row entry of this name ends with, and no other row does. */
  function Mark(stem: Stem): string { Tag(stem, 0) + [NL] }

  function EventLines(ev: Event): seq<string>
    requires ev.Publishes? ==> OneRow(ev.entry)
  {
    match ev
    case Publishes(e) => [LineOf(e)]
    case DrainDies(_, _) => []
    case Live(row) => [LiveLine(row)]
  }

  /** One line per record, in the order the records were finished. */
  function Ledger(evs: seq<Event>): seq<string>
    requires forall ev :: ev in evs && ev.Publishes? ==> OneRow(ev.entry)
  {
    if evs == [] then [] else EventLines(evs[0]) + Ledger(evs[1..])
  }

  function EntryLines(parts: seq<Entry>): seq<string>
    requires forall e :: e in parts ==> OneRow(e)
  {
    if parts == [] then [] else [LineOf(parts[0])] + EntryLines(parts[1..])
  }

  /** Names grow along the run, and `first` is no larger than any of them. */
  ghost predicate InNameOrder(listed: seq<Entry>, evs: seq<Event>) {
    && (forall i, j :: 0 <= i < j < |listed| ==> Before(listed[i].stem, listed[j].stem))
    && (forall i, j :: 0 <= i < |listed| && 0 <= j < |evs| && evs[j].Publishes? ==>
                         Before(listed[i].stem, evs[j].entry.stem))
    && (forall i, j :: 0 <= i < j < |evs| && evs[i].Publishes? && evs[j].Publishes? ==>
                         Before(evs[i].entry.stem, evs[j].entry.stem))
  }

  lemma BeforeIsStrict(a: string, b: string)
    requires Before(a, b)
    ensures a != b && !Before(b, a)
  {
    LeTotal(a, b);
  }

  lemma {:induction false} ListedLast(parts: seq<Entry>, e: Entry)
    requires forall i :: 0 <= i < |parts| ==> Before(parts[i].stem, e.stem)
    ensures Listed(parts, e) == parts + [e]
  {
    if parts != [] {
      BeforeIsStrict(parts[0].stem, e.stem);
      ListedLast(parts[1..], e);
    }
  }

  /**
   * `main` is `base`, which holds whole lines only, followed by the beginning of the first
   * listed entry's row; and `base` carries the mark of no listed or later name.
   */
  ghost predicate Settled(d: Disk, base: string, later: set<Stem>) {
    && (forall e :: e in d.parts ==> OneRow(e) && e.stem !in later && !EndsWith(base, Mark(e.stem)))
    && (forall stem :: stem in later ==> !EndsWith(base, Mark(stem)))
    && Whole(base)
    && base <= d.main
    && (if d.parts == [] then d.main == base
        else d.main[|base|..] <= LineOf(d.parts[0]) + [NL])
  }

  lemma DataOfOneRow(e: Entry)
    requires OneRow(e)
    ensures SpillData(e) == Some(LineOf(e) + [NL])
    ensures EndsWith(LineOf(e) + [NL], Mark(e.stem))
  {
    var ls := SpilledLines(e.content.rows, e.stem, 0);
    assert ls == [LineOf(e)];
    assert Closed(ls[1..]) == "";
    assert LineOf(e) + [NL] + "" == LineOf(e) + [NL];
    EndsWithConcat("{" + e.content.rows[0] + ", \"_audit_spill_id\": \"", Mark(e.stem), Mark(e.stem));
    assert LineOf(e) + [NL] == "{" + e.content.rows[0] + ", \"_audit_spill_id\": \"" + Mark(e.stem);
  }

  lemma MarksDiffer(s: string, a: Stem, b: Stem)
    requires EndsWith(s, Mark(a)) && EndsWith(s, Mark(b))
    ensures a == b
  {
    EndingsAgree(s, Mark(a), Mark(b));
    assert Mark(a)[..STEM_LENGTH] == a && Mark(b)[..STEM_LENGTH] == b;
  }

  lemma {:induction false} AfterLastBreakIs(x: string, t: string)
    requires Whole(x) && NL !in t
    ensures AfterLastBreak(x + t) == t
  {
    if t == "" {
      assert x + t == x;
    } else {
      AfterLastBreakIs(x, t[..|t| - 1]);
      assert (x + t)[..|x + t| - 1] == x + t[..|t| - 1];
    }
  }

  lemma NotYetThere(base: string, t: string, e: Entry)
    requires OneRow(e) && !EndsWith(base, Mark(e.stem)) && NL !in t
    ensures !EndsWith(base + t, LineOf(e) + [NL])
  {
    var data := LineOf(e) + [NL];
    DataOfOneRow(e);
    if t == "" {
      assert base + t == base;
      EndsWithTrans(base, data, Mark(e.stem));
    } else {
      assert (base + t)[|base + t| - 1] == t[|t| - 1];
    }
  }

  /** What stands before the last, unfinished line. */
  function WholePart(s: string): (base: string)
    ensures base <= s
  {
    AfterBreakWhole(s);
    s[..|s| - |AfterLastBreak(s)|]
  }

  lemma {:induction false} AfterBreakWhole(s: string)
    ensures |AfterLastBreak(s)| <= |s|
    ensures Whole(s[..|s| - |AfterLastBreak(s)|])
    ensures AfterLastBreak(s) == "" <==> Whole(s)
  {
    if s != "" && s[|s| - 1] != NL {
      AfterBreakWhole(s[..|s| - 1]);
      var t := AfterLastBreak(s[..|s| - 1]);
      assert s[..|s| - |t| - 1] == s[..|s| - 1][..|s| - 1 - |t|];
    }
  }

  lemma Parted(s: string)
    ensures s == WholePart(s) + AfterLastBreak(s) && Whole(WholePart(s)) && NL !in AfterLastBreak(s)
    ensures Whole(s) <==> AfterLastBreak(s) == ""
    ensures Whole(s) ==> WholePart(s) == s
  {
    AfterLastBreakEnds(s);
    AfterBreakWhole(s);
    EndsSplit(s, AfterLastBreak(s));
  }

  lemma WholePartIs(base: string, t: string)
    requires Whole(base) && NL !in t
    ensures WholePart(base + t) == base && AfterLastBreak(base + t) == t
  {
    AfterLastBreakIs(base, t);
  }

  lemma MissingAfterWholeLines(base: string, data: string)
    requires Whole(base) && data != "" && !EndsWith(base, data)
    ensures Missing(base, data) == Some(data)
  {
    var tail := base[if |base| < |data| then 0 else |base| - |data|..];
    assert tail == "" || tail[|tail| - 1] == base[|base| - 1];
  }

  /** A torn row is recognised by its bytes, and only the rest of it is written. */
  lemma MissingAfterTear(base: string, t: string, data: string)
    requires Whole(base) && t != "" && NL !in t && |t| < |data| && !EndsWith(base + t, data)
    ensures Missing(base + t, data) == if t <= data then Some(data[|t|..]) else None
  {
    var main := base + t;
    var from := if |main| < |data| then 0 else |main| - |data|;
    var x := base[from..];
    assert main[from..] == x + t;
    assert x == "" || x[|x| - 1] == base[|base| - 1];
    AfterLastBreakIs(x, t);
  }

  lemma LongTear(base: string, t: string, data: string)
    requires NL !in t && data != "" && |t| >= |data| && data[|data| - 1] == NL && !EndsWith(base + t, data)
    ensures Missing(base + t, data) == None
  {
    var tail := t[|t| - |data|..];
    assert (base + t)[|base + t| - |data|..] == tail;
    assert tail[|data| - 1] == t[|t| - 1] != NL;
    AfterLastBreakIs("", tail);
    assert "" + tail == tail;
  }

  /** What is missing, for any torn end `t`: nothing, the rest behind `t`, or the drain raises. */
  lemma MissingIs(base: string, t: string, data: string)
    requires Whole(base) && NL !in t && data != "" && data[|data| - 1] == NL
    ensures Missing(base + t, data)
         == if EndsWith(base + t, data) then Some("") else if t <= data then Some(data[|t|..]) else None
  {
    if !EndsWith(base + t, data) {
      if t == "" {
        assert base + t == base;
        MissingAfterWholeLines(base, data);
      } else if |t| < |data| {
        MissingAfterTear(base, t, data);
      } else {
        LongTear(base, t, data);
        assert NL !in t && NL in data;
        assert t == data ==> false;
      }
    }
  }

  lemma SharedBeginning(t: string, line: string)
    requires NL !in t
    ensures t <= line + [NL] <==> t <= line
  {
    assert |t| == |line| + 1 ==> t[|line|] != NL;
  }

  lemma Completes(base: string, t: string, data: string)
    requires t <= data
    ensures base + t + data[|t|..] == base + data
  {
  }

  lemma PendingIs(base: string, t: string, e: Entry)
    requires Whole(base) && NL !in t && OneRow(e)
    ensures var data := LineOf(e) + [NL];
            Pending(base + t, e)
            == if EndsWith(base + t, data) then Some("") else if t <= LineOf(e) then Some(data[|t|..]) else None
  {
    DataOfOneRow(e);
    MissingIs(base, t, LineOf(e) + [NL]);
    SharedBeginning(t, LineOf(e));
  }

  /** The beginning `t` of an entry's row is completed to the whole row. */
  lemma CompletesTorn(base: string, t: string, e: Entry)
    requires Whole(base) && OneRow(e) && !EndsWith(base, Mark(e.stem)) && t <= LineOf(e)
    ensures Pending(base + t, e) == Some((LineOf(e) + [NL])[|t|..])
  {
    hide EndsWith, Whole, Missing, Mark, SpilledLine;
    var data := LineOf(e) + [NL];
    DataOfOneRow(e);
    BeginningHasNoBreak(t, LineOf(e));
    NotYetThere(base, t, e);
    if t == "" {
      assert base + t == base && data[|t|..] == data;
      MissingAfterWholeLines(base, data);
    } else {
      MissingAfterTear(base, t, data);
      assert t <= data;
    }
  }

  lemma BeginningHasNoBreak(t: string, line: string)
    requires t <= line && NL !in line
    ensures NL !in t
  {
    assert t == line[..|t|];
  }

  lemma NothingMissing(base: string, e: Entry)
    requires OneRow(e)
    ensures Pending(base + (LineOf(e) + [NL]), e) == Some("")
  {
    DataOfOneRow(e);
    assert EndsWith(base + (LineOf(e) + [NL]), LineOf(e) + [NL]);
  }

  lemma Prefixes(t: string, line: string)
    requires t <= line + [NL]
    ensures t == line + [NL] || t <= line
  {
    if |t| <= |line| {
      assert t == (line + [NL])[..|t|] == line[..|t|];
    }
  }

  /** The first listed entry is completed, wherever the last drain stopped writing it. */
  lemma CompletesFirst(d: Disk, base: string, later: set<Stem>)
    requires Settled(d, base, later) && d.parts != []
    ensures Pending(d.main, d.parts[0]).Some?
    ensures d.main + Pending(d.main, d.parts[0]).value == base + (LineOf(d.parts[0]) + [NL])
  {
    hide EndsWith, Whole, Pending, SpilledLine;
    var e := d.parts[0];
    var t := d.main[|base|..];
    assert d.main == base + t;
    Prefixes(t, LineOf(e));
    if t == LineOf(e) + [NL] {
      NothingMissing(base, e);
    } else {
      CompletesTorn(base, t, e);
      Completes(base, t, LineOf(e) + [NL]);
    }
  }

  /** After an entry is complete, the file is settled again for the ones that follow. */
  lemma SettledNext(d: Disk, base: string, later: set<Stem>)
    requires Settled(d, base, later) && d.parts != []
    requires forall i, j :: 0 <= i < j < |d.parts| ==> Before(d.parts[i].stem, d.parts[j].stem)
    ensures var base' := base + (LineOf(d.parts[0]) + [NL]);
            Settled(Disk(base', d.parts[1..]), base', later)
  {
    var e := d.parts[0];
    var base' := base + (LineOf(e) + [NL]);
    DataOfOneRow(e);
    EndsWithConcat(base, LineOf(e) + [NL], Mark(e.stem));
    forall stem: Stem | stem != e.stem ensures !EndsWith(base', Mark(stem)) {
      if EndsWith(base', Mark(stem)) {
        MarksDiffer(base', stem, e.stem);
      }
    }
    forall i | 1 <= i < |d.parts| ensures d.parts[i].stem != e.stem {
      BeforeIsStrict(e.stem, d.parts[i].stem);
    }
  }

  lemma DyingKeepsSettled(d: Disk, base: string, later: set<Stem>, p: string, written: nat)
    requires Settled(d, base, later) && d.parts != []
    requires d.main + p == base + (LineOf(d.parts[0]) + [NL])
    ensures Settled(d.(main := d.main + p[..Min(written, |p|)]), base, later)
  {
    var main' := d.main + p[..Min(written, |p|)];
    var data := LineOf(d.parts[0]) + [NL];
    assert main' == (d.main + p)[..|main'|];
    assert main'[|base|..] == data[..|main'| - |base|];
  }

  /** What a drain promises about a settled file. */
  ghost predicate Resettled(d: Disk, base: string, later: set<Stem>, d': Disk, base': string) {
    && (forall e :: e in d.parts ==> OneRow(e))
    && (exists k :: 0 <= k <= |d.parts| && d'.parts == d.parts[k..])
    && Settled(d', base', later)
    && base' + Closed(EntryLines(d'.parts)) == base + Closed(EntryLines(d.parts))
  }

  lemma LedgerNext(base: string, parts: seq<Entry>)
    requires parts != [] && forall e :: e in parts ==> OneRow(e)
    ensures base + (LineOf(parts[0]) + [NL]) + Closed(EntryLines(parts[1..])) == base + Closed(EntryLines(parts))
  {
    var ls := EntryLines(parts);
    assert ls[0] == LineOf(parts[0]) && ls[1..] == EntryLines(parts[1..]);
  }

  lemma SuffixNext(whole: seq<Entry>, rest: seq<Entry>)
    requires whole != [] && exists k :: 0 <= k <= |whole| - 1 && rest == whole[1..][k..]
    ensures exists k :: 0 <= k <= |whole| && rest == whole[k..]
  {
    var k :| 0 <= k <= |whole| - 1 && rest == whole[1..][k..];
    assert rest == whole[k + 1..];
  }

  /**
   * A drain, dying anywhere or not at all, leaves the file settled around the same ledger:
   * what it merged moved from the listing to the base, in order, and nothing was lost.
   */
  lemma {:induction false} DrainSettles(d: Disk, base: string, later: set<Stem>, fate: Fate) returns (base': string)
    requires Settled(d, base, later)
    requires forall i, j :: 0 <= i < j < |d.parts| ==> Before(d.parts[i].stem, d.parts[j].stem)
    ensures Resettled(d, base, later, Drain(d, fate).0, base')
    ensures fate.Survives? ==> Drain(d, fate).1.Merged? && Drain(d, fate).0.parts == []
    ensures !Drain(d, fate).1.Failed?
    decreases |d.parts|
  {
    base' := base;
    if d.parts == [] {
      assert d.parts[0..] == d.parts;
    } else {
      CompletesFirst(d, base, later);
      var p := Pending(d.main, d.parts[0]).value;
      if fate.Dies? && fate.entry == 0 {
        DyingKeepsSettled(d, base, later, p, fate.written);
        assert d.parts[0..] == d.parts;
      } else {
        SettledNext(d, base, later);
        var rest := Later(fate, 1);
        var next := Disk(d.main + p, d.parts[1..]);
        base' := DrainSettles(next, d.main + p, later, rest);
        SuffixNext(d.parts, Drain(next, rest).0.parts);
        LedgerNext(base, d.parts);
      }
    }
  }

  /** What is appended for the first entry has one line, unless only its line break is missing or nothing is. */
  lemma RestIsOneLine(line: string, from: nat)
    requires NL !in line && line != "" && !IsBlank([line[|line| - 1]]) && from <= |line| + 1
    ensures NonBlank(Lines((line + [NL])[from..])) == if from < |line| then 1 else 0
  {
    if from <= |line| {
      var rest := line[from..];
      assert (line + [NL])[from..] == rest + [NL];
      LinesOfOne(rest);
      if rest != "" {
        assert rest[|rest| - 1] == line[|line| - 1];
      }
      assert Lines(rest + [NL])[1..] == [];
    } else {
      assert (line + [NL])[from..] == "";
    }
  }

  /**
   * The number a complete drain reports: one for each listed entry, except for a first one whose
   * row a drain that died had written to its last brace.
   */
  lemma {:induction false} MergedLinesCount(d: Disk, base: string, later: set<Stem>)
    requires Settled(d, base, later)
    requires forall i, j :: 0 <= i < j < |d.parts| ==> Before(d.parts[i].stem, d.parts[j].stem)
    ensures MergedLines(d) == |d.parts| - if d.parts != [] && LineOf(d.parts[0]) <= d.main[|base|..] then 1 else 0
    decreases |d.parts|
  {
    hide Settled;
    if d.parts != [] {
      CountedFirst(d, base, later);
      SettledNext(d, base, later);
      var next := base + (LineOf(d.parts[0]) + [NL]);
      MergedLinesCount(Disk(next, d.parts[1..]), next, later);
      assert next[|next|..] == "";
    }
  }

  lemma CountedFirst(d: Disk, base: string, later: set<Stem>)
    requires Settled(d, base, later) && d.parts != []
    ensures OneRow(d.parts[0]) && base <= d.main
    ensures MergedLines(d) == (if LineOf(d.parts[0]) <= d.main[|base|..] then 0 else 1)
                              + MergedLines(Disk(base + (LineOf(d.parts[0]) + [NL]), d.parts[1..]))
  {
    CompletesFirst(d, base, later);
    DrainStep(d, Survives);
    hide MergedLines, Pending, LineOf, NonBlank, Lines;
    var p := Pending(d.main, d.parts[0]).value;
    var t := d.main[|base|..];
    assert t <= LineOf(d.parts[0]) + [NL];
    hide Settled;
    assert d.main == base + t;
    CountedRest(base, t, p, d.parts[0]);
  }

  lemma CountedRest(base: string, t: string, p: string, e: Entry)
    requires OneRow(e) && t <= LineOf(e) + [NL] && base + t + p == base + (LineOf(e) + [NL])
    ensures NonBlank(Lines(p)) == if LineOf(e) <= t then 0 else 1
  {
    hide LineOf, NonBlank, IsBlank, Lines;
    Prefixes(t, LineOf(e));
    RestOf(base, t, p, LineOf(e) + [NL]);
    EndsInBrace(e);
    RestIsOneLine(LineOf(e), |t|);
    assert LineOf(e) <= t <==> |t| >= |LineOf(e)|;
  }

  lemma RestOf(base: string, t: string, p: string, data: string)
    requires base + t + p == base + data
    ensures |t| <= |data| && p == data[|t|..]
  {
    assert t + p == (base + t + p)[|base|..] == (base + data)[|base|..] == data;
  }

  lemma EndsInBrace(e: Entry)
    requires OneRow(e)
    ensures LineOf(e) != "" && NL !in LineOf(e) && !IsBlank([LineOf(e)[|LineOf(e)| - 1]])
  {
    assert LineOf(e)[|LineOf(e)| - 1] == '}';
    assert '}' in ['}'];
  }

  // ---- Runs --------------------------------------------------------------------------------

  function Names(evs: seq<Event>): set<Stem> {
    set ev | ev in evs && ev.Publishes? :: ev.entry.stem
  }

  /** What the claim asks of a run that starts from the file `main`. */
  ghost predicate Orderly(d: Disk, evs: seq<Event>) {
    && InNameOrder(d.parts, evs)
    && (forall ev :: ev in evs && ev.Publishes? ==> OneRow(ev.entry))
    && (forall ev, stem :: ev in evs && ev.Live? && stem in Names(evs) ==>
                             !EndsWith(LiveLine(ev.row) + [NL], Mark(stem)))
  }

  lemma OrderlyRest(d: Disk, d': Disk, evs: seq<Event>)
    requires Orderly(d, evs) && evs != []
    requires (exists k :: 0 <= k <= |d.parts| && d'.parts == d.parts[k..])
          || (evs[0].Publishes? && d'.parts == d.parts + [evs[0].entry])
    ensures Orderly(d', evs[1..])
    ensures Names(evs[1..]) <= Names(evs)
    ensures evs[0].Publishes? ==> evs[0].entry.stem !in Names(evs[1..])
  {
    var rest := evs[1..];
    forall ev | ev in rest ensures ev in evs {}
    forall j | 0 <= j < |rest| ensures rest[j] == evs[j + 1] {}
    if evs[0].Publishes? {
      forall ev | ev in rest && ev.Publishes? ensures ev.entry.stem != evs[0].entry.stem {
        var j :| 0 <= j < |rest| && rest[j] == ev;
        BeforeIsStrict(evs[0].entry.stem, evs[j + 1].entry.stem);
      }
    }
  }

  /** A live row after whole lines carries a mark only if it carries it by itself. */
  lemma MarkWithinRow(base: string, line: string, stem: Stem)
    requires Whole(base) && NL !in line && EndsWith(base + (line + [NL]), Mark(stem))
    ensures EndsWith(line + [NL], Mark(stem))
  {
    var s, m := base + (line + [NL]), Mark(stem);
    assert forall at :: 0 <= at < |m| - 1 ==> m[at] == Tag(stem, 0)[at];
    assert forall at :: |s| - |m| <= at < |s| - 1 ==> s[at] == m[at - (|s| - |m|)];
    assert base != "" ==> s[|base| - 1] == NL;
    assert |base| <= |s| - |m|;
  }

  lemma SettledWithNew(d: Disk, base: string, e: Entry, later: set<Stem>, later': set<Stem>)
    requires Settled(d, base, later) && OneRow(e) && e.stem in later && e.stem !in later' && later' <= later
    ensures Settled(d.(parts := d.parts + [e]), base, later')
    ensures Closed(EntryLines(d.parts + [e])) == Closed(EntryLines(d.parts)) + (LineOf(e) + [NL])
  {
    EntryLinesConcat(d.parts, [e]);
    assert EntryLines([e]) == [LineOf(e)];
    ClosedConcat(EntryLines(d.parts), [LineOf(e)]);
    ClosedOne(LineOf(e));
  }

  lemma {:induction false} EntryLinesConcat(a: seq<Entry>, b: seq<Entry>)
    requires forall e :: e in a + b ==> OneRow(e)
    ensures forall e :: e in a || e in b ==> OneRow(e)
    ensures EntryLines(a + b) == EntryLines(a) + EntryLines(b)
  {
    forall e | e in a || e in b ensures e in a + b {}
    if a == [] {
      assert a + b == b;
    } else {
      assert (a + b)[1..] == a[1..] + b;
      EntryLinesConcat(a[1..], b);
    }
  }

  lemma SettledAfterRow(d: Disk, base: string, row: Fields, later: set<Stem>)
    requires Settled(d, base, later) && d.parts == []
    requires forall stem :: stem in later ==> !EndsWith(LiveLine(row) + [NL], Mark(stem))
    ensures var main := base + (LiveLine(row) + [NL]); Settled(Disk(main, []), main, later)
  {
    forall stem | stem in later ensures !EndsWith(base + (LiveLine(row) + [NL]), Mark(stem)) {
      if EndsWith(base + (LiveLine(row) + [NL]), Mark(stem)) {
        MarkWithinRow(base, LiveLine(row), stem);
      }
    }
  }

  lemma LedgerHead(evs: seq<Event>)
    requires evs != [] && forall ev :: ev in evs && ev.Publishes? ==> OneRow(ev.entry)
    ensures forall ev :: ev in evs[1..] && ev.Publishes? ==> OneRow(ev.entry)
    ensures evs[0].Publishes? ==> OneRow(evs[0].entry)
    ensures Closed(Ledger(evs)) == Closed(EventLines(evs[0])) + Closed(Ledger(evs[1..]))
  {
    ClosedConcat(EventLines(evs[0]), Ledger(evs[1..]));
  }

  /** One event of a run: the file stays settled, and the ledger grows by that event's line. */
  lemma EventSettles(d: Disk, base: string, evs: seq<Event>) returns (base': string)
    requires evs != [] && Orderly(d, evs) && Settled(d, base, Names(evs))
    ensures var d' := Perform(d, evs[0]);
            && Orderly(d', evs[1..]) && Settled(d', base', Names(evs[1..]))
            && base' + Closed(EntryLines(d'.parts)) + Closed(Ledger(evs[1..]))
            == base + Closed(EntryLines(d.parts)) + Closed(Ledger(evs))
  {
    match evs[0] {
      case Publishes(e) =>
        PublishSettles(d, base, e, evs);
        base' := base;
      case DrainDies(i, k) =>
        base' := DeathSettles(d, base, i, k, evs);
      case Live(row) =>
        base' := LiveSettles(d, base, row, evs);
    }
  }

  lemma DeathSettles(d: Disk, base: string, i: nat, k: nat, evs: seq<Event>) returns (base': string)
    requires evs != [] && evs[0] == DrainDies(i, k) && Orderly(d, evs) && Settled(d, base, Names(evs))
    ensures var d' := Drain(d, Dies(i, k)).0;
            && Orderly(d', evs[1..]) && Settled(d', base', Names(evs[1..]))
            && base' + Closed(EntryLines(d'.parts)) + Closed(Ledger(evs[1..]))
            == base + Closed(EntryLines(d.parts)) + Closed(Ledger(evs))
  {
    LedgerHead(evs);
    assert "" + Closed(Ledger(evs[1..])) == Closed(Ledger(evs[1..]));
    base' := DrainSettles(d, base, Names(evs), Dies(i, k));
    OrderlyRest(d, Drain(d, Dies(i, k)).0, evs);
  }

  lemma PublishSettles(d: Disk, base: string, e: Entry, evs: seq<Event>)
    requires evs != [] && evs[0] == Publishes(e) && Orderly(d, evs) && Settled(d, base, Names(evs))
    ensures Perform(d, evs[0]) == Disk(d.main, d.parts + [e])
    ensures Orderly(Disk(d.main, d.parts + [e]), evs[1..])
    ensures Settled(Disk(d.main, d.parts + [e]), base, Names(evs[1..]))
    ensures base + Closed(EntryLines(d.parts + [e])) + Closed(Ledger(evs[1..]))
         == base + Closed(EntryLines(d.parts)) + Closed(Ledger(evs))
  {
    assert evs[0] in evs && e.stem in Names(evs);
    ListedLast(d.parts, e);
    OrderlyRest(d, Disk(d.main, d.parts + [e]), evs);
    SettledWithNew(d, base, e, Names(evs), Names(evs[1..]));
    LedgerHead(evs);
    ClosedOne(LineOf(e));
    Regroup(base, Closed(EntryLines(d.parts)), LineOf(e) + [NL], Closed(Ledger(evs[1..])));
  }

  lemma Regroup(a: string, b: string, c: string, d: string)
    ensures a + (b + c) + d == a + b + (c + d)
  {
  }

  lemma LiveSettles(d: Disk, base: string, row: Fields, evs: seq<Event>) returns (base': string)
    requires evs != [] && evs[0] == Live(row) && Orderly(d, evs) && Settled(d, base, Names(evs))
    ensures var d' := Perform(d, Live(row));
            && Orderly(d', evs[1..]) && Settled(d', base', Names(evs[1..]))
            && base' + Closed(EntryLines(d'.parts)) + Closed(Ledger(evs[1..]))
            == base + Closed(EntryLines(d.parts)) + Closed(Ledger(evs))
  {
    LedgerHead(evs);
    assert evs[0] in evs;
    base' := RowSettles(d, base, row, Names(evs));
    assert d.parts[|d.parts|..] == [];
    OrderlyRest(d, Disk(base', []), evs);
    ClosedOne(LiveLine(row));
    Joins(base + Closed(EntryLines(d.parts)), LiveLine(row) + [NL], Closed(Ledger(evs[1..])));
  }

  lemma Joins(a: string, b: string, c: string)
    ensures a + b + "" + c == a + (b + c)
  {
  }

  lemma RowSettles(d: Disk, base: string, row: Fields, later: set<Stem>) returns (base': string)
    requires Settled(d, base, later)
    requires forall i, j :: 0 <= i < j < |d.parts| ==> Before(d.parts[i].stem, d.parts[j].stem)
    requires forall stem :: stem in later ==> !EndsWith(LiveLine(row) + [NL], Mark(stem))
    ensures Perform(d, Live(row)) == Disk(base', []) && Settled(Disk(base', []), base', later)
    ensures base' == base + Closed(EntryLines(d.parts)) + (LiveLine(row) + [NL])
  {
    var base1 := DrainSettles(d, base, later, Survives);
    assert base1 + Closed(EntryLines([])) == base1;
    SettledAfterRow(Drain(d, Survives).0, base1, row, later);
    base' := base1 + (LiveLine(row) + [NL]);
    assert base1 + LiveLine(row) + [NL] == base';
  }

  lemma {:induction false} RunSettles(d: Disk, base: string, evs: seq<Event>)
    requires Orderly(d, evs) && Settled(d, base, Names(evs))
    ensures Drain(Run(d, evs), Survives)
         == (Disk(base + Closed(EntryLines(d.parts)) + Closed(Ledger(evs)), []), Merged)
    decreases |evs|
  {
    if evs == [] {
      var base' := DrainSettles(d, base, {}, Survives);
      var d' := Drain(d, Survives).0;
      assert d'.main == base';
      assert base' + Closed(EntryLines([])) == base';
      assert base + Closed(EntryLines(d.parts)) + "" == base + Closed(EntryLines(d.parts));
    } else {
      var base' := EventSettles(d, base, evs);
      RunSettles(Perform(d, evs[0]), base', evs[1..]);
    }
  }

  lemma {:induction false} LedgerHasNoBreaks(evs: seq<Event>)
    requires forall ev :: ev in evs && ev.Publishes? ==> OneRow(ev.entry)
    ensures forall i :: 0 <= i < |Ledger(evs)| ==> NL !in Ledger(evs)[i]
  {
    if evs != [] {
      LedgerHasNoBreaks(evs[1..]);
    }
  }

  /**
   * Records published in name order while drains die again and again, at any byte of an append
   * or between append and unlink: one complete drain leaves the file with its old lines and then
   * every record as one whole line, in order, and nothing left to merge.
   */
  lemma EveryRecordOnceInOrder(start: string, evs: seq<Event>)
    requires Whole(start) && Orderly(Disk(start, []), evs)
    requires forall stem :: stem in Names(evs) ==> !EndsWith(start, Mark(stem))
    ensures var (d, outcome) := Drain(Run(Disk(start, []), evs), Survives);
            && outcome == Merged && d.parts == []
            && d.main == start + Closed(Ledger(evs))
            && Whole(d.main) && Lines(d.main) == Lines(start) + Ledger(evs)
  {
    RunSettles(Disk(start, []), start, evs);
    assert start + Closed(EntryLines([])) == start;
    LedgerHasNoBreaks(evs);
    LinesOfClosed(Ledger(evs));
    LinesConcat(start, Closed(Ledger(evs)));
    ClosedWhole(Ledger(evs));
  }
}
