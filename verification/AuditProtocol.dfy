/**
 * Every interleaving of the processes around one audit file: lock holders that drain and append,
 * writers that time out and publish an entry, the retention pass that filters and replaces the
 * file, and deaths at any point (src/tybot/audit.py).
 */
module AuditProtocol {
  import opened Basics
  import opened Text
  import opened AuditDrain

  datatype Record =
    | Direct(row: Fields)
    | Spilled(stem: Stem, index: nat, row: Fields)

  /** The line by which the main file shows the record. */
  function RecordLine(r: Record): (line: string)
    ensures NL !in line
  {
    match r
    case Direct(row) => LiveLine(row)
    case Spilled(stem, index, row) => SpilledLine(row, stem, index)
  }

  /** What the process inside the lock is doing. `todo` is the listing it took on entering. */
  datatype Lock =
    | Free
    | Draining(todo: seq<Entry>)
    | Appended(entry: Entry, todo: seq<Entry>)
    | Drained(complete: bool)

  datatype State = State(
    main: string,
    parts: seq<Entry>,
    temporary: set<Stem>,
    lock: Lock,
    finished: set<Record>,
    expired: set<Record>)

  datatype Step =
    | Acquire
    | MergeNext
    | Unlink
    | ListingDone
    | AppendRow(row: Fields)
    | Rewrite(dropped: set<nat>, expiring: set<Record>)
    | Release
    | Die(written: nat)
    | OpenTemporary(stem: Stem)
    | PublishEntry(e: Entry)
    | AbandonTemporary(stem: Stem)

  /** A log file as it stood before, nothing under way. */
  function StartWith(main: string): State { State(main, [], {}, Free, {}, {}) }

  const START := StartWith("")

  function RecordsOf(e: Entry): set<Record> {
    match e.content
    case Rows(rows) => set i | 0 <= i < |rows| :: Spilled(e.stem, i, rows[i])
    case _ => {}
  }

  function Without(parts: seq<Entry>, e: Entry): seq<Entry> {
    if parts == [] then []
    else (if parts[0] == e then [] else [parts[0]]) + Without(parts[1..], e)
  }

  lemma {:induction false} InWithout(parts: seq<Entry>, e: Entry, x: Entry)
    ensures x in Without(parts, e) <==> x in parts && x != e
  {
    if parts != [] {
      InWithout(parts[1..], e, x);
      assert x in parts <==> x == parts[0] || x in parts[1..];
    }
  }

  lemma InListed(parts: seq<Entry>, e: Entry, x: Entry)
    ensures x in Listed(parts, e) <==> x in parts || x == e
  {
    assert x in multiset(Listed(parts, e)) <==> x in multiset(parts) + multiset{e};
  }

  /** The lines, numbered from `at` on, without those whose number is dropped. */
  function Kept(ls: seq<string>, dropped: set<nat>, at: nat): seq<string> {
    if ls == [] then []
    else (if at in dropped then [] else [ls[0]]) + Kept(ls[1..], dropped, at + 1)
  }

  /** Retention drops a line only when every finished record that ends on it has expired. */
  ghost predicate DropsExpiredOnly(s: State, dropped: set<nat>, expiring: set<Record>) {
    forall i, r :: 0 <= i < |Lines(s.main)| && i in dropped && r in s.finished && EndsWith(Lines(s.main)[i], RecordLine(r)) ==>
      r in expiring
  }

  /** One atomic step; a step that is not possible in `s` leaves it unchanged. */
  ghost function Apply(s: State, step: Step): State {
    match step
    case Acquire =>
      if s.lock.Free? then s.(lock := Draining(s.parts)) else s
    case MergeNext =>
      if s.lock.Draining? && s.lock.todo != [] then
        match Pending(s.main, s.lock.todo[0])
        case None => s.(lock := Drained(false))
        case Some(p) => s.(main := s.main + p, lock := Appended(s.lock.todo[0], s.lock.todo[1..]))
      else s
    case Unlink =>
      if s.lock.Appended? then s.(parts := Without(s.parts, s.lock.entry), lock := Draining(s.lock.todo)) else s
    case ListingDone =>
      if s.lock == Draining([]) then s.(lock := Drained(true)) else s
    case AppendRow(row) =>
      if s.lock.Drained? then
        s.(main := s.main + (LiveLine(row) + [NL]), finished := s.finished + {Direct(row)}, lock := Free)
      else s
    case Rewrite(dropped, expiring) =>
      if s.lock == Drained(true) && DropsExpiredOnly(s, dropped, expiring) then
        s.(main := Closed(Kept(Lines(s.main), dropped, 0)), expired := s.expired + expiring, lock := Free)
      else s
    case Release =>
      if s.lock.Drained? then s.(lock := Free) else s
    case Die(written) =>
      if s.lock.Draining? && s.lock.todo != [] && Pending(s.main, s.lock.todo[0]).Some? then
        var p := Pending(s.main, s.lock.todo[0]).value;
        s.(main := s.main + p[..Min(written, |p|)], lock := Free)
      else s.(lock := Free)
    case OpenTemporary(stem) =>
      s.(temporary := s.temporary + {stem})
    case PublishEntry(e) =>
      if e.stem in s.temporary then
        s.(temporary := s.temporary - {e.stem}, parts := Listed(s.parts, e), finished := s.finished + RecordsOf(e))
      else s
    case AbandonTemporary(stem) =>
      s.(temporary := s.temporary - {stem})
  }

  ghost function RunSteps(s: State, steps: seq<Step>): State
    decreases |steps|
  {
    if steps == [] then s else RunSteps(Apply(s, steps[0]), steps[1..])
  }

  // ---- No record is lost -----------------------------------------------------------------------

  predicate At(main: string, line: string, k: nat) {
    k + |line| < |main| && main[k..k + |line| + 1] == line + [NL]
  }

  /** The bytes of the line and its break stand somewhere in the file. */
  ghost predicate Shows(main: string, line: string) {
    exists k :: At(main, line, k)
  }

  ghost predicate Recorded(s: State, r: Record) {
    Shows(s.main, RecordLine(r)) || exists e :: e in s.parts && r in RecordsOf(e)
  }

  /** The holder's entry has its bytes at the end of the file before it is unlinked. */
  ghost predicate LockSound(s: State) {
    s.lock.Appended? ==>
      && SpillData(s.lock.entry).Some?
      && EndsWith(s.main, SpillData(s.lock.entry).value)
  }

  ghost predicate Safe(s: State) {
    LockSound(s) && forall r :: r in s.finished && r !in s.expired ==> Recorded(s, r)
  }

  lemma ShowsMore(main: string, line: string, more: string)
    requires Shows(main, line)
    ensures Shows(main + more, line)
  {
    var k: nat :| At(main, line, k);
    assert (main + more)[k..k + |line| + 1] == main[k..k + |line| + 1];
    assert At(main + more, line, k);
  }

  lemma ShowsAfter(before: string, main: string, line: string)
    requires Shows(main, line)
    ensures Shows(before + main, line)
  {
    var k: nat :| At(main, line, k);
    assert (before + main)[|before| + k..|before| + k + |line| + 1] == main[k..k + |line| + 1];
    assert At(before + main, line, |before| + k);
  }

  lemma ShowsLast(before: string, line: string)
    ensures Shows(before + (line + [NL]), line)
  {
    assert At(before + (line + [NL]), line, |before|);
  }

  /** Lines written back are shown, and so is every ending of one of them. */
  lemma {:induction false} ClosedShows(ls: seq<string>, i: nat, line: string)
    requires i < |ls| && EndsWith(ls[i], line)
    ensures Shows(Closed(ls), line)
  {
    if i == 0 {
      var cut := ls[0][..|ls[0]| - |line|];
      ShowsLast(cut, line);
      assert cut + (line + [NL]) == ls[0] + [NL];
      ShowsMore(ls[0] + [NL], line, Closed(ls[1..]));
    } else {
      ClosedShows(ls[1..], i - 1, line);
      ShowsAfter(ls[0] + [NL], Closed(ls[1..]), line);
    }
  }

  lemma AtChars(main: string, line: string, k: nat)
    requires At(main, line, k)
    ensures forall i :: k <= i < k + |line| ==> main[i] == line[i - k]
    ensures main[k + |line|] == NL
  {
    assert forall i :: k <= i < k + |line| ==> main[i] == main[k..k + |line| + 1][i - k];
    assert main[k + |line|] == main[k..k + |line| + 1][|line|];
  }

  lemma AtAfter(main: string, line: string, k: nat, m: nat)
    requires At(main, line, k) && m <= k
    ensures At(main[m..], line, k - m)
  {
    assert main[m..][k - m..k - m + |line| + 1] == main[k..k + |line| + 1];
  }

  /** Shown bytes stop at the first line's end or begin after it. */
  lemma FirstBreak(main: string, line: string, k: nat)
    requires At(main, line, k) && NL !in line
    ensures LineEnd(main) < |main|
    ensures LineEnd(main) == k + |line| || LineEnd(main) < k
  {
    AtChars(main, line, k);
    var n := LineEnd(main);
    assert forall i :: 0 <= i < n ==> main[i] == main[..n][i] && main[i] != NL;
    assert forall i :: 0 <= i < |line| ==> line[i] != NL;
  }

  lemma LinesHead(main: string)
    requires LineEnd(main) < |main|
    ensures Lines(main) == [main[..LineEnd(main)]] + Lines(main[LineEnd(main) + 1..])
  {
  }

  lemma EndsHere(main: string, line: string, k: nat)
    requires At(main, line, k)
    ensures EndsWith(main[..k + |line|], line)
  {
    assert main[..k + |line|][k..] == main[k..k + |line| + 1][..|line|];
  }

  /** Bytes shown in the file stand at the end of one of its lines. */
  lemma {:induction false} ShownLine(main: string, line: string, k: nat) returns (i: nat)
    requires At(main, line, k) && NL !in line
    ensures i < |Lines(main)| && EndsWith(Lines(main)[i], line)
  {
    hide Lines, LineEnd, At, EndsWith;
    var n := LineEnd(main);
    FirstBreak(main, line, k);
    LinesHead(main);
    if n == k + |line| {
      EndsHere(main, line, k);
      i := 0;
    } else {
      AtAfter(main, line, k, n + 1);
      i := ShownLine(main[n + 1..], line, k - n - 1);
      i := i + 1;
    }
  }

  lemma {:induction false} KeptLine(ls: seq<string>, dropped: set<nat>, at: nat, i: nat) returns (j: nat)
    requires i < |ls| && at + i !in dropped
    ensures j < |Kept(ls, dropped, at)| && Kept(ls, dropped, at)[j] == ls[i]
  {
    if i == 0 {
      j := 0;
    } else {
      j := KeptLine(ls[1..], dropped, at + 1, i - 1);
      j := if at in dropped then j else j + 1;
    }
  }

  lemma RewriteKeeps(s: State, dropped: set<nat>, expiring: set<Record>, r: Record)
    requires DropsExpiredOnly(s, dropped, expiring)
    requires r in s.finished && r !in expiring && Shows(s.main, RecordLine(r))
    ensures Shows(Closed(Kept(Lines(s.main), dropped, 0)), RecordLine(r))
  {
    var k: nat :| At(s.main, RecordLine(r), k);
    var i := ShownLine(s.main, RecordLine(r), k);
    var j := KeptLine(Lines(s.main), dropped, 0, i);
    ClosedShows(Kept(Lines(s.main), dropped, 0), j, RecordLine(r));
  }

  /** An entry whose bytes end the file has all its records in the file. */
  lemma EntryShown(main: string, e: Entry, r: Record)
    requires SpillData(e).Some? && EndsWith(main, SpillData(e).value) && r in RecordsOf(e)
    ensures Shows(main, RecordLine(r))
  {
    hide EndsWith, Shows;
    var data := SpillData(e).value;
    var ls := SpilledLines(e.content.rows, e.stem, 0);
    ClosedShows(ls, r.index, RecordLine(r));
    hide SpilledLines, SpillData, RecordsOf, Closed;
    EndsSplit(main, data);
    var before := main[..|main| - |data|];
    ShowsAfter(before, data, RecordLine(r));
  }

  lemma StillRecorded(s: State, s': State, r: Record)
    requires Recorded(s, r)
    requires Shows(s.main, RecordLine(r)) ==> Shows(s'.main, RecordLine(r))
    requires forall e :: e in s.parts && r in RecordsOf(e) ==> e in s'.parts || Shows(s'.main, RecordLine(r))
    ensures Recorded(s', r)
  {
  }

  lemma GrowKeeps(s: State, more: string, lock: Lock)
    requires Safe(s)
    requires LockSound(s.(main := s.main + more, lock := lock))
    ensures Safe(s.(main := s.main + more, lock := lock))
  {
    var s' := s.(main := s.main + more, lock := lock);
    forall r | r in s.finished && r !in s.expired ensures Recorded(s', r) {
      if Shows(s.main, RecordLine(r)) {
        ShowsMore(s.main, RecordLine(r), more);
      }
      StillRecorded(s, s', r);
    }
  }

  lemma PublishKeeps(s: State, e: Entry)
    requires Safe(s)
    ensures Safe(Apply(s, PublishEntry(e)))
  {
    var s' := Apply(s, PublishEntry(e));
    forall x | x in s.parts || (x == e && e.stem in s.temporary) ensures x in s'.parts {
      InListed(s.parts, e, x);
    }
    forall r | r in s'.finished && r !in s'.expired ensures Recorded(s', r) {
      if r in s.finished {
        StillRecorded(s, s', r);
      }
    }
  }

  lemma UnlinkKeeps(s: State)
    requires Safe(s) && s.lock.Appended?
    ensures Safe(Apply(s, Unlink))
  {
    var s' := Apply(s, Unlink);
    forall r | r in s.finished && r !in s.expired ensures Recorded(s', r) {
      forall e | e in s.parts && r in RecordsOf(e) ensures e in s'.parts || Shows(s'.main, RecordLine(r)) {
        InWithout(s.parts, s.lock.entry, e);
        if e == s.lock.entry {
          EntryShown(s.main, e, r);
        }
      }
      StillRecorded(s, s', r);
    }
  }

  lemma RewriteRecord(s: State, s': State, dropped: set<nat>, expiring: set<Record>, r: Record)
    requires DropsExpiredOnly(s, dropped, expiring) && Recorded(s, r) && r in s.finished && r !in expiring
    requires s'.main == Closed(Kept(Lines(s.main), dropped, 0)) && s'.parts == s.parts
    ensures Recorded(s', r)
  {
    if Shows(s.main, RecordLine(r)) {
      RewriteKeeps(s, dropped, expiring, r);
    }
  }

  lemma RewriteSafe(s: State, dropped: set<nat>, expiring: set<Record>)
    requires Safe(s)
    ensures Safe(Apply(s, Rewrite(dropped, expiring)))
  {
    if s.lock == Drained(true) && DropsExpiredOnly(s, dropped, expiring) {
      var s' := Apply(s, Rewrite(dropped, expiring));
      forall r | r in s.finished && r !in s.expired + expiring ensures Recorded(s', r) {
        RewriteRecord(s, s', dropped, expiring, r);
      }
    }
  }

  lemma AppendRowSafe(s: State, row: Fields)
    requires Safe(s) && s.lock.Drained?
    ensures Safe(Apply(s, AppendRow(row)))
  {
    GrowKeeps(s, LiveLine(row) + [NL], Free);
    ShowsLast(s.main, LiveLine(row));
    var s' := Apply(s, AppendRow(row));
    assert Recorded(s', Direct(row));
    forall r | r in s'.finished && r !in s'.expired ensures Recorded(s', r) {
      if r != Direct(row) {
        assert Recorded(s.(main := s'.main, lock := Free), r);
        StillRecorded(s.(main := s'.main, lock := Free), s', r);
      }
    }
  }

  lemma LockOnly(s: State, s': State)
    requires Safe(s) && s'.main == s.main && s'.parts == s.parts && s'.finished == s.finished
    requires s'.expired == s.expired && (s'.lock.Appended? ==> s'.lock == s.lock)
    ensures Safe(s')
  {
    forall r | r in s.finished && r !in s.expired ensures Recorded(s', r) {
      StillRecorded(s, s', r);
    }
  }

  lemma StepSafe(s: State, step: Step)
    requires Safe(s)
    ensures Safe(Apply(s, step))
  {
    match step {
      case MergeNext =>
        if s.lock.Draining? && s.lock.todo != [] && Pending(s.main, s.lock.todo[0]).Some? {
          AppendingEndsWith(s.main, s.lock.todo[0]);
          GrowKeeps(s, Pending(s.main, s.lock.todo[0]).value, Appended(s.lock.todo[0], s.lock.todo[1..]));
        } else {
          LockOnly(s, Apply(s, step));
        }
      case Unlink =>
        if s.lock.Appended? {
          UnlinkKeeps(s);
        }
      case AppendRow(row) =>
        if s.lock.Drained? {
          AppendRowSafe(s, row);
        }
      case Rewrite(dropped, expiring) =>
        RewriteSafe(s, dropped, expiring);
      case Die(written) =>
        if s.lock.Draining? && s.lock.todo != [] && Pending(s.main, s.lock.todo[0]).Some? {
          var p := Pending(s.main, s.lock.todo[0]).value;
          GrowKeeps(s, p[..Min(written, |p|)], Free);
        } else {
          LockOnly(s, Apply(s, step));
        }
      case PublishEntry(e) =>
        PublishKeeps(s, e);
      case _ =>
        LockOnly(s, Apply(s, step));
    }
  }

  /**
   * At least once, in every interleaving: a record that was finished and has not expired is in
   * the main file or in a published entry.
   */
  lemma {:induction false} NoRecordIsLost(s: State, steps: seq<Step>)
    requires Safe(s)
    ensures Safe(RunSteps(s, steps))
    decreases |steps|
  {
    if steps != [] {
      StepSafe(s, steps[0]);
      NoRecordIsLost(Apply(s, steps[0]), steps[1..]);
    }
  }

  lemma NoRecordIsLostFromStart(steps: seq<Step>)
    ensures var s := RunSteps(START, steps);
            forall r :: r in s.finished && r !in s.expired ==> Recorded(s, r)
  {
    NoRecordIsLost(START, steps);
  }

  /** An entry goes away only by the holder's unlink, and only when the file ends with its bytes. */
  lemma UnlinkedOnlyWhenWritten(steps: seq<Step>, step: Step, e: Entry)
    requires var s := RunSteps(START, steps); e in s.parts && e !in Apply(s, step).parts
    ensures step == Unlink
    ensures SpillData(e).Some? && EndsWith(RunSteps(START, steps).main, SpillData(e).value)
  {
    NoRecordIsLost(START, steps);
    var s := RunSteps(START, steps);
    match step {
      case Unlink =>
        if s.lock.Appended? {
          InWithout(s.parts, s.lock.entry, e);
        }
      case PublishEntry(published) =>
        InListed(s.parts, published, e);
      case _ =>
    }
  }

  /** The entries the running drain may still unlink: those in the listing it took. */
  function Targets(lock: Lock): set<Entry> {
    match lock
    case Draining(todo) => set e | e in todo
    case Appended(x, todo) => {x} + set e | e in todo
    case _ => {}
  }

  /** An entry that is not in the running drain's listing survives that drain, whatever else happens. */
  lemma {:induction false} PublishedDuringDrainSurvives(s: State, steps: seq<Step>, e: Entry)
    requires e in s.parts && e !in Targets(s.lock)
    requires Acquire !in steps
    ensures e in RunSteps(s, steps).parts
    decreases |steps|
  {
    if steps != [] {
      var s' := Apply(s, steps[0]);
      assert steps[0] in steps;
      OutsideListing(s, steps[0], e);
      PublishedDuringDrainSurvives(s', steps[1..], e);
    }
  }

  lemma OutsideListing(s: State, step: Step, e: Entry)
    requires e in s.parts && e !in Targets(s.lock) && step != Acquire
    ensures e in Apply(s, step).parts && e !in Targets(Apply(s, step).lock)
  {
    match step {
      case Unlink =>
        if s.lock.Appended? {
          InWithout(s.parts, s.lock.entry, e);
        }
      case PublishEntry(published) =>
        InListed(s.parts, published, e);
      case _ =>
    }
  }

  // ---- The steps of a drain, taken without interruption, are the drain -------------------------

  /** Merging and unlinking `n` entries, and then `last`. */
  function MergeSteps(n: nat, last: Step): seq<Step> {
    if n == 0 then [last] else [MergeNext, Unlink] + MergeSteps(n - 1, last)
  }

  /** The steps of a holder with so many entries listed that meets the fate. */
  function HolderSteps(n: nat, fate: Fate): seq<Step> {
    match fate
    case Survives => MergeSteps(n, ListingDone)
    case Dies(i, written) => MergeSteps(i, Die(written))
  }

  lemma {:induction false} WithoutAbsent(parts: seq<Entry>, e: Entry)
    requires e !in parts
    ensures Without(parts, e) == parts
  {
    if parts != [] {
      WithoutAbsent(parts[1..], e);
    }
  }

  lemma TwoSteps(s: State, a: Step, b: Step, rest: seq<Step>)
    ensures RunSteps(s, [a, b] + rest) == RunSteps(Apply(Apply(s, a), b), rest)
  {
    hide Apply;
    var steps := [a, b] + rest;
    assert steps[1..] == [b] + rest && steps[1..][1..] == rest;
  }

  lemma MergeAndUnlink(s: State, p: string)
    requires s.lock == Draining(s.parts) && s.parts != [] && s.parts[0] !in s.parts[1..]
    requires Pending(s.main, s.parts[0]) == Some(p)
    ensures Apply(Apply(s, MergeNext), Unlink)
         == s.(main := s.main + p, parts := s.parts[1..], lock := Draining(s.parts[1..]))
  {
    hide Pending;
    WithoutAbsent(s.parts[1..], s.parts[0]);
    assert Without(s.parts, s.parts[0]) == s.parts[1..];
  }

  lemma MergeOne(s: State, p: string, rest: seq<Step>)
    requires s.lock == Draining(s.parts) && s.parts != [] && s.parts[0] !in s.parts[1..]
    requires Pending(s.main, s.parts[0]) == Some(p)
    ensures RunSteps(s, [MergeNext, Unlink] + rest)
         == RunSteps(s.(main := s.main + p, parts := s.parts[1..], lock := Draining(s.parts[1..])), rest)
  {
    hide Pending, Apply, RunSteps;
    TwoSteps(s, MergeNext, Unlink, rest);
    MergeAndUnlink(s, p);
  }

  lemma LastStep(s: State, step: Step)
    ensures RunSteps(s, [step]) == Apply(s, step)
  {
    assert [step][1..] == [];
  }

  /** With nothing left to merge, or after an entry that cannot be read, merging does nothing more. */
  lemma {:induction false} Idle(s: State, n: nat, last: Step)
    requires s.lock == Draining([]) || s.lock.Drained?
    ensures RunSteps(s, MergeSteps(n, last)) == Apply(s, last)
  {
    hide RunSteps;
    if n == 0 {
      LastStep(s, last);
    } else {
      TwoSteps(s, MergeNext, Unlink, MergeSteps(n - 1, last));
      Idle(s, n - 1, last);
    }
  }

  /** The lock as an uninterrupted drain leaves it. */
  function LockAfter(outcome: Outcome, fate: Fate): Lock {
    if fate.Dies? then Free else Drained(outcome == Merged)
  }

  function Left(s: State, fate: Fate): State {
    var (d, outcome) := Drain(Disk(s.main, s.parts), fate);
    s.(main := d.main, parts := d.parts, lock := LockAfter(outcome, fate))
  }

  function LastOf(fate: Fate): Step {
    if fate.Dies? then Die(fate.written) else ListingDone
  }

  lemma Blocked(s: State, n: nat, fate: Fate)
    requires s.lock == Draining(s.parts) && s.parts != [] && Pending(s.main, s.parts[0]) == None
    requires fate.Survives? ==> n > 0
    ensures RunSteps(s, MergeSteps(n, LastOf(fate))) == Left(s, fate)
  {
    hide RunSteps, Pending;
    if n == 0 {
      LastStep(s, LastOf(fate));
    } else {
      TwoSteps(s, MergeNext, Unlink, MergeSteps(n - 1, LastOf(fate)));
      Idle(s.(lock := Drained(false)), n - 1, LastOf(fate));
    }
  }

  /**
   * Alone in the lock, the holder's steps do to the disk exactly what `drain_spill` does,
   * whether it gets through, meets an entry it cannot merge, or dies.
   */
  lemma {:induction false} StepsRefineDrain(s: State, fate: Fate)
    requires s.lock == Draining(s.parts)
    requires forall i, j :: 0 <= i < j < |s.parts| ==> s.parts[i] != s.parts[j]
    ensures RunSteps(s, HolderSteps(|s.parts|, fate)) == Left(s, fate)
    decreases |s.parts|
  {
    hide Pending, RunSteps;
    var n := if fate.Dies? then fate.entry else |s.parts|;
    assert HolderSteps(|s.parts|, fate) == MergeSteps(n, LastOf(fate));
    if s.parts == [] {
      Idle(s, n, LastOf(fate));
    } else if Pending(s.main, s.parts[0]).None? {
      Blocked(s, n, fate);
    } else if n == 0 {
      LastStep(s, LastOf(fate));
    } else {
      var p := Pending(s.main, s.parts[0]).value;
      var s' := s.(main := s.main + p, parts := s.parts[1..], lock := Draining(s.parts[1..]));
      MergeOne(s, p, MergeSteps(n - 1, LastOf(fate)));
      StepsRefineDrain(s', Later(fate, 1));
    }
  }
}
