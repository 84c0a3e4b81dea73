/**
 * Runs to the end: what one more drain leaves after any interleaving of one-row entries, that
 * names which appear in order never cost anything, and the same for runs whose drains are single
 * events (src/tybot/audit.py).
 */
module AuditRuns {
  import opened Basics
  import opened Text
  import opened AuditDrain
  import opened AuditDisorder
  import opened AuditProtocol
  import opened AuditLines
  import opened AuditOnce

  // ---- Runs one after the other ----------------------------------------------------------------

  lemma {:induction false} RunBoth(s: State, a: seq<Step>, b: seq<Step>)
    ensures RunSteps(s, a + b) == RunSteps(RunSteps(s, a), b)
    decreases |a|
  {
    hide Apply;
    if a == [] {
      assert a + b == b;
    } else {
      TailOfConcat(a, b);
      RunBoth(Apply(s, a[0]), a[1..], b);
    }
  }

  lemma {:induction false} NamesOfBoth(a: seq<Step>, b: seq<Step>)
    ensures NamesIn(a + b) == NamesIn(a) + NamesIn(b)
  {
    if a == [] {
      assert a + b == b && [] + NamesIn(b) == NamesIn(b);
    } else {
      TailOfConcat(a, b);
      NamesOfBoth(a[1..], b);
      Assoc(if a[0].PublishEntry? then [a[0].e.stem] else [], NamesIn(a[1..]), NamesIn(b));
    }
  }

  lemma {:induction false} OvertakenInBoth(s: State, a: seq<Step>, b: seq<Step>, e: Entry)
    requires OneRow(e)
    ensures OvertakenIn(s, a + b, e) <==> OvertakenIn(s, a, e) || OvertakenIn(RunSteps(s, a), b, e)
    decreases |a|
  {
    hide Apply, OvertakenBy;
    if a == [] {
      assert a + b == b;
    } else {
      TailOfConcat(a, b);
      OvertakenInBoth(Apply(s, a[0]), a[1..], b, e);
    }
  }

  lemma {:induction false} NotOvertakenWithin(s: State, steps: seq<Step>, e: Entry)
    requires OneRow(e) && Acquire !in steps
    ensures !OvertakenIn(s, steps, e)
    decreases |steps|
  {
    if steps != [] {
      NotOvertakenWithin(Apply(s, steps[0]), steps[1..], e);
    }
  }

  /** The steps of a holder inside the lock. */
  predicate Inside(step: Step) { step.MergeNext? || step.Unlink? || step.ListingDone? || step.Die? }

  lemma {:induction false} MergingIsInside(n: nat, last: Step)
    requires Inside(last)
    ensures forall step :: step in MergeSteps(n, last) ==> Inside(step)
    ensures NamesIn(MergeSteps(n, last)) == []
  {
    if n == 0 {
      assert [last][1..] == [];
    } else {
      MergingIsInside(n - 1, last);
      var steps := MergeSteps(n, last);
      assert steps[1..] == [Unlink] + MergeSteps(n - 1, last) && steps[1..][1..] == MergeSteps(n - 1, last);
    }
  }

  /** A drain in the lock: it starts, and does its steps. */
  function DrainSteps(n: nat, fate: Fate): seq<Step> { [Acquire] + HolderSteps(n, fate) }

  lemma DrainingNamesNothing(n: nat, fate: Fate)
    ensures NamesIn(DrainSteps(n, fate)) == []
    ensures forall step :: step in DrainSteps(n, fate) ==> step == Acquire || Inside(step)
    ensures Acquire !in HolderSteps(n, fate)
  {
    var k := if fate.Dies? then fate.entry else n;
    MergingIsInside(k, LastOf(fate));
    assert HolderSteps(n, fate) == MergeSteps(k, LastOf(fate));
    assert DrainSteps(n, fate)[1..] == HolderSteps(n, fate);
  }

  /** What a drain in the lock does, and whom it overtakes. */
  lemma DrainRuns(s: State, fate: Fate)
    requires s.lock.Free? && NoRepeats(s.parts)
    ensures RunSteps(s, DrainSteps(|s.parts|, fate)) == Left(s, fate)
  {
    hide RunSteps, HolderSteps, Drain;
    var held := s.(lock := Draining(s.parts));
    var rest := HolderSteps(|s.parts|, fate);
    RunOneStep(s, DrainSteps(|s.parts|, fate));
    assert DrainSteps(|s.parts|, fate)[1..] == rest;
    StepsRefineDrain(held, fate);
  }

  lemma DrainOvertakes(s: State, n: nat, fate: Fate, e: Entry)
    requires s.lock.Free? && OneRow(e)
    ensures OvertakenIn(s, DrainSteps(n, fate), e) <==> Overtaken(s, e)
  {
    hide HolderSteps;
    DrainingNamesNothing(n, fate);
    assert DrainSteps(n, fate)[1..] == HolderSteps(n, fate);
    NotOvertakenWithin(Apply(s, Acquire), HolderSteps(n, fate), e);
  }

  // ---- One more drain --------------------------------------------------------------------------

  lemma {:induction false} FailedIsTorn(d: Disk)
    requires Listing(d.parts)
    ensures Drain(d, Survives).1 == Merged ==> Drain(d, Survives).0.parts == []
    ensures Drain(d, Survives).1 != Merged ==> !Whole(Drain(d, Survives).0.main)
    decreases |d.parts|
  {
    hide Pending, Whole, Drain;
    DrainStep(d, Survives);
    if d.parts != [] {
      ListingRest(d.parts);
      if Pending(d.main, d.parts[0]).None? {
        BlockedIsTorn(d.main, d.parts[0]);
      } else {
        FailedIsTorn(Disk(d.main + Pending(d.main, d.parts[0]).value, d.parts[1..]));
      }
    }
  }

  lemma RunExtended(start: string, steps: seq<Step>, more: seq<Step>)
    requires OneRowRun(start, steps) && NamesIn(more) == []
    requires forall step :: step in more ==> step == Acquire || Inside(step)
    ensures OneRowRun(start, steps + more) && NamesIn(steps + more) == NamesIn(steps)
  {
    hide NamesIn, PlainStart, Plain, Distinct;
    NamesOfBoth(steps, more);
    assert NamesIn(steps) + [] == NamesIn(steps);
    forall step | step in steps + more
      ensures PlainStep(step, AsNames(NamesIn(steps))) && (step.PublishEntry? ==> OneRow(step.e))
    {
      assert step in steps || step in more;
    }
  }

  lemma ReachedListing(start: string, steps: seq<Step>)
    requires OneRowRun(start, steps)
    ensures Listing(RunSteps(StartWith(start), steps).parts) && NoRepeats(RunSteps(StartWith(start), steps).parts)
  {
    hide RunSteps, GluedIn, PlainStart, Sound;
    RunIsSorted(start, steps);
    RunIsLined(start, steps, AsNames(NamesIn(steps)));
  }

  lemma RunIsSorted(start: string, steps: seq<Step>)
    requires OneRowRun(start, steps)
    ensures Sorted(RunSteps(StartWith(start), steps))
  {
    var names := AsNames(NamesIn(steps));
    StartLined(start, NamesIn(steps), names);
    hide PlainLine, RunSteps, Sound;
    RunSorted(StartWith(start), LinesOf(start), {}, steps, names);
  }

  lemma {:induction false} RunSorted(s: State, prior: set<string>, glued: set<Record>, steps: seq<Step>, names: set<Stem>)
    requires Steady(s, prior, glued, NamesIn(steps), names) && Sound(steps, names) && OneRows(steps)
    ensures Sorted(RunSteps(s, steps))
    decreases |steps|
  {
    if steps != [] {
      hide Sorted, Lined, Sound, PlainLine, PlainStep, Apply, GluedBy;
      SoundRest(steps, names);
      assert steps[0] in steps && forall x :: x in steps[1..] ==> x in steps;
      StepSteady(s, prior, glued, steps[0], NamesIn(steps), NamesIn(steps[1..]), names);
      RunSorted(Apply(s, steps[0]), prior, glued + GluedBy(s, steps[0]), steps[1..], names);
    }
  }

  /** The spilled records a run has finished that have not expired. */
  ghost predicate Owed(s: State, r: Record) { r in s.finished && r !in s.expired && r.Spilled? }

  /**
   * One more drain after any interleaving: it gets through to whole lines exactly when the disk
   * heals; then every record owed is a line of its own, and its identity stands on no other line
   * exactly when the entry was never overtaken, by this drain neither.
   */
  lemma AfterOneMoreDrain(start: string, steps: seq<Step>)
    requires OneRowRun(start, steps) && RunSteps(StartWith(start), steps).lock.Free?
    ensures var s := RunSteps(StartWith(start), steps);
            var s' := RunSteps(s, DrainSteps(|s.parts|, Survives));
            && (s'.lock == Drained(true) && Whole(s'.main) <==> Heals(Disk(s.main, s.parts)))
            && (s'.lock == Drained(true) ==> s'.parts == [])
            && (Whole(s'.main) ==> forall r :: Owed(s, r) ==>
                  && RecordLine(r) in Lines(s'.main)
                  && (Marked(Lines(s'.main), r.stem) == 1
                      <==> !OvertakenIn(StartWith(start), steps, EntryOf(r)) && !Overtaken(s, EntryOf(r))))
  {
    hide RunSteps, OneRowRun, OvertakenIn, Drain, DrainSteps, Overtaken, Heals;
    var s0 := StartWith(start);
    var s := RunSteps(s0, steps);
    var drain := DrainSteps(|s.parts|, Survives);
    ReachedListing(start, steps);
    DrainRuns(s, Survives);
    WholeAfterDrainIff(Disk(s.main, s.parts));
    FailedIsTorn(Disk(s.main, s.parts));
    DrainingNamesNothing(|s.parts|, Survives);
    RunExtended(start, steps, drain);
    RunBoth(s0, steps, drain);
    var s' := RunSteps(s, drain);
    if Whole(s'.main) {
      Parted(s'.main);
      forall r | Owed(s, r)
        ensures RecordLine(r) in Lines(s'.main)
        ensures Marked(Lines(s'.main), r.stem) == 1 <==> !OvertakenIn(s0, steps, EntryOf(r)) && !Overtaken(s, EntryOf(r))
      {
        OvertakenInBoth(s0, steps, drain, EntryOf(r));
        DrainOvertakes(s, |s.parts|, Survives, EntryOf(r));
        OnceIff(start, steps + drain, r);
      }
    }
  }

  /**
   * Exactly once, for names in any order: one more drain leaves whole lines with each record's
   * identity on one of them if and only if the disk heals and no entry was ever overtaken.
   */
  lemma AllOnceIff(start: string, steps: seq<Step>)
    requires OneRowRun(start, steps) && RunSteps(StartWith(start), steps).lock.Free?
    ensures var s := RunSteps(StartWith(start), steps);
            var s' := RunSteps(s, DrainSteps(|s.parts|, Survives));
            (s'.lock == Drained(true) && Whole(s'.main) && forall r :: Owed(s, r) ==> Marked(Lines(s'.main), r.stem) == 1)
            <==> (Heals(Disk(s.main, s.parts)) && forall r :: Owed(s, r) ==>
                   !OvertakenIn(StartWith(start), steps, EntryOf(r)) && !Overtaken(s, EntryOf(r)))
  {
    hide RunSteps, OneRowRun, OvertakenIn, DrainSteps, Overtaken, Heals, Marked, Lines;
    AfterOneMoreDrain(start, steps);
  }

  // ---- Names in order --------------------------------------------------------------------------

  ghost predicate Increasing(names: seq<Stem>) {
    forall i, j :: 0 <= i < j < |names| ==> Before(names[i], names[j])
  }

  lemma IncreasingHead(names: seq<Stem>)
    requires names != [] && Increasing(names)
    ensures Increasing(names[1..]) && forall n :: n in names[1..] ==> Before(names[0], n)
  {
    hide Before;
    forall n | n in names[1..] ensures Before(names[0], n) {
      var i :| 0 <= i < |names| - 1 && names[1..][i] == n;
      assert names[i + 1] == n;
    }
  }

  /** A torn row is the beginning of this entry's. */
  predicate TornOf(main: string, e: Entry)
    requires OneRow(e)
  {
    Whole(main) || AfterLastBreak(main) <= LineOf(e)
  }

  /** Nothing ends the file but the row of the entry that comes next, and nothing else is torn. */
  ghost predicate InLine(s: State)
    requires Listing(s.parts)
  {
    match s.lock
    case Free =>
      && (s.parts == [] ==> Whole(s.main))
      && (s.parts != [] ==> TornOf(s.main, s.parts[0]))
      && forall e :: e in s.parts && Ends(s.main, e) ==> e == s.parts[0]
    case Draining(todo) =>
      && todo <= s.parts
      && (todo == [] ==> Whole(s.main) && forall e :: e in s.parts ==> !Ends(s.main, e))
      && (todo != [] ==> TornOf(s.main, s.parts[0]) && forall e :: e in s.parts && Ends(s.main, e) ==> e == s.parts[0])
    case Appended(x, todo) => [x] + todo <= s.parts && Ends(s.main, s.parts[0])
    case Drained(complete) => complete && Whole(s.main) && forall e :: e in s.parts ==> !Ends(s.main, e)
  }

  /** Names still to come sort behind those listed and are not counted; listed entries are well. */
  ghost predicate Coming(s: State, later: seq<Stem>) {
    && Listing(s.parts) && Increasing(later)
    && (forall e, n :: e in s.parts && n in later ==> Before(e.stem, n))
    && (forall n :: n in later ==> Count(s.main, n) == 0)
    && (forall e :: e in s.parts ==> Good(s, e))
  }

  lemma OnlyFirstEnds(s: State)
    requires Listing(s.parts) && s.parts != [] && Ends(s.main, s.parts[0])
    ensures forall e :: e in s.parts && Ends(s.main, e) ==> e == s.parts[0]
  {
    ListingRest(s.parts);
    forall e | e in s.parts && Ends(s.main, e) ensures e == s.parts[0] {
      if e != s.parts[0] {
        assert e in s.parts[1..];
        NotBothEnd(s.main, s.parts[0], e);
      }
    }
  }

  lemma NoneLeftEnds(s: State)
    requires Listing(s.parts) && s.parts != [] && Ends(s.main, s.parts[0])
    ensures forall e :: e in s.parts[1..] ==> OneRow(e) && !Ends(s.main, e)
  {
    ListingRest(s.parts);
    forall e | e in s.parts[1..] ensures OneRow(e) && !Ends(s.main, e) {
      NotBothEnd(s.main, s.parts[0], e);
    }
  }

  lemma MergeInLine(s: State)
    requires Listing(s.parts) && InLine(s) && s.lock.Draining? && s.lock.todo != []
    ensures Pending(s.main, s.parts[0]).Some? && InLine(Apply(s, MergeNext))
  {
    var x := s.parts[0];
    assert s.lock.todo[0] == x && [x] + s.lock.todo[1..] == s.lock.todo;
    Parted(s.main);
    PendingIs(WholePart(s.main), AfterLastBreak(s.main), x);
    assert "" <= LineOf(x);
    MergeCount(s.main, x, x.stem);
  }

  /** Unlinking the first entry leaves the others. */
  lemma UnlinkFirst(parts: seq<Entry>)
    requires parts != [] && NoRepeats(parts)
    ensures Without(parts, parts[0]) == parts[1..]
  {
    NoRepeatsTail(parts);
    WithoutAbsent(parts[1..], parts[0]);
  }

  lemma UnlinkInLine(s: State)
    requires Listing(s.parts) && InLine(s) && s.lock.Appended? && NoRepeats(s.parts)
    ensures Listing(Apply(s, Unlink).parts) && InLine(Apply(s, Unlink))
  {
    var x, todo := s.lock.entry, s.lock.todo;
    assert x == ([x] + todo)[0] == s.parts[0] && todo == ([x] + todo)[1..];
    hide Ends, Whole, LineOf, AfterLastBreak, NoRepeats, Listing, Without;
    UnlinkFirst(s.parts);
    ListingRest(s.parts);
    NoneLeftEnds(s);
    TornEndsNothing(s.main, x);
  }

  lemma DieInLine(s: State, written: nat)
    requires Listing(s.parts) && InLine(s)
    ensures InLine(Apply(s, Die(written)))
  {
    if s.lock.Draining? && s.lock.todo != [] {
      var x := s.parts[0];
      assert s.lock.todo[0] == x;
      MergeInLine(s);
      var p := Pending(s.main, x).value;
      var s' := Apply(s, Die(written));
      DieInFirst(s, x, written);
      if Ends(s'.main, x) {
        OnlyFirstEnds(s');
      }
    } else if s.lock.Appended? {
      assert ([s.lock.entry] + s.lock.todo)[0] == s.parts[0];
      OnlyFirstEnds(s);
      TornEndsNothing(s.main, s.parts[0]);
    } else if s.lock.Draining? && s.parts != [] {
      assert TornOf(s.main, s.parts[0]);
    }
  }

  lemma DieInFirst(s: State, x: Entry, written: nat)
    requires OneRow(x) && Pending(s.main, x).Some? && TornOf(s.main, x)
    ensures var p := Pending(s.main, x).value; var main' := s.main + p[..Min(written, |p|)];
            TornOf(main', x) && (Ends(main', x) || main' == s.main || !Whole(main'))
  {
    hide Pending, LineOf;
    var p := Pending(s.main, x).value;
    MergeCount(s.main, x, x.stem);
    if written < |p| {
      DeadCount(s.main, x, written, x.stem);
    } else {
      assert p[..|p|] == p;
    }
  }

  lemma RowInLine(s: State, row: Fields, later: seq<Stem>, names: set<Stem>)
    requires Listing(s.parts) && InLine(s) && s.lock.Drained? && Plain(row, names) && NamesRight(s, later, names)
    ensures InLine(Apply(s, AppendRow(row))) && Whole(s.main)
  {
    var main' := s.main + (LiveLine(row) + [NL]);
    forall e | e in s.parts ensures !Ends(main', e) {
      RowCount(s.main, row, e.stem, names);
      NotMarkedNotEnds(main', e);
    }
    assert main'[|main'| - 1] == NL;
  }

  lemma NobodyEnds(s: State)
    requires Listing(s.parts) && s.lock.Free? && Whole(s.main) && forall e :: e in s.parts ==> !Ends(s.main, e)
    ensures InLine(s)
  {
    hide Ends, LineOf, AfterLastBreak;
  }

  lemma PassedNotEnds(main: string, dropped: set<nat>, e: Entry)
    requires OneRow(e) && Whole(main) && Count(main, e.stem) == 0
    ensures !Ends(Closed(Kept(Lines(main), dropped, 0)), e)
  {
    hide Lines, Kept, Closed, WholePart, Marked, Ends;
    KeptMain(main, dropped);
    Parted(main);
    KeptMarks(Lines(main), dropped, 0, e.stem);
    Ended(Closed(Kept(Lines(main), dropped, 0)), e);
  }

  lemma PassInLine(s: State, dropped: set<nat>, expiring: set<Record>)
    requires Listing(s.parts) && InLine(s) && s.lock == Drained(true) && forall e :: e in s.parts ==> Good(s, e)
    requires DropsExpiredOnly(s, dropped, expiring)
    ensures InLine(Apply(s, Rewrite(dropped, expiring)))
  {
    var s' := Apply(s, Rewrite(dropped, expiring));
    KeptMain(s.main, dropped);
    hide Lines, Kept, Closed, Count, Ends, InLine, DropsExpiredOnly;
    assert Whole(s.main) by { DrainedWhole(s); }
    forall e | e in s.parts ensures !Ends(s'.main, e) {
      PassedNotEnds(s.main, dropped, e);
    }
    NobodyEnds(s');
  }

  lemma DrainedWhole(s: State)
    requires Listing(s.parts) && InLine(s) && s.lock.Drained?
    ensures Whole(s.main)
  {
  }

  lemma PublishInLine(s: State, f: Entry)
    requires Listing(s.parts) && InLine(s) && OneRow(f) && forall e :: e in s.parts ==> Before(e.stem, f.stem)
    requires Count(s.main, f.stem) == 0
    ensures Listing(Apply(s, PublishEntry(f)).parts) && InLine(Apply(s, PublishEntry(f)))
    ensures f.stem in s.temporary ==> Apply(s, PublishEntry(f)).parts == s.parts + [f]
  {
    ListedLast(s.parts, f);
    Ended(s.main, f);
    hide Count, Ends, LineOf, AfterLastBreak, Whole, Listed;
    if f.stem in s.temporary {
      LastInLine(s, Apply(s, PublishEntry(f)), f);
    }
  }

  lemma LastInLine(s: State, s': State, f: Entry)
    requires Listing(s.parts) && InLine(s) && OneRow(f) && !Ends(s.main, f)
    requires forall e :: e in s.parts ==> Before(e.stem, f.stem)
    requires s'.parts == s.parts + [f] && s'.main == s.main && s'.lock == s.lock
    ensures Listing(s'.parts) && InLine(s')
  {
    hide Before, Ends, TornOf, Whole;
    assert forall e :: e in s'.parts <==> e in s.parts || e == f;
    assert s.parts != [] ==> s'.parts[0] == s.parts[0];
    assert Whole(s.main) ==> TornOf(s.main, f) by { WholeIsTornOf(s.main, f); }
  }

  lemma WholeIsTornOf(main: string, e: Entry)
    requires OneRow(e)
    ensures Whole(main) ==> TornOf(main, e)
  {
  }

  lemma StepInLine(s: State, step: Step, later: seq<Stem>, names: set<Stem>)
    requires Coming(s, later) && InLine(s) && NamesRight(s, later, names) && PlainStep(step, names)
    requires step.PublishEntry? ==> OneRow(step.e) && step.e.stem in later
    ensures Listing(Apply(s, step).parts) && InLine(Apply(s, step)) && GluedBy(s, step) == {}
  {
    match step {
      case MergeNext =>
        if s.lock.Draining? && s.lock.todo != [] {
          MergeInLine(s);
        }
      case Unlink =>
        if s.lock.Appended? {
          UnlinkInLine(s);
        }
      case AppendRow(row) =>
        if s.lock.Drained? {
          RowInLine(s, row, later, names);
        }
      case Rewrite(dropped, expiring) =>
        if s.lock == Drained(true) && DropsExpiredOnly(s, dropped, expiring) {
          PassInLine(s, dropped, expiring);
        }
      case Die(written) =>
        DieInLine(s, written);
      case PublishEntry(f) =>
        PublishInLine(s, f);
      case _ =>
    }
  }

  lemma NotOvertakenInLine(s: State, step: Step, e: Entry)
    requires Listing(s.parts) && InLine(s) && OneRow(e)
    ensures !OvertakenBy(s, step, e)
  {
  }

  /** An entry listed after the step is well: it was, or it has just been published. */
  lemma EntryComing(s: State, prior: set<string>, glued: set<Record>, step: Step, e: Entry,
                    later: seq<Stem>, later': seq<Stem>, names: set<Stem>)
    requires Steady(s, prior, glued, later, names) && Coming(s, later) && InLine(s) && PlainStep(step, names)
    requires if step.PublishEntry? then OneRow(step.e) && later == [step.e.stem] + later' && step.e.stem !in later' else later == later'
    requires e in s.parts || (step == PublishEntry(e) && e.stem in s.temporary)
    ensures OneRow(e) && Good(Apply(s, step), e) && forall n :: n in later' ==> Before(e.stem, n)
  {
    assert step.PublishEntry? ==> step.e.stem in later;
    assert forall n :: n in later' ==> n in later;
    if e in s.parts {
      ListedKnown(s, e, later, names);
      NotOvertakenInLine(s, step, e);
      hide Lined, Sorted, PlainLine, Bad, Count, Before, InLine, Good;
      StepStatus(s, prior, glued, e, step, later, names, false);
    } else {
      IncreasingHead(later);
      assert later[1..] == later';
      Published(s, e, later', names);
    }
  }

  lemma CountsComing(s: State, prior: set<string>, glued: set<Record>, step: Step, later: seq<Stem>, later': seq<Stem>, names: set<Stem>)
    requires Steady(s, prior, glued, later, names) && PlainStep(step, names)
    requires (forall n :: n in later ==> n in names && Count(s.main, n) == 0) && forall n :: n in later' ==> n in later
    ensures forall n :: n in later' ==> Count(Apply(s, step).main, n) == 0
  {
    hide Steady, Count, Apply, PlainStep;
    forall n | n in later' ensures Count(Apply(s, step).main, n) == 0 {
      StepBefore(s, prior, glued, n, step, later, names);
    }
  }

  lemma StepComing(s: State, prior: set<string>, glued: set<Record>, step: Step, later: seq<Stem>, later': seq<Stem>, names: set<Stem>)
    requires Steady(s, prior, glued, later, names) && Coming(s, later) && InLine(s) && PlainStep(step, names)
    requires forall n :: n in later ==> n in names
    requires if step.PublishEntry? then OneRow(step.e) && later == [step.e.stem] + later' && step.e.stem !in later' else later == later'
    ensures Coming(Apply(s, step), later') && InLine(Apply(s, step)) && GluedBy(s, step) == {}
  {
    assert step.PublishEntry? ==> step.e.stem in later && later[1..] == later';
    StepInLine(s, step, later, names);
    if step.PublishEntry? {
      IncreasingHead(later);
    }
    NewInListing(s, step);
    CountsComing(s, prior, glued, step, later, later', names);
    hide Steady, Count, InLine, Listing, Apply, PlainStep, Good, Before;
    forall e | e in Apply(s, step).parts
      ensures OneRow(e) && Good(Apply(s, step), e) && forall n :: n in later' ==> Before(e.stem, n)
    {
      EntryComing(s, prior, glued, step, e, later, later', names);
    }
  }

  lemma NewInListing(s: State, step: Step)
    ensures forall e :: e in Apply(s, step).parts ==> e in s.parts || (step == PublishEntry(e) && e.stem in s.temporary)
  {
    match step {
      case Unlink =>
        if s.lock.Appended? {
          forall e | e in Apply(s, step).parts ensures e in s.parts {
            InWithout(s.parts, s.lock.entry, e);
          }
        }
      case PublishEntry(f) =>
        forall e | e in Apply(s, step).parts ensures e in s.parts || (e == f && f.stem in s.temporary) {
          InListed(s.parts, f, e);
        }
      case _ =>
    }
  }

  lemma ListedKnown(s: State, e: Entry, later: seq<Stem>, names: set<Stem>)
    requires NamesRight(s, later, names) && Listing(s.parts) && e in s.parts
    ensures OneRow(e) && e.stem in names && TheRecord(e) in s.finished
  {
    RecordsOfOne(e);
    assert TheRecord(e) in RecordsOf(e);
  }

  lemma {:induction false} RunInLine(s: State, prior: set<string>, glued: set<Record>, steps: seq<Step>, names: set<Stem>, e: Entry)
    requires Steady(s, prior, glued, NamesIn(steps), names) && Sound(steps, names) && OneRows(steps) && OneRow(e)
    requires Coming(s, NamesIn(steps)) && InLine(s)
    ensures Coming(RunSteps(s, steps), []) && InLine(RunSteps(s, steps))
    ensures !OvertakenIn(s, steps, e) && GluedIn(s, steps) == {}
    decreases |steps|
  {
    if steps != [] {
      assert forall n :: n in NamesIn(steps) ==> n in AsNames(NamesIn(steps));
      assert steps[0] in steps && forall x :: x in steps[1..] ==> x in steps;
      SoundRest(steps, names);
      NotOvertakenInLine(s, steps[0], e);
      hide Steady, Coming, InLine, Sound, PlainStep, Apply, GluedBy, OvertakenBy;
      StepComing(s, prior, glued, steps[0], NamesIn(steps), NamesIn(steps[1..]), names);
      StepSteady(s, prior, glued, steps[0], NamesIn(steps), NamesIn(steps[1..]), names);
      ComingListing(Apply(s, steps[0]), NamesIn(steps[1..]));
      RunInLine(Apply(s, steps[0]), prior, glued + GluedBy(s, steps[0]), steps[1..], names, e);
    }
  }

  lemma ComingListing(s: State, later: seq<Stem>)
    requires Coming(s, later)
    ensures Listing(s.parts)
  {
  }

  lemma StartsInLine(start: string, later: seq<Stem>, names: set<Stem>)
    requires PlainStart(start, names) && Increasing(later) && forall n :: n in later ==> n in names
    ensures Coming(StartWith(start), later) && InLine(StartWith(start))
  {
    Parted(start);
    forall n | n in later ensures Count(start, n) == 0 {
      NoMarks(Lines(start), n, names);
    }
  }

  /**
   * When names appear in order, nothing is ever overtaken, no drain raises, and no row is written
   * behind a torn one.
   */
  lemma InOrderNothingIsOvertaken(start: string, steps: seq<Step>, e: Entry)
    requires OneRowRun(start, steps) && Increasing(NamesIn(steps)) && OneRow(e)
    ensures var s := RunSteps(StartWith(start), steps);
            && !OvertakenIn(StartWith(start), steps, e) && GluedIn(StartWith(start), steps) == {}
            && s.lock != Drained(false)
            && (s.lock.Free? ==> Heals(Disk(s.main, s.parts)) && !Overtaken(s, e))
  {
    var names := AsNames(NamesIn(steps));
    StartLined(start, NamesIn(steps), names);
    StartsInLine(start, NamesIn(steps), names);
    hide Sound, RunSteps, GluedIn, OvertakenIn, Coming, InLine, Lined;
    RunInLine(StartWith(start), LinesOf(start), {}, steps, names, e);
    var s := RunSteps(StartWith(start), steps);
    ComingListing(s, []);
    FreeHeals(s, e);
  }

  lemma FreeHeals(s: State, e: Entry)
    requires Listing(s.parts) && InLine(s) && OneRow(e)
    ensures s.lock != Drained(false)
    ensures s.lock.Free? ==> Heals(Disk(s.main, s.parts)) && !Overtaken(s, e)
  {
    if s.lock.Free? && s.parts != [] && !Whole(s.main) {
      var x := s.parts[0];
      DataOfOneRow(x);
      assert AfterLastBreak(s.main) <= LineOf(x) <= LineOf(x) + [NL];
    }
  }

  /**
   * So for names in order every interleaving gives each record exactly once: one more drain gets
   * through, every line of the file is one from before or a record's own, and each record owed is
   * there with its identity on no other line.
   */
  lemma ExactlyOnceInOrder(start: string, steps: seq<Step>)
    requires OneRowRun(start, steps) && Increasing(NamesIn(steps)) && RunSteps(StartWith(start), steps).lock.Free?
    ensures var s := RunSteps(StartWith(start), steps);
            var s' := RunSteps(s, DrainSteps(|s.parts|, Survives));
            && s'.lock == Drained(true) && s'.parts == [] && Whole(s'.main)
            && (forall line :: line in Lines(s'.main) ==>
                  line in LinesOf(start) || exists r :: r in s'.finished && line == RecordLine(r))
            && (forall r :: Owed(s, r) ==> RecordLine(r) in Lines(s'.main) && Marked(Lines(s'.main), r.stem) == 1)
  {
    hide RunSteps, OneRowRun, OvertakenIn, DrainSteps, Overtaken, Heals, Marked, Lines, Increasing, GluedIn;
    var s0 := StartWith(start);
    var s := RunSteps(s0, steps);
    var drain := DrainSteps(|s.parts|, Survives);
    AfterOneMoreDrain(start, steps);
    forall e: Entry | OneRow(e)
      ensures !OvertakenIn(s0, steps, e) && Heals(Disk(s.main, s.parts)) && !Overtaken(s, e)
    {
      InOrderNothingIsOvertaken(start, steps, e);
    }
    var any := Entry(FIRST_NAME, Rows([""]));
    assert OneRow(any);
    DrainingNamesNothing(|s.parts|, Survives);
    RunExtended(start, steps, drain);
    RunBoth(s0, steps, drain);
    InOrderNothingIsOvertaken(start, steps + drain, any);
    NoGlueNoTails(start, steps + drain);
  }

  const FIRST_NAME: Stem := Repeated('0')

  lemma NoGlueNoTails(start: string, steps: seq<Step>)
    requires OneRowRun(start, steps) && GluedIn(StartWith(start), steps) == {}
    ensures var s := RunSteps(StartWith(start), steps);
            Whole(s.main) ==> forall line :: line in Lines(s.main) ==>
              line in LinesOf(start) || exists r :: r in s.finished && line == RecordLine(r)
  {
    hide RunSteps, GluedIn, PlainStart, Sound, Lines, WholePart, LinesOf;
    var s := RunSteps(StartWith(start), steps);
    Parted(s.main);
    if Whole(s.main) {
      forall line | line in Lines(s.main)
        ensures line in LinesOf(start) || exists r :: r in s.finished && line == RecordLine(r)
      {
        EveryLineIsARecord(start, steps, line);
      }
    }
  }

  // ---- Runs whose drains are single events -----------------------------------------------------

  /** The event as steps of the protocol, with `d` the disk it meets. */
  function StepsOf(d: Disk, ev: Event): seq<Step> {
    match ev
    case Publishes(e) => [OpenTemporary(e.stem), PublishEntry(e)]
    case DrainDies(i, written) => DrainSteps(|d.parts|, Dies(i, written))
    case Live(row) => DrainSteps(|d.parts|, Survives) + [AppendRow(row)]
  }

  function AllSteps(d: Disk, evs: seq<Event>): seq<Step>
    decreases |evs|
  {
    if evs == [] then [] else StepsOf(d, evs[0]) + AllSteps(Perform(d, evs[0]), evs[1..])
  }

  function OnDisk(s: State): Disk { Disk(s.main, s.parts) }

  function Given(evs: seq<Event>): seq<Stem> {
    if evs == [] then [] else (if evs[0].Publishes? then [evs[0].entry.stem] else []) + Given(evs[1..])
  }

  /** What an event finishes. */
  function Finishes(ev: Event): set<Record> {
    match ev
    case Publishes(e) => RecordsOf(e)
    case DrainDies(_, _) => {}
    case Live(row) => {Direct(row)}
  }

  lemma TwoStepsRun(s: State, a: Step, b: Step)
    ensures RunSteps(s, [a, b]) == Apply(Apply(s, a), b)
  {
    TwoSteps(s, a, b, []);
    assert [a, b] + [] == [a, b];
  }

  /** An event is its steps. */
  lemma EventIsSteps(s: State, ev: Event)
    requires s.lock.Free? && NoRepeats(s.parts)
    ensures var s' := RunSteps(s, StepsOf(OnDisk(s), ev));
            && OnDisk(s') == Perform(OnDisk(s), ev) && s'.lock.Free?
            && s'.finished == s.finished + Finishes(ev) && s'.expired == s.expired
  {
    hide RunSteps, DrainSteps, Drain, LiveLine, RecordsOf;
    match ev {
      case Publishes(e) =>
        TwoStepsRun(s, OpenTemporary(e.stem), PublishEntry(e));
      case DrainDies(i, written) =>
        DrainRuns(s, Dies(i, written));
        assert s.finished + {} == s.finished;
      case Live(row) =>
        DrainRuns(s, Survives);
        var steps := DrainSteps(|s.parts|, Survives);
        RunBoth(s, steps, [AppendRow(row)]);
        LastStep(RunSteps(s, steps), AppendRow(row));
        var main := Drain(OnDisk(s), Survives).0.main;
        assert main + LiveLine(row) + [NL] == main + (LiveLine(row) + [NL]);
    }
  }

  /** The drain starts while the row of a listed entry that is not first ends the file. */
  predicate DiskOvertaken(d: Disk, e: Entry)
    requires OneRow(e)
  {
    e in d.parts && Ends(d.main, e) && d.parts[0] != e
  }

  predicate OvertakenAlong(d: Disk, evs: seq<Event>, e: Entry)
    requires OneRow(e)
    decreases |evs|
  {
    evs != [] && ((!evs[0].Publishes? && DiskOvertaken(d, e)) || OvertakenAlong(Perform(d, evs[0]), evs[1..], e))
  }

  lemma EventOvertakes(s: State, ev: Event, e: Entry)
    requires s.lock.Free? && OneRow(e)
    ensures OvertakenIn(s, StepsOf(OnDisk(s), ev), e) <==> !ev.Publishes? && DiskOvertaken(OnDisk(s), e)
  {
    hide DrainSteps, Overtaken;
    match ev {
      case Publishes(f) =>
        NotOvertakenWithin(s, [OpenTemporary(f.stem), PublishEntry(f)], e);
      case DrainDies(i, written) =>
        DrainOvertakes(s, |s.parts|, Dies(i, written), e);
        SameOvertaken(s, e);
      case Live(row) =>
        var steps := DrainSteps(|s.parts|, Survives);
        DrainOvertakes(s, |s.parts|, Survives, e);
        SameOvertaken(s, e);
        OvertakenInBoth(s, steps, [AppendRow(row)], e);
        NotOvertakenWithin(RunSteps(s, steps), [AppendRow(row)], e);
    }
  }

  lemma SameOvertaken(s: State, e: Entry)
    requires OneRow(e)
    ensures Overtaken(s, e) <==> DiskOvertaken(OnDisk(s), e)
  {
  }

  lemma {:induction false} DrainSuffix(d: Disk, fate: Fate) returns (k: nat)
    ensures k <= |d.parts| && Drain(d, fate).0.parts == d.parts[k..]
    decreases |d.parts|
  {
    hide Drain, Pending;
    k := 0;
    DrainStep(d, fate);
    if d.parts != [] && Pending(d.main, d.parts[0]).Some? && !(fate.Dies? && fate.entry == 0) {
      var j := DrainSuffix(Disk(d.main + Pending(d.main, d.parts[0]).value, d.parts[1..]), Later(fate, 1));
      assert d.parts[1..][j..] == d.parts[j + 1..];
      k := j + 1;
    }
  }

  lemma SuffixNoRepeats(parts: seq<Entry>, k: nat)
    requires NoRepeats(parts) && k <= |parts|
    ensures NoRepeats(parts[k..]) && forall e :: e in parts[k..] ==> e in parts
  {
  }

  lemma GivenRest(evs: seq<Event>)
    requires evs != [] && Distinct(Given(evs))
    ensures Distinct(Given(evs[1..])) && forall n :: n in Given(evs[1..]) ==> n in Given(evs)
    ensures evs[0].Publishes? ==> evs[0].entry.stem in Given(evs) && evs[0].entry.stem !in Given(evs[1..])
  {
    var all, rest := Given(evs), Given(evs[1..]);
    if evs[0].Publishes? {
      assert all == [evs[0].entry.stem] + rest;
      forall i | 0 <= i < |rest| ensures rest[i] == all[i + 1] && all[0] != all[i + 1] {}
    } else {
      assert all == [] + rest == rest;
    }
  }

  lemma PerformListing(d: Disk, ev: Event)
    requires NoRepeats(d.parts) && (ev.Publishes? ==> ev.entry !in d.parts)
    ensures NoRepeats(Perform(d, ev).parts)
    ensures forall e :: e in Perform(d, ev).parts ==> e in d.parts || ev == Publishes(e)
  {
    hide NoRepeats, Drain, Before;
    match ev {
      case Publishes(e) =>
        ListedNoRepeats(d.parts, e);
        forall x | x in Listed(d.parts, e) ensures x in d.parts || x == e {
          InListed(d.parts, e, x);
        }
      case DrainDies(i, written) =>
        var k := DrainSuffix(d, Dies(i, written));
        SuffixNoRepeats(d.parts, k);
      case Live(row) =>
        var k := DrainSuffix(d, Survives);
        SuffixNoRepeats(d.parts, k);
    }
  }

  /** Listed entries have names that are not given again. */
  lemma PerformNoRepeats(d: Disk, evs: seq<Event>)
    requires evs != [] && NoRepeats(d.parts) && Distinct(Given(evs)) && forall e :: e in d.parts ==> e.stem !in Given(evs)
    ensures var d' := Perform(d, evs[0]);
            && NoRepeats(d'.parts) && Distinct(Given(evs[1..])) && forall e :: e in d'.parts ==> e.stem !in Given(evs[1..])
  {
    hide NoRepeats, Perform, Given, Distinct;
    GivenRest(evs);
    PerformListing(d, evs[0]);
  }

  function AllFinished(evs: seq<Event>): set<Record> {
    if evs == [] then {} else Finishes(evs[0]) + AllFinished(evs[1..])
  }

  /** A run of events is its steps, and overtakes whom they overtake. */
  lemma {:induction false} RunIsSteps(s: State, evs: seq<Event>)
    requires s.lock.Free? && NoRepeats(s.parts) && Distinct(Given(evs)) && forall e :: e in s.parts ==> e.stem !in Given(evs)
    ensures var s' := RunSteps(s, AllSteps(OnDisk(s), evs));
            && OnDisk(s') == Run(OnDisk(s), evs) && s'.lock.Free?
            && s'.finished == s.finished + AllFinished(evs) && s'.expired == s.expired
    decreases |evs|
  {
    hide RunSteps, StepsOf, Perform, Finishes;
    if evs == [] {
      RunOneStep(s, []);
      assert s.finished + {} == s.finished;
    } else {
      var mid := RunSteps(s, StepsOf(OnDisk(s), evs[0]));
      EventIsSteps(s, evs[0]);
      PerformNoRepeats(OnDisk(s), evs);
      RunIsSteps(mid, evs[1..]);
      RunBoth(s, StepsOf(OnDisk(s), evs[0]), AllSteps(OnDisk(mid), evs[1..]));
      assert s.finished + Finishes(evs[0]) + AllFinished(evs[1..]) == s.finished + (Finishes(evs[0]) + AllFinished(evs[1..]));
    }
  }

  lemma {:induction false} RunOvertakes(s: State, evs: seq<Event>, e: Entry)
    requires s.lock.Free? && NoRepeats(s.parts) && Distinct(Given(evs)) && forall x :: x in s.parts ==> x.stem !in Given(evs)
    requires OneRow(e)
    ensures OvertakenIn(s, AllSteps(OnDisk(s), evs), e) <==> OvertakenAlong(OnDisk(s), evs, e)
    decreases |evs|
  {
    hide RunSteps, StepsOf, Perform, DiskOvertaken;
    if evs != [] {
      hide OvertakenIn;
      var mid := RunSteps(s, StepsOf(OnDisk(s), evs[0]));
      EventIsSteps(s, evs[0]);
      PerformNoRepeats(OnDisk(s), evs);
      RunOvertakes(mid, evs[1..], e);
      EventOvertakes(s, evs[0], e);
      OvertakenInBoth(s, StepsOf(OnDisk(s), evs[0]), AllSteps(OnDisk(mid), evs[1..]), e);
    }
  }

  lemma PublishingNames(stem: Stem, e: Entry)
    ensures NamesIn([OpenTemporary(stem), PublishEntry(e)]) == [e.stem]
  {
    NamesOfBoth([OpenTemporary(stem)], [PublishEntry(e)]);
    assert [OpenTemporary(stem)] + [PublishEntry(e)] == [OpenTemporary(stem), PublishEntry(e)];
    assert [OpenTemporary(stem)][1..] == [] && [PublishEntry(e)][1..] == [];
  }

  lemma WritingNames(n: nat, row: Fields)
    ensures NamesIn(DrainSteps(n, Survives) + [AppendRow(row)]) == []
  {
    hide DrainSteps;
    DrainingNamesNothing(n, Survives);
    NamesOfBoth(DrainSteps(n, Survives), [AppendRow(row)]);
    assert [AppendRow(row)][1..] == [];
  }

  lemma StepsOfAre(d: Disk, ev: Event)
    ensures NamesIn(StepsOf(d, ev)) == if ev.Publishes? then [ev.entry.stem] else []
    ensures forall step :: step in StepsOf(d, ev) ==>
      (step.PublishEntry? ==> ev == Publishes(step.e)) && (step.AppendRow? ==> ev == Live(step.row))
  {
    hide DrainSteps, NamesIn;
    match ev {
      case Publishes(e) =>
        PublishingNames(e.stem, e);
      case DrainDies(i, written) =>
        DrainingNamesNothing(|d.parts|, Dies(i, written));
      case Live(row) =>
        DrainingNamesNothing(|d.parts|, Survives);
        WritingNames(|d.parts|, row);
    }
  }

  lemma {:induction false} AllStepsAre(d: Disk, evs: seq<Event>)
    ensures NamesIn(AllSteps(d, evs)) == Given(evs)
    ensures forall step :: step in AllSteps(d, evs) ==>
      (step.PublishEntry? ==> Publishes(step.e) in evs) && (step.AppendRow? ==> Live(step.row) in evs)
    decreases |evs|
  {
    hide StepsOf, Perform, NamesIn;
    if evs == [] {
      NoSteps();
    } else {
      var rest := AllSteps(Perform(d, evs[0]), evs[1..]);
      StepsOfAre(d, evs[0]);
      AllStepsAre(Perform(d, evs[0]), evs[1..]);
      NamesOfBoth(StepsOf(d, evs[0]), rest);
      assert evs[0] in evs && forall ev :: ev in evs[1..] ==> ev in evs;
    }
  }

  lemma NoSteps()
    ensures NamesIn([]) == []
  {
  }

  /** A run of events with one-row entries, each name given once, on a file of whole lines. */
  ghost predicate PlainRun(start: string, evs: seq<Event>) {
    && Distinct(Given(evs)) && PlainStart(start, AsNames(Given(evs)))
    && (forall ev :: ev in evs && ev.Publishes? ==> OneRow(ev.entry))
    && (forall ev :: ev in evs && ev.Live? ==> Plain(ev.row, AsNames(Given(evs))))
  }

  lemma PlainRunSteps(start: string, evs: seq<Event>)
    requires PlainRun(start, evs)
    ensures OneRowRun(start, AllSteps(Disk(start, []), evs))
  {
    AllStepsAre(Disk(start, []), evs);
    hide Plain, PlainStart, Distinct;
  }

  lemma {:induction false} PublishedFinished(evs: seq<Event>, e: Entry)
    requires Publishes(e) in evs && OneRow(e)
    ensures TheRecord(e) in AllFinished(evs)
  {
    RecordsOfOne(e);
    if evs[0] != Publishes(e) {
      PublishedFinished(evs[1..], e);
    }
  }

  lemma {:induction false} FinishedPublished(evs: seq<Event>, r: Record)
    requires r in AllFinished(evs) && r.Spilled? && forall ev :: ev in evs && ev.Publishes? ==> OneRow(ev.entry)
    ensures r.index == 0 && Publishes(EntryOf(r)) in evs
  {
    assert evs[0] in evs && forall ev :: ev in evs[1..] ==> ev in evs;
    if r in Finishes(evs[0]) {
      var e := evs[0].entry;
      RecordsOfOne(e);
      assert e.content.rows == [e.content.rows[0]];
      assert EntryOf(r) == e;
    } else {
      FinishedPublished(evs[1..], r);
    }
  }

  lemma TheEntry(e: Entry)
    requires OneRow(e)
    ensures EntryOf(TheRecord(e)) == e
  {
    assert e.content.rows == [e.content.rows[0]];
  }

  /**
   * Exactly once, whatever the order of names and wherever drains died: the last drain gets
   * through, leaves whole lines, and each published entry's identity on one of them, if and only
   * if the disk it meets heals and no drain of the run, nor this one, ever started while the row
   * of a listed entry that was not first ended the file.
   */
  lemma ExactlyOnceIff(start: string, evs: seq<Event>)
    requires PlainRun(start, evs)
    ensures var d := Run(Disk(start, []), evs);
            var (d', outcome) := Drain(d, Survives);
            (outcome == Merged && Whole(d'.main)
             && forall e :: Publishes(e) in evs ==> Marked(Lines(d'.main), e.stem) == 1)
            <==> (Heals(d) && forall e :: Publishes(e) in evs ==>
                   !OvertakenAlong(Disk(start, []), evs, e) && !DiskOvertaken(d, e))
  {
    hide RunSteps, OneRowRun, OvertakenIn, OvertakenAlong, DrainSteps, Heals, Marked, Lines, Drain, AllSteps, Run, Plain, PlainStart;
    var s0, steps := StartWith(start), AllSteps(Disk(start, []), evs);
    RunIsSteps(s0, evs);
    PlainRunSteps(start, evs);
    var s := RunSteps(s0, steps);
    ReachedListing(start, steps);
    AfterOneMoreDrain(start, steps);
    DrainRuns(s, Survives);
    forall e | Publishes(e) in evs
      ensures Owed(s, TheRecord(e)) && EntryOf(TheRecord(e)) == e
      ensures OvertakenIn(s0, steps, e) <==> OvertakenAlong(Disk(start, []), evs, e)
      ensures Overtaken(s, e) <==> DiskOvertaken(OnDisk(s), e)
    {
      PublishedFinished(evs, e);
      TheEntry(e);
      RunOvertakes(s0, evs, e);
      SameOvertaken(s, e);
    }
  }
}
