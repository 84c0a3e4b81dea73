/**
 * How far a session of the backfill gets: pages are read fifteen messages at a time, a session
 * that is not stopped reads all it is allowed, and nobody but people is archived
 * (scripts/backfill_channel_history.py).
 */
module BackfillPages {
  import opened Basics
  import opened Backfill

  // ---- Pages -----------------------------------------------------------------------------------

  /** Where the bound stands after so many pages. */
  ghost predicate StandsAt(h: History, c: Checkpoint, start: nat, pages: nat) {
    if c.historyComplete then
      && Start(h, c.latest) == |h|
      && |h| - start <= 15 * pages && (pages > 0 ==> 15 * (pages - 1) < |h| - start)
    else
      Start(h, c.latest) == start + 15 * pages && (pages > 0 ==> start + 15 * pages < |h|)
  }

  lemma OneTurn(h: History, d: Durable, d': Durable, fails: set<nat>, start: nat, pages: nat)
    requires TurnTo(h, d, d', fails) && StandsAt(h, d.saved, start, pages)
    ensures StandsAt(h, d'.saved, start, pages + if Page(h, d.saved.latest) == [] then 0 else 1)
  {
    if Page(h, d.saved.latest) != [] {
      NextStart(h, d.saved.latest);
    }
  }

  lemma {:induction false} TurnsStandAt(h: History, turns: seq<Durable>, fails: set<nat>)
    requires turns != [] && Turns(h, turns, fails) && !turns[0].saved.historyComplete
    ensures StandsAt(h, turns[|turns| - 1].saved, Start(h, turns[0].saved.latest), PagesRead(h, turns))
  {
    if |turns| > 1 {
      var front := turns[..|turns| - 1];
      hide TurnTo, StandsAt, Page;
      forall i | 0 <= i < |front| - 1 ensures TurnTo(h, front[i], front[i + 1], fails) {
        assert TurnTo(h, turns[i], turns[i + 1], fails);
      }
      TurnsStandAt(h, front, fails);
      assert TurnTo(h, turns[|turns| - 2], turns[|turns| - 2 + 1], fails);
      OneTurn(h, turns[|turns| - 2], turns[|turns| - 1], fails, Start(h, turns[0].saved.latest), PagesRead(h, front));
    }
  }

  lemma RetriesKeepBound(h: History, d: Durable, d': Durable, fails: set<nat>, done: nat)
    requires RetriesTo(h, d, d', fails, done)
    ensures d'.saved.latest == d.saved.latest && d'.saved.historyComplete == d.saved.historyComplete
  {
  }

  /**
   * A session that was not stopped: with `left` messages still below the bound it completes the
   * history exactly when it may read that many, and otherwise moves the bound behind exactly
   * fifteen times its page limit more messages. The pages it counts are those it read.
   */
  lemma SessionReads(h: History, s: Session, maxPages: nat)
    requires OneRun(h, s) && Limited(h, s, maxPages) && !s.start.saved.historyComplete
    ensures var start := Start(h, s.start.saved.latest);
            var left := |h| - start;
            && (s.left.saved.historyComplete <==> maxPages == 0 || left <= 15 * maxPages)
            && Start(h, s.left.saved.latest) == (if s.left.saved.historyComplete then |h| else start + 15 * maxPages)
            && PagesRead(h, s.turns) == (if s.left.saved.historyComplete then (left + 14) / 15 else maxPages)
  {
    hide OneRun, Limited, PagesRead, Start, Turns, RetriesTo, StandsAt;
    RunParts(h, s, maxPages);
    StartWithin(h, s.start.saved.latest);
    RetriesKeepBound(h, s.start, s.turns[0], s.retryFails, s.done);
    TurnsStandAt(h, s.turns, s.fails);
    StandsWhere(h, s.left.saved, Start(h, s.start.saved.latest), PagesRead(h, s.turns), maxPages);
  }

  lemma RunParts(h: History, s: Session, maxPages: nat)
    requires OneRun(h, s) && Limited(h, s, maxPages)
    ensures s.turns != [] && RetriesTo(h, s.start, s.turns[0], s.retryFails, s.done) && Turns(h, s.turns, s.fails)
    ensures s.left == s.turns[|s.turns| - 1] && (maxPages != 0 ==> PagesRead(h, s.turns) <= maxPages)
    ensures !s.left.saved.historyComplete ==> maxPages != 0 && PagesRead(h, s.turns) == maxPages
  {
    hide RetriesTo, Turns, TurnStops, PagesRead;
  }

  lemma StandsWhere(h: History, c: Checkpoint, start: nat, pages: nat, maxPages: nat)
    requires StandsAt(h, c, start, pages)
    requires (maxPages != 0 ==> pages <= maxPages) && (!c.historyComplete ==> maxPages != 0 && pages == maxPages)
    requires start <= |h|
    ensures c.historyComplete <==> maxPages == 0 || |h| - start <= 15 * maxPages
    ensures Start(h, c.latest) == if c.historyComplete then |h| else start + 15 * maxPages
    ensures pages == if c.historyComplete then (|h| - start + 14) / 15 else maxPages
  {
    hide Start;
    Counted(c.historyComplete, Start(h, c.latest), |h|, start, pages, maxPages);
  }

  lemma StartWithin(h: History, latest: nat)
    ensures Start(h, latest) <= |h|
  {
  }

  lemma Counted(complete: bool, at: nat, size: nat, start: nat, pages: nat, maxPages: nat)
    requires start <= size
    requires if complete then at == size && size - start <= 15 * pages && (pages > 0 ==> 15 * (pages - 1) < size - start)
             else at == start + 15 * pages && (pages > 0 ==> at < size)
    requires (maxPages != 0 ==> pages <= maxPages) && (!complete ==> maxPages != 0 && pages == maxPages)
    ensures complete <==> maxPages == 0 || size - start <= 15 * maxPages
    ensures at == if complete then size else start + 15 * maxPages
    ensures pages == if complete then (size - start + 14) / 15 else maxPages
  {
  }

  /** One that starts on a finished history reads nothing. */
  lemma CompleteReadsNothing(h: History, s: Session, maxPages: nat)
    requires OneRun(h, s) && Limited(h, s, maxPages) && s.start.saved.historyComplete
    ensures s.left.saved.historyComplete && s.left.saved.latest == s.start.saved.latest
  {
    RetriesKeepBound(h, s.start, s.turns[0], s.retryFails, s.done);
  }

  /** Sessions of at most so many pages, none of them stopped, each going on where the one before left off. */
  ghost predicate Staged(h: History, ss: seq<Session>, maxPages: nat) {
    && Runs(h, ss)
    && (forall i :: 0 <= i < |ss| ==> Limited(h, ss[i], maxPages))
    && (forall i :: 0 <= i < |ss| - 1 ==> ss[i + 1].start == ss[i].left)
  }

  /** A history read in stages is finished by the session in which the pages allowed come to its length. */
  lemma {:induction false} StagesComplete(h: History, ss: seq<Session>, maxPages: nat, i: nat)
    requires Staged(h, ss, maxPages) && i < |ss| && maxPages > 0
    ensures var c := ss[i].left.saved;
            && (c.historyComplete <==> |h| <= 15 * (maxPages * (i + 1)))
            && (!c.historyComplete ==> Start(h, c.latest) == 15 * (maxPages * (i + 1)))
  {
    hide OneRun, Limited, Start;
    if i == 0 {
      FreshStart(h);
    } else {
      StagesComplete(h, ss, maxPages, i - 1);
      assert ss[i - 1 + 1].start == ss[i - 1].left;
      OneStageMore(maxPages, i);
    }
    if ss[i].start.saved.historyComplete {
      CompleteReadsNothing(h, ss[i], maxPages);
    } else {
      SessionReads(h, ss[i], maxPages);
    }
  }

  lemma FreshStart(h: History)
    ensures Start(h, FRESH.latest) == 0
  {
  }

  lemma OneStageMore(maxPages: nat, i: nat)
    ensures maxPages * (i + 1) == maxPages * i + maxPages
  {
  }

  // ---- Who is archived -------------------------------------------------------------------------

  /** What a person wrote, a shared file included. */
  predicate FromAPerson(e: Event) { !e.bot && (e.subtype.None? || e.subtype.value == "file_share") }

  /** Whatever stopped and however often: only what people wrote is archived, and once the history is complete all of it is. */
  lemma OnlyPeopleAreArchived(h: History, ss: seq<Session>, i: nat, e: Event)
    requires Runs(h, ss) && i < |ss|
    ensures e in ss[i].left.archive ==> FromAPerson(e)
    ensures ss[i].left.saved.historyComplete && FromAPerson(e) && (exists m :: m in h && m.event == e) ==> e in ss[i].left.archive
  {
    hide Runs;
    ChainCovers(h, ss, i);
  }

  /** Parents are retried in the order in which they were recorded first. */
  lemma {:induction false} RetriedInOrder(ts: seq<nat>, k: nat)
    requires k <= |ts|
    ensures Distinct(ts[..k]) <= Distinct(ts)
  {
    if k < |ts| {
      RetriedInOrder(ts[..|ts| - 1], k);
      assert ts[..|ts| - 1][..k] == ts[..k];
    } else {
      assert ts[..k] == ts;
    }
  }
}
