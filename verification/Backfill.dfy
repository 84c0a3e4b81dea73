/**
 * The resumable backfill of one channel (scripts/backfill_channel_history.py): pages are read
 * from the newest message backwards, a checkpoint is saved after each, and the process may die
 * between any two durable effects.
 */
module Backfill {
  import opened Basics

  const HISTORY_LIMIT := 15

  datatype Event = Event(ts: nat, bot: bool, subtype: Option<string>)

  /** A top-level message and what `conversations.replies` answers for it, page by page. */
  datatype Message = Message(event: Event, replyCount: nat, thread: seq<seq<Event>>)

  /** `_accepted`: neither a bot's output nor a system event. */
  predicate Accepted(e: Event) {
    !e.bot && (e.subtype == None || e.subtype == Some("file_share"))
  }

  /** The saved state of one channel; `latest == 0` stands for the empty string. */
  datatype Checkpoint = Checkpoint(latest: nat, historyComplete: bool, pending: seq<nat>)

  const FRESH := Checkpoint(0, false, [])

  /** What survives a death: the saved checkpoint and the archive. */
  datatype Durable = Durable(saved: Checkpoint, archive: set<Event>)

  type History = h: seq<Message> | NewestFirst(h) witness []

  ghost predicate NewestFirst(h: seq<Message>) {
    && (forall i :: 0 <= i < |h| ==> h[i].event.ts > 0)
    && (forall i, j :: 0 <= i < j < |h| ==> h[i].event.ts > h[j].event.ts)
  }

  // ---- What the backfill is for -------------------------------------------------------------

  function Flat(pages: seq<seq<Event>>): seq<Event> {
    if pages == [] then [] else pages[0] + Flat(pages[1..])
  }

  /** The replies worth archiving: accepted, and not the parent that Slack repeats. */
  function Replies(m: Message): set<Event> {
    set e | e in Flat(m.thread) && e.ts != m.event.ts && Accepted(e)
  }

  ghost predicate HasThread(m: Message) { Accepted(m.event) && m.replyCount > 0 }

  /** The part of the history the checkpoint claims to have finished. */
  predicate Reached(c: Checkpoint, m: Message) {
    c.historyComplete || (c.latest != 0 && m.event.ts >= c.latest)
  }

  ghost predicate TopCovered(h: History, c: Checkpoint, archive: set<Event>) {
    forall m :: m in h && Reached(c, m) && Accepted(m.event) ==> m.event in archive
  }

  ghost predicate ThreadsCovered(h: History, c: Checkpoint, archive: set<Event>) {
    forall m :: m in h && Reached(c, m) && HasThread(m) ==> Replies(m) <= archive || m.event.ts in c.pending
  }

  ghost predicate Covered(h: History, c: Checkpoint, archive: set<Event>) {
    TopCovered(h, c, archive) && ThreadsCovered(h, c, archive)
  }

  /** Nothing but accepted messages of the channel and accepted replies in its threads. */
  ghost predicate Sound(h: History, archive: set<Event>) {
    forall e :: e in archive ==>
      (exists m :: m in h && ((e == m.event && Accepted(e)) || (HasThread(m) && e in Replies(m))))
  }

  // ---- The conversations API -----------------------------------------------------------------

  /** How many messages are not older than the bound: where `conversations.history` starts. */
  function Start(h: seq<Message>, latest: nat): (k: nat)
    ensures k <= |h|
    ensures latest == 0 ==> k == 0
    ensures forall i :: 0 <= i < k ==> h[i].event.ts >= latest
    ensures latest != 0 && k < |h| ==> h[k].event.ts < latest
  {
    if latest == 0 || h == [] || h[0].event.ts < latest then 0 else Start(h[1..], latest) + 1
  }

  function Page(h: seq<Message>, latest: nat): seq<Message> {
    h[Start(h, latest)..Min(Start(h, latest) + HISTORY_LIMIT, |h|)]
  }

  lemma OnPage(h: seq<Message>, latest: nat)
    ensures forall m :: m in Page(h, latest) ==> m in h
  {
  }

  function HasMore(h: seq<Message>, latest: nat): bool {
    Start(h, latest) + HISTORY_LIMIT < |h|
  }

  lemma BelowBound(h: History, latest: nat, i: nat)
    requires i < |h|
    ensures latest != 0 ==> (h[i].event.ts >= latest <==> i < Start(h, latest))
  {
  }

  function OldestOf(page: seq<Message>): nat
    requires page != []
  {
    if |page| == 1 then page[0].event.ts
    else Min(page[0].event.ts, OldestOf(page[1..]))
  }

  lemma {:induction false} OldestIsLast(page: seq<Message>)
    requires page != [] && NewestFirst(page)
    ensures OldestOf(page) == page[|page| - 1].event.ts
  {
    if |page| > 1 {
      OldestIsLast(page[1..]);
    }
  }

  lemma StartAt(h: History, k: nat)
    requires k < |h|
    ensures Start(h, h[k].event.ts) == k + 1
  {
    BelowBound(h, h[k].event.ts, k);
    if k + 1 < |h| {
      BelowBound(h, h[k].event.ts, k + 1);
    }
  }

  /** After a page, the new bound stands exactly behind it. */
  lemma NextStart(h: History, latest: nat)
    requires Page(h, latest) != []
    ensures Start(h, OldestOf(Page(h, latest))) == Start(h, latest) + |Page(h, latest)|
    ensures OldestOf(Page(h, latest)) != 0
  {
    var page := Page(h, latest);
    var last := Start(h, latest) + |page| - 1;
    assert page[|page| - 1] == h[last];
    OldestIsLast(page);
    StartAt(h, last);
  }

  function Distinct(ts: seq<nat>): (r: seq<nat>)
    ensures forall t :: t in r <==> t in ts
    ensures forall i, j :: 0 <= i < j < |r| ==> r[i] != r[j]
    ensures r == [] ==> ts == []
  {
    if ts == [] then []
    else
      var r := Distinct(ts[..|ts| - 1]);
      assert ts == ts[..|ts| - 1] + [ts[|ts| - 1]];
      if ts[|ts| - 1] in r then r else r + [ts[|ts| - 1]]
  }

  /** Which parents stay pending when the threads in `fails` cannot be read. */
  function Failing(ts: seq<nat>, fails: set<nat>): (r: seq<nat>)
    ensures forall t :: t in r <==> t in ts && t in fails
  {
    if ts == [] then []
    else
      assert ts == ts[..|ts| - 1] + [ts[|ts| - 1]];
      Failing(ts[..|ts| - 1], fails) + (if ts[|ts| - 1] in fails then [ts[|ts| - 1]] else [])
  }

  /** `conversations.replies` by the parent's timestamp. */
  function ThreadPages(h: seq<Message>, ts: nat): seq<seq<Event>> {
    if h == [] then [] else if h[0].event.ts == ts then h[0].thread else ThreadPages(h[1..], ts)
  }

  function KeptOf(es: seq<Event>, parent: nat): set<Event> {
    set e | e in es && e.ts != parent && Accepted(e)
  }

  function KeptReplies(pages: seq<seq<Event>>, parent: nat): set<Event> {
    KeptOf(Flat(pages), parent)
  }

  function AsSet(es: seq<Event>): set<Event> { set e | e in es }

  lemma AsSetConcat(a: seq<Event>, b: seq<Event>)
    ensures AsSet(a + b) == AsSet(a) + AsSet(b)
  {
  }

  lemma KeptOne(e: Event, parent: nat)
    ensures KeptOf([e], parent) == if e.ts != parent && Accepted(e) then {e} else {}
  {
    assert e in [e];
  }

  lemma KeptConcat(a: seq<Event>, b: seq<Event>, parent: nat)
    ensures KeptOf(a + b, parent) == KeptOf(a, parent) + KeptOf(b, parent)
  {
  }

  lemma {:induction false} ThreadOf(h: History, m: Message)
    requires m in h
    ensures ThreadPages(h, m.event.ts) == m.thread
    ensures KeptReplies(ThreadPages(h, m.event.ts), m.event.ts) == Replies(m)
    decreases |h|
  {
    if h[0] != m {
      var i :| 0 <= i < |h| && h[i] == m;
      assert h[1..][i - 1] == m;
      ThreadOf(h[1..], m);
    }
  }

  lemma {:induction false} FlatConcat(a: seq<seq<Event>>, b: seq<seq<Event>>)
    ensures Flat(a + b) == Flat(a) + Flat(b)
  {
    if a == [] {
      assert a + b == b;
    } else {
      assert (a + b)[1..] == a[1..] + b;
      FlatConcat(a[1..], b);
    }
  }

  // ---- What a run does to the disk -------------------------------------------------------------

  ghost predicate Known(h: History, parent: nat) {
    exists m :: m in h && m.event.ts == parent && HasThread(m)
  }

  /** Pending parents are parents of threads in this channel. */
  ghost predicate PendingKnown(h: History, c: Checkpoint) {
    forall t :: t in c.pending ==> Known(h, t)
  }

  ghost predicate ThreadArchived(h: History, parent: nat, archive: set<Event>) {
    forall m :: m in h && m.event.ts == parent ==> Replies(m) <= archive
  }

  /** The first `n` threads are archived, but for those that cannot be read. */
  ghost predicate Retried(h: History, ts: seq<nat>, n: nat, fails: set<nat>, archive: set<Event>)
    requires n <= |ts|
  {
    forall j :: 0 <= j < n && ts[j] !in fails ==> ThreadArchived(h, ts[j], archive)
  }

  /** The checkpoint on disk once `done` retries have been saved. */
  function AfterRetries(c: Checkpoint, fails: set<nat>, done: nat): Checkpoint
    requires done <= |Distinct(c.pending)|
  {
    if done == 0 then c else c.(pending := Failing(Distinct(c.pending)[..done], fails))
  }

  /** A reply in one of the threads. */
  ghost predicate FromThreads(h: History, ts: seq<nat>, e: Event) {
    exists t :: t in ts && e in KeptReplies(ThreadPages(h, t), t)
  }

  /** `done` retries are saved; of the thread after them some replies may be archived as well. */
  ghost predicate RetriesTo(h: History, d: Durable, d': Durable, fails: set<nat>, done: nat) {
    && done <= |Distinct(d.saved.pending)|
    && d'.saved == AfterRetries(d.saved, fails, done)
    && d.archive <= d'.archive
    && Retried(h, Distinct(d.saved.pending), done, fails, d'.archive)
    && forall e :: e in d'.archive ==> e in d.archive || FromThreads(h, d.saved.pending, e)
  }

  /** The events one page brings in: its accepted messages and the threads that could be read. */
  ghost predicate BroughtIn(page: seq<Message>, n: nat, fails: set<nat>, events: seq<Event>)
    requires n <= |page|
  {
    && (forall m :: m in page && Accepted(m.event) ==> m.event in events)
    && (forall i :: 0 <= i < n && HasThread(page[i]) && page[i].event.ts !in fails ==>
                      forall e :: e in Replies(page[i]) ==> e in events)
    && (forall e :: e in events ==>
          exists m :: m in page && ((e == m.event && Accepted(e)) || (HasThread(m) && e in Replies(m))))
  }

  /** The parents a page leaves pending are exactly those whose thread could not be read. */
  ghost predicate LeftPending(page: seq<Message>, before: seq<nat>, fails: set<nat>, after: seq<nat>) {
    && (forall t :: t in before ==> t in after)
    && (forall m :: m in page && HasThread(m) && m.event.ts in fails ==> m.event.ts in after)
    && (forall t :: t in after ==> t in before || exists m :: m in page && m.event.ts == t && HasThread(m) && t in fails)
  }

  /** What reading the page below the bound of `c` brings. */
  ghost predicate Gathered(h: History, c: Checkpoint, fails: set<nat>, events: seq<Event>, pending: seq<nat>) {
    && BroughtIn(Page(h, c.latest), |Page(h, c.latest)|, fails, events)
    && LeftPending(Page(h, c.latest), c.pending, fails, pending)
  }

  /** A whole turn of the page loop, its save included. */
  ghost predicate TurnTo(h: History, d: Durable, d': Durable, fails: set<nat>) {
    && !d.saved.historyComplete
    && if Page(h, d.saved.latest) == [] then d' == d.(saved := d.saved.(historyComplete := true))
       else
         && d'.saved.latest == OldestOf(Page(h, d.saved.latest))
         && d'.saved.historyComplete == !HasMore(h, d.saved.latest)
         && exists events ::
              Gathered(h, d.saved, fails, events, d'.saved.pending) && d'.archive == d.archive + AsSet(events)
  }

  /**
   * A turn that stopped before its save: some events are archived, and the checkpoint is the old
   * one. Only when the process went on to another channel, whose save writes every channel's
   * state, are the threads that could not be read on record.
   */
  ghost predicate TurnStops(h: History, d: Durable, d': Durable, fails: set<nat>) {
    exists events, pending ::
      && Gathered(h, d.saved, fails, events, pending)
      && d.archive <= d'.archive <= d.archive + AsSet(events)
      && (d'.saved == d.saved || d'.saved == d.saved.(pending := pending))
  }

  /** How many turns read a page that was not empty. */
  ghost function PagesRead(h: History, turns: seq<Durable>): nat {
    if |turns| <= 1 then 0
    else
      PagesRead(h, turns[..|turns| - 1]) + if Page(h, turns[|turns| - 2].saved.latest) == [] then 0 else 1
  }

  lemma OnePageMore(h: History, turns: seq<Durable>, d: Durable)
    requires turns != []
    ensures PagesRead(h, turns + [d])
         == PagesRead(h, turns) + if Page(h, turns[|turns| - 1].saved.latest) == [] then 0 else 1
  {
    assert (turns + [d])[..|turns|] == turns;
  }

  lemma NoPageYet(h: History, d: Durable, fails: set<nat>)
    ensures PagesRead(h, [d]) == 0 && Turns(h, [d], fails)
  {
  }

  lemma OneTurnMore(h: History, turns: seq<Durable>, d: Durable, fails: set<nat>)
    requires turns != [] && Turns(h, turns, fails) && TurnTo(h, turns[|turns| - 1], d, fails)
    ensures Turns(h, turns + [d], fails)
  {
    hide TurnTo;
  }

  ghost predicate Turns(h: History, turns: seq<Durable>, fails: set<nat>) {
    forall i :: 0 <= i < |turns| - 1 ==> TurnTo(h, turns[i], turns[i + 1], fails)
  }

  /**
   * One run of the script on the channel: the disk it starts from, the retries it saved, the disk
   * before each turn of the page loop (none when it stopped among the retries), the disk it left.
   */
  datatype Session = Session(start: Durable, retryFails: set<nat>, done: nat,
                             turns: seq<Durable>, fails: set<nat>, left: Durable)

  ghost predicate OneRun(h: History, s: Session) {
    if s.turns == [] then RetriesTo(h, s.start, s.left, s.retryFails, s.done)
    else
      var last := s.turns[|s.turns| - 1];
      && RetriesTo(h, s.start, s.turns[0], s.retryFails, s.done) && s.done == |Distinct(s.start.saved.pending)|
      && Turns(h, s.turns, s.fails)
      && (s.left == last || TurnStops(h, last, s.left, s.fails))
  }

  function Less(a: nat, b: nat): nat { if a < b then 0 else a - b }

  /**
   * The run was not stopped: it went on to the last turn it was allowed, which is the one that
   * found the end of the history or filled the page limit; `maxPages == 0` sets none.
   */
  ghost predicate Limited(h: History, s: Session, maxPages: nat) {
    && s.turns != [] && s.left == s.turns[|s.turns| - 1]
    && (s.turns[0].saved.historyComplete ==> |s.turns| == 1)
    && (maxPages != 0 ==> PagesRead(h, s.turns) <= maxPages)
    && (!s.left.saved.historyComplete ==> maxPages != 0 && PagesRead(h, s.turns) == maxPages)
  }

  // ---- The running process --------------------------------------------------------------------

  class ChannelBackfill {
    const history: History
    /** Does the process go on to other channels after a stop, so that their save writes this state too? */
    const goesOn: bool
    var memory: Checkpoint
    var saved: Checkpoint
    var archive: set<Event>
    /** How many more durable effects there are before the stop. */
    var life: nat
    var pages: nat
    var failures: nat

    /** A process starts from the saved checkpoint. */
    constructor (history: History, d: Durable, life: nat, goesOn: bool)
      ensures this.history == history && memory == saved == d.saved && archive == d.archive
      ensures this.life == life && this.goesOn == goesOn && pages == 0 && failures == 0
    {
      this.history, memory, saved, archive := history, d.saved, d.saved, d.archive;
      this.life, this.goesOn, pages, failures := life, goesOn, 0, 0;
    }

    ghost function Left(): Durable
      reads this
    {
      Durable(saved, archive)
    }

    /** `checkpoints.save()`: the file is replaced in one step. A later channel's save makes up for a failing one. */
    method Save() returns (alive: bool)
      modifies `saved, `life
      ensures saved == if alive || goesOn then memory else old(saved)
      ensures alive == (old(life) > 0) && life == Less(old(life), 1)
    {
      alive := life > 0;
      if alive {
        life := life - 1;
      }
      if alive || goesOn {
        saved := memory;
      }
    }

    /** `_ingest_events`: what is already archived stays once. */
    method Ingest(events: seq<Event>) returns (alive: bool)
      modifies `archive, `life
      ensures old(archive) <= archive <= old(archive) + AsSet(events)
      ensures alive ==> archive == old(archive) + AsSet(events)
      ensures alive == (old(life) >= |events|) && life == Less(old(life), |events|)
    {
      for i := 0 to |events|
        invariant archive == old(archive) + AsSet(events[..i])
        invariant life == old(life) - i
      {
        if life == 0 { return false; }
        life := life - 1;
        archive := archive + {events[i]};
        assert events[..i + 1] == events[..i] + [events[i]];
        AsSetConcat(events[..i], [events[i]]);
        assert AsSet([events[i]]) == {events[i]};
      }
      assert events[..|events|] == events;
      alive := true;
    }

    /** `_thread_messages`. */
    method ThreadMessages(parent: nat) returns (replies: seq<Event>)
      ensures AsSet(replies) == KeptReplies(ThreadPages(history, parent), parent)
    {
      replies := [];
      var pages := ThreadPages(history, parent);
      for i := 0 to |pages|
        invariant AsSet(replies) == KeptReplies(pages[..i], parent)
      {
        for j := 0 to |pages[i]|
          invariant AsSet(replies) == KeptReplies(pages[..i], parent) + KeptOf(pages[i][..j], parent)
        {
          assert pages[i][..j + 1] == pages[i][..j] + [pages[i][j]];
          KeptConcat(pages[i][..j], [pages[i][j]], parent);
          KeptOne(pages[i][j], parent);
          if pages[i][j].ts != parent && Accepted(pages[i][j]) {
            AsSetConcat(replies, [pages[i][j]]);
            assert AsSet([pages[i][j]]) == {pages[i][j]};
            replies := replies + [pages[i][j]];
          }
        }
        FlatConcat(pages[..i], [pages[i]]);
        KeptConcat(Flat(pages[..i]), Flat([pages[i]]), parent);
        assert pages[..i + 1] == pages[..i] + [pages[i]];
        assert Flat([pages[i]]) == pages[i] == pages[i][..|pages[i]|];
      }
      assert pages[..|pages|] == pages;
    }

    /** The replies of one pending thread go into the archive. */
    method RetryOne(parent: nat) returns (alive: bool)
      modifies `archive, `life
      ensures old(archive) <= archive <= old(archive) + KeptReplies(ThreadPages(history, parent), parent)
      ensures alive ==> ThreadArchived(history, parent, archive)
      ensures life <= old(life) && (alive || life == 0)
    {
      var replies := ThreadMessages(parent);
      alive := Ingest(replies);
      forall m | m in history && m.event.ts == parent && alive ensures Replies(m) <= archive {
        ThreadOf(history, m);
      }
    }

    /** The same when archiving raises after `n` replies: the exception is caught. */
    method RetryUpset(parent: nat, n: nat) returns (alive: bool)
      modifies `archive, `life
      ensures old(archive) <= archive <= old(archive) + KeptReplies(ThreadPages(history, parent), parent)
      ensures life <= old(life) && (alive || life == 0)
    {
      var replies := ThreadMessages(parent);
      var some := replies[..Min(n, |replies|)];
      assert AsSet(some) <= AsSet(replies);
      alive := Ingest(some);
    }

    /**
     * One pending thread, and the save after it. An exception while the thread is read or archived
     * is caught and leaves the parent pending; in `upsets` stands after how many replies it comes.
     */
    method RetryTurn(parent: nat, fails: set<nat>, upsets: map<nat, nat>) returns (alive: bool, ghost written: bool)
      modifies `memory, `saved, `archive, `life, `failures
      ensures old(archive) <= archive <= old(archive) + KeptReplies(ThreadPages(history, parent), parent)
      ensures alive ==> written
      ensures saved == if written then memory else old(saved)
      ensures written ==>
        memory == old(memory).(pending := old(memory).pending + (if parent in fails + upsets.Keys then [parent] else []))
      ensures written && parent !in fails + upsets.Keys ==> ThreadArchived(history, parent, archive)
      ensures life <= old(life) && (alive || life == 0)
      ensures written ==> failures - old(failures) == |memory.pending| - |old(memory).pending|
    {
      hide ThreadArchived, KeptReplies;
      alive := true;
      if parent !in fails {
        if parent in upsets {
          alive := RetryUpset(parent, upsets[parent]);
        } else {
          alive := RetryOne(parent);
        }
        if !alive { return false, false; }
      }
      if parent in fails || parent in upsets {
        memory := memory.(pending := memory.pending + [parent]);
        failures := failures + 1;
      }
      alive := Save();
      written := alive || goesOn;
    }

    /**
     * The retry of pending threads. The list is emptied in memory first, and each attempt is
     * followed by a save; `fails` and `upsets` are the parents whose thread cannot be read or
     * archived now.
     */
    method RetryPending(fails: set<nat>, upsets: map<nat, nat>) returns (alive: bool, ghost done: nat)
      requires saved == memory
      modifies `memory, `saved, `archive, `life, `failures
      ensures RetriesTo(history, old(Left()), Left(), fails + upsets.Keys, done)
      ensures alive ==> done == |Distinct(old(saved).pending)| && saved == memory
      ensures life <= old(life) && (alive || life == 0)
      ensures alive ==> failures - old(failures) == |memory.pending|
    {
      hide RetriesTo, AfterRetries, Retried, Failing, ThreadArchived, FromThreads, KeptReplies, ThreadPages, Distinct;
      ghost var all := fails + upsets.Keys;
      var pending := Distinct(memory.pending);
      NothingRetried(history, Left(), all);
      memory := memory.(pending := []);
      done := 0;
      alive := true;
      for i := 0 to |pending|
        invariant done == i && alive
        invariant memory == old(memory).(pending := Failing(pending[..i], all))
        invariant i > 0 ==> saved == memory
        invariant RetriesTo(history, old(Left()), Left(), all, i)
        invariant life <= old(life) && failures - old(failures) == |memory.pending|
      {
        assert pending[i] in pending;
        ghost var before := Left();
        ghost var written;
        alive, written := RetryTurn(pending[i], fails, upsets);
        if written {
          FailingNext(pending, i, all);
          OneMoreRetried(history, old(Left()), before, Left(), all, i);
          done := i + 1;
        } else {
          StoppedInRetry(history, old(Left()), before, Left(), all, i);
        }
        if !alive { return; }
      }
      assert pending[..|pending|] == pending;
      if |pending| == 0 {
        NothingPending(history, old(Left()), Left(), all);
      }
    }

    /** The thread of one message of a page; one that cannot be read leaves its parent pending. */
    method CollectThread(m: Message, fails: set<nat>) returns (replies: seq<Event>)
      requires m in history
      modifies `memory, `failures
      ensures AsSet(replies) == if HasThread(m) && m.event.ts !in fails then Replies(m) else {}
      ensures memory == old(memory).(pending := WithFailed(old(memory).pending, m, fails))
      ensures failures - old(failures) == |memory.pending| - |old(memory).pending|
    {
      replies := [];
      if Accepted(m.event) && m.replyCount > 0 {
        if m.event.ts in fails {
          memory := memory.(pending := memory.pending + [m.event.ts]);
          failures := failures + 1;
        } else {
          replies := ThreadMessages(m.event.ts);
          ThreadOf(history, m);
        }
      }
    }

    /** The events of one page. */
    method CollectPage(page: seq<Message>, fails: set<nat>) returns (events: seq<Event>)
      requires forall m :: m in page ==> m in history
      modifies `memory, `failures
      ensures BroughtIn(page, |page|, fails, events)
      ensures LeftPending(page, old(memory).pending, fails, memory.pending)
      ensures memory == old(memory).(pending := memory.pending)
      ensures failures - old(failures) == |memory.pending| - |old(memory).pending|
    {
      events := AcceptedOf(page);
      for i := 0 to |page|
        invariant BroughtIn(page, i, fails, events)
        invariant LeftPending(page[..i], old(memory).pending, fails, memory.pending)
        invariant memory == old(memory).(pending := memory.pending)
        invariant failures - old(failures) == |memory.pending| - |old(memory).pending|
      {
        LeavesNext(page, i, old(memory).pending, fails, memory.pending);
        var replies := CollectThread(page[i], fails);
        BringsIn(page, i, fails, events, replies);
        events := events + replies;
      }
      assert page[..|page|] == page;
    }

    method Adopt(next: Checkpoint) returns (alive: bool)
      modifies `memory, `saved, `life
      ensures memory == next
      ensures saved == if alive || goesOn then next else old(saved)
      ensures alive == (old(life) > 0) && life == Less(old(life), 1)
    {
      memory := next;
      alive := Save();
    }

    /** One page: archive it, move the bound behind it, save. */
    method TakePage(fails: set<nat>) returns (alive: bool)
      requires saved == memory && !memory.historyComplete && Page(history, memory.latest) != []
      modifies `memory, `saved, `archive, `life, `failures, `pages
      ensures TurnTo(history, old(Left()), Left(), fails) || (!alive && TurnStops(history, old(Left()), Left(), fails))
      ensures alive ==> saved == memory && pages == old(pages) + 1 && TurnTo(history, old(Left()), Left(), fails)
      ensures life <= old(life) && (alive || life == 0)
      ensures failures - old(failures) == |memory.pending| - |old(memory).pending|
    {
      hide BroughtIn, LeftPending, Page, HasMore, OldestOf;
      var c := memory;
      var page := Page(history, c.latest);
      OnPage(history, c.latest);
      var events := CollectPage(page, fails);
      assert Gathered(history, c, fails, events, memory.pending);
      alive := Ingest(events);
      if !alive {
        if goesOn { saved := memory; }
        assert TurnStops(history, old(Left()), Left(), fails);
        return;
      }
      pages := pages + 1;
      alive := Adopt(Checkpoint(OldestOf(page), !HasMore(history, c.latest), memory.pending));
      if !alive && !goesOn {
        assert TurnStops(history, old(Left()), Left(), fails);
      }
    }

    /** One turn of the page loop; an empty page ends the history. */
    method Turn(fails: set<nat>) returns (alive: bool)
      requires saved == memory && !memory.historyComplete
      modifies `memory, `saved, `archive, `life, `failures, `pages
      ensures TurnTo(history, old(Left()), Left(), fails) || (!alive && TurnStops(history, old(Left()), Left(), fails))
      ensures alive ==> saved == memory && TurnTo(history, old(Left()), Left(), fails)
      ensures alive ==> pages == old(pages) + if Page(history, old(memory).latest) == [] then 0 else 1
      ensures life <= old(life) && (alive || life == 0)
      ensures failures - old(failures) == |memory.pending| - |old(memory).pending|
    {
      if Page(history, memory.latest) == [] {
        alive := Adopt(memory.(historyComplete := true));
        if !alive && !goesOn {
          NothingStopped(history, Left(), fails);
        }
      } else {
        alive := TakePage(fails);
      }
    }

    /** The page loop: it ends because fewer messages lie below the bound after every page. */
    method HistoryLoop(fails: set<nat>, maxPages: nat) returns (alive: bool, ghost turns: seq<Durable>)
      requires saved == memory && pages == 0
      modifies `memory, `saved, `archive, `life, `failures, `pages
      ensures turns != [] && turns[0] == old(Left()) && Turns(history, turns, fails)
      ensures Left() == turns[|turns| - 1] || (!alive && TurnStops(history, turns[|turns| - 1], Left(), fails))
      ensures alive && !saved.historyComplete ==> maxPages != 0 && pages == maxPages
      ensures alive ==> saved == memory && pages == PagesRead(history, turns) && (maxPages != 0 ==> pages <= maxPages)
      ensures alive && old(saved).historyComplete ==> turns == [old(Left())]
      ensures life <= old(life) && (alive || life == 0)
      ensures failures - old(failures) == |memory.pending| - |old(memory).pending|
    {
      hide TurnTo, TurnStops, Page, Start, PagesRead, Turns;
      alive := true;
      turns := [Left()];
      NoPageYet(history, Left(), fails);
      while alive && !memory.historyComplete && (maxPages == 0 || pages < maxPages)
        invariant turns != [] && turns[0] == old(Left()) && Turns(history, turns, fails)
        invariant Left() == turns[|turns| - 1] || (!alive && TurnStops(history, turns[|turns| - 1], Left(), fails))
        invariant alive ==> saved == memory && pages == PagesRead(history, turns) && (maxPages != 0 ==> pages <= maxPages)
        invariant alive && old(saved).historyComplete ==> turns == [old(Left())]
        invariant life <= old(life) && (alive || life == 0)
        invariant failures - old(failures) == |memory.pending| - |old(memory).pending|
        decreases alive, !memory.historyComplete, |history| - Start(history, memory.latest)
      {
        ghost var d := Left();
        alive := Turn(fails);
        if TurnTo(history, d, Left(), fails) {
          OnePageMore(history, turns, Left());
          OneTurnMore(history, turns, Left(), fails);
          turns := turns + [Left()];
          TurnAdvances(history, d, Left(), fails);
        }
      }
    }

    /** `backfill_channel`, as far as messages and threads go. */
    method Run(retryFails: set<nat>, upsets: map<nat, nat>, fails: set<nat>, maxPages: nat) returns (alive: bool, ghost s: Session)
      requires saved == memory && pages == 0
      modifies this
      ensures OneRun(history, s) && s.start == old(Left()) && s.left == Left()
      ensures s.retryFails == retryFails + upsets.Keys && (s.turns != [] ==> s.fails == fails)
      ensures alive ==> s.turns != [] && Limited(history, s, maxPages)
      ensures alive && maxPages == 0 ==> saved.historyComplete
      ensures life <= old(life) && (alive || life == 0)
      ensures alive ==> saved == memory && pages == PagesRead(history, s.turns) && failures - old(failures) == |saved.pending|
    {
      ghost var done;
      ghost var start := Left();
      alive, done := RetryPending(retryFails, upsets);
      s := Session(start, retryFails + upsets.Keys, done, [], fails, Left());
      if alive {
        ghost var turns;
        alive, turns := HistoryLoop(fails, maxPages);
        s := Session(start, retryFails + upsets.Keys, done, turns, fails, Left());
      }
    }
  }

  lemma FailingNext(ts: seq<nat>, i: nat, fails: set<nat>)
    requires i < |ts|
    ensures Failing(ts[..i + 1], fails) == Failing(ts[..i], fails) + (if ts[i] in fails then [ts[i]] else [])
  {
    assert ts[..i + 1][..i] == ts[..i];
  }

  lemma NothingRetried(h: History, d: Durable, fails: set<nat>)
    ensures RetriesTo(h, d, d, fails, 0) && Failing(Distinct(d.saved.pending)[..0], fails) == []
  {
  }

  lemma NothingPending(h: History, d: Durable, d': Durable, fails: set<nat>)
    requires Distinct(d.saved.pending) == [] && RetriesTo(h, d, d', fails, 0)
    ensures d'.saved == d.saved && d.saved.pending == []
  {
  }

  /** The archive grew by replies of one more pending thread. */
  ghost predicate OneThread(h: History, d: Durable, mid: Durable, d': Durable, i: nat)
    requires i < |Distinct(d.saved.pending)|
  {
    var t := Distinct(d.saved.pending)[i];
    mid.archive <= d'.archive <= mid.archive + KeptReplies(ThreadPages(h, t), t)
  }

  lemma StillFromThreads(h: History, d: Durable, mid: Durable, d': Durable, fails: set<nat>, i: nat)
    requires RetriesTo(h, d, mid, fails, i) && i < |Distinct(d.saved.pending)| && OneThread(h, d, mid, d', i)
    ensures forall e :: e in d'.archive ==> e in d.archive || FromThreads(h, d.saved.pending, e)
    ensures Retried(h, Distinct(d.saved.pending), i, fails, d'.archive)
  {
    var ts := Distinct(d.saved.pending);
    forall e | e in d'.archive && e !in mid.archive ensures FromThreads(h, d.saved.pending, e) {
      assert ts[i] in d.saved.pending;
    }
    forall j | 0 <= j < i && ts[j] !in fails ensures ThreadArchived(h, ts[j], d'.archive) {
      assert ThreadArchived(h, ts[j], mid.archive);
    }
  }

  lemma StoppedInRetry(h: History, d: Durable, mid: Durable, d': Durable, fails: set<nat>, i: nat)
    requires RetriesTo(h, d, mid, fails, i) && i < |Distinct(d.saved.pending)| && OneThread(h, d, mid, d', i)
    requires d'.saved == mid.saved
    ensures RetriesTo(h, d, d', fails, i)
  {
    StillFromThreads(h, d, mid, d', fails, i);
  }

  lemma OneMoreRetried(h: History, d: Durable, mid: Durable, d': Durable, fails: set<nat>, i: nat)
    requires RetriesTo(h, d, mid, fails, i) && i < |Distinct(d.saved.pending)| && OneThread(h, d, mid, d', i)
    requires d'.saved == d.saved.(pending := Failing(Distinct(d.saved.pending)[..i + 1], fails))
    requires Distinct(d.saved.pending)[i] !in fails ==> ThreadArchived(h, Distinct(d.saved.pending)[i], d'.archive)
    ensures RetriesTo(h, d, d', fails, i + 1)
  {
    StillFromThreads(h, d, mid, d', fails, i);
  }

  lemma NothingStopped(h: History, d: Durable, fails: set<nat>)
    requires Page(h, d.saved.latest) == []
    ensures TurnStops(h, d, d, fails)
  {
    assert Gathered(h, d.saved, fails, [], d.saved.pending);
  }

  /** A turn either ends the history or leaves fewer messages below the bound. */
  lemma TurnAdvances(h: History, d: Durable, d': Durable, fails: set<nat>)
    requires TurnTo(h, d, d', fails)
    ensures d'.saved.historyComplete || Start(h, d'.saved.latest) > Start(h, d.saved.latest)
  {
    if Page(h, d.saved.latest) != [] {
      NextStart(h, d.saved.latest);
    }
  }

  function AcceptedOf(page: seq<Message>): (es: seq<Event>)
    ensures forall e :: e in es <==> exists m :: m in page && e == m.event && Accepted(e)
  {
    if page == [] then []
    else (if Accepted(page[0].event) then [page[0].event] else []) + AcceptedOf(page[1..])
  }

  ghost function WithFailed(pending: seq<nat>, m: Message, fails: set<nat>): seq<nat> {
    if HasThread(m) && m.event.ts in fails then pending + [m.event.ts] else pending
  }

  lemma LeavesNext(page: seq<Message>, i: nat, before: seq<nat>, fails: set<nat>, after: seq<nat>)
    requires i < |page| && LeftPending(page[..i], before, fails, after)
    ensures LeftPending(page[..i + 1], before, fails, WithFailed(after, page[i], fails))
  {
    assert page[..i + 1] == page[..i] + [page[i]];
    forall m | m in page[..i] ensures m in page[..i + 1] {}
    assert page[i] in page[..i + 1];
  }

  lemma BringsIn(page: seq<Message>, i: nat, fails: set<nat>, events: seq<Event>, replies: seq<Event>)
    requires i < |page| && BroughtIn(page, i, fails, events)
    requires AsSet(replies) == if HasThread(page[i]) && page[i].event.ts !in fails then Replies(page[i]) else {}
    ensures BroughtIn(page, i + 1, fails, events + replies)
  {
    hide Replies, HasThread, Accepted;
    forall e | e in replies ensures HasThread(page[i]) && e in Replies(page[i]) {
      assert e in AsSet(replies);
    }
    if HasThread(page[i]) && page[i].event.ts !in fails {
      forall e | e in Replies(page[i]) ensures e in replies {
        assert e in AsSet(replies);
      }
    }
  }

  // ---- What a turn keeps -----------------------------------------------------------------------

  /** Every accepted message in range is archived, nothing foreign is, pending parents have threads. */
  ghost predicate MessagesKept(h: History, d: Durable) {
    TopCovered(h, d.saved, d.archive) && Sound(h, d.archive) && PendingKnown(h, d.saved)
  }

  /** What the new checkpoint reaches was reached before or stands on the page just read. */
  lemma ReachedByPage(h: History, c: Checkpoint, m: Message, complete: bool)
    requires !c.historyComplete && Page(h, c.latest) != [] && (complete ==> !HasMore(h, c.latest))
    requires m in h && (complete || m.event.ts >= OldestOf(Page(h, c.latest)))
    ensures Reached(c, m) || m in Page(h, c.latest)
  {
    var page := Page(h, c.latest);
    NextStart(h, c.latest);
    var i :| 0 <= i < |h| && h[i] == m;
    BelowBound(h, OldestOf(page), i);
    BelowBound(h, c.latest, i);
    if i >= Start(h, c.latest) {
      assert h[i] == page[i - Start(h, c.latest)];
    }
  }

  /** Behind the last page everything has been reached. */
  lemma AllReached(h: History, c: Checkpoint)
    requires Page(h, c.latest) == []
    ensures forall m :: m in h ==> Reached(c, m)
  {
    forall m | m in h ensures Reached(c, m) {
      var i :| 0 <= i < |h| && h[i] == m;
      BelowBound(h, c.latest, i);
    }
  }

  lemma TurnReaches(h: History, d: Durable, d': Durable, fails: set<nat>, m: Message)
    requires TurnTo(h, d, d', fails) && m in h && Reached(d'.saved, m)
    ensures Reached(d.saved, m) || m in Page(h, d.saved.latest)
  {
    if Page(h, d.saved.latest) == [] {
      AllReached(h, d.saved);
    } else {
      ReachedByPage(h, d.saved, m, d'.saved.historyComplete);
    }
  }

  lemma GatheredIsSound(h: History, c: Checkpoint, fails: set<nat>, events: seq<Event>, pending: seq<nat>)
    requires Gathered(h, c, fails, events, pending)
    ensures Sound(h, AsSet(events))
    ensures PendingKnown(h, c) ==> PendingKnown(h, c.(pending := pending))
  {
    forall m | m in Page(h, c.latest) ensures m in h {}
  }

  lemma SoundUnion(h: History, a: set<Event>, b: set<Event>, c: set<Event>)
    requires Sound(h, a) && Sound(h, b) && c <= a + b
    ensures Sound(h, c)
  {
  }

  /** Moving the bound behind an archived page keeps every accepted message in range archived. */
  lemma TurnKeepsMessages(h: History, d: Durable, d': Durable, fails: set<nat>)
    requires TurnTo(h, d, d', fails) && MessagesKept(h, d)
    ensures MessagesKept(h, d')
  {
    forall m | m in h && Reached(d'.saved, m) ensures Reached(d.saved, m) || m in Page(h, d.saved.latest) {
      TurnReaches(h, d, d', fails, m);
    }
    if Page(h, d.saved.latest) != [] {
      var events :| Gathered(h, d.saved, fails, events, d'.saved.pending) && d'.archive == d.archive + AsSet(events);
      GatheredIsSound(h, d.saved, fails, events, d'.saved.pending);
      SoundUnion(h, d.archive, AsSet(events), d'.archive);
    }
  }

  /** And every thread in range archived or pending. */
  lemma TurnKeepsThreads(h: History, d: Durable, d': Durable, fails: set<nat>)
    requires TurnTo(h, d, d', fails) && ThreadsCovered(h, d.saved, d.archive)
    ensures ThreadsCovered(h, d'.saved, d'.archive)
  {
    if Page(h, d.saved.latest) == [] {
      AllReached(h, d.saved);
    } else {
      var page := Page(h, d.saved.latest);
      var events :| Gathered(h, d.saved, fails, events, d'.saved.pending) && d'.archive == d.archive + AsSet(events);
      forall m | m in h && Reached(d'.saved, m) && HasThread(m)
        ensures Replies(m) <= d'.archive || m.event.ts in d'.saved.pending
      {
        TurnReaches(h, d, d', fails, m);
        if !Reached(d.saved, m) {
          var i :| 0 <= i < |page| && page[i] == m;
        }
      }
    }
  }

  lemma StopKeeps(h: History, d: Durable, d': Durable, fails: set<nat>)
    requires TurnStops(h, d, d', fails)
    ensures MessagesKept(h, d) ==> MessagesKept(h, d')
    ensures ThreadsCovered(h, d.saved, d.archive) ==> ThreadsCovered(h, d'.saved, d'.archive)
  {
    var events, pending :|
      && Gathered(h, d.saved, fails, events, pending)
      && d.archive <= d'.archive <= d.archive + AsSet(events)
      && (d'.saved == d.saved || d'.saved == d.saved.(pending := pending));
    assert forall m :: Reached(d'.saved, m) == Reached(d.saved, m);
    GatheredIsSound(h, d.saved, fails, events, pending);
    if MessagesKept(h, d) {
      SoundUnion(h, d.archive, AsSet(events), d'.archive);
    }
  }

  lemma {:induction false} TurnsKeepMessages(h: History, turns: seq<Durable>, fails: set<nat>, i: nat)
    requires Turns(h, turns, fails) && i < |turns| && MessagesKept(h, turns[0])
    ensures MessagesKept(h, turns[i])
  {
    hide MessagesKept, TurnTo;
    if i > 0 {
      TurnsKeepMessages(h, turns, fails, i - 1);
      assert TurnTo(h, turns[i - 1], turns[i - 1 + 1], fails);
      TurnKeepsMessages(h, turns[i - 1], turns[i], fails);
    }
  }

  lemma {:induction false} TurnsKeepThreads(h: History, turns: seq<Durable>, fails: set<nat>, i: nat)
    requires Turns(h, turns, fails) && i < |turns| && ThreadsCovered(h, turns[0].saved, turns[0].archive)
    ensures ThreadsCovered(h, turns[i].saved, turns[i].archive)
  {
    hide ThreadsCovered, TurnTo;
    if i > 0 {
      TurnsKeepThreads(h, turns, fails, i - 1);
      assert TurnTo(h, turns[i - 1], turns[i - 1 + 1], fails);
      TurnKeepsThreads(h, turns[i - 1], turns[i], fails);
    }
  }

  /** Nothing that was reached is given up. */
  ghost predicate Further(h: History, c: Checkpoint, c': Checkpoint) {
    forall m :: m in h && Reached(c, m) ==> Reached(c', m)
  }

  lemma TurnGoesFurther(h: History, d: Durable, d': Durable, fails: set<nat>)
    requires TurnTo(h, d, d', fails)
    ensures Further(h, d.saved, d'.saved)
  {
    if Page(h, d.saved.latest) != [] {
      NextStart(h, d.saved.latest);
      forall m | m in h && Reached(d.saved, m) ensures Reached(d'.saved, m) {
        var i :| 0 <= i < |h| && h[i] == m;
        BelowBound(h, d.saved.latest, i);
        BelowBound(h, d'.saved.latest, i);
      }
    }
  }

  lemma {:induction false} TurnsGoFurther(h: History, turns: seq<Durable>, fails: set<nat>, i: nat)
    requires Turns(h, turns, fails) && i < |turns|
    ensures Further(h, turns[0].saved, turns[i].saved)
  {
    hide TurnTo, Reached;
    if i > 0 {
      TurnsGoFurther(h, turns, fails, i - 1);
      assert TurnTo(h, turns[i - 1], turns[i - 1 + 1], fails);
      TurnGoesFurther(h, turns[i - 1], turns[i], fails);
    }
  }

  /** A run never moves the checkpoint back, wherever it stops. */
  lemma RunGoesFurther(h: History, s: Session)
    requires OneRun(h, s)
    ensures Further(h, s.start.saved, s.left.saved)
  {
    if s.turns != [] {
      TurnsGoFurther(h, s.turns, s.fails, |s.turns| - 1);
    }
  }

  // ---- What the retries keep -------------------------------------------------------------------

  lemma ThreadSound(h: History, parent: nat)
    requires Known(h, parent)
    ensures Sound(h, KeptReplies(ThreadPages(h, parent), parent))
  {
    var m :| m in h && m.event.ts == parent && HasThread(m);
    ThreadOf(h, m);
  }

  /** Wherever the retries stop: the messages never depend on what is pending. */
  lemma RetriesKeepMessages(h: History, d: Durable, d': Durable, fails: set<nat>, done: nat)
    requires RetriesTo(h, d, d', fails, done) && MessagesKept(h, d)
    ensures MessagesKept(h, d')
  {
    assert forall m :: Reached(d'.saved, m) == Reached(d.saved, m);
    forall e | e in d'.archive && e !in d.archive ensures Sound(h, {e}) {
      var t :| t in d.saved.pending && e in KeptReplies(ThreadPages(h, t), t);
      ThreadSound(h, t);
    }
    forall e | e in d'.archive
      ensures exists m :: m in h && ((e == m.event && Accepted(e)) || (HasThread(m) && e in Replies(m)))
    {
      assert e in {e};
    }
    forall t | t in d'.saved.pending ensures Known(h, t) {
      assert done > 0 ==> t in Distinct(d.saved.pending)[..done];
    }
  }

  /** The parents the retry loop had not come to have their replies in the archive anyway. */
  ghost predicate RestArchived(h: History, c: Checkpoint, done: nat, archive: set<Event>) {
    forall j, m :: done <= j < |Distinct(c.pending)| && m in h && m.event.ts == Distinct(c.pending)[j] ==>
      (Reached(c, m) && HasThread(m) ==> Replies(m) <= archive)
  }

  /**
   * The run stopped in the retry loop after saving `done >= 1` retries. The checkpoint it leaves
   * still accounts for every thread exactly when the replies of the parents it had not come to
   * are in the archive already.
   */
  lemma RetryDeathKeepsThreadsIff(h: History, d: Durable, d': Durable, fails: set<nat>, done: nat)
    requires RetriesTo(h, d, d', fails, done) && done >= 1 && ThreadsCovered(h, d.saved, d.archive)
    ensures ThreadsCovered(h, d'.saved, d'.archive) <==> RestArchived(h, d.saved, done, d'.archive)
  {
    var ts := Distinct(d.saved.pending);
    forall m | m in h && Reached(d'.saved, m) && HasThread(m) && !(Replies(m) <= d.archive)
      ensures m.event.ts in ts[..done] || m.event.ts in ts[done..]
    {
      assert Reached(d.saved, m) && m.event.ts in ts;
    }
    forall j | done <= j < |ts| ensures ts[j] !in d'.saved.pending {
      assert forall i :: 0 <= i < done ==> ts[..done][i] != ts[j];
    }
  }

  // ---- Many runs -----------------------------------------------------------------------------

  /** The run stopped between the saves of the retry loop. */
  predicate CutShort(s: Session) {
    s.turns == [] && 0 < s.done < |Distinct(s.start.saved.pending)|
  }

  /** A run that was cut short has lost nothing if the threads it had not come to were archived. */
  ghost predicate Harmless(h: History, s: Session) {
    CutShort(s) ==> RestArchived(h, s.start.saved, s.done, s.left.archive)
  }

  lemma RunKeepsMessages(h: History, s: Session)
    requires OneRun(h, s) && MessagesKept(h, s.start)
    ensures MessagesKept(h, s.left)
  {
    hide MessagesKept, RetriesTo, TurnStops, Turns;
    if s.turns == [] {
      RetriesKeepMessages(h, s.start, s.left, s.retryFails, s.done);
    } else {
      var last := s.turns[|s.turns| - 1];
      RetriesKeepMessages(h, s.start, s.turns[0], s.retryFails, s.done);
      TurnsKeepMessages(h, s.turns, s.fails, |s.turns| - 1);
      if s.left != last {
        StopKeeps(h, last, s.left, s.fails);
      }
    }
  }

  lemma AllRetriesKeepThreads(h: History, d: Durable, d': Durable, fails: set<nat>, done: nat)
    requires RetriesTo(h, d, d', fails, done) && ThreadsCovered(h, d.saved, d.archive)
    requires done == 0 || done == |Distinct(d.saved.pending)|
    ensures ThreadsCovered(h, d'.saved, d'.archive)
  {
    if done != 0 {
      RetryDeathKeepsThreadsIff(h, d, d', fails, done);
    }
  }

  /** A run keeps account of every thread exactly when it was not cut short to any harm. */
  lemma RunKeepsThreadsIff(h: History, s: Session)
    requires OneRun(h, s) && ThreadsCovered(h, s.start.saved, s.start.archive)
    ensures ThreadsCovered(h, s.left.saved, s.left.archive) <==> Harmless(h, s)
  {
    if CutShort(s) {
      RetryDeathKeepsThreadsIff(h, s.start, s.left, s.retryFails, s.done);
    } else {
      RunNotCutShort(h, s);
    }
  }

  lemma RunNotCutShort(h: History, s: Session)
    requires OneRun(h, s) && ThreadsCovered(h, s.start.saved, s.start.archive) && !CutShort(s)
    ensures ThreadsCovered(h, s.left.saved, s.left.archive)
  {
    hide ThreadsCovered, TurnStops, Turns;
    if s.turns == [] {
      AllRetriesKeepThreads(h, s.start, s.left, s.retryFails, s.done);
    } else {
      var last := s.turns[|s.turns| - 1];
      AllRetriesKeepThreads(h, s.start, s.turns[0], s.retryFails, s.done);
      TurnsKeepThreads(h, s.turns, s.fails, |s.turns| - 1);
      if s.left != last {
        StopKeeps(h, last, s.left, s.fails);
      }
    }
  }

  /** Each run starts from what the one before left, or from nothing but its archive (`--restart`). */
  ghost predicate Runs(h: History, ss: seq<Session>) {
    && (forall i :: 0 <= i < |ss| ==> OneRun(h, ss[i]))
    && (ss != [] ==> ss[0].start == Durable(FRESH, {}))
    && (forall i :: 0 <= i < |ss| - 1 ==> Follows(ss[i].left, ss[i + 1].start))
  }

  predicate Follows(d: Durable, start: Durable) {
    start == d || start == d.(saved := FRESH)
  }

  lemma NothingReached(h: History, archive: set<Event>)
    ensures TopCovered(h, FRESH, archive) && ThreadsCovered(h, FRESH, archive) && PendingKnown(h, FRESH)
  {
  }

  /**
   * However many runs there were, wherever each of them stopped, in the retry loop too: every
   * accepted message at or above the saved bound is archived, and nothing foreign is.
   */
  lemma {:induction false} ChainCovers(h: History, ss: seq<Session>, i: nat)
    requires Runs(h, ss) && i < |ss|
    ensures MessagesKept(h, ss[i].left)
  {
    NothingReached(h, if i == 0 then {} else ss[i - 1].left.archive);
    if i > 0 {
      ChainCovers(h, ss, i - 1);
      assert Follows(ss[i - 1].left, ss[i - 1 + 1].start);
    }
    RunKeepsMessages(h, ss[i]);
  }

  /** From a fresh or restarted checkpoint on, runs that lost nothing leave every thread archived or pending. */
  lemma {:induction false} ChainKeepsThreads(h: History, ss: seq<Session>, from: nat, i: nat)
    requires Runs(h, ss) && from <= i < |ss| && ss[from].start.saved == FRESH
    requires forall j :: from <= j <= i ==> Harmless(h, ss[j])
    ensures ThreadsCovered(h, ss[i].left.saved, ss[i].left.archive)
  {
    if i == from {
      NothingReached(h, ss[from].start.archive);
    } else {
      ChainKeepsThreads(h, ss, from, i - 1);
      NothingReached(h, ss[i - 1].left.archive);
      assert Follows(ss[i - 1].left, ss[i - 1 + 1].start);
    }
    RunKeepsThreadsIff(h, ss[i]);
  }

  /** All the checkpoints a chain leaves account for every thread iff none of its runs lost any. */
  lemma ChainKeepsThreadsIff(h: History, ss: seq<Session>)
    requires Runs(h, ss)
    ensures (forall i :: 0 <= i < |ss| ==> ThreadsCovered(h, ss[i].left.saved, ss[i].left.archive)) <==>
            (forall i :: 0 <= i < |ss| ==> Harmless(h, ss[i]))
  {
    if forall i :: 0 <= i < |ss| ==> Harmless(h, ss[i]) {
      forall i | 0 <= i < |ss| ensures ThreadsCovered(h, ss[i].left.saved, ss[i].left.archive) {
        ChainKeepsThreads(h, ss, 0, i);
      }
    }
    if forall i :: 0 <= i < |ss| ==> ThreadsCovered(h, ss[i].left.saved, ss[i].left.archive) {
      forall i | 0 <= i < |ss| ensures Harmless(h, ss[i]) {
        NothingReached(h, ss[i].start.archive);
        assert i > 0 ==> Follows(ss[i - 1].left, ss[i - 1 + 1].start);
        RunKeepsThreadsIff(h, ss[i]);
      }
    }
  }

  /**
   * However many runs stopped, wherever they did, and however few pages each was allowed: once
   * the history is recorded as complete, the top-level messages in the archive are the accepted ones.
   */
  lemma CompleteMeansAllMessages(h: History, ss: seq<Session>, m: Message)
    requires Runs(h, ss) && ss != [] && m in h
    requires ss[|ss| - 1].left.saved.historyComplete
    ensures m.event in ss[|ss| - 1].left.archive <==> Accepted(m.event)
  {
    ChainCovers(h, ss, |ss| - 1);
  }

  /** So two ways of getting there, a single uninterrupted pass among them, archive the same messages. */
  lemma SameAsOnePass(h: History, a: seq<Session>, b: seq<Session>, m: Message)
    requires Runs(h, a) && Runs(h, b) && a != [] && b != [] && m in h
    requires a[|a| - 1].left.saved.historyComplete && b[|b| - 1].left.saved.historyComplete
    ensures m.event in a[|a| - 1].left.archive <==> m.event in b[|b| - 1].left.archive
  {
    CompleteMeansAllMessages(h, a, m);
    CompleteMeansAllMessages(h, b, m);
  }

  /** Once no thread is pending either, and none was lost, the archive holds all of the channel and nothing else. */
  lemma NothingPendingMeansEverything(h: History, ss: seq<Session>, from: nat, e: Event)
    requires Runs(h, ss) && from < |ss| && ss[from].start.saved == FRESH
    requires forall j :: from <= j < |ss| ==> Harmless(h, ss[j])
    requires var c := ss[|ss| - 1].left.saved; c.historyComplete && c.pending == []
    ensures e in ss[|ss| - 1].left.archive <==>
            exists m :: m in h && ((e == m.event && Accepted(e)) || (HasThread(m) && e in Replies(m)))
  {
    hide Runs, OneRun, MessagesKept, ThreadsCovered, Harmless;
    ChainCovers(h, ss, |ss| - 1);
    ChainKeepsThreads(h, ss, from, |ss| - 1);
    NothingMissing(h, ss[|ss| - 1].left, e);
  }

  lemma NothingMissing(h: History, d: Durable, e: Event)
    requires MessagesKept(h, d) && ThreadsCovered(h, d.saved, d.archive)
    requires d.saved.historyComplete && d.saved.pending == []
    ensures e in d.archive <==>
            exists m :: m in h && ((e == m.event && Accepted(e)) || (HasThread(m) && e in Replies(m)))
  {
    assert forall m :: m in h ==> Reached(d.saved, m);
  }

  // ---- A run that loses a thread ---------------------------------------------------------------

  const FIRST_REPLY := Event(6, false, None)
  const SECOND_REPLY := Event(7, false, None)
  const OLDER := Message(Event(4, false, None), 1, [[FIRST_REPLY]])
  const NEWER := Message(Event(5, false, None), 1, [[SECOND_REPLY]])

  /** Both threads could not be read on the first pass. */
  const BOTH_PENDING := Durable(Checkpoint(4, true, [4, 5]), {NEWER.event, OLDER.event})

  /** The run after it retried the older thread, saved, and stopped. */
  const FORGETFUL := Session(BOTH_PENDING, {}, 1, [], {},
                             Durable(Checkpoint(4, true, []), {NEWER.event, OLDER.event, FIRST_REPLY}))

  /** The newer thread is then neither archived nor pending. */
  lemma RetryDeathLosesAThread()
    ensures NewestFirst([NEWER, OLDER]) && OneRun([NEWER, OLDER], FORGETFUL)
    ensures Covered([NEWER, OLDER], BOTH_PENDING.saved, BOTH_PENDING.archive)
    ensures !ThreadsCovered([NEWER, OLDER], FORGETFUL.left.saved, FORGETFUL.left.archive)
  {
    var h: History := [NEWER, OLDER];
    assert NEWER in h && OLDER in h;
    OneThreadRead();
    SecondIsMissing();
    assert Reached(FORGETFUL.left.saved, NEWER) && HasThread(NEWER);
  }

  lemma OneThreadRead()
    requires NewestFirst([NEWER, OLDER])
    ensures RetriesTo([NEWER, OLDER], BOTH_PENDING, FORGETFUL.left, {}, 1)
  {
    OneDone();
    OlderIsRead();
    hide Distinct, Failing, Replies, KeptReplies, ThreadPages;
    assert FromThreads([NEWER, OLDER], [4, 5], FIRST_REPLY) by {
      assert 4 in [4, 5];
    }
  }

  lemma OneDone()
    ensures Distinct([4, 5]) == [4, 5] && AfterRetries(BOTH_PENDING.saved, {}, 1) == FORGETFUL.left.saved
  {
    assert [4, 5][..1] == [4] && [4][..0] == [];
    assert Distinct([4, 5]) == [4, 5];
    assert Failing([4, 5][..1], {}) == [];
  }

  lemma OlderIsRead()
    ensures Replies(OLDER) == {FIRST_REPLY} && FIRST_REPLY in KeptReplies(ThreadPages([NEWER, OLDER], 4), 4)
  {
    assert Flat(OLDER.thread) == [FIRST_REPLY];
    assert ThreadPages([NEWER, OLDER], 4) == ThreadPages([OLDER], 4) == OLDER.thread;
    assert FIRST_REPLY in [FIRST_REPLY];
  }

  lemma SecondIsMissing()
    ensures !(Replies(NEWER) <= {NEWER.event, OLDER.event, FIRST_REPLY})
  {
    assert Flat(NEWER.thread) == [SECOND_REPLY];
    assert SECOND_REPLY in Replies(NEWER);
  }
}
