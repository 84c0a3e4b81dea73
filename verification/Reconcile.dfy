/** `reconcile` of src/tybot/channel_lifecycle.py: the registry against Slack's channel list. */
module Reconcile {
  import opened Basics
  import opened Retired

  /** A channel the archive holds. */
  datatype Known = Known(id: string, name: string)

  datatype Report = Report(archived: nat, deleted: nat, restored: nat, checked: nat, failed: nat)

  /** Slack's list: for each channel in it, whether it is archived. */
  type Live = map<string, bool>

  /** One reconciliation: the list, the registry as it was at the start, what the disk does, the time. */
  datatype Round = Round(live: Live, current: Registry, workspace: string, ok: seq<bool>, at: string)

  predicate Was(round: Round, e: Known) { Find(round.current, round.workspace, e.id, e.name).Some? }

  function RowFor(round: Round, e: Known): Row { Row(round.workspace, e.id, e.name, Archived, round.at) }

  predicate Marks(round: Round, e: Known, ok: bool) {
    e.id in round.live && round.live[e.id] && !Was(round, e) && ok && Acceptable(round.workspace, e.id, e.name)
  }

  predicate Restores(round: Round, e: Known, ok: bool, rows: seq<Row>) {
    e.id in round.live && !round.live[e.id] && Was(round, e) && ok
    && Without(rows, round.workspace, e.id, e.name) != rows
  }

  function Step(round: Round, e: Known, ok: bool, rows: seq<Row>): seq<Row> {
    if Marks(round, e, ok) then Marked(rows, RowFor(round, e))
    else if Restores(round, e, ok, rows) then Without(rows, round.workspace, e.id, e.name)
    else rows
  }

  /** The rows after the first `n` known channels. */
  function Reconciled(round: Round, known: seq<Known>, rows: seq<Row>, n: nat): seq<Row>
    requires n <= |known| == |round.ok|
  {
    if n == 0 then rows else Step(round, known[n - 1], round.ok[n - 1], Reconciled(round, known, rows, n - 1))
  }

  function MarkCount(round: Round, known: seq<Known>, n: nat): nat
    requires n <= |known| == |round.ok|
  {
    if n == 0 then 0
    else MarkCount(round, known, n - 1) + if Marks(round, known[n - 1], round.ok[n - 1]) then 1 else 0
  }

  function RestoreCount(round: Round, known: seq<Known>, rows: seq<Row>, n: nat): nat
    requires n <= |known| == |round.ok|
  {
    if n == 0 then 0
    else
      RestoreCount(round, known, rows, n - 1)
      + if Restores(round, known[n - 1], round.ok[n - 1], Reconciled(round, known, rows, n - 1)) then 1 else 0
  }

  /** One known channel's turn. */
  method Turn(registry: RetiredChannels, round: Round, e: Known, ok: bool, stamp: nat) returns (marked: bool, restored: bool)
    requires registry.Valid()
    modifies registry
    ensures registry.Valid() && registry.Rows() == Step(round, e, ok, old(registry.Rows()))
    ensures marked == Marks(round, e, ok) && restored == Restores(round, e, ok, old(registry.Rows()))
  {
    hide Find, Without, Marked;
    marked, restored := false, false;
    var was := Find(round.current, round.workspace, e.id, e.name);
    if e.id !in round.live {
      return;
    }
    if round.live[e.id] {
      if was.None? {
        var done := registry.Mark(round.workspace, e.id, e.name, ARCHIVED, round.at, ok, stamp);
        marked := done == Some(true);
      }
      return;
    }
    if was.Some? {
      restored := registry.Restore(round.workspace, e.id, e.name, ok, stamp);
    }
  }

  /** Slack may not answer, and then nothing is changed. */
  method RunReconcile(registry: RetiredChannels, live: Option<Live>, workspace: string, known: seq<Known>,
                      ok: seq<bool>, at: string, stamp: nat)
    returns (report: Report)
    requires registry.Valid() && |ok| == |known|
    modifies registry
    ensures registry.Valid()
    ensures live.None? ==> registry.Rows() == old(registry.Rows()) && report == Report(0, 0, 0, 0, 1)
    ensures live.Some? ==>
      var rows := old(registry.Rows());
      var round := Round(live.value, IndexOf(rows), workspace, ok, at);
      && registry.Rows() == Reconciled(round, known, rows, |known|)
      && report == Report(MarkCount(round, known, |known|), 0, RestoreCount(round, known, rows, |known|), |known|, 0)
  {
    if live.None? {
      return Report(0, 0, 0, 0, 1);
    }
    hide Step, Marks, Restores, IndexOf;
    ghost var rows := registry.Rows();
    var current := registry.ReadRegistry();
    var round := Round(live.value, current, workspace, ok, at);
    var archived, restored := 0, 0;
    for i := 0 to |known|
      invariant registry.Valid()
      invariant registry.Rows() == Reconciled(round, known, rows, i)
      invariant archived == MarkCount(round, known, i)
      invariant restored == RestoreCount(round, known, rows, i)
    {
      var marked, cleared := Turn(registry, round, known[i], ok[i], stamp);
      archived := archived + if marked then 1 else 0;
      restored := restored + if cleared then 1 else 0;
    }
    report := Report(archived, 0, restored, |known|, 0);
  }

  // ---- What a reconciliation settles -----------------------------------------------------------------------

  /** Some row records this channel. */
  predicate Has(rows: seq<Row>, workspace: string, id: string) {
    exists r :: r in rows && r.workspace == workspace && r.id == id
  }

  lemma FoundIffHas(rows: seq<Row>, workspace: string, id: string, name: string)
    requires IsReal(id)
    ensures Find(IndexOf(rows), workspace, id, name).Some? <==> Has(rows, workspace, id)
  {
    hide Get, IndexOf;
    ByIdIs(rows, workspace, id);
  }

  /** The turn rewrites the file: it records its channel, or clears it. What it does depends on the start alone. */
  predicate Acts(round: Round, e: Known, ok: bool) {
    Marks(round, e, ok) || (e.id in round.live && !round.live[e.id] && Was(round, e) && ok)
  }

  /** No turn from `from` on, up to `n`, removes the row. */
  predicate Untouched(round: Round, known: seq<Known>, row: Row, from: nat, n: nat)
    requires n <= |known| == |round.ok|
  {
    forall j :: from <= j < n && Acts(round, known[j], round.ok[j]) ==>
      !Same(row, round.workspace, known[j].id, known[j].name)
  }

  /** Turn `k` recorded the row and no later turn removed it. */
  predicate RecordedBy(round: Round, known: seq<Known>, row: Row, k: nat, n: nat)
    requires n <= |known| == |round.ok|
  {
    k < n && Marks(round, known[k], round.ok[k]) && row == RowFor(round, known[k]) && Untouched(round, known, row, k + 1, n)
  }

  ghost predicate Recorded(round: Round, known: seq<Known>, row: Row, n: nat)
    requires n <= |known| == |round.ok|
  {
    exists k: nat :: RecordedBy(round, known, row, k, n)
  }

  lemma StepMembers(round: Round, e: Known, ok: bool, rows: seq<Row>, row: Row)
    ensures row in Step(round, e, ok, rows)
       <==> ((Marks(round, e, ok) && row == RowFor(round, e))
             || (row in rows && !(Acts(round, e, ok) && Same(row, round.workspace, e.id, e.name))))
  {
    hide Same, Without, Find;
    WithoutMembers(rows, round.workspace, e.id, e.name);
    WithoutMembers(rows, RowFor(round, e).workspace, e.id, e.name);
  }

  /** The rows in the end: those of the start and those recorded on the way that no later turn matched. */
  lemma {:induction false} RowsAfterReconcile(round: Round, known: seq<Known>, rows: seq<Row>, n: nat, row: Row)
    requires n <= |known| == |round.ok|
    ensures row in Reconciled(round, known, rows, n)
       <==> ((row in rows && Untouched(round, known, row, 0, n)) || Recorded(round, known, row, n))
  {
    hide Step, Marks, Acts, Same, RowFor;
    if n > 0 {
      RowsAfterReconcile(round, known, rows, n - 1, row);
      StepMembers(round, known[n - 1], round.ok[n - 1], Reconciled(round, known, rows, n - 1), row);
      UntouchedNext(round, known, row, n);
      RecordedNext(round, known, row, n);
    }
  }

  lemma UntouchedNext(round: Round, known: seq<Known>, row: Row, n: nat)
    requires 0 < n <= |known| == |round.ok|
    ensures forall from: nat :: from < n ==>
      (Untouched(round, known, row, from, n) <==>
         Untouched(round, known, row, from, n - 1)
         && !(Acts(round, known[n - 1], round.ok[n - 1]) && Same(row, round.workspace, known[n - 1].id, known[n - 1].name)))
    ensures Untouched(round, known, row, n, n)
  {
    hide Acts, Same;
  }

  lemma RecordedNext(round: Round, known: seq<Known>, row: Row, n: nat)
    requires 0 < n <= |known| == |round.ok|
    ensures var e, ok := known[n - 1], round.ok[n - 1];
      Recorded(round, known, row, n) <==>
        ((Marks(round, e, ok) && row == RowFor(round, e))
         || (Recorded(round, known, row, n - 1)
             && !(Acts(round, e, ok) && Same(row, round.workspace, e.id, e.name))))
  {
    hide Marks, Acts, Same, RowFor, Untouched;
    UntouchedNext(round, known, row, n);
    var e, ok := known[n - 1], round.ok[n - 1];
    if Marks(round, e, ok) && row == RowFor(round, e) {
      assert RecordedBy(round, known, row, n - 1, n);
    }
    var before := n - 1;
    if Recorded(round, known, row, n) {
      var k: nat :| RecordedBy(round, known, row, k, n);
      assert k < before ==> RecordedBy(round, known, row, k, before);
    }
    if Recorded(round, known, row, before) && !(Acts(round, e, ok) && Same(row, round.workspace, e.id, e.name)) {
      var k: nat :| RecordedBy(round, known, row, k, before);
      assert RecordedBy(round, known, row, k, n);
    }
  }

  /** A row of this ID was there at the start and no turn matched its ID or name. */
  predicate KeptFromStart(round: Round, known: seq<Known>, rows: seq<Row>, id: string)
    requires |known| == |round.ok|
  {
    exists r :: r in rows && r.workspace == round.workspace && r.id == id && Untouched(round, known, r, 0, |known|)
  }

  /** A turn recorded this ID and no later one matched its ID or name. */
  predicate KeptFromTurn(round: Round, known: seq<Known>, id: string)
    requires |known| == |round.ok|
  {
    exists k :: 0 <= k < |known| && known[k].id == id && Marks(round, known[k], round.ok[k])
                && Untouched(round, known, RowFor(round, known[k]), k + 1, |known|)
  }

  /** When a channel is found after a reconciliation, whatever names are shared and whichever writes fail. */
  lemma FoundAfterIff(round: Round, known: seq<Known>, rows: seq<Row>, id: string, name: string)
    requires |known| == |round.ok| && IsReal(id)
    ensures Find(IndexOf(Reconciled(round, known, rows, |known|)), round.workspace, id, name).Some?
       <==> KeptFromStart(round, known, rows, id) || KeptFromTurn(round, known, id)
  {
    hide Find, IndexOf, Untouched, Marks, Reconciled;
    var n := |known|;
    var after := Reconciled(round, known, rows, n);
    FoundIffHas(after, round.workspace, id, name);
    if Has(after, round.workspace, id) {
      var r :| r in after && r.workspace == round.workspace && r.id == id;
      RowsAfterReconcile(round, known, rows, n, r);
    }
    if KeptFromStart(round, known, rows, id) {
      var r :| r in rows && r.workspace == round.workspace && r.id == id && Untouched(round, known, r, 0, n);
      RowsAfterReconcile(round, known, rows, n, r);
    }
    if KeptFromTurn(round, known, id) {
      var k :| 0 <= k < n && known[k].id == id && Marks(round, known[k], round.ok[k])
               && Untouched(round, known, RowFor(round, known[k]), k + 1, n);
      assert RecordedBy(round, known, RowFor(round, known[k]), k, n);
      RowsAfterReconcile(round, known, rows, n, RowFor(round, known[k]));
    }
  }

  /** A channel that Slack lists as not archived is never recorded in the end, names shared or not. */
  lemma LiveIsCleared(round: Round, known: seq<Known>, rows: seq<Row>, i: nat)
    requires i < |known| == |round.ok| && round.ok[i] && round.current == IndexOf(rows) && IsReal(known[i].id)
    requires known[i].id in round.live && !round.live[known[i].id]
    ensures Find(IndexOf(Reconciled(round, known, rows, |known|)), round.workspace, known[i].id, known[i].name).None?
  {
    hide Find, IndexOf, Reconciled;
    var e := known[i];
    FoundAfterIff(round, known, rows, e.id, e.name);
    FoundIffHas(rows, round.workspace, e.id, e.name);
    forall r | r in rows && r.workspace == round.workspace && r.id == e.id
      ensures !Untouched(round, known, r, 0, |known|)
    {
      assert Has(rows, round.workspace, e.id);
      assert Acts(round, known[i], round.ok[i]);
    }
  }

  /**
   * A channel that Slack lists as archived is recorded in the end exactly when no turn that acts
   * matched the record it had - or, if it had none, when one of its own turns wrote one that no
   * later acting turn matched. Its own turns do not act on a record it had, so what loses it is
   * another channel of the same name.
   */
  lemma ArchivedIsKeptIff(round: Round, known: seq<Known>, rows: seq<Row>, i: nat)
    requires i < |known| == |round.ok| && round.current == IndexOf(rows) && round.workspace != "" && IsReal(known[i].id)
    requires known[i].id in round.live && round.live[known[i].id]
    ensures Find(IndexOf(Reconciled(round, known, rows, |known|)), round.workspace, known[i].id, known[i].name).Some?
       <==> if Was(round, known[i]) then KeptFromStart(round, known, rows, known[i].id)
            else KeptFromTurn(round, known, known[i].id)
  {
    hide Find, IndexOf, Reconciled, Untouched;
    var e := known[i];
    FoundAfterIff(round, known, rows, e.id, e.name);
    FoundIffHas(rows, round.workspace, e.id, e.name);
    forall k | 0 <= k < |known| && known[k].id == e.id ensures Was(round, known[k]) == Was(round, e) {
      FoundIffHas(rows, round.workspace, e.id, known[k].name);
    }
  }

  /** A recorded row that shares a known channel's name is that channel's. */
  predicate NamesAgree(rows: seq<Row>, workspace: string, known: seq<Known>) {
    forall r, i :: r in rows && 0 <= i < |known| ==>
      r.workspace == workspace && known[i].name != "" && r.name == known[i].name ==> r.id == known[i].id
  }

  predicate DistinctReal(known: seq<Known>) {
    && (forall i :: 0 <= i < |known| ==> IsReal(known[i].id))
    && (forall i, j :: 0 <= i < j < |known| ==>
          known[i].id != known[j].id && (known[i].name != "" ==> known[i].name != known[j].name))
  }

  /** Without shared names only a channel's own turn can match its row. */
  lemma OnlyOwnTurn(round: Round, known: seq<Known>, rows: seq<Row>, r: Row, id: string)
    requires |known| == |round.ok| && NamesAgree(rows, round.workspace, known) && r in rows
    requires r.workspace == round.workspace && r.id == id
    requires forall j :: 0 <= j < |known| && known[j].id == id ==> !Acts(round, known[j], round.ok[j])
    ensures Untouched(round, known, r, 0, |known|)
  {
    hide Acts;
  }

  lemma OwnRowStays(round: Round, known: seq<Known>, i: nat)
    requires i < |known| == |round.ok| && DistinctReal(known)
    ensures Untouched(round, known, RowFor(round, known[i]), i + 1, |known|)
  {
    hide Acts;
  }

  lemma KeptIfRecorded(round: Round, known: seq<Known>, rows: seq<Row>, i: nat)
    requires i < |known| == |round.ok| && round.current == IndexOf(rows)
    requires DistinctReal(known) && NamesAgree(rows, round.workspace, known)
    requires known[i].id in round.live ==> round.live[known[i].id]
    ensures KeptFromStart(round, known, rows, known[i].id) <==> Was(round, known[i])
  {
    hide Find, IndexOf, NamesAgree;
    var e := known[i];
    FoundIffHas(rows, round.workspace, e.id, e.name);
    if Was(round, e) {
      var r :| r in rows && r.workspace == round.workspace && r.id == e.id;
      assert forall j :: 0 <= j < |known| && known[j].id == e.id ==> j == i;
      OnlyOwnTurn(round, known, rows, r, e.id);
    }
  }

  /**
   * With distinct real IDs and names, no name shared with another recorded row, and a disk that
   * takes every write, each known channel in Slack's list is recorded exactly when it is archived,
   * and a channel missing from the list is recorded exactly when it was.
   */
  lemma ReconcileSettles(round: Round, known: seq<Known>, rows: seq<Row>, i: nat)
    requires i < |known| == |round.ok| && round.workspace != "" && round.current == IndexOf(rows)
    requires forall j :: 0 <= j < |known| ==> round.ok[j]
    requires DistinctReal(known) && NamesAgree(rows, round.workspace, known)
    ensures var found := Find(IndexOf(Reconciled(round, known, rows, |known|)), round.workspace, known[i].id, known[i].name);
      found.Some? == if known[i].id in round.live then round.live[known[i].id] else Was(round, known[i])
  {
    hide Find, IndexOf, NamesAgree, Reconciled, Untouched;
    var e := known[i];
    if e.id in round.live && !round.live[e.id] {
      LiveIsCleared(round, known, rows, i);
    } else {
      FoundAfterIff(round, known, rows, e.id, e.name);
      KeptIfRecorded(round, known, rows, i);
      OwnRowStays(round, known, i);
    }
  }

  /** A step adds no row but an archived one of its own channel. */
  lemma StepAdds(round: Round, e: Known, ok: bool, rows: seq<Row>)
    ensures forall r :: r in Step(round, e, ok, rows) ==> r in rows || r == RowFor(round, e)
  {
    hide Same, Without, Find;
    WithoutMembers(rows, round.workspace, e.id, e.name);
  }

  /** Whatever the circumstances, a reconciliation adds only archived rows of known channels. */
  lemma {:induction false} NeverAddsDeleted(round: Round, known: seq<Known>, rows: seq<Row>, n: nat)
    requires n <= |known| == |round.ok|
    ensures forall r :: r in Reconciled(round, known, rows, n) ==>
      r in rows || (r.reason == Archived && Known(r.id, r.name) in known)
  {
    hide Step;
    if n > 0 {
      NeverAddsDeleted(round, known, rows, n - 1);
      StepAdds(round, known[n - 1], round.ok[n - 1], Reconciled(round, known, rows, n - 1));
      assert known[n - 1] in known;
    }
  }

  lemma {:induction false} NothingToDo(round: Round, known: seq<Known>, rows: seq<Row>, n: nat)
    requires n <= |known| == |round.ok|
    requires forall i :: 0 <= i < |known| ==>
      known[i].id in round.live ==> (Was(round, known[i]) <==> round.live[known[i].id])
    ensures Reconciled(round, known, rows, n) == rows
    ensures MarkCount(round, known, n) == 0 && RestoreCount(round, known, rows, n) == 0
  {
    hide Was, Without;
    if n > 0 {
      NothingToDo(round, known, rows, n - 1);
    }
  }

  /** Repeated with the same list, it does nothing and reports nothing. */
  lemma RepeatDoesNothing(round: Round, again: Round, known: seq<Known>, rows: seq<Row>)
    requires |known| == |round.ok| == |again.ok| && round.workspace != "" && round.current == IndexOf(rows)
    requires forall j :: 0 <= j < |known| ==> round.ok[j]
    requires DistinctReal(known) && NamesAgree(rows, round.workspace, known)
    requires again.live == round.live && again.workspace == round.workspace
    requires again.current == IndexOf(Reconciled(round, known, rows, |known|))
    ensures var after := Reconciled(round, known, rows, |known|);
      && Reconciled(again, known, after, |known|) == after
      && MarkCount(again, known, |known|) == 0 && RestoreCount(again, known, after, |known|) == 0
  {
    hide Find, IndexOf, NamesAgree, Reconciled, MarkCount, RestoreCount;
    forall i | 0 <= i < |known|
      ensures known[i].id in round.live ==> (Was(again, known[i]) <==> round.live[known[i].id])
    {
      ReconcileSettles(round, known, rows, i);
    }
    NothingToDo(again, known, Reconciled(round, known, rows, |known|), |known|);
  }

  /** Two known channels of one name: the second record pushes the first one out. */
  lemma SharedNameLosesTheFirst(at: string)
    ensures var known := [Known("C1", "x"), Known("C2", "x")];
      var round := Round(map["C1" := true, "C2" := true], IndexOf([]), "w", [true, true], at);
      && Reconciled(round, known, [], 2) == [Row("w", "C2", "x", Archived, at)]
      && Find(IndexOf(Reconciled(round, known, [], 2)), "w", "C1", "x").None?
  {
    var known := [Known("C1", "x"), Known("C2", "x")];
    var round := Round(map["C1" := true, "C2" := true], IndexOf([]), "w", [true, true], at);
    assert Reconciled(round, known, [], 1) == [Row("w", "C1", "x", Archived, at)];
    assert Without([Row("w", "C1", "x", Archived, at)], "w", "C2", "x") == [];
    FoundIffHas([Row("w", "C2", "x", Archived, at)], "w", "C1", "x");
  }
}
