/**
 * Workspaces do not touch one another, and what a lookup gives back: src/tybot/channel_lifecycle.py.
 */
module RetiredFrames {
  import opened Basics
  import opened Retired
  import opened Reconcile

  // ---- One workspace at a time -----------------------------------------------------------------

  function WorkspaceOf(op: Op): string {
    match op
    case MarkOp(row) => row.workspace
    case RestoreOp(workspace, _, _) => workspace
  }

  lemma {:induction false} OfWorkspaceConcat(a: seq<Row>, b: seq<Row>, w: string)
    ensures OfWorkspace(a + b, w) == OfWorkspace(a, w) + OfWorkspace(b, w)
  {
    if a == [] {
      assert a + b == b;
    } else {
      TailOfConcat(a, b);
      OfWorkspaceConcat(a[1..], b, w);
      assert a == [a[0]] + a[1..] && a + b == [a[0]] + (a[1..] + b);
      OfWorkspaceCons(a[0], a[1..], w);
      OfWorkspaceCons(a[0], a[1..] + b, w);
      hide OfWorkspace;
    }
  }

  lemma OfWorkspaceCons(row: Row, rows: seq<Row>, w: string)
    ensures OfWorkspace([row] + rows, w) == (if row.workspace == w then [row] else []) + OfWorkspace(rows, w)
  {
    assert ([row] + rows)[1..] == rows;
  }

  lemma WithoutCons(row: Row, rows: seq<Row>, workspace: string, id: string, name: string)
    ensures Without([row] + rows, workspace, id, name)
         == (if Same(row, workspace, id, name) then [] else [row]) + Without(rows, workspace, id, name)
  {
    assert ([row] + rows)[1..] == rows;
  }

  lemma OfWorkspaceOne(row: Row, w: string)
    ensures OfWorkspace([row], w) == if row.workspace == w then [row] else []
  {
    assert [row][1..] == [];
  }

  /** Removing a channel's rows in one workspace leaves another one's as they are, and goes on in its own alone. */
  lemma {:induction false} WithoutKeepsOthers(rows: seq<Row>, workspace: string, id: string, name: string, w: string)
    ensures OfWorkspace(Without(rows, workspace, id, name), w)
         == if w == workspace then Without(OfWorkspace(rows, w), w, id, name) else OfWorkspace(rows, w)
  {
    if rows != [] {
      WithoutKeepsOthers(rows[1..], workspace, id, name, w);
      assert rows == [rows[0]] + rows[1..];
      WithoutCons(rows[0], rows[1..], workspace, id, name);
      WithoutCons(rows[0], OfWorkspace(rows[1..], w), w, id, name);
      OfWorkspaceCons(rows[0], rows[1..], w);
      OfWorkspaceCons(rows[0], Without(rows[1..], workspace, id, name), w);
      assert [] + OfWorkspace(rows[1..], w) == OfWorkspace(rows[1..], w);
      assert [] + Without(rows[1..], workspace, id, name) == Without(rows[1..], workspace, id, name);
      hide OfWorkspace, Without;
    }
  }

  lemma AfterKeepsOthers(rows: seq<Row>, op: Op, w: string)
    ensures OfWorkspace(After(rows, op), w)
         == if w == WorkspaceOf(op) then After(OfWorkspace(rows, w), op) else OfWorkspace(rows, w)
  {
    hide Without, OfWorkspace, Acceptable;
    match op {
      case MarkOp(row) =>
        var kept := Without(rows, row.workspace, row.id, row.name);
        WithoutKeepsOthers(rows, row.workspace, row.id, row.name, w);
        OfWorkspaceConcat(kept, [row], w);
        OfWorkspaceOne(row, w);
        assert OfWorkspace(kept, w) + [] == OfWorkspace(kept, w);
      case RestoreOp(workspace, id, name) =>
        WithoutKeepsOthers(rows, workspace, id, name, w);
    }
  }

  lemma {:induction false} OfWorkspaceMembers(rows: seq<Row>, w: string)
    ensures forall r :: r in OfWorkspace(rows, w) <==> r in rows && r.workspace == w
  {
    if rows != [] {
      OfWorkspaceMembers(rows[1..], w);
      assert rows == [rows[0]] + rows[1..];
    }
  }

  /** An operation changes no row of a workspace that is not its own. */
  lemma OtherWorkspaceUnchanged(rows: seq<Row>, op: Op, row: Row)
    requires row.workspace != WorkspaceOf(op)
    ensures row in After(rows, op) <==> row in rows
  {
    hide After, OfWorkspace;
    AfterKeepsOthers(rows, op, row.workspace);
    OfWorkspaceMembers(rows, row.workspace);
    OfWorkspaceMembers(After(rows, op), row.workspace);
  }

  /** Within its own workspace it removes exactly the rows that share its ID or its name, and a mark adds its row. */
  lemma OwnWorkspaceAfter(rows: seq<Row>, op: Op, row: Row)
    requires row.workspace == WorkspaceOf(op) != ""
    ensures var (id, name) := match op case MarkOp(r) => (r.id, r.name) case RestoreOp(_, id, name) => (id, name);
            var matched := (id != "" && row.id == id) || (name != "" && row.name == name);
            row in After(rows, op) <==> (op == MarkOp(row) && (id != "" || name != "")) || (row in rows && !matched)
  {
    AfterMembers(rows, op, row);
    hide After;
  }

  function OpsOf(ops: seq<Op>, w: string): seq<Op> {
    if ops == [] then []
    else OpsOf(ops[..|ops| - 1], w) + (if WorkspaceOf(ops[|ops| - 1]) == w then [ops[|ops| - 1]] else [])
  }

  /** Each workspace's rows are what its own operations alone would have left. */
  lemma {:induction false} WorkspacesAreApart(ops: seq<Op>, w: string)
    ensures OfWorkspace(Run(ops), w) == Run(OpsOf(ops, w))
  {
    hide After, OfWorkspace;
    if ops == [] {
      NoRows(w);
    } else {
      var front, last := ops[..|ops| - 1], ops[|ops| - 1];
      WorkspacesAreApart(front, w);
      AfterKeepsOthers(Run(front), last, w);
      RunSnoc(OpsOf(front, w), last);
      assert OpsOf(front, w) + [] == OpsOf(front, w);
    }
  }

  lemma NoRows(w: string)
    ensures OfWorkspace([], w) == []
  {
  }

  lemma RunSnoc(ops: seq<Op>, op: Op)
    ensures Run(ops + [op]) == After(Run(ops), op)
  {
    assert (ops + [op])[..|ops|] == ops;
  }

  /** A reconciliation changes no row of another workspace. */
  lemma {:induction false} ReconcileKeepsOthers(round: Round, known: seq<Known>, rows: seq<Row>, n: nat, w: string)
    requires n <= |known| == |round.ok| && w != round.workspace
    ensures OfWorkspace(Reconciled(round, known, rows, n), w) == OfWorkspace(rows, w)
  {
    if n > 0 {
      ReconcileKeepsOthers(round, known, rows, n - 1, w);
      StepKeepsOthers(round, known[n - 1], round.ok[n - 1], Reconciled(round, known, rows, n - 1), w);
    }
  }

  lemma StepKeepsOthers(round: Round, e: Known, ok: bool, rows: seq<Row>, w: string)
    requires w != round.workspace
    ensures OfWorkspace(Step(round, e, ok, rows), w) == OfWorkspace(rows, w)
  {
    hide Without, OfWorkspace, Find;
    var kept := Without(rows, round.workspace, e.id, e.name);
    WithoutKeepsOthers(rows, round.workspace, e.id, e.name, w);
    OfWorkspaceConcat(kept, [RowFor(round, e)], w);
    OfWorkspaceOne(RowFor(round, e), w);
    assert OfWorkspace(kept, w) + [] == OfWorkspace(kept, w);
  }

  // ---- What a lookup gives back ----------------------------------------------------------------

  lemma {:induction false} ByNameGives(rows: seq<Row>, workspace: string, name: string)
    requires name != ""
    ensures var got := Get(IndexOf(rows).byName, (workspace, name));
      && (got.Some? ==> got.value in rows && got.value.workspace == workspace && got.value.name == name)
      && (got.None? ==> forall r :: r in rows ==> r.workspace != workspace || r.name != name)
  {
    if rows != [] {
      hide Get, Put;
      var front, last := rows[..|rows| - 1], rows[|rows| - 1];
      ByNameGives(front, workspace, name);
      GetPut(IndexOf(front).byName, (last.workspace, last.name), last, (workspace, name));
      RowsSplit(rows);
    }
  }

  lemma OnlyOneRow(rows: seq<Row>, a: Row, b: Row)
    requires Unique(rows) && a in rows && b in rows && a.workspace == b.workspace
    requires (a.id != "" && a.id == b.id) || (a.name != "" && a.name == b.name)
    ensures a == b
  {
    var i :| 0 <= i < |rows| && rows[i] == a;
    var j :| 0 <= j < |rows| && rows[j] == b;
    if i < j {
      assert Clash(rows[i], rows[j]);
    } else if j < i {
      assert Clash(rows[j], rows[i]);
    }
  }

  /** An ID as Slack gives it: there is one, and it does not begin like a placeholder. */
  predicate SlackId(id: string) { id != "" && !(|id| >= 7 && id[..7] == "legacy-") }

  /**
   * After any history a lookup gives a row exactly when it is the mark of that ID - or, for a
   * channel without a Slack ID, of that name - that nothing later has touched.
   */
  lemma FindGives(ops: seq<Op>, workspace: string, id: string, name: string, row: Row)
    requires workspace != ""
    ensures Find(IndexOf(Run(ops)), workspace, id, name) == Some(row)
       <==> (exists k: nat :: Survives(ops, k, row)) && row.workspace == workspace
            && (if SlackId(id) then row.id == id else name != "" && row.name == name)
  {
    IdIsReal(id);
    hide Survives, Get, IndexOf, Run, Unique, IsReal, SlackId;
    var rows := Run(ops);
    HistoriesAreUnique(ops);
    var got := Find(IndexOf(rows), workspace, id, name);
    if SlackId(id) {
      IdThere(id);
      ByIdIs(rows, workspace, id);
    } else if name != "" {
      ByNameGives(rows, workspace, name);
    }
    if row.workspace == workspace {
      RowsAreSurvivors(ops, row);
    }
    if got.Some? && row in rows && row.workspace == workspace
       && (if SlackId(id) then row.id == id else name != "" && row.name == name) {
      IdThere(id);
      OnlyOneRow(rows, got.value, row);
    }
  }

  lemma IdIsReal(id: string)
    ensures IsReal(id) <==> SlackId(id)
  {
    assert LEGACY <= id <==> |id| >= 7 && id[..7] == "legacy-";
  }

  lemma IdThere(id: string)
    ensures SlackId(id) ==> id != ""
  {
  }

  // ---- Reasons ---------------------------------------------------------------------------------

  /** The reason as the file holds it. */
  function CodeOf(reason: Reason): string {
    match reason
    case Archived => "archived"
    case Deleted => "deleted"
  }

  /** A reason is known exactly if it is one of the two, and then that one is recorded. */
  lemma ReasonIsKept(code: string)
    ensures ReasonOf(code).Some? <==> code == "archived" || code == "deleted"
    ensures ReasonOf(code).Some? ==> CodeOf(ReasonOf(code).value) == code
  {
  }
}
