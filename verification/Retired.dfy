/** The registry of archived and deleted channels: src/tybot/channel_lifecycle.py. */
module Retired {
  import opened Basics

  datatype Reason = Archived | Deleted

  const ARCHIVED := "archived"
  const DELETED := "deleted"

  function ReasonOf(code: string): Option<Reason> {
    if code == ARCHIVED then Some(Archived) else if code == DELETED then Some(Deleted) else None
  }

  datatype Row = Row(workspace: string, id: string, name: string, reason: Reason, at: string)

  /** `_same`: the row is of this workspace and shares the ID or the name, if there is one to share. */
  predicate Same(row: Row, workspace: string, id: string, name: string) {
    row.workspace == workspace && ((id != "" && row.id == id) || (name != "" && row.name == name))
  }

  function Without(rows: seq<Row>, workspace: string, id: string, name: string): seq<Row> {
    if rows == [] then []
    else if Same(rows[0], workspace, id, name) then Without(rows[1..], workspace, id, name)
    else [rows[0]] + Without(rows[1..], workspace, id, name)
  }

  predicate Acceptable(workspace: string, id: string, name: string) {
    workspace != "" && (id != "" || name != "")
  }

  function Marked(rows: seq<Row>, row: Row): seq<Row> {
    Without(rows, row.workspace, row.id, row.name) + [row]
  }

  // ---- The two indexes -----------------------------------------------------------------------------------

  /** A Python dict: a key keeps the place where it was first put. */
  type Dict = seq<((string, string), Row)>

  function Put(d: Dict, key: (string, string), row: Row): Dict {
    if d == [] then [(key, row)]
    else if d[0].0 == key then [(key, row)] + d[1..]
    else [d[0]] + Put(d[1..], key, row)
  }

  function Get(d: Dict, key: (string, string)): Option<Row> {
    if d == [] then None else if d[0].0 == key then Some(d[0].1) else Get(d[1..], key)
  }

  datatype Registry = Registry(byId: Dict, byName: Dict)

  function Indexed(r: Registry, row: Row): Registry {
    Registry(if row.id != "" then Put(r.byId, (row.workspace, row.id), row) else r.byId,
             if row.name != "" then Put(r.byName, (row.workspace, row.name), row) else r.byName)
  }

  function IndexOf(rows: seq<Row>): Registry {
    if rows == [] then Registry([], []) else Indexed(IndexOf(rows[..|rows| - 1]), rows[|rows| - 1])
  }

  const LEGACY := "legacy-"

  /** An ID that Slack gave, not a placeholder. */
  predicate IsReal(id: string) { id != "" && !(LEGACY <= id) }

  /** The record of a channel, by its ID if that is real and otherwise by its name. */
  function Find(r: Registry, workspace: string, id: string, name: string): Option<Row> {
    if IsReal(id) then Get(r.byId, (workspace, id))
    else if name != "" then Get(r.byName, (workspace, name))
    else None
  }

  function Values(d: Dict): seq<Row> {
    if d == [] then [] else [d[0].1] + Values(d[1..])
  }

  function WithoutId(rows: seq<Row>): seq<Row> {
    if rows == [] then [] else (if rows[0].id == "" then [rows[0]] else []) + WithoutId(rows[1..])
  }

  function OfWorkspace(rows: seq<Row>, workspace: string): seq<Row> {
    if rows == [] then []
    else (if rows[0].workspace == workspace then [rows[0]] else []) + OfWorkspace(rows[1..], workspace)
  }

  /** Every record, or every record of one workspace, before it is put in display order. */
  function All(r: Registry, workspace: string): seq<Row> {
    var rows := Values(r.byId) + WithoutId(Values(r.byName));
    if workspace != "" then OfWorkspace(rows, workspace) else rows
  }

  // ---- The file and its cache ------------------------------------------------------------------------------

  datatype Cached = Cached(stamp: nat, rows: seq<Row>)

  class RetiredChannels {
    /** The rows on disk; none when the file is missing or cannot be read. */
    var file: Option<seq<Row>>
    /** Modification time and size of the file. */
    var stamp: nat
    var cache: Option<Cached>

    /** A cache entry with the file's stamp holds the file's rows. */
    ghost predicate Valid()
      reads this
    {
      file.Some? && cache.Some? && cache.value.stamp == stamp ==> cache.value.rows == file.value
    }

    function Rows(): seq<Row>
      reads this
    {
      if file.Some? then file.value else []
    }

    constructor ()
      ensures Valid() && Rows() == []
    {
      file, stamp, cache := None, 0, None;
    }

    method Read() returns (rows: seq<Row>)
      requires Valid()
      modifies `cache
      ensures Valid() && rows == Rows()
    {
      if file.None? {
        return [];
      }
      if cache.Some? && cache.value.stamp == stamp {
        return cache.value.rows;
      }
      cache := Some(Cached(stamp, file.value));
      rows := file.value;
    }

    /** `ok` says whether the disk took the file, `newStamp` is the stamp it gave it - possibly the old one. */
    method Write(rows: seq<Row>, ok: bool, newStamp: nat) returns (done: bool)
      requires Valid()
      modifies this
      ensures Valid() && done == ok
      ensures Rows() == if ok then rows else old(Rows())
    {
      if !ok {
        return false;
      }
      file, stamp, cache := Some(rows), newStamp, None;
      done := true;
    }

    /** `None` is the error for a reason that is not known; it is raised before anything is read. */
    method Mark(workspace: string, id: string, name: string, reason: string, at: string, ok: bool, newStamp: nat)
      returns (done: Option<bool>)
      requires Valid()
      modifies this
      ensures Valid() && (done.None? <==> ReasonOf(reason).None?)
      ensures done.Some? ==> done.value == (ok && Acceptable(workspace, id, name))
      ensures Rows() == if done == Some(true) then Marked(old(Rows()), Row(workspace, id, name, ReasonOf(reason).value, at))
                        else old(Rows())
    {
      if ReasonOf(reason).None? {
        return None;
      }
      if !Acceptable(workspace, id, name) {
        return Some(false);
      }
      var rows := Read();
      var written := Write(Marked(rows, Row(workspace, id, name, ReasonOf(reason).value, at)), ok, newStamp);
      done := Some(written);
    }

    method Restore(workspace: string, id: string, name: string, ok: bool, newStamp: nat) returns (done: bool)
      requires Valid()
      modifies this
      ensures Valid() && done == (ok && Without(old(Rows()), workspace, id, name) != old(Rows()))
      ensures Rows() == if ok then Without(old(Rows()), workspace, id, name) else old(Rows())
    {
      var rows := Read();
      var kept := Without(rows, workspace, id, name);
      WithoutShrinks(rows, workspace, id, name);
      if |kept| == |rows| {
        return false;
      }
      done := Write(kept, ok, newStamp);
    }

    /** Both indexes, filled row by row. */
    method ReadRegistry() returns (r: Registry)
      requires Valid()
      modifies `cache
      ensures Valid() && Rows() == old(Rows())
      ensures r == IndexOf(Rows())
    {
      var rows := Read();
      r := Registry([], []);
      for i := 0 to |rows|
        invariant r == IndexOf(rows[..i])
      {
        assert rows[..i + 1][..i] == rows[..i];
        r := Indexed(r, rows[i]);
      }
      assert rows[..|rows|] == rows;
    }
  }

  lemma {:induction false} WithoutShrinks(rows: seq<Row>, workspace: string, id: string, name: string)
    ensures |Without(rows, workspace, id, name)| <= |rows|
    ensures |Without(rows, workspace, id, name)| == |rows| <==> Without(rows, workspace, id, name) == rows
  {
    if rows != [] {
      WithoutShrinks(rows[1..], workspace, id, name);
      assert rows == [rows[0]] + rows[1..];
    }
  }

  // ---- No two rows for one channel -------------------------------------------------------------------------

  predicate Clash(a: Row, b: Row) { Same(a, b.workspace, b.id, b.name) }

  /** No two rows of a workspace share a non-empty ID or name. */
  predicate Unique(rows: seq<Row>) {
    && (forall i, j :: 0 <= i < j < |rows| ==> !Clash(rows[i], rows[j]))
    && (forall i :: 0 <= i < |rows| ==> Acceptable(rows[i].workspace, rows[i].id, rows[i].name))
  }

  lemma {:induction false} WithoutMembers(rows: seq<Row>, workspace: string, id: string, name: string)
    ensures forall r :: r in Without(rows, workspace, id, name) <==> r in rows && !Same(r, workspace, id, name)
  {
    if rows != [] {
      hide Same;
      WithoutMembers(rows[1..], workspace, id, name);
      assert rows == [rows[0]] + rows[1..];
    }
  }

  lemma UniqueTail(rows: seq<Row>)
    requires rows != [] && Unique(rows)
    ensures Unique(rows[1..]) && forall r :: r in rows[1..] ==> !Clash(rows[0], r)
  {
    hide Clash, Acceptable;
    forall r | r in rows[1..] ensures !Clash(rows[0], r) {
      var k :| 0 <= k < |rows[1..]| && rows[1..][k] == r;
      assert rows[k + 1] == r;
    }
    forall i, j | 0 <= i < j < |rows[1..]| ensures !Clash(rows[1..][i], rows[1..][j]) {
      assert rows[1..][i] == rows[i + 1] && rows[1..][j] == rows[j + 1];
    }
  }

  lemma UniqueCons(row: Row, rows: seq<Row>)
    requires Unique(rows) && Acceptable(row.workspace, row.id, row.name)
    requires forall r :: r in rows ==> !Clash(row, r)
    ensures Unique([row] + rows)
  {
    hide Clash, Acceptable;
    var all := [row] + rows;
    forall i, j | 0 <= i < j < |all| ensures !Clash(all[i], all[j]) {
      assert all[j] == rows[j - 1] && rows[j - 1] in rows;
    }
  }

  lemma {:induction false} WithoutKeepsUnique(rows: seq<Row>, workspace: string, id: string, name: string)
    requires Unique(rows)
    ensures Unique(Without(rows, workspace, id, name))
  {
    if rows != [] {
      UniqueTail(rows);
      assert Acceptable(rows[0].workspace, rows[0].id, rows[0].name);
      hide Same, Clash, Unique, Acceptable;
      WithoutKeepsUnique(rows[1..], workspace, id, name);
      WithoutMembers(rows[1..], workspace, id, name);
      if !Same(rows[0], workspace, id, name) {
        UniqueCons(rows[0], Without(rows[1..], workspace, id, name));
      }
    }
  }

  lemma MarkedKeepsUnique(rows: seq<Row>, row: Row)
    requires Unique(rows) && Acceptable(row.workspace, row.id, row.name)
    ensures Unique(Marked(rows, row))
  {
    hide Without;
    var kept := Without(rows, row.workspace, row.id, row.name);
    WithoutKeepsUnique(rows, row.workspace, row.id, row.name);
    WithoutMembers(rows, row.workspace, row.id, row.name);
    forall i | 0 <= i < |kept| ensures !Clash(kept[i], row) {
      assert kept[i] in kept;
    }
  }

  // ---- Histories -------------------------------------------------------------------------------------------

  datatype Op = MarkOp(row: Row) | RestoreOp(workspace: string, id: string, name: string)

  function After(rows: seq<Row>, op: Op): seq<Row> {
    match op
    case MarkOp(row) => if Acceptable(row.workspace, row.id, row.name) then Marked(rows, row) else rows
    case RestoreOp(workspace, id, name) => Without(rows, workspace, id, name)
  }

  function Run(ops: seq<Op>): seq<Row> {
    if ops == [] then [] else After(Run(ops[..|ops| - 1]), ops[|ops| - 1])
  }

  /** Over any history from an empty file no two rows are for one channel. */
  lemma {:induction false} HistoriesAreUnique(ops: seq<Op>)
    ensures Unique(Run(ops))
  {
    if ops != [] {
      hide Unique, Without, Marked;
      HistoriesAreUnique(ops[..|ops| - 1]);
      var rows := Run(ops[..|ops| - 1]);
      match ops[|ops| - 1]
      case MarkOp(row) =>
        if Acceptable(row.workspace, row.id, row.name) {
          MarkedKeepsUnique(rows, row);
        }
      case RestoreOp(workspace, id, name) => WithoutKeepsUnique(rows, workspace, id, name);
    }
  }

  /** The operation removes or replaces the row. */
  predicate Touches(op: Op, row: Row) {
    match op
    case MarkOp(r) => Same(row, r.workspace, r.id, r.name)
    case RestoreOp(workspace, id, name) => Same(row, workspace, id, name)
  }

  /** The row was recorded by the `k`-th operation and nothing since has touched it. */
  predicate Survives(ops: seq<Op>, k: nat, row: Row) {
    && k < |ops| && ops[k] == MarkOp(row) && Acceptable(row.workspace, row.id, row.name)
    && forall j :: k < j < |ops| ==> !Touches(ops[j], row)
  }

  lemma AfterMembers(rows: seq<Row>, op: Op, row: Row)
    requires row.workspace != ""
    ensures row in After(rows, op)
       <==> (op == MarkOp(row) && Acceptable(row.workspace, row.id, row.name)) || (row in rows && !Touches(op, row))
  {
    hide Without;
    match op
    case MarkOp(r) => WithoutMembers(rows, r.workspace, r.id, r.name);
    case RestoreOp(workspace, id, name) => WithoutMembers(rows, workspace, id, name);
  }

  /** The rows after a history are exactly the marks nothing later has touched. */
  lemma {:induction false} RowsAreSurvivors(ops: seq<Op>, row: Row)
    requires row.workspace != ""
    ensures row in Run(ops) <==> exists k: nat :: Survives(ops, k, row)
  {
    if ops != [] {
      hide After, Touches, Acceptable;
      var n := |ops| - 1;
      var before := ops[..n];
      RowsAreSurvivors(before, row);
      AfterMembers(Run(before), ops[n], row);
      if k: nat :| Survives(before, k, row) {
        if !Touches(ops[n], row) {
          assert Survives(ops, k, row);
        }
      }
      if ops[n] == MarkOp(row) && Acceptable(row.workspace, row.id, row.name) {
        assert Survives(ops, n, row);
      }
      if k: nat :| Survives(ops, k, row) {
        if k < n {
          assert Survives(before, k, row) && !Touches(ops[n], row);
        }
      }
    }
  }

  // ---- Looking up ------------------------------------------------------------------------------------------

  lemma {:induction false} GetPut(d: Dict, key: (string, string), row: Row, asked: (string, string))
    ensures Get(Put(d, key, row), asked) == if asked == key then Some(row) else Get(d, asked)
  {
    if d != [] && d[0].0 != key {
      GetPut(d[1..], key, row, asked);
      assert Put(d, key, row)[1..] == Put(d[1..], key, row);
    } else if d != [] {
      assert Put(d, key, row)[1..] == d[1..];
    } else {
      assert Put(d, key, row)[1..] == [];
    }
  }

  lemma RowsSplit(rows: seq<Row>)
    requires rows != []
    ensures forall r :: r in rows <==> r in rows[..|rows| - 1] || r == rows[|rows| - 1]
  {
    assert rows == rows[..|rows| - 1] + [rows[|rows| - 1]];
  }

  /** The ID index answers for exactly the IDs that have a row, with such a row. */
  lemma {:induction false} ByIdIs(rows: seq<Row>, workspace: string, id: string)
    requires id != ""
    ensures var got := Get(IndexOf(rows).byId, (workspace, id));
      && (got.Some? ==> got.value in rows && got.value.workspace == workspace && got.value.id == id)
      && (got.None? ==> forall r :: r in rows ==> r.workspace != workspace || r.id != id)
  {
    if rows != [] {
      hide Get, Put;
      var front, last := rows[..|rows| - 1], rows[|rows| - 1];
      ByIdIs(front, workspace, id);
      GetPut(IndexOf(front).byId, (last.workspace, last.id), last, (workspace, id));
      RowsSplit(rows);
    }
  }

  /** Some mark of this ID has no later operation touching its row. */
  ghost predicate StillMarked(ops: seq<Op>, workspace: string, id: string) {
    exists k: nat, row: Row :: Survives(ops, k, row) && row.workspace == workspace && row.id == id
  }

  /**
   * After any history a channel with a real ID is found exactly when some mark of that ID has no
   * later operation matching that ID or that mark's name.
   */
  lemma FoundIffStillMarked(ops: seq<Op>, workspace: string, id: string, name: string)
    requires workspace != "" && IsReal(id)
    ensures Find(IndexOf(Run(ops)), workspace, id, name).Some? <==> StillMarked(ops, workspace, id)
  {
    hide Survives, Get, IndexOf, Run;
    var rows := Run(ops);
    ByIdIs(rows, workspace, id);
    var got := Find(IndexOf(rows), workspace, id, name);
    if got.Some? {
      RowsAreSurvivors(ops, got.value);
    }
    if StillMarked(ops, workspace, id) {
      var k: nat, row: Row :| Survives(ops, k, row) && row.workspace == workspace && row.id == id;
      RowsAreSurvivors(ops, row);
    }
  }

  function WithIds(rows: seq<Row>): seq<Row> {
    if rows == [] then []
    else WithIds(rows[..|rows| - 1]) + (if rows[|rows| - 1].id != "" then [rows[|rows| - 1]] else [])
  }

  function WithNames(rows: seq<Row>): seq<Row> {
    if rows == [] then []
    else WithNames(rows[..|rows| - 1]) + (if rows[|rows| - 1].name != "" then [rows[|rows| - 1]] else [])
  }

  lemma {:induction false} ValuesPutNew(d: Dict, key: (string, string), row: Row)
    requires Get(d, key).None?
    ensures Values(Put(d, key, row)) == Values(d) + [row]
  {
    if d == [] {
      assert Put(d, key, row)[1..] == [];
    } else {
      ValuesPutNew(d[1..], key, row);
      assert Put(d, key, row)[1..] == Put(d[1..], key, row);
    }
  }

  lemma {:induction false} ByNameIs(rows: seq<Row>, workspace: string, name: string)
    requires name != ""
    ensures Get(IndexOf(rows).byName, (workspace, name)).None?
       <==> forall r :: r in rows ==> r.workspace != workspace || r.name != name
  {
    if rows != [] {
      hide Get, Put;
      var front, last := rows[..|rows| - 1], rows[|rows| - 1];
      ByNameIs(front, workspace, name);
      GetPut(IndexOf(front).byName, (last.workspace, last.name), last, (workspace, name));
      RowsSplit(rows);
      assert last in rows;
    }
  }

  lemma UniqueFront(rows: seq<Row>)
    requires rows != [] && Unique(rows)
    ensures Unique(rows[..|rows| - 1])
    ensures var last := rows[|rows| - 1];
      forall r :: r in rows[..|rows| - 1] && r.workspace == last.workspace ==>
        (last.id != "" ==> r.id != last.id) && (last.name != "" ==> r.name != last.name)
  {
    var last := rows[|rows| - 1];
    hide Acceptable;
    forall r | r in rows[..|rows| - 1] && r.workspace == last.workspace
      ensures (last.id != "" ==> r.id != last.id) && (last.name != "" ==> r.name != last.name)
    {
      var k :| 0 <= k < |rows| - 1 && rows[k] == r;
      assert !Clash(rows[k], rows[|rows| - 1]);
    }
  }

  /** With no two rows for one channel neither index overwrites anything. */
  lemma {:induction false} IndexesKeepAll(rows: seq<Row>)
    requires Unique(rows)
    ensures Values(IndexOf(rows).byId) == WithIds(rows)
    ensures Values(IndexOf(rows).byName) == WithNames(rows)
  {
    if rows != [] {
      hide Get, Put, Values, Unique;
      var front, last := rows[..|rows| - 1], rows[|rows| - 1];
      UniqueFront(rows);
      IndexesKeepAll(front);
      if last.id != "" {
        ByIdIs(front, last.workspace, last.id);
        ValuesPutNew(IndexOf(front).byId, (last.workspace, last.id), last);
      }
      if last.name != "" {
        ByNameIs(front, last.workspace, last.name);
        ValuesPutNew(IndexOf(front).byName, (last.workspace, last.name), last);
      }
    }
  }

  lemma {:induction false} WithoutIdConcat(a: seq<Row>, b: seq<Row>)
    ensures WithoutId(a + b) == WithoutId(a) + WithoutId(b)
  {
    if a == [] {
      assert a + b == b;
    } else {
      WithoutIdConcat(a[1..], b);
      assert (a + b)[1..] == a[1..] + b && (a + b)[0] == a[0];
    }
  }

  function Once(row: Row, counted: bool): multiset<Row> { if counted then multiset{row} else multiset{} }

  lemma IdStep(rows: seq<Row>)
    requires rows != []
    ensures var last := rows[|rows| - 1];
      multiset(WithIds(rows)) == multiset(WithIds(rows[..|rows| - 1])) + Once(last, last.id != "")
  {
  }

  lemma NameStep(rows: seq<Row>)
    requires rows != []
    ensures var last := rows[|rows| - 1];
      multiset(WithoutId(WithNames(rows)))
      == multiset(WithoutId(WithNames(rows[..|rows| - 1]))) + Once(last, last.name != "" && last.id == "")
  {
    var front, last := rows[..|rows| - 1], rows[|rows| - 1];
    hide WithoutId;
    WithoutIdConcat(WithNames(front), [last]);
    WithoutIdOne(last);
    assert WithNames(front) + [] == WithNames(front);
  }

  lemma Pieces(a: multiset<Row>, b: multiset<Row>, row: Row, first: bool)
    ensures (a + Once(row, first)) + (b + Once(row, !first)) == a + b + multiset{row}
  {
  }

  lemma LastRow(rows: seq<Row>)
    requires rows != []
    ensures multiset(rows) == multiset(rows[..|rows| - 1]) + multiset{rows[|rows| - 1]}
  {
    assert rows == rows[..|rows| - 1] + [rows[|rows| - 1]];
  }

  lemma NothingListed()
    ensures WithIds([]) == [] && WithoutId(WithNames([])) == []
  {
  }

  /** Every row has an ID, or it has none and then it has a name. */
  lemma {:induction false} IdsAndNames(rows: seq<Row>)
    requires forall i :: 0 <= i < |rows| ==> Acceptable(rows[i].workspace, rows[i].id, rows[i].name)
    ensures multiset(WithIds(rows)) + multiset(WithoutId(WithNames(rows))) == multiset(rows)
  {
    hide WithoutId, WithIds, WithNames, Once;
    if rows == [] {
      NothingListed();
    } else {
      var front, last := rows[..|rows| - 1], rows[|rows| - 1];
      IdsAndNames(front);
      IdStep(rows);
      NameStep(rows);
      LastRow(rows);
      assert Acceptable(last.workspace, last.id, last.name);
      Pieces(multiset(WithIds(front)), multiset(WithoutId(WithNames(front))), last, last.id != "");
    }
  }

  lemma WithoutIdOne(row: Row)
    ensures WithoutId([row]) == if row.id == "" then [row] else []
  {
  }

  lemma {:induction false} WorkspaceCounts(rows: seq<Row>, workspace: string, r: Row)
    ensures multiset(OfWorkspace(rows, workspace))[r] == if r.workspace == workspace then multiset(rows)[r] else 0
  {
    if rows != [] {
      WorkspaceCounts(rows[1..], workspace, r);
      assert rows == [rows[0]] + rows[1..];
    }
  }

  /** The listing holds every row of the workspace, once. */
  lemma AllListsEachRowOnce(rows: seq<Row>, workspace: string)
    requires Unique(rows)
    ensures multiset(All(IndexOf(rows), workspace))
         == if workspace == "" then multiset(rows) else multiset(OfWorkspace(rows, workspace))
  {
    hide Values, WithIds, WithNames, WithoutId, OfWorkspace, IndexOf;
    IndexesKeepAll(rows);
    IdsAndNames(rows);
    if workspace != "" {
      var all := Values(IndexOf(rows).byId) + WithoutId(Values(IndexOf(rows).byName));
      forall r ensures multiset(OfWorkspace(all, workspace))[r] == multiset(OfWorkspace(rows, workspace))[r] {
        WorkspaceCounts(all, workspace, r);
        WorkspaceCounts(rows, workspace, r);
      }
    }
  }
}
