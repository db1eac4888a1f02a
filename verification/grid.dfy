/** The checklist grid of the application shell: building the task × location
    matrix from the remote status rows at login, and merging a later poll of
    those rows into the grid. */
module Grid {
  import opened Common
  import opened Types

  /** A status row that belongs to the cell (taskId, loc). */
  predicate RowFor(row: SPStatus, taskId: string, loc: string) {
    row.tarefaId == taskId && row.operacaoSigla == loc
  }

  /** `Array.find` over the status rows: the index of the first row for the cell. */
  function FindRow(rows: seq<SPStatus>, taskId: string, loc: string): (r: Option<nat>)
    ensures r.Some? ==> r.value < |rows| && RowFor(rows[r.value], taskId, loc)
    ensures r.Some? ==> forall j :: 0 <= j < r.value ==> !RowFor(rows[j], taskId, loc)
    ensures r.None? ==> forall j :: 0 <= j < |rows| ==> !RowFor(rows[j], taskId, loc)
  {
    if rows == [] then None
    else if RowFor(rows[0], taskId, loc) then Some(0)
    else match FindRow(rows[1..], taskId, loc)
      case Some(i) => Some(i + 1)
      case None => None
  }

  /** The value the remote rows give a cell: the first matching row's status,
      PR when no row matches. */
  function RemoteValue(rows: seq<SPStatus>, taskId: string, loc: string): Status {
    match FindRow(rows, taskId, loc)
    case Some(i) => rows[i].status
    case None => PR
  }

  /** The remote value is PR exactly when no row matches the cell, and
      otherwise the status of the earliest matching row. */
  lemma RemoteValueMeaning(rows: seq<SPStatus>, taskId: string, loc: string)
    ensures (forall j :: 0 <= j < |rows| ==> !RowFor(rows[j], taskId, loc)) ==> RemoteValue(rows, taskId, loc) == PR
    ensures forall j :: (0 <= j < |rows| && RowFor(rows[j], taskId, loc)
      && forall k :: 0 <= k < j ==> !RowFor(rows[k], taskId, loc)) ==> RemoteValue(rows, taskId, loc) == rows[j].status
  {
    var r := FindRow(rows, taskId, loc);
    forall j | 0 <= j < |rows| && RowFor(rows[j], taskId, loc) && (forall k :: 0 <= k < j ==> !RowFor(rows[k], taskId, loc))
      ensures RemoteValue(rows, taskId, loc) == rows[j].status
    {
      assert r.Some?;
    }
  }

  /** Every task of the grid has an entry for every location. */
  ghost predicate GridComplete(tasks: seq<Task>, locs: seq<string>) {
    forall i, l :: 0 <= i < |tasks| && l in locs ==> l in tasks[i].operations
  }

  // ---------------------------------------------------------------------------
  // Initial load
  // ---------------------------------------------------------------------------

  /** The operations map of one task at login: every location gets its remote value. */
  function BuildOps(locs: seq<string>, rows: seq<SPStatus>, taskId: string): (r: Operations)
    ensures r.Keys == set l | l in locs
    ensures forall l :: l in locs ==> r[l] == RemoteValue(rows, taskId, l)
  {
    if locs == [] then map[]
    else
      var n := |locs| - 1;
      BuildOps(locs[..n], rows, taskId)[locs[n] := RemoteValue(rows, taskId, locs[n])]
  }

  /** One remote task row turned into a grid task. */
  function ToTask(t: SPTask, locs: seq<string>, rows: seq<SPStatus>, now: string): Task {
    Task(t.id, t.horario, t.title, t.descricao, t.categoria, BuildOps(locs, rows, t.id), now, true, Some(t.ativa))
  }

  /** What the login load produces when it completes. */
  datatype Loaded = Loaded(tasks: seq<Task>, locations: seq<string>, token: string)

  /** The locations of the session: the operation titles, in list order. */
  function LocationsOf(spOps: seq<SPOperation>): (locs: seq<string>)
    ensures |locs| == |spOps|
    ensures forall i :: 0 <= i < |spOps| ==> locs[i] == spOps[i].title
  {
    seq(|spOps|, i requires 0 <= i < |spOps| => spOps[i].title)
  }

  /** The full matrix: every task row, active or not, as a grid task. */
  function Matrix(spTasks: seq<SPTask>, locs: seq<string>, rows: seq<SPStatus>, now: string): (m: seq<Task>)
    ensures |m| == |spTasks|
    ensures forall i :: 0 <= i < |m| ==> m[i] == ToTask(spTasks[i], locs, rows, now)
  {
    seq(|spTasks|, i requires 0 <= i < |spTasks| => ToTask(spTasks[i], locs, rows, now))
  }

  /** Dropping the tasks whose `active` flag is false; the others stay, in
      their order and as often as they occur. */
  function ActiveOnly(tasks: seq<Task>): (r: seq<Task>)
    ensures forall t :: t in r <==> t in tasks && IsActive(t)
    ensures Subsequence(r, tasks)
    ensures forall t :: multiset(r)[t] == if IsActive(t) then multiset(tasks)[t] else 0
  {
    FilterIsSubsequence(tasks, IsActive);
    FilterCount(tasks, IsActive);
    Filter(tasks, IsActive)
  }

  /** The login load: locations are the operation titles in order, the tasks
      are the active task rows each with a complete operations map, and the
      list version token is remembered. A failed metadata call aborts the
      whole load (nothing is set). */
  function InitialLoad(spTasks: seq<SPTask>, spOps: seq<SPOperation>, rows: seq<SPStatus>,
                       meta: Result<string>, now: string): (r: Option<Loaded>)
    ensures meta.Failure? <==> r.None?
    ensures r.Some? ==> r.value.token == meta.value && r.value.locations == LocationsOf(spOps)
    ensures r.Some? ==> forall t :: t in spTasks && t.ativa ==>
      ToTask(t, r.value.locations, rows, now) in r.value.tasks
    ensures r.Some? ==> forall t :: t in r.value.tasks ==>
      exists u :: u in spTasks && u.ativa && t == ToTask(u, r.value.locations, rows, now)
    ensures r.Some? ==> r.value.tasks == ActiveOnly(Matrix(spTasks, r.value.locations, rows, now))
  {
    match meta
    case Failure(_) => None
    case Success(token) =>
      var locs := LocationsOf(spOps);
      var matrix := Matrix(spTasks, locs, rows, now);
      var tasks := ActiveOnly(matrix);
      assert forall t :: t in spTasks ==> ToTask(t, locs, rows, now) in matrix by {
        forall t | t in spTasks ensures ToTask(t, locs, rows, now) in matrix {
          var i :| 0 <= i < |spTasks| && spTasks[i] == t;
          assert matrix[i] == ToTask(t, locs, rows, now);
        }
      }
      assert forall t :: t in matrix ==> exists u :: u in spTasks && t == ToTask(u, locs, rows, now) by {
        forall t | t in matrix ensures exists u :: u in spTasks && t == ToTask(u, locs, rows, now) {
          var i :| 0 <= i < |matrix| && matrix[i] == t;
          assert spTasks[i] in spTasks;
        }
      }
      Some(Loaded(tasks, locs, token))
  }

  /** After the login load every task of the grid has an entry for every
      location, holding the remote value of that cell. */
  lemma LoadedGridIsComplete(spTasks: seq<SPTask>, spOps: seq<SPOperation>, rows: seq<SPStatus>,
                             meta: Result<string>, now: string)
    requires meta.Success?
    ensures var r := InitialLoad(spTasks, spOps, rows, meta, now).value;
      && GridComplete(r.tasks, r.locations)
      && forall t, l :: t in r.tasks && l in r.locations ==> t.operations[l] == RemoteValue(rows, t.id, l)
  {
    var r := InitialLoad(spTasks, spOps, rows, meta, now).value;
    forall t | t in r.tasks
      ensures t.operations.Keys == set l | l in r.locations
      ensures forall l :: l in r.locations ==> t.operations[l] == RemoteValue(rows, t.id, l)
    {
      var u :| u in spTasks && u.ativa && t == ToTask(u, r.locations, rows, now);
    }
    forall i, l | 0 <= i < |r.tasks| && l in r.locations ensures l in r.tasks[i].operations {
      assert r.tasks[i] in r.tasks;
    }
  }

  // ---------------------------------------------------------------------------
  // Poll merge
  // ---------------------------------------------------------------------------

  /** Whether a poll would alter the cell `loc` of a task with these operations. */
  predicate Differs(ops: Operations, loc: string, rows: seq<SPStatus>, taskId: string) {
    loc !in ops || ops[loc] != RemoteValue(rows, taskId, loc)
  }

  /** Whether any location of the task would change (the source's `hasChanged`). */
  predicate HasChanged(ops: Operations, locs: seq<string>, rows: seq<SPStatus>, taskId: string) {
    exists l :: l in locs && Differs(ops, l, rows, taskId)
  }

  /** The per-location merge loop: a location is reassigned only when its value
      differs from the remote-derived one. */
  function MergeOps(ops: Operations, locs: seq<string>, rows: seq<SPStatus>, taskId: string): (r: Operations)
    ensures r.Keys == ops.Keys + set l | l in locs
    ensures forall l :: l in locs ==> r[l] == RemoteValue(rows, taskId, l)
    ensures forall k :: k in ops && k !in locs ==> r[k] == ops[k]
  {
    if locs == [] then ops
    else
      var n := |locs| - 1;
      var prev := MergeOps(ops, locs[..n], rows, taskId);
      var v := RemoteValue(rows, taskId, locs[n]);
      assert locs == locs[..n] + [locs[n]];
      if locs[n] in prev && prev[locs[n]] == v then prev else prev[locs[n] := v]
  }

  /** When no location differs, the merge loop leaves the map as it was, so
      returning the task unchanged is the same as returning the merged copy. */
  lemma {:induction false} MergeUnchangedIsIdentity(ops: Operations, locs: seq<string>, rows: seq<SPStatus>, taskId: string)
    requires !HasChanged(ops, locs, rows, taskId)
    ensures MergeOps(ops, locs, rows, taskId) == ops
  {
    if locs != [] {
      var n := |locs| - 1;
      assert !HasChanged(ops, locs[..n], rows, taskId) by {
        forall l | l in locs[..n] ensures !Differs(ops, l, rows, taskId) {
          assert l in locs;
        }
      }
      MergeUnchangedIsIdentity(ops, locs[..n], rows, taskId);
      assert locs[n] in locs;
    }
  }

  /** Merge of one task: only the operations change, every listed location
      takes its remote value, other keys keep theirs, and a task with no
      differing cell is returned as it is. */
  function MergeTask(t: Task, locs: seq<string>, rows: seq<SPStatus>): (r: Task)
    ensures r == t.(operations := r.operations)
    ensures r.operations.Keys == t.operations.Keys + set l | l in locs
    ensures forall l :: l in locs ==> r.operations[l] == RemoteValue(rows, t.id, l)
    ensures forall k :: k in t.operations && k !in locs ==> r.operations[k] == t.operations[k]
    ensures !HasChanged(t.operations, locs, rows, t.id) ==> r == t
  {
    if HasChanged(t.operations, locs, rows, t.id) then
      t.(operations := MergeOps(t.operations, locs, rows, t.id))
    else
      MergeUnchangedIsIdentity(t.operations, locs, rows, t.id);
      t
  }

  /** A poll merge over the whole grid. */
  function MergeAll(tasks: seq<Task>, locs: seq<string>, rows: seq<SPStatus>): (r: seq<Task>)
    ensures |r| == |tasks|
    ensures forall i :: 0 <= i < |r| ==> r[i] == MergeTask(tasks[i], locs, rows)
    ensures GridComplete(r, locs)
  {
    seq(|tasks|, i requires 0 <= i < |tasks| => MergeTask(tasks[i], locs, rows))
  }

  /** Merging the same rows a second time changes nothing. */
  lemma MergeIdempotent(tasks: seq<Task>, locs: seq<string>, rows: seq<SPStatus>)
    ensures MergeAll(MergeAll(tasks, locs, rows), locs, rows) == MergeAll(tasks, locs, rows)
  {
    var once := MergeAll(tasks, locs, rows);
    forall i | 0 <= i < |once| ensures MergeTask(once[i], locs, rows) == once[i] {
      assert !HasChanged(once[i].operations, locs, rows, once[i].id);
    }
  }

  // ---------------------------------------------------------------------------
  // Local edits
  // ---------------------------------------------------------------------------

  /** The optimistic update of one cell: every task with the id gets the new
      status at the location; nothing else changes. */
  function SetCell(tasks: seq<Task>, taskId: string, loc: string, st: Status): (r: seq<Task>)
    ensures |r| == |tasks|
    ensures forall i :: 0 <= i < |r| ==> r[i] == tasks[i].(operations := r[i].operations)
    ensures forall i :: 0 <= i < |r| && tasks[i].id == taskId ==>
      r[i].operations.Keys == tasks[i].operations.Keys + {loc} && r[i].operations[loc] == st
    ensures forall i, k :: 0 <= i < |r| && k in tasks[i].operations && (tasks[i].id != taskId || k != loc) ==>
      k in r[i].operations && r[i].operations[k] == tasks[i].operations[k]
    ensures forall i :: 0 <= i < |r| && tasks[i].id != taskId ==> r[i] == tasks[i]
  {
    seq(|tasks|, i requires 0 <= i < |tasks| =>
      if tasks[i].id == taskId then tasks[i].(operations := tasks[i].operations[loc := st]) else tasks[i])
  }

  /** A local edit keeps every task's entries for every location. */
  lemma SetCellKeepsGridComplete(tasks: seq<Task>, locs: seq<string>, taskId: string, loc: string, st: Status)
    requires GridComplete(tasks, locs)
    ensures GridComplete(SetCell(tasks, taskId, loc, st), locs)
  {
  }
}
