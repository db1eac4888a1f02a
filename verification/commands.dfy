/** The checklist grid's write-through commands: the status cycle, what a
    click or a drag over a cell writes, the optimistic single-cell update
    with rollback, painting a whole row, and the full reset that snapshots the
    grid into the history list before writing PR everywhere. Remote writes go
    through the upsert of the gateway; each cell's write outcome is an input. */
module Commands {
  import opened Common
  import opened Types
  import opened Grid
  import opened Gateway

  // ---------------------------------------------------------------------------
  // Status cycle
  // ---------------------------------------------------------------------------

  /** The `next` column of the status table: OK→EA→AR→ATT→AT→PR→OK. */
  function Next(s: Status): (n: Status)
    ensures n != s
  {
    match s
    case OK => EA
    case EA => AR
    case AR => ATT
    case ATT => AT
    case AT => PR
    case PR => OK
  }

  function Iterate(s: Status, k: nat): Status {
    if k == 0 then s else Next(Iterate(s, k - 1))
  }

  /** The statuses met by clicking a cell five times. */
  function Orbit(s: Status): seq<Status> {
    seq(6, k requires 0 <= k < 6 => Iterate(s, k))
  }

  /** The cycle is one loop through all six statuses: six clicks return to
      the start, fewer never do, and every status is met on the way. */
  lemma CycleOfSix(s: Status)
    ensures Iterate(s, 6) == s
    ensures forall k :: 0 < k < 6 ==> Iterate(s, k) != s
    ensures forall t: Status :: t in Orbit(s)
  {
    assert Iterate(s, 1) == Next(s);
    assert Iterate(s, 2) == Next(Next(s));
    assert Iterate(s, 3) == Next(Next(Next(s)));
    assert Iterate(s, 4) == Next(Next(Next(Next(s))));
    assert Iterate(s, 5) == Next(Next(Next(Next(Next(s)))));
    assert Iterate(s, 6) == Next(Next(Next(Next(Next(Next(s))))));
    var o := Orbit(s);
    assert o == [Iterate(s, 0), Iterate(s, 1), Iterate(s, 2), Iterate(s, 3), Iterate(s, 4), Iterate(s, 5)];
    forall t: Status ensures t in o {
      StatusesAreSix();
      assert t in AllStatuses;
      match s
      case OK => assert o == [OK, EA, AR, ATT, AT, PR];
      case EA => assert o == [EA, AR, ATT, AT, PR, OK];
      case AR => assert o == [AR, ATT, AT, PR, OK, EA];
      case ATT => assert o == [ATT, AT, PR, OK, EA, AR];
      case AT => assert o == [AT, PR, OK, EA, AR, ATT];
      case PR => assert o == [PR, OK, EA, AR, ATT, AT];
    }
  }

  /** The cycle read backwards. */
  function Prev(s: Status): (p: Status)
    ensures p != s
  {
    match s
    case EA => OK
    case AR => EA
    case ATT => AR
    case AT => ATT
    case PR => AT
    case OK => PR
  }

  /** `next` is a permutation of the statuses: it has `Prev` as its inverse. */
  lemma NextIsPermutation(s: Status)
    ensures Next(Prev(s)) == s && Prev(Next(s)) == s
  {
  }

  // ---------------------------------------------------------------------------
  // Cell interaction
  // ---------------------------------------------------------------------------

  /** The first task with the id (`Array.find`). */
  function FindTask(tasks: seq<Task>, taskId: string): (r: Option<Task>)
    ensures r.Some? ==> r.value in tasks && r.value.id == taskId
    ensures r.None? ==> forall t :: t in tasks ==> t.id != taskId
    ensures forall j :: 0 <= j < |tasks| && tasks[j].id == taskId && (forall k :: 0 <= k < j ==> tasks[k].id != taskId) ==>
      r == Some(tasks[j])
  {
    if tasks == [] then None
    else if tasks[0].id == taskId then Some(tasks[0])
    else
      assert forall j :: 1 <= j < |tasks| ==> tasks[j] == tasks[1..][j - 1];
      FindTask(tasks[1..], taskId)
  }

  /** The status a cell interaction asks for: the forced status, else the
      active brush, else the next status of the cycle. */
  function Resolve(current: Status, forced: Option<Status>, brush: Option<Status>): (n: Status)
    ensures forced.Some? ==> n == forced.value
    ensures forced.None? && brush.Some? ==> n == brush.value
    ensures forced.None? && brush.None? ==> n == Next(current) && n != current
  {
    if forced.Some? then forced.value else if brush.Some? then brush.value else Next(current)
  }

  /** onCellInteraction: the status to write for the cell, or None when the
      task is unknown or the status would not change. The current status is
      the recorded one, PR when absent. */
  function CellInteraction(tasks: seq<Task>, taskId: string, loc: string,
                           forced: Option<Status>, brush: Option<Status>): (w: Option<Status>)
    ensures w.Some? <==> (FindTask(tasks, taskId).Some? &&
      Resolve(StatusOr(FindTask(tasks, taskId).value.operations, loc), forced, brush)
        != StatusOr(FindTask(tasks, taskId).value.operations, loc))
    ensures w.Some? ==> w.value == Resolve(StatusOr(FindTask(tasks, taskId).value.operations, loc), forced, brush)
  {
    match FindTask(tasks, taskId)
    case None => None
    case Some(t) =>
      var current := StatusOr(t.operations, loc);
      var n := Resolve(current, forced, brush);
      if n != current then Some(n) else None
  }

  /** Without a brush, a click on a known task always writes the next status. */
  lemma PlainClickAlwaysWrites(tasks: seq<Task>, i: nat, loc: string)
    requires i < |tasks|
    ensures CellInteraction(tasks, tasks[i].id, loc, None, None).Some?
  {
    assert tasks[i] in tasks;
  }

  /** A brush over a cell that already holds the brush's status writes nothing. */
  lemma SameBrushWritesNothing(tasks: seq<Task>, taskId: string, loc: string, b: Status)
    requires FindTask(tasks, taskId).Some? && StatusOr(FindTask(tasks, taskId).value.operations, loc) == b
    ensures CellInteraction(tasks, taskId, loc, None, Some(b)).None?
  {
  }

  // ---------------------------------------------------------------------------
  // Upsert key
  // ---------------------------------------------------------------------------

  /** `${date without dashes}_${taskId}_${location}`, the Title of a status row. */
  function UniqueKey(date: string, taskId: string, loc: string): string {
    Remove(date, '-') + "_" + taskId + "_" + loc
  }

  /** A string joined at a separator starts with the separator exactly when
      the part before it is empty. */
  lemma HeadIsSeparator(a: string, b: string, sep: char)
    requires sep !in a
    ensures (a + [sep] + b)[0] == sep <==> a == []
  {
    if a != [] {
      assert (a + [sep] + b)[0] == a[0];
      assert a[0] in a;
    }
  }

  lemma {:induction false} SplitAtFirst(a: string, b: string, c: string, d: string, sep: char)
    requires sep !in a && sep !in c
    requires a + [sep] + b == c + [sep] + d
    ensures a == c && b == d
  {
    HeadIsSeparator(a, b, sep);
    HeadIsSeparator(c, d, sep);
    if a == [] {
      assert b == (a + [sep] + b)[1..];
      assert d == (c + [sep] + d)[1..];
    } else {
      assert a[0] == c[0] by {
        assert (a + [sep] + b)[0] == a[0];
        assert (c + [sep] + d)[0] == c[0];
      }
      assert a[1..] + [sep] + b == c[1..] + [sep] + d by {
        assert (a + [sep] + b)[1..] == a[1..] + [sep] + b;
        assert (c + [sep] + d)[1..] == c[1..] + [sep] + d;
      }
      assert sep !in a[1..] && sep !in c[1..] by {
        forall x | x in a[1..] ensures x in a { }
        forall x | x in c[1..] ensures x in c { }
      }
      SplitAtFirst(a[1..], b, c[1..], d, sep);
      assert a == [a[0]] + a[1..];
      assert c == [c[0]] + c[1..];
    }
  }

  /** When task ids contain no underscore, the key determines the day, the
      task and the location. */
  lemma UniqueKeyInjective(d1: string, t1: string, l1: string, d2: string, t2: string, l2: string)
    requires '_' !in Remove(d1, '-') && '_' !in Remove(d2, '-') && '_' !in t1 && '_' !in t2
    requires UniqueKey(d1, t1, l1) == UniqueKey(d2, t2, l2)
    ensures Remove(d1, '-') == Remove(d2, '-') && t1 == t2 && l1 == l2
  {
    var a1, a2 := Remove(d1, '-'), Remove(d2, '-');
    KeyShape(d1, t1, l1);
    KeyShape(d2, t2, l2);
    SplitAtFirst(a1, t1 + "_" + l1, a2, t2 + "_" + l2, '_');
    SplitAtFirst(t1, l1, t2, l2, '_');
  }

  lemma KeyShape(date: string, taskId: string, loc: string)
    ensures UniqueKey(date, taskId, loc) == Remove(date, '-') + ['_'] + (taskId + "_" + loc)
  {
    var d := Remove(date, '-');
    assert d + "_" + taskId + "_" + loc == d + ['_'] + (taskId + "_" + loc);
  }

  /** An underscore in a task id makes two different cells share a key. */
  lemma UniqueKeyNeedsPlainIds(date: string)
    ensures UniqueKey(date, "7_A", "B") == UniqueKey(date, "7", "A_B")
  {
    var d := Remove(date, '-');
    assert "7_A" + "_" + "B" == "7" + "_" + "A_B";
    assert d + "_" + "7_A" + "_" + "B" == d + "_" + ("7_A" + "_" + "B");
    assert d + "_" + "7" + "_" + "A_B" == d + "_" + ("7" + "_" + "A_B");
  }

  /** The status row a write sends. */
  function StatusRow(date: string, taskId: string, loc: string, st: Status, who: string): (row: SPStatus)
    ensures RowFor(row, taskId, loc) && row.status == st && row.dataReferencia == date
    ensures row.title == UniqueKey(date, taskId, loc)
  {
    SPStatus(None, date, taskId, loc, st, who, UniqueKey(date, taskId, loc))
  }

  /** Every row of the list, whatever its day, carries the key of its own
      cell: its day, task id and location. */
  ghost predicate WellKeyed(rows: seq<SPStatus>) {
    forall j :: 0 <= j < |rows| ==>
      rows[j].title == UniqueKey(rows[j].dataReferencia, rows[j].tarefaId, rows[j].operacaoSigla)
  }

  /** On the clean path an upsert into a well-keyed list keeps it well-keyed,
      and the cell then reads back the written status from that day's rows,
      whatever rows of other days the list holds. Writes and reads go through
      one abstract row, so the columns written are the columns read. */
  lemma CleanUpsertReadsBack(rows: seq<SPStatus>, row: SPStatus, plan: UpsertPlan)
    requires WellKeyed(rows) && Clean(plan)
    requires row.title == UniqueKey(row.dataReferencia, row.tarefaId, row.operacaoSigla)
    ensures WellKeyed(Upsert(rows, row, plan).value)
    ensures RemoteValue(StatusByDate(Success(Upsert(rows, row, plan).value), row.dataReferencia),
                        row.tarefaId, row.operacaoSigla) == row.status
  {
    var after := Upsert(rows, row, plan).value;
    var d, t, l := row.dataReferencia, row.tarefaId, row.operacaoSigla;
    match FirstTitled(rows, row.title)
    case Some(i) =>
      var patched := row.(id := rows[i].id);
      assert after == rows[i := patched];
      forall k | 0 <= k < i ensures !(OnDate(rows[k], d) && RowFor(rows[k], t, l)) {
        assert rows[k].title != row.title;
      }
      assert after == rows[..i] + [patched] + rows[i + 1..];
      ReadsFirstOfDay(rows[..i], patched, rows[i + 1..], d, t, l);
    case None =>
      forall k | 0 <= k < |rows| ensures !(OnDate(rows[k], d) && RowFor(rows[k], t, l)) {
        assert rows[k].title != row.title;
      }
      assert after == rows + [row] + [];
      ReadsFirstOfDay(rows, row, [], d, t, l);
  }

  /** When no earlier row of the day belongs to the cell, the day's read
      finds `x` first. */
  lemma ReadsFirstOfDay(pre: seq<SPStatus>, x: SPStatus, post: seq<SPStatus>, d: string, t: string, l: string)
    requires OnDate(x, d) && RowFor(x, t, l)
    requires forall k :: 0 <= k < |pre| ==> !(OnDate(pre[k], d) && RowFor(pre[k], t, l))
    ensures RemoteValue(StatusByDate(Success(pre + [x] + post), d), t, l) == x.status
  {
    var f := Filter(pre, OnDay(d));
    FilterAppend(pre + [x], post, OnDay(d));
    FilterSnoc(pre, x, OnDay(d));
    var day := StatusByDate(Success(pre + [x] + post), d);
    assert day == f + [x] + Filter(post, OnDay(d));
    assert day[|f|] == x;
    forall k | 0 <= k < |f| ensures !RowFor(day[k], t, l) {
      assert day[k] == f[k];
      assert f[k] in pre;
    }
    RemoteValueMeaning(day, t, l);
  }

  /** A write that reaches the list through the error handler's append is
      shadowed by an older row of the same cell: reading the cell back still
      gives the old status. */
  lemma FallbackWriteIsShadowed(rows: seq<SPStatus>, row: SPStatus)
    requires |rows| > 0 && RowFor(rows[0], row.tarefaId, row.operacaoSigla)
    ensures var after := Upsert(rows, row, UpsertPlan(true, true, false, true)).value;
      RemoteValue(after, row.tarefaId, row.operacaoSigla) == rows[0].status
  {
    var after := Upsert(rows, row, UpsertPlan(true, true, false, true)).value;
    RemoteValueMeaning(after, row.tarefaId, row.operacaoSigla);
    assert after[0] == rows[0];
  }

  // ---------------------------------------------------------------------------
  // Single-cell write
  // ---------------------------------------------------------------------------

  datatype Outcome = Skipped | Saved | Failed

  /** The grid and the day's status rows after a command. */
  datatype Effect = Effect(tasks: seq<Task>, rows: seq<SPStatus>, outcome: Outcome)

  /** handleUpdateStatus: without a token nothing happens. Otherwise the cell
      is updated optimistically and the row upserted; when the upsert fails
      the grid goes back to the snapshot taken before the update. */
  function UpdateStatus(tasks: seq<Task>, rows: seq<SPStatus>, user: User, date: string,
                        taskId: string, loc: string, st: Status, plan: UpsertPlan): (r: Effect)
    ensures user.accessToken.None? ==> r == Effect(tasks, rows, Skipped)
    ensures r.outcome == Saved <==> user.accessToken.Some? && Succeeds(plan)
    ensures r.outcome == Saved ==> (r.tasks == SetCell(tasks, taskId, loc, st)
      && r.rows == Upsert(rows, StatusRow(date, taskId, loc, st, user.name), plan).value)
    ensures r.outcome != Saved ==> r.tasks == tasks && r.rows == rows
  {
    if user.accessToken.None? then Effect(tasks, rows, Skipped)
    else match Upsert(rows, StatusRow(date, taskId, loc, st, user.name), plan)
      case Success(rows2) => Effect(SetCell(tasks, taskId, loc, st), rows2, Saved)
      case Failure(_) => Effect(tasks, rows, Failed)
  }

  /** A saved single-cell write survives the next poll: merging the day's rows
      back into the grid shows the written status in that cell. */
  lemma SavedWriteSurvivesPoll(tasks: seq<Task>, rows: seq<SPStatus>, user: User, date: string,
                               i: nat, loc: string, st: Status, plan: UpsertPlan, locs: seq<string>)
    requires i < |tasks| && loc in locs && user.accessToken.Some? && Clean(plan)
    requires WellKeyed(rows)
    ensures var e := UpdateStatus(tasks, rows, user, date, tasks[i].id, loc, st, plan);
      && e.outcome == Saved
      && WellKeyed(e.rows)
      && MergeAll(e.tasks, locs, StatusByDate(Success(e.rows), date))[i].operations[loc] == st
  {
    var row := StatusRow(date, tasks[i].id, loc, st, user.name);
    CleanUpsertReadsBack(rows, row, plan);
  }

  // ---------------------------------------------------------------------------
  // Batches of writes
  // ---------------------------------------------------------------------------

  /** The outcome of the write of each cell (task id, location). */
  type Network = (string, string) -> UpsertPlan

  predicate WriteOk(net: Network, w: SPStatus) {
    Succeeds(net(w.tarefaId, w.operacaoSigla))
  }

  /** All writes of a batch are issued; each one that succeeds changes the
      rows; the batch succeeds only if every write does. */
  function WriteAll(rows: seq<SPStatus>, writes: seq<SPStatus>, net: Network): (r: (seq<SPStatus>, bool))
    ensures r.1 <==> forall w :: w in writes ==> WriteOk(net, w)
    ensures |r.0| >= |rows|
    ensures writes == [] ==> r.0 == rows
    decreases |writes|
  {
    if writes == [] then (rows, true)
    else
      var w := writes[0];
      var rows1 := match Upsert(rows, w, net(w.tarefaId, w.operacaoSigla))
        case Success(s) => s
        case Failure(_) => rows;
      var rest := WriteAll(rows1, writes[1..], net);
      assert forall x :: x in writes <==> x == w || x in writes[1..] by {
        assert writes == [w] + writes[1..];
      }
      (rest.0, WriteOk(net, w) && rest.1)
  }

  // ---------------------------------------------------------------------------
  // Row paint
  // ---------------------------------------------------------------------------

  function PaintWrites(date: string, taskId: string, locs: seq<string>, b: Status, who: string): (w: seq<SPStatus>)
    ensures |w| == |locs|
    ensures forall j :: 0 <= j < |w| ==> w[j] == StatusRow(date, taskId, locs[j], b, who)
  {
    seq(|locs|, j requires 0 <= j < |locs| => StatusRow(date, taskId, locs[j], b, who))
  }

  /** Every task with the id gets the operations {loc ↦ status | loc in locs}. */
  function PaintTasks(tasks: seq<Task>, taskId: string, locs: seq<string>, b: Status): (r: seq<Task>)
    ensures |r| == |tasks|
    ensures forall i :: 0 <= i < |r| && tasks[i].id == taskId ==>
      r[i] == tasks[i].(operations := r[i].operations)
      && r[i].operations.Keys == (set l | l in locs) && forall l :: l in r[i].operations ==> r[i].operations[l] == b
    ensures forall i :: 0 <= i < |r| && tasks[i].id != taskId ==> r[i] == tasks[i]
  {
    seq(|tasks|, i requires 0 <= i < |tasks| =>
      if tasks[i].id == taskId then tasks[i].(operations := UniformOps(locs, b)) else tasks[i])
  }

  /** handlePaintRow: nothing without a brush or a token; otherwise the row
      becomes exactly the brush over the locations, one write per location is
      issued, and the grid goes back to its snapshot if any write fails. */
  function PaintRow(tasks: seq<Task>, rows: seq<SPStatus>, user: User, date: string, locs: seq<string>,
                    taskId: string, brush: Option<Status>, net: Network): (r: Effect)
    ensures brush.None? || user.accessToken.None? ==> r == Effect(tasks, rows, Skipped)
    ensures r.outcome == Saved <==> (brush.Some? && user.accessToken.Some? &&
      forall l :: l in locs ==> Succeeds(net(taskId, l)))
    ensures r.outcome == Saved ==> r.tasks == PaintTasks(tasks, taskId, locs, brush.value)
    ensures r.outcome != Saved ==> r.tasks == tasks
  {
    if brush.None? || user.accessToken.None? then Effect(tasks, rows, Skipped)
    else
      var writes := PaintWrites(date, taskId, locs, brush.value, user.name);
      var (rows2, ok) := WriteAll(rows, writes, net);
      assert ok <==> forall l :: l in locs ==> Succeeds(net(taskId, l)) by {
        assert forall w :: w in writes ==> exists j :: 0 <= j < |locs| && w == writes[j];
        forall l | l in locs ensures exists w :: w in writes && w.tarefaId == taskId && w.operacaoSigla == l {
          var j :| 0 <= j < |locs| && locs[j] == l;
          assert writes[j] in writes;
        }
      }
      if ok then Effect(PaintTasks(tasks, taskId, locs, brush.value), rows2, Saved)
      else Effect(tasks, rows2, Failed)
  }

  // ---------------------------------------------------------------------------
  // Reset
  // ---------------------------------------------------------------------------

  /** A PR write of some (task, location) of the grid, signed by `who`. */
  ghost predicate IsResetWrite(x: SPStatus, tasks: seq<Task>, locs: seq<string>, date: string, who: string) {
    exists t, l :: t in tasks && l in locs && x == StatusRow(date, t.id, l, PR, who)
  }

  /** One PR write per (task, location), signed by the responsible person. */
  function ResetWrites(tasks: seq<Task>, locs: seq<string>, date: string, who: string): seq<SPStatus> {
    if tasks == [] then []
    else
      var n := |tasks| - 1;
      ResetWrites(tasks[..n], locs, date, who) + PaintWrites(date, tasks[n].id, locs, PR, who)
  }

  /** The reset writes every cell of the grid as PR, and writes nothing else. */
  lemma {:induction false} ResetWritesExactlyTheGrid(tasks: seq<Task>, locs: seq<string>, date: string, who: string)
    ensures forall t, l :: t in tasks && l in locs ==> StatusRow(date, t.id, l, PR, who) in ResetWrites(tasks, locs, date, who)
    ensures forall x :: x in ResetWrites(tasks, locs, date, who) ==> IsResetWrite(x, tasks, locs, date, who)
  {
    if tasks != [] {
      var n := |tasks| - 1;
      ResetWritesExactlyTheGrid(tasks[..n], locs, date, who);
      var prev := ResetWrites(tasks[..n], locs, date, who);
      var mine := PaintWrites(date, tasks[n].id, locs, PR, who);
      var w := ResetWrites(tasks, locs, date, who);
      assert w == prev + mine;
      forall t, l | t in tasks && l in locs ensures StatusRow(date, t.id, l, PR, who) in w {
        var i :| 0 <= i < |tasks| && tasks[i] == t;
        if i < n {
          assert tasks[..n][i] == t;
          assert StatusRow(date, t.id, l, PR, who) in prev;
        } else {
          var j :| 0 <= j < |locs| && locs[j] == l;
          assert mine[j] == StatusRow(date, t.id, l, PR, who);
        }
      }
      forall x | x in w ensures IsResetWrite(x, tasks, locs, date, who) {
        if x in prev {
          assert IsResetWrite(x, tasks[..n], locs, date, who);
          var t, l :| t in tasks[..n] && l in locs && x == StatusRow(date, t.id, l, PR, who);
          assert t in tasks;
        } else {
          var j :| 0 <= j < |mine| && mine[j] == x;
          assert tasks[n] in tasks && locs[j] in locs;
        }
      }
    }
  }

  /** Every task's operations become PR over the locations, and only them. */
  function ClearTasks(tasks: seq<Task>, locs: seq<string>): (r: seq<Task>)
    ensures |r| == |tasks|
    ensures forall i :: 0 <= i < |r| ==> (r[i] == tasks[i].(operations := r[i].operations)
      && r[i].operations.Keys == (set l | l in locs) && forall l :: l in r[i].operations ==> r[i].operations[l] == PR)
  {
    seq(|tasks|, i requires 0 <= i < |tasks| => tasks[i].(operations := UniformOps(locs, PR)))
  }

  /** The grid, the day's rows and the history list after a reset. */
  datatype ResetEffect = ResetEffect(tasks: seq<Task>, rows: seq<SPStatus>, history: seq<HistoryItem>, outcome: Outcome)

  /** What the reset needs from the environment: the time, the new history
      item's id and whether the history save succeeds. */
  datatype ResetContext = ResetContext(date: string, nowIso: string, recordId: string, itemId: string, historyOk: bool)

  function ResetRecord(tasks: seq<Task>, user: User, responsible: string, ctx: ResetContext): HistoryRecord {
    HistoryRecord(ctx.recordId, ctx.nowIso, tasks, Some(responsible), Some(user.email), None)
  }

  /** handleResetChecklist: nothing without a responsible name or a token.
      The current grid is first saved to the history list; if that fails
      nothing else happens. Then every cell is written as PR by the
      responsible; the grid is cleared only if all writes succeed. */
  function ResetChecklist(tasks: seq<Task>, locs: seq<string>, rows: seq<SPStatus>, history: seq<HistoryItem>,
                          user: User, responsible: string, ctx: ResetContext, net: Network): (r: ResetEffect)
    ensures IsBlank(responsible) || user.accessToken.None? ==> r == ResetEffect(tasks, rows, history, Skipped)
    ensures r.outcome != Skipped && !ctx.historyOk ==> r == ResetEffect(tasks, rows, history, Failed)
    ensures r.outcome != Skipped && ctx.historyOk ==>
      r.history == history + [HistoryFields(ResetRecord(tasks, user, responsible, ctx), ctx.itemId)]
    ensures r.outcome == Saved <==> (!IsBlank(responsible) && user.accessToken.Some? && ctx.historyOk
      && forall t, l :: t in tasks && l in locs ==> Succeeds(net(t.id, l)))
    ensures r.outcome == Saved ==> r.tasks == ClearTasks(tasks, locs)
    ensures r.outcome != Saved ==> r.tasks == tasks
  {
    if IsBlank(responsible) || user.accessToken.None? then ResetEffect(tasks, rows, history, Skipped)
    else match SaveHistory(history, ResetRecord(tasks, user, responsible, ctx), ctx.itemId, ctx.historyOk)
      case Failure(_) => ResetEffect(tasks, rows, history, Failed)
      case Success(history2) =>
        var writes := ResetWrites(tasks, locs, ctx.date, responsible);
        var (rows2, ok) := WriteAll(rows, writes, net);
        assert ok <==> forall t, l :: t in tasks && l in locs ==> Succeeds(net(t.id, l)) by {
          ResetWritesExactlyTheGrid(tasks, locs, ctx.date, responsible);
          forall x | x in writes ensures exists t, l :: t in tasks && l in locs && x.tarefaId == t.id && x.operacaoSigla == l {
            assert IsResetWrite(x, tasks, locs, ctx.date, responsible);
          }
        }
        if ok then ResetEffect(ClearTasks(tasks, locs), rows2, history2, Saved)
        else ResetEffect(tasks, rows2, history2, Failed)
  }

  /** A reset never writes a cell before the history snapshot is stored: a
      failed history save leaves the status rows untouched. */
  lemma HistoryBeforeCellWrites(tasks: seq<Task>, locs: seq<string>, rows: seq<SPStatus>, history: seq<HistoryItem>,
                                user: User, responsible: string, ctx: ResetContext, net: Network)
    requires !ctx.historyOk
    ensures ResetChecklist(tasks, locs, rows, history, user, responsible, ctx, net).rows == rows
  {
  }

  /** After a saved reset every task's status at every location is PR, and the
      history holds the grid as it was just before. */
  lemma SavedResetClearsGrid(tasks: seq<Task>, locs: seq<string>, rows: seq<SPStatus>, history: seq<HistoryItem>,
                             user: User, responsible: string, ctx: ResetContext, net: Network)
    requires ResetChecklist(tasks, locs, rows, history, user, responsible, ctx, net).outcome == Saved
    ensures var r := ResetChecklist(tasks, locs, rows, history, user, responsible, ctx, net);
      && GridComplete(r.tasks, locs)
      && (forall i, l :: 0 <= i < |r.tasks| && l in locs ==> r.tasks[i].operations[l] == PR)
      && RecordOf(r.history[|history|]).tasks == tasks
  {
  }

  // ---------------------------------------------------------------------------
  // Drag painting
  // ---------------------------------------------------------------------------

  /** MouseEvent events over the grid's cells. */
  datatype MouseEvent = Down(taskId: string, loc: string) | Enter(taskId: string, loc: string) | Up

  /** A cell interaction issued by the mouse. */
  datatype Touch = Touch(taskId: string, loc: string, forced: Option<Status>)

  datatype Drag = Drag(dragging: bool, painted: set<string>)

  /** The key of a cell in the set of cells painted during the current drag. */
  function DragKey(taskId: string, loc: string): string {
    taskId + "-" + loc
  }

  /** Mouse down interacts with the cell and starts a drag; entering a cell
      during a drag interacts with it once, forcing the brush if one is
      active; mouse up ends the drag and forgets the painted cells. */
  function DragStep(d: Drag, p: MouseEvent, brush: Option<Status>): (r: (Drag, Option<Touch>))
    ensures d.painted <= r.0.painted || (p.Up? && d.dragging && r.0.painted == {})
    ensures r.1.Some? ==> DragKey(r.1.value.taskId, r.1.value.loc) in r.0.painted
    ensures p.Enter? && r.1.Some? ==> DragKey(p.taskId, p.loc) !in d.painted && r.1.value.forced == brush
  {
    match p
    case Down(t, l) => (Drag(true, d.painted + {DragKey(t, l)}), Some(Touch(t, l, None)))
    case Enter(t, l) =>
      if d.dragging && DragKey(t, l) !in d.painted then (Drag(d.dragging, d.painted + {DragKey(t, l)}), Some(Touch(t, l, brush)))
      else (d, None)
    case Up => if d.dragging then (Drag(false, {}), None) else (d, None)
  }

  function DragRun(d: Drag, ps: seq<MouseEvent>, brush: Option<Status>): (Drag, seq<Touch>)
    decreases |ps|
  {
    if ps == [] then (d, [])
    else
      var (d1, t) := DragStep(d, ps[0], brush);
      var (d2, rest) := DragRun(d1, ps[1..], brush);
      (d2, (if t.Some? then [t.value] else []) + rest)
  }

  /** While the mouse moves over cells during a drag, each cell is
      interacted with at most once, and never one already painted. */
  lemma {:induction false} DragTouchesEachCellOnce(d: Drag, ps: seq<MouseEvent>, brush: Option<Status>)
    requires forall k :: 0 <= k < |ps| ==> ps[k].Enter?
    ensures var (d2, out) := DragRun(d, ps, brush);
      && (forall i :: 0 <= i < |out| ==> DragKey(out[i].taskId, out[i].loc) !in d.painted)
      && (forall i, j :: 0 <= i < j < |out| ==> DragKey(out[i].taskId, out[i].loc) != DragKey(out[j].taskId, out[j].loc))
      && (forall i :: 0 <= i < |out| ==> DragKey(out[i].taskId, out[i].loc) in d2.painted)
      && d.painted <= d2.painted
    decreases |ps|
  {
    if ps != [] {
      var (d1, t) := DragStep(d, ps[0], brush);
      DragTouchesEachCellOnce(d1, ps[1..], brush);
      var (d2, rest) := DragRun(d1, ps[1..], brush);
      var out := (if t.Some? then [t.value] else []) + rest;
      assert DragRun(d, ps, brush) == (d2, out);
      assert d.painted <= d1.painted;
      if t.Some? {
        forall i | 0 < i < |out| ensures DragKey(out[i].taskId, out[i].loc) != DragKey(t.value.taskId, t.value.loc) {
          assert out[i] == rest[i - 1];
        }
      }
    }
  }
}
