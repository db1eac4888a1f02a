/** The application shell's synchronisation with the remote status list: the
    interaction gate with its 8-second cooldown, the 6-second poll that
    compares the list's version token and merges the day's rows into the grid,
    and the once-per-session partial history snapshot.

    Time is an abstract millisecond clock; a poll tick is split in two events
    (the metadata answer, then the rows answer) so that the "sync in flight"
    flag and everything that can happen between the two are visible. */
module Sync {
  import opened Common
  import opened Types
  import opened Grid
  import Gateway

  /** Milliseconds the gate stays closed after the last interaction ends. */
  const Cooldown: int := 8000
  /** Milliseconds between two poll ticks. */
  const PollPeriod: int := 6000

  datatype SyncState = SyncState(
    signedIn: bool,               // the user has an access token
    tasks: seq<Task>,
    locations: seq<string>,
    token: Option<string>,        // the last list version seen
    blocked: bool,                // the interaction gate
    deadline: Option<int>,        // when the pending cooldown timer fires
    fetching: Option<string>)     // a poll whose rows are awaited, with the version that triggered it

  datatype Event =
    | InteractionStart
    | InteractionEnd(now: int)
    | TimerExpire(now: int)
    | LocalEdit(taskId: string, loc: string, st: Status)
    | Tick(meta: Result<string>)
    | RowsFetched(fetched: Result<seq<SPStatus>>, date: string)

  /** The state right after the login load. A failed load sets nothing. */
  function AfterLoad(signedIn: bool, load: Option<Loaded>): (s: SyncState)
    ensures !s.blocked && s.deadline.None? && s.fetching.None?
    ensures load.Some? ==> (s.tasks == load.value.tasks && s.locations == load.value.locations
                            && s.token == Some(load.value.token))
    ensures load.None? ==> s.tasks == [] && s.locations == [] && s.token.None?
  {
    match load
    case Some(l) => SyncState(signedIn, l.tasks, l.locations, Some(l.token), false, None, None)
    case None => SyncState(signedIn, [], [], None, false, None, None)
  }

  /** onInteractionStart: close the gate. No timer is touched. */
  function Start(s: SyncState): (r: SyncState)
    ensures r.blocked
    ensures r == s.(blocked := r.blocked)
  {
    s.(blocked := true)
  }

  /** handleManualSaveComplete: without a token nothing happens; otherwise the
      gate stays closed and the cooldown timer is re-armed to fire 8 seconds
      from now, replacing any pending one. */
  function End(s: SyncState, now: int): (r: SyncState)
    ensures !s.signedIn ==> r == s
    ensures s.signedIn ==> r.blocked && r.deadline == Some(now + Cooldown)
    ensures r.tasks == s.tasks && r.token == s.token && r.fetching == s.fetching
  {
    if !s.signedIn then s else s.(blocked := true, deadline := Some(now + Cooldown))
  }

  /** The cooldown timer's callback: opens the gate unconditionally once its
      time has come. */
  function Fire(s: SyncState, now: int): (r: SyncState)
    ensures s.deadline.Some? && now >= s.deadline.value ==> !r.blocked && r.deadline.None?
    ensures !(s.deadline.Some? && now >= s.deadline.value) ==> r == s
    ensures r.tasks == s.tasks && r.token == s.token && r.fetching == s.fetching
  {
    if s.deadline.Some? && now >= s.deadline.value then s.(blocked := false, deadline := None) else s
  }

  /** Whether a poll tick is skipped before it asks anything. */
  predicate Idle(s: SyncState) {
    !s.signedIn || s.fetching.Some? || s.blocked
  }

  /** The metadata phase of a poll: skipped while the gate is closed or a sync
      is in flight; a failed metadata call or an unchanged version does
      nothing; a new version starts fetching the day's rows. */
  function TickMeta(s: SyncState, meta: Result<string>): (r: SyncState)
    ensures Idle(s) || meta.Failure? || Some(meta.value) == s.token ==> r == s
    ensures !Idle(s) && meta.Success? && Some(meta.value) != s.token ==> r == s.(fetching := Some(meta.value))
  {
    if Idle(s) then s
    else match meta
      case Failure(_) => s
      case Success(tok) => if Some(tok) == s.token then s else s.(fetching := Some(tok))
  }

  /** The rows phase of a poll as the source does it: the rows query reports
      a failure as "no rows", so the grid is merged with nothing (every cell
      back to PR) and the version is recorded as seen. */
  function RowsArriveAsWritten(s: SyncState, fetched: Result<seq<SPStatus>>, date: string): (r: SyncState)
    ensures s.fetching.None? ==> r == s
    ensures s.fetching.Some? ==> (r.fetching.None? && r.token == s.fetching
      && r.tasks == MergeAll(s.tasks, s.locations, Gateway.StatusByDate(fetched, date)))
  {
    match s.fetching
    case None => s
    case Some(tok) =>
      s.(tasks := MergeAll(s.tasks, s.locations, Gateway.StatusByDate(fetched, date)),
         token := Some(tok), fetching := None)
  }

  /** The rows phase with the query's failure reported: a failed fetch ends
      the sync without touching the grid or the recorded version, so the next
      tick tries again; rows that do arrive are merged and the version is
      recorded. */
  function RowsArrive(s: SyncState, fetched: Result<seq<SPStatus>>, date: string): (r: SyncState)
    ensures s.fetching.None? ==> r == s
    ensures s.fetching.Some? ==> r.fetching.None? && r.locations == s.locations && r.blocked == s.blocked
    ensures s.fetching.Some? && fetched.Failure? ==> r == s.(fetching := None)
    ensures s.fetching.Some? && fetched.Success? ==> (r.token == s.fetching
      && r.tasks == MergeAll(s.tasks, s.locations, Gateway.StatusByDate(fetched, date)))
  {
    match s.fetching
    case None => s
    case Some(tok) =>
      match Gateway.StatusByDateOrError(fetched, date)
      case Failure(_) => s.(fetching := None)
      case Success(rows) => s.(tasks := MergeAll(s.tasks, s.locations, rows), token := Some(tok), fetching := None)
  }

  /** One event, with the rows query's failure reported (RowsArrive). */
  function Step(s: SyncState, e: Event): SyncState {
    match e
    case InteractionStart => Start(s)
    case InteractionEnd(now) => End(s, now)
    case TimerExpire(now) => Fire(s, now)
    case LocalEdit(taskId, loc, st) => s.(tasks := SetCell(s.tasks, taskId, loc, st))
    case Tick(meta) => TickMeta(s, meta)
    case RowsFetched(fetched, date) => RowsArrive(s, fetched, date)
  }

  function Run(s: SyncState, events: seq<Event>): SyncState
    decreases |events|
  {
    if events == [] then s else Run(Step(s, events[0]), events[1..])
  }

  /** One event as the source handles it: the rows phase reads a failed query
      as "no rows" (RowsArriveAsWritten); every other event is as above. */
  function StepAsWritten(s: SyncState, e: Event): SyncState {
    match e
    case RowsFetched(fetched, date) => RowsArriveAsWritten(s, fetched, date)
    case _ => Step(s, e)
  }

  function RunAsWritten(s: SyncState, events: seq<Event>): SyncState
    decreases |events|
  {
    if events == [] then s else RunAsWritten(StepAsWritten(s, events[0]), events[1..])
  }

  /** What every reachable state keeps: a pending cooldown means the gate is
      closed, and every task has an entry for every location. */
  ghost predicate Inv(s: SyncState) {
    (s.deadline.Some? ==> s.blocked) && GridComplete(s.tasks, s.locations)
  }

  lemma AfterLoadInv(signedIn: bool, spTasks: seq<SPTask>, spOps: seq<SPOperation>, rows: seq<SPStatus>,
                     meta: Result<string>, now: string)
    ensures Inv(AfterLoad(signedIn, InitialLoad(spTasks, spOps, rows, meta, now)))
  {
    if meta.Success? {
      LoadedGridIsComplete(spTasks, spOps, rows, meta, now);
    }
  }

  lemma StepInv(s: SyncState, e: Event)
    requires Inv(s)
    ensures Inv(Step(s, e))
  {
    match e
    case LocalEdit(taskId, loc, st) => SetCellKeepsGridComplete(s.tasks, s.locations, taskId, loc, st);
    case _ =>
  }

  /** Every state reached by any sequence of events keeps the invariant. */
  lemma {:induction false} RunInv(s: SyncState, events: seq<Event>)
    requires Inv(s)
    ensures Inv(Run(s, events))
    decreases |events|
  {
    if events != [] {
      StepInv(s, events[0]);
      RunInv(Step(s, events[0]), events[1..]);
    }
  }

  /** Nothing but the rows phase of a poll changes the recorded version, and
      it records the version that started that poll. */
  lemma TokenChangesOnlyOnMerge(s: SyncState, e: Event)
    ensures Step(s, e).token != s.token ==> e.RowsFetched? && e.fetched.Success? && Step(s, e).token == s.fetching
  {
  }

  /** The source's handling keeps the same invariant: reading a failure as
      "no rows" still gives every task an entry for every location. */
  lemma StepAsWrittenInv(s: SyncState, e: Event)
    requires Inv(s)
    ensures Inv(StepAsWritten(s, e))
  {
    StepInv(s, e);
  }

  lemma {:induction false} RunAsWrittenInv(s: SyncState, events: seq<Event>)
    requires Inv(s)
    ensures Inv(RunAsWritten(s, events))
    decreases |events|
  {
    if events != [] {
      StepAsWrittenInv(s, events[0]);
      RunAsWrittenInv(StepAsWritten(s, events[0]), events[1..]);
    }
  }

  /** As written, the rows phase records the version whether or not the rows
      query succeeded; still no other event changes it. */
  lemma TokenChangesOnlyOnRowsAsWritten(s: SyncState, e: Event)
    ensures StepAsWritten(s, e).token != s.token ==> e.RowsFetched? && StepAsWritten(s, e).token == s.fetching
    ensures e.RowsFetched? && s.fetching.Some? ==> StepAsWritten(s, e).token == s.fetching
  {
  }

  /** With the gate closed no poll starts, whatever the metadata says. */
  lemma ClosedGateSkipsPoll(s: SyncState, meta: Result<string>)
    requires s.blocked
    ensures Step(s, Tick(meta)) == s
  {
  }

  /** An unchanged version never triggers a fetch. */
  lemma SameVersionNoFetch(s: SyncState, tok: string)
    requires s.token == Some(tok)
    ensures Step(s, Tick(Success(tok))).fetching == s.fetching
  {
  }

  /** The gate opens no earlier than the cooldown after the last interaction
      ends, as long as nothing else intervenes. */
  lemma GateHeldForCooldown(s: SyncState, t: int, t2: int)
    requires s.signedIn && t2 < t + Cooldown
    ensures Step(Step(s, InteractionEnd(t)), TimerExpire(t2)).blocked
  {
  }

  /** A cooldown armed before a new interaction starts still fires during it:
      the gate is open again while the user is, say, still dragging. */
  lemma CooldownOpensGateDuringLaterInteraction(s: SyncState, t: int)
    requires s.signedIn
    ensures !Step(Step(Step(s, InteractionEnd(t)), InteractionStart), TimerExpire(t + Cooldown)).blocked
  {
  }

  /** The gate is checked only when a tick starts: a local edit made while the
      rows of an earlier tick are awaited is overwritten by the remote value
      when they arrive. */
  lemma InFlightMergeOverridesEdit(s: SyncState, i: nat, loc: string, st: Status,
                                    rows: seq<SPStatus>, date: string)
    requires s.fetching.Some? && i < |s.tasks| && loc in s.locations
    ensures var edited := Step(Step(s, InteractionStart), LocalEdit(s.tasks[i].id, loc, st));
      && edited.tasks[i].operations[loc] == st
      && var after := Step(edited, RowsFetched(Success(rows), date));
      && i < |after.tasks| && loc in after.tasks[i].operations
      && after.tasks[i].operations[loc] == RemoteValue(Gateway.StatusByDate(Success(rows), date), s.tasks[i].id, loc)
  {
  }

  /** As written, a failed rows query after a version change resets every
      cell of the grid to PR and records the version as seen. */
  lemma FailedFetchWipesGrid(s: SyncState, e: string, date: string)
    requires s.fetching.Some?
    ensures var r := RowsArriveAsWritten(s, Failure(e), date);
      && r.token == s.fetching
      && forall i, l :: 0 <= i < |r.tasks| && l in s.locations ==> r.tasks[i].operations[l] == PR
  {
    var r := RowsArriveAsWritten(s, Failure(e), date);
    forall i, l | 0 <= i < |r.tasks| && l in s.locations ensures r.tasks[i].operations[l] == PR {
      RemoteValueMeaning([], s.tasks[i].id, l);
    }
  }

  /** As written, the wipe then persists: the next tick sees the recorded
      version and does not fetch again. */
  lemma FailedFetchNotRetried(s: SyncState, tok: string, e: string, date: string)
    requires s.fetching == Some(tok)
    ensures Step(RowsArriveAsWritten(s, Failure(e), date), Tick(Success(tok))).fetching.None?
  {
  }

  /** With the failure reported, the grid and recorded version survive a failed
      rows query, and the next open tick with the same version fetches again. */
  lemma FailedFetchRetried(s: SyncState, tok: string, e: string, date: string)
    requires s.fetching == Some(tok) && s.signedIn && !s.blocked && s.token != Some(tok)
    ensures var r := Step(s, RowsFetched(Failure(e), date));
      r.tasks == s.tasks && r.token == s.token && Step(r, Tick(Success(tok))).fetching == Some(tok)
  {
  }

  // ---------------------------------------------------------------------------
  // Partial snapshot
  // ---------------------------------------------------------------------------

  /** What the partial snapshot check needs from the environment: the local
      hour, the current time as an ISO string, the id the history list gives
      a new item, and whether the history read and the save succeed. */
  datatype PartialContext = PartialContext(user: User, hour: int, nowIso: string, itemId: string,
                                           readOk: bool, saveOk: bool)

  predicate InPartialWindow(hour: int) { 10 <= hour < 22 }

  /** `history.some(h => h.isPartial && h.timestamp.startsWith(today))`. */
  predicate HasPartialOn(history: seq<HistoryRecord>, today: string) {
    exists h :: h in history && IsPartial(h) && StartsWith(h.timestamp, today)
  }

  function PartialRecord(ctx: PartialContext, tasks: seq<Task>): HistoryRecord {
    HistoryRecord("partial", ctx.nowIso, tasks, Some(ctx.user.name), Some(ctx.user.email), Some(true))
  }

  function ReadStore(store: seq<Gateway.HistoryItem>, ok: bool): Result<seq<Gateway.HistoryItem>> {
    if ok then Success(store) else Failure("read failed")
  }

  /** checkAndTriggerPartialSave as written: inside the 10h-22h window, read
      the user's history and, unless a partial of today is found and as long
      as there are tasks, save a partial snapshot. A failed history read comes
      back as an empty history, so it does not stop the save; a failed save is
      swallowed. */
  function PartialCheckAsWritten(store: seq<Gateway.HistoryItem>, ctx: PartialContext, tasks: seq<Task>)
    : (r: seq<Gateway.HistoryItem>)
    ensures !InPartialWindow(ctx.hour) || tasks == [] || !ctx.saveOk ==> r == store
    ensures InPartialWindow(ctx.hour) && tasks != [] && ctx.saveOk ==>
      r == store + [Gateway.HistoryFields(PartialRecord(ctx, tasks), ctx.itemId)]
  {
    if !InPartialWindow(ctx.hour) then store
    else
      var history := Gateway.GetHistory(ReadStore(store, ctx.readOk), ctx.user.email);
      var today := Before(ctx.nowIso, 'T');
      if HasPartialOn(history, today) || tasks == [] then store
      else match Gateway.SaveHistory(store, PartialRecord(ctx, tasks), ctx.itemId, ctx.saveOk)
        case Success(s2) => s2
        case Failure(_) => store
  }

  /** The corrected check: the history list stores and reads back the partial
      flag, and a failed history read skips the save instead of passing for an
      empty history. A snapshot is appended exactly when the hour is in the
      window, there are tasks, the read and the save succeed and no partial of
      today is on record. */
  function PartialCheck(store: seq<Gateway.HistoryItem>, ctx: PartialContext, tasks: seq<Task>)
    : (r: seq<Gateway.HistoryItem>)
    ensures r == store || r == store + [Gateway.HistoryFieldsKeepingPartial(PartialRecord(ctx, tasks), ctx.itemId)]
    ensures r != store <==>
      && InPartialWindow(ctx.hour) && tasks != [] && ctx.readOk && ctx.saveOk
      && !HasPartialOn(Gateway.GetHistoryKeepingPartial(Success(store), ctx.user.email), Before(ctx.nowIso, 'T'))
  {
    if !InPartialWindow(ctx.hour) || !ctx.readOk then store
    else
      var history := Gateway.GetHistoryKeepingPartial(ReadStore(store, ctx.readOk), ctx.user.email);
      var today := Before(ctx.nowIso, 'T');
      if HasPartialOn(history, today) || tasks == [] then store
      else if ctx.saveOk then
        assert |store + [Gateway.HistoryFieldsKeepingPartial(PartialRecord(ctx, tasks), ctx.itemId)]| != |store|;
        store + [Gateway.HistoryFieldsKeepingPartial(PartialRecord(ctx, tasks), ctx.itemId)]
      else store
  }

  /** As written, a failed history read does not stop a snapshot: a partial is
      stored even when today's partial may already be on record. */
  lemma FailedReadStillSaves(store: seq<Gateway.HistoryItem>, ctx: PartialContext, tasks: seq<Task>)
    requires InPartialWindow(ctx.hour) && tasks != [] && !ctx.readOk && ctx.saveOk
    ensures |PartialCheckAsWritten(store, ctx, tasks)| == |store| + 1
    ensures PartialCheck(store, ctx, tasks) == store
  {
  }

  /** As written, the "already has a partial today" guard never fires: the
      history read back never carries the flag. */
  lemma PartialGuardNeverFires(fetched: Result<seq<Gateway.HistoryItem>>, email: string, today: string)
    ensures !HasPartialOn(Gateway.GetHistory(fetched, email), today)
  {
  }

  /** As written, a second session on the same day saves a second partial
      snapshot right after the first. */
  lemma TwoPartialsSameDay(store: seq<Gateway.HistoryItem>, ctx1: PartialContext, ctx2: PartialContext, tasks: seq<Task>)
    requires tasks != []
    requires InPartialWindow(ctx1.hour) && ctx1.readOk && ctx1.saveOk
    requires InPartialWindow(ctx2.hour) && ctx2.readOk && ctx2.saveOk
    ensures |PartialCheckAsWritten(PartialCheckAsWritten(store, ctx1, tasks), ctx2, tasks)| == |store| + 2
  {
    var once := PartialCheckAsWritten(store, ctx1, tasks);
    PartialGuardNeverFires(Success(store), ctx1.user.email, Before(ctx1.nowIso, 'T'));
    PartialGuardNeverFires(Success(once), ctx2.user.email, Before(ctx2.nowIso, 'T'));
  }

  /** With the flag kept, a partial saved by a user today stops every later
      check of the same user on the same day: at most one partial per user and day. */
  lemma AtMostOnePartialPerDay(store: seq<Gateway.HistoryItem>, ctx1: PartialContext, ctx2: PartialContext, tasks: seq<Task>, tasks2: seq<Task>)
    requires ctx1.user.email == ctx2.user.email
    requires Before(ctx1.nowIso, 'T') == Before(ctx2.nowIso, 'T')
    requires PartialCheck(store, ctx1, tasks) != store
    ensures var once := PartialCheck(store, ctx1, tasks);
      PartialCheck(once, ctx2, tasks2) == once
  {
    var once := PartialCheck(store, ctx1, tasks);
    var item := Gateway.HistoryFieldsKeepingPartial(PartialRecord(ctx1, tasks), ctx1.itemId);
    assert once == store + [item];
    if InPartialWindow(ctx2.hour) && ctx2.readOk {
      var history := Gateway.GetHistoryKeepingPartial(ReadStore(once, ctx2.readOk), ctx2.user.email);
      assert item in once;
      var h := Gateway.RecordKeepingPartial(item);
      assert h in history;
      assert StartsWith(h.timestamp, Before(ctx2.nowIso, 'T'));
    }
  }

  /** The partial check runs at most once per session: only the first load
      that completes triggers it, and it runs the check as written, so a
      failed history read or a partial already stored today does not stop
      the snapshot. */
  function LoadPartialCheck(attempted: bool, load: Option<Loaded>, store: seq<Gateway.HistoryItem>,
                            ctx: PartialContext): (r: (bool, seq<Gateway.HistoryItem>))
    ensures attempted || load.None? ==> r == (attempted, store)
    ensures !attempted && load.Some? ==> r.0
    ensures !attempted && load.Some? ==>
      (r.1 != store <==> InPartialWindow(ctx.hour) && load.value.tasks != [] && ctx.saveOk)
    ensures r.1 == store || r.1 == store + [Gateway.HistoryFields(PartialRecord(ctx, load.value.tasks), ctx.itemId)]
  {
    if attempted || load.None? then (attempted, store)
    else (true, PartialCheckAsWritten(store, ctx, load.value.tasks))
  }

  /** The same session logic over the corrected check. */
  function LoadPartialCheckCorrected(attempted: bool, load: Option<Loaded>, store: seq<Gateway.HistoryItem>,
                                     ctx: PartialContext): (r: (bool, seq<Gateway.HistoryItem>))
    ensures attempted || load.None? ==> r == (attempted, store)
    ensures !attempted && load.Some? ==> r.0
    ensures !attempted && load.Some? ==>
      (r.1 != store <==>
        && InPartialWindow(ctx.hour) && load.value.tasks != [] && ctx.readOk && ctx.saveOk
        && !HasPartialOn(Gateway.GetHistoryKeepingPartial(Success(store), ctx.user.email), Before(ctx.nowIso, 'T')))
    ensures r.1 == store || r.1 == store + [Gateway.HistoryFieldsKeepingPartial(PartialRecord(ctx, load.value.tasks), ctx.itemId)]
  {
    if attempted || load.None? then (attempted, store)
    else (true, PartialCheck(store, ctx, load.value.tasks))
  }

  /** A second load in the same session never saves a snapshot, as written
      and corrected alike. */
  lemma SecondLoadSavesNothing(attempted: bool, load1: Option<Loaded>, load2: Option<Loaded>,
                               store: seq<Gateway.HistoryItem>, ctx1: PartialContext, ctx2: PartialContext)
    requires load1.Some?
    ensures var first := LoadPartialCheck(attempted, load1, store, ctx1);
      LoadPartialCheck(first.0, load2, first.1, ctx2) == first
    ensures var first := LoadPartialCheckCorrected(attempted, load1, store, ctx1);
      LoadPartialCheckCorrected(first.0, load2, first.1, ctx2) == first
  {
  }
}
