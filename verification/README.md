# teste-cco checklist core in Dafny

This project models the core of *teste-cco*, a React + TypeScript operations
checklist. The app shows a grid of daily tasks (rows) by operation sites
(columns). Each cell holds one of six statuses: OK, EA, AR, ATT, AT or PR.
The grid is stored in three SharePoint lists: tasks, operations and
per-day status rows. The app shell polls the status list's
last-modified stamp every six seconds. When the stamp changes, it merges
the day's rows into the grid. That background sync is held closed while the
user edits a cell and for an 8-second cooldown afterwards. The checklist
component writes cells through to the list by upsert, keyed by
`yyyymmdd_taskId_location`. It also paints whole rows, resets the day after
storing a history snapshot, and groups tasks by category with automatic
collapsing of complete categories. A partial (shift-change) snapshot is stored
once per day between 10h and 22h. Smaller pieces are also modelled: the
history viewer's selection logic, per-user localStorage, the dashboard
statistics, the route-departure sheet, the customer list and the
fuel-request form.

Modules, one per part of the program:

- `Common`: Option/Result, ASCII string helpers (`toLowerCase`, `trim`,
  `split`, `replace`), filtering, lexicographic order, sorting and
  `Math.round` of a percentage.
- `Types`: the records of `types.ts`.
- `Gateway`: the pure logic of `services/sharepointService.ts`.
- `Grid`: the grid build and the poll merge of `App.tsx`.
- `Sync`: the poll and gate state machine of `App.tsx`, plus the partial
  snapshot check.
- `Commands`: the write commands of `components/TaskManager.tsx`.
- `Categories`: category grouping, statistics and collapsing in
  `components/TaskManager.tsx`.
- `HistoryView`: `components/HistoryViewer.tsx`.
- `Storage`: `services/storageService.ts`.
- `Dashboard`: `components/Dashboard.tsx`.
- `Routes`: `components/RouteDeparture.tsx`.
- `Customers`: `components/CustomerList.tsx`.
- `SendTL`: `components/SendTL.tsx`.

Remote calls, clocks and random ids are parameters. A remote call is a
`Result` (what the list returned, or that the call threw). The current time,
the hour, the new record's id and today's date string are given values.
The browser's localStorage is a `map` from key to stored value.

## Model

| member | source | states |
|---|---|---|
| Types.StatusesAreSix | teste-cco/types.ts:2 | There are exactly six distinct statuses, and every status is among them. |
| Types.StatusOr | teste-cco/components/TaskManager.tsx:225 | `operations[loc] \|\| 'PR'`: a location missing from the map reads as PR, a present one as its entry. |
| Types.CategoryOf | teste-cco/components/TaskManager.tsx:245 | `category \|\| 'Geral'`: never empty, and equal to the task's own category whenever that is non-empty. |
| Types.AllLocations | teste-cco/components/Dashboard.tsx:34 | The union of the operation keys of all tasks: a location is in it iff some task has an entry for it. |
| Common.ToLower | teste-cco/services/sharepointService.ts:58 | Same length as the input; each character is lower-cased pointwise (ASCII only). |
| Common.TrimEmptyIffBlank | teste-cco/components/RouteDeparture.tsx:97 | `text.trim()` is empty exactly when the text is made only of white space. |
| Common.ReplaceFirst | teste-cco/components/Dashboard.tsx:50 | A string-pattern `replace` with no occurrence gives the string back. Otherwise the first occurrence, and only that one, is replaced. |
| Common.IndexOf | teste-cco/components/Dashboard.tsx:50 | None exactly when the pattern does not occur. Otherwise the first position where it occurs. |
| Common.Before | teste-cco/components/HistoryViewer.tsx:84 | `split(sep)[0]`: a prefix of the string that holds no separator and that stops at the first separator. |
| Common.FindIndex | teste-cco/components/HistoryViewer.tsx:39 | `Array.find`: None iff no element satisfies the predicate; otherwise the first index that does. |
| Common.Filter | teste-cco/components/HistoryViewer.tsx:92 | `Array.filter`: an element is kept iff it satisfies the predicate, and nothing longer than the input comes out. |
| Common.FilterCount | teste-cco/components/HistoryViewer.tsx:92 | A kept element appears as often as in the input, and a dropped one not at all. |
| Common.FilterAppend | teste-cco/components/HistoryViewer.tsx:92 | Filtering a concatenation is filtering each part and concatenating, so what is kept from a prefix comes first. |
| Common.FilterIsSubsequence | teste-cco/components/HistoryViewer.tsx:92 | What is kept is a subsequence of the input: the kept elements stay in their original order. |
| Common.RoundPercentIsNearest | teste-cco/components/TaskManager.tsx:73 | `Math.round(ok/total*100)` is the integer nearest to 100·ok/total, with halves rounded up. |
| Common.RoundPercentBounds | teste-cco/components/Dashboard.tsx:62 | A rounded share of at most the whole is at most 100, and the whole gives exactly 100. |
| Common.Enumerate | teste-cco/components/Dashboard.tsx:34 | `Array.from(new Set(...))`: a duplicate-free listing of exactly the set's members. |
| Common.SortBy | teste-cco/components/Dashboard.tsx:59 | `Array.sort` with a comparator that is a total preorder yields a permutation of the input that is sorted by it. |
| Common.InsertBeforeTies | teste-cco/components/Dashboard.tsx:59 | Inserting into a sorted list puts the new element ahead of every element the comparator ranks alike. |
| Common.SortByIsStable | teste-cco/components/Dashboard.tsx:59 | The sort is stable, as ES2019 requires: elements the comparator ranks alike keep their original relative order. |
| Gateway.NormalizeString | teste-cco/services/sharepointService.ts:57-64 | The result holds only `[a-z0-9]` and is no longer than the input. |
| Gateway.FoldAccent | teste-cco/services/sharepointService.ts:60-61 | NFD followed by deleting the combining marks: ASCII is unchanged, and a changed character becomes a lower-case ASCII letter. |
| Gateway.NormalizePointwise | teste-cco/services/sharepointService.ts:57-64 | Two names whose characters lower-case and fold to the same letters, position by position, normalise alike. |
| Gateway.AccentsFold | teste-cco/services/sharepointService.ts:57-64 | Accents make no difference: "Data Referência" and "data referencia" normalise alike. |
| Gateway.NormalizeKeepsNormal | teste-cco/services/sharepointService.ts:57-64 | A name already in normal form is left unchanged. |
| Gateway.NormalizeIdempotent | teste-cco/services/sharepointService.ts:57-64 | Normalising twice equals normalising once. |
| Gateway.NormalizeIgnoresCase | teste-cco/services/sharepointService.ts:57-64 | Upper- and lower-case spellings normalise alike. |
| Gateway.ColumnMapping | teste-cco/services/sharepointService.ts:66-80 | Every column's normalised name and normalised display name become keys of the mapping. |
| Gateway.MappingLastWins | teste-cco/services/sharepointService.ts:73-76 | A key maps to the internal name of the last column that mentions it, because later columns overwrite earlier ones. |
| Gateway.ResolveFieldName | teste-cco/services/sharepointService.ts:82-86 | The mapped internal name when the normalised target is mapped to a non-empty name; otherwise the target unchanged. |
| Gateway.ResolveByDisplayName | teste-cco/services/sharepointService.ts:66-86 | A target spelled like a column's display name, in any case and with or without accents, resolves to that column's internal name when no later column claims the same key. |
| Gateway.FirstNamed | teste-cco/services/sharepointService.ts:43-55 | The first list whose name or display name equals the requested name, ignoring case, or None when no list matches. |
| Gateway.FindList | teste-cco/services/sharepointService.ts:43-55 | The direct lookup wins. Otherwise a list from the listing with a matching name is returned. It fails exactly when the listing fails or no list matches. |
| Gateway.TextOr | teste-cco/services/sharepointService.ts:95-103 | `field \|\| default`: the text when it is present and non-empty, the default otherwise. |
| Gateway.NumberOf | teste-cco/services/sharepointService.ts:100 | `Number(x)` on list values: absent is NaN, a number is itself, and a boolean is 1 or 0. |
| Gateway.NumberOr | teste-cco/services/sharepointService.ts:100 | `Number(x) \|\| default`: NaN and zero both give the default. |
| Gateway.TaskFromItem | teste-cco/services/sharepointService.ts:95-103 | Each field is the item's value or its default: "Sem Título" for the title, "" for the description, "Geral" for the category, "--:--" for the time and 999 for the order. The row is active unless its Ativa field is literally false. |
| Gateway.TaskRows | teste-cco/services/sharepointService.ts:95-102 | One row per item, in item order, each that item's row. |
| Gateway.GetTasks | teste-cco/services/sharepointService.ts:89-105 | The rows are a permutation of the items' rows, so each item gives exactly one row and nothing else appears. They are sorted by ascending order. A failed call gives []. |
| Gateway.GetTasksIsStable | teste-cco/services/sharepointService.ts:103 | Rows with the same order number keep the order of their items. |
| Gateway.OperationFromItem | teste-cco/services/sharepointService.ts:116-121 | Each field is the item's value or its default: "OP" for the title, 0 for the order and "" for the e-mail. |
| Gateway.OperationRows | teste-cco/services/sharepointService.ts:116-121 | One row per item, in item order, each that item's row. |
| Gateway.GetOperations | teste-cco/services/sharepointService.ts:107-123 | The rows are a permutation of the rows of exactly the user's items, the e-mail matched ignoring case and surrounding space; every row comes from such an item. The rows are sorted by order. A failed call gives []. |
| Gateway.GetOperationsIsStable | teste-cco/services/sharepointService.ts:121 | Operations with the same order number keep the order of their items. |
| Gateway.StatusByDate | teste-cco/services/sharepointService.ts:125-141 | As written: the rows of the date and no others, and a failed call reads as no rows. |
| Gateway.StatusByDateOrError | teste-cco/services/sharepointService.ts:125-141 | The corrected query fails exactly when the call fails, and otherwise gives the same rows. |
| Gateway.FirstTitled | teste-cco/services/sharepointService.ts:155-160 | The first row with the Title, or None when no row has it. |
| Gateway.Upsert | teste-cco/services/sharepointService.ts:143-175 | Succeeds iff a write succeeds. On the clean path the first row with the Title is replaced by the new row, keeping its id, and when there is none the row is appended. After a failed lookup or PATCH the row is appended without looking. On failure nothing changes. |
| Gateway.UpsertKeepsTitlesUnique | teste-cco/services/sharepointService.ts:155-174 | On the clean path the list keeps at most one row per Title. |
| Gateway.FallbackDuplicatesTitle | teste-cco/services/sharepointService.ts:168-174 | A failed PATCH followed by the error handler's POST leaves two rows with the same Title. |
| Gateway.HistoryFields | teste-cco/services/sharepointService.ts:183-188 | As written, a stored history item carries the responsible, timestamp, tasks and e-mail, and never the partial flag. |
| Gateway.RecordOf | teste-cco/services/sharepointService.ts:207-212 | As written, a record read back is never partial. |
| Gateway.HistoryRoundTrip | teste-cco/services/sharepointService.ts:183-212 | As written, save then read gives the record back with its new id and with the partial flag lost. |
| Gateway.SaveHistory | teste-cco/services/sharepointService.ts:177-198 | Appends exactly the mapped item when the call succeeds, and otherwise fails. |
| Gateway.GetHistory | teste-cco/services/sharepointService.ts:200-215 | As written: one record per item of the user's cell and nothing else, none of them partial, and a failed call gives []. |
| Gateway.HistoryFieldsKeepingPartial | teste-cco/services/sharepointService.ts:183-188 | The corrected mapping stores the partial flag. |
| Gateway.RecordKeepingPartial | teste-cco/services/sharepointService.ts:207-212 | The corrected mapping reads the partial flag back. |
| Gateway.CorrectedHistoryRoundTrip | teste-cco/services/sharepointService.ts:183-212 | With the flag stored, save then read gives the whole record back except its id. |
| Gateway.GetHistoryKeepingPartial | teste-cco/services/sharepointService.ts:200-215 | Corrected: one record per item of the user's cell, with its flag, and nothing else; [] on failure. |
| Grid.FindRow | teste-cco/App.tsx:57 | `spStatus.find` for the cell: the first row matching task id and location, or None when no row matches. |
| Grid.RemoteValueMeaning | teste-cco/App.tsx:57-58 | A cell's remote value is PR when no row matches it, and otherwise the status of the first matching row. |
| Grid.BuildOps | teste-cco/App.tsx:55-59 | At login a task's operations have exactly the session's locations as keys, each holding its remote value. |
| Grid.LocationsOf | teste-cco/App.tsx:51 | The locations are the operation titles, in list order. |
| Grid.Matrix | teste-cco/App.tsx:54-72 | Every task row becomes one grid task, in order. |
| Grid.ActiveOnly | teste-cco/App.tsx:74 | `filter(t => t.active !== false)`: exactly the active tasks, in their order and as often as they occur. |
| Grid.InitialLoad | teste-cco/App.tsx:38-85 | The load fails iff the metadata call fails. On success the version token is recorded, the locations are the operation titles, and the grid is the active task rows, in list order, each with only remote values. |
| Grid.LoadedGridIsComplete | teste-cco/App.tsx:54-74 | After the load every task has an entry for exactly the session's locations, each equal to the cell's remote value. |
| Grid.MergeOps | teste-cco/App.tsx:99-108 | Every listed location takes its remote value. Unlisted keys keep their entries. No key is dropped. |
| Grid.MergeUnchangedIsIdentity | teste-cco/App.tsx:104-109 | When no location differs, the merge gives back the very same map, so the task object is kept. |
| Grid.MergeTask | teste-cco/App.tsx:98-110 | A merge changes only a task's operations: listed locations take remote values, other keys keep theirs, and an unchanged task is returned as is. |
| Grid.MergeAll | teste-cco/App.tsx:98-110 | A poll merge keeps the task count, merges each task, and leaves every task with an entry for every location. |
| Grid.MergeIdempotent | teste-cco/App.tsx:98-110 | Merging the same rows twice equals merging them once. |
| Grid.SetCell | teste-cco/components/TaskManager.tsx:143 | The optimistic update sets the cell of every task with the id. All other cells and fields are unchanged. |
| Grid.SetCellKeepsGridComplete | teste-cco/components/TaskManager.tsx:143 | A local edit keeps every task's entries for every location. |
| Sync.AfterLoad | teste-cco/App.tsx:38-85 | After login the gate is open, with no cooldown and no fetch in flight. The grid and token are the load's, or empty when the load failed. |
| Sync.Start | teste-cco/App.tsx:216 | `onInteractionStart` closes the gate and touches nothing else. |
| Sync.End | teste-cco/App.tsx:121-131 | Without a session nothing happens. Otherwise the gate stays closed and the cooldown is re-armed to now + 8000 ms, replacing any earlier timer. |
| Sync.Fire | teste-cco/App.tsx:126-130 | A due cooldown opens the gate and clears the timer; before its deadline nothing changes. |
| Sync.TickMeta | teste-cco/App.tsx:90-95 | A tick is skipped while the gate is closed, a sync runs, the metadata call fails or the version is unchanged. Otherwise a fetch starts for the new version. |
| Sync.RowsArriveAsWritten | teste-cco/App.tsx:96-112 | As written: the grid is merged with the rows the query reports (none on failure), and the new version is recorded. |
| Sync.RowsArrive | teste-cco/App.tsx:96-116 | Corrected: a failed fetch only ends the sync, keeping grid and version; a successful one merges and records the version. |
| Sync.AfterLoadInv | teste-cco/App.tsx:38-85 | The state after login satisfies the sync invariant. |
| Sync.StepInv | teste-cco/App.tsx:87-131 | Corrected step: every event preserves the invariant that a pending cooldown implies a closed gate and that the grid covers the locations. |
| Sync.RunInv | teste-cco/App.tsx:87-131 | Corrected step: every state reached by any sequence of events keeps the invariant. |
| Sync.TokenChangesOnlyOnMerge | teste-cco/App.tsx:111 | Corrected step: the recorded version changes only when a fetch's rows arrive successfully, and then it becomes the fetched version. |
| Sync.StepAsWrittenInv | teste-cco/App.tsx:87-131 | As written: every event, including a rows query read as "no rows", preserves the same invariant. |
| Sync.RunAsWrittenInv | teste-cco/App.tsx:87-131 | As written: every state reached by any sequence of events keeps the invariant. |
| Sync.TokenChangesOnlyOnRowsAsWritten | teste-cco/App.tsx:96-112 | As written: only the rows phase changes the recorded version, and it records the fetched version whether or not the query succeeded. |
| Sync.ClosedGateSkipsPoll | teste-cco/App.tsx:91 | With the gate closed a tick changes nothing, whatever the metadata says. |
| Sync.SameVersionNoFetch | teste-cco/App.tsx:94 | An unchanged version never starts a fetch. |
| Sync.GateHeldForCooldown | teste-cco/App.tsx:121-131 | After an interaction ends, the gate stays closed until the 8000 ms cooldown has elapsed. |
| Sync.CooldownOpensGateDuringLaterInteraction | teste-cco/App.tsx:126-130 | A cooldown armed before a new interaction starts still fires during that interaction and opens the gate. |
| Sync.InFlightMergeOverridesEdit | teste-cco/App.tsx:91-110 | The gate is checked only when a tick starts, so rows arriving after a local edit overwrite the edited cell with its remote value. |
| Sync.FailedFetchWipesGrid | teste-cco/App.tsx:97-111 | As written, a failed rows query after a version change resets every cell to PR and records the new version. |
| Sync.FailedFetchNotRetried | teste-cco/App.tsx:94 | As written, the next tick sees the recorded version and never fetches again. |
| Sync.FailedFetchRetried | teste-cco/App.tsx:94-116 | Corrected: after a failed fetch the grid and version survive, and the next tick fetches again. |
| Sync.PartialCheckAsWritten | teste-cco/App.tsx:133-148 | As written: outside 10h-22h, with no tasks, or when the save fails, nothing is stored. Otherwise exactly one snapshot is appended, even when the history read failed. |
| Sync.PartialCheck | teste-cco/App.tsx:133-148 | Corrected: at most one snapshot is appended, and one is appended exactly when the hour is in the window, there are tasks, the history read and the save succeed, and no partial of today is on record. |
| Sync.FailedReadStillSaves | teste-cco/App.tsx:136-145 | As written, a failed history read still stores a snapshot; the corrected check stores nothing. |
| Sync.PartialGuardNeverFires | teste-cco/App.tsx:140 | As written, the "already has a partial today" test is false for whatever the history list holds. |
| Sync.TwoPartialsSameDay | teste-cco/App.tsx:136-145 | As written, two sessions in the window on one day store two partial snapshots. |
| Sync.AtMostOnePartialPerDay | teste-cco/App.tsx:140-145 | Corrected: once a user's partial for today is stored, a later check on the same day stores nothing. |
| Sync.LoadPartialCheck | teste-cco/App.tsx:76-79 | As written: only the first successful load of a session runs the partial check and marks the attempt; it stores one snapshot exactly when the hour is in the window, there are tasks and the save succeeds, whatever the history read returned. |
| Sync.LoadPartialCheckCorrected | teste-cco/App.tsx:76-79 | Corrected: the same once-per-session gate over the corrected check, which also needs a successful history read and no partial of today on record. |
| Sync.SecondLoadSavesNothing | teste-cco/App.tsx:76-79 | A second load in the same session never stores a snapshot, as written and corrected. |
| Commands.Next | teste-cco/components/TaskManager.tsx:13-20 | A click's next status always differs from the current one. |
| Commands.CycleOfSix | teste-cco/components/TaskManager.tsx:13-20 | The `next` column is one cycle of length six: six clicks come back, fewer never do, and every status is met. |
| Commands.NextIsPermutation | teste-cco/components/TaskManager.tsx:13-20 | `next` has an inverse, so no two statuses share a successor. |
| Commands.FindTask | teste-cco/components/TaskManager.tsx:223 | `tasks.find`: the first task with the id, or None when no task has it. |
| Commands.Resolve | teste-cco/components/TaskManager.tsx:226 | A forced status wins. Otherwise the brush wins. Otherwise it is the cycle's next status, which differs from the current one. |
| Commands.CellInteraction | teste-cco/components/TaskManager.tsx:222-230 | A write happens iff the task exists and the resolved status differs from the cell's current one. |
| Commands.PlainClickAlwaysWrites | teste-cco/components/TaskManager.tsx:226-228 | Without brush or forcing, a click on a known task always writes. |
| Commands.SameBrushWritesNothing | teste-cco/components/TaskManager.tsx:227 | A brush over a cell already holding the brush's status writes nothing. |
| Commands.UniqueKeyInjective | teste-cco/components/TaskManager.tsx:147-149 | With underscore-free task ids, the key determines the day, the task id and the location. |
| Commands.UniqueKeyNeedsPlainIds | teste-cco/components/TaskManager.tsx:149 | On any day, an underscore in a task id lets two different cells share a key. |
| Commands.StatusRow | teste-cco/components/TaskManager.tsx:151-153 | The written row belongs to its cell and day, carries the status, and is titled with the cell's key. |
| Commands.CleanUpsertReadsBack | teste-cco/components/TaskManager.tsx:147-153 | On the clean path a write keeps a list of rows of any days well-keyed (each row titled by its own day, task and location), and the written day's rows then read back the written status for the cell. |
| Commands.FallbackWriteIsShadowed | teste-cco/services/sharepointService.ts:168-174 | A write that lands through the error handler's append is hidden behind the older row, so the cell still reads the old status. |
| Commands.UpdateStatus | teste-cco/components/TaskManager.tsx:137-161 | Without a token nothing happens. The write is saved iff the upsert succeeds, and then the grid holds the optimistic update. On failure grid and rows roll back. |
| Commands.SavedWriteSurvivesPoll | teste-cco/components/TaskManager.tsx:137-161 | After a saved single-cell write into a well-keyed list that may hold earlier days, the next poll merge of the day keeps the written status in the cell. |
| Commands.WriteAll | teste-cco/components/TaskManager.tsx:174-179 | `Promise.all` succeeds iff every write succeeds; writes are never undone; no writes leave the rows as they were. |
| Commands.PaintWrites | teste-cco/components/TaskManager.tsx:174-178 | One write per location, each the row of that location with the brush status. |
| Commands.PaintTasks | teste-cco/components/TaskManager.tsx:168 | Every task with the id gets exactly the locations, all with the brush status. Every other task is unchanged. |
| Commands.PaintRow | teste-cco/components/TaskManager.tsx:163-187 | Nothing happens without a brush or a token. It is saved iff every write succeeds, and then the row is painted. Otherwise the grid rolls back. |
| Commands.ResetWritesExactlyTheGrid | teste-cco/components/TaskManager.tsx:199-207 | The reset writes a PR row for every (task, location) of the grid, signed by the responsible person, and writes nothing else. |
| Commands.ClearTasks | teste-cco/components/TaskManager.tsx:209 | Each task keeps its fields, and its operations become PR over exactly the locations. |
| Commands.ResetChecklist | teste-cco/components/TaskManager.tsx:189-220 | Nothing happens with a blank responsible name or without a token. A failed history save writes no cell. The reset is saved iff the history and every cell write succeed, and only then is the grid cleared. |
| Commands.HistoryBeforeCellWrites | teste-cco/components/TaskManager.tsx:194-208 | When the history snapshot cannot be stored, no cell row is written. |
| Commands.SavedResetClearsGrid | teste-cco/components/TaskManager.tsx:189-220 | After a saved reset every cell reads PR and the history gained the snapshot. |
| Commands.DragStep | teste-cco/components/TaskManager.tsx:403-412 | The painted set only grows, except on mouse-up during a drag, which empties it. Every touched cell is recorded. Entering an unpainted cell touches it with the brush. |
| Commands.DragTouchesEachCellOnce | teste-cco/components/TaskManager.tsx:403-412 | During one drag every cell is touched at most once, however often the mouse re-enters it. |
| Categories.InCategory | teste-cco/components/TaskManager.tsx:64 | Exactly the tasks of the category, and no more than all tasks. |
| Categories.GroupByCategory | teste-cco/components/TaskManager.tsx:244-249 | The groups are keyed by exactly the tasks' categories, and each group is that category's tasks in order. |
| Categories.InCategoryCount | teste-cco/components/TaskManager.tsx:244-249 | A task occurs in its category's group as often as in the grid, and in no other group. |
| Categories.GroupingPartitions | teste-cco/components/TaskManager.tsx:244-249 | The groups partition the tasks: every task is in the group of its category and in none other. |
| Categories.DistinctCategories | teste-cco/components/TaskManager.tsx:78 | The distinct categories of the tasks, each listed once. |
| Categories.OkCellsFull | teste-cco/components/TaskManager.tsx:66-72 | The OK count equals the cell count exactly when every cell of the category is OK. |
| Categories.CategoryStatsAsWritten | teste-cco/components/TaskManager.tsx:63-75 | As written: an empty category gives (0, false); the percentage is the rounded OK share, at most 100; complete means the rounded percentage is 100. |
| Categories.OneShortRoundsToFull | teste-cco/components/TaskManager.tsx:73 | With 200 cells or more, one cell short of all OK still rounds to 100 %. |
| Categories.NearlyCompleteReadsAsComplete | teste-cco/components/TaskManager.tsx:73-74 | As written, a category one cell short of all OK, with at least 200 cells, is reported complete. |
| Categories.CategoryStats | teste-cco/components/TaskManager.tsx:63-75 | Corrected: the same percentage, and complete exactly when the category and locations are non-empty and every cell is OK. |
| Categories.CompleteImpliesRoundedComplete | teste-cco/components/TaskManager.tsx:73-74 | The corrected completion implies the as-written one, so the correction only withholds wrongly reported completions. |
| Categories.Toggle | teste-cco/components/TaskManager.tsx:232-242 | A collapsed category is expanded, and remembered as manually opened when complete. An expanded one collapses only when complete, and is then no longer remembered as opened. |
| Categories.ToggleCategoryAsWritten | teste-cco/components/TaskManager.tsx:232-242 | As written: an expanded category collapses exactly when it has tasks and its OK share rounds to 100 %. |
| Categories.ToggleCategory | teste-cco/components/TaskManager.tsx:232-242 | Corrected: an expanded category collapses exactly when it has tasks and every one of its cells is OK. |
| Categories.NearlyCompleteCollapsesByHand | teste-cco/components/TaskManager.tsx:73-74 | As written, a category with 199 of 200 cells OK collapses by hand; the corrected toggle refuses. |
| Categories.AutoStep | teste-cco/components/TaskManager.tsx:80-87 | One category's step never expands anything and collapses only a complete category. An eligible one ends collapsed. An incomplete one is forgotten. Other categories' memories are unchanged. |
| Categories.AutoCollapseOver | teste-cco/components/TaskManager.tsx:79-88 | Over any list of categories the effect never expands anything and only collapses complete categories. |
| Categories.AutoLeavesOthers | teste-cco/components/TaskManager.tsx:79-88 | Categories not visited keep their collapse state and memories. |
| Categories.AutoForgetsIncomplete | teste-cco/components/TaskManager.tsx:84-87 | Every incomplete category visited is removed from both the auto-collapsed and the manually-opened sets. |
| Categories.AutoCollapsesEligible | teste-cco/components/TaskManager.tsx:81-83 | A complete category that was neither auto-collapsed nor manually opened ends collapsed. |
| Categories.AutoCollapseWith | teste-cco/components/TaskManager.tsx:77-89 | On a grid change nothing is expanded, only complete categories are collapsed, every eligible category ends collapsed, and incomplete ones are forgotten. |
| Categories.AutoCollapseAsWritten | teste-cco/components/TaskManager.tsx:77-89 | As written: nothing is expanded, only categories whose OK share rounds to 100 % are added, and every such category not remembered ends collapsed. |
| Categories.AutoCollapse | teste-cco/components/TaskManager.tsx:77-89 | Corrected: nothing is expanded, only fully OK categories are added, every eligible one ends collapsed, and incomplete ones are forgotten. |
| Categories.NearlyCompleteAutoCollapses | teste-cco/components/TaskManager.tsx:73-88 | As written, a category with 199 of 200 cells OK collapses on its own; the corrected effect leaves it open. |
| HistoryView.DefaultSelection | teste-cco/components/HistoryViewer.tsx:39-40 | None iff the history is empty. Otherwise the first reset, or, when there is no reset, the first record. |
| HistoryView.FindPartialForRecord | teste-cco/components/HistoryViewer.tsx:82-86 | A partial record gets none. A reset gets the first partial of the history that is from its own day, as `find` returns it, or none only when no such partial exists. |
| HistoryView.SidebarItems | teste-cco/components/HistoryViewer.tsx:89-93 | Every reset is listed. A partial is listed iff no reset shares its day. The listing is a subsequence of the history, so it keeps the history's order. |
| HistoryView.BackToReset | teste-cco/components/HistoryViewer.tsx:217-219 | From a partial, the view moves to the first reset of the same day in the history when one exists, and stays on the partial otherwise. |
| HistoryView.HiddenPartialHasReset | teste-cco/components/HistoryViewer.tsx:89-93 | A partial hidden from the sidebar can always be reached back from a reset of its day. |
| HistoryView.IsoDatePart | teste-cco/components/HistoryViewer.tsx:84 | For ISO timestamps, `split('T')[0]` is the ten-character date. |
| HistoryView.ShowPartialThenBack | teste-cco/components/HistoryViewer.tsx:160-162 | Showing a reset's partial and pressing "back" lands on a reset of the same day. |
| HistoryView.ToggleCategory | teste-cco/components/HistoryViewer.tsx:60-66 | Toggling flips the category's membership and leaves every other category as it was. |
| HistoryView.ToggleTwice | teste-cco/components/HistoryViewer.tsx:60-66 | Toggling twice restores the set of collapsed categories. |
| Storage.SetCurrentUser | teste-cco/services/storageService.ts:17-23 | A non-empty e-mail becomes the session user and an empty one signs out. No other key is touched. |
| Storage.Sanitize | teste-cco/services/storageService.ts:31 | Each character is kept when it is an ASCII letter or digit and becomes `_` otherwise, so the result is made only of those. |
| Storage.SanitizeMergesPunctuation | teste-cco/services/storageService.ts:31 | Two different e-mails can share a storage prefix. |
| Storage.GetKey | teste-cco/services/storageService.ts:26-33 | A guest key without a user; otherwise the sanitised e-mail, `_` and the base key. |
| Storage.KeysDisjoint | teste-cco/services/storageService.ts:5-10 | A data key never collides with the session key, and different base keys give different keys. |
| Storage.GetLocations | teste-cco/services/storageService.ts:35-50 | Stored locations are returned as is. Otherwise the user's default list is stored and returned, and the session user is unchanged. |
| Storage.GetLocationsSettles | teste-cco/services/storageService.ts:35-50 | A second read returns what the first stored and changes nothing. |
| Storage.SaveThenGetLocations | teste-cco/services/storageService.ts:35-54 | Reading after saving gives the saved locations. |
| Storage.InitOps | teste-cco/services/storageService.ts:56-60 | Exactly the locations as keys, all with the given status. |
| Storage.InitialTasks | teste-cco/services/storageService.ts:62-166 | The ten seed tasks in order, with their ids and categories, each with every location pending. |
| Storage.SeedsWellFormed | teste-cco/services/storageService.ts:62-166 | Ten seeds with distinct ids and non-empty categories. |
| Storage.GetTasks | teste-cco/services/storageService.ts:168-176 | Stored tasks are returned as is; otherwise the seed tasks are stored and returned. |
| Storage.SaveThenGetTasks | teste-cco/services/storageService.ts:168-180 | Reading after saving gives the saved tasks and stores nothing more. |
| Storage.SeededTasksCoverLocations | teste-cco/services/storageService.ts:62-176 | A first read seeds every task with exactly the user's locations, all PR. |
| Storage.GetCustomers | teste-cco/services/storageService.ts:182-186 | Under the user's customers key: the stored list when one is there, and [] when nothing (or something of another kind) is stored. |
| Storage.SaveThenGetCustomers | teste-cco/services/storageService.ts:182-190 | Reading after saving gives the saved customers. |
| Storage.GetHistory | teste-cco/services/storageService.ts:192-196 | Under the user's history key: the stored records when they are there, and [] when nothing (or something of another kind) is stored. |
| Storage.SaveThenGetHistory | teste-cco/services/storageService.ts:192-200 | Reading after saving gives the saved history. |
| Storage.AddToHistory | teste-cco/services/storageService.ts:202-212 | The new record is put first, ahead of the old history, with `resetBy` defaulting to "Desconhecido". The session user is unchanged. |
| Storage.GetDepartures | teste-cco/services/storageService.ts:214-218 | Under the user's departures key: the stored departures when they are there, and [] when nothing (or something of another kind) is stored. |
| Storage.SaveThenGetDepartures | teste-cco/services/storageService.ts:214-222 | Reading after saving gives the saved departures. |
| Storage.SavesAreIndependent | teste-cco/services/storageService.ts:178-222 | Saving one list leaves the other lists' reads unchanged. |
| Dashboard.Tally | teste-cco/components/Dashboard.tsx:19-25 | OK and pending are the counts of OK and PR statuses, and the three counts add up to the number of cells. |
| Dashboard.Stats | teste-cco/components/Dashboard.tsx:13-29 | The counts cover every cell of every task, with OK and PR counted by multiplicity. |
| Dashboard.CellCountIsCells | teste-cco/components/Dashboard.tsx:19-21 | The cell count is the number of (task, location) entries. |
| Dashboard.AllCountedOk | teste-cco/components/Dashboard.tsx:22 | When every counted cell is OK, every cell of every task is OK. |
| Dashboard.ShortNameExamples | teste-cco/components/Dashboard.tsx:50 | Two instances: "LAT-CWB" is charted as "CWB", and "CCO" as itself. |
| Dashboard.ShortNameKeepsPlain | teste-cco/components/Dashboard.tsx:50 | A name holding neither "LAT-" nor "ITA-" anywhere is charted unchanged. |
| Dashboard.ShortNameDropsLat | teste-cco/components/Dashboard.tsx:50 | A leading "LAT-" is dropped from a name that holds neither pattern elsewhere. |
| Dashboard.ShortNameDropsIta | teste-cco/components/Dashboard.tsx:50 | A leading "ITA-" is dropped likewise; the first replace finds nothing to do. |
| Dashboard.Column | teste-cco/components/Dashboard.tsx:42-47 | One status per task at the location, with a missing entry read as PR. |
| Dashboard.RowFor | teste-cco/components/Dashboard.tsx:37-56 | A location's bar counts each task once: OK, pending (PR or missing) and problems add up to the task count. |
| Dashboard.ChartLeTotalPreorder | teste-cco/components/Dashboard.tsx:59 | The chart comparator (problems descending, then name) is a total preorder, so sorting by it is well-defined. |
| Dashboard.BarsAreTheLocations | teste-cco/components/Dashboard.tsx:34-56 | There is one bar per location of any task, and each bar is that location's row. |
| Dashboard.ChartData | teste-cco/components/Dashboard.tsx:32-60 | The chart has exactly one row per location. Each row holds its location's counts, and the rows are sorted by problems descending, then name. |
| Dashboard.ChartRowsAccountForEveryTask | teste-cco/components/Dashboard.tsx:42-47 | Every chart row accounts for every task exactly once. |
| Dashboard.Progress | teste-cco/components/Dashboard.tsx:62 | 0 without cells, never above 100, and exactly 100 when every cell is OK. |
| Routes.Offset | teste-cco/components/RouteDeparture.tsx:52 | The Monday-based weekday of the month's first day, Sunday being 6. |
| Routes.WeekNumber | teste-cco/components/RouteDeparture.tsx:54 | `Math.ceil((day + offset) / 7)`: the week number is between 1 and 6, and the shifted day falls within that week. |
| Routes.WeekAdvancesAfterSunday | teste-cco/components/RouteDeparture.tsx:52-54 | The week number goes up exactly on the day after a Sunday. |
| Routes.WeekString | teste-cco/components/RouteDeparture.tsx:41-56 | Empty iff the date is empty. Otherwise the month's abbreviation and the week number, or "undefined SNaN" when the date does not parse. |
| Routes.Submit | teste-cco/components/RouteDeparture.tsx:78-94 | Exactly one route is appended with the form's fields and the fixed defaults for week, departure, reason, overall status, notice and creation time. |
| Routes.FromParsed | teste-cco/components/RouteDeparture.tsx:101-112 | Each field is the parsed value or its `\|\|` default: the computed week, "00:00:00" for departure, "OK" for the statuses and time, "NÃO" for the notice, "" for the rest. |
| Routes.FromParsedKeepsGiven | teste-cco/components/RouteDeparture.tsx:101-112 | A route the parser returned complete is imported exactly as parsed, with the new id and creation time. |
| Routes.Import | teste-cco/components/RouteDeparture.tsx:96-124 | A blank text or a failed parse changes nothing. Otherwise the parsed routes are appended in order. |
| Routes.RemoveRow | teste-cco/components/RouteDeparture.tsx:126-130 | Exactly the routes with other ids remain, each as often as before and in their order. |
| Routes.RemoveAbsentId | teste-cco/components/RouteDeparture.tsx:128 | Removing an id no route has changes nothing. |
| Routes.With | teste-cco/components/RouteDeparture.tsx:133 | `{...r, [field]: value}` sets that field and leaves every other field as it was. |
| Routes.FieldsDetermineRoute | teste-cco/types.ts:40-57 | Two routes that agree on every field are equal, so the field list is complete. |
| Routes.UpdateCell | teste-cco/components/RouteDeparture.tsx:132-135 | The field is set on every route with the id. Every other route is unchanged. |
| Routes.UpdateWithSameValue | teste-cco/components/RouteDeparture.tsx:132-135 | Writing the value a field already holds changes nothing. |
| Customers.Save | teste-cco/components/CustomerList.tsx:21-32 | Nothing happens without a name. Otherwise one customer is appended, the list is stored, and the form is reset and closed. |
| Customers.Delete | teste-cco/components/CustomerList.tsx:34-40 | Without confirmation nothing happens. Otherwise exactly the customers with other ids remain, as often as before and in their order, and the list is stored. |
| Customers.DeleteUndoesSave | teste-cco/components/CustomerList.tsx:21-40 | Deleting the customer just saved under a fresh id restores the list. |
| SendTL.FindVehicle | teste-cco/components/SendTL.tsx:65-66 | None iff no vehicle has the plate. Otherwise the first vehicle with it. |
| SendTL.FieldOr | teste-cco/components/SendTL.tsx:74-81 | `vehicle?.field \|\| d`: the field when the vehicle exists and the field is non-empty, d otherwise. |
| SendTL.BuildPayload | teste-cco/components/SendTL.tsx:65-83 | The payload copies the form's fields. Equipment and compartments come from the first truck and trailer with the plates, each with its `\|\|` default ("" or "X"). |
| SendTL.PayloadCarriesTruck | teste-cco/components/SendTL.tsx:65-81 | The first truck with the plate supplies every equipment and compartment field it has. |
| SendTL.Submit | teste-cco/components/SendTL.tsx:55-103 | Refused iff the address still holds the placeholder. Otherwise the payload is sent: an accepted reply sets success and clears the volume; any other reply keeps the form and the success flag and sets an error. |
| SendTL.ShippedAddressAlwaysRefused | teste-cco/components/SendTL.tsx:8 | With the shipped placeholder address every submission is refused. |

## Left out

- Dates and times are not parsed: today's date string, the hour, the current ISO time and a date's calendar fields are inputs. `getHistory`'s descending date sort is therefore not modelled.
- `toLowerCase`, `trim` and `localeCompare` are modelled on ASCII code units. Unicode case mapping, Unicode white space and locale collation are not modelled. Column-name normalisation also folds the accented Latin-1 letters of either case. Chart rows whose short names are equal keep no particular order.
- `Math.round` is modelled exactly for non-negative shares, as integer arithmetic. Floating-point error is not modelled.
- The insertion order of object keys is not modelled: sets of locations are listed in lexicographic order where a sequence is needed.
- Concurrency is reduced to a two-phase poll tick (metadata, then rows). `Promise.all` is all-or-nothing over writes that are all issued. Interleavings of the individual writes are not modelled.
- HTTP, MSAL sign-in, the Gemini parser (its output is an input `Result`), the tour guide, `alert` and `confirm` (a `confirmed` flag) are not modelled. The random and time-based ids are inputs.
- `getListMetadata`, `getRegisteredUsers`, `getTLRoutes` and the `TLVehicle` type are not part of this model. The metadata outcome is an input.
- The column-mapping cache of the gateway and the keyboard shortcuts of the grid are not modelled.
- `JSON.stringify`/`JSON.parse` of localStorage values are not modelled. A stored value of the wrong kind reads as absent.
- Routes.FromParsed: a field the parser leaves out becomes "" rather than `undefined`.
- SendTL.BuildPayload: `Number(litragem)` is kept as the raw text, because JavaScript's number parsing is not modelled.
- SendTL.Submit: the 5-second timer that clears the success flag again is not modelled.
- Gateway.NormalizeString: only the accented letters of Latin-1 are folded. Other letters that NFD would decompose, such as those of Latin Extended-A, are dropped instead.
- Gateway.Upsert: the write and the read-back go through one abstract status row. `updateStatus` writes each column under the name `resolveFieldName` gives, while `getStatusByDate` filters and reads the literal names DataReferencia, TarefaID, OperacaoSigla and Status. The read-back lemmas therefore assume that the resolved names equal those literal names. A list whose internal column names differ would not read a write back, and that case is not modelled.
- Gateway.GetHistory: the records are not sorted by descending timestamp, because dates are not parsed; the same holds for Gateway.GetHistoryKeepingPartial.
- Routes.RemoveRow: models only the branch where the user confirms; the `confirm` dialog itself is not modelled, so there is no `confirmed` flag as Customers.Delete has.
- Gateway.NumberOf: numeric text is read only for unsigned decimal digits. Signs, decimals and exponents read as NaN.
- Dashboard.CellsOf: states that every entry of the map is among the cells, but not the converse.
- Common.RoundPercent: states only the zero-total case itself. The nearest-integer property is stated by Common.RoundPercentIsNearest.

## Findings

| source | as written | input that shows it | evidently intended | confidence | as-written member | corrected member |
|---|---|---|---|---|---|---|
| teste-cco/services/sharepointService.ts:183-188 | `saveHistory` never stores `isPartial` and `getHistory` never reads it, so the test at App.tsx:140 is always false; and since `getHistory` returns [] when its call throws, a failed read also passes for "no partial yet" | a partial snapshot stored at 10h, then a second login at 11h on the same day | a partial snapshot is stored at most once per user and day, and a check that cannot read the history stores nothing | high, not executed | Sync.PartialCheckAsWritten, Sync.LoadPartialCheck, Sync.PartialGuardNeverFires, Sync.TwoPartialsSameDay, Sync.FailedReadStillSaves | Sync.PartialCheck, Sync.LoadPartialCheckCorrected, Sync.AtMostOnePartialPerDay |
| teste-cco/services/sharepointService.ts:140 | `getStatusByDate` returns [] when the query throws, so the poll merges "no rows", resetting every cell to PR, and records the new version | a version change followed by a failed rows query | a failed fetch keeps the grid, and the next tick fetches again | high, not executed | Sync.FailedFetchWipesGrid, Sync.FailedFetchNotRetried, Sync.TokenChangesOnlyOnRowsAsWritten | Sync.FailedFetchRetried, Sync.TokenChangesOnlyOnMerge |
| teste-cco/components/TaskManager.tsx:73-74 | a category counts as complete when its OK share rounds to 100 %, and both the manual toggle and the automatic collapse use that test | a category with 200 cells of which 199 are OK | complete, and so collapsible, means every cell is OK | medium, not executed | Categories.NearlyCompleteReadsAsComplete, Categories.ToggleCategoryAsWritten, Categories.AutoCollapseAsWritten, Categories.NearlyCompleteCollapsesByHand, Categories.NearlyCompleteAutoCollapses | Categories.CategoryStats, Categories.CompleteImpliesRoundedComplete, Categories.ToggleCategory, Categories.AutoCollapse |
