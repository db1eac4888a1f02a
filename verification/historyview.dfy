/** The history browser: which snapshot is selected first, how a day's
    partial snapshot is paired with that day's reset, which records the
    sidebar lists, and the per-record category collapse toggle. The
    snapshot's location set is Types.AllLocations and its grouping is
    Categories.GroupByCategory. */
module HistoryView {
  import opened Common
  import opened Types

  /** `timestamp.split('T')[0]`: the calendar day of an ISO timestamp. */
  function DatePart(ts: string): string {
    Before(ts, 'T')
  }

  predicate NotPartial(h: HistoryRecord) { !IsPartial(h) }

  /** Initial selection: the first non-partial record, else the first record, else none. */
  function DefaultSelection(data: seq<HistoryRecord>): (r: Option<HistoryRecord>)
    ensures data == [] <==> r.None?
    ensures r.Some? && !IsPartial(r.value) ==>
      exists i :: 0 <= i < |data| && data[i] == r.value && forall j :: 0 <= j < i ==> IsPartial(data[j])
    ensures r.Some? && IsPartial(r.value) ==> r.value == data[0] && forall h :: h in data ==> IsPartial(h)
  {
    match FindIndex(data, NotPartial)
    case Some(i) => Some(data[i])
    case None => if data == [] then None else Some(data[0])
  }

  predicate PartialOfDay(d: string, h: HistoryRecord) {
    IsPartial(h) && StartsWith(h.timestamp, d)
  }

  /** The day's partial for a reset record: none for a partial record,
      otherwise the first partial whose timestamp starts with the record's day. */
  function FindPartialForRecord(history: seq<HistoryRecord>, main: HistoryRecord): (r: Option<HistoryRecord>)
    ensures IsPartial(main) ==> r.None?
    ensures r.Some? ==> r.value in history && IsPartial(r.value) && StartsWith(r.value.timestamp, DatePart(main.timestamp))
    ensures !IsPartial(main) && r.None? ==>
      forall h :: h in history ==> !(IsPartial(h) && StartsWith(h.timestamp, DatePart(main.timestamp)))
    ensures r.Some? ==> exists i :: 0 <= i < |history| && history[i] == r.value &&
                                    forall j :: 0 <= j < i ==> !PartialOfDay(DatePart(main.timestamp), history[j])
  {
    if IsPartial(main) then None
    else
      var d := DatePart(main.timestamp);
      match FindIndex(history, (h: HistoryRecord) => PartialOfDay(d, h))
      case Some(i) => Some(history[i])
      case None => None
  }

  predicate ResetOfDay(d: string, h: HistoryRecord) {
    !IsPartial(h) && DatePart(h.timestamp) == d
  }

  /** A sidebar entry: any reset, and a partial only when no reset shares its day. */
  predicate InSidebar(history: seq<HistoryRecord>, r: HistoryRecord) {
    !IsPartial(r) || !exists h :: h in history && ResetOfDay(DatePart(r.timestamp), h)
  }

  function SidebarItems(history: seq<HistoryRecord>): (r: seq<HistoryRecord>)
    ensures forall h :: h in history && !IsPartial(h) ==> h in r
    ensures forall h :: h in r && IsPartial(h) <==>
      h in history && IsPartial(h) && forall g :: g in history ==> !ResetOfDay(DatePart(h.timestamp), g)
    ensures forall h :: h in r ==> h in history
    ensures Subsequence(r, history)
  {
    FilterIsSubsequence(history, (h: HistoryRecord) => InSidebar(history, h));
    Filter(history, (h: HistoryRecord) => InSidebar(history, h))
  }

  /** "Back to reset" from a selected partial: the first reset of the same
      day; the selection stays put when there is none. */
  function BackToReset(history: seq<HistoryRecord>, selected: HistoryRecord): (r: HistoryRecord)
    requires IsPartial(selected)
    ensures r == selected || (r in history && ResetOfDay(DatePart(selected.timestamp), r))
    ensures (exists h :: h in history && ResetOfDay(DatePart(selected.timestamp), h)) ==>
      !IsPartial(r) && DatePart(r.timestamp) == DatePart(selected.timestamp)
    ensures (exists h :: h in history && ResetOfDay(DatePart(selected.timestamp), h)) ==>
      exists i :: 0 <= i < |history| && history[i] == r &&
                  forall j :: 0 <= j < i ==> !ResetOfDay(DatePart(selected.timestamp), history[j])
    ensures (forall h :: h in history ==> !ResetOfDay(DatePart(selected.timestamp), h)) ==> r == selected
  {
    var d := DatePart(selected.timestamp);
    match FindIndex(history, (h: HistoryRecord) => ResetOfDay(d, h))
    case Some(i) => history[i]
    case None => selected
  }

  /** A partial the sidebar hides can always be reached back from: its day
      has a reset, which the sidebar lists. */
  lemma HiddenPartialHasReset(history: seq<HistoryRecord>, p: HistoryRecord)
    requires p in history && IsPartial(p) && p !in SidebarItems(history)
    ensures var m := BackToReset(history, p);
      !IsPartial(m) && DatePart(m.timestamp) == DatePart(p.timestamp) && m in SidebarItems(history)
  {
  }

  /** An ISO-shaped timestamp: a ten-character day, then 'T'. */
  predicate IsoShaped(ts: string) {
    |ts| > 10 && ts[10] == 'T' && 'T' !in ts[..10]
  }

  lemma IsoDatePart(ts: string)
    requires IsoShaped(ts)
    ensures DatePart(ts) == ts[..10]
  {
    assert forall i :: 0 <= i < 10 ==> ts[..10][i] == ts[i];
  }

  /** With ISO timestamps, "show partial" followed by "back to reset" lands on
      a reset of the same day (the first one, not necessarily the record the
      operator started from). */
  lemma ShowPartialThenBack(history: seq<HistoryRecord>, main: HistoryRecord)
    requires IsoShaped(main.timestamp) && forall h :: h in history ==> IsoShaped(h.timestamp)
    requires main in history && FindPartialForRecord(history, main).Some?
    ensures var m := BackToReset(history, FindPartialForRecord(history, main).value);
      !IsPartial(m) && DatePart(m.timestamp) == DatePart(main.timestamp)
  {
    var p := FindPartialForRecord(history, main).value;
    IsoDatePart(main.timestamp);
    IsoDatePart(p.timestamp);
    assert p.timestamp[..10] == main.timestamp[..10];
    assert ResetOfDay(DatePart(p.timestamp), main);
  }

  /** toggleCategory: membership of the category flips; others are untouched. */
  function ToggleCategory(collapsed: seq<string>, c: string): (r: seq<string>)
    ensures c in r <==> c !in collapsed
    ensures forall x :: x != c ==> (x in r <==> x in collapsed)
  {
    if c in collapsed then Filter(collapsed, (x: string) => x != c) else collapsed + [c]
  }

  lemma ToggleTwice(collapsed: seq<string>, c: string)
    ensures forall x :: x in ToggleCategory(ToggleCategory(collapsed, c), c) <==> x in collapsed
  {
  }
}
