/** The dashboard: status counts over every cell, the per-location chart
    rows and their order, and the overall progress percentage. */
module Dashboard {
  import opened Common
  import opened Types

  /** Counts of OK, pending (PR) and problem (any other status) cells. */
  datatype Counts = Counts(ok: nat, pending: nat, issues: nat)

  function Total(c: Counts): nat { c.ok + c.pending + c.issues }

  function Tally(ss: seq<Status>): (c: Counts)
    ensures c.ok == multiset(ss)[OK]
    ensures c.pending == multiset(ss)[PR]
    ensures Total(c) == |ss|
  {
    if ss == [] then Counts(0, 0, 0)
    else
      var n := |ss| - 1;
      assert ss == ss[..n] + [ss[n]];
      var c := Tally(ss[..n]);
      match ss[n]
      case OK => c.(ok := c.ok + 1)
      case PR => c.(pending := c.pending + 1)
      case _ => c.(issues := c.issues + 1)
  }

  /** A task's recorded statuses, one per location key. */
  function CellsOf(ops: Operations): (r: seq<Status>)
    ensures |r| == |ops|
    ensures forall l :: l in ops ==> ops[l] in r
  {
    var keys := Enumerate(ops.Keys);
    var r := seq(|keys|, i requires 0 <= i < |keys| => ops[keys[i]]);
    forall l | l in ops ensures ops[l] in r {
      var i :| 0 <= i < |keys| && keys[i] == l;
      assert r[i] == ops[l];
    }
    r
  }

  function AllCells(tasks: seq<Task>): (r: seq<Status>)
    ensures forall t, l :: t in tasks && l in t.operations ==> t.operations[l] in r
  {
    if tasks == [] then []
    else
      var n := |tasks| - 1;
      assert forall t :: t in tasks <==> t in tasks[..n] || t == tasks[n] by {
        assert tasks == tasks[..n] + [tasks[n]];
      }
      AllCells(tasks[..n]) + CellsOf(tasks[n].operations)
  }

  /** The number of recorded cells over all tasks. */
  function CellCount(tasks: seq<Task>): nat {
    if tasks == [] then 0 else CellCount(tasks[..|tasks| - 1]) + |tasks[|tasks| - 1].operations|
  }

  /** `stats`: every recorded cell is counted exactly once, as OK, pending or a problem. */
  function Stats(tasks: seq<Task>): (c: Counts)
    ensures Total(c) == CellCount(tasks)
    ensures c.ok == multiset(AllCells(tasks))[OK] && c.pending == multiset(AllCells(tasks))[PR]
  {
    CellCountIsCells(tasks);
    Tally(AllCells(tasks))
  }

  lemma {:induction false} CellCountIsCells(tasks: seq<Task>)
    ensures |AllCells(tasks)| == CellCount(tasks)
  {
    if tasks != [] {
      CellCountIsCells(tasks[..|tasks| - 1]);
    }
  }

  lemma {:induction false} TallyAllOk(ss: seq<Status>)
    requires Tally(ss).ok == |ss|
    ensures forall i :: 0 <= i < |ss| ==> ss[i] == OK
  {
    if ss != [] {
      var n := |ss| - 1;
      assert ss == ss[..n] + [ss[n]];
      TallyAllOk(ss[..n]);
      assert forall i :: 0 <= i < n ==> ss[..n][i] == ss[i];
    }
  }

  /** When the OK count reaches the cell count, every recorded cell is OK. */
  lemma AllCountedOk(tasks: seq<Task>)
    requires Stats(tasks).ok == CellCount(tasks)
    ensures forall t, l :: t in tasks && l in t.operations ==> t.operations[l] == OK
  {
    var cells := AllCells(tasks);
    CellCountIsCells(tasks);
    TallyAllOk(cells);
    forall t, l | t in tasks && l in t.operations ensures t.operations[l] == OK {
      var s := t.operations[l];
      assert s in cells;
    }
  }

  // ---------------------------------------------------------------------------
  // Chart
  // ---------------------------------------------------------------------------

  datatype ChartRow = ChartRow(name: string, fullKey: string, ok: nat, pendentes: nat, problemas: nat)

  /** `loc.replace('LAT-', '').replace('ITA-', '')`: the first of each prefix is dropped. */
  function ShortName(loc: string): string {
    ReplaceFirst(ReplaceFirst(loc, "LAT-", ""), "ITA-", "")
  }

  lemma ShortNameExamples()
    ensures ShortName("LAT-CWB") == "CWB"
    ensures ShortName("CCO") == "CCO"
  {
    assert OccursAt("LAT-CWB", "LAT-", 0);
    assert !Contains("CCO", "LAT-");
    assert !Contains("CCO", "ITA-");
    assert !Contains("CWB", "ITA-");
  }

  /** A name holding neither prefix is shown as it is. */
  lemma ShortNameKeepsPlain(loc: string)
    requires !Contains(loc, "LAT-") && !Contains(loc, "ITA-")
    ensures ShortName(loc) == loc
  {
  }

  /** A leading "LAT-" is dropped from a name that holds neither prefix
      elsewhere. */
  lemma ShortNameDropsLat(s: string)
    requires !Contains(s, "LAT-") && !Contains(s, "ITA-")
    ensures ShortName("LAT-" + s) == s
  {
    DropLeading("LAT-" + s, "LAT-", s);
  }

  /** A leading "ITA-" is dropped likewise: the first replace finds no
      "LAT-" and leaves the name to the second. */
  lemma ShortNameDropsIta(s: string)
    requires !Contains(s, "LAT-") && !Contains(s, "ITA-")
    ensures ShortName("ITA-" + s) == s
  {
    NoLatAfterIta(s);
    DropLeading("ITA-" + s, "ITA-", s);
  }

  lemma NoLatAfterIta(s: string)
    requires !Contains(s, "LAT-")
    ensures !Contains("ITA-" + s, "LAT-")
  {
    var t := "ITA-" + s;
    forall i | 0 <= i <= |t| - 4 ensures !OccursAt(t, "LAT-", i) {
      if i >= 4 {
        assert t[i..i + 4] == s[i - 4..i];
        assert !OccursAt(s, "LAT-", i - 4);
      } else {
        assert t[i] != 'L';
        assert t[i..i + 4][0] == t[i];
      }
    }
  }

  lemma DropLeading(t: string, part: string, s: string)
    requires t == part + s
    ensures ReplaceFirst(t, part, "") == s
  {
    assert OccursAt(t, part, 0);
    assert t[0 + |part|..] == s;
  }

  /** The status a task shows at a location: the recorded one, PR when absent. */
  function Column(tasks: seq<Task>, loc: string): (r: seq<Status>)
    ensures |r| == |tasks|
    ensures forall i :: 0 <= i < |tasks| ==> r[i] == StatusOr(tasks[i].operations, loc)
  {
    seq(|tasks|, i requires 0 <= i < |tasks| => StatusOr(tasks[i].operations, loc))
  }

  /** One chart bar: per task, an OK, a pending (PR or absent) or a problem. */
  function RowFor(tasks: seq<Task>, loc: string): (r: ChartRow)
    ensures r.fullKey == loc && r.name == ShortName(loc)
    ensures r.ok + r.pendentes + r.problemas == |tasks|
    ensures r.ok == multiset(Column(tasks, loc))[OK] && r.pendentes == multiset(Column(tasks, loc))[PR]
  {
    var c := Tally(Column(tasks, loc));
    ChartRow(ShortName(loc), loc, c.ok, c.pending, c.issues)
  }

  /** Problems descending, then name ascending. */
  predicate ChartLe(a: ChartRow, b: ChartRow) {
    a.problemas > b.problemas || (a.problemas == b.problemas && StrLe(a.name, b.name))
  }

  lemma ChartLeTotalPreorder()
    ensures TotalPreorder(ChartLe)
  {
    forall a: ChartRow, b: ChartRow ensures ChartLe(a, b) || ChartLe(b, a) {
      StrLeTotal(a.name, b.name);
    }
    forall a: ChartRow, b: ChartRow, c: ChartRow | ChartLe(a, b) && ChartLe(b, c) ensures ChartLe(a, c) {
      if StrLe(a.name, b.name) && StrLe(b.name, c.name) {
        StrLeTransitive(a.name, b.name, c.name);
      }
    }
  }

  /** One bar per location, before sorting. */
  function Bars(tasks: seq<Task>): (rows: seq<ChartRow>)
    ensures |rows| == |AllLocations(tasks)|
    ensures forall i :: 0 <= i < |rows| ==> rows[i] == RowFor(tasks, Enumerate(AllLocations(tasks))[i])
  {
    var locs := Enumerate(AllLocations(tasks));
    seq(|locs|, i requires 0 <= i < |locs| => RowFor(tasks, locs[i]))
  }

  /** A sequence made by applying `f` pointwise holds exactly the images of
      the inputs, when `key` recovers each input from its image. */
  lemma MappedMembers<A, B>(xs: seq<A>, ys: seq<B>, f: A -> B, key: B -> A)
    requires |ys| == |xs| && forall i :: 0 <= i < |xs| ==> ys[i] == f(xs[i])
    requires forall a :: key(f(a)) == a
    ensures forall y :: y in ys <==> key(y) in xs && y == f(key(y))
  {
    forall y ensures y in ys <==> key(y) in xs && y == f(key(y)) {
      if y in ys {
        var i :| 0 <= i < |ys| && ys[i] == y;
        assert key(y) == xs[i];
      }
      if key(y) in xs && y == f(key(y)) {
        var i :| 0 <= i < |xs| && xs[i] == key(y);
        assert ys[i] == y;
      }
    }
  }

  /** Bars built over any list of locations are exactly those locations' rows. */
  lemma RowsOfLocations(tasks: seq<Task>, locs: seq<string>, rows: seq<ChartRow>)
    requires |rows| == |locs| && forall i :: 0 <= i < |locs| ==> rows[i] == RowFor(tasks, locs[i])
    ensures forall row :: row in rows <==> row.fullKey in locs && row == RowFor(tasks, row.fullKey)
  {
    MappedMembers(locs, rows, l => RowFor(tasks, l), (row: ChartRow) => row.fullKey);
  }

  lemma BarsAreTheLocations(tasks: seq<Task>)
    ensures forall row :: row in Bars(tasks) <==> row.fullKey in AllLocations(tasks) && row == RowFor(tasks, row.fullKey)
  {
    var locs := Enumerate(AllLocations(tasks));
    RowsOfLocations(tasks, locs, Bars(tasks));
  }

  lemma SameMultisetSameMembers<T>(a: seq<T>, b: seq<T>)
    requires multiset(a) == multiset(b)
    ensures forall x :: x in a <==> x in b
  {
    forall x ensures x in a <==> x in b {
      assert x in a <==> x in multiset(a);
      assert x in b <==> x in multiset(b);
    }
  }

  /** `chartData`: one bar per location any task has, sorted. */
  function ChartData(tasks: seq<Task>): (r: seq<ChartRow>)
    ensures |r| == |AllLocations(tasks)|
    ensures forall row :: row in r <==> row.fullKey in AllLocations(tasks) && row == RowFor(tasks, row.fullKey)
    ensures SortedBy(r, ChartLe)
  {
    var rows := Bars(tasks);
    BarsAreTheLocations(tasks);
    ChartLeTotalPreorder();
    var r := SortBy(rows, ChartLe);
    SameMultisetSameMembers(r, rows);
    r
  }

  /** Every bar accounts for every task once. */
  lemma ChartRowsAccountForEveryTask(tasks: seq<Task>)
    ensures forall row :: row in ChartData(tasks) ==> row.ok + row.pendentes + row.problemas == |tasks|
  {
  }

  /** `progress`: rounded share of OK cells, 0 without cells. */
  function Progress(tasks: seq<Task>): (p: nat)
    ensures CellCount(tasks) == 0 ==> p == 0
    ensures p <= 100
    ensures CellCount(tasks) > 0 && Stats(tasks).ok == CellCount(tasks) ==> p == 100
  {
    var c := Stats(tasks);
    RoundPercentBounds(c.ok, Total(c));
    RoundPercent(c.ok, Total(c))
  }
}
