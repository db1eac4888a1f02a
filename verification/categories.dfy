/** Categories of the checklist grid: grouping tasks by category, the
    completion statistics of a category, and the collapse rules (manual
    toggle and the automatic collapse of complete categories). */
module Categories {
  import opened Common
  import opened Types

  // ---------------------------------------------------------------------------
  // Grouping
  // ---------------------------------------------------------------------------

  /** The tasks of one category, in grid order. */
  function InCategory(tasks: seq<Task>, c: string): (r: seq<Task>)
    ensures forall t :: t in r <==> t in tasks && CategoryOf(t) == c
    ensures |r| <= |tasks|
  {
    if tasks == [] then []
    else
      var n := |tasks| - 1;
      assert tasks == tasks[..n] + [tasks[n]];
      InCategory(tasks[..n], c) + (if CategoryOf(tasks[n]) == c then [tasks[n]] else [])
  }

  lemma InCategorySnoc(tasks: seq<Task>, t: Task, c: string)
    ensures InCategory(tasks + [t], c) == InCategory(tasks, c) + (if CategoryOf(t) == c then [t] else [])
  {
    assert (tasks + [t])[..|tasks|] == tasks;
  }

  lemma InCategoryEmpty(tasks: seq<Task>, c: string)
    requires forall t :: t in tasks ==> CategoryOf(t) != c
    ensures InCategory(tasks, c) == []
  {
    if InCategory(tasks, c) != [] {
      assert InCategory(tasks, c)[0] in InCategory(tasks, c);
    }
  }

  /** groupedTasks: category ↦ its tasks, built by one pass that appends each
      task to its category's list. */
  function GroupByCategory(tasks: seq<Task>): (g: map<string, seq<Task>>)
    ensures g.Keys == set t | t in tasks :: CategoryOf(t)
    ensures forall c :: c in g ==> g[c] == InCategory(tasks, c)
  {
    if tasks == [] then map[]
    else
      var n := |tasks| - 1;
      var prev := GroupByCategory(tasks[..n]);
      var c := CategoryOf(tasks[n]);
      assert tasks == tasks[..n] + [tasks[n]];
      GroupStep(tasks[..n], tasks[n], prev);
      prev[c := (if c in prev then prev[c] else []) + [tasks[n]]]
  }

  lemma GroupStep(init: seq<Task>, t: Task, prev: map<string, seq<Task>>)
    requires prev.Keys == set u | u in init :: CategoryOf(u)
    requires forall c :: c in prev ==> prev[c] == InCategory(init, c)
    ensures var g := prev[CategoryOf(t) := (if CategoryOf(t) in prev then prev[CategoryOf(t)] else []) + [t]];
      && g.Keys == (set u | u in init + [t] :: CategoryOf(u))
      && (forall c :: c in g ==> g[c] == InCategory(init + [t], c))
  {
    var c := CategoryOf(t);
    var g := prev[c := (if c in prev then prev[c] else []) + [t]];
    forall k | k in g ensures g[k] == InCategory(init + [t], k) {
      InCategorySnoc(init, t, k);
      if k == c && c !in prev {
        InCategoryEmpty(init, c);
      }
    }
    assert forall u :: u in init + [t] <==> u in init || u == t;
  }

  /** A task of the category occurs in its group as often as in the grid. */
  lemma {:induction false} InCategoryCount(tasks: seq<Task>, c: string, t: Task)
    ensures multiset(InCategory(tasks, c))[t] == if CategoryOf(t) == c then multiset(tasks)[t] else 0
  {
    if tasks != [] {
      var n := |tasks| - 1;
      assert tasks == tasks[..n] + [tasks[n]];
      InCategoryCount(tasks[..n], c, t);
    }
  }

  /** Grouping is a partition: every task sits in its own category's group as
      often as it occurs in the grid, and no group holds a task of another
      category. */
  lemma GroupingPartitions(tasks: seq<Task>)
    ensures var g := GroupByCategory(tasks);
      && (forall t :: t in tasks ==> CategoryOf(t) in g && multiset(g[CategoryOf(t)])[t] == multiset(tasks)[t])
      && (forall c, t :: c in g && t in g[c] ==> CategoryOf(t) == c && t in tasks)
  {
    var g := GroupByCategory(tasks);
    forall t | t in tasks ensures CategoryOf(t) in g && multiset(g[CategoryOf(t)])[t] == multiset(tasks)[t] {
      InCategoryCount(tasks, CategoryOf(t), t);
    }
  }

  /** `Array.from(new Set(tasks.map(category)))`: each category once, in order of first appearance. */
  function DistinctCategories(tasks: seq<Task>): (r: seq<string>)
    ensures forall c :: c in r <==> exists t :: t in tasks && CategoryOf(t) == c
    ensures forall i, j :: 0 <= i < j < |r| ==> r[i] != r[j]
  {
    if tasks == [] then []
    else
      var n := |tasks| - 1;
      var prev := DistinctCategories(tasks[..n]);
      var c := CategoryOf(tasks[n]);
      assert forall t :: t in tasks <==> t in tasks[..n] || t == tasks[n] by {
        assert tasks == tasks[..n] + [tasks[n]];
      }
      if c in prev then prev else prev + [c]
  }

  // ---------------------------------------------------------------------------
  // Completion statistics
  // ---------------------------------------------------------------------------

  predicate CellOk(t: Task, l: string) {
    l in t.operations && t.operations[l] == OK
  }

  /** The OK cells of one task over the locations (a location listed twice counts twice). */
  function OkInRow(t: Task, locs: seq<string>): (n: nat)
    ensures n <= |locs|
  {
    if locs == [] then 0
    else OkInRow(t, locs[..|locs| - 1]) + (if CellOk(t, locs[|locs| - 1]) then 1 else 0)
  }

  function OkCells(tasks: seq<Task>, locs: seq<string>): (n: nat)
    ensures n <= |tasks| * |locs|
  {
    if tasks == [] then 0
    else OkCells(tasks[..|tasks| - 1], locs) + OkInRow(tasks[|tasks| - 1], locs)
  }

  ghost predicate AllOk(tasks: seq<Task>, locs: seq<string>) {
    forall i, j :: 0 <= i < |tasks| && 0 <= j < |locs| ==> CellOk(tasks[i], locs[j])
  }

  lemma {:induction false} OkInRowFull(t: Task, locs: seq<string>)
    ensures OkInRow(t, locs) == |locs| <==> forall j :: 0 <= j < |locs| ==> CellOk(t, locs[j])
  {
    if locs != [] {
      var n := |locs| - 1;
      OkInRowFull(t, locs[..n]);
      assert forall j :: 0 <= j < n ==> locs[..n][j] == locs[j];
    }
  }

  /** Every cell is OK exactly when the OK count reaches the number of cells. */
  lemma {:induction false} OkCellsFull(tasks: seq<Task>, locs: seq<string>)
    ensures OkCells(tasks, locs) == |tasks| * |locs| <==> AllOk(tasks, locs)
  {
    if tasks != [] {
      var n := |tasks| - 1;
      OkCellsFull(tasks[..n], locs);
      OkInRowFull(tasks[n], locs);
      assert |tasks| * |locs| == n * |locs| + |locs|;
      assert forall i :: 0 <= i < n ==> tasks[..n][i] == tasks[i];
    }
  }

  datatype Stats = Stats(percent: nat, isComplete: bool)

  /** getCategoryStats as written: the rounded share of OK cells over the
      category's tasks × locations (0 for an unknown category), complete when
      it rounds to 100. */
  function CategoryStatsAsWritten(tasks: seq<Task>, locs: seq<string>, cat: string): (s: Stats)
    ensures InCategory(tasks, cat) == [] ==> s == Stats(0, false)
    ensures s.isComplete <==> s.percent == 100
    ensures s.percent <= 100
    ensures InCategory(tasks, cat) != [] ==>
      s.percent == RoundPercent(OkCells(InCategory(tasks, cat), locs), |InCategory(tasks, cat)| * |locs|)
  {
    var c := InCategory(tasks, cat);
    if c == [] then Stats(0, false)
    else
      var p := RoundPercent(OkCells(c, locs), |c| * |locs|);
      RoundPercentBounds(OkCells(c, locs), |c| * |locs|);
      Stats(p, p == 100)
  }

  lemma ProductPositive(a: nat, b: nat)
    ensures a * b > 0 <==> a > 0 && b > 0
  {
    if a > 0 && b > 0 {
      MulLe(1, a, b);
    }
  }

  /** From 200 cells on, one short of full still rounds to 100. */
  lemma OneShortRoundsToFull(total: nat)
    requires total >= 200
    ensures RoundPercent(total - 1, total) == 100
  {
    var p := RoundPercent(total - 1, total);
    RoundPercentIsNearest(total - 1, total);
    if p >= 101 {
      MulLe(101, p, 2 * total);
      assert false;
    }
    if p <= 99 {
      MulLe(p + 1, 100, 2 * total);
      assert false;
    }
  }

  /** As written, one cell short of complete reads as complete once a category
      has 200 cells or more: 199 of 200 rounds to 100%. */
  lemma NearlyCompleteReadsAsComplete(tasks: seq<Task>, locs: seq<string>, cat: string)
    requires |InCategory(tasks, cat)| * |locs| >= 200
    requires OkCells(InCategory(tasks, cat), locs) + 1 == |InCategory(tasks, cat)| * |locs|
    ensures CategoryStatsAsWritten(tasks, locs, cat).isComplete
    ensures !AllOk(InCategory(tasks, cat), locs)
  {
    var c := InCategory(tasks, cat);
    var total := |c| * |locs|;
    assert c != [];
    OneShortRoundsToFull(total);
    OkCellsFull(c, locs);
  }

  /** getCategoryStats with completion decided on the counts: the same
      percentage, complete exactly when the category has cells and every one
      of them is OK. */
  function CategoryStats(tasks: seq<Task>, locs: seq<string>, cat: string): (s: Stats)
    ensures s.percent == CategoryStatsAsWritten(tasks, locs, cat).percent
    ensures s.isComplete <==> InCategory(tasks, cat) != [] && |locs| > 0 && AllOk(InCategory(tasks, cat), locs)
  {
    var c := InCategory(tasks, cat);
    if c == [] then Stats(0, false)
    else
      var total := |c| * |locs|;
      var ok := OkCells(c, locs);
      OkCellsFull(c, locs);
      ProductPositive(|c|, |locs|);
      Stats(CategoryStatsAsWritten(tasks, locs, cat).percent, total > 0 && ok == total)
  }

  /** What the exact rule calls complete, the rounded rule does too. */
  lemma CompleteImpliesRoundedComplete(tasks: seq<Task>, locs: seq<string>, cat: string)
    ensures CategoryStats(tasks, locs, cat).isComplete ==> CategoryStatsAsWritten(tasks, locs, cat).isComplete
  {
    var c := InCategory(tasks, cat);
    if CategoryStats(tasks, locs, cat).isComplete {
      OkCellsFull(c, locs);
      ProductPositive(|c|, |locs|);
      RoundPercentBounds(OkCells(c, locs), |c| * |locs|);
    }
  }

  // ---------------------------------------------------------------------------
  // Collapse rules
  // ---------------------------------------------------------------------------

  /** The collapsed categories, those collapsed automatically this session,
      and those the operator re-opened by hand. */
  datatype Collapse = Collapse(collapsed: seq<string>, auto: set<string>, manual: set<string>)

  predicate NotCat(cat: string, c: string) { c != cat }

  /** toggleCategory for a category whose completion is `complete`: a
      collapsed category opens (and, when complete, is remembered as opened by
      hand); an expanded one collapses only when complete (and is no longer
      remembered as opened by hand). */
  function Toggle(s: Collapse, cat: string, complete: bool): (r: Collapse)
    ensures cat in s.collapsed ==> (
      && cat !in r.collapsed
      && (forall c :: c != cat ==> (c in r.collapsed <==> c in s.collapsed))
      && (cat in r.manual <==> cat in s.manual || complete))
    ensures cat !in s.collapsed && complete ==> r.collapsed == s.collapsed + [cat] && cat !in r.manual
    ensures cat !in s.collapsed && !complete ==> r == s
    ensures r.auto == s.auto
  {
    if cat in s.collapsed then
      s.(collapsed := Filter(s.collapsed, (c: string) => NotCat(cat, c)),
         manual := if complete then s.manual + {cat} else s.manual)
    else if complete then
      s.(collapsed := s.collapsed + [cat], manual := s.manual - {cat})
    else s
  }

  /** toggleCategory as written: an expanded category collapses exactly when
      it has tasks and its OK share rounds to 100 %. */
  function ToggleCategoryAsWritten(s: Collapse, tasks: seq<Task>, locs: seq<string>, cat: string): (r: Collapse)
    ensures cat in s.collapsed ==> cat !in r.collapsed
    ensures cat !in s.collapsed ==>
      (cat in r.collapsed <==> InCategory(tasks, cat) != [] && CategoryStatsAsWritten(tasks, locs, cat).percent == 100)
  {
    Toggle(s, cat, CategoryStatsAsWritten(tasks, locs, cat).isComplete)
  }

  /** The corrected toggle: an expanded category collapses exactly when it has
      tasks and every one of its cells is OK. */
  function ToggleCategory(s: Collapse, tasks: seq<Task>, locs: seq<string>, cat: string): (r: Collapse)
    ensures cat in s.collapsed ==> cat !in r.collapsed
    ensures cat !in s.collapsed ==>
      (cat in r.collapsed <==> InCategory(tasks, cat) != [] && |locs| > 0 && AllOk(InCategory(tasks, cat), locs))
  {
    Toggle(s, cat, CategoryStats(tasks, locs, cat).isComplete)
  }

  /** As written, a category of 200 cells with 199 OK can be collapsed by hand;
      the corrected toggle refuses. */
  lemma NearlyCompleteCollapsesByHand(s: Collapse, tasks: seq<Task>, locs: seq<string>, cat: string)
    requires cat !in s.collapsed
    requires |InCategory(tasks, cat)| * |locs| >= 200
    requires OkCells(InCategory(tasks, cat), locs) + 1 == |InCategory(tasks, cat)| * |locs|
    ensures cat in ToggleCategoryAsWritten(s, tasks, locs, cat).collapsed
    ensures cat !in ToggleCategory(s, tasks, locs, cat).collapsed
  {
    NearlyCompleteReadsAsComplete(tasks, locs, cat);
  }

  predicate Complete(tasks: seq<Task>, locs: seq<string>, c: string) {
    CategoryStats(tasks, locs, c).isComplete
  }

  /** A category the automatic pass may collapse: complete, and neither
      collapsed automatically before nor re-opened by hand. */
  predicate Eligible(s: Collapse, tasks: seq<Task>, locs: seq<string>, c: string) {
    Complete(tasks, locs, c) && c !in s.auto && c !in s.manual
  }

  /** One category of the automatic-collapse pass. `shown` is the collapsed
      list the pass started from. */
  function AutoStep(s: Collapse, shown: seq<string>, cat: string, complete: bool): (r: Collapse)
    ensures forall c :: c in s.collapsed ==> c in r.collapsed
    ensures forall c :: c in r.collapsed ==> c in s.collapsed || (c == cat && complete)
    ensures complete && cat !in s.auto && cat !in s.manual ==> cat in r.collapsed || cat in shown
    ensures !complete ==> cat !in r.auto && cat !in r.manual
    ensures forall c :: c != cat ==> (c in r.auto <==> c in s.auto) && (c in r.manual <==> c in s.manual)
  {
    if complete && cat !in shown && cat !in s.auto && cat !in s.manual then
      s.(collapsed := if cat in s.collapsed then s.collapsed else s.collapsed + [cat], auto := s.auto + {cat})
    else if !complete then
      s.(auto := s.auto - {cat}, manual := s.manual - {cat})
    else s
  }

  /** The pass over the categories, with `complete` the completion test. */
  function AutoCollapseOver(s: Collapse, shown: seq<string>, complete: string -> bool, cats: seq<string>): (r: Collapse)
    ensures forall c :: c in s.collapsed ==> c in r.collapsed
    ensures forall c :: c in r.collapsed ==> c in s.collapsed || (c in cats && complete(c))
  {
    if cats == [] then s
    else
      var n := |cats| - 1;
      assert forall c :: c in cats[..n] ==> c in cats;
      AutoStep(AutoCollapseOver(s, shown, complete, cats[..n]), shown, cats[n], complete(cats[n]))
  }

  /** The pass leaves the memories of categories it does not visit alone. */
  lemma {:induction false} AutoLeavesOthers(s: Collapse, shown: seq<string>, complete: string -> bool,
                                            cats: seq<string>, c: string)
    requires c !in cats
    ensures var r := AutoCollapseOver(s, shown, complete, cats);
      (c in r.auto <==> c in s.auto) && (c in r.manual <==> c in s.manual)
  {
    if cats != [] {
      var n := |cats| - 1;
      assert cats[n] in cats;
      assert c !in cats[..n];
      AutoLeavesOthers(s, shown, complete, cats[..n], c);
    }
  }

  /** An incomplete category visited by the pass ends up in neither memory. */
  lemma {:induction false} AutoForgetsIncomplete(s: Collapse, shown: seq<string>, complete: string -> bool,
                                                 cats: seq<string>, c: string)
    requires c in cats && !complete(c)
    ensures var r := AutoCollapseOver(s, shown, complete, cats);
      c !in r.auto && c !in r.manual
  {
    var n := |cats| - 1;
    if cats[n] != c {
      assert cats == cats[..n] + [cats[n]];
      AutoForgetsIncomplete(s, shown, complete, cats[..n], c);
    }
  }

  /** A complete category visited by the pass, neither collapsed
      automatically before nor re-opened by hand, ends up collapsed. */
  lemma {:induction false} AutoCollapsesEligible(s: Collapse, complete: string -> bool, cats: seq<string>, c: string)
    requires c in cats && complete(c) && c !in s.auto && c !in s.manual
    ensures c in AutoCollapseOver(s, s.collapsed, complete, cats).collapsed
  {
    var n := |cats| - 1;
    var prev := AutoCollapseOver(s, s.collapsed, complete, cats[..n]);
    if c in cats[..n] {
      AutoCollapsesEligible(s, complete, cats[..n], c);
    } else {
      assert cats == cats[..n] + [cats[n]];
      assert cats[n] == c;
      AutoLeavesOthers(s, s.collapsed, complete, cats[..n], c);
    }
  }

  /** The auto-collapse effect after the grid changes, with `complete` the
      completion test: each complete category that was not collapsed
      automatically before and not re-opened by hand gets collapsed; an
      incomplete category is forgotten by both memories; nothing is ever
      expanded, and only complete categories are added. */
  function AutoCollapseWith(s: Collapse, tasks: seq<Task>, complete: string -> bool): (r: Collapse)
    ensures forall c :: c in s.collapsed ==> c in r.collapsed
    ensures forall c :: c in r.collapsed ==> c in s.collapsed || complete(c)
    ensures forall t :: t in tasks && complete(CategoryOf(t)) && CategoryOf(t) !in s.auto && CategoryOf(t) !in s.manual ==>
      CategoryOf(t) in r.collapsed
    ensures forall t :: t in tasks && !complete(CategoryOf(t)) ==>
      CategoryOf(t) !in r.auto && CategoryOf(t) !in r.manual
  {
    var cats := DistinctCategories(tasks);
    var r := AutoCollapseOver(s, s.collapsed, complete, cats);
    forall t | t in tasks && complete(CategoryOf(t)) && CategoryOf(t) !in s.auto && CategoryOf(t) !in s.manual
      ensures CategoryOf(t) in r.collapsed
    {
      AutoCollapsesEligible(s, complete, cats, CategoryOf(t));
    }
    forall t | t in tasks && !complete(CategoryOf(t))
      ensures CategoryOf(t) !in r.auto && CategoryOf(t) !in r.manual
    {
      AutoForgetsIncomplete(s, s.collapsed, complete, cats, CategoryOf(t));
    }
    r
  }

  /** The auto-collapse effect as written: a category whose OK share rounds to
      100 % counts as complete. */
  function AutoCollapseAsWritten(s: Collapse, tasks: seq<Task>, locs: seq<string>): (r: Collapse)
    ensures forall c :: c in s.collapsed ==> c in r.collapsed
    ensures forall c :: c in r.collapsed ==> c in s.collapsed || CategoryStatsAsWritten(tasks, locs, c).percent == 100
    ensures forall t ::
      (t in tasks && CategoryStatsAsWritten(tasks, locs, CategoryOf(t)).percent == 100 &&
       CategoryOf(t) !in s.auto && CategoryOf(t) !in s.manual) ==> CategoryOf(t) in r.collapsed
  {
    AutoCollapseWith(s, tasks, (c: string) => CategoryStatsAsWritten(tasks, locs, c).isComplete)
  }

  /** The corrected auto-collapse effect: completion means every cell OK. */
  function AutoCollapse(s: Collapse, tasks: seq<Task>, locs: seq<string>): (r: Collapse)
    ensures forall c :: c in s.collapsed ==> c in r.collapsed
    ensures forall c :: c in r.collapsed ==> c in s.collapsed || Complete(tasks, locs, c)
    ensures forall t :: t in tasks && Eligible(s, tasks, locs, CategoryOf(t)) ==> CategoryOf(t) in r.collapsed
    ensures forall t :: t in tasks && !Complete(tasks, locs, CategoryOf(t)) ==>
      CategoryOf(t) !in r.auto && CategoryOf(t) !in r.manual
  {
    AutoCollapseWith(s, tasks, (c: string) => Complete(tasks, locs, c))
  }

  /** As written, a category of 200 cells with 199 OK collapses on its own;
      the corrected effect leaves it open. */
  lemma NearlyCompleteAutoCollapses(s: Collapse, tasks: seq<Task>, locs: seq<string>, t: Task)
    requires t in tasks
    requires CategoryOf(t) !in s.collapsed && CategoryOf(t) !in s.auto && CategoryOf(t) !in s.manual
    requires |InCategory(tasks, CategoryOf(t))| * |locs| >= 200
    requires OkCells(InCategory(tasks, CategoryOf(t)), locs) + 1 == |InCategory(tasks, CategoryOf(t))| * |locs|
    ensures CategoryOf(t) in AutoCollapseAsWritten(s, tasks, locs).collapsed
    ensures CategoryOf(t) !in AutoCollapse(s, tasks, locs).collapsed
  {
    NearlyCompleteReadsAsComplete(tasks, locs, CategoryOf(t));
  }
}
