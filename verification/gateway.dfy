/** The pure parts of the remote list gateway: column-name normalisation and
    resolution, list lookup by name, turning list items into typed rows, the
    upsert-by-Title decision and the history field mapping. Every remote call
    is an input: what it returned, or that it failed. */
module Gateway {
  import opened Common
  import opened Types

  // ---------------------------------------------------------------------------
  // Column names
  // ---------------------------------------------------------------------------

  predicate IsNormalChar(c: char) { IsLowerAscii(c) || IsDigit(c) }

  /** The base letter of an accented Latin-1 letter, either case, as
      `normalize("NFD")` followed by deleting the combining marks U+0300-U+036F
      leaves it; every other character is unchanged. Letters without a
      decomposition (æ, ð, ø, þ, ß) stay as they are. */
  function FoldAccent(c: char): (d: char)
    ensures c as int < 0x80 ==> d == c
    ensures d != c ==> IsLowerAscii(d)
  {
    var n := c as int;
    if 0xC0 <= n <= 0xC5 || 0xE0 <= n <= 0xE5 then 'a'
    else if n == 0xC7 || n == 0xE7 then 'c'
    else if 0xC8 <= n <= 0xCB || 0xE8 <= n <= 0xEB then 'e'
    else if 0xCC <= n <= 0xCF || 0xEC <= n <= 0xEF then 'i'
    else if n == 0xD1 || n == 0xF1 then 'n'
    else if 0xD2 <= n <= 0xD6 || 0xF2 <= n <= 0xF6 then 'o'
    else if 0xD9 <= n <= 0xDC || 0xF9 <= n <= 0xFC then 'u'
    else if n == 0xDD || n == 0xFD || n == 0xFF then 'y'
    else c
  }

  /** normalizeString: lower-case, fold accented letters to their base letter,
      then keep only [a-z0-9]. */
  function NormalizeString(s: string): (r: string)
    ensures forall i :: 0 <= i < |r| ==> IsNormalChar(r[i])
    ensures |r| <= |s|
    ensures s == "" ==> r == ""
  {
    if s == [] then []
    else
      var c := FoldAccent(LowerChar(s[0]));
      (if IsNormalChar(c) then [c] else []) + NormalizeString(s[1..])
  }

  /** Two names whose characters fold to the same letters one by one
      normalise alike. */
  lemma {:induction false} NormalizePointwise(s: string, t: string)
    requires |s| == |t|
    requires forall i :: 0 <= i < |s| ==> FoldAccent(LowerChar(s[i])) == FoldAccent(LowerChar(t[i]))
    ensures NormalizeString(s) == NormalizeString(t)
  {
    if s != [] {
      NormalizePointwise(s[1..], t[1..]);
    }
  }

  /** Accents make no difference: a display name written with them resolves
      a target written without. */
  lemma AccentsFold()
    ensures NormalizeString("Data Referência") == NormalizeString("data referencia")
  {
    NormalizePointwise("Data Referência", "data referencia");
  }

  /** A string already made of [a-z0-9] is its own normal form. */
  lemma {:induction false} NormalizeKeepsNormal(s: string)
    requires forall i :: 0 <= i < |s| ==> IsNormalChar(s[i])
    ensures NormalizeString(s) == s
  {
    if s != [] {
      NormalizeKeepsNormal(s[1..]);
      assert s == [s[0]] + s[1..];
    }
  }

  /** Normalising twice is normalising once. */
  lemma NormalizeIdempotent(s: string)
    ensures NormalizeString(NormalizeString(s)) == NormalizeString(s)
  {
    NormalizeKeepsNormal(NormalizeString(s));
  }

  /** Upper- and lower-case spellings of a column name normalise alike. */
  lemma {:induction false} NormalizeIgnoresCase(s: string)
    ensures NormalizeString(ToLower(s)) == NormalizeString(s)
  {
    if s != [] {
      NormalizeIgnoresCase(s[1..]);
      assert ToLower(s)[1..] == ToLower(s[1..]);
    }
  }

  /** A column as the list's column listing reports it (a missing display name is ""). */
  datatype Column = Column(name: string, displayName: string)

  predicate Mentions(c: Column, key: string) {
    NormalizeString(c.name) == key || NormalizeString(c.displayName) == key
  }

  /** getListColumnMapping: normalised name and normalised display name of
      every column both lead to the column's internal name; later columns
      overwrite earlier ones. */
  function ColumnMapping(cols: seq<Column>): (m: map<string, string>)
    ensures forall c :: c in cols ==> NormalizeString(c.name) in m && NormalizeString(c.displayName) in m
  {
    if cols == [] then map[]
    else
      var n := |cols| - 1;
      var c := cols[n];
      var prev := ColumnMapping(cols[..n]);
      assert forall x :: x in cols ==> x in cols[..n] || x == c by {
        forall x | x in cols ensures x in cols[..n] || x == c {
          var i :| 0 <= i < |cols| && cols[i] == x;
          if i < n { assert cols[..n][i] == x; }
        }
      }
      prev[NormalizeString(c.name) := c.name][NormalizeString(c.displayName) := c.name]
  }

  /** A last column that does not mention the key leaves its entry alone. */
  lemma MappingSkipsLast(cols: seq<Column>, key: string)
    requires |cols| > 0 && !Mentions(cols[|cols| - 1], key)
    ensures var prev := ColumnMapping(cols[..|cols| - 1]);
      && (key in ColumnMapping(cols) <==> key in prev)
      && (key in prev ==> ColumnMapping(cols)[key] == prev[key])
  {
  }

  /** A key leads to the internal name of the last column whose name or
      display name normalises to it. */
  lemma {:induction false} MappingLastWins(cols: seq<Column>, i: nat, key: string)
    requires i < |cols| && Mentions(cols[i], key)
    requires forall j :: i < j < |cols| ==> !Mentions(cols[j], key)
    ensures key in ColumnMapping(cols) && ColumnMapping(cols)[key] == cols[i].name
  {
    var n := |cols| - 1;
    if i < n {
      var init := cols[..n];
      assert init[i] == cols[i];
      assert forall j :: i < j < |init| ==> !Mentions(init[j], key) by {
        forall j | i < j < |init| ensures !Mentions(init[j], key) {
          assert init[j] == cols[j];
        }
      }
      MappingLastWins(init, i, key);
      MappingSkipsLast(cols, key);
    }
  }

  /** resolveFieldName: the mapped internal name when the normalised target is
      a key with a non-empty name, otherwise the target unchanged. */
  function ResolveFieldName(m: map<string, string>, target: string): (r: string)
    ensures NormalizeString(target) in m && m[NormalizeString(target)] != "" ==> r == m[NormalizeString(target)]
    ensures !(NormalizeString(target) in m && m[NormalizeString(target)] != "") ==> r == target
  {
    var key := NormalizeString(target);
    if key in m && m[key] != "" then m[key] else target
  }

  /** A target spelled like a column's display name, differing only in case,
      accents and punctuation, resolves to that column's internal name when no later
      column claims the same normal form. */
  lemma ResolveByDisplayName(cols: seq<Column>, i: nat, target: string)
    requires i < |cols| && cols[i].name != ""
    requires NormalizeString(cols[i].displayName) == NormalizeString(target)
    requires forall j :: i < j < |cols| ==> !Mentions(cols[j], NormalizeString(target))
    ensures ResolveFieldName(ColumnMapping(cols), target) == cols[i].name
  {
    MappingLastWins(cols, i, NormalizeString(target));
  }

  // ---------------------------------------------------------------------------
  // Lists
  // ---------------------------------------------------------------------------

  datatype ListInfo = ListInfo(id: string, name: Option<string>, displayName: Option<string>)

  /** `l.name?.toLowerCase() === listName.toLowerCase()`, likewise for the display name. */
  predicate NamedAs(l: ListInfo, listName: string) {
    (l.name.Some? && ToLower(l.name.value) == ToLower(listName))
    || (l.displayName.Some? && ToLower(l.displayName.value) == ToLower(listName))
  }

  function FirstNamed(lists: seq<ListInfo>, listName: string): (r: Option<nat>)
    ensures r.Some? ==> r.value < |lists| && NamedAs(lists[r.value], listName)
    ensures r.Some? ==> forall j :: 0 <= j < r.value ==> !NamedAs(lists[j], listName)
    ensures r.None? ==> forall j :: 0 <= j < |lists| ==> !NamedAs(lists[j], listName)
  {
    if lists == [] then None
    else if NamedAs(lists[0], listName) then Some(0)
    else match FirstNamed(lists[1..], listName)
      case Some(i) => Some(i + 1)
      case None => None
  }

  /** findListByIdOrName: the direct lookup when it succeeds; otherwise the
      first list of the site whose name or display name equals the wanted
      name ignoring case; an error when neither finds one or the listing fails. */
  function FindList(listName: string, direct: Option<ListInfo>, all: Result<seq<ListInfo>>): (r: Result<ListInfo>)
    ensures direct.Some? ==> r == Success(direct.value)
    ensures direct.None? && r.Success? ==> all.Success? && r.value in all.value && NamedAs(r.value, listName)
    ensures direct.None? ==> (r.Failure? <==>
      (all.Failure? || forall l :: l in all.value ==> !NamedAs(l, listName)))
  {
    if direct.Some? then Success(direct.value)
    else match all
      case Failure(e) => Failure(e)
      case Success(lists) =>
        match FirstNamed(lists, listName)
        case Some(i) => Success(lists[i])
        case None => Failure("Lista '" + listName + "' não encontrada.")
  }

  // ---------------------------------------------------------------------------
  // List items to typed rows
  // ---------------------------------------------------------------------------

  /** A field value of a list item. */
  datatype Value = Str(text: string) | Bool(flag: bool) | Num(number: int)

  type Fields = map<string, Value>

  datatype Item = Item(id: string, fields: Fields)

  /** A text field read with `|| default`: absent, non-text or empty gives the default. */
  function TextOr(f: Fields, key: string, default: string): (r: string)
    ensures key in f && f[key].Str? && f[key].text != "" ==> r == f[key].text
    ensures !(key in f && f[key].Str? && f[key].text != "") ==> r == default
  {
    if key in f && f[key].Str? && f[key].text != "" then f[key].text else default
  }

  function DigitsValue(s: string): (n: nat)
    requires forall i :: 0 <= i < |s| ==> IsDigit(s[i])
  {
    if s == [] then 0
    else
      assert IsDigit(s[|s| - 1]);
      DigitsValue(s[..|s| - 1]) * 10 + (s[|s| - 1] as int - '0' as int)
  }

  /** JavaScript `Number(v)` on the field values the lists hold; None is NaN.
      A text converts when, trimmed, it is empty (0) or a run of decimal digits. */
  function NumberOf(f: Fields, key: string): (r: Option<int>)
    ensures key !in f ==> r.None?
    ensures key in f && f[key].Num? ==> r == Some(f[key].number)
    ensures key in f && f[key].Bool? ==> r == Some(if f[key].flag then 1 else 0)
  {
    if key !in f then None
    else match f[key]
      case Num(n) => Some(n)
      case Bool(b) => Some(if b then 1 else 0)
      case Str(text) =>
        var t := Trim(text);
        if forall i :: 0 <= i < |t| ==> IsDigit(t[i]) then Some(DigitsValue(t)) else None
  }

  /** `Number(x) || default`: NaN and zero both give the default. */
  function NumberOr(f: Fields, key: string, default: int): (r: int)
    ensures NumberOf(f, key).Some? && NumberOf(f, key).value != 0 ==> r == NumberOf(f, key).value
    ensures !(NumberOf(f, key).Some? && NumberOf(f, key).value != 0) ==> r == default
  {
    var n := NumberOf(f, key);
    if n.Some? && n.value != 0 then n.value else default
  }

  /** The internal names of the columns the task and operation lists are read
      through, each resolved once from the list's column mapping. */
  datatype Columns = Columns(descricao: string, categoria: string, horario: string, ativa: string,
                             ordem: string, email: string)

  function ColumnsOf(m: map<string, string>): Columns {
    Columns(ResolveFieldName(m, "Descricao"), ResolveFieldName(m, "Categoria"), ResolveFieldName(m, "Horario"),
            ResolveFieldName(m, "Ativa"), ResolveFieldName(m, "Ordem"), ResolveFieldName(m, "Email"))
  }

  /** One item of the task list, with the source's defaults: no text field is
      left empty, the order number is never 0, and a task is active unless its
      flag is literally false. */
  function TaskFromItem(item: Item, c: Columns): (t: SPTask)
    ensures t.title != "" && t.categoria != "" && t.horario != "" && t.ordem != 0
    ensures t.ativa <==> !(c.ativa in item.fields && item.fields[c.ativa] == Bool(false))
    ensures t.id == TextOr(item.fields, "id", item.id)
    ensures t.title == TextOr(item.fields, "Title", "Sem Título")
    ensures t.descricao == TextOr(item.fields, c.descricao, "")
    ensures t.categoria == TextOr(item.fields, c.categoria, "Geral")
    ensures t.horario == TextOr(item.fields, c.horario, "--:--")
    ensures t.ordem == NumberOr(item.fields, c.ordem, 999)
  {
    var f := item.fields;
    SPTask(
      TextOr(f, "id", item.id),
      TextOr(f, "Title", "Sem Título"),
      TextOr(f, c.descricao, ""),
      TextOr(f, c.categoria, "Geral"),
      TextOr(f, c.horario, "--:--"),
      !(c.ativa in f && f[c.ativa] == Bool(false)),
      NumberOr(f, c.ordem, 999))
  }

  predicate TaskOrdemLe(a: SPTask, b: SPTask) { a.ordem <= b.ordem }
  predicate OperationOrdemLe(a: SPOperation, b: SPOperation) { a.ordem <= b.ordem }

  function TaskRows(items: seq<Item>, c: Columns): (rows: seq<SPTask>)
    ensures |rows| == |items|
    ensures forall i :: 0 <= i < |items| ==> rows[i] == TaskFromItem(items[i], c)
    ensures forall it :: it in items ==> TaskFromItem(it, c) in rows
    ensures forall t :: t in rows ==> exists it :: it in items && t == TaskFromItem(it, c)
  {
    var rows := seq(|items|, i requires 0 <= i < |items| => TaskFromItem(items[i], c));
    TaskRowsCover(items, rows, c);
    rows
  }

  lemma TaskRowsCover(items: seq<Item>, rows: seq<SPTask>, c: Columns)
    requires |rows| == |items|
    requires forall i :: 0 <= i < |items| ==> rows[i] == TaskFromItem(items[i], c)
    ensures forall it :: it in items ==> TaskFromItem(it, c) in rows
    ensures forall t :: t in rows ==> exists it :: it in items && t == TaskFromItem(it, c)
  {
    forall it | it in items ensures TaskFromItem(it, c) in rows {
      var i :| 0 <= i < |items| && items[i] == it;
      assert rows[i] == TaskFromItem(it, c);
    }
    forall t | t in rows ensures exists it :: it in items && t == TaskFromItem(it, c) {
      var i :| 0 <= i < |rows| && rows[i] == t;
      assert items[i] in items;
    }
  }

  /** getTasks: every item becomes a task row, the rows sorted by ascending
      order number; a failed read gives no rows. */
  function GetTasks(fetched: Result<seq<Item>>, c: Columns): (r: seq<SPTask>)
    ensures fetched.Failure? ==> r == []
    ensures fetched.Success? ==> |r| == |fetched.value|
    ensures fetched.Success? ==> forall it :: it in fetched.value ==> TaskFromItem(it, c) in r
    ensures fetched.Success? ==> forall t :: t in r ==> exists it :: it in fetched.value && t == TaskFromItem(it, c)
    ensures forall i, j :: 0 <= i < j < |r| ==> r[i].ordem <= r[j].ordem
    ensures fetched.Success? ==> multiset(r) == multiset(TaskRows(fetched.value, c))
  {
    match fetched
    case Failure(_) => []
    case Success(items) =>
      var rows := TaskRows(items, c);
      var r := SortBy(rows, TaskOrdemLe);
      assert forall t :: t in r <==> t in rows by {
        forall t ensures t in r <==> t in rows {
          assert t in r <==> t in multiset(r);
        }
      }
      r
  }

  /** The rows of one order number. */
  function TaskOrdemIs(k: int): SPTask -> bool {
    (t: SPTask) => t.ordem == k
  }

  /** The sort is stable: rows with the same order number keep the order of
      the items they come from. */
  lemma GetTasksIsStable(items: seq<Item>, c: Columns, k: int)
    ensures Filter(GetTasks(Success(items), c), TaskOrdemIs(k)) == Filter(TaskRows(items, c), TaskOrdemIs(k))
  {
    SortByIsStable(TaskRows(items, c), TaskOrdemLe, TaskOrdemIs(k));
  }

  /** `(email || "").toLowerCase().trim()`. */
  function CanonicalEmail(s: string): string {
    Trim(ToLower(s))
  }

  predicate OwnedBy(item: Item, colEmail: string, userEmail: string) {
    CanonicalEmail(TextOr(item.fields, colEmail, "")) == CanonicalEmail(userEmail)
  }

  /** The filter of getOperations. */
  function Owner(colEmail: string, userEmail: string): Item -> bool {
    (it: Item) => OwnedBy(it, colEmail, userEmail)
  }

  /** One item of the operations list, with the source's defaults. */
  function OperationFromItem(item: Item, c: Columns): (o: SPOperation)
    ensures o.title != ""
    ensures o.id == TextOr(item.fields, "id", item.id)
    ensures o.title == TextOr(item.fields, "Title", "OP")
    ensures o.ordem == NumberOr(item.fields, c.ordem, 0)
    ensures o.email == TextOr(item.fields, c.email, "")
  {
    var f := item.fields;
    SPOperation(
      TextOr(f, "id", item.id),
      TextOr(f, "Title", "OP"),
      NumberOr(f, c.ordem, 0),
      TextOr(f, c.email, ""))
  }

  function OperationRows(mine: seq<Item>, c: Columns): (rows: seq<SPOperation>)
    ensures |rows| == |mine|
    ensures forall i :: 0 <= i < |mine| ==> rows[i] == OperationFromItem(mine[i], c)
    ensures forall it :: it in mine ==> OperationFromItem(it, c) in rows
    ensures forall o :: o in rows ==> exists it :: it in mine && o == OperationFromItem(it, c)
  {
    var rows := seq(|mine|, i requires 0 <= i < |mine| => OperationFromItem(mine[i], c));
    OperationRowsCover(mine, rows, c);
    rows
  }

  lemma OperationRowsCover(mine: seq<Item>, rows: seq<SPOperation>, c: Columns)
    requires |rows| == |mine|
    requires forall i :: 0 <= i < |mine| ==> rows[i] == OperationFromItem(mine[i], c)
    ensures forall it :: it in mine ==> OperationFromItem(it, c) in rows
    ensures forall o :: o in rows ==> exists it :: it in mine && o == OperationFromItem(it, c)
  {
    forall it | it in mine ensures OperationFromItem(it, c) in rows {
      var i :| 0 <= i < |mine| && mine[i] == it;
      assert rows[i] == OperationFromItem(it, c);
    }
    forall o | o in rows ensures exists it :: it in mine && o == OperationFromItem(it, c) {
      var i :| 0 <= i < |rows| && rows[i] == o;
      assert mine[i] in mine;
    }
  }

  /** getOperations: the items whose e-mail equals the user's, ignoring case
      and surrounding blanks, as operation rows sorted by ascending order
      number; a failed read gives no rows. */
  function GetOperations(fetched: Result<seq<Item>>, c: Columns, userEmail: string): (r: seq<SPOperation>)
    ensures fetched.Failure? ==> r == []
    ensures forall o :: o in r ==> CanonicalEmail(o.email) == CanonicalEmail(userEmail)
    ensures fetched.Success? ==> forall it :: it in fetched.value && OwnedBy(it, c.email, userEmail) ==>
      OperationFromItem(it, c) in r
    ensures fetched.Success? ==> forall o :: o in r ==>
      exists it :: it in fetched.value && OwnedBy(it, c.email, userEmail) && o == OperationFromItem(it, c)
    ensures fetched.Success? ==> |r| <= |fetched.value|
    ensures forall i, j :: 0 <= i < j < |r| ==> r[i].ordem <= r[j].ordem
    ensures fetched.Success? ==>
      multiset(r) == multiset(OperationRows(Filter(fetched.value, Owner(c.email, userEmail)), c))
  {
    match fetched
    case Failure(_) => []
    case Success(items) =>
      var mine := Filter(items, Owner(c.email, userEmail));
      OwnedItems(items, c.email, userEmail);
      SortedOperationRows(mine, c);
      SortBy(OperationRows(mine, c), OperationOrdemLe)
  }

  lemma OwnedItems(items: seq<Item>, colEmail: string, userEmail: string)
    ensures forall it :: it in Filter(items, Owner(colEmail, userEmail)) <==> it in items && OwnedBy(it, colEmail, userEmail)
  {
    forall it ensures it in Filter(items, Owner(colEmail, userEmail)) <==> it in items && OwnedBy(it, colEmail, userEmail) {
      assert Owner(colEmail, userEmail)(it) == OwnedBy(it, colEmail, userEmail);
    }
  }

  lemma SortedOperationRows(mine: seq<Item>, c: Columns)
    ensures forall o :: o in SortBy(OperationRows(mine, c), OperationOrdemLe) ==>
      exists it :: it in mine && o == OperationFromItem(it, c)
    ensures forall it :: it in mine ==> OperationFromItem(it, c) in SortBy(OperationRows(mine, c), OperationOrdemLe)
  {
    var rows := OperationRows(mine, c);
    var r := SortBy(rows, OperationOrdemLe);
    forall o ensures o in r <==> o in rows {
      assert o in r <==> o in multiset(r);
    }
  }

  /** The rows of one order number. */
  function OperationOrdemIs(k: int): SPOperation -> bool {
    (o: SPOperation) => o.ordem == k
  }

  /** The sort is stable: operations with the same order number keep the
      order of the items they come from. */
  lemma GetOperationsIsStable(items: seq<Item>, c: Columns, userEmail: string, k: int)
    ensures var rows := OperationRows(Filter(items, Owner(c.email, userEmail)), c);
      Filter(GetOperations(Success(items), c, userEmail), OperationOrdemIs(k)) == Filter(rows, OperationOrdemIs(k))
  {
    SortByIsStable(OperationRows(Filter(items, Owner(c.email, userEmail)), c), OperationOrdemLe, OperationOrdemIs(k));
  }

  // ---------------------------------------------------------------------------
  // Status rows
  // ---------------------------------------------------------------------------

  predicate OnDate(row: SPStatus, date: string) { row.dataReferencia == date }

  /** The `$filter=fields/DataReferencia eq '<date>'` of getStatusByDate. */
  function OnDay(date: string): SPStatus -> bool {
    (row: SPStatus) => OnDate(row, date)
  }

  /** getStatusByDate as written: the rows of the given date, and an empty
      list when the remote call fails (the error is swallowed). */
  function StatusByDate(fetched: Result<seq<SPStatus>>, date: string): (r: seq<SPStatus>)
    ensures fetched.Failure? ==> r == []
    ensures fetched.Success? ==> forall row :: row in r <==> row in fetched.value && OnDate(row, date)
  {
    match fetched
    case Failure(_) => []
    case Success(all) => Filter(all, OnDay(date))
  }

  /** The same query with its failure reported instead of read as "no rows". */
  function StatusByDateOrError(fetched: Result<seq<SPStatus>>, date: string): (r: Result<seq<SPStatus>>)
    ensures r.Failure? <==> fetched.Failure?
    ensures r.Success? ==> r.value == StatusByDate(fetched, date)
  {
    match fetched
    case Failure(e) => Failure(e)
    case Success(_) => Success(StatusByDate(fetched, date))
  }

  // ---------------------------------------------------------------------------
  // Upsert by Title
  // ---------------------------------------------------------------------------

  /** How the remote calls of one updateStatus go: resolving the list and
      its columns (outside the error handler), the lookup by Title, the PATCH
      or POST that follows it, and the POST of the error handler. */
  datatype UpsertPlan = UpsertPlan(resolveOk: bool, lookupOk: bool, primaryOk: bool, fallbackOk: bool)

  /** The clean path: list resolved, lookup and its follow-up write succeed. */
  predicate Clean(p: UpsertPlan) {
    p.resolveOk && p.lookupOk && p.primaryOk
  }

  predicate Succeeds(p: UpsertPlan) {
    Clean(p) || (p.resolveOk && p.fallbackOk)
  }

  function FirstTitled(rows: seq<SPStatus>, title: string): (r: Option<nat>)
    ensures r.Some? ==> r.value < |rows| && rows[r.value].title == title
    ensures r.Some? ==> forall j :: 0 <= j < r.value ==> rows[j].title != title
    ensures r.None? ==> forall j :: 0 <= j < |rows| ==> rows[j].title != title
  {
    if rows == [] then None
    else if rows[0].title == title then Some(0)
    else match FirstTitled(rows[1..], title)
      case Some(i) => Some(i + 1)
      case None => None
  }

  /** updateStatus: a list that cannot be resolved fails the call; when the
      lookup and the write that follows succeed, the first row with the same
      Title is patched in place, or one row is appended when there is none;
      when either fails, the error handler appends one row; when that fails
      too the call fails and nothing changes. */
  function Upsert(rows: seq<SPStatus>, row: SPStatus, plan: UpsertPlan): (r: Result<seq<SPStatus>>)
    ensures r.Success? <==> Succeeds(plan)
    ensures r.Success? ==> |r.value| == |rows| || r.value == rows + [row]
    ensures r.Success? ==> exists j :: 0 <= j < |r.value| && r.value[j] == row.(id := r.value[j].id)
    ensures Clean(plan) ==> (FirstTitled(rows, row.title).Some? <==> |r.value| == |rows|)
    ensures Clean(plan) ==> match FirstTitled(rows, row.title)
      case Some(i) => r.value == rows[i := row.(id := rows[i].id)]
      case None => r.value == rows + [row]
    ensures !Clean(plan) && r.Success? ==> r.value == rows + [row]
  {
    if !plan.resolveOk then Failure("list not found")
    else if plan.lookupOk && plan.primaryOk then
      match FirstTitled(rows, row.title)
      case Some(i) =>
        var patched := rows[i := row.(id := rows[i].id)];
        assert patched[i] == row.(id := patched[i].id);
        Success(patched)
      case None =>
        assert (rows + [row])[|rows|] == row;
        Success(rows + [row])
    else if plan.fallbackOk then
      assert (rows + [row])[|rows|] == row;
      Success(rows + [row])
    else Failure("upsert failed")
  }

  /** At most one row per Title. */
  ghost predicate TitlesUnique(rows: seq<SPStatus>) {
    forall i, j :: 0 <= i < j < |rows| ==> rows[i].title != rows[j].title
  }

  /** When the lookup and its follow-up write both succeed, the upsert keeps
      Titles unique. */
  lemma UpsertKeepsTitlesUnique(rows: seq<SPStatus>, row: SPStatus, plan: UpsertPlan)
    requires TitlesUnique(rows)
    requires Clean(plan)
    ensures Upsert(rows, row, plan).Success? && TitlesUnique(Upsert(rows, row, plan).value)
  {
  }

  /** The error handler appends without looking: a failed PATCH leaves two rows
      with the same Title. */
  lemma FallbackDuplicatesTitle(prior: SPStatus, row: SPStatus)
    requires prior.title == row.title
    ensures var r := Upsert([prior], row, UpsertPlan(true, true, false, true));
      r.Success? && !TitlesUnique(r.value)
  {
    var r := Upsert([prior], row, UpsertPlan(true, true, false, true));
    assert r.value[0].title == r.value[1].title;
  }

  // ---------------------------------------------------------------------------
  // History
  // ---------------------------------------------------------------------------

  /** The fields of an item of the history list. */
  datatype HistoryItem = HistoryItem(
    itemId: string,
    title: Option<string>,
    data: string,
    dadosJson: seq<Task>,
    celula: Option<string>,
    parcial: Option<bool>)

  /** saveHistory's field mapping: responsible in Title, timestamp in Data, the
      tasks as JSON, the e-mail in Celula. Neither the record id nor
      `isPartial` is written. */
  function HistoryFields(r: HistoryRecord, itemId: string): (item: HistoryItem)
    ensures item.parcial.None?
    ensures item.title == r.resetBy && item.data == r.timestamp && item.dadosJson == r.tasks && item.celula == r.email
  {
    HistoryItem(itemId, r.resetBy, r.timestamp, r.tasks, r.email, None)
  }

  /** getHistory's field mapping for one item; `isPartial` is never read. */
  function RecordOf(item: HistoryItem): (r: HistoryRecord)
    ensures !IsPartial(r)
  {
    HistoryRecord(item.itemId, item.data, item.dadosJson, item.title, item.celula, None)
  }

  /** Saving and reading back gives the record with the item's id and without
      its partial flag: `isPartial` does not round-trip. */
  lemma HistoryRoundTrip(r: HistoryRecord, itemId: string)
    ensures RecordOf(HistoryFields(r, itemId)) == r.(id := itemId, isPartial := None)
    ensures IsPartial(r) ==> !IsPartial(RecordOf(HistoryFields(r, itemId)))
  {
  }

  /** saveHistory: appends one item, or fails leaving the list as it was. */
  function SaveHistory(items: seq<HistoryItem>, r: HistoryRecord, itemId: string, ok: bool): (res: Result<seq<HistoryItem>>)
    ensures res.Success? <==> ok
    ensures res.Success? ==> res.value == items + [HistoryFields(r, itemId)]
  {
    if ok then Success(items + [HistoryFields(r, itemId)]) else Failure("Erro ao gravar na lista Historico_checklist_web")
  }

  predicate OfCell(item: HistoryItem, email: string) { item.celula == Some(email) }

  function CellOf(email: string): HistoryItem -> bool {
    (it: HistoryItem) => OfCell(it, email)
  }

  lemma CellItems(items: seq<HistoryItem>, email: string)
    ensures forall it :: it in Filter(items, CellOf(email)) <==> it in items && OfCell(it, email)
  {
    forall it ensures it in Filter(items, CellOf(email)) <==> it in items && OfCell(it, email) {
      assert CellOf(email)(it) == OfCell(it, email);
    }
  }

  /** getHistory: one record per item whose Celula is the user's e-mail, and
      nothing else; an empty list when the remote call fails. No record read
      this way is partial. */
  function GetHistory(fetched: Result<seq<HistoryItem>>, email: string): (h: seq<HistoryRecord>)
    ensures fetched.Failure? ==> h == []
    ensures forall r :: r in h ==> !IsPartial(r)
    ensures fetched.Success? ==> forall it :: it in fetched.value && OfCell(it, email) ==> RecordOf(it) in h
    ensures fetched.Success? ==> forall r :: r in h ==>
      exists it :: it in fetched.value && OfCell(it, email) && r == RecordOf(it)
    ensures fetched.Success? ==> |h| == |Filter(fetched.value, CellOf(email))|
  {
    match fetched
    case Failure(_) => []
    case Success(items) =>
      var mine := Filter(items, CellOf(email));
      CellItems(items, email);
      var h := seq(|mine|, i requires 0 <= i < |mine| => RecordOf(mine[i]));
      assert forall it :: it in mine ==> RecordOf(it) in h by {
        forall it | it in mine ensures RecordOf(it) in h {
          var i :| 0 <= i < |mine| && mine[i] == it;
          assert h[i] == RecordOf(it);
        }
      }
      assert forall r :: r in h ==> exists it :: it in mine && r == RecordOf(it) by {
        forall r | r in h ensures exists it :: it in mine && r == RecordOf(it) {
          var i :| 0 <= i < |h| && h[i] == r;
          assert mine[i] in mine;
        }
      }
      h
  }

  // Corrected history mapping: the partial flag is written to its own field and read back.

  function HistoryFieldsKeepingPartial(r: HistoryRecord, itemId: string): (item: HistoryItem)
    ensures item.parcial == r.isPartial
  {
    HistoryItem(itemId, r.resetBy, r.timestamp, r.tasks, r.email, r.isPartial)
  }

  function RecordKeepingPartial(item: HistoryItem): (r: HistoryRecord)
    ensures r.isPartial == item.parcial
  {
    HistoryRecord(item.itemId, item.data, item.dadosJson, item.title, item.celula, item.parcial)
  }

  /** With the flag stored, a saved record reads back whole except for its id. */
  lemma CorrectedHistoryRoundTrip(r: HistoryRecord, itemId: string)
    ensures RecordKeepingPartial(HistoryFieldsKeepingPartial(r, itemId)) == r.(id := itemId)
  {
  }

  function GetHistoryKeepingPartial(fetched: Result<seq<HistoryItem>>, email: string): (h: seq<HistoryRecord>)
    ensures fetched.Failure? ==> h == []
    ensures fetched.Success? ==> forall it :: it in fetched.value && OfCell(it, email) ==> RecordKeepingPartial(it) in h
    ensures fetched.Success? ==> forall r :: r in h ==>
      exists it :: it in fetched.value && OfCell(it, email) && r == RecordKeepingPartial(it)
    ensures fetched.Success? ==> |h| == |Filter(fetched.value, CellOf(email))|
  {
    match fetched
    case Failure(_) => []
    case Success(items) =>
      var mine := Filter(items, CellOf(email));
      CellItems(items, email);
      var h := seq(|mine|, i requires 0 <= i < |mine| => RecordKeepingPartial(mine[i]));
      assert forall it :: it in mine ==> RecordKeepingPartial(it) in h by {
        forall it | it in mine ensures RecordKeepingPartial(it) in h {
          var i :| 0 <= i < |mine| && mine[i] == it;
          assert h[i] == RecordKeepingPartial(it);
        }
      }
      assert forall r :: r in h ==> exists it :: it in mine && r == RecordKeepingPartial(it) by {
        forall r | r in h ensures exists it :: it in mine && r == RecordKeepingPartial(it) {
          var i :| 0 <= i < |h| && h[i] == r;
          assert mine[i] in mine;
        }
      }
      h
  }
}
