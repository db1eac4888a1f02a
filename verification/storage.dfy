/** The browser-side store: one key-value map shared by all users of the
    browser, partitioned by a per-user key prefix derived from the signed-in
    email, with default seeding for locations and tasks. JSON encoding is an
    identity here: a stored list reads back as the list written. */
module Storage {
  import opened Common
  import opened Types

  const BASE_TASKS_KEY := "crm_logistics_tasks_v3"
  const BASE_LOCATIONS_KEY := "crm_logistics_locations_v1"
  const BASE_CUSTOMERS_KEY := "crm_logistics_customers_v1"
  const BASE_HISTORY_KEY := "crm_logistics_history_v1"
  const BASE_DEPARTURES_KEY := "crm_logistics_departures_v1"
  const SESSION_USER_KEY := "crm_active_user_session"

  /** The two spellings of the second logistics account that get its four locations. */
  const LOGISTICA_2_EMAIL := "cco.logistica2@viagroup.com.br"
  const LOGISTICA_2_EMAIL_NO_AT := "cco.logistica2viagroup.com.br"

  datatype Stored =
    | SessionEmail(email: string)
    | LocationList(locations: seq<string>)
    | TaskList(tasks: seq<Task>)
    | CustomerList(customers: seq<Customer>)
    | HistoryList(records: seq<HistoryRecord>)
    | DepartureList(departures: seq<RouteDeparture>)

  type Store = map<string, Stored>

  /** A read that may seed the store: the value returned and the store after. */
  datatype Got<T> = Got(value: T, store: Store)

  // ---------------------------------------------------------------------------
  // Session and keys
  // ---------------------------------------------------------------------------

  function CurrentUser(store: Store): Option<string> {
    if SESSION_USER_KEY in store && store[SESSION_USER_KEY].SessionEmail? then Some(store[SESSION_USER_KEY].email)
    else None
  }

  /** setCurrentUser: a non-empty email is remembered; null or "" signs out. */
  function SetCurrentUser(store: Store, email: Option<string>): (r: Store)
    ensures email.Some? && email.value != "" ==> CurrentUser(r) == email
    ensures email.None? || email.value == "" ==> CurrentUser(r).None? && SESSION_USER_KEY !in r
    ensures forall k :: k != SESSION_USER_KEY ==> (k in r <==> k in store) && (k in r ==> r[k] == store[k])
  {
    if email.Some? && email.value != "" then store[SESSION_USER_KEY := SessionEmail(email.value)]
    else store - {SESSION_USER_KEY}
  }

  function SafeChar(c: char): char {
    if IsAlnumAscii(c) then c else '_'
  }

  /** `email.replace(/[^a-zA-Z0-9]/g, '_')`. */
  function Sanitize(email: string): (r: string)
    ensures |r| == |email|
    ensures forall i :: 0 <= i < |r| ==> (IsAlnumAscii(email[i]) ==> r[i] == email[i]) && (!IsAlnumAscii(email[i]) ==> r[i] == '_')
    ensures forall i :: 0 <= i < |r| ==> IsAlnumAscii(r[i]) || r[i] == '_'
  {
    if email == [] then [] else [SafeChar(email[0])] + Sanitize(email[1..])
  }

  /** Two emails that differ only in which punctuation they use share one
      prefix, and so share all stored data. */
  lemma SanitizeMergesPunctuation()
    ensures Sanitize("a.b@x") == Sanitize("a_b-x")
  {
  }

  /** getKey: `guest_` + base when nobody is signed in, else the sanitised
      email, `_`, base. */
  function GetKey(store: Store, base: string): (k: string)
    ensures CurrentUser(store).None? || CurrentUser(store).value == "" ==> k == "guest_" + base
    ensures CurrentUser(store).Some? && CurrentUser(store).value != "" ==>
      k == Sanitize(CurrentUser(store).value) + "_" + base
  {
    match CurrentUser(store)
    case None => "guest_" + base
    case Some(e) => if e == "" then "guest_" + base else Sanitize(e) + "_" + base
  }

  /** A data key never collides with the session key, and distinct bases give
      distinct keys for the same user. */
  lemma KeysDisjoint(store: Store, b1: string, b2: string)
    requires |b1| + 2 > |SESSION_USER_KEY|
    ensures GetKey(store, b1) != SESSION_USER_KEY
    ensures GetKey(store, b1) == GetKey(store, b2) ==> b1 == b2
  {
    var k1, k2 := GetKey(store, b1), GetKey(store, b2);
    if k1 == k2 {
      var p := |k1| - |b1|;
      assert k1[p..] == b1;
      assert k2[|k2| - |b2|..] == b2;
    }
  }

  // ---------------------------------------------------------------------------
  // Locations
  // ---------------------------------------------------------------------------

  function StoredLocations(store: Store): Option<seq<string>> {
    var k := GetKey(store, BASE_LOCATIONS_KEY);
    if k in store && store[k].LocationList? then Some(store[k].locations) else None
  }

  predicate IsLogistica2(user: Option<string>) {
    user == Some(LOGISTICA_2_EMAIL) || user == Some(LOGISTICA_2_EMAIL_NO_AT)
  }

  /** The locations a new account starts with: the four LAT locations for
      the second logistics account, none otherwise. */
  function DefaultLocations(user: Option<string>): seq<string> {
    if IsLogistica2(user) then LOGISTICA_2_LOCATIONS else INITIAL_LOCATIONS
  }

  /** Writing a data key keeps the signed-in user, hence every key. */
  lemma WriteKeepsUser(store: Store, base: string, v: Stored)
    requires |base| + 2 > |SESSION_USER_KEY|
    ensures CurrentUser(store[GetKey(store, base) := v]) == CurrentUser(store)
  {
    KeysDisjoint(store, base, base);
  }

  /** getLocations: the stored list, or else the account's default list,
      which is then stored. */
  function GetLocations(store: Store): (r: Got<seq<string>>)
    ensures StoredLocations(store).Some? ==> r == Got(StoredLocations(store).value, store)
    ensures StoredLocations(store).None? ==>
      && r.value == DefaultLocations(CurrentUser(store))
      && StoredLocations(r.store) == Some(r.value)
    ensures CurrentUser(r.store) == CurrentUser(store)
  {
    match StoredLocations(store)
    case Some(l) => Got(l, store)
    case None =>
      var initial := DefaultLocations(CurrentUser(store));
      var k := GetKey(store, BASE_LOCATIONS_KEY);
      var after := store[k := LocationList(initial)];
      WriteKeepsUser(store, BASE_LOCATIONS_KEY, LocationList(initial));
      assert GetKey(after, BASE_LOCATIONS_KEY) == k;
      Got(initial, after)
  }

  function SaveLocations(store: Store, locations: seq<string>): (r: Store)
    ensures CurrentUser(r) == CurrentUser(store)
  {
    KeysDisjoint(store, BASE_LOCATIONS_KEY, BASE_LOCATIONS_KEY);
    store[GetKey(store, BASE_LOCATIONS_KEY) := LocationList(locations)]
  }

  /** Seeding happens once: reading again returns the same list and writes nothing. */
  lemma GetLocationsSettles(store: Store)
    ensures var g := GetLocations(store); GetLocations(g.store) == Got(g.value, g.store)
  {
  }

  lemma SaveThenGetLocations(store: Store, locations: seq<string>)
    ensures GetLocations(SaveLocations(store, locations)).value == locations
  {
  }

  // ---------------------------------------------------------------------------
  // Tasks
  // ---------------------------------------------------------------------------

  /** initOps: every given location mapped to the given status (PR by default). */
  function InitOps(locations: seq<string>, status: Status := PR): (ops: Operations)
    ensures ops.Keys == set l | l in locations
    ensures forall l :: l in ops ==> ops[l] == status
  {
    UniformOps(locations, status)
  }

  /** One default task: id, time range, title, description, category. */
  datatype Seed = Seed(id: string, timeRange: string, title: string, description: string, category: string)

  const ORG := "ORGANIZAÇÃO PARA O PRÓXIMO DIA"
  const PREVIOUS_DAY := "ANÁLISE E VERIFICAÇÕES DE ROTAS DO DIA ANTERIOR"
  const FOLLOW_UP := "ACOMPANHAMENTO DE SAÍDAS E NÃO COLETAS DO DIA ANTERIOR"

  const SEEDS: seq<Seed> := [
    Seed("1", "22:00h - 00:00h", "Acompanhamento de rotas que ainda não saíram",
         "Preenchimento da planilha com início das rotas, motivos de atraso e data inicio manual", ORG),
    Seed("2", "22:00h - 00:00h", "Atualização do resumo de saídas",
         "Assim que todas as rotas do dia saírem, enviar atualização do resumo de saídas", ORG),
    Seed("3", "22:00h - 00:00h", "Enviar saídas do dia anterior para o histórico",
         "Verificar todas as informações da planilha, enviar para o histórico de saída", ORG),
    Seed("4", "22:00h - 00:00h", "Organizar escala na planilha de saídas",
         "Preencher o checklist com as informações das escalas compartilhadas", ORG),
    Seed("5", "00:00h - 01:00h", "Comparativo de rotas",
         "Após montar a planilha do checklist, realizar uma comparação da quantidade e quais rotas estão rodando pelo KMM, escala da filial e aplicativos de terceiros",
         ORG),
    Seed("6", "01:00h - 03:00h", "Análise de não coletas do dia anterior (APÓS VALIDAÇÃO SMART)",
         "Verificação de não coletas do dia anterior pelo sistema e apps de terceiros.", PREVIOUS_DAY),
    Seed("7", "01:00h - 06:00h", "Realizar envio de não coletas no grupo Report",
         "Enviar informações no Report e aguardar retorno na parte da manhã", PREVIOUS_DAY),
    Seed("8", "01:00h - 12:00h", "Acompanhamento das saídas",
         "Realizar acompanhamento das saídas, preenchimento das planilhas e cobrança quando houver atrasos ou adiantamentos",
         FOLLOW_UP),
    Seed("14", "10:00h", "Troca de turno", "Troca de informações entre os dois turnos", FOLLOW_UP),
    Seed("17", "12:00h - 18:30h", "Análise de não coletas",
         "Verificação de não coletas pelo sistema e apps de terceiros", "ACOMPANHAMENTO DIÁRIO")
  ]

  /** The default tasks, every cell PR over the given locations. */
  function InitialTasks(locations: seq<string>, now: string): (r: seq<Task>)
    ensures |r| == |SEEDS|
    ensures forall i :: 0 <= i < |r| ==> r[i].id == SEEDS[i].id && r[i].category == SEEDS[i].category
    ensures forall i :: 0 <= i < |r| ==>
      r[i].operations == InitOps(locations) && r[i].isDaily && r[i].createdAt == now && IsActive(r[i])
  {
    seq(|SEEDS|, i requires 0 <= i < |SEEDS| =>
      var d := SEEDS[i];
      Task(d.id, d.timeRange, d.title, d.description, d.category, InitOps(locations), now, true, None))
  }

  /** Ten defaults, with distinct ids, none uncategorised. */
  lemma SeedsWellFormed()
    ensures |SEEDS| == 10
    ensures forall i, j :: 0 <= i < j < |SEEDS| ==> SEEDS[i].id != SEEDS[j].id
    ensures forall i :: 0 <= i < |SEEDS| ==> SEEDS[i].category != ""
  {
  }

  function StoredTasks(store: Store): Option<seq<Task>> {
    var k := GetKey(store, BASE_TASKS_KEY);
    if k in store && store[k].TaskList? then Some(store[k].tasks) else None
  }

  /** getTasks: the stored tasks, or else the defaults over the account's
      locations (reading, and possibly seeding, those first), which are then stored. */
  function GetTasks(store: Store, now: string): (r: Got<seq<Task>>)
    ensures StoredTasks(store).Some? ==> r == Got(StoredTasks(store).value, store)
    ensures StoredTasks(store).None? ==>
      && r.value == InitialTasks(GetLocations(store).value, now)
      && StoredTasks(r.store) == Some(r.value)
      && StoredLocations(r.store) == Some(GetLocations(store).value)
  {
    match StoredTasks(store)
    case Some(t) => Got(t, store)
    case None =>
      var g := GetLocations(store);
      var initial := InitialTasks(g.value, now);
      KeysDisjoint(store, BASE_TASKS_KEY, BASE_LOCATIONS_KEY);
      KeysDisjoint(store, BASE_TASKS_KEY, BASE_TASKS_KEY);
      assert GetKey(g.store, BASE_TASKS_KEY) == GetKey(store, BASE_TASKS_KEY);
      Got(initial, g.store[GetKey(g.store, BASE_TASKS_KEY) := TaskList(initial)])
  }

  function SaveTasks(store: Store, tasks: seq<Task>): (r: Store)
    ensures CurrentUser(r) == CurrentUser(store)
  {
    KeysDisjoint(store, BASE_TASKS_KEY, BASE_TASKS_KEY);
    store[GetKey(store, BASE_TASKS_KEY) := TaskList(tasks)]
  }

  lemma SaveThenGetTasks(store: Store, tasks: seq<Task>, now: string)
    ensures GetTasks(SaveTasks(store, tasks), now) == Got(tasks, SaveTasks(store, tasks))
  {
  }

  /** A freshly seeded account's tasks have a PR cell for exactly its locations. */
  lemma SeededTasksCoverLocations(store: Store, now: string)
    requires StoredTasks(store).None?
    ensures var locs := GetLocations(store).value;
      forall t :: t in GetTasks(store, now).value ==>
        t.operations.Keys == (set l | l in locs) && forall l :: l in t.operations ==> t.operations[l] == PR
  {
    var locs := GetLocations(store).value;
    var ts := GetTasks(store, now).value;
    forall t | t in ts
      ensures t.operations.Keys == (set l | l in locs) && forall l :: l in t.operations ==> t.operations[l] == PR
    {
      var i :| 0 <= i < |ts| && ts[i] == t;
    }
  }

  // ---------------------------------------------------------------------------
  // Customers, history, departures
  // ---------------------------------------------------------------------------

  function GetCustomers(store: Store): (r: seq<Customer>)
    ensures var k := GetKey(store, BASE_CUSTOMERS_KEY);
      !(k in store && store[k].CustomerList?) ==> r == []
    ensures var k := GetKey(store, BASE_CUSTOMERS_KEY);
      k in store && store[k].CustomerList? ==> r == store[k].customers
  {
    var k := GetKey(store, BASE_CUSTOMERS_KEY);
    if k in store && store[k].CustomerList? then store[k].customers else []
  }

  function SaveCustomers(store: Store, customers: seq<Customer>): (r: Store)
    ensures CurrentUser(r) == CurrentUser(store)
  {
    KeysDisjoint(store, BASE_CUSTOMERS_KEY, BASE_CUSTOMERS_KEY);
    store[GetKey(store, BASE_CUSTOMERS_KEY) := CustomerList(customers)]
  }

  lemma SaveThenGetCustomers(store: Store, customers: seq<Customer>)
    ensures GetCustomers(SaveCustomers(store, customers)) == customers
  {
  }

  function GetHistory(store: Store): (r: seq<HistoryRecord>)
    ensures var k := GetKey(store, BASE_HISTORY_KEY);
      !(k in store && store[k].HistoryList?) ==> r == []
    ensures var k := GetKey(store, BASE_HISTORY_KEY);
      k in store && store[k].HistoryList? ==> r == store[k].records
  {
    var k := GetKey(store, BASE_HISTORY_KEY);
    if k in store && store[k].HistoryList? then store[k].records else []
  }

  function SaveHistory(store: Store, history: seq<HistoryRecord>): (r: Store)
    ensures CurrentUser(r) == CurrentUser(store)
  {
    KeysDisjoint(store, BASE_HISTORY_KEY, BASE_HISTORY_KEY);
    store[GetKey(store, BASE_HISTORY_KEY) := HistoryList(history)]
  }

  lemma SaveThenGetHistory(store: Store, history: seq<HistoryRecord>)
    ensures GetHistory(SaveHistory(store, history)) == history
  {
  }

  /** addToHistory: a new record (responsible "Desconhecido" when blank)
      goes in front of the stored history. `id` and `now` stand for the clock. */
  function AddToHistory(store: Store, tasks: seq<Task>, resetBy: string, id: string, now: string): (r: Store)
    ensures var h := GetHistory(r);
      && |h| == |GetHistory(store)| + 1
      && h[1..] == GetHistory(store)
      && h[0].tasks == tasks && h[0].id == id && h[0].timestamp == now
      && h[0].resetBy == Some(if resetBy == "" then "Desconhecido" else resetBy)
      && !IsPartial(h[0])
    ensures CurrentUser(r) == CurrentUser(store)
  {
    var record := HistoryRecord(id, now, tasks, Some(if resetBy == "" then "Desconhecido" else resetBy), None, None);
    SaveHistory(store, [record] + GetHistory(store))
  }

  function GetDepartures(store: Store): (r: seq<RouteDeparture>)
    ensures var k := GetKey(store, BASE_DEPARTURES_KEY);
      !(k in store && store[k].DepartureList?) ==> r == []
    ensures var k := GetKey(store, BASE_DEPARTURES_KEY);
      k in store && store[k].DepartureList? ==> r == store[k].departures
  {
    var k := GetKey(store, BASE_DEPARTURES_KEY);
    if k in store && store[k].DepartureList? then store[k].departures else []
  }

  function SaveDepartures(store: Store, departures: seq<RouteDeparture>): (r: Store)
    ensures CurrentUser(r) == CurrentUser(store)
  {
    KeysDisjoint(store, BASE_DEPARTURES_KEY, BASE_DEPARTURES_KEY);
    store[GetKey(store, BASE_DEPARTURES_KEY) := DepartureList(departures)]
  }

  lemma SaveThenGetDepartures(store: Store, departures: seq<RouteDeparture>)
    ensures GetDepartures(SaveDepartures(store, departures)) == departures
  {
  }

  /** Writing one list leaves the others as they read before. */
  lemma SavesAreIndependent(store: Store, tasks: seq<Task>, now: string)
    ensures var s := SaveTasks(store, tasks);
      && GetCustomers(s) == GetCustomers(store)
      && GetHistory(s) == GetHistory(store)
      && GetDepartures(s) == GetDepartures(store)
      && StoredLocations(s) == StoredLocations(store)
  {
    KeysDisjoint(store, BASE_TASKS_KEY, BASE_CUSTOMERS_KEY);
    KeysDisjoint(store, BASE_TASKS_KEY, BASE_HISTORY_KEY);
    KeysDisjoint(store, BASE_TASKS_KEY, BASE_DEPARTURES_KEY);
    KeysDisjoint(store, BASE_TASKS_KEY, BASE_LOCATIONS_KEY);
  }
}
