/** The records of the checklist application: task statuses, tasks with
    their per-location status map, the rows of the remote lists, history
    snapshots, customers and route departures. */
module Types {
  import opened Common

  /** The six checklist statuses. A cell with no recorded status reads as PR. */
  datatype Status = PR | OK | EA | AR | ATT | AT

  const AllStatuses: seq<Status> := [PR, OK, EA, AR, ATT, AT]

  /** Location key (an operation code such as "LAT-CWB") to status. */
  type Operations = map<string, Status>

  datatype Task = Task(
    id: string,
    timeRange: string,
    title: string,
    description: string,
    category: string,
    operations: Operations,
    createdAt: string,
    isDaily: bool,
    active: Option<bool>)

  datatype CustomerStatus = Lead | Ativo | Inativo

  datatype Customer = Customer(
    id: string,
    name: string,
    company: string,
    email: string,
    phone: string,
    status: CustomerStatus)

  datatype RouteDeparture = RouteDeparture(
    id: string,
    semana: string,
    rota: string,
    data: string,
    inicio: string,
    motorista: string,
    placa: string,
    saida: string,
    motivo: string,
    observacao: string,
    statusGeral: string,
    aviso: string,
    operacao: string,
    statusOp: string,
    tempo: string,
    createdAt: string)

  /** A row of the remote task list after defaulting. */
  datatype SPTask = SPTask(
    id: string,
    title: string,
    descricao: string,
    categoria: string,
    horario: string,
    ativa: bool,
    ordem: int)

  /** A row of the remote operations (locations) list. */
  datatype SPOperation = SPOperation(id: string, title: string, ordem: int, email: string)

  /** A row of the remote status list; `title` is the upsert key. */
  datatype SPStatus = SPStatus(
    id: Option<string>,
    dataReferencia: string,
    tarefaId: string,
    operacaoSigla: string,
    status: Status,
    usuario: string,
    title: string)

  datatype User = User(email: string, name: string, accessToken: Option<string>)

  datatype HistoryRecord = HistoryRecord(
    id: string,
    timestamp: string,
    tasks: seq<Task>,
    resetBy: Option<string>,
    email: Option<string>,
    isPartial: Option<bool>)

  const INITIAL_LOCATIONS: seq<string> := []
  const LOGISTICA_2_LOCATIONS: seq<string> := ["LAT-CWB", "LAT-SJP", "LAT-LDB", "LAT-MGA"]

  /** The status type has exactly the six listed values. */
  lemma StatusesAreSix()
    ensures |AllStatuses| == 6
    ensures forall i, j :: 0 <= i < j < |AllStatuses| ==> AllStatuses[i] != AllStatuses[j]
    ensures forall s: Status :: s in AllStatuses
  {
    forall s: Status ensures s in AllStatuses {
      match s
      case PR => assert AllStatuses[0] == s;
      case OK => assert AllStatuses[1] == s;
      case EA => assert AllStatuses[2] == s;
      case AR => assert AllStatuses[3] == s;
      case ATT => assert AllStatuses[4] == s;
      case AT => assert AllStatuses[5] == s;
    }
  }

  /** The status shown for a location: the recorded one, PR when absent. */
  function StatusOr(ops: Operations, loc: string): (s: Status)
    ensures loc !in ops ==> s == PR
    ensures loc in ops ==> s == ops[loc]
  {
    if loc in ops then ops[loc] else PR
  }

  /** Consumers treat a missing `isPartial` as "not partial". */
  predicate IsPartial(h: HistoryRecord) {
    h.isPartial == Some(true)
  }

  /** A task stays in the working set unless its flag is explicitly false. */
  predicate IsActive(t: Task) {
    t.active != Some(false)
  }

  /** The grouping key of a task: its category, "Geral" when empty. */
  function CategoryOf(t: Task): (c: string)
    ensures c != ""
    ensures t.category != "" ==> c == t.category
  {
    if t.category == "" then "Geral" else t.category
  }

  /** An operations map giving every listed location the same status, built
      location by location as the source's forEach/reduce does. */
  function UniformOps(locs: seq<string>, s: Status): (r: Operations)
    ensures r.Keys == set l | l in locs
    ensures forall l :: l in r ==> r[l] == s
  {
    if locs == [] then map[]
    else UniformOps(locs[..|locs| - 1], s)[locs[|locs| - 1] := s]
  }

  /** Every location any task has a cell for, each once. */
  function AllLocations(tasks: seq<Task>): (r: set<string>)
    ensures forall l :: l in r <==> exists t :: t in tasks && l in t.operations
  {
    if tasks == [] then {}
    else
      var n := |tasks| - 1;
      assert forall t :: t in tasks <==> t in tasks[..n] || t == tasks[n] by {
        assert tasks == tasks[..n] + [tasks[n]];
      }
      AllLocations(tasks[..n]) + tasks[n].operations.Keys
  }
}
