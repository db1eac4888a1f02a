/** The route-departure sheet: the week label of a date, adding a route from
    the form, importing parsed routes with defaults, and row edits. */
module Routes {
  import opened Common
  import opened Types

  const MONTH_NAMES: seq<string> := ["JAN", "FEV", "MAR", "ABR", "MAI", "JUN", "JUL", "AGO", "SET", "OUT", "NOV", "DEZ"]

  type Month = m: nat | m < 12
  type Day = d: nat | 1 <= d <= 31 witness 1
  /** 0 = Sunday, 1 = Monday, … as Date.getDay numbers them. */
  type Weekday = w: nat | w < 7

  /** What the date parser yields for a day: its month, day of month, and
      the weekday of the first of that month. */
  datatype CalendarDate = CalendarDate(month: Month, day: Day, firstWeekday: Weekday)

  /** Days of the first week before the 1st when weeks start on Monday. */
  function Offset(firstWeekday: Weekday): (adj: nat)
    ensures adj < 7
    ensures adj == (firstWeekday + 6) % 7
  {
    if firstWeekday == 0 then 6 else firstWeekday - 1
  }

  /** `Math.ceil((day + adj) / 7)`. */
  function WeekNumber(c: CalendarDate): (w: nat)
    ensures 1 <= w <= 6
    ensures (w - 1) * 7 < c.day + Offset(c.firstWeekday) <= w * 7
  {
    (c.day + Offset(c.firstWeekday) + 6) / 7
  }

  /** Weeks run Monday to Sunday: the next day has the same number unless
      this day is a Sunday, and then the number goes up by one. */
  lemma WeekAdvancesAfterSunday(m: Month, d: Day, f: Weekday)
    requires d < 31
    ensures var today := CalendarDate(m, d, f);
      var tomorrow := CalendarDate(m, d + 1, f);
      var sunday := (f + d - 1) % 7 == 0;
      (sunday ==> WeekNumber(tomorrow) == WeekNumber(today) + 1) && (!sunday ==> WeekNumber(tomorrow) == WeekNumber(today))
  {
  }

  function DigitChar(n: nat): char
    requires n < 10
  {
    ('0' as int + n) as char
  }

  /** calculateWeekString: "" for an empty date; otherwise month abbreviation,
      " S", week number. A date the parser rejects reads "undefined SNaN". */
  function WeekString(date: string, parsed: Option<CalendarDate>): (r: string)
    ensures date == "" <==> r == ""
    ensures date != "" && parsed.Some? ==>
      r == MONTH_NAMES[parsed.value.month] + " S" + [DigitChar(WeekNumber(parsed.value))]
    ensures date != "" && parsed.None? ==> r == "undefined SNaN"
  {
    if date == "" then ""
    else match parsed
      case None => "undefined SNaN"
      case Some(c) => MONTH_NAMES[c.month] + " S" + [DigitChar(WeekNumber(c))]
  }

  // ---------------------------------------------------------------------------
  // Adding routes
  // ---------------------------------------------------------------------------

  /** The new-route form. */
  datatype Form = Form(rota: string, data: string, inicio: string, motorista: string, placa: string,
                       operacao: string, statusOp: string, tempo: string, observacao: string)

  /** handleSubmit: exactly one route appended, the sheet's own columns
      initialised (departure 00:00:00, no reason, status OK, no warning). */
  function Submit(routes: seq<RouteDeparture>, form: Form, parsed: Option<CalendarDate>, id: string, now: string)
    : (r: seq<RouteDeparture>)
    ensures |r| == |routes| + 1 && r[..|routes|] == routes
    ensures var n := r[|routes|];
      && n.id == id && n.createdAt == now && n.semana == WeekString(form.data, parsed)
      && n.saida == "00:00:00" && n.motivo == "" && n.statusGeral == "OK" && n.aviso == "NÃO"
      && n.rota == form.rota && n.data == form.data && n.inicio == form.inicio && n.motorista == form.motorista
      && n.placa == form.placa && n.operacao == form.operacao && n.statusOp == form.statusOp
      && n.tempo == form.tempo && n.observacao == form.observacao
  {
    routes + [RouteDeparture(id, WeekString(form.data, parsed), form.rota, form.data, form.inicio, form.motorista,
                             form.placa, "00:00:00", "", form.observacao, "OK", "NÃO", form.operacao,
                             form.statusOp, form.tempo, now)]
  }

  /** A route as the text parser returns it: any field may be missing. */
  datatype Parsed = Parsed(semana: Option<string>, rota: Option<string>, data: Option<string>,
                           inicio: Option<string>, motorista: Option<string>, placa: Option<string>,
                           saida: Option<string>, motivo: Option<string>, observacao: Option<string>,
                           statusGeral: Option<string>, aviso: Option<string>, operacao: Option<string>,
                           statusOp: Option<string>, tempo: Option<string>)

  /** `x || d`: a missing or empty text gives the default. */
  function Or(x: Option<string>, d: string): (r: string)
    ensures x.Some? && x.value != "" ==> r == x.value
    ensures x.None? || x.value == "" ==> r == d
  {
    if x.Some? && x.value != "" then x.value else d
  }

  /** One imported route. Fields without a default stay empty when missing. */
  function FromParsed(p: Parsed, id: string, dateOf: string -> Option<CalendarDate>, now: string): (r: RouteDeparture)
    ensures r.saida != "" && r.statusGeral != "" && r.aviso != "" && r.statusOp != "" && r.tempo != ""
    ensures r.id == id && r.createdAt == now
    ensures p.semana.Some? && p.semana.value != "" ==> r.semana == p.semana.value
    ensures (p.semana.None? || p.semana.value == "") && Or(p.data, "") != "" ==> r.semana != ""
    ensures r.semana == Or(p.semana, WeekString(Or(p.data, ""), dateOf(Or(p.data, ""))))
    ensures r.saida == Or(p.saida, "00:00:00") && r.motivo == Or(p.motivo, "")
    ensures r.statusGeral == Or(p.statusGeral, "OK") && r.aviso == Or(p.aviso, "NÃO")
    ensures r.statusOp == Or(p.statusOp, "OK") && r.tempo == Or(p.tempo, "OK")
    ensures r.rota == Or(p.rota, "") && r.data == Or(p.data, "") && r.inicio == Or(p.inicio, "")
      && r.motorista == Or(p.motorista, "") && r.placa == Or(p.placa, "")
      && r.observacao == Or(p.observacao, "") && r.operacao == Or(p.operacao, "")
  {
    var data := Or(p.data, "");
    RouteDeparture(id, Or(p.semana, WeekString(data, dateOf(data))), Or(p.rota, ""), data, Or(p.inicio, ""),
                   Or(p.motorista, ""), Or(p.placa, ""), Or(p.saida, "00:00:00"), Or(p.motivo, ""),
                   Or(p.observacao, ""), Or(p.statusGeral, "OK"), Or(p.aviso, "NÃO"), Or(p.operacao, ""),
                   Or(p.statusOp, "OK"), Or(p.tempo, "OK"), now)
  }

  /** The parser returned the field, and not as "". */
  predicate Given(x: Option<string>) { x.Some? && x.value != "" }

  /** A route the parser returned complete is imported exactly as parsed:
      no default overrides a value that was given. */
  lemma FromParsedKeepsGiven(p: Parsed, id: string, dateOf: string -> Option<CalendarDate>, now: string)
    requires Given(p.semana) && Given(p.rota) && Given(p.data) && Given(p.inicio) && Given(p.motorista)
    requires Given(p.placa) && Given(p.saida) && Given(p.motivo) && Given(p.observacao) && Given(p.statusGeral)
    requires Given(p.aviso) && Given(p.operacao) && Given(p.statusOp) && Given(p.tempo)
    ensures FromParsed(p, id, dateOf, now) ==
      RouteDeparture(id, p.semana.value, p.rota.value, p.data.value, p.inicio.value, p.motorista.value,
                     p.placa.value, p.saida.value, p.motivo.value, p.observacao.value, p.statusGeral.value,
                     p.aviso.value, p.operacao.value, p.statusOp.value, p.tempo.value, now)
  {
  }

  /** handleImport: blank text or a parser error changes nothing; otherwise
      the parsed routes, defaulted, follow the existing ones. */
  function Import(routes: seq<RouteDeparture>, text: string, parsed: Result<seq<Parsed>>, idOf: nat -> string,
                  dateOf: string -> Option<CalendarDate>, now: string): (r: seq<RouteDeparture>)
    ensures IsBlank(text) || parsed.Failure? ==> r == routes
    ensures !IsBlank(text) && parsed.Success? ==>
      && |r| == |routes| + |parsed.value|
      && r[..|routes|] == routes
      && forall i :: 0 <= i < |parsed.value| ==> r[|routes| + i] == FromParsed(parsed.value[i], idOf(i), dateOf, now)
  {
    if Trim(text) == "" then routes
    else match parsed
      case Failure(_) => routes
      case Success(ps) =>
        routes + seq(|ps|, i requires 0 <= i < |ps| => FromParsed(ps[i], idOf(i), dateOf, now))
  }

  // ---------------------------------------------------------------------------
  // Row edits
  // ---------------------------------------------------------------------------

  predicate OtherId(id: string, r: RouteDeparture) { r.id != id }

  /** removeRow: every route with the id goes; the rest stay, in order. */
  function RemoveRow(routes: seq<RouteDeparture>, id: string): (r: seq<RouteDeparture>)
    ensures forall x :: x in r <==> x in routes && x.id != id
    ensures forall x: RouteDeparture :: x.id != id ==> multiset(r)[x] == multiset(routes)[x]
    ensures Subsequence(r, routes)
  {
    FilterCount(routes, (x: RouteDeparture) => OtherId(id, x));
    FilterIsSubsequence(routes, (x: RouteDeparture) => OtherId(id, x));
    Filter(routes, (x: RouteDeparture) => OtherId(id, x))
  }

  /** Removing an id no route has changes nothing. */
  lemma RemoveAbsentId(routes: seq<RouteDeparture>, id: string)
    requires forall i :: 0 <= i < |routes| ==> routes[i].id != id
    ensures RemoveRow(routes, id) == routes
  {
    FilterAll(routes, (x: RouteDeparture) => OtherId(id, x));
  }

  datatype Field =
    | Id | Semana | Rota | Data | Inicio | Motorista | Placa | Saida | Motivo | Observacao
    | StatusGeral | Aviso | Operacao | StatusOp | Tempo | CreatedAt

  function Get(r: RouteDeparture, f: Field): string {
    match f
    case Id => r.id
    case Semana => r.semana
    case Rota => r.rota
    case Data => r.data
    case Inicio => r.inicio
    case Motorista => r.motorista
    case Placa => r.placa
    case Saida => r.saida
    case Motivo => r.motivo
    case Observacao => r.observacao
    case StatusGeral => r.statusGeral
    case Aviso => r.aviso
    case Operacao => r.operacao
    case StatusOp => r.statusOp
    case Tempo => r.tempo
    case CreatedAt => r.createdAt
  }

  /** `{ ...r, [field]: value }`. */
  function With(r: RouteDeparture, f: Field, v: string): (s: RouteDeparture)
    ensures Get(s, f) == v
    ensures forall g :: g != f ==> Get(s, g) == Get(r, g)
  {
    match f
    case Id => r.(id := v)
    case Semana => r.(semana := v)
    case Rota => r.(rota := v)
    case Data => r.(data := v)
    case Inicio => r.(inicio := v)
    case Motorista => r.(motorista := v)
    case Placa => r.(placa := v)
    case Saida => r.(saida := v)
    case Motivo => r.(motivo := v)
    case Observacao => r.(observacao := v)
    case StatusGeral => r.(statusGeral := v)
    case Aviso => r.(aviso := v)
    case Operacao => r.(operacao := v)
    case StatusOp => r.(statusOp := v)
    case Tempo => r.(tempo := v)
    case CreatedAt => r.(createdAt := v)
  }

  /** Two routes agreeing on every field are the same route. */
  lemma FieldsDetermineRoute(a: RouteDeparture, b: RouteDeparture)
    requires forall f :: Get(a, f) == Get(b, f)
    ensures a == b
  {
    assert Get(a, Id) == Get(b, Id) && Get(a, Semana) == Get(b, Semana) && Get(a, Rota) == Get(b, Rota);
    assert Get(a, Data) == Get(b, Data) && Get(a, Inicio) == Get(b, Inicio) && Get(a, Motorista) == Get(b, Motorista);
    assert Get(a, Placa) == Get(b, Placa) && Get(a, Saida) == Get(b, Saida) && Get(a, Motivo) == Get(b, Motivo);
    assert Get(a, Observacao) == Get(b, Observacao) && Get(a, StatusGeral) == Get(b, StatusGeral);
    assert Get(a, Aviso) == Get(b, Aviso) && Get(a, Operacao) == Get(b, Operacao);
    assert Get(a, StatusOp) == Get(b, StatusOp) && Get(a, Tempo) == Get(b, Tempo);
    assert Get(a, CreatedAt) == Get(b, CreatedAt);
  }

  /** updateCell: the named field of every route with the id takes the value;
      nothing else changes. */
  function UpdateCell(routes: seq<RouteDeparture>, id: string, f: Field, v: string): (r: seq<RouteDeparture>)
    ensures |r| == |routes|
    ensures forall i :: 0 <= i < |r| && routes[i].id == id ==>
      Get(r[i], f) == v && forall g :: g != f ==> Get(r[i], g) == Get(routes[i], g)
    ensures forall i :: 0 <= i < |r| && routes[i].id != id ==> r[i] == routes[i]
  {
    seq(|routes|, i requires 0 <= i < |routes| => if routes[i].id == id then With(routes[i], f, v) else routes[i])
  }

  /** Writing back the value a field already has changes nothing. */
  lemma UpdateWithSameValue(routes: seq<RouteDeparture>, id: string, f: Field, v: string)
    requires forall i :: 0 <= i < |routes| && routes[i].id == id ==> Get(routes[i], f) == v
    ensures UpdateCell(routes, id, f, v) == routes
  {
    var r := UpdateCell(routes, id, f, v);
    forall i | 0 <= i < |r| ensures r[i] == routes[i] {
      if routes[i].id == id {
        FieldsDetermineRoute(r[i], routes[i]);
      }
    }
  }
}
