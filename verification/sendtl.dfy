/** The fuel-report form: building the webhook payload from the form and the
    selected truck and trailer, the guard against an unconfigured webhook
    address, and what a send does to the form. */
module SendTL {
  import opened Common

  /** The address shipped in the source: still the placeholder. */
  const WEBHOOK_URL := "SUA_URL_DO_POWER_AUTOMATE_AQUI"

  /** A truck or trailer row; every field but the plate may be missing. */
  datatype Vehicle = Vehicle(placa: string, equipamento: Option<string>,
                             boca1: Option<string>, boca2: Option<string>, boca3: Option<string>)

  datatype Form = Form(dateTime: string, routeId: string, truckPlate: string, trailerPlate: string,
                       litragem: string, sendEmail: bool)

  /** The JSON body sent to the webhook. `number` carries the litre text that
      the source converts with Number(). */
  datatype Payload = Payload(
    text: string, text1: string, text2: string, text3: string, number: string,
    text4: string, text5: string,
    text6: string, text7: string, text8: string,
    text9: string, text10: string, text11: string,
    boolean: bool)

  predicate HasPlate(plate: string, v: Vehicle) { v.placa == plate }

  /** `vehicles.find(v => v.Placa === plate)`. */
  function FindVehicle(vehicles: seq<Vehicle>, plate: string): (r: Option<Vehicle>)
    ensures r.None? <==> forall i :: 0 <= i < |vehicles| ==> vehicles[i].placa != plate
    ensures r.Some? ==> (exists i :: (0 <= i < |vehicles| && vehicles[i] == r.value && r.value.placa == plate
      && forall j :: 0 <= j < i ==> vehicles[j].placa != plate))
  {
    match FindIndex(vehicles, (v: Vehicle) => HasPlate(plate, v))
    case None => None
    case Some(i) => Some(vehicles[i])
  }

  /** `v?.field || d`: the default when the vehicle is absent or the field is missing or empty. */
  function FieldOr(v: Option<Vehicle>, field: Vehicle -> Option<string>, d: string): (r: string)
    ensures v.Some? && field(v.value).Some? && field(v.value).value != "" ==> r == field(v.value).value
    ensures v.None? || field(v.value).None? || field(v.value).value == "" ==> r == d
  {
    match v
    case None => d
    case Some(x) => if field(x).Some? && field(x).value != "" then field(x).value else d
  }

  function Equipamento(v: Vehicle): Option<string> { v.equipamento }
  function Boca1(v: Vehicle): Option<string> { v.boca1 }
  function Boca2(v: Vehicle): Option<string> { v.boca2 }
  function Boca3(v: Vehicle): Option<string> { v.boca3 }

  /** The payload: the form's texts verbatim, equipment "" and compartments
      "X" where the vehicle or its field is missing. */
  function BuildPayload(f: Form, trucks: seq<Vehicle>, trailers: seq<Vehicle>): (p: Payload)
    ensures p.text == f.dateTime && p.text1 == f.routeId && p.text2 == f.truckPlate && p.text3 == f.trailerPlate
    ensures p.number == f.litragem && p.boolean == f.sendEmail
    ensures FindVehicle(trucks, f.truckPlate).None? ==>
      p.text4 == "" && p.text6 == "X" && p.text7 == "X" && p.text8 == "X"
    ensures FindVehicle(trailers, f.trailerPlate).None? ==>
      p.text5 == "" && p.text9 == "X" && p.text10 == "X" && p.text11 == "X"
    ensures p.text6 != "" && p.text7 != "" && p.text8 != "" && p.text9 != "" && p.text10 != "" && p.text11 != ""
    ensures var truck := FindVehicle(trucks, f.truckPlate);
      && p.text4 == FieldOr(truck, Equipamento, "")
      && p.text6 == FieldOr(truck, Boca1, "X") && p.text7 == FieldOr(truck, Boca2, "X") && p.text8 == FieldOr(truck, Boca3, "X")
    ensures var trailer := FindVehicle(trailers, f.trailerPlate);
      && p.text5 == FieldOr(trailer, Equipamento, "")
      && p.text9 == FieldOr(trailer, Boca1, "X") && p.text10 == FieldOr(trailer, Boca2, "X") && p.text11 == FieldOr(trailer, Boca3, "X")
  {
    var truck := FindVehicle(trucks, f.truckPlate);
    var trailer := FindVehicle(trailers, f.trailerPlate);
    Payload(f.dateTime, f.routeId, f.truckPlate, f.trailerPlate, f.litragem,
            FieldOr(truck, Equipamento, ""), FieldOr(trailer, Equipamento, ""),
            FieldOr(truck, Boca1, "X"), FieldOr(truck, Boca2, "X"), FieldOr(truck, Boca3, "X"),
            FieldOr(trailer, Boca1, "X"), FieldOr(trailer, Boca2, "X"), FieldOr(trailer, Boca3, "X"),
            f.sendEmail)
  }

  /** The first truck with the form's plate supplies the equipment and the
      compartments, whenever it has them. */
  lemma PayloadCarriesTruck(f: Form, trucks: seq<Vehicle>, trailers: seq<Vehicle>, i: nat)
    requires i < |trucks| && trucks[i].placa == f.truckPlate
    requires forall j :: 0 <= j < i ==> trucks[j].placa != f.truckPlate
    requires trucks[i].equipamento.Some? && trucks[i].equipamento.value != ""
    requires trucks[i].boca1.Some? && trucks[i].boca1.value != ""
    requires trucks[i].boca2.Some? && trucks[i].boca2.value != ""
    requires trucks[i].boca3.Some? && trucks[i].boca3.value != ""
    ensures var p := BuildPayload(f, trucks, trailers);
      && p.text4 == trucks[i].equipamento.value
      && p.text6 == trucks[i].boca1.value && p.text7 == trucks[i].boca2.value && p.text8 == trucks[i].boca3.value
  {
    var t := FindVehicle(trucks, f.truckPlate);
    var k :| 0 <= k < |trucks| && trucks[k] == t.value && t.value.placa == f.truckPlate
      && forall j :: 0 <= j < k ==> trucks[j].placa != f.truckPlate;
    if k < i {
      assert false;
    } else if i < k {
      assert false;
    }
  }

  /** How the POST ended: a 2xx answer, another status, or no answer. */
  datatype Response = Accepted | Rejected | Unreachable

  /** After a submit: refused by the guard, or sent, with the form and the
      success/error flags that follow. */
  datatype Submitted =
    | Refused
    | Sent(payload: Payload, form: Form, success: bool, error: Option<string>)

  /** handleSubmit with the webhook address as a parameter; `success` is the
      flag as it stood before the submit. A failed send sets the error and
      leaves the flag alone. */
  function Submit(url: string, f: Form, trucks: seq<Vehicle>, trailers: seq<Vehicle>, response: Response,
                  success: bool): (r: Submitted)
    ensures Contains(url, "SUA_URL") <==> r.Refused?
    ensures r.Sent? ==> r.payload == BuildPayload(f, trucks, trailers)
    ensures r.Sent? && response == Accepted ==> r.success && r.error.None? && r.form == f.(litragem := "")
    ensures r.Sent? && response != Accepted ==> r.success == success && r.error.Some? && r.form == f
  {
    if Contains(url, "SUA_URL") then Refused
    else
      var p := BuildPayload(f, trucks, trailers);
      if response == Accepted then Sent(p, f.(litragem := ""), true, None)
      else Sent(p, f, success, Some("Falha ao enviar dados. Verifique a URL do Webhook."))
  }

  /** With the address as shipped, every submit is refused. */
  lemma ShippedAddressAlwaysRefused(f: Form, trucks: seq<Vehicle>, trailers: seq<Vehicle>, response: Response,
                                    success: bool)
    ensures Submit(WEBHOOK_URL, f, trucks, trailers, response, success) == Refused
  {
    assert OccursAt(WEBHOOK_URL, "SUA_URL", 0);
  }
}
