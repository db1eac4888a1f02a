/** The customer list: adding a customer from the form and deleting by id,
    each persisted to the browser store. */
module Customers {
  import opened Common
  import opened Types
  import Storage

  datatype CustomerForm = CustomerForm(name: string, company: string, email: string, phone: string, status: CustomerStatus)

  const EMPTY_FORM := CustomerForm("", "", "", "", Lead)

  /** The screen's state: the list shown, the form, whether the form is open. */
  datatype View = View(customers: seq<Customer>, form: CustomerForm, formOpen: bool)

  /** The view after an action and the store it was written to. */
  datatype Saved = Saved(view: View, store: Storage.Store)

  /** handleSave: nothing happens without a name; otherwise the customer is
      appended (with the clock's id), the list is stored, and the form closes
      and resets. */
  function Save(v: View, store: Storage.Store, id: string): (r: Saved)
    ensures v.form.name == "" ==> r == Saved(v, store)
    ensures v.form.name != "" ==>
      && |r.view.customers| == |v.customers| + 1
      && r.view.customers[..|v.customers|] == v.customers
      && r.view.customers[|v.customers|] ==
           Customer(id, v.form.name, v.form.company, v.form.email, v.form.phone, v.form.status)
      && r.view.form == EMPTY_FORM && !r.view.formOpen
      && Storage.GetCustomers(r.store) == r.view.customers
  {
    if v.form.name == "" then Saved(v, store)
    else
      var f := v.form;
      var updated := v.customers + [Customer(id, f.name, f.company, f.email, f.phone, f.status)];
      Storage.SaveThenGetCustomers(store, updated);
      Saved(View(updated, EMPTY_FORM, false), Storage.SaveCustomers(store, updated))
  }

  predicate OtherId(id: string, c: Customer) { c.id != id }

  /** handleDelete: once confirmed, every customer with the id goes, the rest
      stay in order, and the list is stored. */
  function Delete(v: View, store: Storage.Store, id: string, confirmed: bool): (r: Saved)
    ensures !confirmed ==> r == Saved(v, store)
    ensures confirmed ==>
      && (forall c :: c in r.view.customers <==> c in v.customers && c.id != id)
      && (forall c: Customer :: c.id != id ==> multiset(r.view.customers)[c] == multiset(v.customers)[c])
      && Subsequence(r.view.customers, v.customers)
      && r.view.form == v.form && r.view.formOpen == v.formOpen
      && Storage.GetCustomers(r.store) == r.view.customers
  {
    if !confirmed then Saved(v, store)
    else
      var updated := Filter(v.customers, (c: Customer) => OtherId(id, c));
      FilterCount(v.customers, (c: Customer) => OtherId(id, c));
      FilterIsSubsequence(v.customers, (c: Customer) => OtherId(id, c));
      Storage.SaveThenGetCustomers(store, updated);
      Saved(v.(customers := updated), Storage.SaveCustomers(store, updated))
  }

  /** Deleting the customer just added gives back the list from before,
      when the new id was not in use. */
  lemma DeleteUndoesSave(v: View, store: Storage.Store, id: string)
    requires v.form.name != ""
    requires forall i :: 0 <= i < |v.customers| ==> v.customers[i].id != id
    ensures Delete(Save(v, store, id).view, store, id, true).view.customers == v.customers
  {
    var f := v.form;
    var added := Customer(id, f.name, f.company, f.email, f.phone, f.status);
    var p := (c: Customer) => OtherId(id, c);
    FilterSnoc(v.customers, added, p);
    FilterAll(v.customers, p);
  }
}
