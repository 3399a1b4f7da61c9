/** The add/edit subscription form (subscription-form.js): the five field checks of
    validateForm, the six-field payload, and the add, update and delete requests it sends
    through the simulated endpoint. A request that throws leaves the list as it was (the
    page only shows the message). */
module SubscriptionForm {
  import opened Text
  import opened Js
  import opened Ajax

  /** The values of the form's inputs, as the page reads them (`.value` is always a string). */
  datatype Fields = Fields(
    serviceName: string,
    amount: string,
    billingCycle: string,
    startDate: string,
    category: string,
    notes: string)

  /** The text of the error element next to each checked field; '' when clear. */
  datatype Messages = Messages(
    serviceName: string,
    amount: string,
    billingCycle: string,
    startDate: string,
    category: string)

  datatype Validation = Validation(valid: bool, messages: Messages)

  /** `!amount.value || amount.value <= 0` fails the amount; the comparison converts the
      text with Number(), so text that is not a number at all compares false and passes. */
  predicate AmountAccepted(amount: string) {
    amount != "" && !Le(StringToNumber(amount), Fin(0.0))
  }

  /** validateForm: every message is cleared, then all five checks run and each failing one
      writes its own message; the form is valid when none failed. */
  function Validate(f: Fields): (v: Validation)
    ensures v.valid <==> (!IsBlank(f.serviceName) && AmountAccepted(f.amount)
                          && f.billingCycle != "" && f.startDate != "" && f.category != "")
    ensures v.messages.serviceName != "" <==> IsBlank(f.serviceName)
    ensures v.messages.amount != "" <==> !AmountAccepted(f.amount)
    ensures v.messages.billingCycle != "" <==> f.billingCycle == ""
    ensures v.messages.startDate != "" <==> f.startDate == ""
    ensures v.messages.category != "" <==> f.category == ""
  {
    var m := Messages(
      if IsBlank(f.serviceName) then "Service name is required" else "",
      if !AmountAccepted(f.amount) then "Please enter a valid amount" else "",
      if f.billingCycle == "" then "Please select a billing cycle" else "",
      if f.startDate == "" then "Start date is required" else "",
      if f.category == "" then "Please select a category" else "");
    Validation(m.serviceName == "" && m.amount == "" && m.billingCycle == "" && m.startDate == "" && m.category == "", m)
  }

  /** The form is valid exactly when no error message is shown. */
  lemma ValidIffNoMessages(f: Fields)
    ensures Validate(f).valid <==> Validate(f).messages == Messages("", "", "", "", "")
  {}

  /** An amount written in digits is accepted exactly when its value is not zero. */
  lemma DigitAmount(amount: string)
    requires |amount| > 0 && forall i :: 0 <= i < |amount| ==> IsDigit(amount[i])
    ensures AmountAccepted(amount) <==> DigitsValue(amount) > 0
  {
    DigitsParse(amount);
  }

  /** A zero amount is refused. */
  lemma ZeroAmountRefused()
    ensures !AmountAccepted("0")
  {
    var zero := "0";
    DigitAmount(zero);
    assert zero[..0] == [];
  }

  /** An amount of whitespace only is refused too: Number of blank text is 0. */
  lemma BlankAmountRefused(amount: string)
    requires forall i :: 0 <= i < |amount| ==> IsJsWhitespace(amount[i])
    ensures !AmountAccepted(amount)
  {
    BlankIffAllWhitespace(amount);
  }

  /** Text that is not a number passes the amount check, because `NaN <= 0` is false. */
  lemma NonNumericAmountAccepted()
    ensures AmountAccepted("abc")
  {
    assert TrimStart("abc") == "abc";
    assert TrimEnd("abc") == "abc";
    assert CountDigits("abc") == 0;
  }

  /** A service name of spaces only is refused. */
  lemma SpacesOnlyNameRefused(f: Fields)
    requires f.serviceName == "  "
    ensures !Validate(f).valid
  {
    BlankIffAllWhitespace("  ");
  }

  /** The request body: exactly the six fields, the amount read with parseFloat. */
  function Payload(f: Fields): (r: Record)
    ensures r.Keys == {"serviceName", "amount", "billingCycle", "startDate", "category", "notes"}
    ensures r["amount"] == Num(ParseFloatText(f.amount))
    ensures r["serviceName"] == Str(f.serviceName) && r["notes"] == Str(f.notes)
    ensures r["billingCycle"] == Str(f.billingCycle) && r["startDate"] == Str(f.startDate) && r["category"] == Str(f.category)
  {
    map[
      "serviceName" := Str(f.serviceName),
      "amount" := Num(ParseFloatText(f.amount)),
      "billingCycle" := Str(f.billingCycle),
      "startDate" := Str(f.startDate),
      "category" := Str(f.category),
      "notes" := Str(f.notes)]
  }

  /** A valid form whose amount is written in digits sends that positive amount. */
  lemma ValidDigitAmountIsPositive(f: Fields)
    requires Validate(f).valid
    requires |f.amount| > 0 && forall i :: 0 <= i < |f.amount| ==> IsDigit(f.amount[i])
    ensures Payload(f)["amount"] == Num(Fin(DigitsValue(f.amount) as real))
    ensures DigitsValue(f.amount) > 0
  {
    DigitsParse(f.amount);
  }

  /** handleAddSubscription: a valid form is POSTed to '/subscriptions'; an invalid one
      sends nothing. */
  function AddSubscription(store: seq<Record>, f: Fields, now: nat): (r: seq<Record>)
    ensures !Validate(f).valid ==> r == store
    ensures Validate(f).valid ==> r == store + [Payload(f) + map["id" := Str(NatToString(now))]]
  {
    if !Validate(f).valid then store
    else
      match SimulateApiCall(store, "/subscriptions", "POST", Payload(f), now)
      case Ok(resp) => resp.store
      case Throws(_) => store
  }

  /** The PUT handleUpdateSubscription sends: `data` to `/subscriptions/${id}`; the record with
      that id is replaced by the data plus the id, and an unknown id changes nothing. */
  function PutRequest(store: seq<Record>, id: string, data: Record): (r: seq<Record>)
    ensures |r| == |store|
    ensures '/' !in id && Absent(store, id) ==> r == store
    ensures '/' !in id && !Absent(store, id) ==>
      exists i :: 0 <= i < |store| && IdIs(id)(store[i]) && r == store[i := data + map["id" := Str(id)]]
  {
    var path := RecordPath(id);
    Dispatch(store, path, data, 0);
    assert '/' !in id ==> PathId(path) == id by {
      if '/' !in id { RecordPathAddressesId(id); }
    }
    match SimulateApiCall(store, path, "PUT", data, 0)
    case Ok(resp) => resp.store
    case Throws(_) => store
  }

  /** handleUpdateSubscription: a valid form is PUT to `/subscriptions/${id}`, where id is
      the hidden field; the record with that id is replaced by the payload plus the id. */
  function UpdateSubscription(store: seq<Record>, f: Fields, id: string): (r: seq<Record>)
    ensures |r| == |store|
    ensures !Validate(f).valid ==> r == store
    ensures '/' !in id && Absent(store, id) ==> r == store
    ensures '/' !in id && Validate(f).valid && !Absent(store, id) ==>
      exists i :: 0 <= i < |store| && IdIs(id)(store[i]) && r == store[i := Payload(f) + map["id" := Str(id)]]
  {
    if !Validate(f).valid then store else PutRequest(store, id, Payload(f))
  }

  /** handleDeleteSubscription (the confirmation taken as accepted): a DELETE on the id. */
  function DeleteSubscription(store: seq<Record>, id: string): (r: seq<Record>)
    ensures '/' !in id ==> Absent(r, id) && forall x :: x in r <==> x in store && !IdIs(id)(x)
    ensures r == HandleDelete(store, RecordPath(id)).store
  {
    assert '/' !in id ==> PathId(RecordPath(id)) == id by {
      if '/' !in id { RecordPathAddressesId(id); }
    }
    match SimulateApiCall(store, RecordPath(id), "DELETE", map[], 0)
    case Ok(resp) => resp.store
    case Throws(_) => store
  }

  /** The remaining records keep their order: on two runs of records the delete works on
      each and keeps them in order. */
  lemma DeleteSubscriptionAppend(a: seq<Record>, b: seq<Record>, id: string)
    ensures DeleteSubscription(a + b, id) == DeleteSubscription(a, id) + DeleteSubscription(b, id)
  {
    HandleDeleteAppend(a, b, RecordPath(id));
  }

  /** A single record stays exactly when it does not carry the id the path names (the id
      itself when it has no '/'). */
  lemma DeleteSubscriptionOne(x: Record, id: string)
    ensures DeleteSubscription([x], id) == if IdIs(PathId(RecordPath(id)))(x) then [] else [x]
    ensures '/' !in id ==> DeleteSubscription([x], id) == if IdIs(id)(x) then [] else [x]
  {
    HandleDeleteOne(x, RecordPath(id));
    if '/' !in id {
      RecordPathAddressesId(id);
    }
  }

  /** The update reaches the record named by the hidden field: after it, a GET on that id
      returns the submitted fields. */
  lemma UpdateThenGet(store: seq<Record>, f: Fields, id: string)
    requires '/' !in id && Validate(f).valid && !Absent(store, id)
    ensures HandleGet(UpdateSubscription(store, f, id), RecordPath(id)).Ok?
    ensures HandleGet(UpdateSubscription(store, f, id), RecordPath(id)).value.body == One(Payload(f) + map["id" := Str(id)])
  {
    RecordPathAddressesId(id);
    Dispatch(store, RecordPath(id), Payload(f), 0);
    assert HandlePut(store, RecordPath(id), Payload(f)).Ok?;
    PutThenGet(store, id, Payload(f));
  }
}
