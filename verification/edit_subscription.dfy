/** The edit page (edit-subscription.js): loading a record into the form, saving the form
    back in place, and deleting the record, all against the stored list and keyed by the id
    from the URL (a string). The page's validateForm is the one of the subscription form, and
    the deletion's confirmation is taken as accepted. */
module EditSubscription {
  import opened Js
  import opened Seqs
  import opened Ajax
  import opened SubscriptionForm

  /** The values loadSubscriptionData puts into the inputs: the stored fields as they are,
      and the notes or '' when they are falsy. */
  datatype Loaded = Loaded(
    serviceName: Option<Value>,
    amount: Option<Value>,
    billingCycle: Option<Value>,
    startDate: Option<Value>,
    category: Option<Value>,
    notes: Value)

  /** loadSubscriptionData: None ('Subscription not found') when no record has the id. */
  function LoadSubscriptionData(store: seq<Record>, id: string): (r: Option<Loaded>)
    ensures r.None? <==> Absent(store, id)
    ensures r.Some? ==> exists i :: (0 <= i < |store| && IdIs(id)(store[i])
      && (forall j :: 0 <= j < i ==> !IdIs(id)(store[j]))
      && r.value.serviceName == Get(store[i], "serviceName")
      && r.value.amount == Get(store[i], "amount")
      && r.value.billingCycle == Get(store[i], "billingCycle")
      && r.value.startDate == Get(store[i], "startDate")
      && r.value.category == Get(store[i], "category")
      && (Truthy(Get(store[i], "notes")) ==> Some(r.value.notes) == Get(store[i], "notes"))
      && (!Truthy(Get(store[i], "notes")) ==> r.value.notes == Str("")))
  {
    var i := FindIndex(store, IdIs(id));
    if i == -1 then None
    else
      var sub := store[i];
      Some(Loaded(
        Get(sub, "serviceName"), Get(sub, "amount"), Get(sub, "billingCycle"),
        Get(sub, "startDate"), Get(sub, "category"),
        if Truthy(Get(sub, "notes")) then Get(sub, "notes").value else Str("")))
  }

  /** `{ ...data, id }` */
  function WithId(data: Record, id: string): (r: Record)
    ensures r.Keys == data.Keys + {"id"}
    ensures r["id"] == Str(id)
    ensures forall k :: k in data && k != "id" ==> r[k] == data[k]
  {
    data["id" := Str(id)]
  }

  /** The record handleEditSubmission writes: the id and the six form fields, nothing else. */
  function EditedRecord(id: string, f: Fields): (r: Record)
    ensures r.Keys == Payload(f).Keys + {"id"}
    ensures r["id"] == Str(id)
    ensures forall k :: k in Payload(f) ==> r[k] == Payload(f)[k]
  {
    PayloadHasNoId(f);
    WithId(Payload(f), id)
  }

  /** The payload carries no id of its own. */
  lemma PayloadHasNoId(f: Fields)
    ensures "id" !in Payload(f)
  {}

  /** `subscriptions[index] = record` at the first record with the id; nothing when there
      is none. */
  function ReplaceFirst(store: seq<Record>, id: string, record: Record): (r: seq<Record>)
    ensures |r| == |store|
    ensures Absent(store, id) ==> r == store
    ensures !Absent(store, id) ==>
      exists i :: (0 <= i < |store| && IdIs(id)(store[i])
        && (forall j :: 0 <= j < i ==> !IdIs(id)(store[j]))
        && r == store[i := record])
  {
    var i := FindIndex(store, IdIs(id));
    if i == -1 then store
    else
      var r := store[i := record];
      assert 0 <= i < |store| && IdIs(id)(store[i]) && (forall j :: 0 <= j < i ==> !IdIs(id)(store[j]))
        && r == store[i := record];
      r
  }

  /** handleEditSubmission: an invalid form or an unknown id changes nothing; otherwise the
      first record with the id is replaced by exactly the edited record, dropping any other
      field (such as status), and every other position is untouched. */
  function HandleEditSubmission(store: seq<Record>, id: string, f: Fields): (r: seq<Record>)
    ensures |r| == |store|
    ensures !Validate(f).valid || Absent(store, id) ==> r == store
    ensures Validate(f).valid && !Absent(store, id) ==>
      exists i :: (0 <= i < |store| && IdIs(id)(store[i])
        && (forall j :: 0 <= j < i ==> !IdIs(id)(store[j]))
        && r == store[i := EditedRecord(id, f)])
  {
    if !Validate(f).valid then store else ReplaceFirst(store, id, EditedRecord(id, f))
  }

  /** handleDelete: every record with the id is filtered out, the rest keep their order. */
  function HandleDelete(store: seq<Record>, id: string): (r: seq<Record>)
    ensures Absent(r, id)
    ensures forall x :: x in r <==> x in store && !IdIs(id)(x)
    ensures Absent(store, id) ==> r == store
  {
    var kept := Filter(store, OtherId(id));
    assert Absent(store, id) ==> kept == store by {
      if Absent(store, id) {
        FilterKeepsAll(store, OtherId(id));
      }
    }
    kept
  }

  /** The rest keep their order: deleting from two runs of records deletes from each. */
  lemma HandleDeleteAppend(a: seq<Record>, b: seq<Record>, id: string)
    ensures HandleDelete(a + b, id) == HandleDelete(a, id) + HandleDelete(b, id)
  {
    FilterConcat(a, b, OtherId(id));
  }

  /** A single record is dropped exactly when it carries the id. */
  lemma HandleDeleteOne(x: Record, id: string)
    ensures HandleDelete([x], id) == if IdIs(id)(x) then [] else [x]
  {
    FilterConcat([x], [], OtherId(id));
  }

  /** Saving and then reopening the page shows what was saved: the loaded values are the
      submitted fields, with the amount as parseFloat read it, and the notes (or '' if they
      were left empty). */
  lemma EditThenLoad(store: seq<Record>, id: string, f: Fields)
    requires Validate(f).valid && !Absent(store, id)
    ensures var loaded := LoadSubscriptionData(HandleEditSubmission(store, id, f), id);
      && loaded.Some?
      && loaded.value.serviceName == Some(Str(f.serviceName))
      && loaded.value.amount == Some(Num(ParseFloatText(f.amount)))
      && loaded.value.category == Some(Str(f.category))
      && loaded.value.notes == Str(f.notes)
  {
    var record := EditedRecord(id, f);
    ReplaceThenFind(store, id, record);
    assert Get(record, "notes") == Some(Str(f.notes));
  }

  /** The record written in place of the first one with its id is the one found again. */
  lemma ReplaceThenFind(store: seq<Record>, id: string, record: Record)
    requires !Absent(store, id) && IdIs(id)(record)
    ensures var r := ReplaceFirst(store, id, record);
      exists i :: 0 <= i < |r| && r[i] == record && FindIndex(r, IdIs(id)) == i
  {
    var r := ReplaceFirst(store, id, record);
    var i :| 0 <= i < |store| && IdIs(id)(store[i])
        && (forall j :: 0 <= j < i ==> !IdIs(id)(store[j]))
        && r == store[i := record];
    assert r[i] == record && IdIs(id)(r[i]);
    assert forall j :: 0 <= j < i ==> r[j] == store[j];
    var k := FindIndex(r, IdIs(id));
    assert k != -1 && k <= i;
    assert FindIndex(r, IdIs(id)) == i;
  }

  /** After a deletion the page finds nothing under the id. */
  lemma DeleteThenLoad(store: seq<Record>, id: string)
    ensures LoadSubscriptionData(HandleDelete(store, id), id).None?
  {}
}
