/** AjaxUtils (ajax-utils.js): the simulated REST endpoint over the stored subscription list.
    The request is dispatched on its method; the id of a single record is the last `/`
    segment of the endpoint. Each handler reads the list and returns the list it writes back
    together with the response body; a thrown Error is `Throws` with its message, and
    makeRequest re-throws it with the same message. The 500 ms delay is left out and
    Date.now() is the parameter `now`. */
module Ajax {
  import opened Text
  import opened Js
  import opened Seqs
  import opened Subscriptions

  /** A response body: one record, the whole list, or `{ success: true }`. */
  datatype Body = One(record: Record) | Many(records: seq<Record>) | Success

  datatype Response = Response(store: seq<Record>, body: Body)

  /** `endpoint.split('/').pop()` */
  function PathId(endpoint: string): string {
    LastSegment(endpoint, '/')
  }

  /** `sub => sub.id === id` for an id taken from the path. */
  function IdIs(id: string): Record -> bool {
    HasId(Some(Str(id)))
  }

  /** No stored record carries the id. */
  predicate Absent(store: seq<Record>, id: string) {
    forall i :: 0 <= i < |store| ==> !IdIs(id)(store[i])
  }

  /** handleGet: with `/subscriptions/` in the path, the first record whose id is the last
      segment, or 'Subscription not found'; otherwise the whole list. Nothing is written. */
  function HandleGet(store: seq<Record>, endpoint: string): (r: Outcome<Response>)
    ensures r.Ok? ==> r.value.store == store
    ensures !Includes(endpoint, "/subscriptions/") ==> r == Ok(Response(store, Many(store)))
    ensures Includes(endpoint, "/subscriptions/") ==>
      (r.Throws? <==> Absent(store, PathId(endpoint)))
      && (r.Throws? ==> r.message == "Subscription not found")
      && (r.Ok? ==> exists i :: (0 <= i < |store| && r.value.body == One(store[i]) && IdIs(PathId(endpoint))(store[i])
                                  && forall j :: 0 <= j < i ==> !IdIs(PathId(endpoint))(store[j])))
  {
    if Includes(endpoint, "/subscriptions/") then
      var i := FindIndex(store, IdIs(PathId(endpoint)));
      if i == -1 then Throws("Subscription not found")
      else Ok(Response(store, One(store[i])))
    else Ok(Response(store, Many(store)))
  }

  /** handlePost: `{ ...data, id: Date.now().toString() }` appended; the generated id
      overrides any id in the data. */
  function HandlePost(store: seq<Record>, data: Record, now: nat): (r: Response)
    ensures r.body.One? && r.store == store + [r.body.record]
    ensures r.body.record.Keys == data.Keys + {"id"}
    ensures r.body.record["id"] == Str(NatToString(now))
    ensures forall k :: k in data && k != "id" ==> r.body.record[k] == data[k]
  {
    var created := data + map["id" := Str(NatToString(now))];
    Response(store + [created], One(created))
  }

  /** handlePut: the first record with the path id is replaced wholesale by
      `{ ...data, id }`; no match throws 'Subscription not found'. The endpoint is not
      checked for `/subscriptions/`. */
  function HandlePut(store: seq<Record>, endpoint: string, data: Record): (r: Outcome<Response>)
    ensures r.Throws? <==> Absent(store, PathId(endpoint))
    ensures r.Throws? ==> r.message == "Subscription not found"
    ensures r.Ok? ==> r.value.body == One(data + map["id" := Str(PathId(endpoint))])
    ensures r.Ok? ==> exists i :: (0 <= i < |store| && IdIs(PathId(endpoint))(store[i])
      && (forall j :: 0 <= j < i ==> !IdIs(PathId(endpoint))(store[j]))
      && r.value.store == store[i := data + map["id" := Str(PathId(endpoint))]])
  {
    var id := PathId(endpoint);
    var i := FindIndex(store, IdIs(id));
    if i == -1 then Throws("Subscription not found")
    else
      var replaced := data + map["id" := Str(id)];
      var written := store[i := replaced];
      assert 0 <= i < |store| && IdIs(id)(store[i])
        && (forall j :: 0 <= j < i ==> !IdIs(id)(store[j])) && written == store[i := replaced];
      Ok(Response(written, One(replaced)))
  }

  /** handleDelete: every record with the path id is filtered out, and the call succeeds
      whether or not there was one. */
  function HandleDelete(store: seq<Record>, endpoint: string): (r: Response)
    ensures r.body == Success
    ensures Absent(r.store, PathId(endpoint))
    ensures forall x :: x in r.store <==> x in store && !IdIs(PathId(endpoint))(x)
    ensures Absent(store, PathId(endpoint)) ==> r.store == store
  {
    var id := PathId(endpoint);
    var kept := Filter(store, OtherId(id));
    assert Absent(store, id) ==> kept == store by {
      if Absent(store, id) {
        FilterKeepsAll(store, OtherId(id));
      }
    }
    Response(kept, Success)
  }

  /** `sub => sub.id !== id` */
  function OtherId(id: string): Record -> bool {
    (sub: Record) => !IdIs(id)(sub)
  }

  /** A delete works record by record: on two runs of records it deletes from each and keeps
      them in order. */
  lemma HandleDeleteAppend(a: seq<Record>, b: seq<Record>, endpoint: string)
    ensures HandleDelete(a + b, endpoint).store == HandleDelete(a, endpoint).store + HandleDelete(b, endpoint).store
  {
    FilterConcat(a, b, OtherId(PathId(endpoint)));
  }

  /** A single record is dropped exactly when it carries the path id. */
  lemma HandleDeleteOne(x: Record, endpoint: string)
    ensures HandleDelete([x], endpoint).store == if IdIs(PathId(endpoint))(x) then [] else [x]
  {
    FilterConcat([x], [], OtherId(PathId(endpoint)));
  }

  /** simulateApiCall: the four methods go to their handlers, anything else throws
      'Invalid method'. */
  function SimulateApiCall(store: seq<Record>, endpoint: string, verb: string, data: Record, now: nat): (r: Outcome<Response>)
    ensures verb != "GET" && verb != "POST" && verb != "PUT" && verb != "DELETE" ==>
      r == Throws("Invalid method")
    ensures r.Ok? && (verb == "GET" || verb == "PUT") ==> |r.value.store| == |store|
    ensures r.Ok? && verb == "POST" ==> |r.value.store| == |store| + 1
    ensures r.Ok? && verb == "DELETE" ==> |r.value.store| <= |store|
    ensures r.Throws? ==> r.message == "Invalid method" || r.message == "Subscription not found"
  {
    match verb
    case "GET" => HandleGet(store, endpoint)
    case "POST" => Ok(HandlePost(store, data, now))
    case "PUT" => HandlePut(store, endpoint, data)
    case "DELETE" => Ok(HandleDelete(store, endpoint))
    case _ => Throws("Invalid method")
  }

  /** Each of the four methods reaches its own handler. */
  lemma Dispatch(store: seq<Record>, endpoint: string, data: Record, now: nat)
    ensures SimulateApiCall(store, endpoint, "GET", data, now) == HandleGet(store, endpoint)
    ensures SimulateApiCall(store, endpoint, "POST", data, now) == Ok(HandlePost(store, data, now))
    ensures SimulateApiCall(store, endpoint, "PUT", data, now) == HandlePut(store, endpoint, data)
    ensures SimulateApiCall(store, endpoint, "DELETE", data, now) == Ok(HandleDelete(store, endpoint))
  {}

  /** The path a single record is addressed by. */
  function RecordPath(id: string): string {
    "/subscriptions/" + id
  }

  lemma RecordPathAddressesId(id: string)
    requires '/' !in id
    ensures Includes(RecordPath(id), "/subscriptions/")
    ensures PathId(RecordPath(id)) == id
  {
    var p := RecordPath(id);
    assert StartsWith(p, "/subscriptions/") by { assert p[..|"/subscriptions/"|] == "/subscriptions/"; }
    assert p == "/subscriptions" + ['/'] + id;
    LastSegmentOfAppended("/subscriptions", '/', id);
  }

  /** A record created by POST is returned by a GET on its id, provided no older record
      already had that id. */
  lemma PostThenGet(store: seq<Record>, data: Record, now: nat)
    requires Absent(store, NatToString(now))
    ensures var posted := HandlePost(store, data, now);
      HandleGet(posted.store, RecordPath(NatToString(now))) == Ok(Response(posted.store, posted.body))
  {
    var id := NatToString(now);
    assert '/' !in id by { assert forall i :: 0 <= i < |id| ==> IsDigit(id[i]); }
    RecordPathAddressesId(id);
    var posted := HandlePost(store, data, now);
    var i := FindIndex(posted.store, IdIs(id));
    assert IdIs(id)(posted.store[|store|]);
    assert forall j :: 0 <= j < |store| ==> posted.store[j] == store[j];
    assert i == |store|;
  }

  /** After a successful PUT, a GET on the same id returns the replacement. */
  lemma PutThenGet(store: seq<Record>, id: string, data: Record)
    requires '/' !in id
    requires HandlePut(store, RecordPath(id), data).Ok?
    ensures var put := HandlePut(store, RecordPath(id), data).value;
      HandleGet(put.store, RecordPath(id)) == Ok(Response(put.store, One(data + map["id" := Str(id)])))
  {
    RecordPathAddressesId(id);
    var put := HandlePut(store, RecordPath(id), data).value;
    var i := FindIndex(store, IdIs(id));
    assert put.store == store[i := data + map["id" := Str(id)]];
    assert IdIs(id)(put.store[i]);
    assert FindIndex(put.store, IdIs(id)) == i;
  }

  /** After a DELETE, a GET on the same id throws. */
  lemma DeleteThenGet(store: seq<Record>, id: string)
    requires '/' !in id
    ensures HandleGet(HandleDelete(store, RecordPath(id)).store, RecordPath(id)) == Throws("Subscription not found")
  {
    RecordPathAddressesId(id);
  }
}
