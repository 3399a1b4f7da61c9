/** SubscriptionManager (subscription.js): the in-memory subscription list with its CRUD
    operations, the active filter, the monthly total by `frequency`, the upcoming-payments
    window and the stepping of a billing date by one period. Here the active status is the
    lower-case 'active' and the cycle field is `frequency`, unlike the other pages. The
    clock, the id source and the ISO timestamp are parameters. */
module Subscriptions {
  import opened Js
  import opened Seqs
  import opened Calendar
  import opened Billing

  /** The fields addSubscription fills in before the caller's data is spread over them. */
  function Defaults(id: string, userId: Value, createdAt: string): Record {
    map["id" := Str(id), "userId" := userId, "createdAt" := Str(createdAt), "status" := Str("active")]
  }

  datatype Added = Added(store: seq<Record>, created: Record)

  /** addSubscription: one new record, the defaults overridden by any field the data supplies,
      appended at the end. `id` is Date.now() as text, `userId` the session's id (null when
      logged out), `now` the ISO creation time. */
  function AddSubscription(store: seq<Record>, data: Record, id: string, userId: Value, now: string): (r: Added)
    ensures r.store == store + [r.created]
    ensures forall k :: k in data ==> k in r.created && r.created[k] == data[k]
    ensures r.created.Keys == data.Keys + {"id", "userId", "createdAt", "status"}
    ensures "status" !in data ==> r.created["status"] == Str("active")
    ensures "id" !in data ==> r.created["id"] == Str(id)
    ensures "userId" !in data ==> r.created["userId"] == userId
    ensures "createdAt" !in data ==> r.created["createdAt"] == Str(now)
  {
    var created := Defaults(id, userId, createdAt := now) + data;
    Added(store + [created], created)
  }

  /** `sub => sub.id === id` */
  function HasId(id: Option<Value>): Record -> bool {
    (sub: Record) => StrictEq(Get(sub, "id"), id)
  }

  datatype Updated = Updated(store: seq<Record>, record: Record)

  /** updateSubscription: the first record with the id gets the updates spread over it and a
      fresh updatedAt; no match gives null (None) and no change. */
  function UpdateSubscription(store: seq<Record>, id: Option<Value>, updates: Record, now: string): (r: Option<Updated>)
    ensures r.None? <==> forall i :: 0 <= i < |store| ==> !StrictEq(Get(store[i], "id"), id)
    ensures r.Some? ==> |r.value.store| == |store|
    ensures r.Some? ==> exists i :: (0 <= i < |store| && StrictEq(Get(store[i], "id"), id)
      && (forall j :: 0 <= j < i ==> !StrictEq(Get(store[j], "id"), id))
      && r.value.record == store[i] + updates + map["updatedAt" := Str(now)]
      && r.value.store == store[i := r.value.record])
  {
    var i := FindIndex(store, HasId(id));
    if i == -1 then None
    else
      var record := store[i] + updates + map["updatedAt" := Str(now)];
      Some(Updated(store[i := record], record))
  }

  datatype Deleted = Deleted(store: seq<Record>, deleted: bool)

  /** deleteSubscription: splices out the first record with the id and reports whether there
      was one. */
  function DeleteSubscription(store: seq<Record>, id: Option<Value>): (r: Deleted)
    ensures !r.deleted <==> forall i :: 0 <= i < |store| ==> !StrictEq(Get(store[i], "id"), id)
    ensures !r.deleted ==> r.store == store
    ensures r.deleted ==> exists i :: (0 <= i < |store| && StrictEq(Get(store[i], "id"), id)
      && (forall j :: 0 <= j < i ==> !StrictEq(Get(store[j], "id"), id))
      && r.store == store[..i] + store[i + 1..])
  {
    var i := FindIndex(store, HasId(id));
    if i == -1 then Deleted(store, false)
    else Deleted(RemoveAt(store, i), true)
  }

  /** getSubscription: `find` by id; undefined (None) when absent. */
  function GetSubscription(store: seq<Record>, id: Option<Value>): (r: Option<Record>)
    ensures r.None? <==> forall i :: 0 <= i < |store| ==> !StrictEq(Get(store[i], "id"), id)
    ensures r.Some? ==> exists i :: (0 <= i < |store| && store[i] == r.value
      && StrictEq(Get(store[i], "id"), id)
      && forall j :: 0 <= j < i ==> !StrictEq(Get(store[j], "id"), id))
  {
    var i := FindIndex(store, HasId(id));
    if i == -1 then None else Some(store[i])
  }

  /** Reading back a record right after updating it gives the updated record. */
  lemma GetAfterUpdate(store: seq<Record>, id: Option<Value>, updates: Record, now: string)
    requires UpdateSubscription(store, id, updates, now).Some?
    requires "id" !in updates
    ensures GetSubscription(UpdateSubscription(store, id, updates, now).value.store, id)
         == Some(UpdateSubscription(store, id, updates, now).value.record)
  {
    var i := FindIndex(store, HasId(id));
    var s := UpdateSubscription(store, id, updates, now).value.store;
    assert forall j :: 0 <= j < i ==> s[j] == store[j];
    assert Get(s[i], "id") == Get(store[i], "id");
  }

  /** getSubscriptionsByStatus: the records whose status is `===` the given one, in order. */
  function ByStatus(store: seq<Record>, status: Option<Value>): seq<Record> {
    Filter(store, (sub: Record) => StrictEq(Get(sub, "status"), status))
  }

  predicate IsActive(sub: Record) {
    IsText(Get(sub, "status"), "active")
  }

  /** `sub.status === 'Active'`: the capitalised spelling the dashboard and settings pages
      test; a record marked one way is not active the other way. */
  predicate MarkedActive(sub: Record) {
    IsText(Get(sub, "status"), "Active")
  }

  /** getActiveSubscriptions: exactly the records with status 'active', in order. */
  function ActiveSubscriptions(store: seq<Record>): (r: seq<Record>)
    ensures forall i :: 0 <= i < |r| ==> IsActive(r[i]) && r[i] in store
    ensures forall i :: 0 <= i < |store| && IsActive(store[i]) ==> store[i] in r
  {
    Filter(store, IsActive)
  }

  /** The active list is the by-status list for 'active'. */
  lemma ActiveIsByStatus(store: seq<Record>)
    ensures ActiveSubscriptions(store) == ByStatus(store, Some(Str("active")))
  {
    FilterExtensional(store, IsActive, (sub: Record) => StrictEq(Get(sub, "status"), Some(Str("active"))));
  }

  /** What one active record adds to getTotalMonthlySpend: by `frequency`, and nothing at all
      for a frequency that is not monthly, yearly or quarterly. */
  function MonthlyShare(sub: Record): Number {
    var amount := ParseFloat(Get(sub, "amount"));
    if IsText(Get(sub, "frequency"), "monthly") then amount
    else if IsText(Get(sub, "frequency"), "yearly") then Div(amount, 12.0)
    else if IsText(Get(sub, "frequency"), "quarterly") then Div(amount, 3.0)
    else Fin(0.0)
  }

  predicate KnownFrequency(sub: Record) {
    IsText(Get(sub, "frequency"), "monthly") || IsText(Get(sub, "frequency"), "yearly")
    || IsText(Get(sub, "frequency"), "quarterly")
  }

  /** For a recognised frequency the share is the same monthly equivalent the budget page
      computes from `billingCycle`; an unrecognised one counts 0 here but its full amount there. */
  lemma MonthlyShareAgrees(sub: Record)
    ensures KnownFrequency(sub) ==> MonthlyShare(sub) == MonthlyEquivalent(sub["billingCycle" := Get(sub, "frequency").value])
    ensures !KnownFrequency(sub) ==> MonthlyShare(sub) == Fin(0.0)
  {
    if KnownFrequency(sub) {
      var other := sub["billingCycle" := Get(sub, "frequency").value];
      assert Get(other, "amount") == Get(sub, "amount");
    }
  }

  /** The reduce over a list of records, starting from 0. */
  function SumShares(subs: seq<Record>): (total: Number)
    ensures (forall i :: 0 <= i < |subs| ==> !KnownFrequency(subs[i])) ==> total == Fin(0.0)
  {
    if |subs| == 0 then Fin(0.0)
    else Add(SumShares(subs[..|subs| - 1]), MonthlyShare(subs[|subs| - 1]))
  }

  /** getTotalMonthlySpend: the shares of the active records only. */
  function TotalMonthlySpend(store: seq<Record>): Number {
    SumShares(ActiveSubscriptions(store))
  }

  /** Appending a record that is not active leaves the total unchanged. */
  lemma TotalIgnoresInactive(store: seq<Record>, sub: Record)
    requires !IsActive(sub)
    ensures TotalMonthlySpend(store + [sub]) == TotalMonthlySpend(store)
  {
    FilterSnoc(store, sub, IsActive);
    assert ActiveSubscriptions(store) + [] == ActiveSubscriptions(store);
  }

  /** An active record adds its share. */
  lemma TotalAddsActive(store: seq<Record>, sub: Record)
    requires IsActive(sub)
    ensures TotalMonthlySpend(store + [sub]) == Add(TotalMonthlySpend(store), MonthlyShare(sub))
  {
    FilterSnoc(store, sub, IsActive);
    var a := ActiveSubscriptions(store);
    assert (a + [sub])[..|a|] == a;
  }

  /** A record in the upcoming list, with the whole days until its next billing. */
  datatype Upcoming = Upcoming(sub: Record, daysUntilBilling: int)

  /** The record the page shows: `{...sub, daysUntilBilling}`. */
  function AsRecord(u: Upcoming): Record {
    u.sub["daysUntilBilling" := Num(Fin(u.daysUntilBilling as real))]
  }

  /** `today <= nextBilling <= futureDate`, with `futureDate` the same time `days` days later. */
  predicate InWindow(sub: Record, today: int, days: int, instant: Option<Value> -> Option<int>) {
    var next := instant(Get(sub, "nextBillingDate"));
    next.Some? && today <= next.value <= today + days * MsPerDay
  }

  /** `Math.ceil((nextBilling - today) / one day)` */
  function DaysUntil(sub: Record, today: int, instant: Option<Value> -> Option<int>): int
    requires instant(Get(sub, "nextBillingDate")).Some?
  {
    CeilDiv(instant(Get(sub, "nextBillingDate")).value - today, MsPerDay)
  }

  /** The mapped and filtered list before the sort. `instant` reads a date field as epoch
      milliseconds (None for an Invalid Date, which every comparison rejects). */
  function Candidates(subs: seq<Record>, today: int, days: int, instant: Option<Value> -> Option<int>): (r: seq<Upcoming>)
    ensures forall j :: 0 <= j < |r| ==> (r[j].sub in subs && InWindow(r[j].sub, today, days, instant)
      && r[j].daysUntilBilling == DaysUntil(r[j].sub, today, instant))
    ensures forall i :: (0 <= i < |subs| && InWindow(subs[i], today, days, instant)
      ==> Upcoming(subs[i], DaysUntil(subs[i], today, instant)) in r)
  {
    if |subs| == 0 then []
    else
      var front := subs[..|subs| - 1];
      var sub := subs[|subs| - 1];
      var prev := Candidates(front, today, days, instant);
      assert forall i :: 0 <= i < |front| ==> front[i] == subs[i];
      prev + (if InWindow(sub, today, days, instant) then [Upcoming(sub, DaysUntil(sub, today, instant))] else [])
  }

  /** The comparator key `a.daysUntilBilling - b.daysUntilBilling` sorts by. */
  function DaysKey(u: Upcoming): int {
    u.daysUntilBilling
  }

  /** getUpcomingPayments(days): the active records billed within the window, soonest first;
      the sort is stable, so records due on the same day keep their list order. */
  function UpcomingPayments(store: seq<Record>, today: int, days: int, instant: Option<Value> -> Option<int>): (r: seq<Upcoming>)
    ensures SortedBy(r, DaysKey)
    ensures multiset(r) == multiset(Candidates(ActiveSubscriptions(store), today, days, instant))
    ensures StableFor(r, Candidates(ActiveSubscriptions(store), today, days, instant), DaysKey)
  {
    SortBy(Candidates(ActiveSubscriptions(store), today, days, instant), DaysKey)
  }

  /** Entry i is due soonest, and no entry before it is due as soon. */
  predicate FirstSoonest(cands: seq<Upcoming>, i: int) {
    && 0 <= i < |cands|
    && (forall j :: 0 <= j < |cands| ==> cands[i].daysUntilBilling <= cands[j].daysUntilBilling)
    && (forall j :: 0 <= j < i ==> cands[i].daysUntilBilling < cands[j].daysUntilBilling)
  }

  /** The head of a stable sort by days is the first entry, in list order, among those due
      soonest. */
  lemma SoonestIsFirstCandidate(cands: seq<Upcoming>, up: seq<Upcoming>)
    requires |up| > 0 && SortedBy(up, DaysKey) && multiset(up) == multiset(cands)
    requires StableFor(up, cands, DaysKey)
    ensures exists i :: FirstSoonest(cands, i) && up[0] == cands[i]
  {
    var i := StableHeadIsFirstLeast(up, cands, DaysKey);
    assert FirstSoonest(cands, i);
  }

  /** A billing date inside the window is between 0 and `days` whole days away. */
  lemma DaysUntilInWindow(sub: Record, today: int, days: int, instant: Option<Value> -> Option<int>)
    requires InWindow(sub, today, days, instant)
    ensures 0 <= DaysUntil(sub, today, instant) <= days
  {}

  /** A record has an upcoming entry exactly when it is active and billed inside the window. */
  lemma UpcomingIff(store: seq<Record>, today: int, days: int, instant: Option<Value> -> Option<int>, sub: Record)
    requires sub in store
    ensures (exists j :: 0 <= j < |UpcomingPayments(store, today, days, instant)| && UpcomingPayments(store, today, days, instant)[j].sub == sub)
        <==> IsActive(sub) && InWindow(sub, today, days, instant)
  {
    if IsActive(sub) && InWindow(sub, today, days, instant) {
      ListedWhenDue(store, today, days, instant, sub);
    }
    if exists j :: 0 <= j < |UpcomingPayments(store, today, days, instant)| && UpcomingPayments(store, today, days, instant)[j].sub == sub {
      var j :| 0 <= j < |UpcomingPayments(store, today, days, instant)| && UpcomingPayments(store, today, days, instant)[j].sub == sub;
      DueWhenListed(store, today, days, instant, j);
    }
  }

  /** An active record of the store billed inside the window is listed. */
  lemma ListedWhenDue(store: seq<Record>, today: int, days: int, instant: Option<Value> -> Option<int>, sub: Record)
    requires sub in store && IsActive(sub) && InWindow(sub, today, days, instant)
    ensures exists j :: 0 <= j < |UpcomingPayments(store, today, days, instant)| && UpcomingPayments(store, today, days, instant)[j].sub == sub
  {
    var act := ActiveSubscriptions(store);
    var r := UpcomingPayments(store, today, days, instant);
    SameElements(r, Candidates(act, today, days, instant));
    assert sub in act;
    var u := Upcoming(sub, DaysUntil(sub, today, instant));
    assert u in r;
    var j :| 0 <= j < |r| && r[j] == u;
    assert r[j].sub == sub;
  }

  /** Every listed record is active and billed inside the window. */
  lemma DueWhenListed(store: seq<Record>, today: int, days: int, instant: Option<Value> -> Option<int>, j: int)
    requires 0 <= j < |UpcomingPayments(store, today, days, instant)|
    ensures IsActive(UpcomingPayments(store, today, days, instant)[j].sub)
    ensures InWindow(UpcomingPayments(store, today, days, instant)[j].sub, today, days, instant)
  {
    var c := Candidates(ActiveSubscriptions(store), today, days, instant);
    var r := UpcomingPayments(store, today, days, instant);
    SameElements(r, c);
    assert r[j] in c;
  }

  /** Every upcoming entry is due within the window. */
  lemma UpcomingDaysBounded(store: seq<Record>, today: int, days: int, instant: Option<Value> -> Option<int>)
    ensures forall j :: 0 <= j < |UpcomingPayments(store, today, days, instant)| ==>
        0 <= UpcomingPayments(store, today, days, instant)[j].daysUntilBilling <= days
  {
    var c := Candidates(ActiveSubscriptions(store), today, days, instant);
    var r := UpcomingPayments(store, today, days, instant);
    SameElements(r, c);
    forall j | 0 <= j < |r| ensures 0 <= r[j].daysUntilBilling <= days {
      assert r[j] in c;
      DaysUntilInWindow(r[j].sub, today, days, instant);
    }
  }

  /** The month step of one billing period for a `frequency`, or None when it is unrecognised. */
  function PeriodOf(sub: Record): Option<int> {
    if IsText(Get(sub, "frequency"), "monthly") then Some(1)
    else if IsText(Get(sub, "frequency"), "quarterly") then Some(3)
    else if IsText(Get(sub, "frequency"), "yearly") then Some(12)
    else None
  }

  /** calculateNextBillingDate: one period after nextBillingDate with the Date object's month
      arithmetic; an unrecognised frequency leaves the date as it was. `civil` reads the date
      field; toISOString throws on an Invalid Date. */
  function CalculateNextBillingDate(sub: Record, civil: Option<Value> -> Option<DateTime>): (r: Outcome<DateTime>)
    requires forall v :: civil(v).Some? ==> Valid(civil(v).value)
    ensures r.Throws? <==> civil(Get(sub, "nextBillingDate")).None?
    ensures r.Ok? ==> Valid(r.value)
    ensures r.Ok? && PeriodOf(sub).None? ==> r.value == civil(Get(sub, "nextBillingDate")).value
    ensures r.Ok? && PeriodOf(sub).Some? ==>
      var d := civil(Get(sub, "nextBillingDate")).value;
      Before(d, r.value) && r.value.time == d.time
      && MonthIndex(d) + PeriodOf(sub).value <= MonthIndex(r.value) <= MonthIndex(d) + PeriodOf(sub).value + 1
    ensures r.Ok? && IsText(Get(sub, "frequency"), "monthly") ==>
      r.value == AddMonths(civil(Get(sub, "nextBillingDate")).value, 1)
    ensures r.Ok? && IsText(Get(sub, "frequency"), "quarterly") ==>
      r.value == AddMonths(civil(Get(sub, "nextBillingDate")).value, 3)
    ensures r.Ok? && IsText(Get(sub, "frequency"), "yearly") ==>
      r.value == AddYears(civil(Get(sub, "nextBillingDate")).value, 1)
  {
    match civil(Get(sub, "nextBillingDate"))
    case None => Throws("Invalid time value")
    case Some(d) =>
      if IsText(Get(sub, "frequency"), "monthly") then
        AddMonthsMovesLater(d, 1);
        Ok(AddMonths(d, 1))
      else if IsText(Get(sub, "frequency"), "yearly") then
        AddYearsMovesLater(d, 1);
        Ok(AddYears(d, 1))
      else if IsText(Get(sub, "frequency"), "quarterly") then
        AddMonthsMovesLater(d, 3);
        Ok(AddMonths(d, 3))
      else Ok(d)
  }

  /** getSubscriptionStats */
  datatype Stats = Stats(
    totalActive: nat,
    monthlySpend: Number,
    nextPaymentDue: Option<int>,
    nextPaymentAmount: Option<Value>,
    totalSubscriptions: nat,
    upcomingPaymentsCount: nat)

  /** The 30-day window getSubscriptionStats uses through the default argument. */
  const DefaultUpcomingDays := 30

  /** The next-payment fields are those of the first entry, in list order, among those
      due soonest. */
  ghost predicate NextPaymentOf(s: Stats, cands: seq<Upcoming>) {
    exists i :: FirstSoonest(cands, i) && s.nextPaymentDue == Some(cands[i].daysUntilBilling)
      && s.nextPaymentAmount == Get(cands[i].sub, "amount")
  }

  /** getSubscriptionStats: the next payment is the head of the sorted upcoming list, so it
      is the first record, in list order, among those due soonest; with nothing upcoming
      both next-payment fields are null. */
  function SubscriptionStats(store: seq<Record>, today: int, instant: Option<Value> -> Option<int>): (s: Stats)
    ensures s.totalActive == |ActiveSubscriptions(store)| && s.totalSubscriptions == |store|
    ensures s.monthlySpend == TotalMonthlySpend(store)
    ensures s.upcomingPaymentsCount == |UpcomingPayments(store, today, DefaultUpcomingDays, instant)|
    ensures s.nextPaymentDue.None? <==> s.upcomingPaymentsCount == 0
    ensures s.nextPaymentDue.None? ==> s.nextPaymentAmount == Some(Null)
    ensures s.nextPaymentDue.Some? ==> forall j :: 0 <= j < |UpcomingPayments(store, today, DefaultUpcomingDays, instant)| ==>
      s.nextPaymentDue.value <= UpcomingPayments(store, today, DefaultUpcomingDays, instant)[j].daysUntilBilling
    ensures s.nextPaymentDue.Some? ==>
      NextPaymentOf(s, Candidates(ActiveSubscriptions(store), today, DefaultUpcomingDays, instant))
  {
    StatsOf(store, Candidates(ActiveSubscriptions(store), today, DefaultUpcomingDays, instant),
      UpcomingPayments(store, today, DefaultUpcomingDays, instant))
  }

  /** The statistics read off a stable ascending ordering `up` of the candidates. */
  function StatsOf(store: seq<Record>, cands: seq<Upcoming>, up: seq<Upcoming>): (s: Stats)
    requires SortedBy(up, DaysKey) && multiset(up) == multiset(cands) && StableFor(up, cands, DaysKey)
    ensures s.totalActive == |ActiveSubscriptions(store)| && s.totalSubscriptions == |store|
    ensures s.monthlySpend == TotalMonthlySpend(store)
    ensures s.upcomingPaymentsCount == |up|
    ensures s.nextPaymentDue.None? <==> |up| == 0
    ensures s.nextPaymentDue.None? ==> s.nextPaymentAmount == Some(Null)
    ensures s.nextPaymentDue.Some? ==> forall j :: 0 <= j < |up| ==> s.nextPaymentDue.value <= up[j].daysUntilBilling
    ensures s.nextPaymentDue.Some? ==> NextPaymentOf(s, cands)
  {
    if |up| > 0 then
      SoonestIsFirstCandidate(cands, up);
      Stats(|ActiveSubscriptions(store)|, TotalMonthlySpend(store), Some(up[0].daysUntilBilling),
        Get(up[0].sub, "amount"), |store|, |up|)
    else
      Stats(|ActiveSubscriptions(store)|, TotalMonthlySpend(store), None, Some(Null), |store|, |up|)
  }
}
