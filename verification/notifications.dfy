/** NotificationManager (notifications.js): the reminder log. A check selects the 'Active'
    subscriptions billed within `daysBefore` days, builds the composite id
    `reminder_{id}_{billingDate}`, skips ids already in the log and prepends the rest; the
    overdue check does the same with `overdue_{id}_{billingDate}`. The subscription list, the
    clock and the reading of date fields are parameters. */
module Notifications {
  import opened Text
  import opened Js
  import opened Seqs
  import opened Calendar

  /** A log entry. `date` is the creation instant in epoch milliseconds (stored as its ISO
      text); the title and message texts are not modelled. */
  datatype Notification = Notification(
    id: string,
    kind: string,
    subscriptionId: Option<Value>,
    date: int,
    read: bool,
    priority: string)

  /** The manager's state: the log, newest first, and the reminder settings object. */
  datatype NotificationState = NotificationState(log: seq<Notification>, settings: Record)

  /** The settings used when none are stored. */
  const DefaultReminderSettings: Record :=
    map["enabled" := Bool(true), "daysBefore" := Num(Fin(7.0)), "emailAddress" := Str(""), "lastCheck" := Null]

  /** `log.some(n => n.id === id)` */
  predicate HasId(log: seq<Notification>, id: string) {
    exists i :: 0 <= i < |log| && log[i].id == id
  }

  /** The older log survives unchanged at the end of the newer one: checks only prepend. */
  predicate KeepsOlder(log: seq<Notification>, r: seq<Notification>) {
    |log| <= |r| && r[|r| - |log|..] == log
  }

  predicate IdsUnique(log: seq<Notification>) {
    forall i, j :: 0 <= i < j < |log| ==> log[i].id != log[j].id
  }

  /** The template `${prefix}_${sub.id}_${sub.billingDate}`. */
  function CompositeId(prefix: string, sub: Record): string {
    prefix + "_" + ToText(Get(sub, "id")) + "_" + ToText(Get(sub, "billingDate"))
  }

  /** The de-duplicating unshift shared by both reminder kinds: an id already in the log
      changes nothing, a new one goes to the front. */
  function Post(log: seq<Notification>, n: Notification): (r: seq<Notification>)
    ensures HasId(log, n.id) ==> r == log
    ensures !HasId(log, n.id) ==> r == [n] + log
  {
    if exists i :: 0 <= i < |log| && log[i].id == n.id then log else [n] + log
  }

  /** Posting never loses an id, and the posted id is then present. */
  lemma PostHasIds(log: seq<Notification>, n: Notification, id: string)
    ensures HasId(Post(log, n), id) <==> HasId(log, id) || id == n.id
  {
    var r := Post(log, n);
    if !HasId(log, n.id) {
      assert r[0] == n;
      assert forall k :: 0 <= k < |log| ==> r[k + 1] == log[k];
      assert forall k :: 1 <= k < |r| ==> r[k] == log[k - 1];
    }
  }

  /** Posting keeps the ids of the log distinct. */
  lemma PostUnique(log: seq<Notification>, n: Notification)
    requires IdsUnique(log)
    ensures IdsUnique(Post(log, n))
  {
    if !HasId(log, n.id) {
      var r := Post(log, n);
      assert forall k :: 1 <= k < |r| ==> r[k] == log[k - 1];
    }
  }

  /** Posting the notifications in order, as the forEach over the candidates does: the old
      log stays at the end, below at most one new entry per posted notification. */
  function PostAll(log: seq<Notification>, ns: seq<Notification>): (r: seq<Notification>)
    ensures |log| <= |r| <= |log| + |ns| && r[|r| - |log|..] == log
  {
    if |ns| == 0 then
      assert log[0..] == log;
      log
    else
      var prev := PostAll(log, ns[..|ns| - 1]);
      PostKeepsSuffix(prev, ns[|ns| - 1], log);
      Post(prev, ns[|ns| - 1])
  }

  /** One post keeps the old log at the end and adds at most one entry. */
  /** PostAll's suffix guarantee, as a fact to hand to callers with many other terms about. */
  lemma PostAllKeepsLog(log: seq<Notification>, ns: seq<Notification>)
    ensures KeepsOlder(log, PostAll(log, ns))
  {
  }

  lemma PostKeepsSuffix(prev: seq<Notification>, n: Notification, log: seq<Notification>)
    requires |log| <= |prev| && prev[|prev| - |log|..] == log
    ensures var r := Post(prev, n);
      |prev| <= |r| <= |prev| + 1 && r[|r| - |log|..] == log
  {
    if !HasId(prev, n.id) {
      var r := [n] + prev;
      assert r[|r| - |log|..] == prev[|prev| - |log|..];
    }
  }

  /** Every entry PostAll adds is one of the posted notifications. */
  lemma {:induction false} PostAllAddsOnlyPosted(log: seq<Notification>, ns: seq<Notification>)
    ensures forall j :: 0 <= j < |PostAll(log, ns)| - |log| ==> PostAll(log, ns)[j] in ns
  {
    if |ns| > 0 {
      var front, n := ns[..|ns| - 1], ns[|ns| - 1];
      PostAllAddsOnlyPosted(log, front);
      var prev := PostAll(log, front);
      var r := Post(prev, n);
      assert forall j :: 0 <= j < |prev| - |log| ==> prev[j] in front;
      assert PostAll(log, ns) == r;
      forall j | 0 <= j < |r| - |log|
        ensures r[j] in ns
      {
        if r == prev {
          assert r[j] in front;
        } else if j == 0 {
          assert r[j] == n;
        } else {
          assert r[j] == prev[j - 1] && prev[j - 1] in front;
        }
      }
    }
  }

  /** After posting, the log holds exactly its old ids and the posted ones. */
  lemma {:induction false} PostAllHasIds(log: seq<Notification>, ns: seq<Notification>, id: string)
    ensures HasId(PostAll(log, ns), id) <==> HasId(log, id) || exists i :: 0 <= i < |ns| && ns[i].id == id
  {
    if |ns| > 0 {
      var front, n := ns[..|ns| - 1], ns[|ns| - 1];
      PostAllHasIds(log, front, id);
      PostHasIds(PostAll(log, front), n, id);
      assert PostAll(log, ns) == Post(PostAll(log, front), n);
      IdAmongSnoc(ns, id);
      assert forall i :: 0 <= i < |front| ==> front[i] == ns[i];
    }
  }

  /** An id is among a batch when it is among all but the last or is the last one's. */
  lemma IdAmongSnoc(ns: seq<Notification>, id: string)
    requires |ns| > 0
    ensures (exists i :: 0 <= i < |ns| && ns[i].id == id)
      <==> (exists i :: 0 <= i < |ns| - 1 && ns[i].id == id) || ns[|ns| - 1].id == id
  {}

  /** Posting keeps the ids of the log distinct: at most one entry per id. */
  lemma {:induction false} PostAllUnique(log: seq<Notification>, ns: seq<Notification>)
    requires IdsUnique(log)
    ensures IdsUnique(PostAll(log, ns))
  {
    if |ns| > 0 {
      PostAllUnique(log, ns[..|ns| - 1]);
      PostUnique(PostAll(log, ns[..|ns| - 1]), ns[|ns| - 1]);
    }
  }

  /** Posting notifications whose ids are all present already changes nothing. */
  lemma {:induction false} PostAllPresent(log: seq<Notification>, ns: seq<Notification>)
    requires forall i :: 0 <= i < |ns| ==> HasId(log, ns[i].id)
    ensures PostAll(log, ns) == log
  {
    if |ns| > 0 {
      PostAllPresent(log, ns[..|ns| - 1]);
    }
  }

  /** Posting the same batch a second time changes nothing. */
  lemma PostAllIdempotent(log: seq<Notification>, ns: seq<Notification>)
    ensures PostAll(PostAll(log, ns), ns) == PostAll(log, ns)
  {
    forall i | 0 <= i < |ns| ensures HasId(PostAll(log, ns), ns[i].id) {
      PostAllHasIds(log, ns, ns[i].id);
    }
    PostAllPresent(PostAll(log, ns), ns);
  }

  /** `Math.ceil((billingDate - today) / one day)`, None for an Invalid Date (NaN). */
  function DaysUntilBilling(sub: Record, now: int, instant: Option<Value> -> Option<int>): Option<int> {
    match instant(Get(sub, "billingDate"))
    case None => None
    case Some(b) => Some(CeilDiv(b - now, MsPerDay))
  }

  /** The filter of checkUpcomingPayments: 'Active', and billed between 0 and daysBefore whole
      days from now (daysBefore read as a number by the comparison). */
  predicate IsReminderCandidate(settings: Record, now: int, instant: Option<Value> -> Option<int>, sub: Record) {
    IsText(Get(sub, "status"), "Active")
    && match DaysUntilBilling(sub, now, instant)
       case None => false
       case Some(d) => Le(Fin(d as real), ToNumber(Get(settings, "daysBefore"))) && d >= 0
  }

  /** The notification sendPaymentReminder builds; due in three days or less is urgent. */
  function PaymentReminder(sub: Record, now: int, instant: Option<Value> -> Option<int>): (n: Notification)
    ensures n.id == CompositeId("reminder", sub) && n.kind == "payment_reminder" && !n.read
    ensures n.subscriptionId == Get(sub, "id") && n.date == now
    ensures n.priority == "high" <==> DaysUntilBilling(sub, now, instant).Some? && DaysUntilBilling(sub, now, instant).value <= 3
    ensures n.priority == "high" || n.priority == "medium"
  {
    var high := match DaysUntilBilling(sub, now, instant)
      case Some(d) => d <= 3
      case None => false;
    Notification(CompositeId("reminder", sub), "payment_reminder", Get(sub, "id"), now, false,
      if high then "high" else "medium")
  }

  /** The reminders for a list of candidates, in order. */
  function PaymentReminders(cands: seq<Record>, now: int, instant: Option<Value> -> Option<int>): (ns: seq<Notification>)
    ensures |ns| == |cands|
    ensures forall i {:trigger ns[i]} :: 0 <= i < |cands| ==> ns[i] == PaymentReminder(cands[i], now, instant)
  {
    if |cands| == 0 then [] else [PaymentReminder(cands[0], now, instant)] + PaymentReminders(cands[1..], now, instant)
  }

  function ReminderCandidates(settings: Record, subs: seq<Record>, now: int, instant: Option<Value> -> Option<int>): seq<Record> {
    Filter(subs, (sub: Record) => IsReminderCandidate(settings, now, instant, sub))
  }

  /** checkUpcomingPayments. With reminders disabled nothing at all changes, lastCheck
      included; otherwise each candidate's reminder is posted and lastCheck becomes `nowIso`. */
  function CheckUpcoming(st: NotificationState, subs: seq<Record>, now: int, nowIso: string, instant: Option<Value> -> Option<int>): (r: NotificationState)
    ensures !Truthy(Get(st.settings, "enabled")) ==> r == st
    ensures Truthy(Get(st.settings, "enabled")) ==> r.settings == st.settings["lastCheck" := Str(nowIso)]
    ensures KeepsOlder(st.log, r.log)
  {
    if !Truthy(Get(st.settings, "enabled")) then st
    else
      PostBatch(st, PaymentReminders(ReminderCandidates(st.settings, subs, now, instant), now, instant), nowIso)
  }

  /** The enabled branch of checkUpcomingPayments: the batch is posted and lastCheck stamped. */
  function PostBatch(st: NotificationState, ns: seq<Notification>, nowIso: string): (r: NotificationState)
    ensures r.settings == st.settings["lastCheck" := Str(nowIso)]
    ensures KeepsOlder(st.log, r.log)
  {
    NotificationState(PostAll(st.log, ns), st.settings["lastCheck" := Str(nowIso)])
  }

  /** Everything a check adds is an unread payment reminder stamped with the check's time. */
  lemma CheckUpcomingAddsReminders(st: NotificationState, subs: seq<Record>, now: int, nowIso: string, instant: Option<Value> -> Option<int>)
    ensures forall j :: 0 <= j < |CheckUpcoming(st, subs, now, nowIso, instant).log| - |st.log| ==>
      var n := CheckUpcoming(st, subs, now, nowIso, instant).log[j];
      n.kind == "payment_reminder" && !n.read && n.date == now
  {
    if Truthy(Get(st.settings, "enabled")) {
      var ns := PaymentReminders(ReminderCandidates(st.settings, subs, now, instant), now, instant);
      PostAllAddsOnlyPosted(st.log, ns);
      var r := PostAll(st.log, ns);
      assert CheckUpcoming(st, subs, now, nowIso, instant).log == r;
      forall j | 0 <= j < |r| - |st.log|
        ensures r[j].kind == "payment_reminder" && !r[j].read && r[j].date == now
      {
        assert r[j] in ns;
        var k :| 0 <= k < |ns| && ns[k] == r[j];
      }
    }
  }

  /** After an enabled check, every candidate has a reminder for its id and billing date in
      the log; CheckUpcomingOnlyCandidates gives the converse. */
  lemma CheckUpcomingCovers(st: NotificationState, subs: seq<Record>, now: int, nowIso: string, instant: Option<Value> -> Option<int>, sub: Record)
    requires Truthy(Get(st.settings, "enabled"))
    requires sub in subs && IsReminderCandidate(st.settings, now, instant, sub)
    ensures HasId(CheckUpcoming(st, subs, now, nowIso, instant).log, CompositeId("reminder", sub))
  {
    var cands := ReminderCandidates(st.settings, subs, now, instant);
    var k :| 0 <= k < |subs| && subs[k] == sub;
    assert sub in cands;
    var i :| 0 <= i < |cands| && cands[i] == sub;
    var ns := PaymentReminders(cands, now, instant);
    assert ns[i].id == CompositeId("reminder", sub);
    PostAllHasIds(st.log, ns, CompositeId("reminder", sub));
  }

  /** The converse of CheckUpcomingCovers: every entry a check adds is the reminder of a
      subscription that passed the filter. */
  lemma CheckUpcomingOnlyCandidates(st: NotificationState, subs: seq<Record>, now: int, nowIso: string, instant: Option<Value> -> Option<int>)
    ensures forall j :: 0 <= j < |CheckUpcoming(st, subs, now, nowIso, instant).log| - |st.log| ==>
      exists s :: s in subs && IsReminderCandidate(st.settings, now, instant, s)
        && CheckUpcoming(st, subs, now, nowIso, instant).log[j] == PaymentReminder(s, now, instant)
  {
    if Truthy(Get(st.settings, "enabled")) {
      var cands := ReminderCandidates(st.settings, subs, now, instant);
      var ns := PaymentReminders(cands, now, instant);
      PostAllAddsOnlyPosted(st.log, ns);
      var r := PostAll(st.log, ns);
      assert CheckUpcoming(st, subs, now, nowIso, instant).log == r;
      forall j | 0 <= j < |r| - |st.log|
        ensures exists s :: s in subs && IsReminderCandidate(st.settings, now, instant, s) && r[j] == PaymentReminder(s, now, instant)
      {
        assert r[j] in ns;
        var k :| 0 <= k < |ns| && ns[k] == r[j];
        assert cands[k] in subs && IsReminderCandidate(st.settings, now, instant, cands[k]);
      }
    } else {
      assert CheckUpcoming(st, subs, now, nowIso, instant) == st;
    }
  }

  /** A check never puts a second entry with the same id into the log: at most one reminder
      per subscription id and billing date. */
  lemma CheckUpcomingKeepsIdsUnique(st: NotificationState, subs: seq<Record>, now: int, nowIso: string, instant: Option<Value> -> Option<int>)
    requires IdsUnique(st.log)
    ensures IdsUnique(CheckUpcoming(st, subs, now, nowIso, instant).log)
  {
    if Truthy(Get(st.settings, "enabled")) {
      PostAllUnique(st.log, PaymentReminders(ReminderCandidates(st.settings, subs, now, instant), now, instant));
    }
  }

  /** The candidates depend on the settings only through daysBefore. */
  lemma CandidatesReadDaysBefore(s1: Record, s2: Record, subs: seq<Record>, now: int, instant: Option<Value> -> Option<int>)
    requires Get(s1, "daysBefore") == Get(s2, "daysBefore")
    ensures ReminderCandidates(s1, subs, now, instant) == ReminderCandidates(s2, subs, now, instant)
  {
    var p := (sub: Record) => IsReminderCandidate(s1, now, instant, sub);
    var q := (sub: Record) => IsReminderCandidate(s2, now, instant, sub);
    FilterExtensional(subs, p, q);
  }

  /** Recording the check time touches neither the switch nor the day count. */
  lemma LastCheckIsSeparate(settings: Record, iso: string)
    ensures Get(settings["lastCheck" := Str(iso)], "enabled") == Get(settings, "enabled")
    ensures Get(settings["lastCheck" := Str(iso)], "daysBefore") == Get(settings, "daysBefore")
  {}

  /** Checking twice at the same instant posts nothing the second time. */
  lemma CheckUpcomingIdempotent(st: NotificationState, subs: seq<Record>, now: int, nowIso: string, instant: Option<Value> -> Option<int>)
    ensures var once := CheckUpcoming(st, subs, now, nowIso, instant);
      CheckUpcoming(once, subs, now, nowIso, instant) == once
  {
    if Truthy(Get(st.settings, "enabled")) {
      EnabledCheckIdempotent(st, subs, now, nowIso, instant);
    } else {
      assert CheckUpcoming(st, subs, now, nowIso, instant) == st;
    }
  }

  /** Setting a key to the value it already holds leaves the record as it was. */
  lemma UpdateToSameValue(m: Record, k: string, v: Value)
    requires k in m && m[k] == v
    ensures m[k := v] == m
  {
  }

  lemma EnabledCheckIdempotent(st: NotificationState, subs: seq<Record>, now: int, nowIso: string, instant: Option<Value> -> Option<int>)
    requires Truthy(Get(st.settings, "enabled"))
    ensures var once := CheckUpcoming(st, subs, now, nowIso, instant);
      CheckUpcoming(once, subs, now, nowIso, instant) == once
  {
    var s2 := st.settings["lastCheck" := Str(nowIso)];
    LastCheckIsSeparate(st.settings, nowIso);
    CandidatesReadDaysBefore(st.settings, s2, subs, now, instant);
    var cands := ReminderCandidates(st.settings, subs, now, instant);
    var ns := PaymentReminders(cands, now, instant);
    var once := PostBatch(st, ns, nowIso);
    assert CheckUpcoming(st, subs, now, nowIso, instant) == once;
    assert once == NotificationState(PostAll(st.log, ns), s2);
    assert Truthy(Get(once.settings, "enabled"));
    assert ReminderCandidates(s2, subs, now, instant) == cands;
    assert CheckUpcoming(once, subs, now, nowIso, instant) == PostBatch(once, ns, nowIso);
    PostAllIdempotent(st.log, ns);
    UpdateToSameValue(s2, "lastCheck", Str(nowIso));
    assert PostBatch(once, ns, nowIso) == NotificationState(PostAll(once.log, ns), s2);
  }

  /** Two subscriptions whose ids contain no underscore get the same reminder id only when
      their ids and billing dates agree, so the log holds at most one reminder per pair. */
  lemma CompositeIdInjective(prefix: string, a: Record, b: Record)
    requires '_' !in ToText(Get(a, "id")) && '_' !in ToText(Get(b, "id"))
    requires CompositeId(prefix, a) == CompositeId(prefix, b)
    ensures ToText(Get(a, "id")) == ToText(Get(b, "id"))
    ensures ToText(Get(a, "billingDate")) == ToText(Get(b, "billingDate"))
  {
    var x := ToText(Get(a, "id"));
    var y := ToText(Get(b, "id"));
    var u := ToText(Get(a, "billingDate"));
    var v := ToText(Get(b, "billingDate"));
    var p := |prefix| + 1;
    assert CompositeId(prefix, a)[p..] == x + "_" + u;
    assert CompositeId(prefix, b)[p..] == y + "_" + v;
    SplitAtSeparator(x, u, y, v, '_');
  }

  /** A separator-free head is determined by where the first separator falls. */
  lemma SplitAtSeparator(a: string, b: string, c: string, d: string, sep: char)
    requires sep !in a && sep !in c
    requires a + [sep] + b == c + [sep] + d
    ensures a == c && b == d
  {
    var s := a + [sep] + b;
    assert s[|a|] == sep && s[|c|] == sep;
    assert forall k :: 0 <= k < |a| ==> s[k] == a[k];
    assert forall k :: 0 <= k < |c| ==> s[k] == c[k];
    assert |a| == |c|;
    assert a == s[..|a|];
    assert c == s[..|c|];
    assert b == s[|a| + 1..];
    assert d == (c + [sep] + d)[|c| + 1..];
  }

  /** Without that condition ids can collide: subscription "a_b" billed "c" and subscription
      "a" billed "b_c" share one reminder id, so the second one is never reminded. */
  lemma CompositeIdsCanCollide()
    ensures CompositeId("reminder", map["id" := Str("a_b"), "billingDate" := Str("c")])
         == CompositeId("reminder", map["id" := Str("a"), "billingDate" := Str("b_c")])
  {}

  /** The filter of checkOverduePayments: 'Active' and billed before now. */
  predicate IsOverdueCandidate(now: int, instant: Option<Value> -> Option<int>, sub: Record) {
    IsText(Get(sub, "status"), "Active")
    && match instant(Get(sub, "billingDate"))
       case None => false
       case Some(b) => b < now
  }

  function OverdueCandidates(subs: seq<Record>, now: int, instant: Option<Value> -> Option<int>): seq<Record> {
    Filter(subs, (sub: Record) => IsOverdueCandidate(now, instant, sub))
  }

  /** The notification sendOverdueReminder builds: always urgent. */
  function OverdueReminder(sub: Record, now: int): (n: Notification)
    ensures n.id == CompositeId("overdue", sub) && n.kind == "overdue_reminder"
    ensures !n.read && n.priority == "high" && n.subscriptionId == Get(sub, "id") && n.date == now
  {
    Notification(CompositeId("overdue", sub), "overdue_reminder", Get(sub, "id"), now, false, "high")
  }

  function OverdueReminders(cands: seq<Record>, now: int): (ns: seq<Notification>)
    ensures |ns| == |cands|
    ensures forall i {:trigger ns[i]} :: 0 <= i < |cands| ==> ns[i] == OverdueReminder(cands[i], now)
  {
    if |cands| == 0 then [] else [OverdueReminder(cands[0], now)] + OverdueReminders(cands[1..], now)
  }

  lemma OverdueRemindersUrgent(cands: seq<Record>, now: int)
    ensures forall x :: x in OverdueReminders(cands, now) ==>
      x.kind == "overdue_reminder" && x.priority == "high" && !x.read
  {
    var ns := OverdueReminders(cands, now);
    forall x | x in ns
      ensures x.kind == "overdue_reminder" && x.priority == "high" && !x.read
    {
      var i :| 0 <= i < |ns| && ns[i] == x;
    }
  }

  /** checkOverduePayments as written: sendOverdueReminder reads `today`, which is declared in
      the caller and not in scope, so the first candidate whose id is not yet logged raises a
      ReferenceError and the forEach stops there; until then every candidate was a skip. */
  function SendOverdueAsWritten(log: seq<Notification>, cands: seq<Record>): (r: Outcome<seq<Notification>>)
    ensures r.Ok? ==> r.value == log
    ensures r.Throws? <==> exists i :: 0 <= i < |cands| && !HasId(log, CompositeId("overdue", cands[i]))
  {
    if |cands| == 0 then Ok(log)
    else if HasId(log, CompositeId("overdue", cands[0])) then
      var r := SendOverdueAsWritten(log, cands[1..]);
      assert forall i :: 1 <= i < |cands| ==> cands[i] == cands[1..][i - 1];
      r
    else Throws("ReferenceError: today is not defined")
  }

  function CheckOverdueAsWritten(log: seq<Notification>, subs: seq<Record>, now: int, instant: Option<Value> -> Option<int>): Outcome<seq<Notification>> {
    SendOverdueAsWritten(log, OverdueCandidates(subs, now, instant))
  }

  /** checkOverduePayments as evidently intended, with `today` the check's own clock: each
      candidate's urgent overdue notice is posted with the same de-duplication. */
  function CheckOverdue(log: seq<Notification>, subs: seq<Record>, now: int, instant: Option<Value> -> Option<int>): (r: seq<Notification>)
    ensures KeepsOlder(log, r)
  {
    var ns := OverdueReminders(OverdueCandidates(subs, now, instant), now);
    PostAllKeepsLog(log, ns);
    PostAll(log, ns)
  }

  /** Everything PostAll adds from a batch of overdue notices is an urgent, unread one. */
  lemma PostedUrgent(log: seq<Notification>, ns: seq<Notification>)
    requires forall x :: x in ns ==> x.kind == "overdue_reminder" && x.priority == "high" && !x.read
    ensures forall j :: 0 <= j < |PostAll(log, ns)| - |log| ==>
      var n := PostAll(log, ns)[j];
      n.kind == "overdue_reminder" && n.priority == "high" && !n.read
  {
    PostAllAddsOnlyPosted(log, ns);
  }

  /** Everything the corrected check adds is an urgent, unread overdue notice. */
  lemma CheckOverdueAddsUrgent(log: seq<Notification>, subs: seq<Record>, now: int, instant: Option<Value> -> Option<int>)
    ensures forall j :: 0 <= j < |CheckOverdue(log, subs, now, instant)| - |log| ==>
      var n := CheckOverdue(log, subs, now, instant)[j];
      n.kind == "overdue_reminder" && n.priority == "high" && !n.read
  {
    var ns := OverdueReminders(OverdueCandidates(subs, now, instant), now);
    OverdueRemindersUrgent(OverdueCandidates(subs, now, instant), now);
    PostedUrgent(log, ns);
    assert CheckOverdue(log, subs, now, instant) == PostAll(log, ns);
  }

  /** After the corrected check every overdue subscription has its notice in the log. */
  lemma CheckOverdueCovers(log: seq<Notification>, subs: seq<Record>, now: int, instant: Option<Value> -> Option<int>)
    ensures forall i :: 0 <= i < |subs| && IsOverdueCandidate(now, instant, subs[i]) ==>
      HasId(CheckOverdue(log, subs, now, instant), CompositeId("overdue", subs[i]))
  {
    forall i | 0 <= i < |subs| && IsOverdueCandidate(now, instant, subs[i])
      ensures HasId(CheckOverdue(log, subs, now, instant), CompositeId("overdue", subs[i]))
    {
      OverdueCandidateNoticed(log, subs, now, instant, i);
    }
  }

  /** The converse of CheckOverdueCovers: every entry the corrected check adds is the notice
      of an overdue subscription. */
  lemma CheckOverdueOnlyCandidates(log: seq<Notification>, subs: seq<Record>, now: int, instant: Option<Value> -> Option<int>)
    ensures forall j :: 0 <= j < |CheckOverdue(log, subs, now, instant)| - |log| ==>
      exists s :: s in subs && IsOverdueCandidate(now, instant, s)
        && CheckOverdue(log, subs, now, instant)[j] == OverdueReminder(s, now)
  {
    var cands := OverdueCandidates(subs, now, instant);
    var ns := OverdueReminders(cands, now);
    PostAllAddsOnlyPosted(log, ns);
    var r := PostAll(log, ns);
    assert CheckOverdue(log, subs, now, instant) == r;
    forall j | 0 <= j < |r| - |log|
      ensures exists s :: s in subs && IsOverdueCandidate(now, instant, s) && r[j] == OverdueReminder(s, now)
    {
      assert r[j] in ns;
      var k :| 0 <= k < |ns| && ns[k] == r[j];
      assert cands[k] in subs && IsOverdueCandidate(now, instant, cands[k]);
    }
  }

  lemma OverdueCandidateNoticed(log: seq<Notification>, subs: seq<Record>, now: int, instant: Option<Value> -> Option<int>, i: nat)
    requires i < |subs| && IsOverdueCandidate(now, instant, subs[i])
    ensures HasId(PostAll(log, OverdueReminders(OverdueCandidates(subs, now, instant), now)), CompositeId("overdue", subs[i]))
  {
    var cands := OverdueCandidates(subs, now, instant);
    var ns := OverdueReminders(cands, now);
    assert subs[i] in cands;
    var k :| 0 <= k < |cands| && cands[k] == subs[i];
    assert ns[k].id == CompositeId("overdue", subs[i]);
    PostAllHasIds(log, ns, CompositeId("overdue", subs[i]));
  }

  /** The corrected overdue check keeps the ids of the log distinct as well. */
  lemma CheckOverdueKeepsIdsUnique(log: seq<Notification>, subs: seq<Record>, now: int, instant: Option<Value> -> Option<int>)
    requires IdsUnique(log)
    ensures IdsUnique(CheckOverdue(log, subs, now, instant))
  {
    PostAllUnique(log, OverdueReminders(OverdueCandidates(subs, now, instant), now));
  }

  /** The discrepancy: whenever an overdue subscription has no notice yet, the code as written
      throws and logs nothing, while the intended check posts its notice. */
  lemma OverdueAsWrittenThrows(log: seq<Notification>, subs: seq<Record>, now: int, instant: Option<Value> -> Option<int>, k: nat)
    requires k < |subs| && IsOverdueCandidate(now, instant, subs[k])
    requires !HasId(log, CompositeId("overdue", subs[k]))
    ensures CheckOverdueAsWritten(log, subs, now, instant).Throws?
    ensures CheckOverdue(log, subs, now, instant) != log
  {
    var cands := OverdueCandidates(subs, now, instant);
    assert subs[k] in cands;
    var i :| 0 <= i < |cands| && cands[i] == subs[k];
    assert !HasId(log, CompositeId("overdue", cands[i]));
    OverdueCandidateNoticed(log, subs, now, instant, k);
    assert CheckOverdue(log, subs, now, instant) == PostAll(log, OverdueReminders(cands, now));
  }

  /** A concrete instance: one active subscription billed a day ago and an empty log. */
  lemma OverdueAsWrittenExample()
    ensures var sub: Record := map["id" := Str("1"), "status" := Str("Active"), "billingDate" := Str("2025-01-01")];
      var instant := (v: Option<Value>) => if v == Some(Str("2025-01-01")) then Some(0) else None;
      CheckOverdueAsWritten([], [sub], MsPerDay, instant).Throws?
      && |CheckOverdue([], [sub], MsPerDay, instant)| == 1
      && CheckOverdue([], [sub], MsPerDay, instant)[0].priority == "high"
  {
    var sub: Record := map["id" := Str("1"), "status" := Str("Active"), "billingDate" := Str("2025-01-01")];
    var instant := (v: Option<Value>) => if v == Some(Str("2025-01-01")) then Some(0) else None;
    assert IsOverdueCandidate(MsPerDay, instant, sub);
    OverdueAsWrittenThrows([], [sub], MsPerDay, instant, 0);
    assert OverdueCandidates([sub], MsPerDay, instant) == [sub];
  }

  /** markAsRead: the first entry with the id is marked read; an unknown id changes nothing. */
  function MarkAsRead(log: seq<Notification>, id: string): (r: seq<Notification>)
    ensures |r| == |log|
    ensures forall j :: 0 <= j < |log| ==> r[j] == log[j] || (log[j].id == id && r[j] == log[j].(read := true))
    ensures !HasId(log, id) ==> r == log
    ensures HasId(log, id) ==> exists j :: 0 <= j < |r| && r[j].id == id && r[j].read
    ensures forall j, k :: 0 <= j < k < |log| && log[j].id == id ==> r[k] == log[k]
  {
    var i := FindIndex(log, (n: Notification) => n.id == id);
    if i == -1 then log
    else
      var r := log[i := log[i].(read := true)];
      assert r[i].id == id && r[i].read;
      r
  }

  /** clearAllNotifications: the log is emptied; the settings stay. */
  function ClearAllNotifications(st: NotificationState): (r: NotificationState)
    ensures r.log == [] && r.settings == st.settings
  {
    st.(log := [])
  }

  /** updateReminderSettings: a shallow merge in which the new keys win. */
  function UpdateReminderSettings(st: NotificationState, settings: Record): (r: NotificationState)
    ensures r.log == st.log
    ensures r.settings.Keys == st.settings.Keys + settings.Keys
    ensures forall k :: k in settings ==> r.settings[k] == settings[k]
    ensures forall k :: k in st.settings && k !in settings ==> r.settings[k] == st.settings[k]
  {
    st.(settings := st.settings + settings)
  }

  /** After switching reminders off, a check changes nothing. */
  lemma DisabledCheckIsNoop(st: NotificationState, subs: seq<Record>, now: int, nowIso: string, instant: Option<Value> -> Option<int>)
    ensures var off := UpdateReminderSettings(st, map["enabled" := Bool(false)]);
      CheckUpcoming(off, subs, now, nowIso, instant) == off
  {
    var off := UpdateReminderSettings(st, map["enabled" := Bool(false)]);
    assert Get(off.settings, "enabled") == Some(Bool(false));
  }

  /** `(n: Notification) => -date`, the key of the newest-first comparator. */
  function NewestFirst(n: Notification): int {
    -n.date
  }

  /** getNotifications: the log sorted newest first (stably); the sort is in place, so the
      stored log is reordered too. */
  function GetNotifications(st: NotificationState): (r: NotificationState)
    ensures r.settings == st.settings
    ensures multiset(r.log) == multiset(st.log)
    ensures forall i, j :: 0 <= i < j < |r.log| ==> r.log[i].date >= r.log[j].date
    ensures StableFor(r.log, st.log, NewestFirst)
  {
    var sorted := SortBy(st.log, NewestFirst);
    assert forall i, j :: 0 <= i < j < |sorted| ==> NewestFirst(sorted[i]) <= NewestFirst(sorted[j]);
    st.(log := sorted)
  }

  /** Getting the notifications again leaves them as they are. */
  lemma GetNotificationsIdempotent(st: NotificationState)
    ensures GetNotifications(GetNotifications(st)) == GetNotifications(st)
  {
    SortBySortedIsIdentity(SortBy(st.log, NewestFirst), NewestFirst);
  }
}
