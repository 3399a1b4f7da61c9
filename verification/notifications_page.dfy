/** The notifications page (notifications-page.js): the relative-time label of an entry, the
    type filter, the three counters, mark-all-as-read and deletion of one entry. Every
    operation works on the log as getNotifications returns it (sorted newest first, in place);
    the confirmation dialog before a deletion is taken as accepted. */
module NotificationsPage {
  import opened Text
  import opened Js
  import opened Seqs
  import opened Notifications

  /** The bucket getTimeAgo picks. `LocaleDate` stands for `date.toLocaleDateString()`. */
  datatype Ago = JustNow | Ago(count: nat, unit: string) | LocaleDate

  /** getTimeAgo with the clock `now` and the entry's date, both in epoch milliseconds. */
  function TimeAgo(now: int, date: int): (a: Ago)
    ensures var secs := FloorDiv(now - date, 1000);
      && (a.JustNow? <==> secs < 60)
      && (a.LocaleDate? <==> secs >= 2592000)
      && (a.Ago? && a.unit == "minute" <==> 60 <= secs < 3600)
      && (a.Ago? && a.unit == "hour" <==> 3600 <= secs < 86400)
      && (a.Ago? && a.unit == "day" <==> 86400 <= secs < 2592000)
    ensures a.Ago? ==> a.count >= 1
  {
    var secs := FloorDiv(now - date, 1000);
    if secs < 60 then JustNow
    else if secs < 3600 then Ago(secs / 60, "minute")
    else if secs < 86400 then Ago(secs / 3600, "hour")
    else if secs < 2592000 then Ago(secs / 86400, "day")
    else LocaleDate
  }

  /** The length of one unit in seconds. */
  function UnitSeconds(unit: string): nat {
    if unit == "minute" then 60 else if unit == "hour" then 3600 else 86400
  }

  /** The count is the number of whole units elapsed: it never overstates the age and is
      off by less than one unit. */
  lemma TimeAgoCountsWholeUnits(now: int, date: int)
    ensures var a := TimeAgo(now, date);
      var secs := FloorDiv(now - date, 1000);
      a.Ago? ==> a.count * UnitSeconds(a.unit) <= secs < (a.count + 1) * UnitSeconds(a.unit)
  {}

  /** The label `${n} ${unit}${n !== 1 ? 's' : ''} ago`; None for the locale date. */
  function AgoText(a: Ago): Option<string> {
    match a
    case JustNow => Some("Just now")
    case Ago(n, unit) => Some(NatToString(n) + " " + unit + (if n != 1 then "s" else "") + " ago")
    case LocaleDate => None
  }

  /** The plural 's' appears exactly when the count is not 1. */
  lemma PluralIffNotOne(n: nat, unit: string)
    requires unit == "minute" || unit == "hour" || unit == "day"
    ensures EndsWith(AgoText(Ago(n, unit)).value, "s ago") <==> n != 1
  {
    var t := AgoText(Ago(n, unit)).value;
    if n == 1 {
      assert t[|t| - 5] == unit[|unit| - 1];
    }
  }

  /** The buckets in order of age. */
  function BucketRank(a: Ago): nat {
    match a
    case JustNow => 0
    case Ago(_, unit) => if unit == "minute" then 1 else if unit == "hour" then 2 else 3
    case LocaleDate => 4
  }

  /** Older entries never get a younger bucket. */
  lemma TimeAgoMonotone(now: int, d1: int, d2: int)
    requires d2 <= d1
    ensures BucketRank(TimeAgo(now, d1)) <= BucketRank(TimeAgo(now, d2))
  {
    assert FloorDiv(now - d1, 1000) <= FloorDiv(now - d2, 1000);
  }

  predicate IsUnread(n: Notification) { !n.read }
  predicate IsHigh(n: Notification) { n.priority == "high" }
  predicate IsPaymentReminder(n: Notification) { n.kind == "payment_reminder" }
  predicate IsOverdueReminder(n: Notification) { n.kind == "overdue_reminder" }

  /** filterNotifications: 'unread' keeps the unread entries, the two reminder types keep
      their own type, and any other value keeps the whole log. */
  function FilterNotifications(log: seq<Notification>, filter: string): (r: seq<Notification>)
    ensures filter != "unread" && filter != "payment_reminder" && filter != "overdue_reminder" ==> r == log
    ensures filter == "unread" ==> forall n :: n in r <==> n in log && !n.read
    ensures filter == "payment_reminder" || filter == "overdue_reminder" ==>
      forall n :: n in r <==> n in log && n.kind == filter
  {
    if filter == "unread" then Filter(log, IsUnread)
    else if filter == "payment_reminder" then Filter(log, IsPaymentReminder)
    else if filter == "overdue_reminder" then Filter(log, IsOverdueReminder)
    else log
  }

  /** Whether the filter shows one entry. */
  predicate Shows(filter: string, n: Notification) {
    match filter
    case "unread" => !n.read
    case "payment_reminder" => n.kind == filter
    case "overdue_reminder" => n.kind == filter
    case _ => true
  }

  /** The filter keeps order and duplicates: on two runs of entries it filters each and keeps
      them in order. */
  lemma FilterNotificationsAppend(a: seq<Notification>, b: seq<Notification>, filter: string)
    ensures FilterNotifications(a + b, filter) == FilterNotifications(a, filter) + FilterNotifications(b, filter)
  {
    FilterConcat(a, b, IsUnread);
    FilterConcat(a, b, IsPaymentReminder);
    FilterConcat(a, b, IsOverdueReminder);
  }

  /** A single entry stays exactly when the filter shows it. */
  lemma FilterNotificationsOne(n: Notification, filter: string)
    ensures FilterNotifications([n], filter) == if Shows(filter, n) then [n] else []
  {
    FilterConcat([n], [], IsUnread);
    FilterConcat([n], [], IsPaymentReminder);
    FilterConcat([n], [], IsOverdueReminder);
  }

  /** The three counters of updateNotificationStats. */
  datatype Stats = Stats(total: nat, unread: nat, high: nat)

  function NotificationStats(log: seq<Notification>): (s: Stats)
    ensures s.total == |log|
    ensures s.unread <= s.total && s.high <= s.total
    ensures s.unread == 0 <==> forall i :: 0 <= i < |log| ==> log[i].read
    ensures s.unread == |set i | 0 <= i < |log| && !log[i].read|
    ensures s.high == |set i | 0 <= i < |log| && log[i].priority == "high"|
  {
    CountsArePositions(log);
    var unread := Filter(log, IsUnread);
    assert unread == [] <==> forall i :: 0 <= i < |log| ==> log[i].read by {
      if unread != [] { assert IsUnread(unread[0]); }
    }
    Stats(|log|, Count(log, IsUnread), Count(log, IsHigh))
  }

  /** Both counters count positions of the log. */
  lemma CountsArePositions(log: seq<Notification>)
    ensures Count(log, IsUnread) == |set i | 0 <= i < |log| && !log[i].read|
    ensures Count(log, IsHigh) == |set i | 0 <= i < |log| && log[i].priority == "high"|
  {
    CountIsIndexCount(log, IsUnread);
    CountIsIndexCount(log, IsHigh);
    var u := set i | 0 <= i < |log| && !log[i].read;
    assert forall i :: i in Positions(log, IsUnread) <==> i in u;
    assert Positions(log, IsUnread) == u;
    var h := set i | 0 <= i < |log| && log[i].priority == "high";
    assert forall i :: i in Positions(log, IsHigh) <==> i in h;
    assert Positions(log, IsHigh) == h;
  }

  /** The unread counter is the number of entries the 'unread' filter shows. */
  lemma UnreadCountIsFilterLength(log: seq<Notification>)
    ensures NotificationStats(log).unread == |FilterNotifications(log, "unread")|
  {}

  /** markAllAsRead: every entry becomes read; nothing else about it changes. */
  function AllRead(log: seq<Notification>): (r: seq<Notification>)
    ensures |r| == |log|
    ensures forall i :: 0 <= i < |r| ==> r[i].read && r[i].(read := log[i].read) == log[i]
  {
    seq(|log|, i requires 0 <= i < |log| => log[i].(read := true))
  }

  function MarkAllAsRead(st: NotificationState): (r: NotificationState)
    ensures r.settings == st.settings
    ensures |r.log| == |st.log| == |GetNotifications(st).log|
    ensures NotificationStats(r.log).unread == 0
    ensures forall i :: 0 <= i < |r.log| ==>
      r.log[i].read && r.log[i].(read := GetNotifications(st).log[i].read) == GetNotifications(st).log[i]
  {
    var shown := GetNotifications(st);
    shown.(log := AllRead(shown.log))
  }

  /** Marking all as read keeps the high-priority counter. */
  lemma {:induction false} AllReadKeepsHigh(log: seq<Notification>)
    ensures Count(AllRead(log), IsHigh) == Count(log, IsHigh)
  {
    if |log| > 0 {
      var front := log[..|log| - 1];
      var last := log[|log| - 1];
      var marked := last.(read := true);
      AllReadKeepsHigh(front);
      assert AllRead(log) == AllRead(front) + [marked] by {
        forall i | 0 <= i < |log| ensures AllRead(log)[i] == (AllRead(front) + [marked])[i] {
          if i < |front| {
            assert log[i] == front[i];
          }
        }
      }
      assert log == front + [last];
      assert IsHigh(marked) == IsHigh(last);
      FilterSnoc(front, last, IsHigh);
      FilterSnoc(AllRead(front), marked, IsHigh);
    }
  }

  /** deleteNotification: the first entry with the id is spliced out; an unknown id changes
      nothing. */
  function DeleteNotification(st: NotificationState, id: string): (r: NotificationState)
    ensures r.settings == st.settings
    ensures !HasId(st.log, id) ==> r == GetNotifications(st)
    ensures HasId(st.log, id) ==> |r.log| == |st.log| - 1
    ensures forall n :: n in r.log ==> n in st.log
    ensures HasId(st.log, id) ==> exists i :: (0 <= i < |GetNotifications(st).log|
      && GetNotifications(st).log[i].id == id
      && (forall j :: 0 <= j < i ==> GetNotifications(st).log[j].id != id)
      && r.log == GetNotifications(st).log[..i] + GetNotifications(st).log[i + 1..])
  {
    var shown := GetNotifications(st);
    assert forall n :: n in shown.log <==> n in st.log by {
      SameElements(shown.log, st.log);
    }
    var i := FindIndex(shown.log, (n: Notification) => n.id == id);
    if i == -1 then
      assert !HasId(st.log, id) by {
        forall j | 0 <= j < |st.log| ensures st.log[j].id != id {
          assert st.log[j] in shown.log;
        }
      }
      shown
    else
      assert HasId(st.log, id) by { assert shown.log[i] in st.log; }
      shown.(log := RemoveAt(shown.log, i))
  }

  /** With unique ids, a deleted id is gone afterwards and the other entries all remain. */
  lemma DeleteRemovesOnlyThatId(st: NotificationState, id: string)
    requires IdsUnique(GetNotifications(st).log)
    ensures var r := DeleteNotification(st, id);
      && !HasId(r.log, id)
      && forall n :: n in st.log && n.id != id ==> n in r.log
  {
    var shown := GetNotifications(st).log;
    SameElements(shown, st.log);
    var r := DeleteNotification(st, id).log;
    var i := FindIndex(shown, (n: Notification) => n.id == id);
    if i != -1 {
      assert r == RemoveAt(shown, i);
      RemoveUniqueId(shown, i);
    }
  }

  /** Removing the entry at i from a log with unique ids removes its id and keeps every
      entry with another id. */
  lemma RemoveUniqueId(log: seq<Notification>, i: nat)
    requires IdsUnique(log) && i < |log|
    ensures !HasId(RemoveAt(log, i), log[i].id)
    ensures forall n :: n in log && n.id != log[i].id ==> n in RemoveAt(log, i)
  {
    var r, id := RemoveAt(log, i), log[i].id;
    forall j | 0 <= j < |r| ensures r[j].id != id {
      if j < i { assert r[j] == log[j]; } else { assert r[j] == log[j + 1]; }
    }
    forall n | n in log && n.id != id ensures n in r {
      var k :| 0 <= k < |log| && log[k] == n;
      if k < i { assert r[k] == n; } else { assert r[k - 1] == n; }
    }
  }
}
