/** The dashboard page (dashboard.js): the day count to a billing date, the three stat
    cards, the search box with the status filter, the billing note of each table row, the
    service icon and the import of a backup file. Records are the page's own: a
    serviceName, an amount, a billingDate and a capitalised status. The clock and the
    reading of a date string are parameters. */
module Dashboard {
  import opened Text
  import opened Js
  import opened Seqs
  import opened Calendar
  import opened Subscriptions
  import opened Notifications
  import opened Auth
  import opened Settings

  /** getDaysUntilBilling is the same computation as the reminder check's: the billing
      instant minus now, in days, rounded up; an unreadable date gives NaN (None). */
  lemma DaysUntilBillingIsCeiling(sub: Record, now: int, instant: Option<Value> -> Option<int>)
    ensures DaysUntilBilling(sub, now, instant).None? <==> instant(Get(sub, "billingDate")).None?
    ensures DaysUntilBilling(sub, now, instant).Some? ==>
      var d := DaysUntilBilling(sub, now, instant).value;
      var b := instant(Get(sub, "billingDate")).value;
      (d - 1) * MsPerDay < b - now <= d * MsPerDay
  {}

  // ---------------------------------------------------------------------------
  // updateStats
  // ---------------------------------------------------------------------------

  /** The upcoming card's filter: 'Active' and billed within 0 to 7 days; NaN fails both
      comparisons. */
  predicate DueWithinWeek(now: int, instant: Option<Value> -> Option<int>, sub: Record) {
    MarkedActive(sub)
    && DaysUntilBilling(sub, now, instant).Some?
    && 0 <= DaysUntilBilling(sub, now, instant).value <= 7
  }

  datatype DashboardStats = DashboardStats(activeSubscriptions: nat, totalAmount: Number, upcomingPayments: nat)

  /** updateStats: the number of 'Active' records, their raw amounts summed by the same
      reduce as the settings page (no cycle normalisation), and the number due within a
      week. */
  function UpdateStats(subs: seq<Record>, now: int, instant: Option<Value> -> Option<int>): (r: DashboardStats)
    ensures r.activeSubscriptions == Count(subs, MarkedActive)
    ensures r.totalAmount == ActiveCost(subs)
    ensures r.upcomingPayments == Count(subs, (sub: Record) => DueWithinWeek(now, instant, sub))
    ensures r.upcomingPayments <= r.activeSubscriptions
  {
    var due := (sub: Record) => DueWithinWeek(now, instant, sub);
    FilterStrongerKeepsFewer(subs, MarkedActive, due);
    DashboardStats(Count(subs, MarkedActive), ActiveCost(subs), Count(subs, due))
  }

  // ---------------------------------------------------------------------------
  // searchSubscriptions
  // ---------------------------------------------------------------------------

  /** The name filter: the lower-cased serviceName contains the term. */
  predicate NameContains(term: string, sub: Record) {
    Get(sub, "serviceName").Some? && Get(sub, "serviceName").value.Str?
    && Includes(ToLower(Get(sub, "serviceName").value.s), term)
  }

  /** The status filter: `sub.status === statusFilter`. */
  predicate StatusIs(statusFilter: string, sub: Record) {
    IsText(Get(sub, "status"), statusFilter)
  }

  /** What the search keeps: the name filter when a term is typed, then the status filter
      unless 'all' is selected. */
  predicate Shown(term: string, statusFilter: string, sub: Record) {
    (term == "" || NameContains(term, sub)) && (statusFilter == "all" || StatusIs(statusFilter, sub))
  }

  /** searchSubscriptions: with a term typed, a record whose serviceName is not a string
      makes `toLowerCase` throw; otherwise the result is the records the two filters keep,
      in their stored order. */
  function SearchSubscriptions(subs: seq<Record>, typed: string, statusFilter: string): (r: Outcome<seq<Record>>)
    ensures r.Throws? <==> ToLower(typed) != "" && exists i :: (0 <= i < |subs|
      && !(Get(subs[i], "serviceName").Some? && Get(subs[i], "serviceName").value.Str?))
    ensures r.Ok? ==> r.value == Filter(subs, (sub: Record) => Shown(ToLower(typed), statusFilter, sub))
  {
    var term := ToLower(typed);
    var named := (sub: Record) => term == "" || NameContains(term, sub);
    var status := (sub: Record) => statusFilter == "all" || StatusIs(statusFilter, sub);
    if term != "" && exists i :: 0 <= i < |subs| && !(Get(subs[i], "serviceName").Some? && Get(subs[i], "serviceName").value.Str?) then
      Throws("TypeError")
    else
      var byName := if term != "" then Filter(subs, named) else subs;
      var both := if statusFilter != "all" then Filter(byName, status) else byName;
      assert both == Filter(subs, (sub: Record) => Shown(term, statusFilter, sub)) by {
        if term == "" { FilterKeepsAll(subs, named); }
        assert byName == Filter(subs, named);
        if statusFilter == "all" { FilterKeepsAll(byName, status); }
        assert both == Filter(byName, status);
        FilterTwice(subs, named, status, (sub: Record) => Shown(term, statusFilter, sub));
      }
      Ok(both)
  }

  /** With nothing typed and 'all' selected, every record is listed, in order. */
  lemma EmptySearchListsAll(subs: seq<Record>)
    ensures SearchSubscriptions(subs, "", "all") == Ok(subs)
  {
    FilterKeepsAll(subs, (sub: Record) => Shown(ToLower(""), "all", sub));
  }

  /** A record is listed exactly when its name contains the term and its status is the
      selected one. */
  lemma SearchMembers(subs: seq<Record>, typed: string, statusFilter: string, sub: Record)
    requires SearchSubscriptions(subs, typed, statusFilter).Ok?
    ensures sub in SearchSubscriptions(subs, typed, statusFilter).value
      <==> sub in subs && Shown(ToLower(typed), statusFilter, sub)
  {
    var r := SearchSubscriptions(subs, typed, statusFilter).value;
    if sub in r {
      var i :| 0 <= i < |r| && r[i] == sub;
    }
    if sub in subs && Shown(ToLower(typed), statusFilter, sub) {
      var i :| 0 <= i < |subs| && subs[i] == sub;
    }
  }

  // ---------------------------------------------------------------------------
  // The billing note of renderSubscriptionsTable
  // ---------------------------------------------------------------------------

  /** The note after the billing date: none, "(Overdue by n days)" or "(n days left)". */
  datatype Note = NoNote | OverdueBy(days: nat) | DaysLeft(days: nat)

  /** Only 'Active' rows get a note: a negative day count is overdue by its absolute
      value, 0 to 7 is days left, and anything later (or NaN) gets nothing. */
  function BillingNote(sub: Record, now: int, instant: Option<Value> -> Option<int>): (n: Note)
    ensures n.OverdueBy? <==> MarkedActive(sub) && DaysUntilBilling(sub, now, instant).Some?
                               && DaysUntilBilling(sub, now, instant).value < 0
    ensures n.OverdueBy? ==> n.days > 0 && n.days == -DaysUntilBilling(sub, now, instant).value
    ensures n.DaysLeft? <==> DueWithinWeek(now, instant, sub)
    ensures n.DaysLeft? ==> n.days == DaysUntilBilling(sub, now, instant).value
  {
    if !MarkedActive(sub) then NoNote
    else match DaysUntilBilling(sub, now, instant)
      case None => NoNote
      case Some(d) =>
        if d < 0 then OverdueBy(-d)
        else if d <= 7 then DaysLeft(d)
        else NoNote
  }

  /** The upcoming card counts exactly the rows that show "days left". */
  lemma UpcomingCountsDaysLeftNotes(subs: seq<Record>, now: int, instant: Option<Value> -> Option<int>)
    ensures UpdateStats(subs, now, instant).upcomingPayments
      == Count(subs, (sub: Record) => BillingNote(sub, now, instant).DaysLeft?)
  {
    FilterExtensional(subs, (sub: Record) => DueWithinWeek(now, instant, sub),
                      (sub: Record) => BillingNote(sub, now, instant).DaysLeft?);
  }

  // ---------------------------------------------------------------------------
  // getServiceIcon
  // ---------------------------------------------------------------------------

  /** The icon rules in the order they are tried: any of the words, then the icon. */
  const IconRules: seq<(seq<string>, string)> := [
    (["netflix"], "tv"),
    (["spotify", "music"], "music"),
    (["adobe"], "paint-brush"),
    (["microsoft", "office"], "file-word"),
    (["google"], "google"),
    (["amazon"], "amazon"),
    (["apple"], "apple"),
    (["youtube"], "youtube"),
    (["dropbox"], "dropbox"),
    (["slack"], "slack")]

  const DefaultIcon := "credit-card"

  predicate RuleMatches(rule: (seq<string>, string), name: string) {
    exists w :: w in rule.0 && Includes(name, w)
  }

  /** The icon of the first rule one of whose words the name contains. */
  function FirstIcon(rules: seq<(seq<string>, string)>, name: string): (r: string)
    ensures (forall i :: 0 <= i < |rules| ==> !RuleMatches(rules[i], name)) ==> r == DefaultIcon
    ensures (exists i :: 0 <= i < |rules| && RuleMatches(rules[i], name)) ==>
      exists i :: (0 <= i < |rules| && RuleMatches(rules[i], name) && r == rules[i].1
                   && forall j :: 0 <= j < i ==> !RuleMatches(rules[j], name))
  {
    if |rules| == 0 then DefaultIcon
    else if RuleMatches(rules[0], name) then rules[0].1
    else
      var r := FirstIcon(rules[1..], name);
      assert forall i :: 1 <= i < |rules| ==> rules[i] == rules[1..][i - 1];
      if exists i :: 0 <= i < |rules| && RuleMatches(rules[i], name) then
        var m :| 0 <= m < |rules| && RuleMatches(rules[m], name);
        assert RuleMatches(rules[1..][m - 1], name);
        var k :| 0 <= k < |rules[1..]| && RuleMatches(rules[1..][k], name) && r == rules[1..][k].1
                 && forall j :: 0 <= j < k ==> !RuleMatches(rules[1..][j], name);
        assert forall j :: 0 <= j < k + 1 ==> !RuleMatches(rules[j], name) by {
          forall j | 0 <= j < k + 1 ensures !RuleMatches(rules[j], name) {
            if j > 0 { assert rules[j] == rules[1..][j - 1]; }
          }
        }
        assert RuleMatches(rules[k + 1], name) && r == rules[k + 1].1;
        r
      else r
  }

  /** getServiceIcon: the name is lower-cased (a non-string name throws) and the rules are
      tried in order; no rule gives 'credit-card'. */
  function GetServiceIcon(serviceName: Value): (r: Outcome<string>)
    ensures r.Ok? <==> serviceName.Str?
    ensures r.Ok? ==> r.value == FirstIcon(IconRules, ToLower(serviceName.s))
  {
    match serviceName
    case Str(s) => Ok(FirstIcon(IconRules, ToLower(s)))
    case _ => Throws("TypeError")
  }

  /** No rule's icon is the default, so the default means that no rule matched. */
  lemma DefaultIconMeansNoMatch(serviceName: string)
    ensures GetServiceIcon(Str(serviceName)).value == DefaultIcon
      <==> forall i :: 0 <= i < |IconRules| ==> !RuleMatches(IconRules[i], ToLower(serviceName))
  {
    assert forall i :: 0 <= i < |IconRules| ==> IconRules[i].1 != DefaultIcon;
  }

  // ---------------------------------------------------------------------------
  // importData
  // ---------------------------------------------------------------------------

  /** importData: only a bare list is accepted, and it replaces the subscriptions
      wholesale; anything else leaves them as they were. */
  function ImportData(subs: seq<Record>, data: Imported): (r: (seq<Record>, Reply))
    ensures r.1 == Accepted <==> data.ImportedList?
    ensures data.ImportedList? ==> r.0 == data.records
    ensures !data.ImportedList? ==> r.0 == subs
  {
    match data
    case ImportedList(records) => (records, Accepted)
    case _ => (subs, Refused("Invalid file format"))
  }

  /** The settings page's export is an object, which this page refuses, although the
      settings page itself takes it back. */
  lemma SettingsExportRefusedHere(st: SettingsState, nowIso: string)
    ensures ImportData(st.subscriptions, ExportData(st, nowIso)) == (st.subscriptions, Refused("Invalid file format"))
    ensures Settings.ImportData(st, ExportData(st, nowIso)).1 == Accepted
  {
    ExportThenImport(st, nowIso);
  }
}
