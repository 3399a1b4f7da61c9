/** SubscriptionAnalytics (subscription-analytics.js): the next payment date reached by
    stepping the start date forward one billing period at a time, the six-month spending
    trend, the payments still due this month, and the share of the highest category. The
    monthly amount, the category totals and the highest-category reduce are the ones in
    Billing, which this file repeats verbatim. `today` is the clock and `civil` reads the
    date fields. */
module Analytics {
  import opened Js
  import opened Seqs
  import opened Calendar
  import opened Billing

  /** One turn of the loop in calculateNextPaymentDate: setFullYear(+1) for 'yearly',
      setMonth(+3) for 'quarterly', and setMonth(+1) for any other cycle. */
  function Step(d: DateTime, cycle: Option<Value>): (r: DateTime)
    requires Valid(d)
    ensures Valid(r) && Before(d, r)
    ensures MonthIndex(r) >= MonthIndex(d) + 1
  {
    if IsText(cycle, "yearly") then
      AddYearsMovesLater(d, 1);
      AddYears(d, 1)
    else if IsText(cycle, "quarterly") then
      AddMonthsMovesLater(d, 3);
      AddMonths(d, 3)
    else
      AddMonthsMovesLater(d, 1);
      AddMonths(d, 1)
  }

  /** The date after k turns of the loop. */
  function Steps(d: DateTime, cycle: Option<Value>, k: nat): (r: DateTime)
    requires Valid(d)
    ensures Valid(r)
    decreases k
  {
    if k == 0 then d else Steps(Step(d, cycle), cycle, k - 1)
  }

  /** `while (nextPayment < today) step`: the loop ends because every step moves at least
      one calendar month on, and today is finitely many months away. */
  function NextPayment(d: DateTime, today: DateTime, cycle: Option<Value>): (r: DateTime)
    requires Valid(d) && Valid(today)
    ensures Valid(r)
    ensures !Before(r, today)
    ensures !Before(d, today) ==> r == d
    decreases MonthIndex(today) - MonthIndex(d)
  {
    if !Before(d, today) then d
    else
      BeforeMonthIndex(d, today);
      NextPayment(Step(d, cycle), today, cycle)
  }

  /** The first k dates of the step sequence are all before today. */
  predicate AllBefore(d: DateTime, cycle: Option<Value>, k: nat, today: DateTime)
    requires Valid(d)
  {
    forall j: nat :: j < k ==> Before(Steps(d, cycle, j), today)
  }

  /** The loop's result is the first date of the step sequence that is not before today. */
  lemma {:induction false} NextPaymentIsFirstStep(d: DateTime, today: DateTime, cycle: Option<Value>)
    requires Valid(d) && Valid(today)
    ensures exists k: nat :: (NextPayment(d, today, cycle) == Steps(d, cycle, k) && AllBefore(d, cycle, k, today))
    decreases MonthIndex(today) - MonthIndex(d)
  {
    if !Before(d, today) {
      assert NextPayment(d, today, cycle) == Steps(d, cycle, 0) && AllBefore(d, cycle, 0, today);
    } else {
      BeforeMonthIndex(d, today);
      var e := Step(d, cycle);
      NextPaymentIsFirstStep(e, today, cycle);
      var k: nat :| NextPayment(e, today, cycle) == Steps(e, cycle, k) && AllBefore(e, cycle, k, today);
      assert NextPayment(d, today, cycle) == NextPayment(e, today, cycle);
      assert Steps(d, cycle, k + 1) == Steps(e, cycle, k);
      assert AllBefore(d, cycle, k + 1, today) by {
        forall j: nat | j < k + 1 ensures Before(Steps(d, cycle, j), today) {
          if j > 0 {
            assert Steps(d, cycle, j) == Steps(e, cycle, j - 1);
          }
        }
      }
    }
  }

  /** calculateNextPaymentDate. An unreadable start date is an Invalid Date, which the
      loop condition never holds for; it is returned as None. */
  function NextPaymentDate(sub: Record, today: DateTime, civil: Option<Value> -> Option<DateTime>): (r: Option<DateTime>)
    requires Valid(today)
    requires forall v :: civil(v).Some? ==> Valid(civil(v).value)
    ensures r.None? <==> civil(Get(sub, "startDate")).None?
    ensures r.Some? ==> Valid(r.value) && !Before(r.value, today)
    ensures r.Some? && !Before(civil(Get(sub, "startDate")).value, today) ==> r.value == civil(Get(sub, "startDate")).value
  {
    match civil(Get(sub, "startDate"))
    case None => None
    case Some(start) => Some(NextPayment(start, today, Get(sub, "billingCycle")))
  }

  /** `new Date(sub.startDate) <= date`: false for an unreadable start date. */
  predicate StartedBy(civil: Option<Value> -> Option<DateTime>, date: DateTime, sub: Record) {
    civil(Get(sub, "startDate")).Some? && !Before(date, civil(Get(sub, "startDate")).value)
  }

  /** The total of one trend month: the monthly amounts of the subscriptions started by the
      first of that month, added in list order from 0. */
  function TrendPoint(subs: seq<Record>, date: DateTime, civil: Option<Value> -> Option<DateTime>): Number {
    Spending(Filter(subs, StartedOn(civil, date)))
  }

  /** `sub => new Date(sub.startDate) <= date` as a filter callback. */
  function StartedOn(civil: Option<Value> -> Option<DateTime>, date: DateTime): Record -> bool {
    (sub: Record) => StartedBy(civil, date, sub)
  }

  /** The spending of the subscriptions started by a date, read straight off the list: each
      started one adds its monthly amount, in list order from 0, and the others add nothing. */
  function StartedSpending(subs: seq<Record>, date: DateTime, civil: Option<Value> -> Option<DateTime>): Number {
    if |subs| == 0 then Fin(0.0)
    else
      var before := StartedSpending(subs[..|subs| - 1], date, civil);
      if StartedBy(civil, date, subs[|subs| - 1]) then Add(before, MonthlyEquivalent(subs[|subs| - 1])) else before
  }

  /** One trend point is the spending of exactly the subscriptions started by its date. */
  lemma {:induction false} TrendPointIsStartedSpending(subs: seq<Record>, date: DateTime, civil: Option<Value> -> Option<DateTime>)
    ensures TrendPoint(subs, date, civil) == StartedSpending(subs, date, civil)
  {
    if |subs| > 0 {
      var front := subs[..|subs| - 1];
      var last := subs[|subs| - 1];
      assert subs == front + [last];
      TrendPointIsStartedSpending(front, date, civil);
      SpendingFilterSnoc(front, last, StartedOn(civil, date));
    }
  }

  /** calculateMonthlyTrend without the month labels: the first days of the six months
      ending with the current one, oldest first, and the total for each. */
  datatype Trend = Trend(months: seq<DateTime>, amounts: seq<Number>)

  function MonthlyTrend(subs: seq<Record>, today: DateTime, civil: Option<Value> -> Option<DateTime>): (t: Trend)
    requires Valid(today)
    ensures |t.months| == 6 && |t.amounts| == 6
    ensures forall j :: 0 <= j < 6 ==>
      Valid(t.months[j]) && t.months[j].day == 1 && t.months[j].time == 0
      && MonthIndex(t.months[j]) == MonthIndex(today) - 5 + j
    ensures MonthIndex(t.months[5]) == MonthIndex(today)
  {
    var months := seq(6, j requires 0 <= j < 6 => MonthStart(today, 5 - j));
    Trend(months, seq(6, j requires 0 <= j < 6 => TrendPoint(subs, months[j], civil)))
  }

  /** Every monthly amount is a number and none is negative. */
  predicate NonNegativeAmounts(subs: seq<Record>) {
    forall i :: 0 <= i < |subs| ==> MonthlyEquivalent(subs[i]).Fin? && MonthlyEquivalent(subs[i]).r >= 0.0
  }

  lemma SpendingSnoc(x: seq<Record>, y: Record)
    ensures Spending(x + [y]) == Add(Spending(x), MonthlyEquivalent(y))
  {
    assert (x + [y])[..|x|] == x;
  }

  /** Filtering one more subscription at the end adds its amount exactly when it is kept. */
  lemma SpendingFilterSnoc(front: seq<Record>, last: Record, p: Record -> bool)
    ensures Spending(Filter(front + [last], p))
         == if p(last) then Add(Spending(Filter(front, p)), MonthlyEquivalent(last)) else Spending(Filter(front, p))
  {
    FilterSnoc(front, last, p);
    if p(last) {
      SpendingSnoc(Filter(front, p), last);
    } else {
      assert Filter(front, p) + [] == Filter(front, p);
    }
  }

  lemma AddKeepsOrder(a: Number, b: Number, m: Number, pl: bool, ql: bool)
    requires a.Fin? && b.Fin? && 0.0 <= a.r <= b.r
    requires m.Fin? && m.r >= 0.0 && (pl ==> ql)
    ensures var x := if pl then Add(a, m) else a;
      var y := if ql then Add(b, m) else b;
      x.Fin? && y.Fin? && 0.0 <= x.r <= y.r
  {}

  /** With non-negative amounts, keeping more subscriptions never lowers the sum, and the
      sum is never negative. */
  lemma {:induction false} SpendingFilterMonotone(s: seq<Record>, p: Record -> bool, q: Record -> bool)
    requires NonNegativeAmounts(s)
    requires forall i :: 0 <= i < |s| && p(s[i]) ==> q(s[i])
    ensures Spending(Filter(s, p)).Fin? && Spending(Filter(s, q)).Fin?
    ensures 0.0 <= Spending(Filter(s, p)).r <= Spending(Filter(s, q)).r
  {
    if |s| > 0 {
      var front := s[..|s| - 1];
      var last := s[|s| - 1];
      assert s == front + [last];
      assert NonNegativeAmounts(front) by {
        forall i | 0 <= i < |front| ensures front[i] == s[i] {}
      }
      SpendingFilterMonotone(front, p, q);
      SpendingFilterSnoc(front, last, p);
      SpendingFilterSnoc(front, last, q);
      AddKeepsOrder(Spending(Filter(front, p)), Spending(Filter(front, q)), MonthlyEquivalent(last), p(last), q(last));
    }
  }

  /** A subscription started by some date is started by every later date. */
  lemma StartedByLater(subs: seq<Record>, civil: Option<Value> -> Option<DateTime>, d1: DateTime, d2: DateTime)
    requires !Before(d2, d1)
    ensures forall i :: 0 <= i < |subs| && StartedBy(civil, d1, subs[i]) ==> StartedBy(civil, d2, subs[i])
  {}

  /** With non-negative amounts the trend never decreases: a later month counts every
      subscription an earlier month counts. */
  lemma TrendNondecreasing(subs: seq<Record>, today: DateTime, civil: Option<Value> -> Option<DateTime>, j: nat)
    requires Valid(today) && NonNegativeAmounts(subs) && j < 5
    ensures var t := MonthlyTrend(subs, today, civil);
      t.amounts[j].Fin? && t.amounts[j + 1].Fin? && t.amounts[j].r <= t.amounts[j + 1].r
  {
    var t := MonthlyTrend(subs, today, civil);
    var d1 := t.months[j];
    var d2 := t.months[j + 1];
    assert !Before(d2, d1);
    StartedByLater(subs, civil, d1, d2);
    SpendingFilterMonotone(subs, StartedOn(civil, d1), StartedOn(civil, d2));
  }

  /** The amount of trend month j is the spending of the subscriptions started by the
      first day of that month. */
  lemma TrendAmountIsStartedSpending(subs: seq<Record>, today: DateTime, civil: Option<Value> -> Option<DateTime>, j: nat)
    requires Valid(today) && j < 6
    ensures var t := MonthlyTrend(subs, today, civil);
      t.amounts[j] == StartedSpending(subs, t.months[j], civil)
  {
    TrendPointIsStartedSpending(subs, MonthlyTrend(subs, today, civil).months[j], civil);
  }

  /** `{...sub, nextPayment}` as the upcoming list holds it. */
  datatype Payment = Payment(sub: Record, nextPayment: DateTime)

  /** A subscription's next payment falls on or before the last day of this month at
      midnight. An Invalid Date compares false and so never qualifies. */
  predicate DueThisMonth(sub: Record, today: DateTime, civil: Option<Value> -> Option<DateTime>)
    requires Valid(today)
    requires forall v :: civil(v).Some? ==> Valid(civil(v).value)
  {
    var np := NextPaymentDate(sub, today, civil);
    np.Some? && !Before(EndOfMonth(today), np.value)
  }

  /** The map-then-filter part of updateUpcomingPayments, in list order. */
  function DueList(subs: seq<Record>, today: DateTime, civil: Option<Value> -> Option<DateTime>): (r: seq<Payment>)
    requires Valid(today)
    requires forall v :: civil(v).Some? ==> Valid(civil(v).value)
    ensures |r| <= |subs|
  {
    if |subs| == 0 then []
    else
      var rest := DueList(subs[1..], today, civil);
      if DueThisMonth(subs[0], today, civil) then
        [Payment(subs[0], NextPaymentDate(subs[0], today, civil).value)] + rest
      else rest
  }

  /** A payment is listed exactly when its subscription is in the list and due this month,
      with the date the loop computes. */
  lemma {:induction false} DueListMembers(subs: seq<Record>, today: DateTime, civil: Option<Value> -> Option<DateTime>, p: Payment)
    requires Valid(today)
    requires forall v :: civil(v).Some? ==> Valid(civil(v).value)
    ensures p in DueList(subs, today, civil) <==>
      (p.sub in subs && DueThisMonth(p.sub, today, civil)
       && NextPaymentDate(p.sub, today, civil) == Some(p.nextPayment))
  {
    if |subs| > 0 {
      DueListMembers(subs[1..], today, civil, p);
      assert subs == [subs[0]] + subs[1..];
    }
  }

  function PaymentKey(p: Payment): int {
    Ordinal(p.nextPayment)
  }

  /** updateUpcomingPayments: the payments due by the end of this month, earliest first;
      each lies between today and the last day of the month. */
  function UpcomingThisMonth(subs: seq<Record>, today: DateTime, civil: Option<Value> -> Option<DateTime>): (r: seq<Payment>)
    requires Valid(today)
    requires forall v :: civil(v).Some? ==> Valid(civil(v).value)
    ensures SortedBy(r, PaymentKey)
    ensures multiset(r) == multiset(DueList(subs, today, civil))
    ensures StableFor(r, DueList(subs, today, civil), PaymentKey)
  {
    SortBy(DueList(subs, today, civil), PaymentKey)
  }

  /** Every listed payment lies in the window from today to the end of the month, and every
      subscription due this month is listed. */
  lemma UpcomingThisMonthWindow(subs: seq<Record>, today: DateTime, civil: Option<Value> -> Option<DateTime>)
    requires Valid(today)
    requires forall v :: civil(v).Some? ==> Valid(civil(v).value)
    ensures var r := UpcomingThisMonth(subs, today, civil);
      && (forall p :: p in r ==> !Before(p.nextPayment, today) && !Before(EndOfMonth(today), p.nextPayment))
      && (forall i :: 0 <= i < |subs| && DueThisMonth(subs[i], today, civil) ==>
            Payment(subs[i], NextPaymentDate(subs[i], today, civil).value) in r)
  {
    var r := UpcomingThisMonth(subs, today, civil);
    var due := DueList(subs, today, civil);
    SameElements(r, due);
    forall p | p in r
      ensures !Before(p.nextPayment, today) && !Before(EndOfMonth(today), p.nextPayment)
    {
      DueListMembers(subs, today, civil, p);
    }
    forall i | 0 <= i < |subs| && DueThisMonth(subs[i], today, civil)
      ensures Payment(subs[i], NextPaymentDate(subs[i], today, civil).value) in r
    {
      DueListMembers(subs, today, civil, Payment(subs[i], NextPaymentDate(subs[i], today, civil).value));
    }
  }

  /** generateInsights: with non-negative amounts and at least one subscription, the
      highest category exists and its total lies between 0 and the total monthly spending,
      so the percentage shown is at most 100. */
  lemma HighestCategoryShare(subs: seq<Record>)
    requires NonNegativeAmounts(subs) && |subs| > 0
    ensures var h := HighestCategory(CategoryTotals(subs));
      h.Ok? && h.value.total.Fin? && Spending(subs).Fin?
      && 0.0 <= h.value.total.r <= Spending(subs).r
  {
    var entries := CategoryTotals(subs);
    assert AllFinite(subs);
    CategoryKeysAreCategories(subs, CategoryKey(subs[0]));
    HighestIsKeyTotal(entries);
    KeyTotalBounded(subs, HighestCategory(entries).value.category);
  }

  /** With distinct keys, the highest entry is the one its own key finds. */
  lemma HighestIsKeyTotal(entries: seq<CategoryTotal>)
    requires DistinctCategories(entries) && |entries| > 0
    ensures var h := HighestCategory(entries);
      h.Ok? && KeyTotal(entries, h.value.category) == h.value.total
  {
    var h := HighestCategory(entries);
    var idx :| 0 <= idx < |entries| && entries[idx] == h.value;
    assert CategoryIndex(entries, h.value.category) == idx;
  }

  /** With non-negative amounts, the total under any key lies between 0 and the total
      monthly spending. */
  lemma KeyTotalBounded(subs: seq<Record>, k: string)
    requires NonNegativeAmounts(subs)
    ensures KeyTotal(CategoryTotals(subs), k).Fin? && Spending(subs).Fin?
    ensures 0.0 <= KeyTotal(CategoryTotals(subs), k).r <= Spending(subs).r
  {
    assert AllFinite(subs);
    CategoryTotalIsCategorySpending(subs, k);
    var p := (s: Record) => CategoryKey(s) == k;
    OfCategoryIsFilter(subs, k, p);
    var all := (s: Record) => true;
    FilterKeepsAll(subs, all);
    SpendingFilterMonotone(subs, p, all);
  }
}
