/** The budget page (budget.js): percentage of the monthly budget used, the threshold alerts
    raised from it, the progress-bar classification, the sorted set of alert thresholds
    edited through three checkboxes, and the guard on saving a new monthly budget. */
module Budget {
  import opened Text
  import opened Js
  import opened Seqs
  import opened Billing

  /** The stored budget: the monthly amount, the alert thresholds (percentages) and the
      alert method ('browser', 'email' or 'both'). Per-category budgets are display only. */
  datatype BudgetState = BudgetState(monthly: real, thresholds: seq<int>, alertMethod: string)

  /** The budget used when none is stored. */
  const DefaultBudget := BudgetState(0.0, [75, 90, 100], "browser")

  /** `monthlyBudget > 0 ? (currentSpending / monthlyBudget) * 100 : 0` */
  function PercentageUsed(monthly: real, spending: Number): (p: Number)
    ensures monthly <= 0.0 ==> p == Fin(0.0)
    ensures monthly > 0.0 ==> (p.Fin? <==> spending.Fin?)
    ensures monthly > 0.0 && p.Fin? ==> p.r * monthly == spending.r * 100.0
  {
    if monthly > 0.0 then Mul(Div(spending, monthly), 100.0) else Fin(0.0)
  }

  /** One alert shown by showBudgetAlert: the threshold crossed and the percentage used. */
  datatype Alert = Alert(threshold: int, percentage: Number)

  /** The thresholds named by a run of alerts, in the order they were raised. */
  function Thresholds(alerts: seq<Alert>): (r: seq<int>)
    ensures |r| == |alerts|
    ensures forall i :: 0 <= i < |r| ==> r[i] == alerts[i].threshold
  {
    seq(|alerts|, i requires 0 <= i < |alerts| => alerts[i].threshold)
  }

  /** Thresholds of two runs of alerts raised one after the other. */
  lemma ThresholdsAppend(a: seq<Alert>, b: seq<Alert>)
    ensures Thresholds(a + b) == Thresholds(a) + Thresholds(b)
  {
  }

  /** Whether a percentage reaches a threshold: `percentage >= t`. */
  function Reaches(percentage: Number): int -> bool {
    (t: int) => Ge(percentage, Fin(t as real))
  }

  /** `thresholds.forEach(t => { if (percentage >= t) showBudgetAlert(t, percentage) })`:
      alerts are raised in stored order, one per stored threshold reached, repeated thresholds
      included, so their thresholds are the stored list filtered by the percentage. */
  function Fired(thresholds: seq<int>, percentage: Number): (r: seq<Alert>)
    ensures |r| <= |thresholds|
    ensures percentage.NaN? ==> r == []
    ensures forall i :: 0 <= i < |r| ==> r[i].percentage == percentage && Ge(percentage, Fin(r[i].threshold as real))
    ensures Thresholds(r) == Filter(thresholds, Reaches(percentage))
  {
    if |thresholds| == 0 then []
    else
      var front := thresholds[..|thresholds| - 1];
      var t := thresholds[|thresholds| - 1];
      var added := if Ge(percentage, Fin(t as real)) then [Alert(t, percentage)] else [];
      assert thresholds == front + [t];
      FilterSnoc(front, t, Reaches(percentage));
      ThresholdsAppend(Fired(front, percentage), added);
      Fired(front, percentage) + added
  }

  /** checkBudgetAlerts: nothing when the budget is not positive; otherwise the alerts for the
      current spending over every subscription, in stored threshold order. */
  function CheckBudgetAlerts(b: BudgetState, subs: seq<Record>): (r: seq<Alert>)
    ensures b.monthly <= 0.0 ==> r == []
    ensures !AllFinite(subs) ==> r == []
    ensures forall i :: 0 <= i < |r| ==> r[i].percentage == PercentageUsed(b.monthly, Spending(subs))
    ensures b.monthly > 0.0 ==>
      Thresholds(r) == Filter(b.thresholds, Reaches(PercentageUsed(b.monthly, Spending(subs))))
  {
    if b.monthly <= 0.0 then []
    else Fired(b.thresholds, PercentageUsed(b.monthly, Spending(subs)))
  }

  /** An alert is raised for a threshold exactly when it is stored and the percentage reaches it. */
  lemma {:induction false} FiredIff(thresholds: seq<int>, percentage: Number, t: int)
    ensures (exists i :: 0 <= i < |Fired(thresholds, percentage)| && Fired(thresholds, percentage)[i].threshold == t)
        <==> t in thresholds && Ge(percentage, Fin(t as real))
  {
    if |thresholds| > 0 {
      var front := thresholds[..|thresholds| - 1];
      var last := thresholds[|thresholds| - 1];
      FiredIff(front, percentage, t);
      assert thresholds == front + [last];
      var a := Fired(front, percentage);
      var r := Fired(thresholds, percentage);
      assert r == a + (if Ge(percentage, Fin(last as real)) then [Alert(last, percentage)] else []);
      assert forall i :: 0 <= i < |a| ==> r[i] == a[i];
      if exists i :: 0 <= i < |r| && r[i].threshold == t {
        var i :| 0 <= i < |r| && r[i].threshold == t;
        if i >= |a| {
          assert last == t;
        } else {
          assert a[i].threshold == t;
          assert exists j :: 0 <= j < |Fired(front, percentage)| && Fired(front, percentage)[j].threshold == t;
          assert t in front;
        }
        assert t in thresholds && Ge(percentage, Fin(t as real));
      }
      if t in thresholds && Ge(percentage, Fin(t as real)) {
        if t in front {
          var i :| 0 <= i < |a| && a[i].threshold == t;
          assert r[i].threshold == t;
        } else {
          assert last == t;
          assert r[|a|].threshold == t;
        }
        assert exists i :: 0 <= i < |Fired(thresholds, percentage)| && Fired(thresholds, percentage)[i].threshold == t;
      }
    }
  }

  /** Alerts are not de-duplicated: there are as many as stored thresholds reached, repeated
      thresholds counted each time. */
  lemma {:induction false} FiredCount(thresholds: seq<int>, percentage: Number)
    ensures |Fired(thresholds, percentage)| == Count(thresholds, (t: int) => Ge(percentage, Fin(t as real)))
  {
    var p := (t: int) => Ge(percentage, Fin(t as real));
    if |thresholds| > 0 {
      var front := thresholds[..|thresholds| - 1];
      FiredCount(front, percentage);
      FilterSnoc(front, thresholds[|thresholds| - 1], p);
      assert thresholds == front + [thresholds[|thresholds| - 1]];
    }
  }

  /** More spending never removes an alert: every threshold reached at p is reached at q >= p. */
  lemma FiredMonotone(thresholds: seq<int>, p: Number, q: Number, t: int)
    requires Le(p, q)
    requires exists i :: 0 <= i < |Fired(thresholds, p)| && Fired(thresholds, p)[i].threshold == t
    ensures exists i :: 0 <= i < |Fired(thresholds, q)| && Fired(thresholds, q)[i].threshold == t
  {
    FiredIff(thresholds, p, t);
    FiredIff(thresholds, q, t);
  }

  /** getProgressClass */
  function ProgressClass(percentage: Number): (c: string)
    ensures c == " danger" <==> Ge(percentage, Fin(90.0))
    ensures c == " warning" <==> Ge(percentage, Fin(75.0)) && !Ge(percentage, Fin(90.0))
    ensures c == "" <==> !Ge(percentage, Fin(75.0))
  {
    if Ge(percentage, Fin(90.0)) then " danger"
    else if Ge(percentage, Fin(75.0)) then " warning"
    else ""
  }

  /** Severity of a progress class, for comparing them. */
  function Severity(c: string): nat {
    if c == " danger" then 2 else if c == " warning" then 1 else 0
  }

  /** The classification only grows more severe as the percentage grows. */
  lemma ProgressClassMonotone(p: Number, q: Number)
    requires Le(p, q)
    ensures Severity(ProgressClass(p)) <= Severity(ProgressClass(q))
  {}

  /** The progress-bar width `Math.min(percentageUsed, 100)`. */
  function BarWidth(percentage: Number): (w: Number)
    ensures percentage.Fin? <==> w.Fin?
    ensures w.Fin? ==> w.r <= 100.0 && (w.r == percentage.r || w.r == 100.0)
    ensures w.Fin? && percentage.r <= 100.0 ==> w == percentage
  {
    Min(percentage, Fin(100.0))
  }

  /** The threshold checkbox handler: add the value when checked and absent, remove its first
      occurrence when unchecked, then sort ascending. */
  function ToggleThreshold(thresholds: seq<int>, value: int, checked: bool): (r: seq<int>)
    ensures SortedBy(r, (x: int) => x)
    ensures multiset(r) == multiset(Toggled(thresholds, value, checked))
  {
    SortBy(Toggled(thresholds, value, checked), (x: int) => x)
  }

  /** The list before the sort. */
  function Toggled(thresholds: seq<int>, value: int, checked: bool): seq<int> {
    if checked && value !in thresholds then thresholds + [value]
    else if !checked then
      var i := FindIndex(thresholds, (x: int) => x == value);
      if i > -1 then RemoveAt(thresholds, i) else thresholds
    else thresholds
  }

  ghost predicate NoDuplicates(s: seq<int>) {
    forall x :: multiset(s)[x] <= 1
  }

  lemma RemoveAtMultiset(s: seq<int>, i: nat)
    requires i < |s|
    ensures multiset(RemoveAt(s, i)) == multiset(s) - multiset{s[i]}
  {
    assert s == s[..i] + [s[i]] + s[i + 1..];
    assert RemoveAt(s, i) == s[..i] + s[i + 1..];
  }

  /** Before the sort: the toggled list holds the value exactly when the box is checked,
      every other value as before, and still no value twice. */
  lemma ToggledKeepsSet(thresholds: seq<int>, value: int, checked: bool)
    requires NoDuplicates(thresholds)
    ensures var t := Toggled(thresholds, value, checked);
      && NoDuplicates(t)
      && (value in t <==> checked)
      && (forall x :: x != value ==> (x in t <==> x in thresholds))
  {
    var t := Toggled(thresholds, value, checked);
    if checked && value !in thresholds {
      assert multiset(t) == multiset(thresholds) + multiset{value};
    } else if !checked {
      var i := FindIndex(thresholds, (x: int) => x == value);
      if i > -1 {
        RemovedOnlyThat(thresholds, i);
      }
    }
  }

  /** Removing a position from a duplicate-free list drops exactly its value. */
  lemma RemovedOnlyThat(s: seq<int>, i: nat)
    requires NoDuplicates(s) && i < |s|
    ensures var t := RemoveAt(s, i);
      && NoDuplicates(t)
      && s[i] !in t
      && (forall x :: x != s[i] ==> (x in t <==> x in s))
  {
    var t, v := RemoveAt(s, i), s[i];
    RemoveAtMultiset(s, i);
    assert multiset(t) == multiset(s) - multiset{v};
    assert multiset(s)[v] <= 1;
    assert v !in multiset(t);
    forall x | x != v ensures (x in t <==> x in s) {
      assert multiset(t)[x] == multiset(s)[x];
    }
  }

  /** The threshold list stays an ascending, duplicate-free set: after a toggle it holds the
      value exactly when the box is checked, and every other value as before. */
  lemma ToggleThresholdKeepsSet(thresholds: seq<int>, value: int, checked: bool)
    requires NoDuplicates(thresholds)
    ensures var r := ToggleThreshold(thresholds, value, checked);
      && SortedBy(r, (x: int) => x)
      && NoDuplicates(r)
      && (value in r <==> checked)
      && (forall x :: x != value ==> (x in r <==> x in thresholds))
  {
    var t := Toggled(thresholds, value, checked);
    var r := ToggleThreshold(thresholds, value, checked);
    ToggledKeepsSet(thresholds, value, checked);
    assert multiset(r) == multiset(t);
    forall x ensures (x in r <==> x in t) {
      assert (x in r <==> x in multiset(r)) && (x in t <==> x in multiset(t));
    }
  }

  /** saveBudgetChanges: the input text is read with parseFloat; NaN or a negative amount is
      refused and leaves the budget as it was. */
  function SaveBudgetChanges(b: BudgetState, input: string): (r: BudgetState)
    ensures r.thresholds == b.thresholds && r.alertMethod == b.alertMethod
    ensures r != b ==> ParseFloatText(input).Fin? && r.monthly == ParseFloatText(input).r
    ensures ParseFloatText(input).Fin? && ParseFloatText(input).r >= 0.0 ==> r.monthly == ParseFloatText(input).r
    ensures ParseFloatText(input).NaN? || ParseFloatText(input).r < 0.0 ==> r == b
    ensures b.monthly >= 0.0 ==> r.monthly >= 0.0
  {
    var amount := ParseFloatText(input);
    if amount.NaN? || amount.r < 0.0 then b
    else b.(monthly := amount.r)
  }

  /** Saving the same text again changes nothing more. */
  lemma SaveBudgetIdempotent(b: BudgetState, input: string)
    ensures SaveBudgetChanges(SaveBudgetChanges(b, input), input) == SaveBudgetChanges(b, input)
  {}

  /** parseFloat('0') is 0. */
  lemma ParseFloatZero()
    ensures ParseFloatText("0") == Fin(0.0)
  {
    assert DigitsValue("0") == 0 by {
      assert "0"[..0] == "";
      assert DigitValue('0') == 0;
    }
    DigitsParse("0");
  }

  /** parseFloat('') is NaN. */
  lemma ParseFloatEmpty()
    ensures ParseFloatText("") == NaN
  {
    assert TrimStart("") == "";
    assert CountDigits("") == 0;
    assert ScanUnsigned("") == None;
  }

  /** Example: a budget of zero is accepted, an unreadable one is refused. */
  lemma SaveBudgetZeroAndText(b: BudgetState)
    ensures SaveBudgetChanges(b, "0").monthly == 0.0
    ensures SaveBudgetChanges(b, "") == b
  {
    ParseFloatZero();
    ParseFloatEmpty();
  }
}
