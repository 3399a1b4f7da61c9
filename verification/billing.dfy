/** Billing arithmetic shared by the budget, analytics and search pages: the monthly
    equivalent of a subscription's amount (getMonthlyAmount, written identically in
    budget.js, subscription-analytics.js and search.js), the total monthly spending over a
    list, and the per-category totals built with `totals[c] = (totals[c] || 0) + amount`. */
module Billing {
  import opened Js
  import opened Seqs

  /** How many months one billing period of the given cycle covers; any cycle other than
      yearly or quarterly (monthly, an unknown text, a missing field) is one month. */
  function PeriodMonths(cycle: Option<Value>): (n: real)
    ensures n == 1.0 || n == 3.0 || n == 12.0
  {
    if IsText(cycle, "yearly") then 12.0
    else if IsText(cycle, "quarterly") then 3.0
    else 1.0
  }

  /** getMonthlyAmount: the amount is read with parseFloat and spread over the months of
      one billing period. */
  function MonthlyEquivalent(sub: Record): (m: Number)
    ensures m.Fin? <==> ParseFloat(Get(sub, "amount")).Fin?
    ensures m.Fin? ==> m.r * PeriodMonths(Get(sub, "billingCycle")) == ParseFloat(Get(sub, "amount")).r
  {
    var amount := ParseFloat(Get(sub, "amount"));
    match Get(sub, "billingCycle")
    case Some(Str("yearly")) => Div(amount, 12.0)
    case Some(Str("quarterly")) => Div(amount, 3.0)
    case _ => amount
  }

  /** Every subscription in the list has a numeric amount. */
  predicate AllFinite(subs: seq<Record>) {
    forall i :: 0 <= i < |subs| ==> MonthlyEquivalent(subs[i]).Fin?
  }

  /** `subs.reduce((total, sub) => total + getMonthlyAmount(sub), 0)`, over every
      subscription whatever its status. One unreadable amount makes the whole sum NaN. */
  function Spending(subs: seq<Record>): (total: Number)
    ensures AllFinite(subs) <==> total.Fin?
  {
    if |subs| == 0 then Fin(0.0)
    else Add(Spending(subs[..|subs| - 1]), MonthlyEquivalent(subs[|subs| - 1]))
  }

  /** Spending over a concatenation is the sum of the spendings of the parts. */
  lemma {:induction false} SpendingAppend(a: seq<Record>, b: seq<Record>)
    ensures Spending(a + b) == Add(Spending(a), Spending(b))
  {
    if |b| == 0 {
      assert a + b == a;
    } else {
      var front := b[..|b| - 1];
      assert (a + b)[..|a + b| - 1] == a + front;
      SpendingAppend(a, front);
      AddAssociates(Spending(a), Spending(front), MonthlyEquivalent(b[|b| - 1]));
    }
  }

  /** Two lists that agree, record by record, on amount and billing cycle have the same
      spending: no other field, and in particular not the status, takes part. */
  lemma {:induction false} SpendingReadsOnlyBilling(a: seq<Record>, b: seq<Record>)
    requires |a| == |b|
    requires forall i :: 0 <= i < |a| ==> Get(a[i], "amount") == Get(b[i], "amount")
    requires forall i :: 0 <= i < |a| ==> Get(a[i], "billingCycle") == Get(b[i], "billingCycle")
    ensures Spending(a) == Spending(b)
  {
    if |a| > 0 {
      SpendingReadsOnlyBilling(a[..|a| - 1], b[..|b| - 1]);
    }
  }

  /** One entry of the category-totals object: the property key and its accumulated total. */
  datatype CategoryTotal = CategoryTotal(category: string, total: Number)

  /** The property key `totals[sub.category]` writes to: the category converted to a string,
      so a missing category is the key "undefined". */
  function CategoryKey(sub: Record): string {
    ToText(Get(sub, "category"))
  }

  predicate DistinctCategories(entries: seq<CategoryTotal>) {
    forall i, j :: 0 <= i < j < |entries| ==> entries[i].category != entries[j].category
  }

  /** The position of key k among the entries, -1 when it is absent. */
  function CategoryIndex(entries: seq<CategoryTotal>, k: string): (i: int)
    ensures -1 <= i < |entries|
    ensures i >= 0 ==> entries[i].category == k
    ensures forall j :: 0 <= j < |entries| && (i == -1 || j < i) ==> entries[j].category != k
  {
    FindIndex(entries, (e: CategoryTotal) => e.category == k)
  }

  /** The total recorded under key k, or 0 when the key is absent. */
  function KeyTotal(entries: seq<CategoryTotal>, k: string): Number {
    var i := CategoryIndex(entries, k);
    if i == -1 then Fin(0.0) else entries[i].total
  }

  /** One forEach step: `totals[k] = (totals[k] || 0) + m`. A present key keeps its place;
      a new key is added last. That is JavaScript's property order only for keys that are not
      integer-like, which come first in ascending order there; and `totals[k]` here sees own
      entries only, never an inherited property such as 'toString' or '__proto__'. */
  function Accumulate(entries: seq<CategoryTotal>, k: string, m: Number): (r: seq<CategoryTotal>)
    requires DistinctCategories(entries)
    ensures DistinctCategories(r)
    ensures TotalsFinite(entries) && m.Fin? ==> TotalsFinite(r)
  {
    var i := CategoryIndex(entries, k);
    if i == -1 then
      var r := entries + [CategoryTotal(k, Add(Fin(0.0), m))];
      assert r[|entries|].category == k;
      assert forall i :: 0 <= i < |entries| ==> r[i] == entries[i];
      r
    else
      var r := entries[i := CategoryTotal(k, Add(OrZero(entries[i].total), m))];
      assert r[i].category == k;
      assert forall i :: 0 <= i < |entries| ==> r[i].category == entries[i].category;
      r
  }

  /** getCategoryTotals / calculateCategorySpending: the totals object, as its entries in
      insertion order (Object.entries order when no category is integer-like). Its keys are
      exactly the categories that occur, each once, as an object free of inherited keys has it. */
  function CategoryTotals(subs: seq<Record>): (r: seq<CategoryTotal>)
    ensures DistinctCategories(r)
    ensures AllFinite(subs) ==> TotalsFinite(r)
  {
    if |subs| == 0 then []
    else
      var front := subs[..|subs| - 1];
      var last := subs[|subs| - 1];
      assert AllFinite(subs) ==> AllFinite(front) by {
        assert forall i :: 0 <= i < |front| ==> front[i] == subs[i];
      }
      Accumulate(CategoryTotals(front), CategoryKey(last), MonthlyEquivalent(last))
  }

  /** The subscriptions whose category key is k, in list order. */
  function OfCategory(subs: seq<Record>, k: string): (r: seq<Record>)
    ensures |r| <= |subs|
  {
    if |subs| == 0 then []
    else
      var last := subs[|subs| - 1];
      OfCategory(subs[..|subs| - 1], k) + (if CategoryKey(last) == k then [last] else [])
  }

  /** OfCategory is the filter of the list by category. */
  lemma {:induction false} OfCategoryIsFilter(subs: seq<Record>, k: string, p: Record -> bool)
    requires forall s :: p(s) == (CategoryKey(s) == k)
    ensures OfCategory(subs, k) == Filter(subs, p)
  {
    if |subs| > 0 {
      var front := subs[..|subs| - 1];
      OfCategoryIsFilter(front, k, p);
      FilterSnoc(front, subs[|subs| - 1], p);
      assert subs == front + [subs[|subs| - 1]];
    }
  }

  /** `Object.values(totals).reduce((a, b) => a + b, 0)`. */
  function Total(entries: seq<CategoryTotal>): Number {
    if |entries| == 0 then Fin(0.0)
    else Add(Total(entries[..|entries| - 1]), entries[|entries| - 1].total)
  }

  predicate TotalsFinite(entries: seq<CategoryTotal>) {
    forall j :: 0 <= j < |entries| ==> entries[j].total.Fin?
  }

  lemma {:induction false} TotalFinite(entries: seq<CategoryTotal>)
    requires TotalsFinite(entries)
    ensures Total(entries).Fin?
  {
    if |entries| > 0 {
      TotalFinite(entries[..|entries| - 1]);
    }
  }

  /** Adding m to one entry adds m to the total. */
  lemma {:induction false} TotalAfterIncrease(entries: seq<CategoryTotal>, i: nat, m: real)
    requires i < |entries| && TotalsFinite(entries)
    ensures TotalsFinite(entries[i := CategoryTotal(entries[i].category, Fin(entries[i].total.r + m))])
    ensures Total(entries).Fin?
    ensures Total(entries[i := CategoryTotal(entries[i].category, Fin(entries[i].total.r + m))]) == Fin(Total(entries).r + m)
  {
    var e := entries[i := CategoryTotal(entries[i].category, Fin(entries[i].total.r + m))];
    var n := |entries|;
    TotalFinite(entries);
    if i == n - 1 {
      assert e[..n - 1] == entries[..n - 1];
      TotalFinite(entries[..n - 1]);
    } else {
      var front := entries[..n - 1];
      assert e[..n - 1] == front[i := CategoryTotal(front[i].category, Fin(front[i].total.r + m))];
      TotalAfterIncrease(front, i, m);
    }
  }

  /** One accumulation step adds its amount to the total. */
  lemma TotalAfterAccumulate(entries: seq<CategoryTotal>, k: string, m: Number)
    requires DistinctCategories(entries) && TotalsFinite(entries) && m.Fin?
    ensures Total(Accumulate(entries, k, m)) == Add(Total(entries), m)
  {
    var i := CategoryIndex(entries, k);
    if i == -1 {
      AccumulateNewKey(entries, k, m);
      TotalAfterAppend(entries, CategoryTotal(k, Fin(m.r)));
    } else {
      AccumulateKnownKey(entries, k, m);
      TotalAfterIncrease(entries, i, m.r);
    }
  }

  /** A key not yet present is appended with the amount as its total. */
  lemma AccumulateNewKey(entries: seq<CategoryTotal>, k: string, m: Number)
    requires DistinctCategories(entries) && m.Fin? && CategoryIndex(entries, k) == -1
    ensures Accumulate(entries, k, m) == entries + [CategoryTotal(k, Fin(m.r))]
  {}

  /** A present key keeps its place and its total grows by the amount. */
  lemma AccumulateKnownKey(entries: seq<CategoryTotal>, k: string, m: Number)
    requires DistinctCategories(entries) && TotalsFinite(entries) && m.Fin?
    requires CategoryIndex(entries, k) >= 0
    ensures var i := CategoryIndex(entries, k);
      Accumulate(entries, k, m) == entries[i := CategoryTotal(entries[i].category, Fin(entries[i].total.r + m.r))]
  {}

  /** A new last entry adds its amount to the total. */
  lemma TotalAfterAppend(entries: seq<CategoryTotal>, e: CategoryTotal)
    ensures Total(entries + [e]) == Add(Total(entries), e.total)
  {
    assert (entries + [e])[..|entries|] == entries;
  }

  /** The category totals add up to the total spending when every amount is numeric. */
  lemma {:induction false} CategoryTotalsSumToSpending(subs: seq<Record>)
    requires AllFinite(subs)
    ensures Total(CategoryTotals(subs)) == Spending(subs)
  {
    if |subs| > 0 {
      var front := subs[..|subs| - 1];
      var last := subs[|subs| - 1];
      assert AllFinite(front) by {
        assert forall i :: 0 <= i < |front| ==> front[i] == subs[i];
      }
      CategoryTotalsSumToSpending(front);
      assert MonthlyEquivalent(last).Fin?;
      TotalAfterAccumulate(CategoryTotals(front), CategoryKey(last), MonthlyEquivalent(last));
    }
  }

  predicate HasKey(entries: seq<CategoryTotal>, k: string) {
    exists j :: 0 <= j < |entries| && entries[j].category == k
  }

  /** An accumulation step adds its key and no other. */
  lemma HasKeyAfterAccumulate(entries: seq<CategoryTotal>, k': string, m: Number, k: string)
    requires DistinctCategories(entries)
    ensures HasKey(Accumulate(entries, k', m), k) <==> HasKey(entries, k) || k == k'
  {
    var r := Accumulate(entries, k', m);
    var i := CategoryIndex(entries, k');
    if i == -1 {
      assert r == entries + [CategoryTotal(k', Add(Fin(0.0), m))];
      assert r[|entries|].category == k';
      assert forall j :: 0 <= j < |entries| ==> r[j] == entries[j];
    } else {
      assert entries[i].category == k';
      assert forall j :: 0 <= j < |entries| ==> r[j].category == entries[j].category;
    }
  }

  /** The keys of the totals are exactly the categories that occur in the list. */
  lemma {:induction false} CategoryKeysAreCategories(subs: seq<Record>, k: string)
    ensures HasKey(CategoryTotals(subs), k) <==> exists i :: 0 <= i < |subs| && CategoryKey(subs[i]) == k
  {
    if |subs| > 0 {
      var front := subs[..|subs| - 1];
      var last := subs[|subs| - 1];
      CategoryKeysAreCategories(front, k);
      HasKeyAfterAccumulate(CategoryTotals(front), CategoryKey(last), MonthlyEquivalent(last), k);
      assert forall i :: 0 <= i < |front| ==> front[i] == subs[i];
      if exists i :: 0 <= i < |subs| && CategoryKey(subs[i]) == k {
        var i :| 0 <= i < |subs| && CategoryKey(subs[i]) == k;
        assert i == |subs| - 1 || CategoryKey(front[i]) == k;
      }
    }
  }

  /** How one accumulation step changes the total under a key. */
  lemma KeyTotalAfterAccumulate(entries: seq<CategoryTotal>, k': string, m: Number, k: string)
    requires DistinctCategories(entries) && TotalsFinite(entries) && m.Fin?
    ensures KeyTotal(Accumulate(entries, k', m), k)
         == if k == k' then Add(KeyTotal(entries, k), m) else KeyTotal(entries, k)
  {
    var r := Accumulate(entries, k', m);
    var i := CategoryIndex(entries, k');
    var j := CategoryIndex(entries, k);
    var jr := CategoryIndex(r, k);
    if i == -1 {
      assert r == entries + [CategoryTotal(k', Add(Fin(0.0), m))];
      assert forall x :: 0 <= x < |entries| ==> r[x] == entries[x];
      if k == k' {
        assert j == -1;
        assert r[|entries|].category == k;
        assert jr == |entries|;
      } else {
        assert r[|entries|].category != k;
        if j == -1 {
          assert jr == -1;
        } else {
          assert r[j].category == k;
          assert jr == j;
        }
      }
    } else {
      assert entries[i].category == k';
      assert r == entries[i := CategoryTotal(k', Add(OrZero(entries[i].total), m))];
      assert forall x :: 0 <= x < |entries| ==> r[x].category == entries[x].category;
      if k == k' {
        assert j == i;
        assert r[i].category == k;
        assert jr == i;
        assert OrZero(entries[i].total) == entries[i].total;
      } else {
        if j == -1 {
          assert jr == -1;
        } else {
          assert r[j].category == k;
          assert jr == j;
          assert j != i;
        }
      }
    }
  }

  /** Each subscription is counted once, under its own category: with numeric amounts, the
      total under a key is the spending of exactly the subscriptions in that category. */
  lemma {:induction false} CategoryTotalIsCategorySpending(subs: seq<Record>, k: string)
    requires AllFinite(subs)
    ensures KeyTotal(CategoryTotals(subs), k) == Spending(OfCategory(subs, k))
  {
    if |subs| > 0 {
      var front := subs[..|subs| - 1];
      var last := subs[|subs| - 1];
      assert AllFinite(front) by {
        assert forall i :: 0 <= i < |front| ==> front[i] == subs[i];
      }
      CategoryTotalIsCategorySpending(front, k);
      var m := MonthlyEquivalent(last);
      assert m.Fin?;
      KeyTotalAfterAccumulate(CategoryTotals(front), CategoryKey(last), m, k);
      if CategoryKey(last) == k {
        assert OfCategory(subs, k) == OfCategory(front, k) + [last];
        SpendingAppend(OfCategory(front, k), [last]);
        assert [last][..0] == [];
        assert Spending([last]) == Add(Fin(0.0), m);
      } else {
        assert OfCategory(subs, k) == OfCategory(front, k);
      }
    }
  }

  /** Example: with an unreadable amount the two figures part: `NaN || 0` restarts the category's
      total, so the category totals stay numeric while the total spending is NaN. */
  lemma CategoryTotalsDropNaN()
    ensures var subs := [map["category" := Str("x")], map["category" := Str("x"), "amount" := Num(Fin(5.0))]];
      Spending(subs) == NaN && Total(CategoryTotals(subs)) == Fin(5.0)
  {
    var a: Record := map["category" := Str("x")];
    var b: Record := map["category" := Str("x"), "amount" := Num(Fin(5.0))];
    assert MonthlyEquivalent(a) == NaN;
    assert MonthlyEquivalent(b) == Fin(5.0);
    assert CategoryKey(a) == "x" && CategoryKey(b) == "x";
    assert [a, b][..1] == [a];
    assert [a][..0] == [];
    assert CategoryTotals([a]) == [CategoryTotal("x", NaN)];
  }

  /** The highest-spending category: `entries.reduce((a, b) => a[1] > b[1] ? a : b)`, the
      index of the survivor. The comparison is strict, so a tie goes to the later entry. */
  function HighestIndex(entries: seq<CategoryTotal>): (i: nat)
    requires |entries| > 0
    ensures i < |entries|
    ensures TotalsFinite(entries) ==> forall j :: 0 <= j < |entries| ==> entries[j].total.r <= entries[i].total.r
    ensures TotalsFinite(entries) ==> forall j :: i < j < |entries| ==> entries[j].total.r < entries[i].total.r
  {
    if |entries| == 1 then 0
    else
      var front := entries[..|entries| - 1];
      var a := HighestIndex(front);
      assert forall j :: 0 <= j < |front| ==> front[j] == entries[j];
      if Gt(entries[a].total, entries[|entries| - 1].total) then a else |entries| - 1
  }

  /** The selection as the page performs it: a reduce with no initial value throws on an
      empty list. */
  function HighestCategory(entries: seq<CategoryTotal>): (r: Outcome<CategoryTotal>)
    ensures r.Throws? <==> |entries| == 0
    ensures r.Ok? ==> r.value in entries
    ensures r.Ok? && TotalsFinite(entries) ==> forall j :: 0 <= j < |entries| ==> entries[j].total.r <= r.value.total.r
  {
    if |entries| == 0 then Throws("Reduce of empty array with no initial value")
    else Ok(entries[HighestIndex(entries)])
  }

  /** Example: of two entries with the same total, the later in the entry list is reported. */
  lemma HighestCategoryTieGoesLater()
    ensures HighestCategory([CategoryTotal("a", Fin(4.0)), CategoryTotal("b", Fin(4.0))])
         == Ok(CategoryTotal("b", Fin(4.0)))
  {
    var e := [CategoryTotal("a", Fin(4.0)), CategoryTotal("b", Fin(4.0))];
    assert e[..1] == [CategoryTotal("a", Fin(4.0))];
  }
}
