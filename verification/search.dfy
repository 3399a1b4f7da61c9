/** SearchManager.performSearch (search.js): the filter predicate over the stored
    subscriptions, combining a case-insensitive search term with the active filters read
    from the page. The filters object is an association list in insertion order; its values
    are strings (text and radio inputs) or booleans (checkboxes). Reading a missing or
    non-string field with toLowerCase, or splitting a non-string price range, throws a
    TypeError, which aborts the whole search. */
module Search {
  import opened Text
  import opened Js
  import opened Seqs
  import opened Billing

  /** `v.toLowerCase()` on a field value. */
  function LowerField(v: Option<Value>): (r: Outcome<string>)
    ensures r.Ok? <==> v.Some? && v.value.Str?
    ensures r.Ok? ==> r.value == ToLower(v.value.s)
  {
    match v
    case Some(Str(s)) => Ok(ToLower(s))
    case _ => Throws("TypeError")
  }

  /** The field is a string whose lower-cased text contains the term. */
  predicate FieldIncludes(sub: Record, key: string, term: string) {
    Get(sub, key).Some? && Get(sub, key).value.Str? && Includes(ToLower(Get(sub, key).value.s), term)
  }

  /** `!term || name.includes(term) || category.includes(term) || (notes && notes.includes(term))`,
      lower-casing each field; the evaluation stops at the first match. */
  function MatchesSearch(sub: Record, term: string): (r: Outcome<bool>)
    ensures term == "" ==> r == Ok(true)
    ensures r.Ok? && term != "" ==>
      (r.value <==> FieldIncludes(sub, "serviceName", term) || FieldIncludes(sub, "category", term) || FieldIncludes(sub, "notes", term))
  {
    if term == "" then Ok(true)
    else match LowerField(Get(sub, "serviceName"))
      case Throws(e) => Throws(e)
      case Ok(name) =>
        if Includes(name, term) then Ok(true)
        else match LowerField(Get(sub, "category"))
          case Throws(e) => Throws(e)
          case Ok(category) =>
            if Includes(category, term) then Ok(true)
            else if !Truthy(Get(sub, "notes")) then Ok(false)
            else match LowerField(Get(sub, "notes"))
              case Throws(e) => Throws(e)
              case Ok(notes) => Ok(Includes(notes, term))
  }

  /** With a string name and category and string or absent notes, the search never throws. */
  lemma MatchesSearchTotal(sub: Record, term: string)
    requires Get(sub, "serviceName").Some? && Get(sub, "serviceName").value.Str?
    requires Get(sub, "category").Some? && Get(sub, "category").value.Str?
    requires Get(sub, "notes").None? || Get(sub, "notes").value.Str?
    ensures MatchesSearch(sub, term).Ok?
  {}

  /** A subscription is found by its own name, typed in any mix of cases. */
  lemma FoundByOwnName(sub: Record, typed: string)
    requires Get(sub, "serviceName") == Some(Str(typed))
    ensures MatchesSearch(sub, ToLower(typed)) == Ok(true)
  {
    var t := ToLower(typed);
    assert StartsWith(t, t) by { assert t[..|t|] == t; }
  }

  /** Lower-casing covers the Latin-1 capitals: a name starting with 'É' is found by 'é'. */
  lemma AccentedCapitalFound(sub: Record, name: string)
    requires Get(sub, "serviceName") == Some(Str(name))
    requires |name| > 0 && name[0] == 'É'
    ensures MatchesSearch(sub, "é") == Ok(true)
  {
    var t := ToLower(name);
    assert t[0] == 'é';
    assert StartsWith(t, "é") by { assert t[..1] == "é"; }
  }

  /** The bounds of a price range "min-max": `value.split('-').map(Number)`, with an
      undefined max when there is no dash. */
  function PriceBounds(range: string): (b: (Number, Option<Number>))
    ensures b.1.Some? <==> '-' in range
  {
    var parts := Split(range, '-');
    assert |parts| > 1 <==> '-' in range by {
      JoinSplit(range, '-');
      if |parts| == 1 {
        assert range == parts[0];
      } else {
        assert range == parts[0] + ['-'] + Join(parts[1..], '-');
        assert range[|parts[0]|] == '-';
      }
    }
    (StringToNumber(parts[0]), if |parts| > 1 then Some(StringToNumber(parts[1])) else None)
  }

  /** `amount >= min && (!max || amount <= max)` */
  predicate InPriceRange(amount: Number, bounds: (Number, Option<Number>)) {
    Ge(amount, bounds.0) && (bounds.1.None? || !NumberTruthy(bounds.1.value) || Le(amount, bounds.1.value))
  }

  /** One entry of the `every` callback: a falsy or 'all' value passes, category and
      billingCycle must be strictly equal, priceRange bounds the monthly amount, and any
      other key passes. */
  function PassesFilter(sub: Record, key: string, value: Value): (r: Outcome<bool>)
    ensures !Truthy(Some(value)) || value == Str("all") ==> r == Ok(true)
    ensures key != "category" && key != "billingCycle" && key != "priceRange" ==> r == Ok(true)
    ensures r.Throws? <==> key == "priceRange" && Truthy(Some(value)) && !value.Str?
    ensures r == Ok(false) ==> key == "category" || key == "billingCycle" || key == "priceRange"
    ensures Truthy(Some(value)) && value != Str("all") && (key == "category" || key == "billingCycle") ==>
      r == Ok(StrictEq(Get(sub, key), Some(value)))
  {
    if !Truthy(Some(value)) || value == Str("all") then Ok(true)
    else if key == "category" then Ok(StrictEq(Get(sub, "category"), Some(value)))
    else if key == "billingCycle" then Ok(StrictEq(Get(sub, "billingCycle"), Some(value)))
    else if key == "priceRange" then
      match value
      case Str(range) => Ok(InPriceRange(MonthlyEquivalent(sub), PriceBounds(range)))
      case _ => Throws("TypeError")
    else Ok(true)
  }

  /** A range written as two digit strings "min-max" keeps the monthly amounts from min up
      to max, and a max of 0 (or "min-" with nothing after the dash) leaves it open above. */
  lemma PriceRangeOfDigits(sub: Record, lo: string, hi: string)
    requires |lo| > 0 && forall i :: 0 <= i < |lo| ==> IsDigit(lo[i])
    requires |hi| > 0 && forall i :: 0 <= i < |hi| ==> IsDigit(hi[i])
    ensures var m := MonthlyEquivalent(sub);
      PassesFilter(sub, "priceRange", Str(lo + "-" + hi))
      == Ok(m.Fin? && m.r >= DigitsValue(lo) as real && (DigitsValue(hi) == 0 || m.r <= DigitsValue(hi) as real))
  {
    var range := lo + "-" + hi;
    assert range != "" && range != "all" by {
      assert range[0] == lo[0];
      assert IsDigit(lo[0]);
    }
    PriceRangeFilter(sub, range);
    DigitBounds(lo, hi);
    InPriceRangeOfBounds(MonthlyEquivalent(sub), DigitsValue(lo), DigitsValue(hi));
  }

  /** A nonempty range other than 'all' is judged by its bounds alone. */
  lemma PriceRangeFilter(sub: Record, range: string)
    requires range != "" && range != "all"
    ensures PassesFilter(sub, "priceRange", Str(range)) == Ok(InPriceRange(MonthlyEquivalent(sub), PriceBounds(range)))
  {}

  /** Finite whole-number bounds: at least the minimum, and at most the maximum unless it is 0. */
  lemma InPriceRangeOfBounds(m: Number, lo: nat, hi: nat)
    ensures InPriceRange(m, (Fin(lo as real), Some(Fin(hi as real))))
      == (m.Fin? && m.r >= lo as real && (hi == 0 || m.r <= hi as real))
  {}

  lemma DigitBounds(lo: string, hi: string)
    requires |lo| > 0 && forall i :: 0 <= i < |lo| ==> IsDigit(lo[i])
    requires |hi| > 0 && forall i :: 0 <= i < |hi| ==> IsDigit(hi[i])
    ensures PriceBounds(lo + "-" + hi) == (Fin(DigitsValue(lo) as real), Some(Fin(DigitsValue(hi) as real)))
  {
    assert '-' !in lo && '-' !in hi by {
      assert forall i :: 0 <= i < |lo| ==> lo[i] != '-';
      assert forall i :: 0 <= i < |hi| ==> hi[i] != '-';
    }
    assert lo + "-" + hi == lo + ['-'] + hi;
    SplitAfterPiece(lo, '-', hi);
    SplitWithoutSeparator(hi, '-');
    assert Split(lo + "-" + hi, '-') == [lo, hi];
    DigitsParse(lo);
    DigitsParse(hi);
  }

  /** `Object.entries(filters).every(...)`, stopping at the first entry that fails. */
  function MatchesFilters(sub: Record, filters: seq<(string, Value)>): (r: Outcome<bool>)
    ensures r == Ok(true) <==> forall i :: 0 <= i < |filters| ==> PassesFilter(sub, filters[i].0, filters[i].1) == Ok(true)
  {
    if |filters| == 0 then Ok(true)
    else match PassesFilter(sub, filters[0].0, filters[0].1)
      case Throws(e) => Throws(e)
      case Ok(b) =>
        if !b then Ok(false)
        else
          var rest := MatchesFilters(sub, filters[1..]);
          assert forall i :: 1 <= i < |filters| ==> filters[i] == filters[1..][i - 1];
          rest
  }

  /** The callback of `subscriptions.filter`: both halves are evaluated, search first. */
  function Accepts(sub: Record, term: string, filters: seq<(string, Value)>): Outcome<bool> {
    match MatchesSearch(sub, term)
    case Throws(e) => Throws(e)
    case Ok(a) =>
      match MatchesFilters(sub, filters)
      case Throws(e) => Throws(e)
      case Ok(b) => Ok(a && b)
  }

  /** A subscription the callback keeps. */
  predicate Kept(term: string, filters: seq<(string, Value)>, sub: Record) {
    Accepts(sub, term, filters) == Ok(true)
  }

  /** performSearch with the raw text of the search box: the term is lower-cased once, and
      the result is the order-preserving subsequence of subscriptions that satisfy both the
      term and every filter. The first throwing callback aborts the search. */
  function PerformSearch(subs: seq<Record>, typed: string, filters: seq<(string, Value)>): (r: Outcome<seq<Record>>)
    ensures r.Ok? <==> forall i :: 0 <= i < |subs| ==> Accepts(subs[i], ToLower(typed), filters).Ok?
    ensures r.Ok? ==> r.value == Filter(subs, (sub: Record) => Kept(ToLower(typed), filters, sub))
  {
    if |subs| == 0 then Ok([])
    else match Accepts(subs[0], ToLower(typed), filters)
      case Throws(e) => Throws(e)
      case Ok(keep) =>
        match PerformSearch(subs[1..], typed, filters)
        case Throws(e) =>
          assert !forall i :: 0 <= i < |subs| ==> Accepts(subs[i], ToLower(typed), filters).Ok? by {
            var j :| 0 <= j < |subs[1..]| && !Accepts(subs[1..][j], ToLower(typed), filters).Ok?;
            assert subs[j + 1] == subs[1..][j];
          }
          Throws(e)
        case Ok(rest) =>
          assert forall i :: 1 <= i < |subs| ==> subs[i] == subs[1..][i - 1];
          Ok((if keep then [subs[0]] else []) + rest)
  }

  /** With an empty search box and no active filter, every subscription is shown, in order. */
  lemma EmptySearchShowsAll(subs: seq<Record>)
    ensures PerformSearch(subs, "", []) == Ok(subs)
  {
    assert forall sub :: Kept("", [], sub);
    FilterKeepsAll(subs, (sub: Record) => Kept(ToLower(""), [], sub));
  }

  /** Adding a filter entry never shows more: every result of the narrower search is a
      result of the wider one. */
  lemma MoreFiltersNarrow(subs: seq<Record>, typed: string, filters: seq<(string, Value)>, extra: (string, Value), sub: Record)
    requires PerformSearch(subs, typed, filters + [extra]).Ok? && PerformSearch(subs, typed, filters).Ok?
    requires sub in PerformSearch(subs, typed, filters + [extra]).value
    ensures sub in PerformSearch(subs, typed, filters).value
  {
    var term := ToLower(typed);
    assert Kept(term, filters + [extra], sub);
    assert MatchesFilters(sub, filters + [extra]) == Ok(true);
    assert forall i :: 0 <= i < |filters| ==> (filters + [extra])[i] == filters[i];
    assert MatchesFilters(sub, filters) == Ok(true);
    assert sub in subs;
  }
}
