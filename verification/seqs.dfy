/** The Array.prototype operations the application uses over record lists: filter,
    findIndex, splice of one element, and the stable comparator sort of ES2019. */
module Seqs {

  /** Array.prototype.filter: the order-preserving subsequence of elements satisfying p. */
  function Filter<T>(s: seq<T>, p: T -> bool): (r: seq<T>)
    ensures |r| <= |s|
    ensures forall i :: 0 <= i < |r| ==> p(r[i])
    ensures forall i :: 0 <= i < |r| ==> r[i] in s
    ensures forall i :: 0 <= i < |s| && p(s[i]) ==> s[i] in r
  {
    if |s| == 0 then [] else (if p(s[0]) then [s[0]] else []) + Filter(s[1..], p)
  }

  /** Filtering distributes over concatenation, which is what "order-preserving" means. */
  lemma {:induction false} FilterConcat<T>(a: seq<T>, b: seq<T>, p: T -> bool)
    ensures Filter(a + b, p) == Filter(a, p) + Filter(b, p)
  {
    if |a| > 0 {
      assert (a + b)[1..] == a[1..] + b;
      FilterConcat(a[1..], b, p);
    } else {
      assert a + b == b;
    }
  }

  /** Filtering one more element at the end appends it exactly when it satisfies p. */
  lemma FilterSnoc<T>(s: seq<T>, x: T, p: T -> bool)
    ensures Filter(s + [x], p) == Filter(s, p) + (if p(x) then [x] else [])
  {
    FilterConcat(s, [x], p);
  }

  /** A filter that keeps every element is the identity. */
  lemma {:induction false} FilterKeepsAll<T>(s: seq<T>, p: T -> bool)
    requires forall i :: 0 <= i < |s| ==> p(s[i])
    ensures Filter(s, p) == s
  {
    if |s| > 0 {
      FilterKeepsAll(s[1..], p);
    }
  }

  /** Filtering by two predicates that agree everywhere gives the same result. */
  lemma {:induction false} FilterExtensional<T>(s: seq<T>, p: T -> bool, q: T -> bool)
    requires forall x :: p(x) == q(x)
    ensures Filter(s, p) == Filter(s, q)
  {
    if |s| > 0 {
      FilterExtensional(s[1..], p, q);
    }
  }

  /** Filtering twice is filtering once by both predicates. */
  lemma {:induction false} FilterTwice<T>(s: seq<T>, p: T -> bool, q: T -> bool, both: T -> bool)
    requires forall x :: both(x) == (p(x) && q(x))
    ensures Filter(Filter(s, p), q) == Filter(s, both)
  {
    if |s| > 0 {
      FilterTwice(s[1..], p, q, both);
      FilterConcat(if p(s[0]) then [s[0]] else [], Filter(s[1..], p), q);
    }
  }

  /** A stronger predicate keeps no more elements. */
  lemma {:induction false} FilterStrongerKeepsFewer<T>(s: seq<T>, p: T -> bool, q: T -> bool)
    requires forall x :: q(x) ==> p(x)
    ensures |Filter(s, q)| <= |Filter(s, p)|
  {
    if |s| > 0 {
      FilterStrongerKeepsFewer(s[1..], p, q);
    }
  }

  /** The number of elements satisfying p. */
  function Count<T>(s: seq<T>, p: T -> bool): nat {
    |Filter(s, p)|
  }

  /** The positions whose element satisfies p. */
  function Positions<T>(s: seq<T>, p: T -> bool): set<int> {
    set i | 0 <= i < |s| && p(s[i])
  }

  /** One more element at the end adds its own position when it satisfies p. */
  lemma PositionsSnoc<T>(s: seq<T>, x: T, p: T -> bool)
    ensures Positions(s + [x], p) == Positions(s, p) + (if p(x) then {|s|} else {})
  {
    var t := s + [x];
    assert forall i :: 0 <= i < |s| ==> t[i] == s[i];
    assert t[|s|] == x;
  }

  /** The count is the number of positions whose element satisfies p. */
  lemma {:induction false} CountIsIndexCount<T>(s: seq<T>, p: T -> bool)
    ensures Count(s, p) == |Positions(s, p)|
  {
    if |s| > 0 {
      var front, x := s[..|s| - 1], s[|s| - 1];
      assert s == front + [x];
      CountIsIndexCount(front, p);
      FilterSnoc(front, x, p);
      PositionsSnoc(front, x, p);
      assert |front| !in Positions(front, p);
    }
  }

  /** Array.prototype.findIndex: the first position satisfying p, or -1. */
  function FindIndex<T>(s: seq<T>, p: T -> bool): (i: int)
    ensures -1 <= i < |s|
    ensures i >= 0 ==> p(s[i])
    ensures forall j :: 0 <= j < |s| && (i == -1 || j < i) ==> !p(s[j])
  {
    if |s| == 0 then -1
    else if p(s[0]) then 0
    else var k := FindIndex(s[1..], p); if k == -1 then -1 else k + 1
  }

  /** `splice(i, 1)`: the sequence without position i. */
  function RemoveAt<T>(s: seq<T>, i: nat): (r: seq<T>)
    requires i < |s|
    ensures |r| == |s| - 1
    ensures forall j :: 0 <= j < i ==> r[j] == s[j]
    ensures forall j :: i <= j < |r| ==> r[j] == s[j + 1]
  {
    s[..i] + s[i + 1..]
  }

  predicate SortedBy<T>(s: seq<T>, key: T -> int) {
    forall i, j :: 0 <= i < j < |s| ==> key(s[i]) <= key(s[j])
  }

  /** Inserts x after every element whose key is at most key(x), keeping equal keys in
      arrival order. */
  function InsertBy<T>(t: seq<T>, x: T, key: T -> int): (r: seq<T>)
    requires SortedBy(t, key)
    ensures SortedBy(r, key)
    ensures multiset(r) == multiset(t) + multiset{x}
    ensures |r| == |t| + 1
  {
    if |t| == 0 then [x]
    else if key(t[|t| - 1]) <= key(x) then t + [x]
    else
      var last := t[|t| - 1];
      var front := t[..|t| - 1];
      assert t == front + [last];
      var ins := InsertBy(front, x, key);
      BelowLast(front, last, x, ins, key);
      SortedSnoc(ins, last, key);
      ins + [last]
  }

  /** Appending an element whose key bounds every other key keeps a sequence sorted. */
  lemma SortedSnoc<T>(a: seq<T>, y: T, key: T -> int)
    requires SortedBy(a, key)
    requires forall z :: z in multiset(a) ==> key(z) <= key(y)
    ensures SortedBy(a + [y], key)
  {
    forall i, j | 0 <= i < j < |a| + 1
      ensures key((a + [y])[i]) <= key((a + [y])[j])
    {
      assert a[i] in multiset(a);
    }
  }

  /** Inserting a smaller element into the front of a sorted sequence stays below its last one. */
  lemma BelowLast<T>(front: seq<T>, last: T, x: T, ins: seq<T>, key: T -> int)
    requires SortedBy(front + [last], key)
    requires key(x) < key(last)
    requires multiset(ins) == multiset(front) + multiset{x}
    ensures forall z :: z in multiset(ins) ==> key(z) <= key(last)
  {
    forall z | z in multiset(ins)
      ensures key(z) <= key(last)
    {
      if z != x {
        assert z in multiset(front);
        var k :| 0 <= k < |front| && front[k] == z;
        assert (front + [last])[k] == z && (front + [last])[|front|] == last;
      }
    }
  }

  /** The filter starts with the first element that passes. */
  lemma {:induction false} FilterFirst<T>(s: seq<T>, p: T -> bool, i: nat)
    requires i < |s| && p(s[i]) && forall j :: 0 <= j < i ==> !p(s[j])
    ensures |Filter(s, p)| > 0 && Filter(s, p)[0] == s[i]
  {
    if i > 0 {
      FilterFirst(s[1..], p, i - 1);
    }
  }

  /** The elements whose key is k. */
  function KeyIs<T>(key: T -> int, k: int): T -> bool {
    (y: T) => key(y) == k
  }

  /** r keeps the elements of s that share a key in the order s has them: the elements
      with any one key, read left to right, are the same list in both. */
  ghost predicate StableFor<T>(r: seq<T>, s: seq<T>, key: T -> int) {
    forall k :: Filter(r, KeyIs(key, k)) == Filter(s, KeyIs(key, k))
  }

  /** Inserting x adds it after every element with its own key, and moves no element
      past another of the same key. */
  lemma {:induction false} InsertByKeepsKeyOrder<T>(t: seq<T>, x: T, key: T -> int, k: int)
    requires SortedBy(t, key)
    ensures Filter(InsertBy(t, x, key), KeyIs(key, k)) == Filter(t, KeyIs(key, k)) + (if key(x) == k then [x] else [])
  {
    var p := KeyIs(key, k);
    if |t| == 0 {
      assert InsertBy(t, x, key) == [] + [x];
      FilterSnoc([], x, p);
    } else if key(t[|t| - 1]) <= key(x) {
      FilterSnoc(t, x, p);
    } else {
      var last := t[|t| - 1];
      var front := t[..|t| - 1];
      assert t == front + [last];
      assert SortedBy(front, key);
      InsertByKeepsKeyOrder(front, x, key, k);
      SwapPastLarger(front, x, last, key, k);
    }
  }

  /** The last step of inserting x before a larger last element. */
  lemma SwapPastLarger<T>(front: seq<T>, x: T, last: T, key: T -> int, k: int)
    requires SortedBy(front + [last], key) && SortedBy(front, key) && key(x) < key(last)
    requires Filter(InsertBy(front, x, key), KeyIs(key, k)) == Filter(front, KeyIs(key, k)) + (if key(x) == k then [x] else [])
    ensures Filter(InsertBy(front + [last], x, key), KeyIs(key, k))
         == Filter(front + [last], KeyIs(key, k)) + (if key(x) == k then [x] else [])
  {
    var p := KeyIs(key, k);
    var t := front + [last];
    var ins := InsertBy(front, x, key);
    assert t[|t| - 1] == last && t[..|t| - 1] == front;
    assert InsertBy(t, x, key) == ins + [last];
    FilterSnoc(ins, last, p);
    FilterSnoc(front, last, p);
    var fx: seq<T> := if p(x) then [x] else [];
    var fl: seq<T> := if p(last) then [last] else [];
    assert fx == [] || fl == [];
    EmptyPartCommutes(Filter(front, p), fx, fl);
  }

  /** Two tails of which one is empty may be appended in either order. */
  lemma EmptyPartCommutes<T>(a: seq<T>, b: seq<T>, c: seq<T>)
    requires b == [] || c == []
    ensures a + b + c == a + c + b
  {
  }

  /** One step of the insertion sort keeps the key order of the list read so far. */
  lemma InsertByStable<T>(sorted: seq<T>, front: seq<T>, x: T, key: T -> int)
    requires SortedBy(sorted, key) && StableFor(sorted, front, key)
    ensures StableFor(InsertBy(sorted, x, key), front + [x], key)
  {
    forall k
      ensures Filter(InsertBy(sorted, x, key), KeyIs(key, k)) == Filter(front + [x], KeyIs(key, k))
    {
      InsertByKeepsKeyOrder(sorted, x, key, k);
      FilterSnoc(front, x, KeyIs(key, k));
    }
  }

  /** The head of a sorted permutation has the least key of the list. */
  lemma SortedHeadIsLeast<T>(r: seq<T>, s: seq<T>, key: T -> int)
    requires |r| > 0 && SortedBy(r, key) && multiset(r) == multiset(s)
    ensures forall j :: 0 <= j < |s| ==> key(r[0]) <= key(s[j])
  {
    forall j | 0 <= j < |s|
      ensures key(r[0]) <= key(s[j])
    {
      assert s[j] in multiset(r);
      var m :| 0 <= m < |r| && r[m] == s[j];
    }
  }

  /** The head of a stable sort is the first element of the list, in list order, among
      those with the least key. */
  lemma StableHeadIsFirstLeast<T>(r: seq<T>, s: seq<T>, key: T -> int) returns (i: nat)
    requires |r| > 0 && SortedBy(r, key) && multiset(r) == multiset(s) && StableFor(r, s, key)
    ensures i < |s| && r[0] == s[i]
    ensures forall j :: 0 <= j < |s| ==> key(s[i]) <= key(s[j])
    ensures forall j :: 0 <= j < i ==> key(s[i]) < key(s[j])
  {
    var p := KeyIs(key, key(r[0]));
    FilterFirst(r, p, 0);
    assert Filter(r, p) == Filter(s, p);
    assert r[0] in multiset(s);
    var i0 :| 0 <= i0 < |s| && s[i0] == r[0];
    assert p(s[i0]);
    var k := FindIndex(s, p);
    i := k;
    FilterFirst(s, p, i);
    SortedHeadIsLeast(r, s, key);
  }

  /** Array.prototype.sort with a numeric comparator `(a, b) => key(a) - key(b)`. The
      ES2019 sort is stable, and so is this insertion sort: elements with equal keys keep
      their order. */
  function SortBy<T>(s: seq<T>, key: T -> int): (r: seq<T>)
    ensures SortedBy(r, key)
    ensures multiset(r) == multiset(s)
    ensures |r| == |s|
    ensures StableFor(r, s, key)
  {
    if |s| == 0 then []
    else
      var front := s[..|s| - 1];
      assert s == front + [s[|s| - 1]];
      var sorted := SortBy(front, key);
      InsertByStable(sorted, front, s[|s| - 1], key);
      InsertBy(sorted, s[|s| - 1], key)
  }

  /** Two sequences with the same multiset have the same elements. */
  lemma SameElements<T>(a: seq<T>, b: seq<T>)
    requires multiset(a) == multiset(b)
    ensures forall x :: x in a <==> x in b
  {
    forall x ensures x in a <==> x in b {
      assert (x in a <==> x in multiset(a)) && (x in b <==> x in multiset(b));
    }
  }

  /** Sorting a list that is already in order leaves it unchanged. */
  lemma {:induction false} SortBySortedIsIdentity<T>(s: seq<T>, key: T -> int)
    requires SortedBy(s, key)
    ensures SortBy(s, key) == s
  {
    if |s| > 0 {
      var front := s[..|s| - 1];
      assert SortedBy(front, key);
      SortBySortedIsIdentity(front, key);
      assert s == front + [s[|s| - 1]];
      assert SortBy(s, key) == InsertBy(front, s[|s| - 1], key);
    }
  }
}
