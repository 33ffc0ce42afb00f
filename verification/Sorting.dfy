/** Stable insertion sort, and the one arrangement it gives when the comparator is a strict total order. */
module Sorting {
  import opened Seqs

  /** Moves `x` left past the elements it is less than, starting at the right end. */
  function Insert<T>(s: seq<T>, x: T, less: (T, T) -> bool): (r: seq<T>)
    ensures |r| == |s| + 1
  {
    if s == [] || !less(x, Last(s)) then s + [x] else Insert(Front(s), x, less) + [Last(s)]
  }

  function InsertionSort<T>(s: seq<T>, less: (T, T) -> bool): (r: seq<T>)
    ensures |r| == |s|
  {
    if s == [] then [] else Insert(InsertionSort(Front(s), less), Last(s), less)
  }

  /** Every earlier element is less than every later one. */
  ghost predicate Ordered<T>(s: seq<T>, less: (T, T) -> bool) {
    forall i, j :: 0 <= i < j < |s| ==> less(s[i], s[j])
  }

  ghost predicate NoDuplicates<T>(s: seq<T>) {
    forall i, j :: 0 <= i < j < |s| ==> s[i] != s[j]
  }

  /** On the elements of `s`, exactly one of two different elements is less than the other. */
  ghost predicate Tournament<T(!new)>(s: seq<T>, less: (T, T) -> bool) {
    && (forall x :: x in s ==> !less(x, x))
    && (forall x, y :: x in s && y in s && x != y ==> less(x, y) != less(y, x))
  }

  ghost predicate Transitive<T(!new)>(s: seq<T>, less: (T, T) -> bool) {
    forall x, y, z :: x in s && y in s && z in s && less(x, y) && less(y, z) ==> less(x, z)
  }

  // ---- The sort permutes ----

  lemma {:induction false} InsertPermutes<T>(s: seq<T>, x: T, less: (T, T) -> bool)
    ensures multiset(Insert(s, x, less)) == multiset(s) + multiset{x}
    ensures |Insert(s, x, less)| == |s| + 1
  {
    if s != [] && less(x, Last(s)) {
      InsertPermutes(Front(s), x, less);
      assert s == Front(s) + [Last(s)];
    }
  }

  lemma {:induction false} SortPermutes<T>(s: seq<T>, less: (T, T) -> bool)
    ensures multiset(InsertionSort(s, less)) == multiset(s)
    ensures |InsertionSort(s, less)| == |s|
    ensures forall x :: x in InsertionSort(s, less) <==> x in s
  {
    if s != [] {
      SortPermutes(Front(s), less);
      InsertPermutes(InsertionSort(Front(s), less), Last(s), less);
      assert s == Front(s) + [Last(s)];
    }
    forall x ensures x in InsertionSort(s, less) <==> x in s {
      assert x in multiset(InsertionSort(s, less)) <==> x in multiset(s);
    }
  }

  // ---- It sorts when the comparator is a strict total order on the elements ----

  lemma {:induction false} InsertKeepsOrder<T(!new)>(s: seq<T>, x: T, less: (T, T) -> bool)
    requires Ordered(s, less) && x !in s
    requires Tournament(s + [x], less) && Transitive(s + [x], less)
    ensures Ordered(Insert(s, x, less), less)
  {
    if s == [] {
    } else if !less(x, Last(s)) {
      forall i | 0 <= i < |s| ensures less(s[i], x) {
        assert Last(s) in s + [x] && s[i] in s + [x] && x in s + [x];
        assert less(Last(s), x);
      }
    } else {
      InsertKeepsOrder(Front(s), x, less);
      InsertPermutes(Front(s), x, less);
      var t := Insert(Front(s), x, less);
      forall i | 0 <= i < |t| ensures less(t[i], Last(s)) {
        assert t[i] in multiset(t);
        if t[i] != x {
          assert t[i] in Front(s);
        }
      }
    }
  }

  lemma {:induction false} SortOrders<T(!new)>(s: seq<T>, less: (T, T) -> bool)
    requires NoDuplicates(s) && Tournament(s, less) && Transitive(s, less)
    ensures Ordered(InsertionSort(s, less), less)
  {
    if s != [] {
      assert forall x :: x in Front(s) ==> x in s;
      SortOrders(Front(s), less);
      SortPermutes(Front(s), less);
      var t := InsertionSort(Front(s), less);
      assert forall x :: x in t + [Last(s)] ==> x in s;
      InsertKeepsOrder(t, Last(s), less);
    }
  }

  // ---- An ordered arrangement is unique, and exists only when the comparator does not cycle ----

  lemma OrderedPlace<T(!new)>(s: seq<T>, less: (T, T) -> bool, i: nat, j: nat)
    requires Ordered(s, less) && Tournament(s, less)
    requires i < |s| && j < |s|
    ensures less(s[i], s[j]) <==> i < j
  {
  }

  lemma OrderedIsTransitive<T(!new)>(s: seq<T>, less: (T, T) -> bool)
    requires Ordered(s, less) && Tournament(s, less)
    ensures Transitive(s, less)
  {
  }

  lemma OrderedHasNoDuplicates<T(!new)>(s: seq<T>, less: (T, T) -> bool)
    requires Ordered(s, less) && Tournament(s, less)
    ensures NoDuplicates(s)
  {
  }

  lemma {:induction false} OrderedUnique<T(!new)>(s: seq<T>, t: seq<T>, less: (T, T) -> bool)
    requires Ordered(s, less) && Ordered(t, less) && Tournament(s, less)
    requires forall x :: x in s <==> x in t
    ensures s == t
    decreases |s|
  {
    assert Tournament(t, less);
    OrderedHasNoDuplicates(s, less);
    OrderedHasNoDuplicates(t, less);
    assert t != [] ==> t[0] in t;
    if s != [] {
      assert s[0] in t && |t| > 0 && t[0] in s;
      var i :| 0 <= i < |t| && t[i] == s[0];
      var j :| 0 <= j < |s| && s[j] == t[0];
      OrderedPlace(t, less, i, 0);
      OrderedPlace(t, less, 0, i);
      OrderedPlace(s, less, 0, j);
      assert s[0] == t[0];
      forall x ensures x in s[1..] <==> x in t[1..] {
        if x in s[1..] {
          var k :| 1 <= k < |s| && s[k] == x;
          assert x in t && x != t[0];
        }
        if x in t[1..] {
          var k :| 1 <= k < |t| && t[k] == x;
          assert x in s && x != s[0];
        }
      }
      assert forall x :: x in s[1..] ==> x in s;
      OrderedUnique(s[1..], t[1..], less);
    }
  }
}
