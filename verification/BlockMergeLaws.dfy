/** What the block-merge sort keeps under any comparator, and that under a strict weak order it is the stable
    insertion sort. */
module BlockMergeLaws {
  import opened Seqs
  import opened Sorting
  import opened BlockMerge

  // ---- Under any comparator ----

  lemma ExchangeCounts<T>(a: seq<T>, x: seq<T>, y: seq<T>, b: seq<T>)
    ensures multiset((a + y) + (x + b)) == multiset((a + x) + (y + b))
  {
  }

  /** The four pieces of the symmetric merge, and the lengths of the first two. */
  lemma Pieces<T>(s: seq<T>, m: nat, less: (T, T) -> bool)
    returns (a: seq<T>, x: seq<T>, y: seq<T>, b: seq<T>, k: nat, l: nat)
    requires 1 < m < |s| - 1
    ensures k == |a| && l == |x| && s[..m] == a + x && s[m..] == y + b
    ensures SymMerge(s, m, less) == MergeAt(a + y, k, less) + MergeAt(x + b, l, less)
    ensures x != [] && y != [] ==> less(Last(y), x[0])
    ensures a != [] && b != [] ==> !less(b[0], Last(a))
    ensures 0 < |a + y| == |s| / 2 < |s| && |x + b| == |s| - |s| / 2 < |s|
  {
    k := Start(s, m, less);
    l := LeftOver(s, m, less);
    var end := |s| / 2 + m - k;
    a, x, y, b := s[..k], s[k..m], s[m..end], s[end..];
    StartCuts(s, m, less, k, end);
    SliceEnds(s, k, m, end);
    Halves(s, m, less, a, x, y, b);
  }

  lemma Halves<T>(s: seq<T>, m: nat, less: (T, T) -> bool, a: seq<T>, x: seq<T>, y: seq<T>, b: seq<T>)
    requires 0 < m < |s|
    requires var k := Start(s, m, less);
             var end := |s| / 2 + m - k;
             a == s[..k] && x == s[k..m] && y == s[m..end] && b == s[end..]
    ensures LeftHalf(s, m, less) == a + y && RightHalf(s, m, less) == x + b
  {
  }

  lemma StartCuts<T>(s: seq<T>, m: nat, less: (T, T) -> bool, k: nat, end: nat)
    requires 0 < m < |s| && k == Start(s, m, less) && end == |s| / 2 + m - k
    ensures k <= m <= end <= |s|
    ensures k < m < end ==> less(s[end - 1], s[k])
    ensures k > 0 && end < |s| ==> !less(s[end], s[k - 1])
  {
  }

  lemma SliceEnds<T>(s: seq<T>, start: nat, m: nat, end: nat)
    requires start <= m <= end <= |s|
    ensures s[..m] == s[..start] + s[start..m] && s[m..] == s[m..end] + s[end..]
    ensures start > 0 ==> Last(s[..start]) == s[start - 1]
    ensures start < m ==> s[start..m][0] == s[start]
    ensures m < end ==> Last(s[m..end]) == s[end - 1]
    ensures end < |s| ==> s[end..][0] == s[end]
  {
  }

  /** A lone first element and what the merge puts on either side of it. */
  lemma FirstPieces<T>(s: seq<T>, m: nat, less: (T, T) -> bool) returns (y: seq<T>, b: seq<T>)
    requires m == 1 < |s|
    ensures s == [s[0]] + (y + b) && s[1..] == y + b
    ensures SymMerge(s, m, less) == y + ([s[0]] + b)
    ensures y != [] ==> less(Last(y), s[0])
    ensures b != [] ==> !less(b[0], s[0])
  {
    var i := PlaceOfFirst(s, 1, |s|, less);
    y, b := s[1..i], s[i..];
  }

  /** A lone last element and what the merge puts on either side of it. */
  lemma LastPieces<T>(s: seq<T>, m: nat, less: (T, T) -> bool) returns (a: seq<T>, x: seq<T>)
    requires 1 < m == |s| - 1
    ensures s == (a + x) + [Last(s)] && Front(s) == a + x
    ensures SymMerge(s, m, less) == (a + [Last(s)]) + x
    ensures a != [] ==> !less(Last(s), Last(a))
    ensures x != [] ==> less(Last(s), x[0])
  {
    var i := PlaceOfLast(s, 0, m, less);
    a, x := s[..i], s[i..m];
  }

  lemma {:induction false} SymMergePermutes<T>(s: seq<T>, m: nat, less: (T, T) -> bool)
    requires 0 < m < |s|
    ensures multiset(SymMerge(s, m, less)) == multiset(s)
    decreases |s|, 1
  {
    if m == 1 {
      var y, b := FirstPieces(s, m, less);
    } else if m == |s| - 1 {
      var a, x := LastPieces(s, m, less);
    } else {
      InnerPermutes(s, m, less);
    }
  }

  lemma {:induction false} InnerPermutes<T>(s: seq<T>, m: nat, less: (T, T) -> bool)
    requires 1 < m < |s| - 1
    ensures multiset(SymMerge(s, m, less)) == multiset(s)
    decreases |s|, 0
  {
    var a, x, y, b, k, l := Pieces(s, m, less);
    MergeAtPermutes(a + y, k, less);
    MergeAtPermutes(x + b, l, less);
    ExchangeCounts(a, x, y, b);
    assert s == s[..m] + s[m..];
  }

  lemma {:induction false} MergeAtPermutes<T>(s: seq<T>, m: nat, less: (T, T) -> bool)
    ensures multiset(MergeAt(s, m, less)) == multiset(s)
    decreases |s|, 2
  {
    if 0 < m < |s| {
      SymMergePermutes(s, m, less);
    }
  }

  lemma {:induction false} SortBlocksPermutes<T>(s: seq<T>, less: (T, T) -> bool)
    ensures multiset(SortBlocks(s, less)) == multiset(s)
  {
    if |s| < BLOCK {
      SortPermutes(s, less);
    } else {
      SortPermutes(s[..BLOCK], less);
      SortBlocksPermutes(s[BLOCK..], less);
      assert s == s[..BLOCK] + s[BLOCK..];
    }
  }

  lemma {:induction false} MergeRoundPermutes<T>(s: seq<T>, size: nat, less: (T, T) -> bool)
    requires size > 0
    ensures multiset(MergeRound(s, size, less)) == multiset(s)
  {
    if |s| < 2 * size {
      MergeAtPermutes(s, size, less);
    } else {
      SymMergePermutes(s[..2 * size], size, less);
      MergeRoundPermutes(s[2 * size..], size, less);
      assert s == s[..2 * size] + s[2 * size..];
    }
  }

  lemma {:induction false} MergeRoundsPermutes<T>(s: seq<T>, size: nat, less: (T, T) -> bool)
    requires size > 0
    ensures multiset(MergeRounds(s, size, less)) == multiset(s)
    decreases |s| - size
  {
    if size < |s| {
      MergeRoundPermutes(s, size, less);
      MergeRoundsPermutes(MergeRound(s, size, less), 2 * size, less);
    }
  }

  /** The sort loses and invents nothing. */
  lemma SliceStablePermutes<T>(s: seq<T>, less: (T, T) -> bool)
    ensures multiset(SliceStable(s, less)) == multiset(s)
    ensures forall x :: x in SliceStable(s, less) <==> x in s
  {
    SortBlocksPermutes(s, less);
    MergeRoundsPermutes(SortBlocks(s, less), BLOCK, less);
    forall x ensures x in SliceStable(s, less) <==> x in s {
      assert x in multiset(SliceStable(s, less)) <==> x in multiset(s);
    }
  }

  /** The first element stays first if no element is less than it, whatever the others make of each other. */
  ghost predicate Foremost<T(!new)>(s: seq<T>, less: (T, T) -> bool) {
    s != [] && forall x :: x in s ==> !less(x, s[0])
  }

  ghost predicate LedBy<T>(s: seq<T>, e: T) {
    s != [] && s[0] == e
  }

  lemma {:induction false} InsertKeepsFirst<T>(s: seq<T>, x: T, less: (T, T) -> bool)
    requires s != [] && !less(x, s[0])
    ensures LedBy(Insert(s, x, less), s[0])
  {
    if less(x, Last(s)) && |s| > 1 {
      InsertKeepsFirst(Front(s), x, less);
    }
  }

  lemma {:induction false} SortKeepsFirst<T(!new)>(s: seq<T>, less: (T, T) -> bool)
    requires Foremost(s, less)
    ensures LedBy(InsertionSort(s, less), s[0])
  {
    if |s| > 1 {
      SortKeepsFirst(Front(s), less);
      InsertKeepsFirst(InsertionSort(Front(s), less), Last(s), less);
    } else {
      assert Front(s) == [];
    }
  }

  lemma LeftHalfKeepsFirst<T(!new)>(s: seq<T>, a: seq<T>, x: seq<T>, y: seq<T>, b: seq<T>, less: (T, T) -> bool)
    requires Foremost(s, less) && s == (a + x) + (y + b) && a + x != [] && a + y != []
    requires x != [] && y != [] ==> less(Last(y), x[0])
    ensures Foremost(a + y, less) && (a + y)[0] == s[0]
  {
    assert forall e :: e in a + y ==> e in s;
    assert y != [] ==> Last(y) in s;
    assert (a + x)[0] == s[0];
  }

  lemma {:induction false} SymMergeKeepsFirst<T(!new)>(s: seq<T>, m: nat, less: (T, T) -> bool)
    requires 0 < m < |s| && Foremost(s, less)
    ensures LedBy(SymMerge(s, m, less), s[0])
    decreases |s|, 1
  {
    if m == 1 {
      var y, b := FirstPieces(s, m, less);
      LastWithin(y, b);
    } else if m == |s| - 1 {
      var a, x := LastPieces(s, m, less);
      assert Last(s) in s && (a + x)[0] == s[0];
    } else {
      InnerKeepsFirst(s, m, less);
    }
  }

  lemma LastWithin<T>(y: seq<T>, b: seq<T>)
    ensures y != [] ==> Last(y) in y + b
  {
  }

  lemma {:induction false} InnerKeepsFirst<T(!new)>(s: seq<T>, m: nat, less: (T, T) -> bool)
    requires 1 < m < |s| - 1 && Foremost(s, less)
    ensures LedBy(SymMerge(s, m, less), s[0])
    decreases |s|, 0
  {
    var a, x, y, b, k, l := Pieces(s, m, less);
    assert s == s[..m] + s[m..];
    LeftHalfKeepsFirst(s, a, x, y, b, less);
    MergeAtKeepsFirst(a + y, k, less);
  }

  lemma {:induction false} MergeAtKeepsFirst<T(!new)>(s: seq<T>, m: nat, less: (T, T) -> bool)
    requires Foremost(s, less)
    ensures LedBy(MergeAt(s, m, less), s[0])
    decreases |s|, 2
  {
    if 0 < m < |s| {
      SymMergeKeepsFirst(s, m, less);
    }
  }

  lemma {:induction false} SortBlocksKeepsFirst<T(!new)>(s: seq<T>, less: (T, T) -> bool)
    requires Foremost(s, less)
    ensures LedBy(SortBlocks(s, less), s[0])
  {
    if |s| < BLOCK {
      SortKeepsFirst(s, less);
    } else {
      assert forall x :: x in s[..BLOCK] ==> x in s;
      SortKeepsFirst(s[..BLOCK], less);
    }
  }

  lemma {:induction false} MergeRoundsKeepFirst<T(!new)>(s: seq<T>, size: nat, less: (T, T) -> bool)
    requires size > 0 && Foremost(s, less)
    ensures LedBy(MergeRounds(s, size, less), s[0])
    decreases |s| - size
  {
    if size < |s| {
      if |s| < 2 * size {
        MergeAtKeepsFirst(s, size, less);
      } else {
        assert forall x :: x in s[..2 * size] ==> x in s;
        SymMergeKeepsFirst(s[..2 * size], size, less);
      }
      MergeRoundPermutes(s, size, less);
      SameMembers(MergeRound(s, size, less), s);
      MergeRoundsKeepFirst(MergeRound(s, size, less), 2 * size, less);
    }
  }

  lemma SameMembers<T>(s: seq<T>, t: seq<T>)
    requires multiset(s) == multiset(t)
    ensures forall x :: x in s <==> x in t
  {
    forall x ensures x in s <==> x in t {
      assert x in multiset(s) <==> x in multiset(t);
    }
  }

  /** An element that none is less than and that comes first stays first, under any comparator. */
  lemma SliceStableKeepsFirst<T(!new)>(s: seq<T>, less: (T, T) -> bool)
    requires Foremost(s, less)
    ensures LedBy(SliceStable(s, less), s[0])
  {
    SortBlocksPermutes(s, less);
    SameMembers(SortBlocks(s, less), s);
    SortBlocksKeepsFirst(s, less);
    MergeRoundsKeepFirst(SortBlocks(s, less), BLOCK, less);
  }

  /** Up to 20 elements make one block, so that nothing is merged. */
  lemma OneBlock<T>(s: seq<T>, less: (T, T) -> bool)
    requires |s| <= BLOCK
    ensures SliceStable(s, less) == InsertionSort(s, less)
  {
    assert |s| == BLOCK ==> s[..BLOCK] == s && s[BLOCK..] == [];
    assert SortBlocks(s, less) == InsertionSort(s, less);
  }

  /** With one element more than a block, that element is placed by binary search. */
  lemma OneMoreThanBlock<T>(s: seq<T>, less: (T, T) -> bool)
    requires |s| == BLOCK + 1
    ensures var t := InsertionSort(s[..BLOCK], less);
            var i := PlaceOfLast(t + [s[BLOCK]], 0, BLOCK, less);
            SliceStable(s, less) == t[..i] + [s[BLOCK]] + t[i..]
  {
    var t, x := InsertionSort(s[..BLOCK], less), s[BLOCK];
    var u := t + [x];
    assert s[BLOCK..] == [x] && Front([x]) == [];
    assert SortBlocks(s, less) == u;
    var i := PlaceOfLast(u, 0, BLOCK, less);
    assert u[..i] == t[..i] && u[i..BLOCK] == t[i..];
    assert SymMerge(u, BLOCK, less) == u[..i] + [u[BLOCK]] + u[i..BLOCK];
    assert MergeRound(u, BLOCK, less) == SymMerge(u, BLOCK, less);
    assert MergeRounds(u, BLOCK, less) == MergeRound(u, BLOCK, less);
  }

  lemma {:induction false} InsertBehind<T(!new)>(h: seq<T>, t: seq<T>, x: T, less: (T, T) -> bool)
    requires forall y :: y in h ==> !less(x, y)
    ensures Insert(h + t, x, less) == h + Insert(t, x, less)
    decreases |t|
  {
    if t == [] {
      assert h + t == h;
    } else {
      assert h + t == (h + Front(t)) + [Last(t)];
      InsertBehind(h, Front(t), x, less);
    }
  }

  /** What none of the front is beaten by is sorted behind it. */
  lemma {:induction false} SortBehind<T(!new)>(h: seq<T>, t: seq<T>, less: (T, T) -> bool)
    requires InsertionSort(h, less) == h && forall x, y :: x in t && y in h ==> !less(x, y)
    ensures InsertionSort(h + t, less) == h + InsertionSort(t, less)
    decreases |t|
  {
    if t == [] {
      assert h + t == h;
    } else {
      assert Front(h + t) == h + Front(t) && Last(h + t) == Last(t);
      SortBehind(h, Front(t), less);
      InsertBehind(h, InsertionSort(Front(t), less), Last(t), less);
    }
  }

  // ---- Under a strict weak order ----

  ghost predicate StrictWeak<T(!new)>(dom: seq<T>, less: (T, T) -> bool) {
    && (forall x, y :: x in dom && y in dom && less(x, y) ==> !less(y, x))
    && (forall x, y, z :: x in dom && y in dom && z in dom && !less(x, y) && !less(y, z) ==> !less(x, z))
  }

  ghost predicate Within<T(!new)>(s: seq<T>, dom: seq<T>) {
    forall x :: x in s ==> x in dom
  }

  /** No element is less than an earlier one. */
  ghost predicate Rising<T>(s: seq<T>, less: (T, T) -> bool) {
    forall i, j :: 0 <= i < j < |s| ==> !less(s[j], s[i])
  }

  /** No element of `t` is less than one of `s`. */
  ghost predicate Under<T(!new)>(s: seq<T>, t: seq<T>, less: (T, T) -> bool) {
    forall x, y :: x in s && y in t ==> !less(y, x)
  }

  function Inserts<T>(base: seq<T>, s: seq<T>, less: (T, T) -> bool): seq<T> {
    if s == [] then base else Insert(Inserts(base, Front(s), less), Last(s), less)
  }

  lemma {:induction false} InsertsPermute<T>(base: seq<T>, s: seq<T>, less: (T, T) -> bool)
    ensures multiset(Inserts(base, s, less)) == multiset(base) + multiset(s)
  {
    if s != [] {
      InsertsPermute(base, Front(s), less);
      InsertPermutes(Inserts(base, Front(s), less), Last(s), less);
      assert s == Front(s) + [Last(s)];
    }
  }

  lemma InsertsMembers<T>(base: seq<T>, s: seq<T>, less: (T, T) -> bool)
    ensures forall x :: x in Inserts(base, s, less) <==> x in base || x in s
  {
    InsertsPermute(base, s, less);
    forall x ensures x in Inserts(base, s, less) <==> x in base || x in s {
      assert x in multiset(Inserts(base, s, less)) <==> x in multiset(base) + multiset(s);
    }
  }

  lemma {:induction false} InsertsFromNothing<T>(s: seq<T>, less: (T, T) -> bool)
    ensures InsertionSort(s, less) == Inserts([], s, less)
  {
    if s != [] {
      InsertsFromNothing(Front(s), less);
    }
  }

  lemma {:induction false} InsertsConcat<T>(base: seq<T>, s: seq<T>, t: seq<T>, less: (T, T) -> bool)
    ensures Inserts(base, s + t, less) == Inserts(Inserts(base, s, less), t, less)
    decreases |t|
  {
    if t == [] {
      assert s + t == s;
    } else {
      assert Front(s + t) == s + Front(t) && Last(s + t) == Last(t);
      InsertsConcat(base, s, Front(t), less);
    }
  }

  /** Two elements that are out of order can be inserted in either order. */
  lemma {:induction false} Commute<T>(s: seq<T>, x: T, y: T, less: (T, T) -> bool)
    requires less(y, x) && !less(x, y) && forall e :: e in s && less(x, e) ==> less(y, e)
    ensures Insert(Insert(s, x, less), y, less) == Insert(Insert(s, y, less), x, less)
  {
    if s == [] || !less(x, Last(s)) {
      InsertSnoc(s, x, y, less);
      if s == [] || !less(y, Last(s)) {
        InsertSnoc(s, y, x, less);
      } else {
        InsertSnoc(Insert(Front(s), y, less), Last(s), x, less);
      }
    } else {
      InsertSnoc(Insert(Front(s), x, less), Last(s), y, less);
      InsertSnoc(Insert(Front(s), y, less), Last(s), x, less);
      Commute(Front(s), x, y, less);
    }
  }

  lemma InsertSnoc<T>(s: seq<T>, l: T, x: T, less: (T, T) -> bool)
    ensures Insert(s + [l], x, less) == if less(x, l) then Insert(s, x, less) + [l] else s + [l] + [x]
  {
    Snoc(s, l);
  }

  lemma Snoc<T>(s: seq<T>, x: T)
    ensures Front(s + [x]) == s && Last(s + [x]) == x
  {
  }

  /** Inserting a list with one element already in its place is inserting the list and then that element. */
  lemma {:induction false} InsertsInsert<T(!new)>(base: seq<T>, s: seq<T>, x: T, less: (T, T) -> bool, dom: seq<T>)
    requires StrictWeak(dom, less) && Within(base, dom) && Within(s, dom) && x in dom
    ensures Inserts(base, Insert(s, x, less), less) == Insert(Inserts(base, s, less), x, less)
    decreases |s|
  {
    if s == [] || !less(x, Last(s)) {
      Snoc(s, x);
    } else {
      var c, l := Inserts(base, Front(s), less), Last(s);
      InsertsInsert(base, Front(s), x, less, dom);
      Snoc(Insert(Front(s), x, less), l);
      InsertsMembers(base, Front(s), less);
      Commute(c, l, x, less);
    }
  }

  lemma {:induction false} InsertsSorted<T(!new)>(base: seq<T>, s: seq<T>, less: (T, T) -> bool, dom: seq<T>)
    requires StrictWeak(dom, less) && Within(base, dom) && Within(s, dom)
    ensures Inserts(base, InsertionSort(s, less), less) == Inserts(base, s, less)
  {
    if s != [] {
      InsertsSorted(base, Front(s), less, dom);
      SortPermutes(Front(s), less);
      InsertsInsert(base, InsertionSort(Front(s), less), Last(s), less, dom);
    }
  }

  lemma {:induction false} RisingIsSorted<T>(s: seq<T>, less: (T, T) -> bool)
    requires Rising(s, less)
    ensures InsertionSort(s, less) == s
  {
    if s != [] {
      RisingIsSorted(Front(s), less);
      assert s == Front(s) + [Last(s)];
      if |s| > 1 {
        assert !less(s[|s| - 1], s[|s| - 2]);
      }
    }
  }

  lemma {:induction false} InsertRises<T(!new)>(s: seq<T>, x: T, less: (T, T) -> bool, dom: seq<T>)
    requires StrictWeak(dom, less) && Within(s, dom) && x in dom && Rising(s, less)
    ensures Rising(Insert(s, x, less), less)
  {
    if s != [] && less(x, Last(s)) {
      var f := Insert(Front(s), x, less);
      InsertRises(Front(s), x, less, dom);
      InsertPermutes(Front(s), x, less);
      forall i | 0 <= i < |f| ensures !less(Last(s), f[i]) {
        assert f[i] in multiset(f);
        assert f[i] == x || f[i] in Front(s);
      }
    }
  }

  lemma {:induction false} SortRises<T(!new)>(s: seq<T>, less: (T, T) -> bool, dom: seq<T>)
    requires StrictWeak(dom, less) && Within(s, dom)
    ensures Rising(InsertionSort(s, less), less)
  {
    if s != [] {
      SortRises(Front(s), less, dom);
      SortPermutes(Front(s), less);
      InsertRises(InsertionSort(Front(s), less), Last(s), less, dom);
    }
  }

  /** Every element of `y` is less than every element of `x`. */
  ghost predicate Ahead<T(!new)>(y: seq<T>, x: seq<T>, less: (T, T) -> bool) {
    forall u, v :: u in y && v in x ==> less(u, v)
  }

  lemma {:induction false} InsertBeforeBlock<T(!new)>(base: seq<T>, x: seq<T>, e: T, less: (T, T) -> bool, dom: seq<T>)
    requires StrictWeak(dom, less) && Within(base, dom) && Within(x, dom) && e in dom && Ahead([e], x, less)
    ensures Inserts(base, x + [e], less) == Inserts(Insert(base, e, less), x, less)
  {
    Snoc(x, e);
    if x != [] {
      var f, l := Front(x), Last(x);
      assert e in [e] && l in x;
      InsertBeforeBlock(base, f, e, less, dom);
      Snoc(f, e);
      InsertsMembers(base, f, less);
      Commute(Inserts(base, f, less), l, e, less);
    }
  }

  /** Two neighbouring blocks that are wholly out of order can be inserted in either order. */
  lemma {:induction false} BlocksCommute<T(!new)>(base: seq<T>, x: seq<T>, y: seq<T>, less: (T, T) -> bool, dom: seq<T>)
    requires StrictWeak(dom, less) && Within(base, dom) && Within(x, dom) && Within(y, dom) && Ahead(y, x, less)
    ensures Inserts(base, x + y, less) == Inserts(base, y + x, less)
    decreases |y|
  {
    if y == [] {
      assert x + y == y + x;
    } else {
      var f, l := Front(y), Last(y);
      assert l in y;
      assert x + y == (x + f) + [l] && y + x == f + ([l] + x);
      BlocksCommute(base, x, f, less, dom);
      InsertsMembers(base, f, less);
      InsertsConcat(base, f, x, less);
      InsertsConcat(base, f, [l] + x, less);
      InsertsConcat(Inserts(base, f, less), [l], x, less);
      Snoc(x + f, l);
      Snoc([], l);
      InsertBeforeBlock(Inserts(base, f, less), x, l, less, dom);
      Snoc(x, l);
    }
  }

  lemma {:induction false} SortConcat<T>(s: seq<T>, t: seq<T>, less: (T, T) -> bool)
    ensures InsertionSort(s + t, less) == Inserts(InsertionSort(s, less), t, less)
  {
    InsertsFromNothing(s + t, less);
    InsertsFromNothing(s, less);
    InsertsConcat([], s, t, less);
  }

  /** Sorting two parts first does not change what the whole sorts to. */
  lemma SortParts<T(!new)>(s: seq<T>, t: seq<T>, less: (T, T) -> bool, dom: seq<T>)
    requires StrictWeak(dom, less) && Within(s, dom) && Within(t, dom)
    ensures InsertionSort(InsertionSort(s, less) + InsertionSort(t, less), less) == InsertionSort(s + t, less)
  {
    SortConcat(s, t, less);
    SortConcat(InsertionSort(s, less), InsertionSort(t, less), less);
    SortRises(s, less, dom);
    RisingIsSorted(InsertionSort(s, less), less);
    SortPermutes(s, less);
    InsertsSorted(InsertionSort(s, less), t, less, dom);
  }

  lemma SortExchange<T(!new)>(a: seq<T>, x: seq<T>, y: seq<T>, b: seq<T>, less: (T, T) -> bool, dom: seq<T>)
    requires StrictWeak(dom, less) && Within((a + x) + (y + b), dom) && Ahead(y, x, less)
    ensures InsertionSort((a + y) + (x + b), less) == InsertionSort((a + x) + (y + b), less)
  {
    assert (a + y) + (x + b) == a + (y + x) + b && (a + x) + (y + b) == a + (x + y) + b;
    var all := (a + x) + (y + b);
    assert forall e :: e in a || e in x || e in y ==> e in all;
    SortPermutes(a, less);
    BlocksCommute(InsertionSort(a, less), x, y, less, dom);
    SortConcat(a, y + x, less);
    SortConcat(a, x + y, less);
    SortConcat(a + (y + x), b, less);
    SortConcat(a + (x + y), b, less);
  }

  /** Two lists of which no element of the second is less than one of the first are sorted by sorting each. */
  lemma SortUnder<T(!new)>(s: seq<T>, t: seq<T>, less: (T, T) -> bool, dom: seq<T>)
    requires StrictWeak(dom, less) && Within(s, dom) && Within(t, dom) && Under(s, t, less)
    ensures InsertionSort(s, less) + InsertionSort(t, less) == InsertionSort(s + t, less)
  {
    SortParts(s, t, less, dom);
    SortRises(s, less, dom);
    SortRises(t, less, dom);
    SortPermutes(s, less);
    SortPermutes(t, less);
    RisingConcat(InsertionSort(s, less), InsertionSort(t, less), less);
    RisingIsSorted(InsertionSort(s, less) + InsertionSort(t, less), less);
  }

  lemma RisingConcat<T(!new)>(s: seq<T>, t: seq<T>, less: (T, T) -> bool)
    requires Rising(s, less) && Rising(t, less) && Under(s, t, less)
    ensures Rising(s + t, less)
  {
    var u := s + t;
    forall i, j | 0 <= i < j < |u| ensures !less(u[j], u[i]) {
      if i < |s| <= j {
        assert u[i] in s && u[j] in t;
      }
    }
  }

  lemma RisingPart<T(!new)>(s: seq<T>, t: seq<T>, less: (T, T) -> bool)
    requires Rising(s + t, less)
    ensures Rising(s, less) && Rising(t, less) && Under(s, t, less)
  {
    var u := s + t;
    forall i, j | 0 <= i < j < |s| ensures !less(s[j], s[i]) {
      assert u[i] == s[i] && u[j] == s[j];
    }
    forall i, j | 0 <= i < j < |t| ensures !less(t[j], t[i]) {
      assert u[|s| + i] == t[i] && u[|s| + j] == t[j];
    }
    forall x, y | x in s && y in t ensures !less(y, x) {
      var i :| 0 <= i < |s| && s[i] == x;
      var j :| 0 <= j < |t| && t[j] == y;
      assert u[i] == x && u[|s| + j] == y;
    }
  }

  /** Two runs, cut where the symmetric merge cuts them: the inner pieces are wholly out of order, and when they have
      changed places neither half holds anything that belongs in the other. */
  lemma CutSeparates<T(!new)>(a: seq<T>, x: seq<T>, y: seq<T>, b: seq<T>, less: (T, T) -> bool, dom: seq<T>)
    requires StrictWeak(dom, less) && Within((a + x) + (y + b), dom)
    requires Rising(a + x, less) && Rising(y + b, less)
    requires x != [] && y != [] ==> less(Last(y), x[0])
    requires a != [] && b != [] ==> !less(b[0], Last(a))
    ensures Rising(a, less) && Rising(x, less) && Rising(y, less) && Rising(b, less)
    ensures Ahead(y, x, less) && Under(a + y, x + b, less)
  {
    var all := (a + x) + (y + b);
    assert forall e :: e in a || e in x || e in y || e in b ==> e in all;
    RisingPart(a, x, less);
    RisingPart(y, b, less);
    forall u, v | u in y && v in x ensures less(u, v) {
      NoneAfterLast(y, u, less);
      NoneBeforeFirst(x, v, less);
      assert Last(y) in y && x[0] in x;
    }
    forall u, v | u in a && v in b ensures !less(v, u) {
      NoneAfterLast(a, u, less);
      NoneBeforeFirst(b, v, less);
      assert Last(a) in a && b[0] in b;
    }
  }

  lemma NoneAfterLast<T>(s: seq<T>, e: T, less: (T, T) -> bool)
    requires Rising(s, less) && e in s
    ensures e == Last(s) || !less(Last(s), e)
  {
  }

  lemma NoneBeforeFirst<T>(s: seq<T>, e: T, less: (T, T) -> bool)
    requires Rising(s, less) && e in s
    ensures e == s[0] || !less(e, s[0])
  {
  }

  /** The halves of the symmetric merge, each sorted by itself, make the whole sorted. */
  lemma HalvesSort<T(!new)>(s: seq<T>, a: seq<T>, x: seq<T>, y: seq<T>, b: seq<T>, less: (T, T) -> bool, dom: seq<T>)
    requires StrictWeak(dom, less) && Within(s, dom) && s == (a + x) + (y + b)
    requires Ahead(y, x, less) && Under(a + y, x + b, less)
    ensures InsertionSort(a + y, less) + InsertionSort(x + b, less) == InsertionSort(s, less)
  {
    HalfWithin(a, x, y, b, dom);
    SortUnder(a + y, x + b, less, dom);
    SortExchange(a, x, y, b, less, dom);
  }

  lemma HalfWithin<T(!new)>(a: seq<T>, x: seq<T>, y: seq<T>, b: seq<T>, dom: seq<T>)
    requires Within((a + x) + (y + b), dom)
    ensures Within(a + y, dom) && Within(x + b, dom)
  {
    assert forall e :: e in a + y || e in x + b ==> e in (a + x) + (y + b);
  }

  /** Merging two rising runs gives the stable sort of both. */
  lemma {:induction false} SymMergeSorts<T(!new)>(s: seq<T>, m: nat, p: seq<T>, q: seq<T>, less: (T, T) -> bool,
                                                  dom: seq<T>)
    requires StrictWeak(dom, less) && Within(s, dom) && s == p + q && m == |p| && p != [] && q != []
    requires Rising(p, less) && Rising(q, less)
    ensures SymMerge(s, m, less) == InsertionSort(s, less)
    decreases |s|, 0
  {
    if m == 1 {
      assert s[1..] == q;
      FirstMergeSorts(s, m, less, dom);
    } else if m == |s| - 1 {
      assert Front(s) == p;
      LastMergeSorts(s, m, less, dom);
    } else {
      InnerMergeSorts(s, m, p, q, less, dom);
    }
  }

  lemma {:induction false} InnerMergeSorts<T(!new)>(s: seq<T>, m: nat, p: seq<T>, q: seq<T>, less: (T, T) -> bool,
                                                    dom: seq<T>)
    requires StrictWeak(dom, less) && Within(s, dom) && s == p + q && m == |p| > 1 && |q| > 1
    requires Rising(p, less) && Rising(q, less)
    ensures SymMerge(s, m, less) == InsertionSort(s, less)
    decreases |s|, 0, 0
  {
    var a, x, y, b, k, l := Pieces(s, m, less);
    assert s[..m] == p && s[m..] == q;
    CutSeparates(a, x, y, b, less, dom);
    HalfWithin(a, x, y, b, dom);
    MergeAtSorts(a + y, a, y, k, less, dom);
    MergeAtSorts(x + b, x, b, l, less, dom);
    HalvesSort(s, a, x, y, b, less, dom);
  }

  lemma {:induction false} MergeAtSorts<T(!new)>(s: seq<T>, p: seq<T>, q: seq<T>, m: nat, less: (T, T) -> bool,
                                                 dom: seq<T>)
    requires StrictWeak(dom, less) && Within(s, dom) && s == p + q && m == |p|
    requires Rising(p, less) && Rising(q, less)
    ensures MergeAt(s, m, less) == InsertionSort(s, less)
    decreases |s|, 1
  {
    if p != [] && q != [] {
      SymMergeSorts(s, m, p, q, less, dom);
    } else {
      assert s == p || s == q;
      RisingIsSorted(s, less);
    }
  }

  lemma ExchangeSorts<T(!new)>(a: seq<T>, x: seq<T>, y: seq<T>, b: seq<T>, less: (T, T) -> bool, dom: seq<T>)
    requires StrictWeak(dom, less) && Within((a + x) + (y + b), dom)
    requires Rising(a + x, less) && Rising(y + b, less) && Rising(a + y, less) && Rising(x + b, less)
    requires x != [] && y != [] ==> less(Last(y), x[0])
    requires a != [] && b != [] ==> !less(b[0], Last(a))
    ensures (a + y) + (x + b) == InsertionSort((a + x) + (y + b), less)
  {
    CutSeparates(a, x, y, b, less, dom);
    SortExchange(a, x, y, b, less, dom);
    RisingConcat(a + y, x + b, less);
    RisingIsSorted((a + y) + (x + b), less);
  }

  lemma RisingCons<T(!new)>(e: T, s: seq<T>, less: (T, T) -> bool, dom: seq<T>)
    requires StrictWeak(dom, less) && Within(s, dom) && e in dom
    requires Rising(s, less) && (s != [] ==> !less(s[0], e))
    ensures Rising([e] + s, less)
  {
    forall v | v in s ensures !less(v, e) {
      NoneBeforeFirst(s, v, less);
      assert s[0] in s;
    }
    RisingConcat([e], s, less);
  }

  lemma RisingSnoc<T(!new)>(s: seq<T>, e: T, less: (T, T) -> bool, dom: seq<T>)
    requires StrictWeak(dom, less) && Within(s, dom) && e in dom
    requires Rising(s, less) && (s != [] ==> !less(e, Last(s)))
    ensures Rising(s + [e], less)
  {
    forall u | u in s ensures !less(e, u) {
      NoneAfterLast(s, u, less);
      assert Last(s) in s;
    }
    RisingConcat(s, [e], less);
  }

  lemma FirstMergeSorts<T(!new)>(s: seq<T>, m: nat, less: (T, T) -> bool, dom: seq<T>)
    requires StrictWeak(dom, less) && Within(s, dom)
    requires m == 1 < |s| && Rising(s[1..], less)
    ensures SymMerge(s, m, less) == InsertionSort(s, less)
  {
    var y, b := FirstPieces(s, m, less);
    var x := [s[0]];
    RisingPart(y, b, less);
    assert s[0] in s;
    assert forall e :: e in b ==> e in y + b;
    assert forall e :: e in y + b ==> e in s;
    RisingCons(s[0], b, less, dom);
    NoneInFront(x, y);
    ExchangeSorts([], x, y, b, less, dom);
  }

  lemma NoneInFront<T>(x: seq<T>, y: seq<T>)
    ensures [] + x == x && [] + y == y && x + [] == x && y + [] == y
  {
  }

  lemma LastMergeSorts<T(!new)>(s: seq<T>, m: nat, less: (T, T) -> bool, dom: seq<T>)
    requires StrictWeak(dom, less) && Within(s, dom)
    requires 1 < m == |s| - 1 && Rising(Front(s), less)
    ensures SymMerge(s, m, less) == InsertionSort(s, less)
  {
    var a, x := LastPieces(s, m, less);
    var y := [Last(s)];
    RisingPart(a, x, less);
    assert Last(s) in s;
    assert forall e :: e in a ==> e in Front(s);
    assert forall e :: e in Front(s) ==> e in s;
    RisingSnoc(a, Last(s), less, dom);
    NoneInFront(x, y);
    ExchangeSorts(a, x, y, [], less, dom);
  }

  // ---- Rounds of merges ----

  /** Cut into runs of the given size, each run rises. */
  ghost predicate Runs<T>(s: seq<T>, size: nat, less: (T, T) -> bool)
    requires size > 0
  {
    if |s| <= size then Rising(s, less) else Rising(s[..size], less) && Runs(s[size..], size, less)
  }

  lemma {:induction false} BlocksAreRuns<T(!new)>(s: seq<T>, less: (T, T) -> bool, dom: seq<T>)
    requires StrictWeak(dom, less) && Within(s, dom)
    ensures Runs(SortBlocks(s, less), BLOCK, less)
    ensures InsertionSort(SortBlocks(s, less), less) == InsertionSort(s, less)
  {
    if |s| < BLOCK {
      SortRises(s, less, dom);
      RisingIsSorted(InsertionSort(s, less), less);
    } else {
      var h, t := s[..BLOCK], s[BLOCK..];
      var r := SortBlocks(t, less);
      assert s == h + t;
      SortRises(h, less, dom);
      BlocksAreRuns(t, less, dom);
      assert (InsertionSort(h, less) + r)[..BLOCK] == InsertionSort(h, less);
      assert (InsertionSort(h, less) + r)[BLOCK..] == r;
      assert r == [] ==> InsertionSort(h, less) + r == InsertionSort(h, less);
      SortBlocksPermutes(t, less);
      SameMembers(r, t);
      SortedHead(h, t, r, less, dom);
    }
  }

  /** Sorting a head, and rearranging a tail without changing what it sorts to, leaves what the whole sorts to. */
  lemma SortedHead<T(!new)>(h: seq<T>, t: seq<T>, r: seq<T>, less: (T, T) -> bool, dom: seq<T>)
    requires StrictWeak(dom, less) && Within(h, dom) && Within(t, dom) && Within(r, dom)
    requires InsertionSort(r, less) == InsertionSort(t, less)
    ensures InsertionSort(InsertionSort(h, less) + r, less) == InsertionSort(h + t, less)
  {
    SortParts(h, t, less, dom);
    SortPermutes(h, less);
    SortParts(InsertionSort(h, less), r, less, dom);
    SortRises(h, less, dom);
    RisingIsSorted(InsertionSort(h, less), less);
  }

  lemma {:induction false} RoundMerges<T(!new)>(s: seq<T>, size: nat, less: (T, T) -> bool, dom: seq<T>)
    requires size > 0 && StrictWeak(dom, less) && Within(s, dom) && Runs(s, size, less)
    ensures Runs(MergeRound(s, size, less), 2 * size, less)
    ensures InsertionSort(MergeRound(s, size, less), less) == InsertionSort(s, less)
  {
    if |s| < 2 * size {
      if size < |s| {
        assert s == s[..size] + s[size..];
        MergeAtSorts(s, s[..size], s[size..], size, less, dom);
        SortRises(s, less, dom);
        RisingIsSorted(InsertionSort(s, less), less);
      }
    } else {
      var p, q, t := FirstRuns(s, size, less);
      RoundMerges(t, size, less, dom);
      var r := MergeRound(t, size, less);
      MergeRoundPermutes(t, size, less);
      SameMembers(r, t);
      SymMergeSorts(p + q, size, p, q, less, dom);
      SortRises(p + q, less, dom);
      SortedHead(p + q, t, r, less, dom);
      RunsCons(InsertionSort(p + q, less), r, 2 * size, less);
    }
  }

  /** The two runs that are merged first, and the rest. */
  lemma FirstRuns<T>(s: seq<T>, size: nat, less: (T, T) -> bool) returns (p: seq<T>, q: seq<T>, t: seq<T>)
    requires 0 < size && 2 * size <= |s| && Runs(s, size, less)
    ensures s == (p + q) + t && |p| == |q| == size && Rising(p, less) && Rising(q, less) && Runs(t, size, less)
    ensures MergeRound(s, size, less) == SymMerge(p + q, size, less) + MergeRound(t, size, less)
  {
    p, q, t := s[..size], s[size..][..size], s[2 * size..];
    FirstRun(s[size..], size, less);
    assert s[..2 * size] == p + q && t == s[size..][size..];
  }

  lemma RunsCons<T>(h: seq<T>, t: seq<T>, size: nat, less: (T, T) -> bool)
    requires size == |h| > 0 && Rising(h, less) && Runs(t, size, less)
    ensures Runs(h + t, size, less)
  {
    assert (h + t)[..size] == h && (h + t)[size..] == t;
    assert t == [] ==> h + t == h;
  }

  lemma FirstRun<T>(s: seq<T>, size: nat, less: (T, T) -> bool)
    requires 0 < size <= |s| && Runs(s, size, less)
    ensures Rising(s[..size], less) && Runs(s[size..], size, less)
  {
  }

  lemma {:induction false} RoundsSort<T(!new)>(s: seq<T>, size: nat, less: (T, T) -> bool, dom: seq<T>)
    requires size > 0 && StrictWeak(dom, less) && Within(s, dom) && Runs(s, size, less)
    ensures MergeRounds(s, size, less) == InsertionSort(s, less)
    decreases |s| - size
  {
    if size < |s| {
      RoundMerges(s, size, less, dom);
      MergeRoundPermutes(s, size, less);
      SameMembers(MergeRound(s, size, less), s);
      RoundsSort(MergeRound(s, size, less), 2 * size, less, dom);
    } else {
      RisingIsSorted(s, less);
    }
  }

  /** Where the comparator is a strict weak order on the list, blocks and merges give the one stable arrangement. */
  lemma SliceStableIsInsertionSort<T(!new)>(s: seq<T>, less: (T, T) -> bool)
    requires StrictWeak(s, less)
    ensures SliceStable(s, less) == InsertionSort(s, less)
  {
    BlocksAreRuns(s, less, s);
    SortBlocksPermutes(s, less);
    SameMembers(SortBlocks(s, less), s);
    RoundsSort(SortBlocks(s, less), BLOCK, less, s);
  }

  // ---- Under a comparator that decides every pair ----

  lemma TournamentIsStrictWeak<T(!new)>(s: seq<T>, less: (T, T) -> bool)
    requires Tournament(s, less) && Transitive(s, less)
    ensures StrictWeak(s, less)
  {
    forall x, y, z | x in s && y in s && z in s && !less(x, y) && !less(y, z) ensures !less(x, z) {
      if x != y && y != z {
        assert less(z, y) && less(y, x);
        assert less(z, x);
      }
    }
  }

  /** For elements that compare one way or the other, the sort orders them exactly when the comparator is transitive
      on them. */
  lemma SortOrdersIffTransitive<T(!new)>(s: seq<T>, less: (T, T) -> bool)
    requires NoDuplicates(s) && Tournament(s, less)
    ensures Ordered(SliceStable(s, less), less) <==> Transitive(s, less)
  {
    var t := SliceStable(s, less);
    if Transitive(s, less) {
      TournamentIsStrictWeak(s, less);
      SliceStableIsInsertionSort(s, less);
      SortOrders(s, less);
    }
    SliceStablePermutes(s, less);
    if Ordered(t, less) {
      assert Tournament(t, less);
      OrderedIsTransitive(t, less);
    }
  }

  /** Any other arrangement that is ordered is the one the sort returns, so it does not matter which correct sorting
      algorithm is used, nor how the elements were arranged before. */
  lemma AnySortAgrees<T(!new)>(s: seq<T>, out: seq<T>, less: (T, T) -> bool)
    requires NoDuplicates(s) && Tournament(s, less)
    requires (forall x :: x in s <==> x in out) && Ordered(out, less)
    ensures out == SliceStable(s, less)
  {
    assert Tournament(out, less);
    OrderedIsTransitive(out, less);
    assert Transitive(s, less);
    SortOrdersIffTransitive(s, less);
    SliceStablePermutes(s, less);
    OrderedUnique(out, SliceStable(s, less), less);
  }
}
