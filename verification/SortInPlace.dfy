/** The library's stable sort on an array: every method is proved against the function of the same part of the old
    contents. */
module SortInPlace {
  import opened Seqs
  import opened Sorting
  import opened BlockMerge

  /** `s` with the elements from `lo` to `hi` replaced. */
  function Splice<T>(s: seq<T>, lo: nat, hi: nat, r: seq<T>): (u: seq<T>)
    requires lo <= hi <= |s| && |r| == hi - lo
    ensures |u| == |s| && u[..lo] == s[..lo] && u[lo..hi] == r && u[hi..] == s[hi..]
  {
    s[..lo] + r + s[hi..]
  }

  lemma SpliceIs<T>(s: seq<T>, lo: nat, hi: nat, r: seq<T>, u: seq<T>)
    requires lo <= hi <= |s| && |r| == hi - lo
    requires |u| == |s| && u[..lo] == s[..lo] && u[lo..hi] == r && u[hi..] == s[hi..]
    ensures u == Splice(s, lo, hi, r)
  {
    assert u == u[..lo] + u[lo..hi] + u[hi..];
  }

  // ---- Insertion sort of a part ----

  /** Where `Insert` puts `x`: after the last element it is not less than. */
  lemma {:induction false} InsertBetween<T>(s: seq<T>, x: T, t: seq<T>, less: (T, T) -> bool)
    requires (s != [] ==> !less(x, Last(s))) && forall k :: 0 <= k < |t| ==> less(x, t[k])
    ensures Insert(s + t, x, less) == s + [x] + t
    decreases |t|
  {
    if t == [] {
      assert s + t == s;
    } else {
      InsertBetween(s, x, Front(t), less);
      assert s + t == (s + Front(t)) + [Last(t)];
    }
  }

  /** Moves the element at `i` left to its place among the elements from `lo` on. */
  method SiftLeft<T>(a: array<T>, lo: nat, i: nat, less: (T, T) -> bool)
    requires lo <= i < a.Length
    modifies a
    ensures a[..] == Splice(old(a[..]), lo, i + 1, Insert(old(a[lo..i]), old(a[i]), less))
  {
    ghost var was := a[..];
    var j := i;
    while j > lo && less(a[j], a[j - 1])
      invariant lo <= j <= i && a[j] == was[i]
      invariant forall k :: 0 <= k < j ==> a[k] == was[k]
      invariant forall k :: j < k <= i ==> a[k] == was[k - 1]
      invariant forall k :: i < k < a.Length ==> a[k] == was[k]
      invariant forall k :: j <= k < i ==> less(was[i], was[k])
    {
      a[j], a[j - 1] := a[j - 1], a[j];
      j := j - 1;
    }
    SiftedSlices(was, a[..], lo, i, j);
    Between(was, lo, i, j, less);
    SliceSplit(was, lo, j, i);
    SliceJoin(a[..], lo, j, i + 1);
    Sifted(was, a[..], lo, i, was[lo..j], was[i], was[j..i], less);
    assert old(a[lo..i]) == was[lo..i];
  }

  lemma SiftedSlices<T>(was: seq<T>, now: seq<T>, lo: nat, i: nat, j: nat)
    requires lo <= j <= i < |was| == |now|
    requires forall k :: 0 <= k < j ==> now[k] == was[k]
    requires forall k :: j < k <= i ==> now[k] == was[k - 1]
    requires forall k :: i < k < |was| ==> now[k] == was[k]
    ensures now[..lo] == was[..lo] && now[lo..j] == was[lo..j]
    ensures now[j + 1..i + 1] == was[j..i] && now[i + 1..] == was[i + 1..]
  {
  }

  lemma Sifted<T>(was: seq<T>, now: seq<T>, lo: nat, i: nat, p: seq<T>, x: T, q: seq<T>, less: (T, T) -> bool)
    requires lo <= i < |was| == |now| && was[lo..i] == p + q
    requires now[..lo] == was[..lo] && now[lo..i + 1] == p + [x] + q && now[i + 1..] == was[i + 1..]
    requires (p != [] ==> !less(x, Last(p))) && forall k :: 0 <= k < |q| ==> less(x, q[k])
    ensures now == Splice(was, lo, i + 1, Insert(was[lo..i], x, less))
  {
    InsertBetween(p, x, q, less);
    SpliceIs(was, lo, i + 1, p + [x] + q, now);
  }

  lemma Between<T>(was: seq<T>, lo: nat, i: nat, j: nat, less: (T, T) -> bool)
    requires lo <= j <= i < |was|
    requires forall k :: j <= k < i ==> less(was[i], was[k])
    requires j > lo ==> !less(was[i], was[j - 1])
    ensures was[lo..j] != [] ==> !less(was[i], Last(was[lo..j]))
    ensures forall k :: 0 <= k < |was[j..i]| ==> less(was[i], was[j..i][k])
  {
  }

  lemma SliceSplit<T>(s: seq<T>, lo: nat, j: nat, hi: nat)
    requires lo <= j <= hi <= |s|
    ensures s[lo..hi] == s[lo..j] + s[j..hi]
  {
  }

  lemma SliceJoin<T>(s: seq<T>, lo: nat, j: nat, hi: nat)
    requires lo <= j < hi <= |s|
    ensures s[lo..hi] == s[lo..j] + [s[j]] + s[j + 1..hi]
  {
  }

  method SortPart<T>(a: array<T>, lo: nat, hi: nat, less: (T, T) -> bool)
    requires lo <= hi <= a.Length
    modifies a
    ensures a[..] == Splice(old(a[..]), lo, hi, InsertionSort(old(a[lo..hi]), less))
  {
    ghost var was := a[..];
    for i := lo to hi
      invariant a[..] == Splice(was, lo, i, InsertionSort(was[lo..i], less))
    {
      ghost var now := a[..];
      SiftLeft(a, lo, i, less);
      SortedOneMore(was, now, lo, i, less);
    }
  }

  lemma SortedOneMore<T>(was: seq<T>, now: seq<T>, lo: nat, i: nat, less: (T, T) -> bool)
    requires lo <= i < |was| && now == Splice(was, lo, i, InsertionSort(was[lo..i], less))
    ensures Splice(now, lo, i + 1, Insert(now[lo..i], now[i], less)) ==
            Splice(was, lo, i + 1, InsertionSort(was[lo..i + 1], less))
  {
    assert Front(was[lo..i + 1]) == was[lo..i] && now[i] == now[i..][0] == was[i];
    assert now[i + 1..] == now[i..][1..] == was[i + 1..];
  }

  // ---- Merging in place ----

  /** `s` with the neighbouring parts `k..m` and `m..e` exchanged. */
  function Exchanged<T>(s: seq<T>, k: nat, m: nat, e: nat): (r: seq<T>)
    requires k <= m <= e <= |s|
    ensures |r| == |s|
  {
    s[..k] + s[m..e] + s[k..m] + s[e..]
  }

  /** Exchanges two neighbouring parts of the elements from `lo` to `hi`, given by their offsets. */
  method Rotate<T>(a: array<T>, lo: nat, hi: nat, k: nat, m: nat, e: nat)
    requires lo <= hi <= a.Length && k <= m <= e <= hi - lo
    modifies a
    ensures a[..] == Splice(old(a[..]), lo, hi, Exchanged(old(a[lo..hi]), k, m, e))
  {
    ghost var was := a[..];
    var r := Exchanged(a[lo..hi], k, m, e);
    forall i | lo + k <= i < lo + e {
      a[i] := r[i - lo];
    }
    RotatedSlices(was, a[..], lo, hi, k, m, e);
  }

  lemma RotatedSlices<T>(was: seq<T>, now: seq<T>, lo: nat, hi: nat, k: nat, m: nat, e: nat)
    requires lo <= hi <= |was| == |now| && k <= m <= e <= hi - lo
    requires forall i :: lo + k <= i < lo + e ==> now[i] == Exchanged(was[lo..hi], k, m, e)[i - lo]
    requires forall i :: 0 <= i < lo + k || lo + e <= i < |was| ==> now[i] == was[i]
    ensures now == Splice(was, lo, hi, Exchanged(was[lo..hi], k, m, e))
  {
    var s, r := was[lo..hi], Exchanged(was[lo..hi], k, m, e);
    forall i | 0 <= i < |r| ensures now[lo + i] == r[i] {
      assert i < k || i >= e ==> r[i] == s[i];
    }
    assert now[lo..hi] == r;
    SpliceIs(was, lo, hi, r, now);
  }

  /** Splicing into one of two neighbouring spliced parts. */
  lemma SpliceTwice<T>(s: seq<T>, lo: nat, mid: nat, hi: nat, l: seq<T>, r: seq<T>, l': seq<T>, r': seq<T>)
    requires lo <= mid <= hi <= |s| && |l| == |l'| == mid - lo && |r| == |r'| == hi - mid
    ensures var u := Splice(s, lo, hi, l + r);
            && u[lo..mid] == l && u[mid..hi] == r
            && Splice(u, lo, mid, l') == Splice(s, lo, hi, l' + r)
            && Splice(u, mid, hi, r') == Splice(s, lo, hi, l + r')
  {
    var u := Splice(s, lo, hi, l + r);
    assert u[lo..mid] == u[lo..hi][..mid - lo] && u[mid..hi] == u[lo..hi][mid - lo..];
  }

  /** Merges the first `m` of the elements from `lo` to `hi` with the others. */
  method MergeParts<T>(a: array<T>, lo: nat, hi: nat, m: nat, less: (T, T) -> bool)
    requires lo <= hi <= a.Length && 0 < m < hi - lo
    modifies a
    ensures a[..] == Splice(old(a[..]), lo, hi, SymMerge(old(a[lo..hi]), m, less))
    decreases hi - lo, 1
  {
    if m == 1 {
      var i := PlaceOfFirst(a[lo..hi], 1, hi - lo, less);
      FirstExchanged(a[lo..hi], m, i, less);
      Rotate(a, lo, hi, 0, 1, i);
    } else if m == hi - lo - 1 {
      var i := PlaceOfLast(a[lo..hi], 0, m, less);
      LastExchanged(a[lo..hi], m, i, less);
      Rotate(a, lo, hi, i, m, hi - lo);
    } else {
      MergeInner(a, lo, hi, m, less);
    }
  }

  lemma FirstExchanged<T>(s: seq<T>, m: nat, i: nat, less: (T, T) -> bool)
    requires m == 1 < |s| && i == PlaceOfFirst(s, 1, |s|, less)
    ensures SymMerge(s, m, less) == Exchanged(s, 0, 1, i)
  {
    assert s[..0] + s[1..i] + s[0..1] + s[i..] == s[1..i] + [s[0]] + s[i..];
  }

  lemma LastExchanged<T>(s: seq<T>, m: nat, i: nat, less: (T, T) -> bool)
    requires 1 < m == |s| - 1 && i == PlaceOfLast(s, 0, m, less)
    ensures SymMerge(s, m, less) == Exchanged(s, i, m, |s|)
  {
    assert s[..i] + s[m..|s|] + s[i..m] + s[|s|..] == s[..i] + [s[m]] + s[i..m];
  }

  lemma HalvesExchanged<T>(s: seq<T>, m: nat, k: nat, e: nat, less: (T, T) -> bool)
    requires 1 < m < |s| - 1 && k == Start(s, m, less) && e == |s| / 2 + m - k
    ensures k <= m <= e <= |s| && k <= |s| / 2 <= e
    ensures Exchanged(s, k, m, e) == LeftHalf(s, m, less) + RightHalf(s, m, less)
  {
  }

  lemma HalvesMerged<T>(s: seq<T>, m: nat, k: nat, j: nat, less: (T, T) -> bool)
    requires 1 < m < |s| - 1 && k == Start(s, m, less) && j == LeftOver(s, m, less)
    ensures SymMerge(s, m, less) == MergeAt(LeftHalf(s, m, less), k, less) + MergeAt(RightHalf(s, m, less), j, less)
  {
  }

  /** Exchanges the inner pieces of the two runs, then merges each half by itself. */
  method MergeInner<T>(a: array<T>, lo: nat, hi: nat, m: nat, less: (T, T) -> bool)
    requires lo <= hi <= a.Length && 1 < m < hi - lo - 1
    modifies a
    ensures a[..] == Splice(old(a[..]), lo, hi, SymMerge(old(a[lo..hi]), m, less))
    decreases hi - lo, 0
  {
    ghost var was, s := a[..], a[lo..hi];
    ghost var l, r := LeftHalf(s, m, less), RightHalf(s, m, less);
    var half := (hi - lo) / 2;
    var k := Start(a[lo..hi], m, less);
    var mid, e, j := lo + half, half + m - k, LeftOver(a[lo..hi], m, less);
    HalvesExchanged(s, m, k, e, less);
    HalvesMerged(s, m, k, j, less);
    Rotate(a, lo, hi, k, m, e);
    ghost var l', r' := MergeAt(l, k, less), MergeAt(r, j, less);
    SpliceTwice(was, lo, mid, hi, l, r, l', r');
    MergeHalf(a, lo, mid, k, less);
    SpliceTwice(was, lo, mid, hi, l', r, l', r');
    MergeHalf(a, mid, hi, j, less);
  }

  method MergeHalf<T>(a: array<T>, lo: nat, hi: nat, m: nat, less: (T, T) -> bool)
    requires lo <= hi <= a.Length
    modifies a
    ensures a[..] == Splice(old(a[..]), lo, hi, MergeAt(old(a[lo..hi]), m, less))
    decreases hi - lo, 2
  {
    if 0 < m < hi - lo {
      MergeParts(a, lo, hi, m, less);
    } else {
      SpliceIs(a[..], lo, hi, a[lo..hi], a[..]);
    }
  }

  // ---- The whole sort ----

  lemma NextSorted<T>(done: seq<T>, rest: seq<T>, less: (T, T) -> bool)
    requires BLOCK <= |rest|
    ensures done + SortBlocks(rest, less) ==
            (done + InsertionSort(rest[..BLOCK], less)) + SortBlocks(rest[BLOCK..], less)
  {
    Regroup(done, InsertionSort(rest[..BLOCK], less), SortBlocks(rest[BLOCK..], less));
  }

  lemma Regroup<T>(a: seq<T>, b: seq<T>, c: seq<T>)
    ensures a + (b + c) == (a + b) + c
  {
  }

  /** Sorts blocks of 20 and what is left over. */
  method SortEachBlock<T>(a: array<T>, less: (T, T) -> bool)
    modifies a
    ensures a[..] == SortBlocks(old(a[..]), less)
  {
    ghost var was, done, rest := a[..], [], a[..];
    var lo := 0;
    while lo + BLOCK <= a.Length
      invariant lo == |done| && a[..] == done + rest && SortBlocks(was, less) == done + SortBlocks(rest, less)
    {
      ghost var block := InsertionSort(rest[..BLOCK], less);
      NextBlock(done, rest, block, lo, BLOCK);
      NextSorted(done, rest, less);
      SortPart(a, lo, lo + BLOCK, less);
      done, rest, lo := done + block, rest[BLOCK..], lo + BLOCK;
    }
    ghost var block := InsertionSort(rest, less);
    LastBlock(done, rest, block, lo, a.Length);
    SortPart(a, lo, a.Length, less);
  }

  lemma NextBlock<T>(done: seq<T>, rest: seq<T>, block: seq<T>, lo: nat, n: nat)
    requires lo == |done| && n == |block| <= |rest|
    ensures (done + rest)[lo..lo + n] == rest[..n]
    ensures Splice(done + rest, lo, lo + n, block) == done + block + rest[n..]
  {
  }

  lemma LastBlock<T>(done: seq<T>, rest: seq<T>, block: seq<T>, lo: nat, hi: nat)
    requires lo == |done| && |block| == |rest| && hi == lo + |rest|
    ensures (done + rest)[lo..hi] == rest
    ensures Splice(done + rest, lo, hi, block) == done + block
  {
  }

  lemma NextPair<T>(done: seq<T>, rest: seq<T>, size: nat, n: nat, less: (T, T) -> bool)
    requires size > 0 && n == 2 * size <= |rest|
    ensures done + MergeRound(rest, size, less) ==
            (done + SymMerge(rest[..n], size, less)) + MergeRound(rest[n..], size, less)
  {
    Regroup(done, SymMerge(rest[..n], size, less), MergeRound(rest[n..], size, less));
  }

  lemma LastPair<T>(rest: seq<T>, size: nat, n: nat, less: (T, T) -> bool)
    requires size > 0 && |rest| < n == 2 * size
    ensures MergeRound(rest, size, less) == MergeAt(rest, size, less)
  {
  }

  /** Merges one pair of runs behind the part that is done. */
  method MergePair<T>(a: array<T>, lo: nat, size: nat, n: nat, less: (T, T) -> bool, ghost done: seq<T>,
                      ghost rest: seq<T>)
    requires a[..] == done + rest && lo == |done| && size > 0 && n == 2 * size <= |rest|
    modifies a
    ensures a[..] == (done + SymMerge(rest[..n], size, less)) + rest[n..]
  {
    ghost var pair := rest[..n];
    PairAt(done, rest, a[..], lo, n);
    assert a[lo..lo + n] == a[..][lo..lo + n];
    MergeParts(a, lo, lo + n, size, less);
    NextBlock(done, rest, SymMerge(pair, size, less), lo, n);
  }

  lemma PairAt<T>(done: seq<T>, rest: seq<T>, all: seq<T>, lo: nat, n: nat)
    requires all == done + rest && lo == |done| && n <= |rest|
    ensures all[lo..lo + n] == rest[..n]
  {
  }

  /** Merges what is left behind the part that is done. */
  method MergeRest<T>(a: array<T>, lo: nat, size: nat, less: (T, T) -> bool, ghost done: seq<T>, ghost rest: seq<T>)
    requires a[..] == done + rest && lo == |done| && size > 0 && |rest| < 2 * size
    modifies a
    ensures a[..] == done + MergeRound(rest, size, less)
  {
    LastPair(rest, size, 2 * size, less);
    LastBlock(done, rest, MergeAt(rest, size, less), lo, a.Length);
    assert a[lo..a.Length] == (done + rest)[lo..a.Length];
    MergeHalf(a, lo, a.Length, size, less);
  }

  /** One round of merges. */
  method MergeEachPair<T>(a: array<T>, size: nat, less: (T, T) -> bool)
    requires size > 0
    modifies a
    ensures a[..] == MergeRound(old(a[..]), size, less)
  {
    ghost var was, done, rest := a[..], [], a[..];
    var lo, n := 0, 2 * size;
    while lo + n <= a.Length
      invariant lo == |done| && a[..] == done + rest
      invariant MergeRound(was, size, less) == done + MergeRound(rest, size, less)
    {
      NextPair(done, rest, size, n, less);
      MergePair(a, lo, size, n, less, done, rest);
      done, rest, lo := done + SymMerge(rest[..n], size, less), rest[n..], lo + n;
    }
    MergeRest(a, lo, size, less, done, rest);
  }

  method StableSort<T>(a: array<T>, less: (T, T) -> bool)
    modifies a
    ensures a[..] == SliceStable(old(a[..]), less)
  {
    SortEachBlock(a, less);
    var size := BLOCK;
    while size < a.Length
      invariant size > 0 && MergeRounds(a[..], size, less) == SliceStable(old(a[..]), less)
      decreases a.Length - size
    {
      MergeEachPair(a, size, less);
      size := 2 * size;
    }
  }
}
