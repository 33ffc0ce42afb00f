/** The library's stable sort, for any comparator: insertion sort on blocks of 20, then rounds of merges that rotate
    in place. Where the comparator is a strict weak order it gives what one insertion sort over the whole list gives. */
module BlockMerge {
  import opened Seqs
  import opened Sorting

  const BLOCK := 20

  // ---- The binary searches ----

  // Each ends where its test turns from true to false, whether or not the test is monotone.

  /** Where the lone first element goes: behind an element less than it, ahead of one that is not. */
  function PlaceOfFirst<T>(s: seq<T>, lo: nat, hi: nat, less: (T, T) -> bool): (i: nat)
    requires 1 <= lo <= hi <= |s|
    ensures lo <= i <= hi
    ensures i > lo ==> less(s[i - 1], s[0])
    ensures i < hi ==> !less(s[i], s[0])
    decreases hi - lo
  {
    if lo == hi then lo
    else
      var h := (lo + hi) / 2;
      if less(s[h], s[0]) then PlaceOfFirst(s, h + 1, hi, less) else PlaceOfFirst(s, lo, h, less)
  }

  /** Where the lone last element goes: behind an element it is not less than, ahead of one that it is. */
  function PlaceOfLast<T>(s: seq<T>, lo: nat, hi: nat, less: (T, T) -> bool): (i: nat)
    requires lo <= hi < |s|
    ensures lo <= i <= hi
    ensures i > lo ==> !less(Last(s), s[i - 1])
    ensures i < hi ==> less(Last(s), s[i])
    decreases hi - lo
  {
    if lo == hi then lo
    else
      var h := (lo + hi) / 2;
      if !less(Last(s), s[h]) then PlaceOfLast(s, h + 1, hi, less) else PlaceOfLast(s, lo, h, less)
  }

  /** Where the left run is cut, comparing places that lie symmetrically about `p / 2`. */
  function Cut<T>(s: seq<T>, lo: nat, hi: nat, p: nat, less: (T, T) -> bool): (c: nat)
    requires lo <= hi && p < |s| + lo && (lo < hi ==> hi <= p + 1 && hi <= |s|)
    ensures lo <= c <= hi
    ensures c > lo ==> !less(s[p - (c - 1)], s[c - 1])
    ensures c < hi ==> less(s[p - c], s[c])
    decreases hi - lo
  {
    if lo == hi then lo
    else
      var h := (lo + hi) / 2;
      if !less(s[p - h], s[h]) then Cut(s, h + 1, hi, p, less) else Cut(s, lo, h, p, less)
  }

  // ---- Merging two runs ----

  /** The cut of the left run `s[..m]`; the right run is cut so that the left half keeps its length. */
  function Start<T>(s: seq<T>, m: nat, less: (T, T) -> bool): (start: nat)
    requires 0 < m < |s|
    ensures start <= m && start <= |s| / 2 && |s| / 2 + m - start <= |s|
    ensures start > 0 && |s| / 2 + m - start < |s| ==> !less(s[|s| / 2 + m - start], s[start - 1])
    ensures start < m && start < |s| / 2 ==> less(s[|s| / 2 + m - start - 1], s[start])
  {
    var mid := |s| / 2;
    if m > mid then Cut(s, mid + m - |s|, mid, mid + m - 1, less) else Cut(s, 0, m, mid + m - 1, less)
  }

  /** The halves after the two inner pieces have changed places. */
  function LeftHalf<T>(s: seq<T>, m: nat, less: (T, T) -> bool): (r: seq<T>)
    requires 0 < m < |s|
    ensures |r| == |s| / 2
  {
    var start := Start(s, m, less);
    s[..start] + s[m..|s| / 2 + m - start]
  }

  /** What of the left run goes to the right half. */
  function LeftOver<T>(s: seq<T>, m: nat, less: (T, T) -> bool): nat
    requires 0 < m < |s|
  {
    m - Start(s, m, less)
  }

  function RightHalf<T>(s: seq<T>, m: nat, less: (T, T) -> bool): (r: seq<T>)
    requires 0 < m < |s|
    ensures |r| == |s| - |s| / 2
  {
    var start := Start(s, m, less);
    s[start..m] + s[|s| / 2 + m - start..]
  }

  /** Merges `s[..m]` and `s[m..]`. The two inner pieces change places, then each half is merged by itself. */
  function SymMerge<T>(s: seq<T>, m: nat, less: (T, T) -> bool): (r: seq<T>)
    requires 0 < m < |s|
    ensures |r| == |s|
    decreases |s|, 0
  {
    if m == 1 then
      var i := PlaceOfFirst(s, 1, |s|, less);
      s[1..i] + [s[0]] + s[i..]
    else if m == |s| - 1 then
      var i := PlaceOfLast(s, 0, m, less);
      s[..i] + [s[m]] + s[i..m]
    else
      MergeAt(LeftHalf(s, m, less), Start(s, m, less), less) +
      MergeAt(RightHalf(s, m, less), LeftOver(s, m, less), less)
  }

  /** A half with an empty run is left alone. */
  function MergeAt<T>(s: seq<T>, m: nat, less: (T, T) -> bool): (r: seq<T>)
    ensures |r| == |s|
    decreases |s|, 1
  {
    if 0 < m < |s| then SymMerge(s, m, less) else s
  }

  // ---- The whole sort ----

  function SortBlocks<T>(s: seq<T>, less: (T, T) -> bool): (r: seq<T>)
    ensures |r| == |s|
  {
    if |s| < BLOCK then InsertionSort(s, less)
    else InsertionSort(s[..BLOCK], less) + SortBlocks(s[BLOCK..], less)
  }

  /** One round: neighbouring runs of the given size are merged, and a shorter last run with the one before it. */
  function MergeRound<T>(s: seq<T>, size: nat, less: (T, T) -> bool): (r: seq<T>)
    requires size > 0
    ensures |r| == |s|
  {
    if |s| < 2 * size then MergeAt(s, size, less)
    else SymMerge(s[..2 * size], size, less) + MergeRound(s[2 * size..], size, less)
  }

  function MergeRounds<T>(s: seq<T>, size: nat, less: (T, T) -> bool): (r: seq<T>)
    requires size > 0
    ensures |r| == |s|
    decreases |s| - size
  {
    if size < |s| then MergeRounds(MergeRound(s, size, less), 2 * size, less) else s
  }

  function SliceStable<T>(s: seq<T>, less: (T, T) -> bool): (r: seq<T>)
    ensures |r| == |s|
  {
    MergeRounds(SortBlocks(s, less), BLOCK, less)
  }
}
