/** Token-coverage name matching on top of the edit distance, and the choice of the pinned hit.
    Names and queries are given as their token lists, already lower-cased and split on blanks. */
module NameMatch {
  import opened EditDistance
  import opened Options
  import opened Seqs

  const EDIT_DIVISOR := 4
  const MAX_EDIT_TOL := 4
  const COVERAGE_BAR := 4.0 / 5.0

  /** Allowed edits: a quarter of the word's letters, rounded up, between 1 and 4. */
  function Tol(w: Word): (t: nat)
    ensures 1 <= t <= MAX_EDIT_TOL
    ensures t == MAX_EDIT_TOL || |w| <= 4 * t
    ensures t == 1 || 4 * (t - 1) < |w|
  {
    var t := (|w| + EDIT_DIVISOR - 1) / EDIT_DIVISOR;
    if t < 1 then 1 else if t > MAX_EDIT_TOL then MAX_EDIT_TOL else t
  }

  /** Bytes of a letter in UTF-8. */
  function Utf8Len(c: char): nat {
    if c < 128 as char then 1 else if c < 2048 as char then 2 else if c as int < 65536 then 3 else 4
  }

  /** Go's `len` of a string counts bytes, not letters. */
  function ByteLen(w: Word): nat {
    if w == [] then 0 else Utf8Len(w[0]) + ByteLen(w[1..])
  }

  /** Some word of the list is within `w`'s own tolerance. */
  ghost predicate Near(w: Word, against: seq<Word>) {
    exists a :: a in against && Dist(w, a) <= Tol(w)
  }

  lemma NearAt(w: Word, against: seq<Word>)
    ensures Near(w, against) <==> exists i :: 0 <= i < |against| && Dist(w, against[i]) <= Tol(w)
  {
    if i :| 0 <= i < |against| && Dist(w, against[i]) <= Tol(w) {
      assert against[i] in against;
    }
  }

  /** The least distance to a listed word, started from a cap. The cap is far above every tolerance, so it
      never decides whether a word is near. */
  method MinLev(w: Word, against: seq<Word>) returns (best: nat)
    ensures forall a :: a in against ==> best <= Dist(w, a)
    ensures best == ByteLen(w) + 64 || exists a :: a in against && best == Dist(w, a)
    ensures best <= ByteLen(w) + 64
    ensures best <= Tol(w) <==> Near(w, against)
  {
    best := ByteLen(w) + 64;
    ghost var at := 0;
    for i := 0 to |against|
      invariant best <= ByteLen(w) + 64
      invariant forall k :: 0 <= k < i ==> best <= Dist(w, against[k])
      invariant best == ByteLen(w) + 64 || (at < i && best == Dist(w, against[at]))
    {
      var d := Levenshtein(w, against[i]);
      if d < best {
        best, at := d, i;
      }
    }
    NearAt(w, against);
  }

  /** ceil(0.8 * n), with 0.8 read as four fifths. */
  function Needed(n: nat): (k: nat)
    ensures 4 * n <= 5 * k < 4 * n + 5
  {
    (4 * n + 4) / 5
  }

  /** How many of the words are near the list. */
  ghost function CountNear(words: seq<Word>, against: seq<Word>): nat {
    if words == [] then 0
    else CountNear(Front(words), against) + if Near(words[|words| - 1], against) then 1 else 0
  }

  ghost predicate Covers(qt: seq<Word>, nt: seq<Word>) {
    && qt != [] && nt != []
    && |qt| >= Needed(|nt|)
    && forall q :: q in qt ==> Near(q, nt)
  }

  /** The score: the share of the name's tokens that are near the query, or 0 when the query does not cover. */
  ghost function Coverage(qt: seq<Word>, nt: seq<Word>): real {
    if Covers(qt, nt) then CountNear(nt, qt) as real / |nt| as real else 0.0
  }

  method CoverageMatch(qt: seq<Word>, nt: seq<Word>) returns (score: real)
    ensures score == Coverage(qt, nt)
  {
    if |qt| == 0 || |nt| == 0 {
      return 0.0;
    }
    if |qt| < Needed(|nt|) {
      return 0.0;
    }
    for i := 0 to |qt|
      invariant forall k :: 0 <= k < i ==> Near(qt[k], nt)
    {
      var d := MinLev(qt[i], nt);
      if d > Tol(qt[i]) {
        assert qt[i] in qt;
        return 0.0;
      }
    }
    var matched := 0;
    for i := 0 to |nt|
      invariant matched == CountNear(nt[..i], qt)
    {
      assert Front(nt[..i + 1]) == nt[..i];
      var d := MinLev(nt[i], qt);
      if d <= Tol(nt[i]) {
        matched := matched + 1;
      }
    }
    assert nt[..|nt|] == nt;
    return matched as real / |nt| as real;
  }

  // ---- The score does not see token order ----

  lemma NearSameWords(w: Word, xs: seq<Word>, ys: seq<Word>)
    requires multiset(xs) == multiset(ys)
    ensures Near(w, xs) <==> Near(w, ys)
  {
    forall a ensures a in xs <==> a in ys {
      assert a in multiset(xs) <==> a in multiset(ys);
    }
  }

  lemma {:induction false} CountNearSameList(words: seq<Word>, xs: seq<Word>, ys: seq<Word>)
    requires multiset(xs) == multiset(ys)
    ensures CountNear(words, xs) == CountNear(words, ys)
  {
    if words != [] {
      CountNearSameList(Front(words), xs, ys);
      NearSameWords(words[|words| - 1], xs, ys);
    }
  }

  lemma {:induction false} CountNearWithout(words: seq<Word>, i: nat, against: seq<Word>)
    requires i < |words|
    ensures CountNear(words, against) ==
            CountNear(words[..i] + words[i + 1..], against) + if Near(words[i], against) then 1 else 0
  {
    var rest := words[..i] + words[i + 1..];
    if i == |words| - 1 {
      assert rest == Front(words);
    } else {
      CountNearWithout(Front(words), i, against);
      assert Front(rest) == Front(words)[..i] + Front(words)[i + 1..];
    }
  }

  lemma {:induction false} CountNearPermuted(xs: seq<Word>, ys: seq<Word>, against: seq<Word>)
    requires multiset(xs) == multiset(ys)
    ensures CountNear(xs, against) == CountNear(ys, against)
    decreases |xs|
  {
    if xs == [] {
      assert |ys| == |multiset(ys)| == 0;
    } else {
      var w := xs[|xs| - 1];
      assert Front(xs) == xs[..|xs| - 1] + xs[|xs|..];
      WithoutAt(xs, |xs| - 1);
      assert w in multiset(ys);
      var i :| 0 <= i < |ys| && ys[i] == w;
      WithoutAt(ys, i);
      CountNearPermuted(Front(xs), ys[..i] + ys[i + 1..], against);
      CountNearWithout(ys, i, against);
    }
  }

  /** The score ignores token order on both sides. */
  lemma CoverageIgnoresOrder(qt: seq<Word>, qt': seq<Word>, nt: seq<Word>, nt': seq<Word>)
    requires multiset(qt) == multiset(qt') && multiset(nt) == multiset(nt')
    ensures Coverage(qt, nt) == Coverage(qt', nt')
  {
    assert |qt| == |multiset(qt)| == |multiset(qt')| == |qt'|;
    assert |nt| == |multiset(nt)| == |multiset(nt')| == |nt'|;
    CountNearSameList(nt, qt, qt');
    CountNearPermuted(nt, nt', qt');
    forall q ensures q in qt && Near(q, nt) <==> q in qt' && Near(q, nt') {
      assert q in multiset(qt) <==> q in multiset(qt');
      NearSameWords(q, nt, nt');
    }
    assert forall q :: q in qt <==> q in multiset(qt);
    assert forall q :: q in qt' <==> q in multiset(qt');
  }

  // ---- Completeness ----

  /** `m` sends each query token to its own name token, each pair within both tokens' tolerances. */
  ghost predicate Pairing(qt: seq<Word>, nt: seq<Word>, m: seq<nat>) {
    && |m| == |qt|
    && (forall i :: 0 <= i < |m| ==> m[i] < |nt|)
    && (forall i, j :: 0 <= i < j < |m| ==> m[i] != m[j])
    && (forall i :: 0 <= i < |m| ==> Dist(qt[i], nt[m[i]]) <= Tol(qt[i]) && Dist(qt[i], nt[m[i]]) <= Tol(nt[m[i]]))
  }

  lemma {:induction false} CountAtLeastPicked(words: seq<Word>, against: seq<Word>, picked: set<nat>)
    requires forall i :: i in picked ==> i < |words| && Near(words[i], against)
    ensures |picked| <= CountNear(words, against)
    decreases |words|
  {
    if words == [] {
      assert picked == {};
    } else {
      var last := |words| - 1;
      CountAtLeastPicked(Front(words), against, picked - {last});
    }
  }

  lemma {:induction false} DistinctPicksCounted(m: seq<nat>)
    requires forall i, j :: 0 <= i < j < |m| ==> m[i] != m[j]
    ensures |set i | 0 <= i < |m| :: m[i]| == |m|
  {
    if m != [] {
      var r := Front(m);
      DistinctPicksCounted(r);
      assert (set i | 0 <= i < |m| :: m[i]) == (set i | 0 <= i < |r| :: r[i]) + {m[|r|]};
    }
  }

  /** Every query token paired with its own name token gives one near name token each. */
  lemma PairingCounts(qt: seq<Word>, nt: seq<Word>, m: seq<nat>)
    requires Pairing(qt, nt, m)
    ensures |qt| <= CountNear(nt, qt)
    ensures forall q :: q in qt ==> Near(q, nt)
  {
    var picked := set i | 0 <= i < |m| :: m[i];
    DistinctPicksCounted(m);
    forall k | k in picked ensures k < |nt| && Near(nt[k], qt) {
      var i :| 0 <= i < |m| && m[i] == k;
      DistSymmetric(qt[i], nt[k]);
    }
    CountAtLeastPicked(nt, qt, picked);
  }

  /** Comparing a share with a bar is comparing the count with the bar's part of the whole. */
  lemma Share(c: real, n: real, bar: real)
    requires n > 0.0
    ensures c / n >= bar <==> c >= bar * n
    ensures c / n <= bar <==> c <= bar * n
  {
  }

  /** A query whose tokens pair off with enough of the name's tokens reaches the bar. */
  lemma PairingReachesBar(qt: seq<Word>, nt: seq<Word>, m: seq<nat>)
    requires Pairing(qt, nt, m) && nt != [] && |qt| >= Needed(|nt|)
    ensures Coverage(qt, nt) >= COVERAGE_BAR
  {
    PairingCounts(qt, nt, m);
    var c, n := CountNear(nt, qt), |nt|;
    assert 5 * c >= 4 * n;
    Share(c as real, n as real, COVERAGE_BAR);
  }

  /** The bar is reached exactly when the query covers and four fifths of the name's tokens are near it. */
  lemma BarReachedIff(qt: seq<Word>, nt: seq<Word>)
    ensures Coverage(qt, nt) >= COVERAGE_BAR <==> Covers(qt, nt) && 5 * CountNear(nt, qt) >= 4 * |nt|
  {
    if Covers(qt, nt) {
      Share(CountNear(nt, qt) as real, |nt| as real, COVERAGE_BAR);
      var c, n := CountNear(nt, qt), |nt|;
      assert (5 * c) as real == 5.0 * c as real && (4 * n) as real == 4.0 * n as real;
    }
  }

  lemma {:induction false} SomeNear(words: seq<Word>, against: seq<Word>)
    ensures CountNear(words, against) > 0 <==> exists k :: 0 <= k < |words| && Near(words[k], against)
  {
    if words != [] {
      SomeNear(Front(words), against);
      assert forall k :: 0 <= k < |words| - 1 ==> Front(words)[k] == words[k];
    }
  }

  lemma CoversIff(qt: seq<Word>, nt: seq<Word>)
    ensures Covers(qt, nt) <==> 0 < 4 * |nt| <= 5 * |qt| && forall i :: 0 <= i < |qt| ==> Near(qt[i], nt)
  {
  }

  lemma PositiveScore(qt: seq<Word>, nt: seq<Word>)
    ensures Coverage(qt, nt) > 0.0 <==> Covers(qt, nt) && CountNear(nt, qt) > 0
  {
    if Covers(qt, nt) {
      Share(CountNear(nt, qt) as real, |nt| as real, 0.0);
    }
  }

  /** A hit scores anything at all exactly when the query has at least four fifths as many tokens as its name, each of
      them is within its own tolerance of some token of the name, and some token of the name is within its own of one
      of the query. */
  lemma ScoresIff(qt: seq<Word>, nt: seq<Word>)
    ensures Coverage(qt, nt) > 0.0 <==>
            && 0 < 4 * |nt| <= 5 * |qt|
            && (forall i :: 0 <= i < |qt| ==> Near(qt[i], nt))
            && (exists k :: 0 <= k < |nt| && Near(nt[k], qt))
  {
    CoversIff(qt, nt);
    PositiveScore(qt, nt);
    SomeNear(nt, qt);
  }

  lemma {:induction false} CountNearAtMostAll(words: seq<Word>, against: seq<Word>)
    ensures CountNear(words, against) <= |words|
  {
    if words != [] {
      CountNearAtMostAll(Front(words), against);
    }
  }

  /** Scores lie between 0 and 1. */
  lemma CoverageRange(qt: seq<Word>, nt: seq<Word>)
    ensures 0.0 <= Coverage(qt, nt) <= 1.0
  {
    if Covers(qt, nt) {
      CountNearAtMostAll(nt, qt);
      Share(CountNear(nt, qt) as real, |nt| as real, 1.0);
      Share(CountNear(nt, qt) as real, |nt| as real, 0.0);
    }
  }

  /** Typing the whole name, in any order and with at most tolerated typos, scores the full 1. */
  lemma FullPairingScoresOne(qt: seq<Word>, nt: seq<Word>, m: seq<nat>)
    requires Pairing(qt, nt, m) && nt != [] && |qt| == |nt|
    ensures Coverage(qt, nt) == 1.0
  {
    PairingCounts(qt, nt, m);
    CountNearAtMostAll(nt, qt);
    Share(CountNear(nt, qt) as real, |nt| as real, 1.0);
  }

  // ---- The pinned hit ----

  ghost predicate BestHit(qt: seq<Word>, hits: seq<seq<Word>>, best: Option<nat>) {
    match best
    case None => forall i :: 0 <= i < |hits| ==> Coverage(qt, hits[i]) < COVERAGE_BAR
    case Some(b) =>
      && b < |hits|
      && Coverage(qt, hits[b]) >= COVERAGE_BAR
      && (forall i :: 0 <= i < |hits| ==> Coverage(qt, hits[i]) <= Coverage(qt, hits[b]))
      && (forall i :: 0 <= i < b ==> Coverage(qt, hits[i]) < Coverage(qt, hits[b]))
  }

  /** The first hit among those of highest score, if that score reaches the bar. */
  method ExactName(qt: seq<Word>, hits: seq<seq<Word>>) returns (best: Option<nat>)
    ensures BestHit(qt, hits, best)
  {
    best := None;
    var top := 0.0;
    for i := 0 to |hits|
      invariant BestHit(qt, hits[..i], best)
      invariant best == None ==> top == 0.0
      invariant best.Some? ==> top == Coverage(qt, hits[best.value])
    {
      var s := CoverageMatch(qt, hits[i]);
      ghost var was := best;
      if s >= COVERAGE_BAR && s > top {
        top, best := s, Some(i);
      }
      assert hits[..i + 1] == hits[..i] + [hits[i]];
    }
    assert hits[..|hits|] == hits;
  }

  /** A hit whose name the query spells out fully is never lost: the pinned hit then scores 1 as well. */
  lemma FullNameIsPinned(qt: seq<Word>, hits: seq<seq<Word>>, best: Option<nat>, k: nat, m: seq<nat>)
    requires BestHit(qt, hits, best)
    requires k < |hits| && hits[k] != [] && |qt| == |hits[k]| && Pairing(qt, hits[k], m)
    ensures best.Some? && best.value <= k && Coverage(qt, hits[best.value]) == 1.0
  {
    FullPairingScoresOne(qt, hits[k], m);
    if best.Some? {
      CoverageRange(qt, hits[best.value]);
    }
  }
}
