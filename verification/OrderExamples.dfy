/** Candidates that the shipped configuration scores so close together that the tie-break comparator is no order: three
    that no arrangement orders, and 21 whose ranking depends on the order they come in. */
module OrderExamples {
  import opened Options
  import opened Seqs
  import opened Signals
  import opened Sorting
  import opened BlockMerge
  import opened BlockMergeLaws
  import opened Ranking
  import opened RankingLaws
  import opened OrderLaws

  /** A name of as many letters as the id says. */
  function Name(id: nat): (w: string)
    ensures |w| == id
    ensures forall i :: 0 <= i < id ==> w[i] == 'a'
  {
    seq(id, i => 'a')
  }

  /** The documented sushi restaurant under another name and id, and with another lemon score. */
  function Place(id: nat, lemon: real): Candidate {
    SUSHI.(id := id, name := Name(id), lemonScore := Some(lemon))
  }

  lemma PlaceRetrievable(id: nat, lemon: real)
    requires 0.0 <= lemon <= 10.0
    ensures Retrievable(Place(id, lemon))
  {
  }

  function Base(lib: MathLib): real
    requires lib.log1p(10000.0) != 0.0
  {
    Score(Place(0, 0.0), Shipped(lib))
  }

  /** A place with the score the shipped configuration gives it: 0.018 for each lemon point. */
  function Rated(base: real, id: nat, lemon: real): Result {
    Result(Place(id, lemon), Fin(base + 0.018 * lemon))
  }

  lemma PlaceTerm(name: Signal, lib: MathLib, id: nat, lemon: real)
    requires lib.log1p(10000.0) != 0.0
    ensures Divisible(Shipped(lib), Place(id, lemon)) && Divisible(Shipped(lib), Place(0, 0.0))
    ensures name != Rating ==> Term(name, Place(id, lemon), Shipped(lib)) == Term(name, Place(0, 0.0), Shipped(lib))
    ensures Term(Rating, Place(id, lemon), Shipped(lib)) == 0.018 * lemon
  {
  }

  lemma PlaceScore(lib: MathLib, id: nat, lemon: real)
    requires lib.log1p(10000.0) != 0.0
    ensures Divisible(Shipped(lib), Place(id, lemon))
    ensures Score(Place(id, lemon), Shipped(lib)) == Base(lib) + 0.018 * lemon
  {
    forall name: Signal
      ensures name != Rating ==> Term(name, Place(id, lemon), Shipped(lib)) == Term(name, Place(0, 0.0), Shipped(lib))
    {
      PlaceTerm(name, lib, id, lemon);
    }
    PlaceTerm(Rating, lib, id, lemon);
    PlaceTerm(Rating, lib, 0, 0.0);
    SevenTerms(Place(id, lemon), Shipped(lib));
    SevenTerms(Place(0, 0.0), Shipped(lib));
  }

  /** A place's id and lemon score. */
  datatype Entry = Entry(id: nat, lemon: real)

  function PlacesOf(es: seq<Entry>): (cs: seq<Candidate>)
    ensures |cs| == |es|
    ensures forall i :: 0 <= i < |es| ==> cs[i] == Place(es[i].id, es[i].lemon)
  {
    if es == [] then [] else PlacesOf(Front(es)) + [Place(Last(es).id, Last(es).lemon)]
  }

  function Ratings(base: real, es: seq<Entry>): (rs: seq<Result>)
    ensures |rs| == |es|
    ensures forall i :: 0 <= i < |es| ==> rs[i] == Rated(base, es[i].id, es[i].lemon)
  {
    if es == [] then [] else Ratings(base, Front(es)) + [Rated(base, Last(es).id, Last(es).lemon)]
  }

  lemma {:induction false} PlacesKept(es: seq<Entry>, lib: MathLib)
    ensures Kept(PlacesOf(es), Shipped(lib)) == PlacesOf(es)
  {
    if es != [] {
      PlacesKept(Front(es), lib);
      var c := Place(Last(es).id, Last(es).lemon);
      assert Front(PlacesOf(es)) == PlacesOf(Front(es)) && Last(PlacesOf(es)) == c && !Dropped(c, Shipped(lib));
    }
  }

  lemma PlacesDivisible(es: seq<Entry>, lib: MathLib)
    requires lib.log1p(10000.0) != 0.0
    ensures AllDivisible(PlacesOf(es), Shipped(lib))
  {
  }

  /** All places survive the filter and are scored as rated. */
  lemma PlacesSurvive(es: seq<Entry>, lib: MathLib)
    requires lib.log1p(10000.0) != 0.0
    ensures AllDivisible(PlacesOf(es), Shipped(lib))
    ensures Survivors(PlacesOf(es), Shipped(lib)) == Ratings(Base(lib), es)
  {
    PlacesDivisible(es, lib);
    PlacesKept(es, lib);
    PlacesScored(es, PlacesOf(es), lib, Shipped(lib));
  }

  lemma ScoredAs(cs: seq<Candidate>, cfg: Config, rs: seq<Result>)
    requires AllDivisible(cs, cfg) && |rs| == |cs|
    requires forall i :: 0 <= i < |cs| ==> rs[i] == Result(cs[i], Fin(Score(cs[i], cfg)))
    ensures Scored(cs, cfg) == rs
  {
  }

  lemma PlaceRated(lib: MathLib, c: Candidate, r: Result, e: Entry)
    requires lib.log1p(10000.0) != 0.0 && Divisible(Shipped(lib), c)
    requires c == Place(e.id, e.lemon) && r == Rated(Base(lib), e.id, e.lemon)
    ensures r == Result(c, Fin(Score(c, Shipped(lib))))
  {
    PlaceScore(lib, e.id, e.lemon);
  }

  lemma PlacesScored(es: seq<Entry>, cs: seq<Candidate>, lib: MathLib, cfg: Config)
    requires lib.log1p(10000.0) != 0.0 && cfg == Shipped(lib) && cs == PlacesOf(es) && AllDivisible(cs, cfg)
    ensures Scored(cs, cfg) == Ratings(Base(lib), es)
  {
    var rs := Ratings(Base(lib), es);
    forall i | 0 <= i < |cs| ensures rs[i] == Result(cs[i], Fin(Score(cs[i], cfg))) {
      PlaceRated(lib, cs[i], rs[i], es[i]);
    }
    ScoredAs(cs, cfg, rs);
  }

  ghost predicate AllRetrievable(cs: seq<Candidate>) {
    forall c :: c in cs ==> Retrievable(c)
  }

  lemma {:induction false} EntriesRetrievable(es: seq<Entry>)
    requires forall i :: 0 <= i < |es| ==> 0.0 <= es[i].lemon <= 10.0
    ensures AllRetrievable(PlacesOf(es))
  {
    if es != [] {
      EntriesRetrievable(Front(es));
      PlaceRetrievable(Last(es).id, Last(es).lemon);
    }
  }

  lemma EntriesDistinct(es: seq<Entry>)
    requires forall i, j :: 0 <= i < j < |es| ==> es[i].id != es[j].id
    ensures DistinctIds(PlacesOf(es))
  {
  }

  // ---- Three that no arrangement orders ----

  const CYCLE := [Entry(3, 5.4), Entry(2, 5.2), Entry(1, 5.0)]

  lemma RatedBefore(base: real, i: nat, x: real, j: nat, y: real)
    ensures TieBreak()(Rated(base, i, x), Rated(base, j, y)) <==>
            if -0.005 < 0.018 * (x - y) < 0.005 then i < j else x > y
  {
  }

  /** The first beats the last by score; each is within 0.005 of the second, where the smaller id wins. */
  lemma UnorderableExample(lib: MathLib)
    requires lib.log1p(10000.0) != 0.0
    ensures AllDivisible(PlacesOf(CYCLE), Shipped(lib)) && DistinctIds(PlacesOf(CYCLE))
    ensures AllRetrievable(PlacesOf(CYCLE))
    ensures Unorderable(Survivors(PlacesOf(CYCLE), Shipped(lib)))
  {
    EntriesRetrievable(CYCLE);
    EntriesDistinct(CYCLE);
    PlacesSurvive(CYCLE, lib);
    CycleIsUnorderable(Base(lib));
  }

  lemma CycleIsUnorderable(base: real)
    ensures Unorderable(Ratings(base, CYCLE))
  {
    var rs := Ratings(base, CYCLE);
    var hi, mid, lo := Rated(base, 3, 5.4), Rated(base, 2, 5.2), Rated(base, 1, 5.0);
    assert rs[0] == hi && rs[1] == mid && rs[2] == lo;
    assert Inversion(hi, mid, lo);
    assert hi in rs && mid in rs && lo in rs;
    TieBreakOrdersIffNoInversion(rs);
  }

  // ---- Twenty-one whose order matters ----

  /** Ten places too far apart for a tie, from the best down. */
  function Far(): (es: seq<Entry>)
    ensures |es| == 10
    ensures forall i :: 0 <= i < 10 ==> es[i] == Entry(12 + i, 9.9 - 0.3 * i as real)
  {
    seq(10, i requires 0 <= i < 10 => Entry(12 + i, 9.9 - 0.3 * i as real))
  }

  /** Eight places of one score. */
  function High(): (es: seq<Entry>)
    ensures |es| == 8
    ensures forall i :: 0 <= i < 8 ==> es[i] == Entry(3 + i, 5.4)
  {
    seq(8, i requires 0 <= i < 8 => Entry(3 + i, 5.4))
  }

  /** Far places, high ones, one that is close to the others on both sides, and two low ones that score the same. */
  function Crowd(u: nat, v: nat): (es: seq<Entry>)
    ensures |es| == 21
  {
    Far() + High() + [Entry(2, 5.2), Entry(u, 5.0), Entry(v, 5.0)]
  }

  /** The low ones are the first and the eleventh, in either order. */
  predicate Lows(u: nat, v: nat) {
    (u == 1 && v == 11) || (u == 11 && v == 1)
  }

  lemma CrowdDescends(base: real, u: nat, v: nat)
    ensures SliceStable(Ratings(base, Crowd(u, v)), ByScore()) == Ratings(base, Crowd(u, v))
  {
    var es := Crowd(u, v);
    var rs := Ratings(base, es);
    forall i, j | 0 <= i < j < 21 ensures es[i].lemon >= es[j].lemon {
    }
    assert Rising(rs, ByScore());
    ScoreSortIsStable(rs);
    RisingIsSorted(rs, ByScore());
  }

  /** One that beats all of a list that is in order goes ahead of it. */
  lemma {:induction false} InsertAhead<T(!new)>(s: seq<T>, x: T, less: (T, T) -> bool)
    requires forall y :: y in s ==> less(x, y)
    ensures Insert(s, x, less) == [x] + s
  {
    if s != [] {
      InsertAhead(Front(s), x, less);
      assert [x] + s == ([x] + Front(s)) + [Last(s)];
    }
  }

  /** A list in order, then one that beats all of it, then one that does not beat its last. */
  lemma TwoMore<T(!new)>(s: seq<T>, x: T, y: T, less: (T, T) -> bool)
    requires InsertionSort(s, less) == s != [] && (forall e :: e in s ==> less(x, e)) && !less(y, Last(s))
    ensures InsertionSort(s + [x, y], less) == [x] + s + [y]
  {
    InsertAhead(s, x, less);
    assert Front(s + [x]) == s && Front(s + [x, y]) == s + [x];
    assert Last([x] + s) == Last(s);
  }

  lemma SearchUp<T>(s: seq<T>, lo: nat, hi: nat, lo': nat, less: (T, T) -> bool)
    requires lo < hi < |s| && lo' == (lo + hi) / 2 + 1 && !less(Last(s), s[lo' - 1])
    ensures PlaceOfLast(s, lo, hi, less) == PlaceOfLast(s, lo', hi, less)
  {
  }

  lemma SearchDown<T>(s: seq<T>, lo: nat, hi: nat, hi': nat, less: (T, T) -> bool)
    requires lo < hi < |s| && hi' == (lo + hi) / 2 && less(Last(s), s[hi'])
    ensures PlaceOfLast(s, lo, hi, less) == PlaceOfLast(s, lo, hi', less)
  {
  }

  /** The places that the binary search for the last of 21 looks at when it ends at the right end. */
  lemma SearchToEnd<T>(s: seq<T>, less: (T, T) -> bool)
    requires |s| == 21 && !less(s[20], s[10])
    requires !less(s[20], s[15]) && !less(s[20], s[18]) && !less(s[20], s[19])
    ensures PlaceOfLast(s, 0, 20, less) == 20
  {
    SearchUp(s, 0, 20, 11, less);
    SearchUp(s, 11, 20, 16, less);
    SearchUp(s, 16, 20, 19, less);
    SearchUp(s, 19, 20, 20, less);
  }

  /** And those it looks at when it ends behind the tenth. */
  lemma SearchToMiddle<T>(s: seq<T>, less: (T, T) -> bool)
    requires |s| == 21 && less(s[20], s[10])
    requires !less(s[20], s[5]) && !less(s[20], s[8]) && !less(s[20], s[9])
    ensures PlaceOfLast(s, 0, 20, less) == 10
  {
    SearchDown(s, 0, 20, 10, less);
    SearchUp(s, 0, 10, 6, less);
    SearchUp(s, 6, 10, 9, less);
    SearchUp(s, 9, 10, 10, less);
  }

  /** The far places, already in order, and ahead of all others. */
  lemma FarFirst(base: real, near: seq<Result>)
    requires forall x :: x in near ==> x.score.Fin? && x.score.r <= base + 0.018 * 5.4
    ensures InsertionSort(Ratings(base, Far()) + near, TieBreak()) ==
            Ratings(base, Far()) + InsertionSort(near, TieBreak())
  {
    var far := Ratings(base, Far());
    forall i, j | 0 <= i < j < 10 ensures !TieBreak()(far[j], far[i]) {
      RatedBefore(base, 12 + j, 9.9 - 0.3 * j as real, 12 + i, 9.9 - 0.3 * i as real);
    }
    RisingIsSorted(far, TieBreak());
    SortBehind(far, near, TieBreak());
  }

  lemma HighSorted(base: real)
    ensures InsertionSort(Ratings(base, High()), TieBreak()) == Ratings(base, High())
  {
    var high := Ratings(base, High());
    forall i, j | 0 <= i < j < 8 ensures !TieBreak()(high[j], high[i]) {
      RatedBefore(base, 3 + j, 5.4, 3 + i, 5.4);
    }
    RisingIsSorted(high, TieBreak());
  }

  /** The block of 20 as the insertion sort leaves it. */
  function Block(base: real, u: nat): (t: seq<Result>)
    ensures |t| == 20
  {
    Ratings(base, Far()) + ([Rated(base, 2, 5.2)] + Ratings(base, High()) + [Rated(base, u, 5.0)])
  }

  lemma BlockOf20(base: real, u: nat, v: nat)
    requires u > 0
    ensures InsertionSort(Ratings(base, Crowd(u, v))[..20], TieBreak()) == Block(base, u)
  {
    CrowdSplits(base, u, v);
    NearSorted(base, u);
    FarFirst(base, Ratings(base, High()) + [Rated(base, 2, 5.2), Rated(base, u, 5.0)]);
  }

  lemma NearSorted(base: real, u: nat)
    ensures InsertionSort(Ratings(base, High()) + [Rated(base, 2, 5.2), Rated(base, u, 5.0)], TieBreak()) ==
            [Rated(base, 2, 5.2)] + Ratings(base, High()) + [Rated(base, u, 5.0)]
  {
    var high, x, y := Ratings(base, High()), Rated(base, 2, 5.2), Rated(base, u, 5.0);
    HighSorted(base);
    forall e | e in high ensures TieBreak()(x, e) {
      var i :| 0 <= i < |high| && high[i] == e;
      RatedBefore(base, 2, 5.2, 3 + i, 5.4);
    }
    RatedBefore(base, u, 5.0, 10, 5.4);
    TwoMore(high, x, y, TieBreak());
  }

  lemma CrowdSplits(base: real, u: nat, v: nat)
    ensures Ratings(base, Crowd(u, v))[..20] ==
            Ratings(base, Far()) + (Ratings(base, High()) + [Rated(base, 2, 5.2), Rated(base, u, 5.0)])
    ensures Ratings(base, Crowd(u, v))[20] == Rated(base, v, 5.0)
  {
  }

  /** Which of the two low places comes in last decides who leads the near ones. */
  lemma LastOfCrowd(base: real, u: nat, v: nat)
    requires Lows(u, v)
    ensures SliceStable(Ratings(base, Crowd(u, v)), TieBreak())[10] ==
            if v == 11 then Rated(base, 2, 5.2) else Rated(base, 1, 5.0)
  {
    var t := Block(base, u);
    BlockOf20(base, u, v);
    CrowdSplits(base, u, v);
    OneMoreThanBlock(Ratings(base, Crowd(u, v)), TieBreak());
    PlaceInBlock(base, u, v, t + [Rated(base, v, 5.0)]);
    assert t[10] == Rated(base, 2, 5.2);
  }

  lemma BlockAt(base: real, u: nat, k: nat)
    requires k < 20
    ensures Block(base, u)[k] == if k < 10 then Rated(base, 12 + k, 9.9 - 0.3 * k as real)
                                 else if k == 10 then Rated(base, 2, 5.2)
                                 else if k < 19 then Rated(base, k - 8, 5.4) else Rated(base, u, 5.0)
  {
    var near := [Rated(base, 2, 5.2)] + Ratings(base, High()) + [Rated(base, u, 5.0)];
    assert k >= 10 ==> Block(base, u)[k] == near[k - 10];
    assert 10 < k < 19 ==> near[k - 10] == Ratings(base, High())[k - 11];
  }

  lemma PlaceInBlock(base: real, u: nat, v: nat, w: seq<Result>)
    requires Lows(u, v) && w == Block(base, u) + [Rated(base, v, 5.0)]
    ensures PlaceOfLast(w, 0, 20, TieBreak()) == if v == 11 then 20 else 10
  {
    BlockAt(base, u, 10);
    RatedBefore(base, v, 5.0, 2, 5.2);
    if v == 11 {
      BlockAt(base, u, 15);
      BlockAt(base, u, 18);
      BlockAt(base, u, 19);
      RatedBefore(base, v, 5.0, 7, 5.4);
      RatedBefore(base, v, 5.0, 10, 5.4);
      RatedBefore(base, v, 5.0, u, 5.0);
      SearchToEnd(w, TieBreak());
    } else {
      BlockAt(base, u, 5);
      BlockAt(base, u, 8);
      BlockAt(base, u, 9);
      RatedBefore(base, v, 5.0, 17, 8.4);
      RatedBefore(base, v, 5.0, 20, 7.5);
      RatedBefore(base, v, 5.0, 21, 7.2);
      SearchToMiddle(w, TieBreak());
    }
  }

  lemma EstablishedStay(rs: seq<Result>, window: real)
    requires forall r :: r in rs ==> !r.c.isNew
    ensures DePinned(rs, window) == rs
  {
  }

  // ---- The bound ----

  /** Under this configuration no permutation of the candidates changes the ranking, as long as at most `n` results
      enter the tie-break; of candidates that can be retrieved, or of any. */
  ghost predicate OrderFree(cfg: Config, n: nat, retrieved: bool) {
    forall cs, cs', pin ::
      AllDivisible(cs, cfg) && AllDivisible(cs', cfg) && DistinctIds(cs) && DistinctIds(cs')
      && multiset(cs) == multiset(cs') && |Entrants(cs, pin, cfg)| <= n && (retrieved ==> AllRetrievable(cs))
      ==> Ranked(cs, pin, cfg) == Ranked(cs', pin, cfg)
  }

  lemma CrowdDistinct(u: nat, v: nat)
    requires Lows(u, v)
    ensures DistinctIds(PlacesOf(Crowd(u, v)))
  {
    EntriesDistinct(Crowd(u, v));
  }

  lemma CrowdEnters(lib: MathLib, u: nat, v: nat)
    requires lib.log1p(10000.0) != 0.0
    ensures AllDivisible(PlacesOf(Crowd(u, v)), Shipped(lib))
    ensures Entrants(PlacesOf(Crowd(u, v)), None, Shipped(lib)) == Ratings(Base(lib), Crowd(u, v))
  {
    PlacesSurvive(Crowd(u, v), lib);
    CrowdDescends(Base(lib), u, v);
  }

  lemma RankedEntrants(cs: seq<Candidate>, cfg: Config, rs: seq<Result>)
    requires AllDivisible(cs, cfg) && rs == Entrants(cs, None, cfg) && forall r :: r in rs ==> !r.c.isNew
    ensures Ranked(cs, None, cfg) == SliceStable(rs, TieBreak())
  {
    SliceStablePermutes(rs, TieBreak());
    EstablishedStay(SliceStable(rs, TieBreak()), cfg.swapWindow);
  }

  lemma CrowdRanked(lib: MathLib, u: nat, v: nat)
    requires lib.log1p(10000.0) != 0.0
    ensures AllDivisible(PlacesOf(Crowd(u, v)), Shipped(lib))
    ensures |Entrants(PlacesOf(Crowd(u, v)), None, Shipped(lib))| == 21
    ensures Ranked(PlacesOf(Crowd(u, v)), None, Shipped(lib)) ==
            SliceStable(Ratings(Base(lib), Crowd(u, v)), TieBreak())
  {
    CrowdEnters(lib, u, v);
    RankedEntrants(PlacesOf(Crowd(u, v)), Shipped(lib), Ratings(Base(lib), Crowd(u, v)));
  }

  lemma SwappedPermutes(s: seq<Candidate>, x: Candidate, y: Candidate)
    ensures multiset(s + [x, y]) == multiset(s + [y, x])
  {
  }

  /** Under the shipped configuration the candidates' order never matters to rankings of up to 20 results, and can
      matter from 21 on. */
  lemma OrderFreeIff(lib: MathLib, n: nat, retrieved: bool)
    requires lib.log1p(10000.0) != 0.0
    ensures OrderFree(Shipped(lib), n, retrieved) <==> n <= BLOCK
  {
    var cfg := Shipped(lib);
    if n <= BLOCK {
      forall cs, cs', pin |
        AllDivisible(cs, cfg) && AllDivisible(cs', cfg) && DistinctIds(cs) && DistinctIds(cs')
        && multiset(cs) == multiset(cs') && |Entrants(cs, pin, cfg)| <= n && (retrieved ==> AllRetrievable(cs))
        ensures Ranked(cs, pin, cfg) == Ranked(cs', pin, cfg)
      {
        RunIgnoresCandidateOrder(cs, cs', pin, cfg);
      }
    } else {
      OrderMatters(lib);
    }
  }

  /** One list of 21 candidates that can be retrieved, and the same with two of one score exchanged. */
  lemma OrderMatters(lib: MathLib)
    requires lib.log1p(10000.0) != 0.0
    ensures var cs, cs', cfg := PlacesOf(Crowd(1, 11)), PlacesOf(Crowd(11, 1)), Shipped(lib);
            && AllDivisible(cs, cfg) && AllDivisible(cs', cfg) && DistinctIds(cs) && DistinctIds(cs')
            && multiset(cs) == multiset(cs') && AllRetrievable(cs) && |Entrants(cs, None, cfg)| == 21
            && |Ranked(cs, None, cfg)| == |Ranked(cs', None, cfg)| == 21
            && Ranked(cs, None, cfg)[10] != Ranked(cs', None, cfg)[10]
  {
    EntriesRetrievable(Crowd(1, 11));
    CrowdDistinct(1, 11);
    CrowdDistinct(11, 1);
    CrowdPermutes();
    CrowdRanked(lib, 1, 11);
    CrowdRanked(lib, 11, 1);
    LastOfCrowd(Base(lib), 1, 11);
    LastOfCrowd(Base(lib), 11, 1);
  }

  lemma CrowdPermutes()
    ensures multiset(PlacesOf(Crowd(1, 11))) == multiset(PlacesOf(Crowd(11, 1)))
  {
    var cs, cs' := PlacesOf(Crowd(1, 11)), PlacesOf(Crowd(11, 1));
    var x, y := Place(1, 5.0), Place(11, 5.0);
    assert cs[..19] == cs'[..19];
    assert cs == cs[..19] + [x, y] && cs' == cs[..19] + [y, x];
    SwappedPermutes(cs[..19], x, y);
  }
}
