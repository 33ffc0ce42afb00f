/** The answer of a search can depend on the order in which the candidates are retrieved. */
module SearchOrder {
  import opened Options
  import opened Seqs
  import opened Signals
  import opened BlockMerge
  import opened BlockMergeLaws
  import opened Ranking
  import opened RankingLaws
  import opened OrderLaws
  import opened OrderExamples
  import opened Search

  /** Normalization leaves lower-case words as they are. */
  ghost predicate KeepsWords(key: string -> string) {
    forall id: nat :: key(Name(id)) == Name(id)
  }

  /** With no name twice, nothing is dropped. */
  lemma {:induction false} AllFirst(rs: seq<Result>, key: string -> string)
    requires forall i, j :: 0 <= i < j < |rs| ==> KeyOf(rs[i], key) != KeyOf(rs[j], key)
    ensures FirstPerName(rs, key) == rs
  {
    if rs != [] {
      AllFirst(Front(rs), key);
      KeySetMembers(Front(rs), key, KeyOf(Last(rs), key));
    }
  }

  /** A result for a place, whose name tells its id. */
  ghost predicate Placed(r: Result) {
    r.c.name == Name(r.c.id)
  }

  lemma PlacedDiffer(rs: seq<Result>, key: string -> string)
    requires KeepsWords(key) && UniqueIds(rs) && forall i :: 0 <= i < |rs| ==> Placed(rs[i])
    ensures FirstPerName(rs, key) == rs
  {
    forall i, j | 0 <= i < j < |rs| ensures KeyOf(rs[i], key) != KeyOf(rs[j], key) {
      assert |Name(rs[i].c.id)| != |Name(rs[j].c.id)|;
    }
    AllFirst(rs, key);
  }

  /** Whatever places are ranked, no name occurs twice. */
  lemma RankedPlaced(cs: seq<Candidate>, cfg: Config, es: seq<Entry>, base: real)
    requires AllDivisible(cs, cfg) && DistinctIds(cs) && Entrants(cs, None, cfg) == Ratings(base, es)
    ensures UniqueIds(Ranked(cs, None, cfg))
    ensures forall i :: 0 <= i < |Ranked(cs, None, cfg)| ==> Placed(Ranked(cs, None, cfg)[i])
  {
    var e, out := Entrants(cs, None, cfg), Ranked(cs, None, cfg);
    EntrantsUnique(cs, None, cfg);
    SliceStablePermutes(e, TieBreak());
    DePinPermutes(Arranged(cs, None, cfg), cfg.swapWindow);
    PermutedUnique(e, out);
    forall i | 0 <= i < |out| ensures Placed(out[i]) {
      RankedMember(cs, None, cfg, i);
    }
  }

  /** All of the crowd is ranked, under names that differ. */
  lemma CrowdPlaced(lib: MathLib, u: nat, v: nat)
    requires lib.log1p(10000.0) != 0.0 && Lows(u, v)
    ensures AllDivisible(PlacesOf(Crowd(u, v)), Shipped(lib))
    ensures var rs := Ranked(PlacesOf(Crowd(u, v)), None, Shipped(lib));
            |rs| == 21 && UniqueIds(rs) && forall i :: 0 <= i < |rs| ==> Placed(rs[i])
  {
    CrowdRanked(lib, u, v);
    CrowdEnters(lib, u, v);
    CrowdDistinct(u, v);
    RankedPlaced(PlacesOf(Crowd(u, v)), Shipped(lib), Crowd(u, v), Base(lib));
  }

  lemma CrowdAnswered(lib: MathLib, u: nat, v: nat, key: string -> string)
    requires lib.log1p(10000.0) != 0.0 && Lows(u, v) && KeepsWords(key)
    ensures AllDivisible(PlacesOf(Crowd(u, v)), Shipped(lib))
    ensures |Ranked(PlacesOf(Crowd(u, v)), None, Shipped(lib))| == 21
    ensures Answered(PlacesOf(Crowd(u, v)), None, Shipped(lib), key) ==
            Ranked(PlacesOf(Crowd(u, v)), None, Shipped(lib))[..RESULT_LIMIT]
  {
    CrowdPlaced(lib, u, v);
    FirstFifteen(Ranked(PlacesOf(Crowd(u, v)), None, Shipped(lib)), key);
  }

  lemma FirstFifteen(rs: seq<Result>, key: string -> string)
    requires KeepsWords(key) && UniqueIds(rs) && |rs| == 21 && forall i :: 0 <= i < |rs| ==> Placed(rs[i])
    ensures Deduped(Truncated(rs, CANDIDATE_LIMIT), key, RESULT_LIMIT) == rs[..RESULT_LIMIT]
  {
    PlacedDiffer(rs, key);
  }

  /** Under this configuration no permutation of the candidates changes the answer, as long as at most `n` results enter
      the tie-break; of candidates that can be retrieved, or of any. */
  ghost predicate AnswerOrderFree(cfg: Config, key: string -> string, n: nat, retrieved: bool) {
    forall cs, cs', pin ::
      AllDivisible(cs, cfg) && AllDivisible(cs', cfg) && DistinctIds(cs) && DistinctIds(cs')
      && multiset(cs) == multiset(cs') && |Entrants(cs, pin, cfg)| <= n && (retrieved ==> AllRetrievable(cs))
      ==> Answered(cs, pin, cfg, key) == Answered(cs', pin, cfg, key)
  }

  /** Two permutations of 21 candidates to which the search gives different answers. */
  lemma AnswerDepends(lib: MathLib, key: string -> string)
    requires lib.log1p(10000.0) != 0.0 && KeepsWords(key)
    ensures var cs, cs', cfg := PlacesOf(Crowd(1, 11)), PlacesOf(Crowd(11, 1)), Shipped(lib);
            && AllDivisible(cs, cfg) && AllDivisible(cs', cfg)
            && Answered(cs, None, cfg, key) != Answered(cs', None, cfg, key)
  {
    OrderMatters(lib);
    CrowdAnswered(lib, 1, 11, key);
    CrowdAnswered(lib, 11, 1, key);
    var rs := Ranked(PlacesOf(Crowd(1, 11)), None, Shipped(lib));
    var rs' := Ranked(PlacesOf(Crowd(11, 1)), None, Shipped(lib));
    assert rs[..RESULT_LIMIT][10] == rs[10] && rs'[..RESULT_LIMIT][10] == rs'[10];
  }

  /** Under the shipped configuration the order of retrieval never matters to the answer while at most 20 results enter
      the tie-break, and can matter from 21 on. */
  lemma AnswerOrderFreeIff(lib: MathLib, key: string -> string, n: nat, retrieved: bool)
    requires lib.log1p(10000.0) != 0.0 && KeepsWords(key)
    ensures AnswerOrderFree(Shipped(lib), key, n, retrieved) <==> n <= BLOCK
  {
    var cfg := Shipped(lib);
    if n <= BLOCK {
      forall cs, cs', pin |
        AllDivisible(cs, cfg) && AllDivisible(cs', cfg) && DistinctIds(cs) && DistinctIds(cs')
        && multiset(cs) == multiset(cs') && |Entrants(cs, pin, cfg)| <= n && (retrieved ==> AllRetrievable(cs))
        ensures Answered(cs, pin, cfg, key) == Answered(cs', pin, cfg, key)
      {
        RunIgnoresCandidateOrder(cs, cs', pin, cfg);
      }
    } else {
      OrderMatters(lib);
      AnswerDepends(lib, key);
    }
  }
}
