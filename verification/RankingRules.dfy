/** The ranking's rules on the candidates' own fields: who is filtered, which key decides between close scores, when a
    new business yields, and how much is returned. */
module RankingRules {
  import opened Options
  import opened Seqs
  import opened Signals
  import opened Sorting
  import opened BlockMerge
  import opened BlockMergeLaws
  import opened Ranking
  import opened RankingLaws

  // ---- The hard filter ----

  /** A candidate is filtered out exactly when its archetype must be open and it is known to be closed; unknown hours
      and archetypes that are not configured are never filtered. */
  lemma FilteredIff(cs: seq<Candidate>, cfg: Config, c: Candidate)
    requires c in cs
    ensures c !in Kept(cs, cfg) <==>
            && c.archetype in cfg.archetypes && cfg.archetypes[c.archetype].openStatus == OpenBehavior.HardFilter
            && c.isOpenNow == Some(false)
    ensures c.isOpenNow != Some(false) ==> c in Kept(cs, cfg)
  {
  }

  // ---- The tie-break keys ----

  ghost predicate Nearer(a: Ext, b: Ext) {
    match (a, b)
    case (Fin(x), Fin(y)) => x < y
    case (Fin(_), PosInf) => true
    case _ => false
  }

  /** With scores `d` apart: 0.005 or more decides. Less leaves it to the claimed profile, then the distance, then the
      reviews, then the id. */
  ghost predicate KeysPrefer(a: Candidate, b: Candidate, d: real) {
    || d >= 0.005
    || (-0.005 < d < 0.005 &&
        (|| (a.isClaimed && !b.isClaimed)
         || (a.isClaimed == b.isClaimed &&
             (|| Nearer(a.distanceKm, b.distanceKm)
              || (a.distanceKm == b.distanceKm &&
                  (|| a.reviewCount > b.reviewCount
                   || (a.reviewCount == b.reviewCount && a.id < b.id)))))))
  }

  lemma KeysDecide(x: Result, y: Result)
    requires x.score.Fin? && y.score.Fin?
    ensures TieBreak()(x, y) <==> KeysPrefer(x.c, y.c, x.score.r - y.score.r)
  {
  }

  /** Of two results of the tie-break sort, the one that the keys prefer is ahead, and no other. */
  lemma KeysArrange(cs: seq<Candidate>, pin: Option<Candidate>, cfg: Config, p: nat, q: nat)
    requires AllDivisible(cs, cfg) && DistinctIds(cs) && NoInversion(Survivors(cs, cfg))
    requires p < |Arranged(cs, pin, cfg)| && q < |Arranged(cs, pin, cfg)|
    requires Arranged(cs, pin, cfg)[p].score.Fin? && Arranged(cs, pin, cfg)[q].score.Fin?
    ensures var x, y := Arranged(cs, pin, cfg)[p], Arranged(cs, pin, cfg)[q];
            p < q <==> KeysPrefer(x.c, y.c, x.score.r - y.score.r)
  {
    var e, arr := Entrants(cs, pin, cfg), Arranged(cs, pin, cfg);
    EntrantsUnique(cs, pin, cfg);
    EntrantsNoInversion(cs, pin, cfg);
    TieBreakOrdersIffNoInversion(e);
    SliceStablePermutes(e, TieBreak());
    PermutedUnique(e, arr);
    BeforeIsTournament(arr);
    OrderedPlace(arr, TieBreak(), p, q);
    KeysDecide(arr[p], arr[q]);
  }

  /** An established candidate that the keys prefer is never returned behind the other, which scores no more or is new:
      through the de-pin pass and the cut as well. */
  lemma KeysRank(cs: seq<Candidate>, pin: Option<Candidate>, cfg: Config, limit: int, a: Candidate, b: Candidate)
    requires AllDivisible(cs, cfg) && DistinctIds(cs) && NoInversion(Survivors(cs, cfg))
    requires a in cs && b in cs && a.isOpenNow != Some(false) && !a.isNew
    requires Score(a, cfg) >= Score(b, cfg) || b.isNew
    requires KeysPrefer(a, b, Score(a, cfg) - Score(b, cfg))
    requires pin.Some? ==> pin.value.id != a.id && pin.value.id != b.id
    ensures NeverBehind(Truncated(Ranked(cs, pin, cfg), limit), a.id, b.id)
  {
    KeysDecide(Result(a, Fin(Score(a, cfg))), Result(b, Fin(Score(b, cfg))));
    FilteredIff(cs, cfg, a);
    forall j | 0 <= j < |Ranked(cs, pin, cfg)| && Ranked(cs, pin, cfg)[j].c.id == b.id
      ensures Listed(Ranked(cs, pin, cfg), a.id, j)
    {
      var p, q := BeatenBehind(cs, pin, cfg, a, b, j);
    }
    CutNeverBehind(Ranked(cs, pin, cfg), limit, a.id, b.id);
  }

  // ---- New businesses ----

  /** At `j` stands an established business, behind position `i` and less than the window below it. */
  ghost predicate Claims(rs: seq<Result>, i: nat, j: nat, window: real) {
    && i < j < |rs| && rs[i].c.isNew && rs[i].score.Fin? && !rs[j].c.isNew
    && (rs[j].score.Fin? ==> rs[i].score.r - rs[j].score.r < window)
  }

  /** A position that nobody claims is left alone, and otherwise the first claimant and the new business change
      places, and nobody else moves. */
  lemma YieldsToFirst(rs: seq<Result>, i: nat, window: real)
    requires i < |rs|
    ensures (forall j: nat :: !Claims(rs, i, j, window)) ==> DePinAt(rs, i, window) == rs
    ensures forall j: nat :: Claims(rs, i, j, window) && (forall k: nat :: k < j ==> !Claims(rs, i, k, window)) ==>
              DePinAt(rs, i, window) == rs[i := rs[j]][j := rs[i]]
  {
    if rs[i].c.isNew && rs[i].score.Fin? {
      var k := FirstRival(rs, rs[i].score, i + 1, window);
      forall j: nat ensures Claims(rs, i, j, window) <==> i < j < |rs| && Rival(rs[i].score, rs[j], window) {
      }
      if k < |rs| {
        assert Claims(rs, i, k, window);
      }
    }
  }

  /** When nobody claims the top two positions, the list is returned as it is. */
  lemma UnclaimedStay(rs: seq<Result>, window: real)
    requires forall j: nat :: !Claims(rs, 0, j, window) && !Claims(rs, 1, j, window)
    ensures DePinned(rs, window) == rs
  {
    if |rs| > 0 {
      YieldsToFirst(rs, 0, window);
    }
    if |rs| > 1 {
      YieldsToFirst(rs, 1, window);
    }
  }

  /** Afterwards nobody claims them. */
  lemma NoClaimsLeft(rs: seq<Result>, window: real, j: nat)
    ensures !Claims(DePinned(rs, window), 0, j, window) && !Claims(DePinned(rs, window), 1, j, window)
  {
    DePinGuardsTopTwo(rs, window);
  }

  // ---- The cut ----

  /** A non-negative limit keeps that many from the front, or all when there are fewer; a negative one keeps all. */
  lemma CutIs(rs: seq<Result>, limit: int)
    ensures Truncated(rs, limit) <= rs
    ensures |Truncated(rs, limit)| == if 0 <= limit < |rs| then limit else |rs|
  {
  }
}
