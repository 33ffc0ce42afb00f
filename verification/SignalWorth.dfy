/** What each signal is worth on the candidate's own fields, and how far one of them moves the score. */
module SignalWorth {
  import opened Options
  import opened Signals

  // ---- The seven signals ----

  /** The archetype's decay distance, when decay is configured and it has a positive one. */
  ghost predicate Decays(archetype: string, cfg: Config) {
    cfg.formulas.distance == DecayMode && archetype in cfg.formulas.decayKm && cfg.formulas.decayKm[archetype] > 0.0
  }

  /** Within 48.28 km, a kilometre is worth the same everywhere; from there on, and without a location, nothing is. */
  lemma CappedDistance(c: Candidate, d: Candidate, cfg: Config)
    requires Divisible(cfg, c) && Divisible(cfg, d) && !Decays(c.archetype, cfg) && !Decays(d.archetype, cfg)
    ensures c.distanceKm.PosInf? || c.distanceKm.r >= 48.28 ==> SignalValue(Distance, c, cfg) == 0.0
    ensures c.distanceKm.Fin? && d.distanceKm.Fin? && c.distanceKm.r <= 48.28 && d.distanceKm.r <= 48.28 ==>
              48.28 * (SignalValue(Distance, c, cfg) - SignalValue(Distance, d, cfg)) == d.distanceKm.r - c.distanceKm.r
  {
  }

  /** With a decay distance the signal is exp(-x) at the distance counted in decay distances. */
  lemma DecayedDistance(c: Candidate, cfg: Config, x: real)
    requires Divisible(cfg, c) && Decays(c.archetype, cfg)
    ensures c.distanceKm.PosInf? ==> SignalValue(Distance, c, cfg) == 0.0
    ensures c.distanceKm == Fin(x * cfg.formulas.decayKm[c.archetype]) ==>
              SignalValue(Distance, c, cfg) == cfg.lib.expNeg(x)
  {
    assert x * cfg.formulas.decayKm[c.archetype] / cfg.formulas.decayKm[c.archetype] == x;
  }

  /** A new business is credited with this part of its rating. */
  ghost function Credit(c: Candidate, cfg: Config): real {
    if c.isNew then cfg.ratingDemoteFactor else 1.0
  }

  /** A tenth of the lemon score, or 0 without one. */
  lemma LiteralRatingWorth(c: Candidate, cfg: Config)
    requires Divisible(cfg, c) && cfg.formulas.rating == LiteralMode
    ensures c.lemonScore.None? ==> SignalValue(Rating, c, cfg) == 0.0
    ensures c.lemonScore.Some? ==> 10.0 * SignalValue(Rating, c, cfg) == c.lemonScore.value * Credit(c, cfg)
  {
  }

  /** The mean of the prior's weight of global means and one rating for each review, on a scale of 5; nothing without
      a rating. */
  lemma SmoothedRatingWorth(c: Candidate, cfg: Config)
    requires Divisible(cfg, c) && cfg.formulas.rating == BayesianMode
    ensures var b, n := cfg.formulas.bayes, c.reviewCount as real;
            var source := if b.fromLemonScore then c.lemonScore else c.googleRating;
            if source.None? then SignalValue(Rating, c, cfg) == 0.0
            else 5.0 * (b.priorStrength + n) * SignalValue(Rating, c, cfg)
                 == (b.priorStrength * b.globalMean + n * source.value) * Credit(c, cfg)
  {
    var b, n := cfg.formulas.bayes, c.reviewCount as real;
    var source := if b.fromLemonScore then c.lemonScore else c.googleRating;
    if source.Some? {
      var r := source.value;
      Unscaled(b.priorStrength * b.globalMean + n * r, b.priorStrength + n, Smoothed(b, c.reviewCount, r));
      Regrouped(5.0 * (b.priorStrength + n), Smoothed(b, c.reviewCount, r), Credit(c, cfg));
    }
  }

  lemma Unscaled(x: real, d: real, q: real)
    requires d != 0.0 && q == (x / d) / 5.0
    ensures (5.0 * d) * q == x
  {
    assert 5.0 * q == x / d;
    assert d * (x / d) == x;
  }

  lemma Regrouped(d: real, q: real, part: real)
    ensures Times(d, Times(q, part)) == Times(Times(d, q), part)
  {
  }

  /** Nothing without reviews, full credit from the configured ceiling on, and log(1 + n) in proportion below it. */
  lemma PopularityWorth(c: Candidate, cfg: Config)
    requires Divisible(cfg, c) && cfg.lib.log1p(cfg.formulas.globalMaxReviews) > 0.0
    ensures var v, n := SignalValue(Popularity, c, cfg), cfg.lib.log1p(c.reviewCount as real);
            var top := cfg.lib.log1p(cfg.formulas.globalMaxReviews);
            && (c.reviewCount <= 0 ==> v == 0.0)
            && (c.reviewCount > 0 && n >= top ==> v == 1.0)
            && (c.reviewCount > 0 && n <= top ==> v * top == n)
  {
    if c.reviewCount > 0 {
      Quotient(cfg.lib.log1p(c.reviewCount as real), cfg.lib.log1p(cfg.formulas.globalMaxReviews));
    }
  }

  lemma Quotient(x: real, d: real)
    requires d > 0.0
    ensures x / d * d == x && (x >= d <==> x / d >= 1.0)
  {
  }

  /** Friends in proportion to the configured number, and no more than full credit. */
  lemma FriendsWorth(c: Candidate, cfg: Config)
    requires Divisible(cfg, c) && cfg.formulas.friendsFullCredit > 0.0
    ensures var v, full := SignalValue(Friends, c, cfg), cfg.formulas.friendsFullCredit;
            if c.friendCount as real >= full then v == 1.0 else v * full == c.friendCount as real
  {
    Quotient(c.friendCount as real, cfg.formulas.friendsFullCredit);
  }

  /** What the open status is worth in each of the four states. */
  ghost function OpenCredit(hours: Option<bool>, opensLater: bool, f: OpenStatus): real {
    match hours
    case None => f.unknownHours
    case Some(open) => if open then f.openNow else if opensLater then f.opensLater else f.closed
  }

  /** Claimed is 1 and unclaimed 0; full credit exactly from three photos on; the four open states; and nothing for
      a signal that is not known. */
  lemma StepsWorth(c: Candidate, cfg: Config, other: string)
    requires Divisible(cfg, c)
    ensures SignalValue(Claimed, c, cfg) == (if c.isClaimed then 1.0 else 0.0)
    ensures SignalValue(Photos, c, cfg) == if c.photoCount < 3 then cfg.formulas.photoDemotionBelow3 else 1.0
    ensures SignalValue(OpenNow, c, cfg) == OpenCredit(c.isOpenNow, c.opensLater, cfg.formulas.openStatus)
    ensures SignalValue(Unknown(other), c, cfg) == 0.0
  {
  }

  // ---- The score ----

  /** What a signal weighs for an archetype: its configured weight, each time it is listed; nothing when the archetype
      or the weight is not configured, or for an open status that the archetype ignores. */
  ghost function Weight(name: Signal, archetype: string, cfg: Config): real {
    if archetype !in cfg.archetypes || name !in cfg.archetypes[archetype].weights then 0.0
    else if name == OpenNow && cfg.archetypes[archetype].openStatus == OpenBehavior.Ignore then 0.0
    else multiset(cfg.signals)[name] as real * cfg.archetypes[archetype].weights[name]
  }

  /** Of two candidates of one archetype whose other listed signals agree, the score differs by that weight times the
      difference of the one signal. */
  lemma ScoreMoves(name: Signal, a: Candidate, b: Candidate, cfg: Config)
    requires Divisible(cfg, a) && Divisible(cfg, b) && a.archetype == b.archetype
    requires forall s :: s in cfg.signals && s != name ==> SignalValue(s, a, cfg) == SignalValue(s, b, cfg)
    ensures Score(a, cfg) - Score(b, cfg) ==
            Times(Weight(name, a.archetype, cfg), SignalValue(name, a, cfg) - SignalValue(name, b, cfg))
  {
    var w, v := Once(name, a.archetype, cfg), SignalValue(name, a, cfg) - SignalValue(name, b, cfg);
    SumMoves(name, cfg.signals, a, b, cfg, w, v);
    Regrouped(multiset(cfg.signals)[name] as real, w, v);
    WeightIs(name, a.archetype, cfg);
  }

  lemma WeightIs(name: Signal, archetype: string, cfg: Config)
    ensures Weight(name, archetype, cfg) == Times(multiset(cfg.signals)[name] as real, Once(name, archetype, cfg))
  {
  }

  /** The weight of one listing. */
  ghost function Once(name: Signal, archetype: string, cfg: Config): real {
    if archetype !in cfg.archetypes || name !in cfg.archetypes[archetype].weights then 0.0
    else if name == OpenNow && cfg.archetypes[archetype].openStatus == OpenBehavior.Ignore then 0.0
    else cfg.archetypes[archetype].weights[name]
  }

  lemma TermIs(name: Signal, c: Candidate, cfg: Config)
    requires Divisible(cfg, c)
    ensures Term(name, c, cfg) == Times(Once(name, c.archetype, cfg), SignalValue(name, c, cfg))
  {
  }

  lemma Spread(w: real, x: real, y: real)
    ensures Times(w, x) - Times(w, y) == Times(w, x - y)
  {
  }

  lemma OneMore(k: nat, x: real)
    ensures Times((k + 1) as real, x) == Times(k as real, x) + x
  {
  }

  lemma OneListing(names: seq<Signal>, last: Signal, name: Signal)
    ensures multiset(names + [last])[name] == multiset(names)[name] + if last == name then 1 else 0
  {
  }

  lemma {:induction false} SumMoves(name: Signal, names: seq<Signal>, a: Candidate, b: Candidate, cfg: Config,
                                    w: real, v: real)
    requires Divisible(cfg, a) && Divisible(cfg, b) && a.archetype == b.archetype
    requires forall s :: s in names && s != name ==> SignalValue(s, a, cfg) == SignalValue(s, b, cfg)
    requires w == Once(name, a.archetype, cfg) && v == SignalValue(name, a, cfg) - SignalValue(name, b, cfg)
    ensures Sum(names, a, cfg) - Sum(names, b, cfg) == Times(multiset(names)[name] as real, Times(w, v))
  {
    if names != [] {
      var front, last := names[..|names| - 1], names[|names| - 1];
      assert names == front + [last];
      SumMoves(name, front, a, b, cfg, w, v);
      TermMoves(name, last, a, b, cfg, w, v);
      OneListing(front, last, name);
      OneMore(multiset(front)[name], Times(w, v));
    }
  }

  lemma TermMoves(name: Signal, last: Signal, a: Candidate, b: Candidate, cfg: Config, w: real, v: real)
    requires Divisible(cfg, a) && Divisible(cfg, b) && a.archetype == b.archetype
    requires last != name ==> SignalValue(last, a, cfg) == SignalValue(last, b, cfg)
    requires w == Once(name, a.archetype, cfg) && v == SignalValue(name, a, cfg) - SignalValue(name, b, cfg)
    ensures Term(last, a, cfg) - Term(last, b, cfg) == if last == name then Times(w, v) else 0.0
  {
    TermIs(last, a, cfg);
    TermIs(last, b, cfg);
    if last == name {
      Spread(w, SignalValue(name, a, cfg), SignalValue(name, b, cfg));
    }
  }

  /** When only one listed signal of a candidate is not 0, the score is that weight times that signal. */
  lemma OnlySignal(name: Signal, c: Candidate, cfg: Config)
    requires Divisible(cfg, c) && forall s :: s in cfg.signals && s != name ==> SignalValue(s, c, cfg) == 0.0
    ensures Score(c, cfg) == Times(Weight(name, c.archetype, cfg), SignalValue(name, c, cfg))
  {
    SumOnly(name, cfg.signals, c, cfg, Once(name, c.archetype, cfg), SignalValue(name, c, cfg));
    Regrouped(multiset(cfg.signals)[name] as real, Once(name, c.archetype, cfg), SignalValue(name, c, cfg));
    WeightIs(name, c.archetype, cfg);
  }

  lemma {:induction false} SumOnly(name: Signal, names: seq<Signal>, c: Candidate, cfg: Config, w: real, v: real)
    requires Divisible(cfg, c) && forall s :: s in names && s != name ==> SignalValue(s, c, cfg) == 0.0
    requires w == Once(name, c.archetype, cfg) && v == SignalValue(name, c, cfg)
    ensures Sum(names, c, cfg) == Times(multiset(names)[name] as real, Times(w, v))
  {
    if names != [] {
      var front, last := names[..|names| - 1], names[|names| - 1];
      assert names == front + [last];
      SumOnly(name, front, c, cfg, w, v);
      TermIs(last, c, cfg);
      OneListing(front, last, name);
      if last == name {
        OneMore(multiset(front)[name], Times(w, v));
      }
    }
  }

  // ---- One input at a time ----

  lemma DistanceAlone(c: Candidate, d: Ext, name: Signal, cfg: Config)
    requires Divisible(cfg, c) && name != Distance
    ensures SignalValue(name, c.(distanceKm := d), cfg) == SignalValue(name, c, cfg)
  {
  }

  /** Within the cap, a shorter way raises the score by the weight of distance for each 48.28 km saved. */
  lemma CloserBy(c: Candidate, near: real, far: real, cfg: Config)
    requires Divisible(cfg, c) && !Decays(c.archetype, cfg) && near <= 48.28 && far <= 48.28
    ensures var a, b := c.(distanceKm := Fin(near)), c.(distanceKm := Fin(far));
            Score(a, cfg) - Score(b, cfg) == Weight(Distance, c.archetype, cfg) * ((far - near) / 48.28)
  {
    var a, b := c.(distanceKm := Fin(near)), c.(distanceKm := Fin(far));
    forall s | s in cfg.signals && s != Distance ensures SignalValue(s, a, cfg) == SignalValue(s, b, cfg) {
      DistanceAlone(c, Fin(near), s, cfg);
      DistanceAlone(c, Fin(far), s, cfg);
    }
    CappedDistance(a, b, cfg);
    ScoreMoves(Distance, a, b, cfg);
  }

  lemma RatingAlone(c: Candidate, lemon: real, name: Signal, cfg: Config)
    requires Divisible(cfg, c) && name != Rating && cfg.formulas.rating == LiteralMode
    ensures SignalValue(name, c.(lemonScore := Some(lemon)), cfg) == SignalValue(name, c, cfg)
  {
  }

  /** Under literal ratings an established business gains the weight of ratings for each 10 points of lemon score. */
  lemma BetterRatedBy(c: Candidate, more: real, less: real, cfg: Config)
    requires Divisible(cfg, c) && cfg.formulas.rating == LiteralMode && !c.isNew
    ensures var a, b := c.(lemonScore := Some(more)), c.(lemonScore := Some(less));
            Score(a, cfg) - Score(b, cfg) == Weight(Rating, c.archetype, cfg) * ((more - less) / 10.0)
  {
    var a, b := c.(lemonScore := Some(more)), c.(lemonScore := Some(less));
    forall s | s in cfg.signals && s != Rating ensures SignalValue(s, a, cfg) == SignalValue(s, b, cfg) {
      RatingAlone(c, more, s, cfg);
      RatingAlone(c, less, s, cfg);
    }
    LiteralRatingWorth(a, cfg);
    LiteralRatingWorth(b, cfg);
    ScoreMoves(Rating, a, b, cfg);
  }

  /** Claiming the profile adds the weight of claiming. */
  lemma ClaimedBy(c: Candidate, cfg: Config)
    requires Divisible(cfg, c)
    ensures Score(c.(isClaimed := true), cfg) - Score(c.(isClaimed := false), cfg) ==
            Weight(Claimed, c.archetype, cfg)
  {
    var a, b := c.(isClaimed := true), c.(isClaimed := false);
    forall s | s in cfg.signals && s != Claimed ensures SignalValue(s, a, cfg) == SignalValue(s, b, cfg) {
    }
    ScoreMoves(Claimed, a, b, cfg);
  }

  /** The third photo adds the weight of photos times what is withheld below three. */
  lemma PhotographedBy(c: Candidate, more: int, less: int, cfg: Config)
    requires Divisible(cfg, c) && more >= 3 > less
    ensures Score(c.(photoCount := more), cfg) - Score(c.(photoCount := less), cfg) ==
            Weight(Photos, c.archetype, cfg) * (1.0 - cfg.formulas.photoDemotionBelow3)
  {
    var a, b := c.(photoCount := more), c.(photoCount := less);
    forall s | s in cfg.signals && s != Photos ensures SignalValue(s, a, cfg) == SignalValue(s, b, cfg) {
    }
    ScoreMoves(Photos, a, b, cfg);
  }

  lemma ReviewsAlone(c: Candidate, n: int, name: Signal, cfg: Config)
    requires Divisible(cfg, c) && Divisible(cfg, c.(reviewCount := n))
    requires name != Popularity && cfg.formulas.rating == LiteralMode
    ensures SignalValue(name, c.(reviewCount := n), cfg) == SignalValue(name, c, cfg)
  {
  }

  /** Under literal ratings and below the ceiling, reviews raise the score by the weight of popularity in proportion to
      log(1 + n). */
  lemma ReviewedBy(c: Candidate, more: int, less: int, cfg: Config)
    requires cfg.formulas.rating == LiteralMode && more > 0 && less > 0 && Divisible(cfg, c.(reviewCount := more))
    requires var top := cfg.lib.log1p(cfg.formulas.globalMaxReviews);
             top > 0.0 && cfg.lib.log1p(more as real) <= top && cfg.lib.log1p(less as real) <= top
    ensures Divisible(cfg, c.(reviewCount := less))
    ensures var top := cfg.lib.log1p(cfg.formulas.globalMaxReviews);
            Score(c.(reviewCount := more), cfg) - Score(c.(reviewCount := less), cfg) ==
            Weight(Popularity, c.archetype, cfg)
            * ((cfg.lib.log1p(more as real) - cfg.lib.log1p(less as real)) / top)
  {
    var a, b := c.(reviewCount := more), c.(reviewCount := less);
    forall s | s in cfg.signals && s != Popularity ensures SignalValue(s, a, cfg) == SignalValue(s, b, cfg) {
      ReviewsAlone(a, less, s, cfg);
    }
    PopularityWorth(a, cfg);
    PopularityWorth(b, cfg);
    Proportion(cfg.lib.log1p(more as real), cfg.lib.log1p(less as real), cfg.lib.log1p(cfg.formulas.globalMaxReviews),
               SignalValue(Popularity, a, cfg), SignalValue(Popularity, b, cfg));
    ScoreMoves(Popularity, a, b, cfg);
  }

  lemma FriendsAlone(c: Candidate, n: int, name: Signal, cfg: Config)
    requires Divisible(cfg, c) && name != Friends
    ensures SignalValue(name, c.(friendCount := n), cfg) == SignalValue(name, c, cfg)
  {
  }

  /** Up to the configured number each friend adds its part of the weight of friends. */
  lemma BefriendedBy(c: Candidate, more: int, less: int, cfg: Config)
    requires Divisible(cfg, c) && cfg.formulas.friendsFullCredit > 0.0
    requires more as real <= cfg.formulas.friendsFullCredit && less as real <= cfg.formulas.friendsFullCredit
    ensures Score(c.(friendCount := more), cfg) - Score(c.(friendCount := less), cfg) ==
            Weight(Friends, c.archetype, cfg) * ((more - less) as real / cfg.formulas.friendsFullCredit)
  {
    var a, b := c.(friendCount := more), c.(friendCount := less);
    forall s | s in cfg.signals && s != Friends ensures SignalValue(s, a, cfg) == SignalValue(s, b, cfg) {
      FriendsAlone(c, more, s, cfg);
      FriendsAlone(c, less, s, cfg);
    }
    FriendsWorth(a, cfg);
    FriendsWorth(b, cfg);
    Proportion(more as real, less as real, cfg.formulas.friendsFullCredit, SignalValue(Friends, a, cfg),
               SignalValue(Friends, b, cfg));
    ScoreMoves(Friends, a, b, cfg);
  }

  lemma Proportion(x: real, y: real, d: real, u: real, v: real)
    requires d > 0.0 && (if x >= d then u == 1.0 else u * d == x) && (if y >= d then v == 1.0 else v * d == y)
    requires x <= d && y <= d
    ensures u - v == (x - y) / d
  {
    assert u * d == x && v * d == y;
    assert (u - v) * d == x - y;
  }

  /** Other hours move the score by the weight of the open status times the difference of the configured values. */
  lemma OpenBy(c: Candidate, x: Option<bool>, y: Option<bool>, cfg: Config)
    requires Divisible(cfg, c)
    ensures var f := cfg.formulas.openStatus;
            Score(c.(isOpenNow := x), cfg) - Score(c.(isOpenNow := y), cfg) ==
            Weight(OpenNow, c.archetype, cfg) * (OpenCredit(x, c.opensLater, f) - OpenCredit(y, c.opensLater, f))
  {
    var a, b := c.(isOpenNow := x), c.(isOpenNow := y);
    forall s | s in cfg.signals && s != OpenNow ensures SignalValue(s, a, cfg) == SignalValue(s, b, cfg) {
    }
    ScoreMoves(OpenNow, a, b, cfg);
  }
}
