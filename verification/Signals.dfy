/** The seven ranking signals and the weighted score, over exact reals. */
module Signals {
  import opened Options

  /** A real or +Inf: distances of candidates without a location, and the score of the pin. */
  datatype Ext = Fin(r: real) | PosInf

  predicate Gt(a: Ext, b: Ext) {
    (a.PosInf? && b.Fin?) || (a.Fin? && b.Fin? && a.r > b.r)
  }

  /** `id` stands for the UUID: fixed-width lower-case text compares as the number it spells. */
  datatype Candidate = Candidate(
    id: nat,
    name: string,
    archetype: string,
    distanceKm: Ext,
    lemonScore: Option<real>,
    googleRating: Option<real>,
    reviewCount: int,
    photoCount: int,
    isClaimed: bool,
    friendCount: int,
    isNew: bool,
    isOpenNow: Option<bool>,
    opensLater: bool)

  /** exp(-x) and log(1 + x). Nothing is assumed of them except where a lemma says so. */
  datatype MathLib = MathLib(expNeg: real -> real, log1p: real -> real)

  /** A configured signal name; one the ranker does not know contributes nothing. */
  datatype Signal = Distance | Rating | Popularity | Friends | Claimed | Photos | OpenNow | Unknown(name: string)

  /** The configured formula; any other word in the configuration selects the literal one. */
  datatype RatingMode = LiteralMode | BayesianMode

  datatype DistanceMode = CapMode | DecayMode

  datatype OpenBehavior = HardFilter | Soft | Ignore

  datatype Bayes = Bayes(priorStrength: real, globalMean: real, fromLemonScore: bool)

  datatype OpenStatus = OpenStatus(closed: real, opensLater: real, openNow: real, unknownHours: real)

  datatype Formulas = Formulas(
    rating: RatingMode,
    bayes: Bayes,
    distance: DistanceMode,
    decayKm: map<string, real>,
    globalMaxReviews: real,
    photoDemotionBelow3: real,
    friendsFullCredit: real,
    openStatus: OpenStatus)

  datatype Archetype = Archetype(weights: map<Signal, real>, openStatus: OpenBehavior)

  datatype Config = Config(
    signals: seq<Signal>,
    formulas: Formulas,
    archetypes: map<string, Archetype>,
    ratingDemoteFactor: real,
    swapWindow: real,
    lib: MathLib)

  const DISTANCE_CAP_KM := 48.28
  const RATING_SCALE := 10.0
  const BAYESIAN_SCALE := 5.0
  const PHOTOS_FULL_CREDIT := 3

  function Max(a: real, b: real): real {
    if a < b then b else a
  }

  function Min(a: real, b: real): real {
    if b < a then b else a
  }

  /** A missing map entry reads as the zero value. */
  function ArchetypeOf(cfg: Config, name: string): Archetype {
    if name in cfg.archetypes then cfg.archetypes[name] else Archetype(map[], Soft)
  }

  function WeightOf(a: Archetype, signal: Signal): real {
    if signal in a.weights then a.weights[signal] else 0.0
  }

  /** No divisor that is used is zero, so that real division stands in for the floating-point one. */
  predicate Divisible(cfg: Config, c: Candidate) {
    && cfg.formulas.friendsFullCredit != 0.0
    && (c.reviewCount > 0 ==> cfg.lib.log1p(cfg.formulas.globalMaxReviews) != 0.0)
    && (cfg.formulas.rating == BayesianMode && SmoothedSource(c, cfg).Some? ==>
          cfg.formulas.bayes.priorStrength + c.reviewCount as real != 0.0)
  }

  /** The rating that smoothing starts from. */
  function SmoothedSource(c: Candidate, cfg: Config): Option<real> {
    if cfg.formulas.bayes.fromLemonScore then c.lemonScore else c.googleRating
  }

  // ---- What the program can receive ----

  const ARCHETYPES := {"low_stakes_fast_nearby", "medium_stakes_occasion", "high_stakes_one_time", "experiential",
                       "recurring_service", "utility_distance_dominant"}

  const ESTABLISHED_REVIEWS := 10

  /** The configurations that are not refused on loading. */
  ghost predicate Loadable(cfg: Config) {
    cfg.signals != [] && cfg.archetypes != map[] && forall a :: a in cfg.archetypes ==> a in ARCHETYPES
  }

  /** Inputs on their scales: Google rates from 0 to 5, the lemon score from 0 to 10. */
  ghost predicate InRange(c: Candidate) {
    && (c.distanceKm.Fin? ==> c.distanceKm.r >= 0.0)
    && 0.0 <= LemonOf(c) <= 10.0
    && (c.googleRating.Some? ==> 0.0 <= c.googleRating.value <= BAYESIAN_SCALE)
    && c.reviewCount >= 0 && c.friendCount >= 0
  }

  /** What a stored business can be retrieved as: its archetype is a known one, and it counts as new exactly while it
      has fewer than 10 reviews. */
  ghost predicate Retrievable(c: Candidate) {
    InRange(c) && c.archetype in ARCHETYPES && c.photoCount >= 0 && (c.isNew <==> c.reviewCount < ESTABLISHED_REVIEWS)
  }

  // ---- The signals ----

  function LiteralDistance(d: Ext): real {
    if d.PosInf? then 0.0 else Max(1.0 - d.r / DISTANCE_CAP_KM, 0.0)
  }

  function SignalDistance(c: Candidate, cfg: Config): real {
    if cfg.formulas.distance == DecayMode then DistanceDecay(c, cfg) else LiteralDistance(c.distanceKm)
  }

  function DistanceDecay(c: Candidate, cfg: Config): real {
    var km := if c.archetype in cfg.formulas.decayKm then cfg.formulas.decayKm[c.archetype] else 0.0;
    if km <= 0.0 then LiteralDistance(c.distanceKm)
    else if c.distanceKm.PosInf? then 0.0
    else cfg.lib.expNeg(c.distanceKm.r / km)
  }

  function LiteralRating(c: Candidate): real {
    if c.lemonScore.None? then 0.0 else c.lemonScore.value / RATING_SCALE
  }

  function Smoothed(b: Bayes, n: int, r: real): real
    requires b.priorStrength + n as real != 0.0
  {
    ((b.priorStrength * b.globalMean + n as real * r) / (b.priorStrength + n as real)) / BAYESIAN_SCALE
  }

  function BayesianRating(c: Candidate, cfg: Config): real
    requires SmoothedSource(c, cfg).Some? ==> cfg.formulas.bayes.priorStrength + c.reviewCount as real != 0.0
  {
    var r := SmoothedSource(c, cfg);
    if r.None? then 0.0 else Smoothed(cfg.formulas.bayes, c.reviewCount, r.value)
  }

  function Times(x: real, y: real): real {
    x * y
  }

  function SignalRating(c: Candidate, cfg: Config): real
    requires Divisible(cfg, c)
  {
    Demoted(if cfg.formulas.rating == BayesianMode then BayesianRating(c, cfg) else LiteralRating(c), c, cfg)
  }

  /** A new business gets only part of its rating. */
  function Demoted(base: real, c: Candidate, cfg: Config): real {
    if c.isNew then Times(base, cfg.ratingDemoteFactor) else base
  }

  function SignalPopularity(c: Candidate, cfg: Config): real
    requires Divisible(cfg, c)
  {
    if c.reviewCount <= 0 then 0.0
    else Min(cfg.lib.log1p(c.reviewCount as real) / cfg.lib.log1p(cfg.formulas.globalMaxReviews), 1.0)
  }

  function SignalFriends(c: Candidate, cfg: Config): real
    requires Divisible(cfg, c)
  {
    Min(c.friendCount as real / cfg.formulas.friendsFullCredit, 1.0)
  }

  function SignalClaimed(c: Candidate): real {
    if c.isClaimed then 1.0 else 0.0
  }

  function SignalPhotos(c: Candidate, cfg: Config): real {
    if c.photoCount >= PHOTOS_FULL_CREDIT then 1.0 else cfg.formulas.photoDemotionBelow3
  }

  function SignalOpenStatus(c: Candidate, cfg: Config): real {
    var os := cfg.formulas.openStatus;
    if c.isOpenNow.None? then os.unknownHours
    else if c.isOpenNow.value then os.openNow
    else if c.opensLater then os.opensLater
    else os.closed
  }

  function SignalValue(name: Signal, c: Candidate, cfg: Config): real
    requires Divisible(cfg, c)
  {
    match name
    case Distance => SignalDistance(c, cfg)
    case Rating => SignalRating(c, cfg)
    case Popularity => SignalPopularity(c, cfg)
    case Friends => SignalFriends(c, cfg)
    case Claimed => SignalClaimed(c)
    case Photos => SignalPhotos(c, cfg)
    case OpenNow => SignalOpenStatus(c, cfg)
    case Unknown(_) => 0.0
  }

  /** One named signal's part of the score. */
  function Term(name: Signal, c: Candidate, cfg: Config): real
    requires Divisible(cfg, c)
  {
    var arch := ArchetypeOf(cfg, c.archetype);
    if name == OpenNow && arch.openStatus == Ignore then 0.0
    else Times(WeightOf(arch, name), SignalValue(name, c, cfg))
  }

  function Sum(names: seq<Signal>, c: Candidate, cfg: Config): real
    requires Divisible(cfg, c)
  {
    if names == [] then 0.0
    else Sum(names[..|names| - 1], c, cfg) + Term(names[|names| - 1], c, cfg)
  }

  function Score(c: Candidate, cfg: Config): real
    requires Divisible(cfg, c)
  {
    Sum(cfg.signals, c, cfg)
  }

  lemma SumStep(c: Candidate, cfg: Config, i: nat)
    requires Divisible(cfg, c) && i < |cfg.signals|
    ensures Sum(cfg.signals[..i + 1], c, cfg) == Sum(cfg.signals[..i], c, cfg) + Term(cfg.signals[i], c, cfg)
  {
    assert cfg.signals[..i + 1][..i] == cfg.signals[..i];
  }

  method ScoreCandidate(c: Candidate, cfg: Config) returns (score: real)
    requires Divisible(cfg, c)
    ensures score == Score(c, cfg)
  {
    var arch := ArchetypeOf(cfg, c.archetype);
    var ignoreOpen := arch.openStatus == Ignore;
    score := 0.0;
    for i := 0 to |cfg.signals|
      invariant score == Sum(cfg.signals[..i], c, cfg)
    {
      var name := cfg.signals[i];
      SumStep(c, cfg, i);
      if name == OpenNow && ignoreOpen {
        continue;
      }
      score := score + Times(WeightOf(arch, name), SignalValue(name, c, cfg));
    }
    assert cfg.signals[..|cfg.signals|] == cfg.signals;
  }

  // ---- Facts about the signals ----

  /** exp(-x) falls from 1 at 0 and stays positive; log(1 + x) rises from 0 at 0. */
  ghost predicate Monotone(lib: MathLib) {
    && (forall x, y :: x <= y ==> lib.expNeg(y) <= lib.expNeg(x))
    && lib.expNeg(0.0) == 1.0 && (forall x :: lib.expNeg(x) > 0.0)
    && (forall x, y :: 0.0 <= x <= y ==> lib.log1p(x) <= lib.log1p(y))
    && lib.log1p(0.0) == 0.0
  }

  /** What the shipped configuration has: positive scales, a demotion that demotes, and the open states in order. */
  ghost predicate Sensible(cfg: Config) {
    var f := cfg.formulas;
    && Monotone(cfg.lib)
    && f.friendsFullCredit > 0.0 && cfg.lib.log1p(f.globalMaxReviews) > 0.0
    && 0.0 <= f.photoDemotionBelow3 <= 1.0
    && 0.0 <= f.openStatus.closed <= f.openStatus.opensLater <= f.openStatus.unknownHours <= f.openStatus.openNow <= 1.0
    && 0.0 <= cfg.ratingDemoteFactor <= 1.0
    && forall a, s :: a in cfg.archetypes && s in cfg.archetypes[a].weights ==> cfg.archetypes[a].weights[s] >= 0.0
  }

  function LemonOf(c: Candidate): real {
    if c.lemonScore.None? then 0.0 else c.lemonScore.value
  }

  function OpenRank(c: Candidate): nat {
    if c.isOpenNow.None? then 2 else if c.isOpenNow.value then 3 else if c.opensLater then 1 else 0
  }

  /** On every raw input the ranker reads, `a` is at least as good as `b`; `a` is established. */
  ghost predicate AtLeastAsGood(a: Candidate, b: Candidate) {
    && a.archetype == b.archetype && !a.isNew
    && !Gt(a.distanceKm, b.distanceKm)
    && LemonOf(a) >= LemonOf(b) >= 0.0
    && a.reviewCount >= b.reviewCount
    && a.friendCount >= b.friendCount
    && (b.isClaimed ==> a.isClaimed)
    && a.photoCount >= b.photoCount
    && OpenRank(a) >= OpenRank(b)
  }

  lemma QuotientMonotone(x: real, y: real, d: real)
    requires x <= y && d > 0.0
    ensures x / d <= y / d
  {
  }

  lemma PartOf(whole: real, part: real)
    requires whole >= 0.0 && 0.0 <= part <= 1.0
    ensures 0.0 <= Times(whole, part) <= whole
  {
    assert whole * (1.0 - part) >= 0.0;
  }

  lemma DistanceMonotone(a: Candidate, b: Candidate, cfg: Config)
    requires Monotone(cfg.lib) && a.archetype == b.archetype && !Gt(a.distanceKm, b.distanceKm)
    ensures SignalDistance(a, cfg) >= SignalDistance(b, cfg)
  {
  }

  lemma RatingMonotone(a: Candidate, b: Candidate, cfg: Config)
    requires Divisible(cfg, a) && Divisible(cfg, b) && Sensible(cfg)
    requires cfg.formulas.rating == LiteralMode && AtLeastAsGood(a, b)
    ensures SignalRating(a, cfg) >= SignalRating(b, cfg)
  {
    QuotientMonotone(LemonOf(b), LemonOf(a), RATING_SCALE);
    QuotientMonotone(0.0, LemonOf(b), RATING_SCALE);
    PartOf(LiteralRating(b), cfg.ratingDemoteFactor);
  }

  lemma PopularityMonotone(a: Candidate, b: Candidate, cfg: Config)
    requires Divisible(cfg, a) && Divisible(cfg, b) && Sensible(cfg) && a.reviewCount >= b.reviewCount
    ensures SignalPopularity(a, cfg) >= SignalPopularity(b, cfg)
  {
    var top := cfg.lib.log1p(cfg.formulas.globalMaxReviews);
    if a.reviewCount > 0 {
      QuotientMonotone(0.0, cfg.lib.log1p(a.reviewCount as real), top);
      if b.reviewCount > 0 {
        QuotientMonotone(cfg.lib.log1p(b.reviewCount as real), cfg.lib.log1p(a.reviewCount as real), top);
      }
    }
  }

  lemma SignalMonotone(name: Signal, a: Candidate, b: Candidate, cfg: Config)
    requires Divisible(cfg, a) && Divisible(cfg, b) && Sensible(cfg)
    requires cfg.formulas.rating == LiteralMode && AtLeastAsGood(a, b)
    ensures SignalValue(name, a, cfg) >= SignalValue(name, b, cfg)
  {
    DistanceMonotone(a, b, cfg);
    RatingMonotone(a, b, cfg);
    PopularityMonotone(a, b, cfg);
    QuotientMonotone(b.friendCount as real, a.friendCount as real, cfg.formulas.friendsFullCredit);
  }

  lemma WeightNonNegative(cfg: Config, archetype: string, name: Signal)
    requires Sensible(cfg)
    ensures WeightOf(ArchetypeOf(cfg, archetype), name) >= 0.0
  {
  }

  lemma Scaled(w: real, x: real, y: real)
    requires w >= 0.0 && x >= y
    ensures Times(w, x) >= Times(w, y)
  {
  }

  lemma TermMonotone(name: Signal, a: Candidate, b: Candidate, cfg: Config)
    requires Divisible(cfg, a) && Divisible(cfg, b) && a.archetype == b.archetype
    requires WeightOf(ArchetypeOf(cfg, a.archetype), name) >= 0.0
    requires SignalValue(name, a, cfg) >= SignalValue(name, b, cfg)
    ensures Term(name, a, cfg) >= Term(name, b, cfg)
  {
    Scaled(WeightOf(ArchetypeOf(cfg, a.archetype), name), SignalValue(name, a, cfg), SignalValue(name, b, cfg));
  }

  lemma {:induction false} SumMonotone(names: seq<Signal>, a: Candidate, b: Candidate, cfg: Config)
    requires Divisible(cfg, a) && Divisible(cfg, b) && Sensible(cfg)
    requires cfg.formulas.rating == LiteralMode && AtLeastAsGood(a, b)
    ensures Sum(names, a, cfg) >= Sum(names, b, cfg)
  {
    if names != [] {
      SumMonotone(names[..|names| - 1], a, b, cfg);
      var name := names[|names| - 1];
      SignalMonotone(name, a, b, cfg);
      WeightNonNegative(cfg, a.archetype, name);
      TermMonotone(name, a, b, cfg);
    }
  }

  /** With literal ratings and non-negative weights, the better candidate never scores less, whatever signals are
      listed and in whatever order. */
  lemma BetterScoresNoLess(a: Candidate, b: Candidate, cfg: Config)
    requires Divisible(cfg, a) && Divisible(cfg, b) && Sensible(cfg)
    requires cfg.formulas.rating == LiteralMode && AtLeastAsGood(a, b)
    ensures Score(a, cfg) >= Score(b, cfg)
  {
    SumMonotone(cfg.signals, a, b, cfg);
  }

  // ---- The range of the signals ----

  /** Smoothing, if it is on, smooths the Google rating towards a mean on the same scale. */
  predicate RatingsInScale(cfg: Config) {
    cfg.formulas.rating == LiteralMode ||
    (!cfg.formulas.bayes.fromLemonScore && 0.0 <= cfg.formulas.bayes.globalMean <= BAYESIAN_SCALE)
  }

  predicate PriorCounts(cfg: Config) {
    cfg.formulas.rating == BayesianMode ==> cfg.formulas.bayes.priorStrength > 0.0
  }

  lemma SmoothedAtMostOneIff(b: Bayes, n: nat, r: real)
    requires b.priorStrength > 0.0
    ensures Smoothed(b, n, r) <= 1.0 <==>
            b.priorStrength * b.globalMean + n as real * r <= BAYESIAN_SCALE * (b.priorStrength + n as real)
  {
  }

  lemma WeightedSumWithin(c: real, m: real, x: real, r: real, top: real)
    requires c >= 0.0 && x >= 0.0 && 0.0 <= m <= top && 0.0 <= r <= top
    ensures 0.0 <= c * m + x * r <= top * (c + x)
  {
  }

  lemma SmoothedInUnit(b: Bayes, n: nat, r: real)
    requires b.priorStrength > 0.0 && 0.0 <= b.globalMean <= BAYESIAN_SCALE && 0.0 <= r <= BAYESIAN_SCALE
    ensures 0.0 <= Smoothed(b, n, r) <= 1.0
  {
    WeightedSumWithin(b.priorStrength, b.globalMean, n as real, r, BAYESIAN_SCALE);
    SmoothedAtMostOneIff(b, n, r);
    QuotientMonotone(0.0, b.priorStrength * b.globalMean + n as real * r, b.priorStrength + n as real);
  }

  lemma ReviewsOutweigh(b: Bayes, n: nat, r: real)
    requires b.priorStrength > 0.0 && 0.0 <= b.globalMean && r > BAYESIAN_SCALE
    requires n as real * (r - BAYESIAN_SCALE) > b.priorStrength * BAYESIAN_SCALE
    ensures Smoothed(b, n, r) > 1.0
  {
    var c, m, x := b.priorStrength, b.globalMean, n as real;
    assert c * m >= 0.0;
    assert x * (r - BAYESIAN_SCALE) == x * r - BAYESIAN_SCALE * x;
    SmoothedAtMostOneIff(b, n, r);
  }

  /** Enough reviews outweigh any prior and show a rating above the scale. */
  lemma EnoughReviews(b: Bayes, r: real, least: nat) returns (n: nat)
    requires b.priorStrength > 0.0 && 0.0 <= b.globalMean && r > BAYESIAN_SCALE
    ensures n >= least && Smoothed(b, n, r) > 1.0
  {
    n := ReviewsFor(b.priorStrength * BAYESIAN_SCALE, r - BAYESIAN_SCALE, least);
    ReviewsOutweigh(b, n, r);
  }

  /** Any number of reviews and any rating up to `top` smooth to a value in 0..1. */
  ghost predicate SmoothsToUnit(b: Bayes, top: real)
    requires b.priorStrength > 0.0
  {
    forall n: nat, r: real :: 0.0 <= r <= top ==> 0.0 <= Smoothed(b, n, r) <= 1.0
  }

  /** That is so exactly when neither the mean nor the ratings can leave 0..5. */
  lemma SmoothedInUnitIff(b: Bayes, top: real)
    requires b.priorStrength > 0.0 && top >= 0.0
    ensures SmoothsToUnit(b, top) <==> 0.0 <= b.globalMean <= BAYESIAN_SCALE && top <= BAYESIAN_SCALE
  {
    if 0.0 <= b.globalMean <= BAYESIAN_SCALE && top <= BAYESIAN_SCALE {
      forall n: nat, r: real | 0.0 <= r <= top ensures 0.0 <= Smoothed(b, n, r) <= 1.0 {
        SmoothedInUnit(b, n, r);
      }
    } else {
      var n, r := LeavesUnit(b, top);
      assert !(0.0 <= Smoothed(b, n, r) <= 1.0);
    }
  }

  /** Without reviews when the mean is off the scale, and otherwise with enough reviews at the top rating. */
  lemma LeavesUnit(b: Bayes, top: real) returns (n: nat, r: real)
    requires b.priorStrength > 0.0 && top >= 0.0
    requires !(0.0 <= b.globalMean <= BAYESIAN_SCALE && top <= BAYESIAN_SCALE)
    ensures 0.0 <= r <= top && !(0.0 <= Smoothed(b, n, r) <= 1.0)
  {
    if !(0.0 <= b.globalMean <= BAYESIAN_SCALE) {
      MeanLeavesUnit(b, 0, 0.0);
      return 0, 0.0;
    }
    n := EnoughReviews(b, top, 0);
    return n, top;
  }

  lemma MeanLeavesUnit(b: Bayes, n: nat, r: real)
    requires b.priorStrength > 0.0 && !(0.0 <= b.globalMean <= BAYESIAN_SCALE) && n == 0
    ensures !(0.0 <= Smoothed(b, n, r) <= 1.0)
  {
    NoReviewsGiveMean(b, r);
  }

  lemma ReviewsFor(weight: real, gain: real, least: nat) returns (n: nat)
    requires weight >= 0.0 && gain > 0.0
    ensures n >= least && n as real * gain > weight
  {
    var q := weight / gain;
    assert q >= 0.0;
    n := q.Floor + 1 + least;
    assert q * gain == weight;
    ScaledMore(n as real, q, gain);
  }

  lemma ScaledMore(x: real, y: real, gain: real)
    requires x > y && gain > 0.0
    ensures x * gain > y * gain
  {
    assert (x - y) * gain > 0.0;
  }

  lemma RatingInUnit(c: Candidate, cfg: Config)
    requires Divisible(cfg, c) && Sensible(cfg) && InRange(c) && RatingsInScale(cfg) && PriorCounts(cfg)
    ensures 0.0 <= SignalRating(c, cfg) <= 1.0
  {
    var b := cfg.formulas.bayes;
    if cfg.formulas.rating == BayesianMode && c.googleRating.Some? {
      SmoothedInUnit(b, c.reviewCount, c.googleRating.value);
    }
    QuotientMonotone(0.0, LemonOf(c), RATING_SCALE);
    QuotientMonotone(LemonOf(c), 10.0, RATING_SCALE);
    var base := if cfg.formulas.rating == BayesianMode then BayesianRating(c, cfg) else LiteralRating(c);
    assert 0.0 <= base <= 1.0;
    PartOf(base, cfg.ratingDemoteFactor);
  }

  lemma DistanceInUnit(c: Candidate, cfg: Config)
    requires Sensible(cfg) && InRange(c)
    ensures 0.0 <= SignalDistance(c, cfg) <= 1.0
  {
  }

  lemma SignalInUnit(name: Signal, c: Candidate, cfg: Config)
    requires Divisible(cfg, c) && Sensible(cfg) && InRange(c) && RatingsInScale(cfg) && PriorCounts(cfg)
    ensures 0.0 <= SignalValue(name, c, cfg) <= 1.0
  {
    match name {
      case Distance => DistanceInUnit(c, cfg);
      case Rating => RatingInUnit(c, cfg);
      case Popularity =>
        if c.reviewCount > 0 {
          QuotientMonotone(0.0, cfg.lib.log1p(c.reviewCount as real), cfg.lib.log1p(cfg.formulas.globalMaxReviews));
        }
      case Friends => QuotientMonotone(0.0, c.friendCount as real, cfg.formulas.friendsFullCredit);
      case _ =>
    }
  }

  /** Every signal of every candidate lies in 0..1; of those that can be retrieved, or of all on their scales. */
  ghost predicate UnitSignals(cfg: Config, retrieved: bool) {
    forall name: Signal, c: Candidate ::
      InRange(c) && Divisible(cfg, c) && (retrieved ==> Retrievable(c)) ==> 0.0 <= SignalValue(name, c, cfg) <= 1.0
  }

  /** Either way that can be read off the configuration. */
  lemma UnitSignalsIff(cfg: Config, retrieved: bool)
    requires Sensible(cfg) && PriorCounts(cfg)
    ensures UnitSignals(cfg, retrieved) <==> RatingsInScale(cfg)
  {
    if RatingsInScale(cfg) {
      forall name: Signal, c: Candidate | InRange(c) && Divisible(cfg, c) && (retrieved ==> Retrievable(c))
        ensures 0.0 <= SignalValue(name, c, cfg) <= 1.0
      {
        SignalInUnit(name, c, cfg);
      }
    } else {
      var c := OutOfUnit(cfg);
      assert !(0.0 <= SignalValue(Rating, c, cfg) <= 1.0);
    }
  }

  /** An established business with this rating. */
  function RatedBusiness(reviews: nat, rating: real): Candidate {
    Candidate(1, "", "low_stakes_fast_nearby", Fin(0.0), Some(rating),
              if rating <= BAYESIAN_SCALE then Some(rating) else None, reviews, 0, false, 0, false, None, false)
  }

  /** A candidate that can be retrieved and whose rating signal leaves 0..1. */
  lemma OutOfUnit(cfg: Config) returns (c: Candidate)
    requires Sensible(cfg) && PriorCounts(cfg) && !RatingsInScale(cfg)
    ensures Retrievable(c) && Divisible(cfg, c) && !(0.0 <= SignalRating(c, cfg) <= 1.0)
  {
    var b := cfg.formulas.bayes;
    if b.globalMean > BAYESIAN_SCALE {
      MeanAboveScale(b, 10);
      c := RatedBusiness(10, 5.0);
    } else if b.globalMean < 0.0 {
      MeanBelowScale(b, 10);
      c := RatedBusiness(10, 0.0);
    } else {
      var n := EnoughReviews(b, 10.0, 10);
      c := RatedBusiness(n, 10.0);
    }
  }

  /** A mean off the scale shows even in full ratings, or even in none. */
  lemma MeanAboveScale(b: Bayes, n: nat)
    requires b.priorStrength > 0.0 && b.globalMean > BAYESIAN_SCALE
    ensures Smoothed(b, n, 5.0) > 1.0
  {
    SmoothedAtMostOneIff(b, n, 5.0);
    ScaledMore(b.globalMean, 5.0, b.priorStrength);
  }

  lemma MeanBelowScale(b: Bayes, n: nat)
    requires b.priorStrength > 0.0 && b.globalMean < 0.0
    ensures Smoothed(b, n, 0.0) < 0.0
  {
    ScaledMore(0.0, b.globalMean, b.priorStrength);
    NegativeQuotient(b.priorStrength * b.globalMean, b.priorStrength + n as real);
  }

  lemma NegativeQuotient(x: real, d: real)
    requires x < 0.0 && d > 0.0
    ensures x / d < 0.0
  {
  }

  /** The weights that count for a candidate: those of its archetype's listed signals, without an ignored open
      status. */
  function CountedWeights(names: seq<Signal>, arch: Archetype): real {
    if names == [] then 0.0
    else
      var name := names[|names| - 1];
      CountedWeights(names[..|names| - 1], arch) +
      if name == OpenNow && arch.openStatus == Ignore then 0.0 else WeightOf(arch, name)
  }

  lemma {:induction false} SumInRange(names: seq<Signal>, c: Candidate, cfg: Config)
    requires Divisible(cfg, c) && Sensible(cfg) && InRange(c) && RatingsInScale(cfg) && PriorCounts(cfg)
    ensures 0.0 <= Sum(names, c, cfg) <= CountedWeights(names, ArchetypeOf(cfg, c.archetype))
  {
    if names != [] {
      var name := names[|names| - 1];
      SumInRange(names[..|names| - 1], c, cfg);
      SignalInUnit(name, c, cfg);
      WeightNonNegative(cfg, c.archetype, name);
      TermInRange(name, c, cfg);
    }
  }

  lemma TermInRange(name: Signal, c: Candidate, cfg: Config)
    requires Divisible(cfg, c)
    requires 0.0 <= SignalValue(name, c, cfg) <= 1.0 && WeightOf(ArchetypeOf(cfg, c.archetype), name) >= 0.0
    ensures 0.0 <= Term(name, c, cfg) <= WeightOf(ArchetypeOf(cfg, c.archetype), name)
    ensures name == OpenNow && ArchetypeOf(cfg, c.archetype).openStatus == Ignore ==> Term(name, c, cfg) == 0.0
  {
    PartOf(WeightOf(ArchetypeOf(cfg, c.archetype), name), SignalValue(name, c, cfg));
  }

  /** A score is at least 0 and at most the sum of the weights that count. */
  lemma ScoreInRange(c: Candidate, cfg: Config)
    requires Divisible(cfg, c) && Sensible(cfg) && InRange(c) && RatingsInScale(cfg) && PriorCounts(cfg)
    ensures 0.0 <= Score(c, cfg) <= CountedWeights(cfg.signals, ArchetypeOf(cfg, c.archetype))
  {
    SumInRange(cfg.signals, c, cfg);
  }

  // ---- A worked score ----

  const SHIPPED_SIGNALS := [Distance, Rating, Popularity, Friends, Claimed, Photos, OpenNow]

  /** Weights in the order of the shipped signal list. */
  function Weighted(d: real, r: real, p: real, f: real, c: real, ph: real, o: real, open: OpenBehavior): Archetype {
    Archetype(map[Distance := d, Rating := r, Popularity := p, Friends := f, Claimed := c, Photos := ph, OpenNow := o],
              open)
  }

  function ShippedArchetypes(): map<string, Archetype> {
    map["low_stakes_fast_nearby" := Weighted(0.25, 0.18, 0.19, 0.12, 0.01, 0.10, 0.15, HardFilter),
        "medium_stakes_occasion" := Weighted(0.10, 0.25, 0.25, 0.15, 0.03, 0.12, 0.10, Soft),
        "high_stakes_one_time" := Weighted(0.04, 0.26, 0.25, 0.16, 0.12, 0.15, 0.02, Ignore),
        "experiential" := Weighted(0.08, 0.22, 0.17, 0.16, 0.07, 0.25, 0.05, Ignore),
        "recurring_service" := Weighted(0.08, 0.25, 0.25, 0.16, 0.10, 0.10, 0.06, Soft),
        "utility_distance_dominant" := Weighted(0.45, 0.10, 0.10, 0.02, 0.08, 0.05, 0.20, HardFilter)]
  }

  function ShippedDecay(): map<string, real> {
    map["utility_distance_dominant" := 3.0, "low_stakes_fast_nearby" := 8.0, "medium_stakes_occasion" := 16.0,
        "recurring_service" := 16.0, "experiential" := 48.0, "high_stakes_one_time" := 80.0]
  }

  function Shipped(lib: MathLib): Config {
    Config(SHIPPED_SIGNALS,
           Formulas(LiteralMode, Bayes(20.0, 4.3, false), CapMode, ShippedDecay(), 10000.0, 0.25, 5.0,
                    OpenStatus(0.0, 0.3, 1.0, 0.7)),
           ShippedArchetypes(), 0.85, 0.05, lib)
  }

  const SUSHI :=
    Candidate(1, "", "low_stakes_fast_nearby", Fin(1.5), Some(9.2), None, 420, 8, true, 2, false, Some(true), false)

  lemma {:induction false} SevenTerms(c: Candidate, cfg: Config)
    requires Divisible(cfg, c) && cfg.signals == SHIPPED_SIGNALS
    ensures Score(c, cfg) ==
            Term(Distance, c, cfg) + Term(Rating, c, cfg) + Term(Popularity, c, cfg) + Term(Friends, c, cfg)
            + Term(Claimed, c, cfg) + Term(Photos, c, cfg) + Term(OpenNow, c, cfg)
  {
    var s := SHIPPED_SIGNALS;
    assert s[..6][..5] == s[..5] && s[..5][..4] == s[..4] && s[..4][..3] == s[..3];
    assert s[..3][..2] == s[..2] && s[..2][..1] == s[..1] && s[..1][..0] == [];
    assert Sum(s[..1], c, cfg) == Term(Distance, c, cfg);
    assert Sum(s[..2], c, cfg) == Sum(s[..1], c, cfg) + Term(Rating, c, cfg);
    assert Sum(s[..3], c, cfg) == Sum(s[..2], c, cfg) + Term(Popularity, c, cfg);
    assert Sum(s[..4], c, cfg) == Sum(s[..3], c, cfg) + Term(Friends, c, cfg);
    assert Sum(s[..5], c, cfg) == Sum(s[..4], c, cfg) + Term(Claimed, c, cfg);
    assert Sum(s[..6], c, cfg) == Sum(s[..5], c, cfg) + Term(Photos, c, cfg);
  }

  lemma ShippedLoads(lib: MathLib)
    ensures Loadable(Shipped(lib))
  {
    assert "low_stakes_fast_nearby" in Shipped(lib).archetypes;
  }

  /** The shipped configuration with smoothing switched on, over the Google rating or the lemon score. */
  function Smoothing(lib: MathLib, fromLemonScore: bool): Config {
    var cfg := Shipped(lib);
    cfg.(formulas := cfg.formulas.(rating := BayesianMode,
                                   bayes := cfg.formulas.bayes.(fromLemonScore := fromLemonScore)))
  }

  lemma LemonSourceOutOfRange(lib: MathLib)
    requires lib.log1p(10000.0) != 0.0
    ensures Retrievable(SUSHI) && Loadable(Smoothing(lib, true)) && Divisible(Smoothing(lib, true), SUSHI)
    ensures SignalRating(SUSHI, Smoothing(lib, true)) > 1.0
  {
    ShippedLoads(lib);
    SmoothedAtMostOneIff(Smoothing(lib, true).formulas.bayes, 420, 9.2);
  }

  // ---- Review counts under smoothing ----

  /** Without reviews the smoothed rating is the prior alone. */
  lemma NoReviewsGiveMean(b: Bayes, r: real)
    requires b.priorStrength > 0.0
    ensures Smoothed(b, 0, r) == b.globalMean / BAYESIAN_SCALE
  {
    assert b.priorStrength * b.globalMean / b.priorStrength == b.globalMean;
  }

  /** The documented signal of a business without a rating to smooth: the mean, like any rating subject to demotion. */
  function MeanSignal(c: Candidate, cfg: Config): real {
    Demoted(cfg.formulas.bayes.globalMean / BAYESIAN_SCALE, c, cfg)
  }

  /** The code gives 0 instead, which is the same only where the mean or the new business's part of it is 0. */
  lemma MissingRatingIsMeanIff(c: Candidate, cfg: Config)
    requires cfg.formulas.rating == BayesianMode && SmoothedSource(c, cfg).None? && Divisible(cfg, c)
    ensures SignalRating(c, cfg) == MeanSignal(c, cfg) <==>
            cfg.formulas.bayes.globalMean == 0.0 || (c.isNew && cfg.ratingDemoteFactor == 0.0)
  {
    TimesIsZero(cfg.formulas.bayes.globalMean / BAYESIAN_SCALE, cfg.ratingDemoteFactor);
  }

  lemma TimesIsZero(x: real, y: real)
    ensures Times(x, y) == 0.0 <==> x == 0.0 || y == 0.0
  {
    assert x != 0.0 && y != 0.0 ==> x * y != 0.0;
  }

  /** With the shipped mean it is never the same. */
  lemma UnratedBelowMean(c: Candidate, lib: MathLib)
    requires lib.log1p(10000.0) != 0.0 && c.googleRating.None?
    ensures Divisible(Smoothing(lib, false), c)
    ensures SignalRating(c, Smoothing(lib, false)) == 0.0 < MeanSignal(c, Smoothing(lib, false))
  {
  }

  /** Smoothed ratings are not monotone in the number of reviews: more reviews help exactly when the business is
      rated at least at the global mean. */
  lemma MoreReviewsHelpIffAboveMean(b: Bayes, n: nat, extra: nat, r: real)
    requires b.priorStrength > 0.0 && extra > 0
    ensures Smoothed(b, n + extra, r) >= Smoothed(b, n, r) <==> r >= b.globalMean
  {
    var c, m, x, y := b.priorStrength, b.globalMean, n as real, (n + extra) as real;
    var p, q := (c * m + x * r) / (c + x), (c * m + y * r) / (c + y);
    SmoothedGain(c, m, x, y, r, p, q);
    assert (c + x) * (c + y) > 0.0 && c * (y - x) > 0.0;
    SameSign(q - p, (c + x) * (c + y), r - m, c * (y - x));
    QuotientMonotone(if p <= q then p else q, if p <= q then q else p, BAYESIAN_SCALE);
    assert (q - p) / BAYESIAN_SCALE == q / BAYESIAN_SCALE - p / BAYESIAN_SCALE;
  }

  lemma SmoothedGain(c: real, m: real, x: real, y: real, r: real, p: real, q: real)
    requires c + x != 0.0 && c + y != 0.0
    requires p == (c * m + x * r) / (c + x) && q == (c * m + y * r) / (c + y)
    ensures (q - p) * ((c + x) * (c + y)) == (c * (y - x)) * (r - m)
  {
  }

  lemma SameSign(u: real, d: real, v: real, e: real)
    requires d > 0.0 && e > 0.0 && u * d == e * v
    ensures u >= 0.0 <==> v >= 0.0
  {
  }
}
