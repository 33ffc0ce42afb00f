/** The ranking pipeline: hard filter, score, sort, pin, tie-break, de-pin, truncate. */
module Ranking {
  import opened Options
  import opened Seqs
  import opened Signals
  import opened BlockMerge
  import opened SortInPlace

  datatype Result = Result(c: Candidate, score: Ext)

  const TIE_EPSILON := 0.005
  const DE_PIN_TOP_N := 2

  // ---- Hard filter and scores ----

  /** Closed in an archetype that must be open. Unknown hours are never dropped. */
  predicate Dropped(c: Candidate, cfg: Config) {
    ArchetypeOf(cfg, c.archetype).openStatus == OpenBehavior.HardFilter && c.isOpenNow.Some? && !c.isOpenNow.value
  }

  function Kept(cs: seq<Candidate>, cfg: Config): (r: seq<Candidate>)
    ensures forall c :: c in r <==> c in cs && !Dropped(c, cfg)
  {
    if cs == [] then []
    else
      assert cs == Front(cs) + [Last(cs)];
      if Dropped(Last(cs), cfg) then Kept(Front(cs), cfg) else Kept(Front(cs), cfg) + [Last(cs)]
  }

  predicate AllDivisible(cs: seq<Candidate>, cfg: Config) {
    forall c :: c in cs ==> Divisible(cfg, c)
  }

  function Scored(cs: seq<Candidate>, cfg: Config): (r: seq<Result>)
    requires AllDivisible(cs, cfg)
    ensures |r| == |cs|
    ensures forall i :: 0 <= i < |cs| ==> r[i] == Result(cs[i], Fin(Score(cs[i], cfg)))
  {
    if cs == [] then []
    else Scored(Front(cs), cfg) + [Result(Last(cs), Fin(Score(Last(cs), cfg)))]
  }

  /** The scored candidates that survive the hard filter. */
  function Survivors(cs: seq<Candidate>, cfg: Config): seq<Result>
    requires AllDivisible(cs, cfg)
  {
    Scored(Kept(cs, cfg), cfg)
  }

  method HardFilter(cs: seq<Candidate>, cfg: Config) returns (kept: seq<Candidate>)
    ensures kept == Kept(cs, cfg)
  {
    kept := [];
    for i := 0 to |cs|
      invariant kept == Kept(cs[..i], cfg)
    {
      assert Front(cs[..i + 1]) == cs[..i];
      if ArchetypeOf(cfg, cs[i].archetype).openStatus == OpenBehavior.HardFilter
         && cs[i].isOpenNow.Some? && !cs[i].isOpenNow.value
      {
        continue;
      }
      kept := kept + [cs[i]];
    }
    assert cs[..|cs|] == cs;
  }

  method ScoreAll(cs: seq<Candidate>, cfg: Config) returns (results: array<Result>)
    requires AllDivisible(cs, cfg)
    ensures fresh(results) && results[..] == Scored(cs, cfg)
  {
    if |cs| == 0 {
      results := new Result[0];
      return;
    }
    results := new Result[|cs|](_ => Result(cs[0], PosInf));
    for i := 0 to |cs|
      invariant forall k :: 0 <= k < i ==> results[k] == Result(cs[k], Fin(Score(cs[k], cfg)))
    {
      var s := ScoreCandidate(cs[i], cfg);
      results[i] := Result(cs[i], Fin(s));
    }
    assert results[..] == Scored(cs, cfg);
  }

  // ---- Pin ----

  function WithoutId(rs: seq<Result>, id: nat): (r: seq<Result>)
    ensures |r| <= |rs|
    ensures forall x :: x in r <==> x in rs && x.c.id != id
  {
    if rs == [] then []
    else
      assert rs == Front(rs) + [Last(rs)];
      if Last(rs).c.id != id then WithoutId(Front(rs), id) + [Last(rs)] else WithoutId(Front(rs), id)
  }

  function Pinned(rs: seq<Result>, pin: Option<Candidate>): seq<Result> {
    if pin.None? then rs else [Result(pin.value, PosInf)] + WithoutId(rs, pin.value.id)
  }

  /** Slides the results with another id down to the front of their own array; says how many there are. */
  method DropId(results: array<Result>, id: nat) returns (n: nat)
    modifies results
    ensures n <= results.Length && results[..n] == WithoutId(old(results[..]), id)
  {
    ghost var was := results[..];
    n := 0;
    for i := 0 to results.Length
      invariant n <= i && results[..n] == WithoutId(was[..i], id)
      invariant results[i..] == was[i..]
    {
      assert results[i] == results[i..][0] == was[i];
      assert results[i + 1..] == results[i..][1..] == was[i + 1..];
      assert Front(was[..i + 1]) == was[..i];
      if results[i].c.id != id {
        Compact(results, n, i);
        n := n + 1;
      }
    }
    assert was[..|was|] == was;
  }

  /** Drops the pin's duplicates and puts the pin in front, with score +Inf. */
  method ApplyPin(results: array<Result>, pin: Option<Candidate>) returns (pinned: array<Result>)
    modifies results
    ensures pinned[..] == Pinned(old(results[..]), pin)
    ensures fresh(pinned) || pinned == results
  {
    if pin.None? {
      return results;
    }
    var n := DropId(results, pin.value.id);
    pinned := new Result[n + 1](_ => Result(pin.value, PosInf));
    forall i | 0 <= i < n {
      pinned[i + 1] := results[i];
    }
    assert pinned[1..] == results[..n];
    assert pinned[..] == [pinned[0]] + pinned[1..];
  }

  method Compact(a: array<Result>, to: nat, from: nat)
    requires to <= from < a.Length
    modifies a
    ensures a[..to + 1] == old(a[..to]) + [old(a[from])]
    ensures a[from + 1..] == old(a[from + 1..])
  {
    a[to] := a[from];
  }

  // ---- Sorts ----

  function ByScore(): (Result, Result) -> bool {
    (x: Result, y: Result) => Gt(x.score, y.score)
  }

  /** |a - b| < epsilon. The difference of two infinities is NaN, which is not at least epsilon either. */
  predicate Close(a: Ext, b: Ext) {
    match (a, b)
    case (Fin(x), Fin(y)) => -TIE_EPSILON < x - y < TIE_EPSILON
    case (PosInf, PosInf) => true
    case _ => false
  }

  predicate LessWithinTie(a: Candidate, b: Candidate) {
    if a.isClaimed != b.isClaimed then a.isClaimed
    else if a.distanceKm != b.distanceKm then Gt(b.distanceKm, a.distanceKm)
    else if a.reviewCount != b.reviewCount then a.reviewCount > b.reviewCount
    else a.id < b.id
  }

  predicate Before(x: Result, y: Result) {
    if !Close(x.score, y.score) then Gt(x.score, y.score) else LessWithinTie(x.c, y.c)
  }

  function TieBreak(): (Result, Result) -> bool {
    (x: Result, y: Result) => Before(x, y)
  }

  // ---- De-pin ----

  /** An established candidate that a new business with score `s` must yield to. */
  predicate Rival(s: Ext, r: Result, window: real) {
    !r.c.isNew && s.Fin? && (r.score.PosInf? || s.r - r.score.r < window)
  }

  /** The first rival at or after `j`, or the length when there is none. */
  function FirstRival(rs: seq<Result>, s: Ext, j: nat, window: real): (k: nat)
    requires j <= |rs|
    ensures j <= k <= |rs|
    ensures forall m :: j <= m < k ==> !Rival(s, rs[m], window)
    ensures k < |rs| ==> Rival(s, rs[k], window)
    decreases |rs| - j
  {
    if j == |rs| || Rival(s, rs[j], window) then j else FirstRival(rs, s, j + 1, window)
  }

  function Swap<T>(s: seq<T>, i: nat, j: nat): (r: seq<T>)
    requires i < |s| && j < |s|
    ensures |r| == |s| && r[i] == s[j] && r[j] == s[i]
    ensures forall k :: 0 <= k < |s| && k != i && k != j ==> r[k] == s[k]
  {
    s[i := s[j]][j := s[i]]
  }

  function DePinAt(rs: seq<Result>, i: nat, window: real): (out: seq<Result>)
    ensures |out| == |rs|
  {
    if i >= |rs| || rs[i].score.PosInf? || !rs[i].c.isNew then rs
    else
      var k := FirstRival(rs, rs[i].score, i + 1, window);
      if k == |rs| then rs else Swap(rs, i, k)
  }

  function DePinned(rs: seq<Result>, window: real): (out: seq<Result>)
    ensures |out| == |rs|
  {
    DePinAt(DePinAt(rs, 0, window), 1, window)
  }

  method DePin(results: array<Result>, window: real)
    modifies results
    ensures results[..] == DePinned(old(results[..]), window)
  {
    ghost var was := results[..];
    var i := 0;
    while i < DE_PIN_TOP_N && i < results.Length
      invariant 0 <= i <= DE_PIN_TOP_N && i <= results.Length
      invariant i == 0 ==> results[..] == was
      invariant i == 1 ==> results[..] == DePinAt(was, 0, window)
      invariant i == 2 ==> results[..] == DePinned(was, window)
    {
      YieldAt(results, i, window);
      i := i + 1;
    }
  }

  /** The body of the de-pin loop for one guarded position. */
  method YieldAt(results: array<Result>, i: nat, window: real)
    requires i < results.Length
    modifies results
    ensures results[..] == DePinAt(old(results[..]), i, window)
  {
    if results[i].score.PosInf? || !results[i].c.isNew {
      return;
    }
    ghost var was := results[..];
    var j := i + 1;
    while j < results.Length
      invariant i < j <= results.Length && results[..] == was
      invariant FirstRival(was, was[i].score, i + 1, window) == FirstRival(was, was[i].score, j, window)
    {
      if !results[j].c.isNew && (results[j].score.PosInf? || results[i].score.r - results[j].score.r < window) {
        results[i], results[j] := results[j], results[i];
        assert results[..] == Swap(was, i, j);
        return;
      }
      j := j + 1;
    }
  }

  // ---- The pipeline ----

  function Truncated(rs: seq<Result>, limit: int): seq<Result> {
    if 0 <= limit < |rs| then rs[..limit] else rs
  }

  /** The ranked results before truncation. */
  function Ranked(cs: seq<Candidate>, pin: Option<Candidate>, cfg: Config): seq<Result>
    requires AllDivisible(cs, cfg)
  {
    DePinned(Arranged(cs, pin, cfg), cfg.swapWindow)
  }

  /** The results after the tie-break, before the de-pin pass. */
  function Arranged(cs: seq<Candidate>, pin: Option<Candidate>, cfg: Config): seq<Result>
    requires AllDivisible(cs, cfg)
  {
    SliceStable(Pinned(SliceStable(Survivors(cs, cfg), ByScore()), pin), TieBreak())
  }

  datatype Outcome = Ok(results: seq<Result>) | Cancelled

  method Run(cancelled: bool, cs: seq<Candidate>, pin: Option<Candidate>, cfg: Config, limit: int)
    returns (out: Outcome)
    requires AllDivisible(cs, cfg)
    ensures out == if cancelled then Cancelled else Ok(Truncated(Ranked(cs, pin, cfg), limit))
  {
    if cancelled {
      return Cancelled;
    }
    var kept := HardFilter(cs, cfg);
    var results := ScoreAll(kept, cfg);
    StableSort(results, ByScore());
    results := ApplyPin(results, pin);
    StableSort(results, TieBreak());
    DePin(results, cfg.swapWindow);
    out := Ok(Truncated(results[..], limit));
  }
}
