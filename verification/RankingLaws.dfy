/** What the ranking pipeline guarantees, stage by stage and end to end. */
module RankingLaws {
  import opened Options
  import opened Seqs
  import opened Signals
  import opened Sorting
  import opened BlockMerge
  import opened BlockMergeLaws
  import opened Ranking

  ghost predicate DistinctIds(cs: seq<Candidate>) {
    forall i, j :: 0 <= i < j < |cs| ==> cs[i].id != cs[j].id
  }

  ghost predicate UniqueIds(rs: seq<Result>) {
    forall i, j :: 0 <= i < j < |rs| ==> rs[i].c.id != rs[j].c.id
  }

  // ---- When the tie-break comparator is an order ----

  /** Both neighbours of `mid` are within epsilon, the outer two are not, and the tie-break keys run against the
      scores. */
  predicate Inversion(hi: Result, mid: Result, lo: Result) {
    && Close(hi.score, mid.score) && Close(mid.score, lo.score)
    && !Close(hi.score, lo.score) && Gt(hi.score, lo.score)
    && LessWithinTie(lo.c, mid.c) && LessWithinTie(mid.c, hi.c)
  }

  ghost predicate NoInversion(rs: seq<Result>) {
    forall hi, mid, lo :: hi in rs && mid in rs && lo in rs ==> !Inversion(hi, mid, lo)
  }

  /** Being within epsilon chains on this list. */
  ghost predicate Clustered(rs: seq<Result>) {
    forall x, y, z :: x in rs && y in rs && z in rs && Close(x.score, y.score) && Close(y.score, z.score)
                      ==> Close(x.score, z.score)
  }

  lemma ClusteredHasNoInversion(rs: seq<Result>)
    requires Clustered(rs)
    ensures NoInversion(rs)
  {
  }

  lemma BeforeIsTournament(rs: seq<Result>)
    requires UniqueIds(rs)
    ensures Tournament(rs, TieBreak()) && NoDuplicates(rs)
  {
  }

  /** The comparator is transitive on the list exactly when the list holds no inversion. */
  lemma TransitiveIffNoInversion(rs: seq<Result>)
    requires UniqueIds(rs)
    ensures Transitive(rs, TieBreak()) <==> NoInversion(rs)
  {
  }

  lemma DifferentIds(rs: seq<Result>, x: Result, y: Result)
    requires UniqueIds(rs) && x in rs && y in rs && x != y
    ensures x.c.id != y.c.id
  {
  }

  /** The tie-break sort puts every result ahead of exactly those it beats, if and only if there is no inversion;
      and then every correct sort gives that same arrangement. */
  lemma TieBreakOrdersIffNoInversion(rs: seq<Result>)
    requires UniqueIds(rs)
    ensures Ordered(SliceStable(rs, TieBreak()), TieBreak()) <==> NoInversion(rs)
    ensures forall out :: (forall x :: x in rs <==> x in out) && Ordered(out, TieBreak())
                          ==> out == SliceStable(rs, TieBreak())
  {
    BeforeIsTournament(rs);
    TransitiveIffNoInversion(rs);
    SortOrdersIffTransitive(rs, TieBreak());
    forall out | (forall x :: x in rs <==> x in out) && Ordered(out, TieBreak())
      ensures out == SliceStable(rs, TieBreak())
    {
      AnySortAgrees(rs, out, TieBreak());
    }
  }

  /** No arrangement of these results puts each ahead of exactly those it beats. */
  ghost predicate Unorderable(rs: seq<Result>) {
    forall out :: (forall x :: x in rs <==> x in out) ==> !Ordered(out, TieBreak())
  }

  // ---- What each stage keeps ----

  lemma {:induction false} KeptUnique(cs: seq<Candidate>, cfg: Config)
    requires DistinctIds(cs)
    ensures DistinctIds(Kept(cs, cfg))
  {
    if cs != [] {
      KeptUnique(Front(cs), cfg);
      var k := Kept(Front(cs), cfg);
      forall i | 0 <= i < |k| ensures k[i].id != Last(cs).id {
        assert k[i] in k;
        assert k[i] in Front(cs);
      }
    }
  }

  lemma SurvivorsUnique(cs: seq<Candidate>, cfg: Config)
    requires AllDivisible(cs, cfg) && DistinctIds(cs)
    ensures UniqueIds(Survivors(cs, cfg))
  {
    KeptUnique(cs, cfg);
  }

  lemma SurvivorsMembers(cs: seq<Candidate>, cfg: Config, r: Result)
    requires AllDivisible(cs, cfg)
    ensures r in Survivors(cs, cfg) <==>
            r.c in cs && !Dropped(r.c, cfg) && Divisible(cfg, r.c) && r.score == Fin(Score(r.c, cfg))
  {
  }

  lemma {:induction false} WithoutIdUnique(rs: seq<Result>, id: nat)
    requires UniqueIds(rs)
    ensures UniqueIds(WithoutId(rs, id))
  {
    if rs != [] {
      WithoutIdUnique(Front(rs), id);
      var k := WithoutId(Front(rs), id);
      forall i | 0 <= i < |k| ensures k[i].c.id != Last(rs).c.id {
        assert k[i] in k;
        assert k[i] in Front(rs);
      }
    }
  }

  lemma PermutedUnique(rs: seq<Result>, out: seq<Result>)
    requires UniqueIds(rs) && multiset(rs) == multiset(out)
    ensures UniqueIds(out)
  {
    forall i, j | 0 <= i < j < |out| ensures out[i].c.id != out[j].c.id {
      assert out == out[..j] + [out[j]] + out[j + 1..];
      assert out[i] in out[..j];
      assert out[i] in multiset(rs) && out[j] in multiset(rs);
      if out[i] == out[j] {
        assert multiset(out)[out[i]] >= 2;
        OnceIfUnique(rs, out[i]);
      } else {
        DifferentIds(rs, out[i], out[j]);
      }
    }
  }

  lemma {:induction false} OnceIfUnique(rs: seq<Result>, x: Result)
    requires UniqueIds(rs)
    ensures multiset(rs)[x] <= 1
  {
    if rs != [] {
      assert rs == Front(rs) + [Last(rs)];
      OnceIfUnique(Front(rs), x);
    }
  }

  /** What enters the tie-break: the survivors without the pin's id, behind the pin. */
  function Entrants(cs: seq<Candidate>, pin: Option<Candidate>, cfg: Config): seq<Result>
    requires AllDivisible(cs, cfg)
  {
    Pinned(SliceStable(Survivors(cs, cfg), ByScore()), pin)
  }

  lemma EntrantsMembers(cs: seq<Candidate>, pin: Option<Candidate>, cfg: Config, r: Result)
    requires AllDivisible(cs, cfg)
    ensures r in Entrants(cs, pin, cfg) <==>
            (pin.Some? && r == Result(pin.value, PosInf))
            || (r in Survivors(cs, cfg) && (pin.Some? ==> r.c.id != pin.value.id))
  {
    SliceStablePermutes(Survivors(cs, cfg), ByScore());
  }

  lemma EntrantsUnique(cs: seq<Candidate>, pin: Option<Candidate>, cfg: Config)
    requires AllDivisible(cs, cfg) && DistinctIds(cs)
    ensures UniqueIds(Entrants(cs, pin, cfg))
  {
    var s := Survivors(cs, cfg);
    var t := SliceStable(s, ByScore());
    SurvivorsUnique(cs, cfg);
    SliceStablePermutes(s, ByScore());
    PermutedUnique(s, t);
    if pin.Some? {
      PinnedUnique(t, pin.value);
    }
  }

  lemma PinnedUnique(t: seq<Result>, pin: Candidate)
    requires UniqueIds(t)
    ensures UniqueIds(Pinned(t, Some(pin)))
  {
    WithoutIdUnique(t, pin.id);
    var w := WithoutId(t, pin.id);
    forall i | 0 <= i < |w| ensures w[i].c.id != pin.id {
      assert w[i] in w;
    }
  }

  lemma EntrantsNoInversion(cs: seq<Candidate>, pin: Option<Candidate>, cfg: Config)
    requires AllDivisible(cs, cfg) && NoInversion(Survivors(cs, cfg))
    ensures NoInversion(Entrants(cs, pin, cfg))
  {
    var e := Entrants(cs, pin, cfg);
    FiniteSurvivors(cs, cfg);
    forall hi, mid, lo | hi in e && mid in e && lo in e ensures !Inversion(hi, mid, lo) {
      EntrantsMembers(cs, pin, cfg, hi);
      EntrantsMembers(cs, pin, cfg, mid);
      EntrantsMembers(cs, pin, cfg, lo);
    }
  }

  lemma FiniteSurvivors(cs: seq<Candidate>, cfg: Config)
    requires AllDivisible(cs, cfg)
    ensures forall r :: r in Survivors(cs, cfg) ==> r.score.Fin?
  {
  }

  // ---- Nothing is lost or invented, and the pin stays in front ----

  lemma DePinPermutes(rs: seq<Result>, window: real)
    ensures multiset(DePinned(rs, window)) == multiset(rs)
  {
    DePinAtPermutes(rs, 0, window);
    DePinAtPermutes(DePinAt(rs, 0, window), 1, window);
  }

  lemma DePinAtPermutes(rs: seq<Result>, i: nat, window: real)
    ensures multiset(DePinAt(rs, i, window)) == multiset(rs)
  {
  }

  /** Nothing beats +Inf, so that the pin stays in front however the others compare. */
  lemma SortKeepsPinFirst(s: seq<Result>)
    requires s != [] && s[0].score.PosInf? && forall i :: 1 <= i < |s| ==> s[i].score.Fin?
    ensures |SliceStable(s, TieBreak())| > 0 && SliceStable(s, TieBreak())[0] == s[0]
  {
    forall x | x in s ensures !TieBreak()(x, s[0]) {
    }
    SliceStableKeepsFirst(s, TieBreak());
  }

  /** Before truncation the results are the survivors without the pin's id, each as often as it came in, and the pin
      exactly once, at the front with score +Inf. No assumption on scores or ids. */
  lemma RunConserves(cs: seq<Candidate>, pin: Option<Candidate>, cfg: Config)
    requires AllDivisible(cs, cfg)
    ensures var out := Ranked(cs, pin, cfg);
            match pin
            case None => multiset(out) == multiset(Survivors(cs, cfg))
            case Some(p) =>
              && multiset(out) == multiset(WithoutId(Survivors(cs, cfg), p.id)) + multiset{Result(p, PosInf)}
              && out[0] == Result(p, PosInf)
              && forall i :: 1 <= i < |out| ==> out[i].c.id != p.id && out[i].score.Fin?
  {
    var s := Survivors(cs, cfg);
    var t := SliceStable(s, ByScore());
    var e := Pinned(t, pin);
    var a := SliceStable(e, TieBreak());
    SliceStablePermutes(s, ByScore());
    SliceStablePermutes(e, TieBreak());
    DePinPermutes(a, cfg.swapWindow);
    if pin.Some? {
      FiniteSurvivors(cs, cfg);
      PinnedConserves(t, pin.value, cfg.swapWindow);
      WithoutIdPermuted(t, s, pin.value.id);
    }
  }

  lemma PinnedConserves(t: seq<Result>, p: Candidate, window: real)
    requires forall r :: r in t ==> r.score.Fin?
    ensures var out := DePinned(SliceStable(Pinned(t, Some(p)), TieBreak()), window);
            && multiset(out) == multiset(WithoutId(t, p.id)) + multiset{Result(p, PosInf)}
            && |out| > 0 && out[0] == Result(p, PosInf)
            && forall i :: 1 <= i < |out| ==> out[i].c.id != p.id && out[i].score.Fin?
  {
    var w := WithoutId(t, p.id);
    var e := Pinned(t, Some(p));
    var a := SliceStable(e, TieBreak());
    SliceStablePermutes(e, TieBreak());
    DePinPermutes(a, window);
    PinAhead(t, p);
    SortKeepsPinFirst(e);
    DePinKeepsPin(a, window);
    BehindFront(DePinned(a, window), w, Result(p, PosInf));
  }

  lemma PinAhead(t: seq<Result>, p: Candidate)
    requires forall r :: r in t ==> r.score.Fin?
    ensures var e := Pinned(t, Some(p));
            && |e| > 0 && e[0] == Result(p, PosInf) && (forall i :: 1 <= i < |e| ==> e[i].score.Fin?)
            && multiset(e) == multiset(WithoutId(t, p.id)) + multiset{Result(p, PosInf)}
  {
  }

  lemma DePinKeepsPin(rs: seq<Result>, window: real)
    requires rs != [] && rs[0].score.PosInf?
    ensures DePinned(rs, window) != [] && DePinned(rs, window)[0] == rs[0]
  {
  }

  lemma BehindFront(out: seq<Result>, w: seq<Result>, front: Result)
    requires |out| > 0 && out[0] == front && multiset(out) == multiset(w) + multiset{front}
    ensures forall i :: 1 <= i < |out| ==> out[i] in w
  {
    assert out == [front] + out[1..];
    assert multiset(out) == multiset{front} + multiset(out[1..]);
    assert multiset(out[1..]) == multiset(out) - multiset{front} == multiset(w);
    forall i | 1 <= i < |out| ensures out[i] in w {
      assert out[1..][i - 1] in multiset(out[1..]);
    }
  }

  lemma SnocCounts(rs: seq<Result>, r: Result, x: Result)
    ensures multiset(rs + [r])[x] == multiset(rs)[x] + if r == x then 1 else 0
  {
  }

  lemma {:induction false} WithoutIdCounts(rs: seq<Result>, id: nat, x: Result)
    ensures multiset(WithoutId(rs, id))[x] == if x.c.id != id then multiset(rs)[x] else 0
  {
    if rs != [] {
      WithoutIdCounts(Front(rs), id, x);
      assert rs == Front(rs) + [Last(rs)];
      SnocCounts(Front(rs), Last(rs), x);
      SnocCounts(WithoutId(Front(rs), id), Last(rs), x);
    }
  }

  lemma WithoutIdPermuted(rs: seq<Result>, ts: seq<Result>, id: nat)
    requires multiset(rs) == multiset(ts)
    ensures multiset(WithoutId(rs, id)) == multiset(WithoutId(ts, id))
  {
    forall x ensures multiset(WithoutId(rs, id))[x] == multiset(WithoutId(ts, id))[x] {
      WithoutIdCounts(rs, id, x);
      WithoutIdCounts(ts, id, x);
    }
  }

  // ---- De-pin ----

  /** A new business at position `i`, other than the pin, has no later rival. */
  ghost predicate Guarded(rs: seq<Result>, i: nat, window: real) {
    i < |rs| && rs[i].c.isNew && rs[i].score.Fin? ==>
      forall j :: i < j < |rs| ==> !Rival(rs[i].score, rs[j], window)
  }

  /** After the pass both guarded positions hold, for every list, and a +Inf result in front has not moved. */
  lemma DePinGuardsTopTwo(rs: seq<Result>, window: real)
    ensures Guarded(DePinned(rs, window), 0, window) && Guarded(DePinned(rs, window), 1, window)
    ensures rs != [] && rs[0].score.PosInf? ==> DePinned(rs, window)[0] == rs[0]
  {
  }

  /** The pass never moves an established result behind one that does not score more, or that is new. */
  lemma DePinAtKeepsAhead(rs: seq<Result>, i: nat, window: real, p: nat, q: nat) returns (p': nat, q': nat)
    requires p < q < |rs| && !rs[p].c.isNew
    requires rs[p].score.Fin? && rs[q].score.Fin? && (rs[p].score.r >= rs[q].score.r || rs[q].c.isNew)
    ensures p' < q' < |rs| && DePinAt(rs, i, window)[p'] == rs[p] && DePinAt(rs, i, window)[q'] == rs[q]
  {
    p', q' := p, q;
    if i < |rs| && !rs[i].score.PosInf? && rs[i].c.isNew {
      var k := FirstRival(rs, rs[i].score, i + 1, window);
      if k < |rs| {
        assert k == q && i < p ==> Rival(rs[i].score, rs[p], window);
        p' := if p == k then i else p;
        q' := if q == k then i else if q == i then k else q;
      }
    }
  }

  // ---- A better candidate is never behind ----

  /** The tie-break keys other than the id do not separate the two. */
  predicate SameKeys(a: Candidate, b: Candidate) {
    a.isClaimed == b.isClaimed && a.distanceKm == b.distanceKm && a.reviewCount == b.reviewCount
  }

  lemma BetterIsBefore(a: Candidate, b: Candidate, cfg: Config)
    requires Divisible(cfg, a) && Divisible(cfg, b) && Sensible(cfg) && cfg.formulas.rating == LiteralMode
    requires AtLeastAsGood(a, b)
    requires SameKeys(a, b) && Close(Fin(Score(a, cfg)), Fin(Score(b, cfg))) ==> a.id < b.id
    ensures Score(a, cfg) >= Score(b, cfg)
    ensures Before(Result(a, Fin(Score(a, cfg))), Result(b, Fin(Score(b, cfg))))
  {
    BetterScoresNoLess(a, b, cfg);
  }

  /** With literal ratings: if `a` is established and at least as good as `b` on every raw input, then wherever `b` is
      returned, `a` is returned ahead of it, through filter, sort, pin, tie-break, de-pin swaps and truncation. The one
      exception is a tie on score, claimed flag, distance and reviews, which the ids decide. */
  lemma BetterNeverBehind(cs: seq<Candidate>, pin: Option<Candidate>, cfg: Config, limit: int,
                          a: Candidate, b: Candidate)
    requires AllDivisible(cs, cfg) && DistinctIds(cs) && NoInversion(Survivors(cs, cfg))
    requires Sensible(cfg) && cfg.formulas.rating == LiteralMode
    requires a in cs && b in cs && AtLeastAsGood(a, b)
    requires SameKeys(a, b) && Close(Fin(Score(a, cfg)), Fin(Score(b, cfg))) ==> a.id < b.id
    requires pin.Some? ==> pin.value.id != b.id
    ensures NeverBehind(Truncated(Ranked(cs, pin, cfg), limit), a.id, b.id)
  {
    forall j | 0 <= j < |Ranked(cs, pin, cfg)| && Ranked(cs, pin, cfg)[j].c.id == b.id
      ensures Listed(Ranked(cs, pin, cfg), a.id, j)
    {
      BetterAhead(cs, pin, cfg, a, b, j);
    }
    CutNeverBehind(Ranked(cs, pin, cfg), limit, a.id, b.id);
  }

  /** The id is listed before position `end`. */
  ghost predicate Listed(rs: seq<Result>, id: nat, end: nat) {
    exists i :: 0 <= i < end && i < |rs| && rs[i].c.id == id
  }

  lemma CutNeverBehind(rs: seq<Result>, limit: int, first: nat, second: nat)
    requires NeverBehind(rs, first, second)
    ensures NeverBehind(Truncated(rs, limit), first, second)
  {
    var cut := Truncated(rs, limit);
    forall j | 0 <= j < |cut| && cut[j].c.id == second ensures Listed(cut, first, j) {
      assert rs[j].c.id == second;
      var i :| 0 <= i < j && rs[i].c.id == first;
      assert cut[i] == rs[i];
    }
  }

  lemma BetterAhead(cs: seq<Candidate>, pin: Option<Candidate>, cfg: Config, a: Candidate, b: Candidate, j: nat)
    requires AllDivisible(cs, cfg) && DistinctIds(cs) && NoInversion(Survivors(cs, cfg))
    requires Sensible(cfg) && cfg.formulas.rating == LiteralMode
    requires a in cs && b in cs && AtLeastAsGood(a, b)
    requires SameKeys(a, b) && Close(Fin(Score(a, cfg)), Fin(Score(b, cfg))) ==> a.id < b.id
    requires pin.Some? ==> pin.value.id != b.id
    requires j < |Ranked(cs, pin, cfg)| && Ranked(cs, pin, cfg)[j].c.id == b.id
    ensures Listed(Ranked(cs, pin, cfg), a.id, j)
  {
    if pin.Some? && pin.value.id == a.id {
      RunConserves(cs, pin, cfg);
    } else {
      var p, q := BetterPlaces(cs, pin, cfg, a, b, j);
    }
  }

  /** Wherever the second id is listed, the first is listed before it. */
  ghost predicate NeverBehind(rs: seq<Result>, first: nat, second: nat) {
    forall j :: 0 <= j < |rs| && rs[j].c.id == second ==> Listed(rs, first, j)
  }

  lemma BetterPlaces(cs: seq<Candidate>, pin: Option<Candidate>, cfg: Config, a: Candidate, b: Candidate, j: nat)
    returns (p: nat, q: nat)
    requires AllDivisible(cs, cfg) && DistinctIds(cs) && NoInversion(Survivors(cs, cfg))
    requires Sensible(cfg) && cfg.formulas.rating == LiteralMode
    requires a in cs && b in cs && AtLeastAsGood(a, b)
    requires SameKeys(a, b) && Close(Fin(Score(a, cfg)), Fin(Score(b, cfg))) ==> a.id < b.id
    requires pin.Some? ==> pin.value.id != b.id && pin.value.id != a.id
    requires j < |Ranked(cs, pin, cfg)| && Ranked(cs, pin, cfg)[j].c.id == b.id
    ensures p < q == j && Ranked(cs, pin, cfg)[p].c.id == a.id
  {
    RankedMember(cs, pin, cfg, j);
    var r := Ranked(cs, pin, cfg)[j];
    EntrantsMembers(cs, pin, cfg, r);
    SurvivorsMembers(cs, cfg, r);
    SameCandidate(cs, r.c, b);
    BetterIsBefore(a, b, cfg);
    p, q := BeatenBehind(cs, pin, cfg, a, b, j);
  }

  /** An established survivor is ranked ahead of one that it beats and that does not score more, or is new. */
  lemma BeatenBehind(cs: seq<Candidate>, pin: Option<Candidate>, cfg: Config, a: Candidate, b: Candidate, j: nat)
    returns (p: nat, q: nat)
    requires AllDivisible(cs, cfg) && DistinctIds(cs) && NoInversion(Survivors(cs, cfg))
    requires a in cs && b in cs && !Dropped(a, cfg) && !a.isNew && (Score(a, cfg) >= Score(b, cfg) || b.isNew)
    requires Before(Result(a, Fin(Score(a, cfg))), Result(b, Fin(Score(b, cfg))))
    requires pin.Some? ==> pin.value.id != b.id && pin.value.id != a.id
    requires j < |Ranked(cs, pin, cfg)| && Ranked(cs, pin, cfg)[j].c.id == b.id
    ensures p < q == j && Ranked(cs, pin, cfg)[p].c.id == a.id
  {
    var e := Entrants(cs, pin, cfg);
    var arr := Arranged(cs, pin, cfg);
    BothEnter(cs, pin, cfg, a, b, j);
    EntrantsUnique(cs, pin, cfg);
    EntrantsNoInversion(cs, pin, cfg);
    TieBreakOrdersIffNoInversion(e);
    SliceStablePermutes(e, TieBreak());
    PermutedUnique(e, arr);
    p, q := OrderedPair(arr, Result(a, Fin(Score(a, cfg))), Result(b, Fin(Score(b, cfg))));
    p, q := DePinKeepsAhead(arr, cfg.swapWindow, p, q, j);
  }

  /** Both candidates enter the tie-break with their own scores. */
  lemma BothEnter(cs: seq<Candidate>, pin: Option<Candidate>, cfg: Config, a: Candidate, b: Candidate, j: nat)
    requires AllDivisible(cs, cfg) && DistinctIds(cs) && a in cs && b in cs && !Dropped(a, cfg)
    requires pin.Some? ==> pin.value.id != b.id && pin.value.id != a.id
    requires j < |Ranked(cs, pin, cfg)| && Ranked(cs, pin, cfg)[j].c.id == b.id
    ensures Result(a, Fin(Score(a, cfg))) in Entrants(cs, pin, cfg)
    ensures Result(b, Fin(Score(b, cfg))) in Entrants(cs, pin, cfg)
    ensures Ranked(cs, pin, cfg)[j] == Result(b, Fin(Score(b, cfg)))
  {
    var r, ra := Ranked(cs, pin, cfg)[j], Result(a, Fin(Score(a, cfg)));
    RankedMember(cs, pin, cfg, j);
    EntrantsMembers(cs, pin, cfg, r);
    EntrantsMembers(cs, pin, cfg, ra);
    SurvivorsMembers(cs, cfg, r);
    SurvivorsMembers(cs, cfg, ra);
    SameCandidate(cs, r.c, b);
  }

  lemma RankedMember(cs: seq<Candidate>, pin: Option<Candidate>, cfg: Config, j: nat)
    requires AllDivisible(cs, cfg) && j < |Ranked(cs, pin, cfg)|
    ensures Ranked(cs, pin, cfg)[j] in Entrants(cs, pin, cfg)
  {
    var out := Ranked(cs, pin, cfg);
    SliceStablePermutes(Entrants(cs, pin, cfg), TieBreak());
    DePinPermutes(Arranged(cs, pin, cfg), cfg.swapWindow);
    assert out[j] in multiset(out);
    assert out[j] in Arranged(cs, pin, cfg) <==> out[j] in multiset(Arranged(cs, pin, cfg));
  }

  lemma OrderedPair(rs: seq<Result>, x: Result, y: Result) returns (p: nat, q: nat)
    requires UniqueIds(rs) && Ordered(rs, TieBreak()) && x in rs && y in rs && Before(x, y)
    ensures p < q < |rs| && rs[p] == x && rs[q] == y
  {
    BeforeIsTournament(rs);
    p :| 0 <= p < |rs| && rs[p] == x;
    q :| 0 <= q < |rs| && rs[q] == y;
    OrderedPlace(rs, TieBreak(), p, q);
  }

  /** So does the whole pass; `j` is where the other one ends up. */
  lemma DePinKeepsAhead(rs: seq<Result>, window: real, p: nat, q: nat, j: nat) returns (p': nat, q': nat)
    requires UniqueIds(rs) && p < q < |rs| && !rs[p].c.isNew
    requires rs[p].score.Fin? && rs[q].score.Fin? && (rs[p].score.r >= rs[q].score.r || rs[q].c.isNew)
    requires j < |DePinned(rs, window)| && DePinned(rs, window)[j] == rs[q]
    ensures p' < q' == j && DePinned(rs, window)[p'] == rs[p]
  {
    DePinPermutes(rs, window);
    PermutedUnique(rs, DePinned(rs, window));
    p', q' := DePinAtKeepsAhead(rs, 0, window, p, q);
    p', q' := DePinAtKeepsAhead(DePinAt(rs, 0, window), 1, window, p', q');
    SamePlace(DePinned(rs, window), q', j);
  }

  lemma SamePlace(rs: seq<Result>, q: nat, j: nat)
    requires UniqueIds(rs) && q < |rs| && j < |rs| && rs[q] == rs[j]
    ensures q == j
  {
  }

  lemma SameCandidate(cs: seq<Candidate>, x: Candidate, y: Candidate)
    requires DistinctIds(cs) && x in cs && y in cs && x.id == y.id
    ensures x == y
  {
  }
}
