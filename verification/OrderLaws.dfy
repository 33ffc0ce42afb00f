/** When the order in which the candidates come in matters to the ranking, and when it does not. */
module OrderLaws {
  import opened Options
  import opened Seqs
  import opened Signals
  import opened Sorting
  import opened BlockMerge
  import opened BlockMergeLaws
  import opened Ranking
  import opened RankingLaws

  // ---- Where it does not matter ----

  /** Whatever order the candidates come in and whatever algorithm arranges them for the tie-break, an arrangement that
      puts each ahead of exactly those it beats gives the same ranking. */
  lemma AnyArrangementGivesRanked(cs: seq<Candidate>, cs': seq<Candidate>, pin: Option<Candidate>, cfg: Config,
                                  out: seq<Result>)
    requires AllDivisible(cs, cfg) && DistinctIds(cs)
    requires multiset(cs) == multiset(cs') && AllDivisible(cs', cfg)
    requires (forall r :: r in out <==> r in Entrants(cs', pin, cfg)) && Ordered(out, TieBreak())
    ensures DePinned(out, cfg.swapWindow) == Ranked(cs, pin, cfg)
  {
    forall r ensures r in Entrants(cs, pin, cfg) <==> r in out {
      SameEntrants(cs, cs', pin, cfg, r);
    }
    EntrantsUnique(cs, pin, cfg);
    BeforeIsTournament(Entrants(cs, pin, cfg));
    AnySortAgrees(Entrants(cs, pin, cfg), out, TieBreak());
  }

  lemma SameEntrants(cs: seq<Candidate>, cs': seq<Candidate>, pin: Option<Candidate>, cfg: Config, r: Result)
    requires AllDivisible(cs, cfg) && AllDivisible(cs', cfg) && multiset(cs) == multiset(cs')
    ensures r in Entrants(cs, pin, cfg) <==> r in Entrants(cs', pin, cfg)
  {
    assert r.c in cs <==> r.c in multiset(cs);
    assert r.c in cs' <==> r.c in multiset(cs');
    EntrantsMembers(cs, pin, cfg, r);
    EntrantsMembers(cs', pin, cfg, r);
    SurvivorsMembers(cs, cfg, r);
    SurvivorsMembers(cs', cfg, r);
  }

  /** Two results of equal score and different ids can be inserted into a block in either order, whatever is already
      there, even where the comparator is no order. */
  lemma {:induction false} EqualScoresCommute(s: seq<Result>, x: Result, y: Result)
    requires x.score == y.score && LessWithinTie(y.c, x.c)
    ensures Insert(Insert(s, x, TieBreak()), y, TieBreak()) == Insert(Insert(s, y, TieBreak()), x, TieBreak())
    decreases |s|
  {
    var b := TieBreak();
    assert b(y, x) && !b(x, y);
    if s == [] {
      assert Front([x]) == [] && Front([y]) == [];
    } else if b(x, Last(s)) {
      YieldsToo(x, y, Last(s));
      EqualScoresCommute(Front(s), x, y);
    } else {
      assert Front(s + [x]) == s;
      if b(y, Last(s)) {
        var t := Insert(Front(s), y, b);
        assert Front(t + [Last(s)]) == t;
      } else {
        assert Front(s + [y]) == s;
      }
    }
  }

  lemma YieldsToo(x: Result, y: Result, e: Result)
    requires x.score == y.score && LessWithinTie(y.c, x.c) && Before(x, e)
    ensures Before(y, e)
  {
  }

  /** Scores never rise from left to right. */
  ghost predicate Descending(rs: seq<Result>) {
    forall i, j :: 0 <= i < j < |rs| ==> !Gt(rs[j].score, rs[i].score)
  }

  lemma {:induction false} ScoreInsertDescends(s: seq<Result>, x: Result)
    requires Descending(s)
    ensures Descending(Insert(s, x, ByScore()))
  {
    if s != [] && ByScore()(x, Last(s)) {
      ScoreInsertDescends(Front(s), x);
      InsertPermutes(Front(s), x, ByScore());
      var t := Insert(Front(s), x, ByScore());
      forall i | 0 <= i < |t| ensures !Gt(Last(s).score, t[i].score) {
        assert t[i] in multiset(t);
        assert t[i] == x || t[i] in Front(s);
      }
    }
  }

  lemma {:induction false} ScoreSortDescends(s: seq<Result>)
    ensures Descending(InsertionSort(s, ByScore()))
  {
    if s != [] {
      ScoreSortDescends(Front(s));
      ScoreInsertDescends(InsertionSort(Front(s), ByScore()), Last(s));
    }
  }

  lemma FrontLast(s: seq<Result>, x: Result)
    ensures Front(s + [x]) == s && Last(s + [x]) == x
  {
  }

  lemma MovedEnds(rs: seq<Result>, k: nat)
    requires k < |rs| - 1
    ensures Front(rs)[k] == rs[k]
    ensures Front(rs[..k] + rs[k + 1..] + [rs[k]]) == Front(rs)[..k] + Front(rs)[k + 1..] + [Last(rs)]
  {
  }

  /** A result followed only by results of its own score may as well come last. */
  lemma {:induction false} MoveToEnd(rs: seq<Result>, k: nat)
    requires k < |rs| && UniqueIds(rs) && forall i :: k <= i < |rs| ==> rs[i].score == rs[k].score
    ensures InsertionSort(rs, TieBreak()) == InsertionSort(rs[..k] + rs[k + 1..] + [rs[k]], TieBreak())
    decreases |rs|
  {
    var moved := rs[..k] + rs[k + 1..] + [rs[k]];
    if k == |rs| - 1 {
      assert moved == rs;
    } else {
      var x, y := rs[k], Last(rs);
      var f := Front(rs);
      var rest := f[..k] + f[k + 1..];
      MoveToEnd(f, k);
      MovedEnds(rs, k);
      FrontLast(rest, x);
      FrontLast(rest, y);
      var s := InsertionSort(rest, TieBreak());
      assert InsertionSort(rs, TieBreak()) == Insert(Insert(s, x, TieBreak()), y, TieBreak());
      assert InsertionSort(moved, TieBreak()) == Insert(Insert(s, y, TieBreak()), x, TieBreak());
      assert rs[k].c.id != rs[|rs| - 1].c.id;
      if LessWithinTie(y.c, x.c) {
        EqualScoresCommute(s, x, y);
      } else {
        EqualScoresCommute(s, y, x);
      }
    }
  }

  lemma WithoutOne(ts: seq<Result>, k: nat)
    requires k < |ts| && Descending(ts) && UniqueIds(ts)
    ensures Descending(ts[..k] + ts[k + 1..]) && UniqueIds(ts[..k] + ts[k + 1..])
    ensures multiset(ts[..k] + ts[k + 1..]) == multiset(ts) - multiset{ts[k]}
  {
    var rest := ts[..k] + ts[k + 1..];
    forall i, j | 0 <= i < j < |rest|
      ensures !Gt(rest[j].score, rest[i].score) && rest[i].c.id != rest[j].c.id
    {
      var i', j' := if i < k then i else i + 1, if j < k then j else j + 1;
      assert rest[i] == ts[i'] && rest[j] == ts[j'];
    }
    WithoutAt(ts, k);
  }

  lemma WithoutLast(rs: seq<Result>)
    requires rs != [] && Descending(rs) && UniqueIds(rs)
    ensures Descending(Front(rs)) && UniqueIds(Front(rs)) && multiset(Front(rs)) == multiset(rs) - multiset{Last(rs)}
  {
    assert rs == Front(rs) + [Last(rs)];
  }

  lemma LeastScoreFrom(ts: seq<Result>, k: nat)
    requires k < |ts| && Descending(ts) && forall r :: r in ts ==> !Gt(ts[k].score, r.score)
    ensures forall i :: k <= i < |ts| ==> ts[i].score == ts[k].score
  {
  }

  /** Two lists of the same results, both sorted by score, make the same block. */
  lemma {:induction false} EqualBlocksSortAlike(rs: seq<Result>, ts: seq<Result>)
    requires Descending(rs) && Descending(ts) && UniqueIds(rs) && UniqueIds(ts)
    requires multiset(rs) == multiset(ts)
    ensures InsertionSort(rs, TieBreak()) == InsertionSort(ts, TieBreak())
    decreases |rs|
  {
    if rs == [] {
      assert |ts| == |multiset(ts)| == 0;
    } else {
      var x := Last(rs);
      assert x in multiset(ts) by {
        assert x in rs;
      }
      var k :| 0 <= k < |ts| && ts[k] == x;
      forall r | r in ts ensures !Gt(x.score, r.score) {
        assert r in multiset(rs);
      }
      LeastScoreFrom(ts, k);
      MoveToEnd(ts, k);
      WithoutOne(ts, k);
      WithoutLast(rs);
      var rest := ts[..k] + ts[k + 1..];
      EqualBlocksSortAlike(Front(rs), rest);
      assert Front(rest + [x]) == rest && Last(rest + [x]) == x;
    }
  }

  /** The score comparator is a strict weak order, so that its sort is the stable insertion sort for any list. */
  lemma ScoreSortIsStable(s: seq<Result>)
    ensures SliceStable(s, ByScore()) == InsertionSort(s, ByScore())
  {
    assert StrictWeak(s, ByScore());
    SliceStableIsInsertionSort(s, ByScore());
  }

  lemma SameEntrantCounts(cs: seq<Candidate>, cs': seq<Candidate>, pin: Option<Candidate>, cfg: Config)
    requires AllDivisible(cs, cfg) && AllDivisible(cs', cfg) && DistinctIds(cs) && DistinctIds(cs')
    requires multiset(cs) == multiset(cs')
    ensures multiset(Entrants(cs, pin, cfg)) == multiset(Entrants(cs', pin, cfg))
    ensures |Entrants(cs, pin, cfg)| == |Entrants(cs', pin, cfg)|
  {
    var e, e' := Entrants(cs, pin, cfg), Entrants(cs', pin, cfg);
    EntrantsUnique(cs, pin, cfg);
    EntrantsUnique(cs', pin, cfg);
    forall r ensures multiset(e)[r] == multiset(e')[r] {
      SameEntrants(cs, cs', pin, cfg, r);
      OnceIfUnique(e, r);
      OnceIfUnique(e', r);
      assert r in e <==> r in multiset(e);
      assert r in e' <==> r in multiset(e');
    }
    assert |e| == |multiset(e)| && |e'| == |multiset(e')|;
  }

  /** The ranking does not depend on the candidates' order when at most 20 results enter the tie-break, whatever the
      scores: sorting by score leaves only equal scores in input order, and in one block those commute. Nor does it
      depend on it, for any number of results, when the scores hold no inversion. */
  lemma RunIgnoresCandidateOrder(cs: seq<Candidate>, cs': seq<Candidate>, pin: Option<Candidate>, cfg: Config)
    requires AllDivisible(cs, cfg) && AllDivisible(cs', cfg) && DistinctIds(cs) && DistinctIds(cs')
    requires multiset(cs) == multiset(cs')
    requires |Entrants(cs, pin, cfg)| <= BLOCK || NoInversion(Survivors(cs, cfg))
    ensures Ranked(cs, pin, cfg) == Ranked(cs', pin, cfg)
  {
    if |Entrants(cs, pin, cfg)| <= BLOCK {
      OneBlockIgnoresOrder(cs, cs', pin, cfg);
    } else {
      NoInversionIgnoresOrder(cs, cs', pin, cfg);
    }
  }

  lemma OneBlockIgnoresOrder(cs: seq<Candidate>, cs': seq<Candidate>, pin: Option<Candidate>, cfg: Config)
    requires AllDivisible(cs, cfg) && AllDivisible(cs', cfg) && DistinctIds(cs) && DistinctIds(cs')
    requires multiset(cs) == multiset(cs') && |Entrants(cs, pin, cfg)| <= BLOCK
    ensures Ranked(cs, pin, cfg) == Ranked(cs', pin, cfg)
  {
    SameEntrantCounts(cs, cs', pin, cfg);
    OneBlock(Entrants(cs, pin, cfg), TieBreak());
    OneBlock(Entrants(cs', pin, cfg), TieBreak());
    EntrantsUnique(cs, pin, cfg);
    EntrantsUnique(cs', pin, cfg);
    EntrantsDescend(cs, pin, cfg);
    EntrantsDescend(cs', pin, cfg);
    EqualBlocksSortAlike(Entrants(cs, pin, cfg), Entrants(cs', pin, cfg));
  }

  lemma NoInversionIgnoresOrder(cs: seq<Candidate>, cs': seq<Candidate>, pin: Option<Candidate>, cfg: Config)
    requires AllDivisible(cs, cfg) && AllDivisible(cs', cfg) && DistinctIds(cs) && DistinctIds(cs')
    requires multiset(cs) == multiset(cs') && NoInversion(Survivors(cs, cfg))
    ensures Ranked(cs, pin, cfg) == Ranked(cs', pin, cfg)
  {
    var e' := Entrants(cs', pin, cfg);
    EntrantsNoInversion(cs, pin, cfg);
    forall r ensures r in Entrants(cs, pin, cfg) <==> r in e' {
      SameEntrants(cs, cs', pin, cfg, r);
    }
    EntrantsUnique(cs', pin, cfg);
    TieBreakOrdersIffNoInversion(e');
    SliceStablePermutes(e', TieBreak());
    AnyArrangementGivesRanked(cs, cs', pin, cfg, SliceStable(e', TieBreak()));
  }

  lemma {:induction false} WithoutIdDescends(rs: seq<Result>, id: nat)
    requires Descending(rs)
    ensures Descending(WithoutId(rs, id))
  {
    if rs != [] {
      WithoutIdDescends(Front(rs), id);
      var k := WithoutId(Front(rs), id);
      forall i | 0 <= i < |k| ensures !Gt(Last(rs).score, k[i].score) {
        assert k[i] in k;
        assert k[i] in Front(rs);
      }
    }
  }

  lemma EntrantsDescend(cs: seq<Candidate>, pin: Option<Candidate>, cfg: Config)
    requires AllDivisible(cs, cfg)
    ensures Descending(Entrants(cs, pin, cfg))
  {
    var t := SliceStable(Survivors(cs, cfg), ByScore());
    ScoreSortIsStable(Survivors(cs, cfg));
    ScoreSortDescends(Survivors(cs, cfg));
    if pin.Some? {
      WithoutIdDescends(t, pin.value.id);
      InfinityFirstDescends(WithoutId(t, pin.value.id), Result(pin.value, PosInf));
    }
  }

  lemma InfinityFirstDescends(rs: seq<Result>, r: Result)
    requires Descending(rs) && r.score.PosInf?
    ensures Descending([r] + rs)
  {
  }
}
