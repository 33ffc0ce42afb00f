/** Candidates that rank in any given order of names, with one new business at any place but the top two. */
module FlatRanking {
  import opened Options
  import opened Seqs
  import opened Signals
  import opened Sorting
  import opened BlockMerge
  import opened BlockMergeLaws
  import opened Ranking
  import opened RankingLaws
  import opened OrderLaws

  /** A configuration that scores nothing but a claimed profile, and that with weight 0: every candidate scores 0, so
      that the tie-break keys alone rank. */
  function Flat(window: real): Config {
    Config([Claimed], Formulas(LiteralMode, Bayes(1.0, 0.0, false), CapMode, map[], 0.0, 1.0, 1.0,
                               OpenStatus(0.0, 0.0, 0.0, 0.0)),
           map["low_stakes_fast_nearby" := Archetype(map[], Soft)], 1.0, window,
           MathLib((x: real) => 1.0, (x: real) => 1.0))
  }

  lemma FlatLoads(window: real)
    ensures Loadable(Flat(window))
  {
    assert "low_stakes_fast_nearby" in Flat(window).archetypes;
  }

  /** A business at as many kilometres as its id, with 50 reviews, or new and without any. */
  function Line(id: nat, name: string, isNew: bool): Candidate {
    Candidate(id, name, "low_stakes_fast_nearby", Fin(id as real), None, None, if isNew then 0 else 50, 0, false, 0,
              isNew, None, false)
  }

  lemma LineScore(id: nat, name: string, isNew: bool, window: real)
    ensures Divisible(Flat(window), Line(id, name, isNew)) && Retrievable(Line(id, name, isNew))
    ensures Score(Line(id, name, isNew), Flat(window)) == 0.0
  {
    var c, cfg := Line(id, name, isNew), Flat(window);
    assert [Claimed][..0] == [];
    assert Sum([], c, cfg) == 0.0 && Term(Claimed, c, cfg) == 0.0;
  }

  /** One candidate for each name, with ascending ids; only the one at `newAt` is new. */
  function Lineup(names: seq<string>, newAt: nat): (cs: seq<Candidate>)
    ensures |cs| == |names|
    ensures forall i :: 0 <= i < |cs| ==> cs[i] == Line(i, names[i], i == newAt)
  {
    if names == [] then []
    else Lineup(Front(names), newAt) + [Line(|names| - 1, Last(names), |names| - 1 == newAt)]
  }

  lemma {:induction false} LineupKept(names: seq<string>, newAt: nat, window: real)
    ensures Kept(Lineup(names, newAt), Flat(window)) == Lineup(names, newAt)
  {
    if names != [] {
      LineupKept(Front(names), newAt, window);
      assert Front(Lineup(names, newAt)) == Lineup(Front(names), newAt);
    }
  }

  lemma LineupDivisible(names: seq<string>, newAt: nat, window: real)
    ensures AllDivisible(Lineup(names, newAt), Flat(window)) && DistinctIds(Lineup(names, newAt))
    ensures forall c :: c in Lineup(names, newAt) ==> Retrievable(c)
  {
    var cs := Lineup(names, newAt);
    forall i | 0 <= i < |cs| ensures Divisible(Flat(window), cs[i]) && Retrievable(cs[i]) {
      LineScore(i, names[i], i == newAt, window);
    }
  }

  lemma LineupSurvives(names: seq<string>, newAt: nat, window: real)
    ensures AllDivisible(Lineup(names, newAt), Flat(window))
    ensures var rs := Survivors(Lineup(names, newAt), Flat(window));
            |rs| == |names| && forall i :: 0 <= i < |rs| ==> rs[i] == Result(Line(i, names[i], i == newAt), Fin(0.0))
  {
    LineupDivisible(names, newAt, window);
    LineupKept(names, newAt, window);
    forall i | 0 <= i < |names| ensures Score(Line(i, names[i], i == newAt), Flat(window)) == 0.0 {
      LineScore(i, names[i], i == newAt, window);
    }
  }

  /** Results of one score in ascending order of the tie-break keys. */
  ghost predicate FlatOrder(rs: seq<Result>) {
    forall i, j :: 0 <= i < j < |rs| ==> rs[i].score == rs[j].score && LessWithinTie(rs[i].c, rs[j].c)
  }

  /** They are left as they are. */
  lemma FlatSorted(rs: seq<Result>)
    requires UniqueIds(rs) && FlatOrder(rs)
    ensures SliceStable(rs, ByScore()) == rs && SliceStable(rs, TieBreak()) == rs
  {
    FlatByScore(rs);
    FlatByTie(rs);
    BeforeIsTournament(rs);
    AnySortAgrees(rs, rs, TieBreak());
  }

  lemma FlatByScore(rs: seq<Result>)
    requires FlatOrder(rs)
    ensures SliceStable(rs, ByScore()) == rs
  {
    ScoreSortIsStable(rs);
    assert Rising(rs, ByScore());
    RisingIsSorted(rs, ByScore());
  }

  lemma FlatByTie(rs: seq<Result>)
    requires FlatOrder(rs)
    ensures Ordered(rs, TieBreak())
  {
  }

  lemma TopTwoStay(rs: seq<Result>, window: real)
    requires forall i :: 0 <= i < |rs| && i < 2 ==> !rs[i].c.isNew
    ensures DePinned(rs, window) == rs
  {
  }

  lemma LineupFlat(names: seq<string>, newAt: nat, rs: seq<Result>)
    requires |rs| == |names| && forall i :: 0 <= i < |rs| ==> rs[i] == Result(Line(i, names[i], i == newAt), Fin(0.0))
    ensures UniqueIds(rs) && FlatOrder(rs)
  {
    forall i, j | 0 <= i < j < |rs| ensures rs[i].score == rs[j].score && LessWithinTie(rs[i].c, rs[j].c) {
      LineBefore(i, names[i], i == newAt, j, names[j], j == newAt);
    }
  }

  lemma LineBefore(i: nat, a: string, x: bool, j: nat, b: string, y: bool)
    requires i < j
    ensures LessWithinTie(Line(i, a, x), Line(j, b, y))
  {
  }

  lemma RankedUnchanged(cs: seq<Candidate>, cfg: Config, rs: seq<Result>)
    requires AllDivisible(cs, cfg) && rs == Survivors(cs, cfg)
    requires SliceStable(rs, ByScore()) == rs && SliceStable(rs, TieBreak()) == rs && DePinned(rs, cfg.swapWindow) == rs
    ensures Ranked(cs, None, cfg) == rs
  {
  }

  /** The line-up is ranked as it stands. */
  lemma LineupRanked(names: seq<string>, newAt: nat, window: real)
    requires newAt >= 2
    ensures AllDivisible(Lineup(names, newAt), Flat(window))
    ensures Ranked(Lineup(names, newAt), None, Flat(window)) == Survivors(Lineup(names, newAt), Flat(window))
  {
    LineupSurvives(names, newAt, window);
    var rs := Survivors(Lineup(names, newAt), Flat(window));
    LineupFlat(names, newAt, rs);
    FlatSorted(rs);
    TopTwoStay(rs, window);
    RankedUnchanged(Lineup(names, newAt), Flat(window), rs);
  }
}
