/** The search use-case: intent, retrieval, the categorical pin guard, ranking, and one result per name. */
module Search {
  import opened Options
  import opened Seqs
  import opened Signals
  import opened Ranking
  import opened RankingLaws
  import opened FlatRanking
  import opened Intent
  import opened IntentRules

  const CANDIDATE_LIMIT := 150
  const RESULT_LIMIT := 15

  // ---- One result per normalized name ----

  function KeyOf(r: Result, key: string -> string): string {
    key(r.c.name)
  }

  /** The normalized names that occur. */
  function KeySet(rs: seq<Result>, key: string -> string): set<string> {
    if rs == [] then {} else KeySet(Front(rs), key) + {KeyOf(Last(rs), key)}
  }

  /** The first result of each name, in rank order. */
  function FirstPerName(rs: seq<Result>, key: string -> string): seq<Result> {
    if rs == [] then []
    else if KeyOf(Last(rs), key) in KeySet(Front(rs), key) then FirstPerName(Front(rs), key)
    else FirstPerName(Front(rs), key) + [Last(rs)]
  }

  /** With limit 0 the length test never fires, so nothing is cut off. */
  function Deduped(rs: seq<Result>, key: string -> string, limit: nat): seq<Result> {
    if limit == 0 then FirstPerName(rs, key) else Take(FirstPerName(rs, key), limit)
  }

  lemma {:induction false} FirstPerNamePrefix(rs: seq<Result>, i: nat, key: string -> string)
    requires i <= |rs|
    ensures FirstPerName(rs[..i], key) <= FirstPerName(rs, key)
    decreases |rs|
  {
    if i < |rs| {
      assert Front(rs)[..i] == rs[..i];
      FirstPerNamePrefix(Front(rs), i, key);
    } else {
      assert rs[..i] == rs;
    }
  }

  method DedupeByName(rs: seq<Result>, key: string -> string, limit: nat) returns (out: seq<Result>)
    ensures out == Deduped(rs, key, limit)
  {
    var seen: set<string> := {};
    out := [];
    for i := 0 to |rs|
      invariant seen == KeySet(rs[..i], key) && out == FirstPerName(rs[..i], key)
      invariant limit > 0 ==> |out| < limit
    {
      assert Front(rs[..i + 1]) == rs[..i];
      var name := key(rs[i].c.name);
      if name in seen {
        continue;
      }
      seen := seen + {name};
      out := out + [rs[i]];
      if |out| == limit {
        FirstPerNamePrefix(rs, i + 1, key);
        return;
      }
    }
    assert rs[..|rs|] == rs;
  }

  // ---- What deduplication keeps ----

  lemma KeySetSnoc(rs: seq<Result>, r: Result, key: string -> string)
    ensures KeySet(rs + [r], key) == KeySet(rs, key) + {KeyOf(r, key)}
  {
  }

  lemma FirstPerNameSnoc(rs: seq<Result>, key: string -> string)
    requires rs != []
    ensures var f, name := FirstPerName(Front(rs), key), KeyOf(Last(rs), key);
            && FirstPerName(rs, key) == (if name in KeySet(Front(rs), key) then f else f + [Last(rs)])
            && KeySet(rs, key) == KeySet(Front(rs), key) + {name}
  {
  }

  /** There are as many results as names, and the names are still all there. */
  lemma {:induction false} OnePerName(rs: seq<Result>, key: string -> string)
    ensures |FirstPerName(rs, key)| == |KeySet(rs, key)|
    ensures KeySet(FirstPerName(rs, key), key) == KeySet(rs, key)
  {
    if rs != [] {
      var f, k, name := FirstPerName(Front(rs), key), KeySet(Front(rs), key), KeyOf(Last(rs), key);
      OnePerName(Front(rs), key);
      FirstPerNameSnoc(rs, key);
      KeySetSnoc(f, Last(rs), key);
      assert name in k ==> k + {name} == k;
    }
  }

  lemma {:induction false} KeySetMembers(rs: seq<Result>, key: string -> string, name: string)
    ensures name in KeySet(rs, key) <==> exists i :: 0 <= i < |rs| && KeyOf(rs[i], key) == name
  {
    if rs != [] {
      KeySetMembers(Front(rs), key, name);
      assert forall i :: 0 <= i < |rs| - 1 ==> Front(rs)[i] == rs[i];
    }
  }

  /** The positions of the kept results. */
  function Places(rs: seq<Result>, key: string -> string): seq<nat> {
    if rs == [] then []
    else if KeyOf(Last(rs), key) in KeySet(Front(rs), key) then Places(Front(rs), key)
    else Places(Front(rs), key) + [|rs| - 1]
  }

  /** The kept results are exactly the first occurrences of their names, in rank order. */
  lemma {:induction false} KeptInRankOrder(rs: seq<Result>, key: string -> string)
    ensures var ps := Places(rs, key);
            && |ps| == |FirstPerName(rs, key)|
            && (forall i :: 0 <= i < |ps| ==> ps[i] < |rs| && FirstPerName(rs, key)[i] == rs[ps[i]])
            && (forall i, j :: 0 <= i < j < |ps| ==> ps[i] < ps[j])
            && (forall i :: 0 <= i < |ps| ==> KeyOf(rs[ps[i]], key) !in KeySet(rs[..ps[i]], key))
  {
    if rs != [] {
      KeptInRankOrder(Front(rs), key);
      var ps := Places(Front(rs), key);
      forall i | 0 <= i < |ps| ensures Front(rs)[..ps[i]] == rs[..ps[i]] && Front(rs)[ps[i]] == rs[ps[i]] {
      }
      assert Front(rs) == rs[..|rs| - 1];
    }
  }

  lemma {:induction false} FirstOccurrenceKept(rs: seq<Result>, key: string -> string, p: nat)
    requires p < |rs| && KeyOf(rs[p], key) !in KeySet(rs[..p], key)
    ensures p in Places(rs, key)
    decreases |rs|
  {
    if p < |rs| - 1 {
      assert Front(rs)[..p] == rs[..p];
      FirstOccurrenceKept(Front(rs), key, p);
    } else {
      assert Front(rs) == rs[..p];
    }
  }

  lemma DedupedAt(rs: seq<Result>, key: string -> string, limit: nat, i: nat)
    requires limit >= 1 && i < |Deduped(rs, key, limit)|
    ensures i < |Places(rs, key)| && Places(rs, key)[i] < |rs|
    ensures Deduped(rs, key, limit)[i] == rs[Places(rs, key)[i]]
  {
    KeptInRankOrder(rs, key);
  }

  lemma NamesDiffer(rs: seq<Result>, key: string -> string, limit: nat)
    requires limit >= 1
    ensures forall i, j :: 0 <= i < j < |Deduped(rs, key, limit)| ==>
              KeyOf(Deduped(rs, key, limit)[i], key) != KeyOf(Deduped(rs, key, limit)[j], key)
  {
    var out, ps := Deduped(rs, key, limit), Places(rs, key);
    KeptInRankOrder(rs, key);
    forall i, j | 0 <= i < j < |out| ensures KeyOf(out[i], key) != KeyOf(out[j], key) {
      DedupedAt(rs, key, limit, i);
      DedupedAt(rs, key, limit, j);
      KeySetMembers(rs[..ps[j]], key, KeyOf(rs[ps[i]], key));
      assert rs[..ps[j]][ps[i]] == rs[ps[i]];
    }
  }

  // ---- The de-pin guarantee after deduplication ----

  lemma TopPlaces(rs: seq<Result>, key: string -> string)
    requires rs != []
    ensures |Places(rs, key)| > 0 && Places(rs, key)[0] == 0
    ensures |rs| > 1 && KeyOf(rs[0], key) != KeyOf(rs[1], key) ==> |Places(rs, key)| > 1 && Places(rs, key)[1] == 1
    ensures |rs| > 1 && KeyOf(rs[0], key) == KeyOf(rs[1], key) ==> 1 !in Places(rs, key)
  {
    var ps := Places(rs, key);
    KeptInRankOrder(rs, key);
    assert rs[..0] == [];
    FirstOccurrenceKept(rs, key, 0);
    if |rs| > 1 {
      assert Front(rs[..1]) == [] && KeySet(rs[..1], key) == {KeyOf(rs[0], key)};
      if KeyOf(rs[0], key) != KeyOf(rs[1], key) {
        FirstOccurrenceKept(rs, key, 1);
      }
    }
  }

  /** Keeping a subsequence that still starts with the guarded position keeps its guarantee. */
  lemma GuardKept(rs: seq<Result>, key: string -> string, limit: nat, window: real, i: nat)
    requires limit >= 1 && Guarded(rs, i, window)
    requires i < |Deduped(rs, key, limit)| ==> i < |Places(rs, key)| && Places(rs, key)[i] == i
    ensures Guarded(Deduped(rs, key, limit), i, window)
  {
    var out, ps := Deduped(rs, key, limit), Places(rs, key);
    if i < |out| {
      KeptInRankOrder(rs, key);
      forall j | i < j < |out| ensures i < ps[j] < |rs| && out[j] == rs[ps[j]] {
        DedupedAt(rs, key, limit, j);
      }
      DedupedAt(rs, key, limit, i);
    }
  }

  /** The index-0 guarantee always survives; the index-1 guarantee survives when the top two names differ. */
  lemma GuardsSurviveDedupe(rs: seq<Result>, key: string -> string, limit: nat, window: real)
    requires limit >= 1 && Guarded(rs, 0, window) && Guarded(rs, 1, window)
    ensures Guarded(Deduped(rs, key, limit), 0, window)
    ensures |rs| > 1 && KeyOf(rs[0], key) != KeyOf(rs[1], key) ==> Guarded(Deduped(rs, key, limit), 1, window)
  {
    if rs != [] {
      TopPlaces(rs, key);
    }
    GuardKept(rs, key, limit, window, 0);
    if |rs| > 1 && KeyOf(rs[0], key) != KeyOf(rs[1], key) {
      GuardKept(rs, key, limit, window, 1);
    }
  }

  ghost predicate Named(rs: seq<Result>, names: seq<string>) {
    |rs| == |names| && forall i :: 0 <= i < |rs| ==> rs[i].c.name == names[i]
  }

  /** Candidates that can be retrieved, ranked under a configuration that is not refused. */
  ghost predicate Received(cs: seq<Candidate>, cfg: Config) {
    Loadable(cfg) && forall c :: c in cs ==> Retrievable(c)
  }

  /** Whatever candidates rank under these names, the second position's guarantee holds after deduplication; for
      inputs that the program can receive, or for any. */
  ghost predicate SecondStaysGuarded(names: seq<string>, key: string -> string, limit: nat, window: real,
                                     received: bool)
  {
    forall cs, pin, cfg ::
      AllDivisible(cs, cfg) && DistinctIds(cs) && cfg.swapWindow == window && Named(Ranked(cs, pin, cfg), names)
      && (received ==> Received(cs, cfg))
      ==> Guarded(Deduped(Ranked(cs, pin, cfg), key, limit), 1, window)
  }

  lemma PlacesByName(rs: seq<Result>, ts: seq<Result>, names: seq<string>, key: string -> string)
    requires Named(rs, names) && Named(ts, names)
    ensures Places(rs, key) == Places(ts, key)
    decreases |rs|
  {
    if rs != [] {
      PlacesByName(Front(rs), Front(ts), Front(names), key);
      NamedKeys(Front(rs), Front(names), key);
      NamedKeys(Front(ts), Front(names), key);
    }
  }

  /** The distinct normalized names. */
  ghost function KeysOf(names: seq<string>, key: string -> string): set<string> {
    set n | n in names :: key(n)
  }

  lemma NamedKeys(rs: seq<Result>, names: seq<string>, key: string -> string)
    requires Named(rs, names)
    ensures KeySet(rs, key) == KeysOf(names, key)
  {
    forall k ensures k in KeySet(rs, key) <==> k in KeysOf(names, key) {
      KeySetMembers(rs, key, k);
      if k in KeySet(rs, key) {
        var i :| 0 <= i < |rs| && KeyOf(rs[i], key) == k;
        assert names[i] in names;
      }
      if k in KeysOf(names, key) {
        var i :| 0 <= i < |names| && key(names[i]) == k;
        assert KeyOf(rs[i], key) == k;
      }
    }
  }

  /** The index-1 guarantee survives for every ranking under these names if and only if the top two normalized names
      differ or fewer than three names are distinct. */
  lemma SecondStaysGuardedIff(names: seq<string>, key: string -> string, limit: nat, window: real, received: bool)
    requires limit >= 3 && window > 0.0
    ensures SecondStaysGuarded(names, key, limit, window, received) <==>
            |names| < 2 || key(names[0]) != key(names[1]) || |KeysOf(names, key)| < 3
  {
    if |names| < 2 || key(names[0]) != key(names[1]) || |KeysOf(names, key)| < 3 {
      forall cs, pin, cfg |
        AllDivisible(cs, cfg) && DistinctIds(cs) && cfg.swapWindow == window && Named(Ranked(cs, pin, cfg), names)
        && (received ==> Received(cs, cfg))
        ensures Guarded(Deduped(Ranked(cs, pin, cfg), key, limit), 1, window)
      {
        RankedGuarded(cs, pin, cfg);
        NamedGuarded(Ranked(cs, pin, cfg), names, key, limit, window);
      }
    } else {
      var cs, cfg := UnguardedSecond(names, key, limit, window);
    }
  }

  lemma NamedGuarded(rs: seq<Result>, names: seq<string>, key: string -> string, limit: nat, window: real)
    requires limit >= 3 && Named(rs, names) && Guarded(rs, 0, window) && Guarded(rs, 1, window)
    requires |names| < 2 || key(names[0]) != key(names[1]) || |KeysOf(names, key)| < 3
    ensures Guarded(Deduped(rs, key, limit), 1, window)
  {
    if |names| >= 2 && key(names[0]) != key(names[1]) {
      GuardsSurviveDedupe(rs, key, limit, window);
    } else {
      AtMostTwo(rs, names, key, limit);
      NothingBehind(Deduped(rs, key, limit), window);
    }
  }

  lemma NothingBehind(rs: seq<Result>, window: real)
    requires |rs| <= 2
    ensures Guarded(rs, 1, window)
  {
  }

  lemma AtMostTwo(rs: seq<Result>, names: seq<string>, key: string -> string, limit: nat)
    requires Named(rs, names) && (|names| < 2 || |KeysOf(names, key)| < 3)
    ensures |Deduped(rs, key, limit)| <= 2
  {
    OnePerName(rs, key);
    NamedKeys(rs, names, key);
    if |names| < 2 {
      assert rs == [] || Front(rs) == [];
    }
  }

  /** The line-up whose second distinct name is new: it moves up to position 1, with an established rival behind it. */
  lemma UnguardedSecond(names: seq<string>, key: string -> string, limit: nat, window: real)
    returns (cs: seq<Candidate>, cfg: Config)
    requires limit >= 3 && window > 0.0
    requires |names| >= 2 && key(names[0]) == key(names[1]) && |KeysOf(names, key)| >= 3
    ensures AllDivisible(cs, cfg) && DistinctIds(cs) && Received(cs, cfg) && cfg.swapWindow == window
    ensures Named(Ranked(cs, None, cfg), names) && !Guarded(Deduped(Ranked(cs, None, cfg), key, limit), 1, window)
  {
    var second := SecondPlace(names, key);
    cs, cfg := Lineup(names, second), Flat(window);
    FlatLoads(window);
    LineupDivisible(names, second, window);
    LineupNamed(names, second, window);
    NewBeforeRival(Ranked(cs, None, cfg), key, limit, window);
  }

  lemma LineupNamed(names: seq<string>, newAt: nat, window: real)
    requires newAt >= 2
    ensures AllDivisible(Lineup(names, newAt), Flat(window))
    ensures var rs := Ranked(Lineup(names, newAt), None, Flat(window));
            Named(rs, names) && forall i :: 0 <= i < |rs| ==> rs[i].score == Fin(0.0) && (rs[i].c.isNew <==> i == newAt)
  {
    LineupSurvives(names, newAt, window);
    LineupRanked(names, newAt, window);
  }

  /** Where the second distinct name first occurs, in any ranking under these names. */
  lemma SecondPlace(names: seq<string>, key: string -> string) returns (second: nat)
    requires |names| >= 2 && key(names[0]) == key(names[1]) && |KeysOf(names, key)| >= 3
    ensures second >= 2
    ensures forall rs :: Named(rs, names) ==> |Places(rs, key)| >= 3 && Places(rs, key)[1] == second
  {
    var probe := Probe(names);
    second := SecondPlaceIn(probe, names, key);
    forall rs | Named(rs, names) ensures Places(rs, key) == Places(probe, key) {
      PlacesByName(rs, probe, names, key);
    }
  }

  /** Some results under these names. */
  function Probe(names: seq<string>): (rs: seq<Result>)
    ensures Named(rs, names)
  {
    seq(|names|, i requires 0 <= i < |names| => Result(Line(i, names[i], false), Fin(0.0)))
  }

  lemma SecondPlaceIn(rs: seq<Result>, names: seq<string>, key: string -> string) returns (second: nat)
    requires Named(rs, names) && |names| >= 2 && key(names[0]) == key(names[1]) && |KeysOf(names, key)| >= 3
    ensures second >= 2 && |Places(rs, key)| >= 3 && Places(rs, key)[1] == second
  {
    var ps := Places(rs, key);
    OnePerName(rs, key);
    NamedKeys(rs, names, key);
    KeptInRankOrder(rs, key);
    TopPlaces(rs, key);
    assert KeyOf(rs[0], key) == KeyOf(rs[1], key);
    assert ps[1] in ps && ps[0] < ps[1];
    second := ps[1];
  }

  lemma NewBeforeRival(rs: seq<Result>, key: string -> string, limit: nat, window: real)
    requires limit >= 3 && window > 0.0
    requires |Places(rs, key)| >= 3
    requires forall i :: 0 <= i < |rs| ==> rs[i].score == Fin(0.0) && (rs[i].c.isNew <==> i == Places(rs, key)[1])
    ensures !Guarded(Deduped(rs, key, limit), 1, window)
  {
    KeptInRankOrder(rs, key);
    var out := Deduped(rs, key, limit);
    DedupedAt(rs, key, limit, 1);
    DedupedAt(rs, key, limit, 2);
    assert Rival(out[1].score, out[2], window);
  }

  // ---- The use-case ----

  datatype Reply<T> = Failed | Got(value: T)

  datatype Answer = RetrievalFailed | ExactNameFailed | RankingFailed | Results(results: seq<Result>)

  /** The overlay handed to retrieval and whether the query is categorical; with the flag off, neither. */
  function Narrowing(intentEnabled: bool, tokens: seq<string>, lex: Lexicon): (Overlay, bool) {
    if intentEnabled then (Extraction(tokens, lex), IsCategorical(tokens, lex)) else (ZERO, false)
  }

  type Vector = seq<real>

  /** The query's embedding, when there is an embedder and it answers; a failing one only costs the vector. */
  function QueryVector(embedded: Option<Reply<Vector>>): Option<Vector> {
    if embedded.Some? && embedded.value.Got? then Some(embedded.value.value) else None
  }

  function PinFor(exact: Option<Candidate>, categorical: bool): Option<Candidate> {
    if exact.Some? && !categorical then exact else None
  }

  /** What is returned: the first 150 ranked, one for each name, at most 15. */
  function Answered(cs: seq<Candidate>, pin: Option<Candidate>, cfg: Config, key: string -> string): seq<Result>
    requires AllDivisible(cs, cfg)
  {
    Deduped(Truncated(Ranked(cs, pin, cfg), CANDIDATE_LIMIT), key, RESULT_LIMIT)
  }

  method Search(intentEnabled: bool, tokens: seq<string>, lex: Lexicon,
                embedded: Option<Reply<Vector>>, retrieve: (Overlay, Option<Vector>) -> Reply<seq<Candidate>>,
                exact: Reply<Option<Candidate>>, cancelled: bool, cfg: Config, key: string -> string)
    returns (answer: Answer)
    requires forall ov, vec :: retrieve(ov, vec).Got? ==> AllDivisible(retrieve(ov, vec).value, cfg)
    ensures var (ov, categorical) := Narrowing(intentEnabled, tokens, lex);
            match retrieve(ov, QueryVector(embedded))
            case Failed => answer == RetrievalFailed
            case Got(cs) =>
              if exact.Failed? then answer == ExactNameFailed
              else if cancelled then answer == RankingFailed
              else
                answer == Results(Answered(cs, PinFor(exact.value, categorical), cfg, key))
  {
    var overlay, categorical := ZERO, false;
    if intentEnabled {
      overlay := Extract(tokens, lex);
      categorical := IsCategorical(tokens, lex);
    }
    var vec := None;
    if embedded.Some? && embedded.value.Got? {
      vec := Some(embedded.value.value);
    }
    var found := retrieve(overlay, vec);
    if found.Failed? {
      return RetrievalFailed;
    }
    if exact.Failed? {
      return ExactNameFailed;
    }
    var pin := None;
    if exact.value.Some? && !categorical {
      pin := exact.value;
    }
    var ranked := Run(cancelled, found.value, pin, cfg, CANDIDATE_LIMIT);
    if ranked.Cancelled? {
      return RankingFailed;
    }
    var out := DedupeByName(ranked.results, key, RESULT_LIMIT);
    answer := Results(out);
  }

  /** What comes back: one result per name among the first 150 ranked, at most 15, led by the pin exactly when a name
      was matched and the query is not categorical; with the new-business guarantee of the top position, and that of
      the second when the top two ranked names differ. */
  lemma SearchShape(cs: seq<Candidate>, exact: Option<Candidate>, categorical: bool, cfg: Config, key: string -> string)
    requires AllDivisible(cs, cfg)
    ensures var ranked := Truncated(Ranked(cs, PinFor(exact, categorical), cfg), 150);
            var out := Answered(cs, PinFor(exact, categorical), cfg, key);
            && |out| == (if |KeySet(ranked, key)| < 15 then |KeySet(ranked, key)| else 15)
            && (forall i, j :: 0 <= i < j < |out| ==> KeyOf(out[i], key) != KeyOf(out[j], key))
            && ((out != [] && out[0].score.PosInf?) <==> (exact.Some? && !categorical))
            && (exact.Some? && !categorical ==> out[0] == Result(exact.value, PosInf))
            && Guarded(out, 0, cfg.swapWindow)
            && (|ranked| > 1 && KeyOf(ranked[0], key) != KeyOf(ranked[1], key) ==> Guarded(out, 1, cfg.swapWindow))
  {
    var pin := PinFor(exact, categorical);
    var ranked := Truncated(Ranked(cs, pin, cfg), CANDIDATE_LIMIT);
    OnePerName(ranked, key);
    NamesDiffer(ranked, key, RESULT_LIMIT);
    RankedTop(cs, pin, cfg, CANDIDATE_LIMIT);
    GuardsSurviveDedupe(ranked, key, RESULT_LIMIT, cfg.swapWindow);
    if ranked != [] {
      TopPlaces(ranked, key);
      KeptInRankOrder(ranked, key);
      DedupedAt(ranked, key, RESULT_LIMIT, 0);
    }
  }

  /** The top of a ranking cut to at least one result: guarded, and +Inf exactly when pinned. */
  lemma RankedTop(cs: seq<Candidate>, pin: Option<Candidate>, cfg: Config, limit: nat)
    requires AllDivisible(cs, cfg) && limit >= 1
    ensures var ranked := Truncated(Ranked(cs, pin, cfg), limit);
            && Guarded(ranked, 0, cfg.swapWindow) && Guarded(ranked, 1, cfg.swapWindow)
            && (pin.Some? ==> ranked != [] && ranked[0] == Result(pin.value, PosInf))
            && (pin.None? && ranked != [] ==> ranked[0].score.Fin?)
  {
    RankedGuarded(cs, pin, cfg);
    RankedFirst(cs, pin, cfg);
    CutKeepsGuard(Ranked(cs, pin, cfg), 0, cfg.swapWindow, limit);
    CutKeepsGuard(Ranked(cs, pin, cfg), 1, cfg.swapWindow, limit);
  }

  lemma RankedGuarded(cs: seq<Candidate>, pin: Option<Candidate>, cfg: Config)
    requires AllDivisible(cs, cfg)
    ensures Guarded(Ranked(cs, pin, cfg), 0, cfg.swapWindow) && Guarded(Ranked(cs, pin, cfg), 1, cfg.swapWindow)
  {
    DePinGuardsTopTwo(Arranged(cs, pin, cfg), cfg.swapWindow);
  }

  lemma RankedFirst(cs: seq<Candidate>, pin: Option<Candidate>, cfg: Config)
    requires AllDivisible(cs, cfg)
    ensures pin.Some? ==> Ranked(cs, pin, cfg) != [] && Ranked(cs, pin, cfg)[0] == Result(pin.value, PosInf)
    ensures pin.None? && Ranked(cs, pin, cfg) != [] ==> Ranked(cs, pin, cfg)[0].score.Fin?
  {
    RunConserves(cs, pin, cfg);
    if pin.None? {
      UnpinnedAreFinite(Ranked(cs, pin, cfg), cs, cfg);
    }
  }

  lemma CutKeepsGuard(rs: seq<Result>, i: nat, window: real, limit: int)
    requires Guarded(rs, i, window)
    ensures Guarded(Truncated(rs, limit), i, window)
  {
  }

  lemma UnpinnedAreFinite(rs: seq<Result>, cs: seq<Candidate>, cfg: Config)
    requires AllDivisible(cs, cfg) && multiset(rs) == multiset(Survivors(cs, cfg))
    ensures forall i :: 0 <= i < |rs| ==> rs[i].score.Fin?
  {
    FiniteSurvivors(cs, cfg);
    forall i | 0 <= i < |rs| ensures rs[i].score.Fin? {
      assert rs[i] in multiset(rs);
    }
  }

  /** A found business is returned in front with +Inf unless intent detection is on and the query consists of
      category-shaped terms alone; without a found business nothing is. */
  lemma PinnedIff(on: bool, tokens: seq<string>, lex: Lexicon, cs: seq<Candidate>, exact: Option<Candidate>,
                  cfg: Config, key: string -> string)
    requires AllDivisible(cs, cfg)
    ensures var pin := PinFor(exact, Narrowing(on, tokens, lex).1);
            var out := Answered(cs, pin, cfg, key);
            var kindOnly := tokens != [] && forall i :: 0 <= i < |tokens| ==> InKind(tokens, lex, i);
            && (exact.Some? && !(on && kindOnly) ==> out != [] && out[0] == Result(exact.value, PosInf))
            && (exact.None? || (on && kindOnly) ==> out == [] || out[0].score != PosInf)
  {
    CategoricalIff(tokens, lex);
    SearchShape(cs, exact, Narrowing(on, tokens, lex).1, cfg, key);
  }

  /** Whenever the guard suppresses a found pin, retrieval was narrowed. */
  lemma SuppressedPinMeansNarrowed(intentEnabled: bool, tokens: seq<string>, lex: Lexicon, exact: Option<Candidate>)
    requires exact.Some? && PinFor(exact, Narrowing(intentEnabled, tokens, lex).1).None?
    ensures var ov := Narrowing(intentEnabled, tokens, lex).0;
            ov.category.Some? || ov.subcategory != [] || ov.specific != [] || ov.universal != []
  {
    CategoricalNarrows(tokens, lex);
  }
}
