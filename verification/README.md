# Verified model of lemon-search

lemon-search finds local businesses: a query is turned into a retrieval overlay, candidates are retrieved, ranked and
deduplicated, and the data behind them is ingested from a JSON stream and embedded by a background job. This project
models the parts of its Go service whose correctness is hardest to see, and proves what they promise.

| file | what it models |
|---|---|
| `EditDistance.dfy`, `NameMatch.dfy` | the two-row edit distance and the token-coverage name matcher built on it |
| `StreamParser.dfy`, `JsonText.dfy` | the byte-at-a-time object splitter, and JSON texts (RFC 8259) with their printer |
| `Sorting.dfy`, `BlockMerge.dfy`, `BlockMergeLaws.dfy`, `SortInPlace.dfy` | the library's stable sort under any comparator: blocks, merges, and when they amount to one insertion sort |
| `Signals.dfy`, `SignalWorth.dfy` | the seven signals and the score; what each input is worth and how far it moves the score |
| `Ranking.dfy`, `RankingLaws.dfy`, `RankingRules.dfy` | the ranking pipeline and its laws; its rules on the candidates' own fields |
| `OrderLaws.dfy`, `OrderExamples.dfy`, `FlatRanking.dfy` | when the candidates' order matters, and rankings of concrete candidates that show it |
| `Intent.dfy`, `IntentRules.dfy`, `Search.dfy`, `SearchOrder.dfy` | query intent, the categorical pin guard, one result per name, the whole search, and when its answer depends on the order of retrieval |
| `Ingest.dfy`, `IngestFates.dfy`, `IngestProtocol.dfy`, `IngestLaws.dfy` | the tally and what it counts, the batching loader, the upsert, and the producer / loader / main protocol |
| `Backfill.dfy`, `BackfillLaws.dfy`, `BackfillRows.dfy` | the resumable embedding backfill over a table it changes while paging through it |
| `Dispatch.dfy` | the open-loop dispatcher's semaphore and channel protocol |
| `Seqs.dfy`, `Options.dfy` | shared sequence functions and the optional value |

Code that works in place is modelled in place: the dynamic program, the sorts, the pin's compaction and the de-pin swaps
work on arrays; the parser, the tally, the overlay, the loader, the store and the backfiller are classes. Each such method
is proved equal to a function of its inputs or of the old state, and the laws are proved about those functions. The two
concurrent protocols are transition systems: one program counter per party, one step of one party at a time, every
interleaving; a send on or a second close of a closed channel is recorded as misuse, and proved never to happen.

The functions that methods and laws share are pinned from outside as well: `RankingRules`, `SignalWorth`, `IntentRules`,
`IngestFates` and `BackfillRows` restate what they decide on the fields of candidates, lexicon entries, records and rows,
without using the function they are about.

Where the code falls short of what is said about it, the code is modelled and the exact condition is proved:

- The tie-break is documented as a deterministic ordering (`docs/ranking/semantics.md`), but closeness within 0.005 does
  not chain. The comparator is transitive on a list exactly when the list has no *inversion*: a triple whose middle score
  is within epsilon of both others, whose outer scores are not, and whose tie keys run against the scores
  (`TransitiveIffNoInversion`). "Clustered" scores are the special case `ClusteredHasNoInversion`. Three candidates that
  the shipped configuration scores into an inversion have no order at all (`UnorderableExample`).
- Consequently the ranking, and the answer of a search, can depend on the order in which the candidates come in. They
  never do without an inversion, nor when at most 20 results enter the tie-break, because then the library's sort is a
  single insertion sort (`RunIgnoresCandidateOrder`). From 21 on they can: two lists of 21 retrievable candidates that
  differ by one exchange of equal scores are ranked and answered differently under the shipped configuration
  (`OrderMatters`, `AnswerDepends`), so that 20 is the exact bound (`OrderFreeIff`, `AnswerOrderFreeIff`).
- Signals are documented as lying in 0..1 (`docs/ranking/semantics.md`). That can be read off the configuration: they all
  do exactly when ratings are literal, or smoothing uses the Google rating and a mean between 0 and 5 (`UnitSignalsIff`;
  a retrievable candidate that leaves the range otherwise is in `OutOfUnit`). With the lemon score as the source, the
  documented example candidate already exceeds 1 (`LemonSourceOutOfRange`).
- A record that the parser fails on is documented as skipped, and a failed COPY as retried once
  (`docs/data/ingestion.md`). In the code a parser error ends the stream and closes the rows channel normally: whenever
  nothing else fails, the run reports success exactly when the stream ends cleanly and a stream error exactly when it does
  not, and both times the survivors of everything read are committed (`UndisturbedRunEnds`). Such runs exist for either
  end exactly when no two survivors share an id (`UndisturbedRunIff`). A run reports a loading failure exactly when one
  of the loader's steps failed, a COPY or any other (`LoadingFailsIff`), and after such a step the loader takes no more,
  so that nothing is tried again (`NoStepAfterFailure`).
- Under Bayesian ratings a business without a Google rating is documented to count as the global mean. The code gives it
  0, which is the same exactly when the mean, or a new business's share of it, is 0 (`MissingRatingIsMeanIff`), and is
  less under the shipped mean (`UnratedBelowMean`). That no reviews give the mean is true (`NoReviewsGiveMean`).
- Deduplication preserves the second position's de-pin guarantee only for certain name lists; `SecondStaysGuardedIff`
  says which. For each of the others there are retrievable candidates, and a configuration that is not refused on
  loading, that rank under these names and lose it (`UnguardedSecond`).
- Smoothed ratings grow with the review count exactly for businesses rated at or above the mean
  (`MoreReviewsHelpIffAboveMean`), so the dominance theorem is about literal ratings.

## Model

| member | source | states |
|---|---|---|
| EditDistance.Levenshtein | api/cmd/bench-runner/meili.go:336-355 | the two rolling rows give the least cost of any edit script between the words |
| EditDistance.DistIsLeastCost | api/cmd/bench-runner/meili.go:336-355 | a number is the distance if and only if some script costs it and none costs less |
| EditDistance.NoScriptBeatsDist | api/cmd/bench-runner/meili.go:336-355 | no script of keeps, substitutions, insertions and deletions is cheaper than the distance |
| EditDistance.Cheapest | api/cmd/bench-runner/meili.go:336-355 | some script from one word to the other costs exactly the distance |
| EditDistance.DistSymmetric | api/cmd/bench-runner/meili.go:336-355 | the distance is symmetric |
| EditDistance.DistZeroIffEqual | api/cmd/bench-runner/meili.go:336-355 | the distance is 0 if and only if the words are equal |
| EditDistance.Compose | api/cmd/bench-runner/meili.go:336-355 | two scripts that meet in a word compose to one that costs at most their sum |
| EditDistance.DistTriangle | api/cmd/bench-runner/meili.go:336-355 | the triangle inequality |
| EditDistance.Min3 | api/cmd/bench-runner/meili.go:357-366 | the least of three |
| NameMatch.Tol | api/cmd/bench-runner/meili.go:315-324 | the tolerance is a quarter of the letters rounded up, kept between 1 and 4 |
| NameMatch.MinLev | api/cmd/bench-runner/meili.go:326-334 | the least distance to a listed word; the starting cap never decides whether a word is within tolerance |
| NameMatch.Needed | api/cmd/bench-runner/meili.go:290-300 | four fifths of the name's tokens, rounded up |
| NameMatch.CoverageMatch | api/cmd/bench-runner/meili.go:292-313 | the share of the name's tokens near the query, or 0 unless the query covers the name and every query token is near it |
| NameMatch.CoverageIgnoresOrder | api/cmd/bench-runner/meili.go:290-313 | the score is the same for every order of the tokens, on both sides |
| NameMatch.PairingCounts | api/cmd/bench-runner/meili.go:292-313 | an injective pairing within both tolerances makes at least as many name tokens near as there are query tokens |
| NameMatch.PairingReachesBar | api/cmd/bench-runner/meili.go:292-313 | such a pairing of enough query tokens reaches the bar of 4/5 |
| NameMatch.BarReachedIff | api/cmd/bench-runner/meili.go:292-313 | the bar is reached if and only if the query covers the name and four fifths of the name's tokens are near it |
| NameMatch.ScoresIff | api/cmd/bench-runner/meili.go:292-313 | a hit scores at all if and only if the query has at least four fifths as many tokens as its name, each near the name, and some token of the name is near the query |
| NameMatch.CoverageRange | api/cmd/bench-runner/meili.go:292-313 | scores lie between 0 and 1 |
| NameMatch.FullPairingScoresOne | api/cmd/bench-runner/meili.go:292-313 | the whole name, in any order and with tolerated typos, scores 1 |
| NameMatch.ExactName | api/cmd/bench-runner/meili.go:206-221 | the first hit of highest score if that reaches the bar, and none only when no hit does |
| NameMatch.FullNameIsPinned | api/cmd/bench-runner/meili.go:206-221 | a fully spelled-out hit is pinned, or an earlier one that scores 1 as well |
| StreamParser.Parser.constructor | api/internal/ingest/parser.go:18-29 | a new splitter has the whole stream ahead of it |
| StreamParser.Parser.SkipToObject | api/internal/ingest/parser.go:55-73 | skips exactly the structural bytes before the next opening brace, or says why there is none |
| StreamParser.Parser.Reset | api/internal/ingest/parser.go:101-106 | the flags and the buffer start afresh |
| StreamParser.Parser.Consume | api/internal/ingest/parser.go:75-99 | one byte changes depth, string and escape flags as the switch does, and ends the object exactly when depth falls from 1 to 0 |
| StreamParser.Parser.Next | api/internal/ingest/parser.go:31-53 | the outcome, the bytes skipped and the bytes used are what the declarative description of the unread bytes demands |
| StreamParser.Parser.Drain | api/internal/ingest/parser.go:31-53 | calling `Next` until no object comes splits the stream into separators and complete objects, with nothing lost |
| StreamParser.NoProperPrefixComplete | api/internal/ingest/parser.go:75-99 | no proper prefix of a returned object is itself complete |
| StreamParser.NextOutcomeUnique | api/internal/ingest/parser.go:31-53 | the unread bytes determine outcome and positions |
| StreamParser.EndOutcomes | api/internal/ingest/parser.go:108-124 | clean end iff only structural bytes are left, unexpected end iff an opened object never closes, reader errors and bad bytes likewise |
| StreamParser.SplitUnique | api/internal/ingest/parser.go:31-53 | a stream has one splitting only: separators, objects, rest and ending |
| JsonText.PrintedObjectComplete | api/internal/ingest/parser.go:75-99 | any printed JSON object, with any nesting, strings, escapes and whitespace, is complete at its last byte and not before |
| JsonText.PrintedStreamSplits | api/internal/ingest/parser.go:31-53 | printed objects joined by any structural bytes split into just those objects |
| JsonText.PrintThenSplit | api/internal/ingest/parser.go:31-53 | printing any objects and reading them back with the splitter returns them in order, then the end |
| JsonText.TruncatedStreamSplits | api/internal/ingest/parser.go:117-124 | a stream cut inside its last object yields the objects before it and then an unexpected end |
| JsonText.SeparatedObjectsSplit | api/internal/ingest/parser.go:57-73 | with blanks, tabs, line feeds, carriage returns, commas and brackets between them, listed byte by byte, printed objects are split as printed, and the end is that of the reader |
| JsonText.StrayByteSplits | api/internal/ingest/parser.go:57-73 | any byte that is neither of these nor an opening brace ends the stream with that byte, behind the objects before it |
| BlockMergeLaws.SliceStablePermutes | api/internal/rank/scorer.go:132-136 | sorting loses and invents nothing, under any comparator |
| BlockMergeLaws.SliceStableKeepsFirst | api/internal/rank/scorer.go:155-166 | a first element that none is less than stays first, however the others compare |
| BlockMergeLaws.SymMergeSorts | api/internal/rank/scorer.go:132-166 | under a strict weak order, merging two rising runs by rotations gives the stable sort of both |
| BlockMergeLaws.SliceStableIsInsertionSort | api/internal/rank/scorer.go:132-166 | under a strict weak order, blocks and rounds of merges give what one stable insertion sort gives |
| BlockMergeLaws.OneBlock | api/internal/rank/scorer.go:155-166 | up to 20 elements the sort is one insertion sort, under any comparator |
| BlockMergeLaws.SortOrdersIffTransitive | api/internal/rank/scorer.go:155-166 | for a comparator that decides every pair, the sort orders the list if and only if the comparator is transitive on it |
| BlockMergeLaws.AnySortAgrees | api/internal/rank/scorer.go:155-166 | any ordered arrangement of the same elements is the one this sort returns |
| Sorting.OrderedUnique | api/internal/rank/scorer.go:155-166 | two ordered lists of the same elements are equal |
| SortInPlace.SiftLeft | api/internal/rank/scorer.go:155-166 | within a block, one element moves left to where insertion puts it, and the rest of the array stays |
| SortInPlace.MergeParts | api/internal/rank/scorer.go:155-166 | two neighbouring runs are merged in place, and the rest of the array stays |
| SortInPlace.StableSort | api/internal/rank/scorer.go:132-136 | the array ends up as blocks and merges arrange its old contents |
| Signals.ScoreCandidate | api/internal/rank/scorer.go:94-107 | the loop computes the weighted sum of the listed signals, without an ignored open status |
| SignalWorth.CappedDistance | api/internal/rank/signals.go:29-34 | within 48.28 km the signals of two candidates differ by the difference of their distances over 48.28; from there on and without a location the signal is 0 |
| SignalWorth.DecayedDistance | api/internal/rank/signals.go:39-45 | with a positive decay distance, x times that distance is worth exp(-x) |
| SignalWorth.LiteralRatingWorth | api/internal/rank/signals.go:49-66 | ten times the signal is the lemon score, times the demotion factor for a new business; 0 without a score |
| SignalWorth.SmoothedRatingWorth | api/internal/rank/signals.go:49-81 | the signal times five times the sum of prior strength and reviews is the weighted sum of mean and rating, demoted for a new business; 0 without a rating |
| SignalWorth.PopularityWorth | api/internal/rank/signals.go:86-93 | 0 without reviews, 1 from the ceiling on, and in proportion to log(1 + n) below it |
| SignalWorth.FriendsWorth | api/internal/rank/signals.go:96-98 | in proportion to the friends, and 1 from the configured number on |
| SignalWorth.StepsWorth | api/internal/rank/signals.go:100-131 | claimed is 1 and unclaimed 0, photos count fully exactly from three on, each open state has its configured value, an unknown signal is 0 |
| SignalWorth.ScoreMoves | api/internal/rank/scorer.go:94-107 | two candidates of one archetype whose other listed signals agree differ in score by the weight of the remaining one, per listing, times its difference; a missing archetype or weight and an ignored open status weigh 0 |
| SignalWorth.OnlySignal | api/internal/rank/scorer.go:94-107 | with every other listed signal 0, the score is the weight of the remaining one times its value |
| SignalWorth.CloserBy | api/internal/rank/scorer.go:94-130 | within the cap a shorter way raises the score by the weight of distance times the kilometres saved over 48.28 |
| SignalWorth.BetterRatedBy | api/internal/rank/scorer.go:94-130 | under literal ratings a lemon point is worth a tenth of the weight of ratings to an established business |
| SignalWorth.ReviewedBy | api/internal/rank/scorer.go:94-130 | under literal ratings and below the ceiling the score moves with log(1 + reviews) in proportion |
| SignalWorth.BefriendedBy | api/internal/rank/scorer.go:94-130 | up to the configured number each friend adds its share of the weight of friends |
| SignalWorth.ClaimedBy | api/internal/rank/scorer.go:94-130 | claiming the profile adds exactly the weight of claiming |
| SignalWorth.PhotographedBy | api/internal/rank/scorer.go:94-130 | the third photo adds the weight of photos times what is withheld below three |
| SignalWorth.OpenBy | api/internal/rank/scorer.go:94-130 | other hours move the score by the weight of the open status times the difference of the configured values |
| Signals.BetterScoresNoLess | api/internal/rank/signals.go:26-131 | with literal ratings and non-negative weights a candidate at least as good on every raw input scores no less |
| Signals.SignalMonotone | api/internal/rank/scorer.go:109-130 | each signal respects being at least as good |
| Signals.MoreReviewsHelpIffAboveMean | api/internal/rank/signals.go:68-81 | more reviews raise a smoothed rating if and only if the business is rated at or above the mean |
| Signals.SmoothedInUnitIff | api/internal/rank/signals.go:68-81 | smoothing sends every rating up to a top, with any number of reviews, into 0..1 if and only if the mean is within 0..5 and the top at most 5 |
| Signals.UnitSignalsIff | api/internal/rank/signals.go:26-131 | every signal of every retrievable candidate, or of every one with in-range inputs, lies in 0..1 if and only if ratings are literal, or smoothing uses Google ratings and a mean within 0..5 |
| Signals.OutOfUnit | api/internal/rank/signals.go:46-81 | under every other configuration some retrievable, established candidate has a rating signal outside 0..1 |
| Signals.MissingRatingIsMeanIff | docs/ranking/semantics.md:110-117 | a business without a rating to smooth has the documented signal if and only if the mean, or its part as a new business, is 0 |
| Signals.UnratedBelowMean | api/internal/rank/signals.go:46-81 | with the shipped mean its signal is 0 and the documented one is more, new or not |
| Signals.LemonSourceOutOfRange | api/internal/rank/signals.go:46-81 | the documented sushi restaurant, under the shipped configuration with smoothing over the lemon score, has a rating signal above 1 |
| Signals.SignalInUnit | api/internal/rank/signals.go:26-131 | each signal of a candidate with in-range inputs lies in 0..1 when ratings are literal, or smoothing uses Google ratings and a mean within 0..5 |
| Signals.ScoreInRange | api/internal/rank/scorer.go:94-107 | then a score is at least 0 and at most the sum of the weights that count |
| Ranking.Kept | api/internal/rank/scorer.go:65-80 | exactly the candidates not known to be closed in an archetype that must be open |
| Ranking.HardFilter | api/internal/rank/scorer.go:65-80 | the loop keeps just those, in order |
| Ranking.Scored | api/internal/rank/scorer.go:83-92 | each candidate with its score, in order |
| Ranking.ScoreAll | api/internal/rank/scorer.go:83-92 | the array of scored candidates |
| Ranking.WithoutId | api/internal/rank/scorer.go:144-149 | exactly the results with another id |
| Ranking.DropId | api/internal/rank/scorer.go:138-150 | compacting the array over itself equals filtering its old contents |
| Ranking.ApplyPin | api/internal/rank/scorer.go:138-153 | the pin with score +Inf in front of the others without its id; nothing changes without a pin |
| Ranking.FirstRival | api/internal/rank/scorer.go:187-194 | the first later established candidate within the swap window |
| Ranking.YieldAt | api/internal/rank/scorer.go:186-195 | one guarded position is swapped with its first rival, or nothing changes |
| Ranking.DePin | api/internal/rank/scorer.go:182-196 | the in-place pass over both guarded positions |
| Ranking.Run | api/internal/rank/scorer.go:43-63 | the composed pipeline, with the sorts of the library, or only the cancellation |
| RankingLaws.ClusteredHasNoInversion | api/internal/rank/scorer.go:155-166 | scores whose closeness chains hold no inversion |
| RankingLaws.TransitiveIffNoInversion | api/internal/rank/scorer.go:155-180 | the tie-break comparator is transitive on a list if and only if the list holds no inversion |
| RankingLaws.TieBreakOrdersIffNoInversion | api/internal/rank/scorer.go:155-180 | the sort puts each result ahead of exactly those it beats if and only if there is no inversion, and then so arranged lists are unique |
| OrderExamples.UnorderableExample | api/internal/rank/scorer.go:155-180 | three retrievable candidates that, scored by the shipped configuration, no arrangement orders |
| OrderLaws.AnyArrangementGivesRanked | api/internal/rank/scorer.go:155-166 | whatever sort is used and however candidates come in, an ordered arrangement leads to the same ranking |
| OrderLaws.EqualScoresCommute | api/internal/rank/scorer.go:155-180 | within one block, results of equal score can be inserted in either order, even where the comparator is no order |
| OrderLaws.EqualBlocksSortAlike | api/internal/rank/scorer.go:132-166 | two score-sorted lists of the same results make the same block |
| OrderLaws.RunIgnoresCandidateOrder | api/internal/rank/scorer.go:43-63 | with distinct ids, every permutation of the candidates is ranked the same if at most 20 results enter the tie-break or the scores hold no inversion |
| OrderExamples.OrderMatters | api/internal/rank/scorer.go:43-63 | two permutations of 21 retrievable candidates that the shipped configuration ranks differently, already at the eleventh place |
| OrderExamples.OrderFreeIff | api/internal/rank/scorer.go:43-63 | under the shipped configuration no permutation of retrievable candidates, or of any, matters to rankings of at most n entrants if and only if n is at most 20 |
| SearchOrder.AnswerDepends | api/internal/search/service.go:70-112 | the search answers two permutations of 21 candidates differently |
| SearchOrder.AnswerOrderFreeIff | api/internal/search/service.go:70-112 | the order of retrieval never matters to the answer with at most n entrants if and only if n is at most 20 |
| RankingLaws.RunConserves | api/internal/rank/scorer.go:43-63 | before truncation the output is the scored survivors without the pin's id, as a multiset, plus the pin once at index 0 with +Inf |
| RankingLaws.DePinGuardsTopTwo | api/internal/rank/scorer.go:182-196 | no new business at index 0 or 1 but the pin has a later established rival, and the pin has not moved |
| RankingLaws.DePinAtKeepsAhead | api/internal/rank/scorer.go:182-196 | an established result never falls behind one that does not score more or is new |
| RankingRules.FilteredIff | api/internal/rank/scorer.go:65-80 | a candidate is filtered out if and only if its archetype is configured to be open and it is known to be closed; unknown hours are always kept |
| RankingRules.KeysDecide | api/internal/rank/scorer.go:158-180 | on the fields: 0.005 or more of score decides, then the claimed profile, then the distance, then the reviews, then the id |
| RankingRules.KeysArrange | api/internal/rank/scorer.go:158-180 | with distinct ids and no inversion, of any two scored results of the tie-break sort the one ahead is the one that these keys prefer |
| RankingRules.KeysRank | api/internal/rank/scorer.go:43-63 | with distinct ids and no inversion, an established candidate that the keys prefer is never returned behind the other one, which scores no more or is new, through pin, de-pin and cut |
| RankingRules.YieldsToFirst | api/internal/rank/scorer.go:184-196 | a guarded position that no established candidate claims stays, and otherwise it changes places with the first claimant alone |
| RankingRules.UnclaimedStay | api/internal/rank/scorer.go:184-196 | a list whose top two nobody claims is returned unchanged |
| RankingRules.NoClaimsLeft | api/internal/rank/scorer.go:184-196 | after the pass nobody claims them |
| RankingRules.CutIs | api/internal/rank/scorer.go:198-203 | a non-negative limit keeps that many from the front, a negative one keeps all |
| RankingLaws.BetterIsBefore | api/internal/rank/scorer.go:155-180 | the better candidate comes first in the tie-break |
| RankingLaws.BetterNeverBehind | api/internal/rank/scorer.go:43-63 | wherever the worse candidate is returned the better, established one is returned ahead of it, through every stage |
| Intent.AppendUniqueTo | api/internal/intent/extract.go:44-51 | the loop computes the repeat-free append |
| Intent.AppendUniqueIsUnion | api/internal/intent/extract.go:44-51 | the old values stay in front, the values of both are there, nothing is repeated |
| IntentRules.AppendedInOrder | api/internal/intent/extract.go:44-51 | the values appended are exactly the first occurrences of new ones, in their order |
| Intent.OverlayCell.MergeTerm | api/internal/intent/extract.go:26-42 | one lexicon entry is merged in place; an unknown term changes nothing |
| Intent.Extract | api/internal/intent/extract.go:9-24 | the overlay is the merge of every token and bigram in order |
| IntentRules.TermsAre | api/internal/intent/extract.go:14-24 | every token is looked up, and after it the two joined by a blank for each pair of neighbours; nothing else |
| Intent.ExtractionOfConcat | api/internal/intent/extract.go:9-24 | a query in two parts gives the union of the first part, the seam bigram and the second part, for any lexicon |
| Intent.MergeAllMembers | api/internal/intent/extract.go:26-51 | a filter holds exactly the values of the matched terms, each once; open-now and category are set exactly when some match sets them |
| Intent.LastCategoryWins | api/internal/intent/extract.go:31-34 | the category is that of the last matched term that names one |
| IntentRules.CategoricalIff | api/internal/intent/categorical.go:15-48 | a query is categorical if and only if it has words and each belongs to a one- or two-word term whose entry has a category, subcategory, specific or universal tag |
| IntentRules.JoinedTermsCategorical | api/internal/intent/categorical.go:15-48 | every query put together from such terms is categorical |
| Intent.CategoricalConcat | api/internal/intent/categorical.go:15-34 | categorical queries are closed under concatenation |
| Intent.CategoricalNarrows | api/internal/intent/categorical.go:15-48 | a categorical query's overlay is never zero and filters by category, subcategory or tag |
| Search.DedupeByName | api/internal/search/service.go:114-133 | the loop keeps the first result of each normalized name, up to the limit |
| Search.OnePerName | api/internal/search/service.go:114-133 | as many results as names, and every name still there |
| Search.KeptInRankOrder | api/internal/search/service.go:114-133 | the kept results are first occurrences of their names, in rank order |
| Search.FirstOccurrenceKept | api/internal/search/service.go:114-133 | every first occurrence is kept |
| Search.NamesDiffer | api/internal/search/service.go:114-133 | no two returned results share a normalized name |
| Search.GuardsSurviveDedupe | api/internal/search/service.go:114-133 | the index-0 guarantee survives, the index-1 guarantee does when the top two names differ |
| Search.SecondStaysGuardedIff | api/internal/search/service.go:114-133 | the index-1 guarantee survives for all inputs that rank under these names, those that the program can receive or any, if and only if the top two normalized names differ or fewer than three are distinct |
| Search.UnguardedSecond | api/internal/search/service.go:114-133 | for every other list of names, retrievable candidates and a loadable configuration that rank under it and lose the guarantee |
| Search.Search | api/internal/search/service.go:70-112 | the composed search with its error paths in order; an embedder that fails only costs the query vector |
| Search.RankedTop | api/internal/search/service.go:88-103 | the top of the cut ranking is guarded, and +Inf exactly when pinned |
| Search.SearchShape | api/internal/search/service.go:70-112 | min(15, distinct names) results, names distinct, led by the pin exactly when a name matched and the query is not categorical; the index-0 guarantee, and the index-1 one when the top two names differ |
| Search.PinnedIff | api/internal/search/service.go:88-95 | a found business leads with +Inf unless intent detection is on and the query consists of category-shaped terms alone, and then nothing does |
| Search.SuppressedPinMeansNarrowed | api/internal/search/service.go:88-95 | whenever a found pin is suppressed, retrieval was narrowed by category, subcategory or tag |
| Ingest.Tally.Process | api/cmd/ingest/pipeline.go:80-121 | counts and keeps a record as the stage verdicts say; an unparsable record is not counted as read |
| Ingest.TallyAddsUp | api/cmd/ingest/main.go:134-152 | survivors = read - dropped by geography - dropped without address - dropped without category |
| IngestFates.CountersAre | api/cmd/ingest/pipeline.go:83-121 | each of the seven counters is the number of records with that fate, spelled on the outputs of the stages |
| IngestFates.SurvivorsAre | api/cmd/ingest/pipeline.go:83-121 | the rows handed on are built from exactly the records that parse, lie inside with an address and have a category, in file order |
| Ingest.UpsertedAt | api/internal/ingest/loader.go:196-204 | each row of the upserted table is the staged row of its id with creation time kept, or the old row |
| Ingest.UpsertTwice | api/internal/ingest/loader.go:196-204 | loading the same rows again changes nothing |
| Ingest.Loader.Load | api/internal/ingest/loader.go:99-134 | for the rows of a channel in their order, it succeeds if and only if their ids are distinct, no receive is cancelled and no database operation fails; then exactly these rows are upserted, and otherwise the table is unchanged |
| Ingest.Loader.CopyAll | api/internal/ingest/loader.go:136-162 | all rows are staged in order, in batches of 500 except possibly the last, if and only if ids are distinct and nothing is cancelled or fails |
| Ingest.Loader.CopyBatch | api/internal/ingest/loader.go:164-185 | an empty batch is a no-op, a repeated id violates the stage's key |
| IngestLaws.InvAfter | api/cmd/ingest/main.go:91-109 | the invariant of channel, records, errors, loader and main holds after every interleaving |
| IngestLaws.MovesKeepPlaces | api/internal/ingest/loader.go:136-162 | every step but a read leaves the whole of staged, batched, queued and held rows as it was |
| IngestLaws.ChannelDiscipline | api/cmd/ingest/pipeline.go:40-78 | no send or close after the close; stats published once, before the close, and never blocked |
| IngestLaws.NeverStuck | api/cmd/ingest/main.go:91-109 | until the run has finished some party can move, loader failure or cancellation at any point included |
| IngestLaws.RunsAreBounded | api/cmd/ingest/main.go:91-109 | every interleaving has at most 6n + 25 steps, so `wait` always returns |
| IngestLaws.SuccessMeansAllLoaded | api/cmd/ingest/main.go:91-116 | success means exactly the surviving records are committed, in file order and full batches, and the tally adds up |
| IngestLaws.LoadingErrorChangesNothing | api/internal/ingest/loader.go:104-134 | after any loader error the table is as before |
| IngestLaws.LoadingFailsIff | api/cmd/ingest/main.go:91-116 | a finished run reports a loading failure if and only if a database step failed or the loader noticed a cancellation, and then the table is as before |
| IngestLaws.NoStepAfterFailure | api/internal/ingest/loader.go:136-185 | after a failed COPY, or any failed step, the loader takes no further step: nothing is retried |
| IngestLaws.CancelledProducerStops | api/cmd/ingest/pipeline.go:44-75 | once the context is cancelled the producer finishes at most the read it has begun |
| IngestLaws.BrokenStreamStillCommits | api/cmd/ingest/main.go:91-116 | whatever else happened in a run, if it reports a stream error then the stream broke off and the survivors of everything before are committed |
| IngestLaws.UndisturbedRunEnds | api/cmd/ingest/main.go:91-116 | when nothing fails and nothing is cancelled, the run reports success if and only if the stream ends cleanly and a stream error if and only if it breaks off, and commits the survivors of everything read both times |
| IngestLaws.UndisturbedRunIff | api/cmd/ingest/main.go:91-116 | such a run exists, for either end of the stream, if and only if no two survivors share an id |
| IngestLaws.TableIsAllOrPrefix | api/internal/ingest/loader.go:104-134 | at any moment the table is the old one or, after the commit only, has a prefix's survivors upserted |
| IngestLaws.ReingestChangesNothing | api/internal/ingest/loader.go:196-204 | ingesting the same file again later leaves the table as it was |
| Backfill.Store.ReadPage | api/internal/ingest/embedstore.go:41-62 | the first matching rows above the last id, in id order |
| Backfill.Store.UpdateBatch | api/internal/ingest/embedstore.go:64-97 | one vector per id in one transaction, or no change |
| Backfill.PageSize | api/internal/ingest/embed.go:126-137 | the batch size, cut so that a positive limit is not exceeded |
| Backfill.Backfiller.constructor | api/internal/ingest/embed.go:75-80 | a non-positive batch size becomes 64 |
| Backfill.Backfiller.Run | api/internal/ingest/embed.go:82-124 | the loop, for any fault on any page, ends with the table, tally and error of the recursive pass |
| Backfill.Backfiller.EmbedPage | api/internal/ingest/embed.go:139-172 | rows with text get their vectors all together or not at all; the others are counted as skipped |
| Backfill.OnePageShrinks | api/internal/ingest/embed.go:86-124 | the rows above the last id strictly shrink although skipped rows keep matching |
| BackfillLaws.WritePageFills | api/internal/ingest/embed.go:139-172 | writing a page gives each of its rows with text its own text's vector and changes nothing else |
| BackfillLaws.NextSelection | api/internal/ingest/embedstore.go:16-24 | reading on after a written page finds exactly what the first selection had left |
| BackfillLaws.PassFillsPrefix | api/internal/ingest/embed.go:86-124 | however a pass ends it has filled, and counted as embedded, exactly a prefix, in id order, of the rows that were selected when it began |
| BackfillLaws.CompletePassFillsMissing | api/internal/ingest/embed.go:82-124 | a successful unlimited pass fills every missing row that has text, and scanned = embedded + skipped; it succeeds when nothing fails |
| BackfillLaws.FinishedPassScansFirstRows | api/internal/ingest/embed.go:82-124 | a successful pass scans exactly the first min(limit, eligible) rows, or all without a limit |
| BackfillRows.PassRows | api/internal/ingest/embed.go:82-124 | however a pass ends it has written the rows with an id and text among the first k of the table, those without an embedding if asked, counted them as embedded, and read no more than allowed |
| BackfillRows.EmbeddedRowsStay | api/internal/ingest/embedstore.go:16-21 | an only-missing pass, however it ends, leaves every embedded row as it was |
| BackfillRows.FinishedPassRows | api/internal/ingest/embed.go:82-124 | a pass that ends well has written the first k rows, up to the limit or the end, and scanned, embedded and skipped are the numbers of eligible rows, of those with text and of those without |
| BackfillRows.UnlimitedPassRows | api/internal/ingest/embed.go:82-124 | a complete only-missing pass gives a row its own vector if and only if it has an id, text and no embedding, and counts just those without one |
| BackfillRows.ResumedRows | api/internal/ingest/embed.go:82-124 | the same holds of any passes, however they ended, with a complete one behind them |
| BackfillLaws.FaultReported | api/internal/ingest/embed.go:86-124 | every pass goes on up to some round and stops in it, and a failed one reports the fault of that round |
| BackfillLaws.FaultsNoticed | api/internal/ingest/embed.go:86-124 | a pass never goes on behind a cancelled context or a failed read, and reports the one that it stops with |
| BackfillLaws.FailedPageEnds | api/internal/ingest/embed.go:139-172 | a page with text whose vectors fail ends the pass, unwritten and not counted as embedded |
| BackfillLaws.AttemptsMissNothing | api/internal/ingest/embed.go:82-124 | any passes, ended in any way, leave the goal of a complete pass unchanged |
| BackfillLaws.CrashAndResume | api/internal/ingest/embed.go:82-124 | any failed or limited passes followed by one complete pass leave the table of a single uninterrupted pass |
| Dispatch.InvAfter | api/cmd/loadbench/main.go:232-269 | the invariant of slots, samples and closing holds after every interleaving |
| Dispatch.ChannelDiscipline | api/cmd/loadbench/main.go:232-269 | at most maxInflight workers hold a slot; no send blocks or meets a closed channel; closed only after every worker has sent and released |
| Dispatch.EveryRequestAccounted | api/cmd/loadbench/main.go:232-269 | returned samples plus dropped equals n, with exactly one sample for each admitted request |
| Dispatch.DroppedIffFull | api/cmd/loadbench/main.go:248-258 | a due request is dropped if and only if maxInflight workers hold a slot, and otherwise gets a worker of its own |
| Dispatch.OnlyDueRequestsCount | api/cmd/loadbench/main.go:248-258 | no other step drops or admits a request |
| Dispatch.EnoughSamples | api/cmd/loadbench/main.go:232-269 | whatever is dropped, at least maxInflight requests have been admitted; the samples returned are at least min(n, maxInflight), and n when none was dropped |
| Dispatch.BurstDrops | api/cmd/loadbench/main.go:242-258 | requests that fall due before any worker moves are all dropped beyond maxInflight |
| Dispatch.NothingDroppedIff | api/cmd/loadbench/main.go:232-269 | no interleaving drops a request if and only if n is at most maxInflight |
| Dispatch.NeverStuck | api/cmd/loadbench/main.go:232-269 | until dispatch returns some party can move |
| Dispatch.RunsAreBounded | api/cmd/loadbench/main.go:232-269 | every interleaving is bounded, so dispatch returns |

## Left out

- IEEE floating point: scores and rates are reals with +Inf as a constructor, so rounding, NaN and a zero divisor (a
  precondition here) are not captured; 0.8 is read as 4/5, and `exp` and `log1p` are any functions with their monotonicity
  and end-point values.
- Text handling: lower-casing, splitting on blanks, the regex tokenizer, Unicode normalization and the lexicon's contents;
  queries and names start as token lists and the lexicon and the name key are arbitrary.
- `Sanitize`, the geography filter, the taxonomy, MD5-based synthesis and `EmbedText` are arbitrary total functions, and
  the embedder is an arbitrary function of each text.
- BlockMerge: the block size of 20 and the symmetric merge are those of `sort.SliceStable` in Go's standard library, whose
  source is not part of this repository.
- SortInPlace.MergeParts: the library exchanges two neighbouring parts by a series of range swaps and finds its cuts in
  loops; the model writes the exchanged parts at once and finds the cuts by the recursive searches of `BlockMerge`.
- Ranking.DropId: Go appends to `results[:0]`; the model keeps an explicit write index over the same array.
- Ingest.Loader.Load: receives the channel's rows, in the order of their sending, as one sequence; the channel that is
  filled meanwhile and the producer beside it are in `IngestProtocol`, on values.
- Concurrency is interleaved atomic steps on values, without goroutine-local memory effects; a commit whose outcome is
  unknown to the client is not modelled, and every other database operation may fail or succeed at any time.
- Backfill.Store.ReadPage: ids are naturals ordered like UUIDs, with 0 the zero UUID, so a row with the zero UUID is never
  scanned, as in the code; rows changed by other writers during a pass are not modelled.
- StreamParser.Parser.Drain: the producer's cancellation check and its processing between two calls are in
  `IngestProtocol` and `Ingest`.
- StreamParser.Parser.Next: the reader delivers the stream as a byte sequence with a permanent end or error; buffering and
  retries after an error are not modelled.
- Search.DedupeByName: a negative limit, which the program never passes and which would panic in Go, is not modelled.
- Dispatch: wall-clock pacing, request latency and HTTP; `maxInflight` is a parameter, and the drain's sleep loop is the
  single step it waits for.
- Retrieval SQL, trigram and vector recall, HTTP handlers, configuration loading, logging, the web UI, the ONNX and Ollama
  adapters, bench reports and quality metrics: plumbing, foreign calls, or only easy members.
