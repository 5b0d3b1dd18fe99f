# Auto Personality App — a Dafny model of its two engines

The application asks a user a short quiz and turns the answers into a five-dimensional personality
vector. The dimensions are Sostenibilidad, Prestaciones, Lujo y Confort, Versatilidad and Tech-savvy,
each scored on a 1–5 scale. It then recommends the cars of a JSON catalog whose own vectors lie
closest to the user's. This project models the two engines that do this work and the pure helpers
they lean on, and proves what they promise:

- `PersonalityProcessor` (`personality.dfy`, module `Personality`) turns the answers into the vector,
  puts each score in a band, picks the dominant traits, writes the insight sentence, computes the
  similarity of two vectors and exports a profile.
- `AutoMatcher` (`matcher.dfy`, module `Matcher`) works on the catalog. It validates it, computes the
  distance-based match score and ranks the best matches. It also looks cars up by id, filters them by
  type and price, summarises the catalog and recommends cars similar to a given one.
- The pure helpers of the utility module (`utils.dfy`, module `Utils`) are vector-shape validation,
  nested lookup with a default, the progress fraction and the HTML features list.

Supporting modules hold the shared concepts:

- `Json` holds the decoded JSON values. A Python `bool` counts as a number, and `True == 1` as a
  dictionary key.
- `Dimension` holds the five names and their fixed order.
- `Ranking` is Python's stable `sort(reverse=True)` followed by `[:n]`.
- `Tally` is the counting idiom `d[k] = d.get(k, 0) + 1`.
- `Seqs` has filtering and Python slice lengths.
- `Text` has `lower()` and `join`.
- `Numeric` has clamping, squared distance and square-root facts.
- `Results` has `Option` and `Result`.
- `Consistency` relates the two engines' similarity functions.

Numbers are mathematical reals. numpy's square root is the parameter `sqrt: real -> real`, and every
operation that needs it requires `Numeric.IsSqrt(sqrt)`: `sqrt` is non-negative on non-negatives and
squares back to its argument. Its zero, positivity and (strict) monotonicity are proved from that.

A failed construction is `Result.Err` carrying the source's message. Where the source would crash
with a Python exception, the model has a precondition stating exactly the non-crashing inputs; these
are listed under "## Left out".

Two facts about the code shape the scores and rankings:

- The maximum distance is the constant square root of 80 (`5 * 4**2`, src/matcher.py:67-68 and
  src/personality.py:137-138), whatever the vectors' length; it is not derived from the vectors.
- Ties in a ranking keep catalog order, because Python's `sort(reverse=True)` is stable.

Lists of cars keep duplicates: validation, filtering and ranking keep a car that occurs twice in the
catalog twice, so their contracts are stated with multisets as well as with membership.

## Model

| member | source | states |
|---|---|---|
| Matcher.RawCars | src/matcher.py:21-32 | the entries walked are none for a missing `cars`, the items of a list, and one entry per character of a string; none of them makes validation raise |
| Matcher.ValidateCarData | src/matcher.py:26-44 | the kept cars are an order-preserving subsequence of the input and a sub-multiset of it; every kept car has id, brand, model and a five-number vector; every input car with those is kept, as often as it occurs |
| Matcher.ValidateCarDataIdempotent | src/matcher.py:30-44 | validating an already validated catalog changes nothing |
| Matcher.NewMatcher | src/matcher.py:13-47 | a dict `cars` always fails; otherwise construction fails, with the source's message, exactly when no walked entry is a valid car (strings, lists and incomplete objects are skipped); on success the catalog is non-empty, an order-preserving subsequence of the walked entries, and holds each valid entry as often as it occurs |
| Matcher.TextCarsRejected | src/matcher.py:21-47 | a string `cars` never raises and always fails construction, since no single character is a car |
| Matcher.CalculateMatchScore | src/matcher.py:49-74 | the score lies in [0, 100]; it is 0 when the lengths differ; for equal lengths it is 100 exactly when the vectors are equal, and 0 exactly when the squared distance reaches 80 |
| Matcher.MatchScoreSymmetric | src/matcher.py:60-74 | swapping the user's and the car's vector leaves the score unchanged |
| Matcher.CloserScoresHigher | src/matcher.py:63-74 | a car at most as far from the user as another scores at least as high |
| Matcher.OppositeCornersScoreZero | src/matcher.py:66-74 | the all-ones and all-fives vectors score exactly 0 |
| Matcher.ScoreCars | src/matcher.py:92-100 | one entry per catalog car, in order, whose percentage is the car's match score and whose normalised score is the percentage over 100 |
| Matcher.FindBestMatches | src/matcher.py:76-106 | `min(top_n, len)` entries (Python slice semantics for negative `top_n`), sorted by score descending, each a catalog car scored against the user with a percentage in [0, 100] and score = percentage / 100, drawn without repetition from the scored catalog, and none left out scores higher than one returned |
| Matcher.FindBestMatchesKeepsTies | src/matcher.py:102-106 | the result is a prefix of the stable descending sort, in which cars of equal score keep catalog order |
| Matcher.GetCarById | src/matcher.py:108-121 | None exactly when no car has that id; otherwise the first car that has it |
| Matcher.FilterCarsByCriteria | src/matcher.py:123-151 | an order-preserving subsequence of the catalog holding exactly the cars whose type equals the requested one ignoring case (when one is given) and whose price range equals the requested one (when one is given), each as often as it occurs in the catalog |
| Matcher.MinMatchIgnored | src/matcher.py:123-151 | the minimum-match argument never changes the result |
| Matcher.NoCriteriaKeepsAll | src/matcher.py:140-151 | with no type and no price range (or empty ones), the whole catalog is returned |
| Matcher.TypeFilterIgnoresCase | src/matcher.py:142-143 | asking for a type or for its lower-case form selects the same cars |
| Matcher.CriteriaCompose | src/matcher.py:140-149 | filtering by type and price at once equals filtering by type, then by price |
| Matcher.GetStatistics | src/matcher.py:153-197 | an empty catalog reports only `total_cars = 0`; otherwise the total is the catalog size, each distribution has distinct keys, each taken from that field of some car with a positive count, and counts summing to the total, the average vector is the per-dimension mean of the catalog and the dimension names are the fixed five |
| Matcher.AverageVector | src/matcher.py:181-188 | five components, each of which times the number of cars is the sum of that dimension over the catalog |
| Matcher.DistributionsCountCars | src/matcher.py:163-179 | each distribution maps every value to the number of cars holding it in that field (with `'Unknown'` for a missing field) |
| Matcher.ColumnSumBounds | src/matcher.py:186-188 | when every car's component lies in [lo, hi], the column sum lies between n·lo and n·hi |
| Matcher.AverageVectorBounds | src/matcher.py:181-188 | when every car's vector lies in [lo, hi], so does every component of the average vector |
| Matcher.AverageOfOneCar | src/matcher.py:181-188 | the average vector of a one-car catalog is that car's vector |
| Matcher.Others | src/matcher.py:218-220 | exactly the catalog cars without the reference id, in catalog order, each as often as it occurs |
| Matcher.Reference | src/matcher.py:210 | the car found for a known id is a valid catalog car having that id |
| Matcher.RecommendSimilarCars | src/matcher.py:199-234 | nothing for an unknown id; otherwise catalog cars other than the reference id, sorted by similarity descending, at most `top_n` of them, as many as the slice of the other cars allows, each scored against the reference car's vector with similarity in [0, 100] and score = similarity / 100, drawn without repetition from the scored other cars, and none left out more similar than one returned |
| Matcher.SimilarCarsKeepTies | src/matcher.py:231-234 | the recommendations are a prefix of the stable descending sort of the scored other cars, in which cars of equal similarity keep catalog order |
| Matcher.UniqueIdLeavesOthers | src/matcher.py:218-220 | when exactly one car has the reference id, every other car is a candidate |
| Ranking.SortDesc | src/matcher.py:103 | the sort returns as many entries as it was given, in non-increasing score order |
| Ranking.SortDescPermutes | src/matcher.py:103 | the sort is a permutation of its input |
| Ranking.SortDescStable | src/matcher.py:103 | for every score, the entries having it appear in input order |
| Ranking.TopN | src/matcher.py:102-106 | sorted, of Python slice length, a sub-multiset of the input, and every dropped entry scores at most as much as every kept one |
| Ranking.TopNIsStablePrefix | src/matcher.py:102-106 | the truncated ranking is a prefix of the stable sort |
| Seqs.SliceLength | src/matcher.py:106 | the length of `s[:n]`, counting back from the end for a negative `n` |
| Tally.BumpLookup | src/matcher.py:171 | one counting step adds one to the count of the key and leaves every other key's count alone |
| Tally.BumpTotal | src/matcher.py:171 | one counting step adds one to the total |
| Tally.Counts | src/matcher.py:164-179 | the counting dictionary has distinct keys, drawn from the input, whose counts sum to the input length |
| Tally.CountIsOccurrences | src/matcher.py:168-179 | looking any key up gives the number of its occurrences in the input |
| Tally.CountCoversKeys | src/matcher.py:168-179 | a key has a positive count exactly when it occurs in the input |
| Tally.EntryCountsOccurrences | src/matcher.py:168-179 | each entry holds the positive number of occurrences of its key |
| Tally.CountsPositive | src/matcher.py:168-179 | the counting dictionary holds only keys that occur in the input, each with a positive count |
| Text.Lower | src/matcher.py:142 | `lower()` maps each character to its lower-case form and keeps the length |
| Personality.CalculatePersonalityVector | src/personality.py:35-72 | five components; the neutral vector for no answers; otherwise each component is the clamped, scaled mean of that dimension over all answers, and lies in [1, 5] |
| Personality.Component | src/personality.py:60-70 | a component always lies in [1, 5] |
| Personality.MalformedAnswerCounts | src/personality.py:52-63 | an answer whose weights are missing (read as five zeros) or not five long adds nothing to any sum but still counts in the divisor |
| Personality.MalformedAnswerDilutes | src/personality.py:52-70 | with non-negative weights, adding an answer whose weights are missing or not five long can only lower a component |
| Personality.TwoAnswersAverage | src/personality.py:35-72 | answers weighted all-5 and all-1 give 3 in every dimension |
| Personality.BandOf | src/personality.py:87-94 | Alto exactly from 4, Medio-Alto exactly in [3, 4), Medio exactly in [2, 3), Bajo exactly below 2 |
| Personality.BandMonotone | src/personality.py:87-94 | a higher score never lands in a lower band |
| Personality.RenderDescription | src/personality.py:96 | the rendered description opens with the band's label and ` (` and closes with `/5.0)` |
| Personality.RenderedBandDetermined | src/personality.py:86-96 | two descriptions rendered to the same text have the same band, whatever the score formatting |
| Personality.GetPersonalityDescription | src/personality.py:74-98 | one description per dimension that has a score, holding that score and its band, and nothing else |
| Personality.GetDominantTraits | src/personality.py:100-117 | a subsequence of the dimension names, holding a name exactly when that dimension reaches the threshold, and every name it holds is that of a dimension within the vector that reaches it |
| Personality.DominantTraitWitness | src/personality.py:113-117 | every reported trait names a dimension whose score reached the threshold |
| Personality.CalculatePersonalitySimilarity | src/personality.py:119-141 | the similarity lies in [0, 100], is 0 when the lengths differ, and is 100 for equal vectors |
| Personality.FirstApplicable | src/personality.py:161-171 | the index of the first rule whose traits are all present, or none when no rule applies |
| Personality.ElaborationIsFirstApplicableRule | src/personality.py:161-171 | the elaboration is the sentence of the first rule that applies, in the order {Sostenibilidad, Tech-savvy}, {Prestaciones, Lujo y Confort}, {Versatilidad}, {Sostenibilidad}, {Tech-savvy}, or nothing |
| Personality.GeneratePersonalityInsights | src/personality.py:143-173 | the balanced sentence when no trait reaches 3.5; otherwise the trait-list prefix, the dominant traits joined by `, `, `. ` and the sentence of the first insight rule the traits satisfy, or nothing |
| Personality.InsightNamesTraits | src/personality.py:156-159 | with a dominant trait the insight opens with the trait-list prefix and is not the balanced sentence |
| Personality.InsightsBalancedIff | src/personality.py:153-173 | the balanced sentence is produced exactly when no dimension reaches 3.5 |
| Personality.ExportPersonalityProfile | src/personality.py:175-193 | the profile holds the vector itself, the descriptions, dominant traits and insight that the other three operations give for the same vector, and a name-to-score map that sends each dimension name to the score at the same index and has no other key |
| Personality.ProfileScoresAgree | src/personality.py:185-193 | the descriptions and the name-to-score map cover the same dimensions with the same scores |
| Personality.ProfileTraitsAgree | src/personality.py:185-193 | a dimension is a dominant trait exactly when its score reaches 3.5, and then its band is at least Medio-Alto |
| Personality.ProfileInsightAgrees | src/personality.py:185-193 | the insight is the balanced sentence exactly when the profile lists no dominant trait |
| Dimension.NamesDistinct | src/personality.py:24-30 | five dimension names, pairwise different |
| Consistency.SimilarityIsMatchScore | src/personality.py:119-141 | personality similarity and the catalog match score agree on every pair of vectors |
| Consistency.SimilaritySymmetric | src/personality.py:130-141 | personality similarity is symmetric |
| Utils.ValidateVectorDimensions | src/utils.py:105-120 | a vector validates exactly when it is a list of the expected length whose elements are all numbers (booleans included); then it decodes to that many reals that encode back to equal values |
| Utils.VectorRoundTrip | src/utils.py:105-120 | every list of reals encodes to a vector that validates at its own length and decodes back to itself |
| Utils.ValidateVectorBooleans | src/utils.py:116-120 | a list of booleans validates, and its elements read as 1 and 0; a list whose first element is a string or null does not validate |
| Utils.SafeGetNested | src/utils.py:122-140 | an empty key path returns the data itself |
| Utils.SafeGetNestedFollowsPath | src/utils.py:122-140 | the result is the value at the end of the key path when every step exists and is a dictionary lookup, and the default otherwise |
| Utils.CreateProgressBar | src/utils.py:89-103 | never above 1; 1 for a non-positive total; otherwise 1 exactly when `current >= total`, non-negative for non-negative progress, and exactly `current / total` below the total |
| Utils.ProgressBarMonotone | src/utils.py:100-103 | more progress never gives a smaller fraction |
| Utils.FormatFeaturesList | src/utils.py:69-87 | the fixed paragraph for no features; otherwise the text opens with the `<ul>` tag, ends with `</ul>`, and what lies between is exactly the features' items |
| Utils.FeatureItemsInOrder | src/utils.py:82-85 | each feature yields exactly one `<li>✅ …</li>` item, after the items of every earlier feature |
| Utils.FormatFeaturesListEmptyIff | src/utils.py:79-87 | the fixed paragraph appears exactly when there are no features |

## Left out

- The Streamlit application (`app.py`) is not part of this model: page layout, session state, charts and share links are UI.
- The I/O and rendering helpers of the utility module (`load_json_data`, the image helpers, the card and result renderers, the share buttons) and `generate_share_text` are out: they read files or draw widgets, and the share text is emoji copy around a formatted number.
- Floating point: numbers are reals, so rounding in sums, divisions and `np.sqrt` is not modelled. The square root is a parameter satisfying `Numeric.IsSqrt`.
- The one-decimal formatting `f"{score:.1f}"` of a description is the parameter `formatScore` of `Personality.RenderDescription`. The model keeps the band and the score it was computed from.
- Matcher.NewMatcher: requires `Matcher.CarsLoadable`, which excludes exactly the inputs on which the source raises while validating. These are a `cars` that is null, a number or a boolean (`TypeError` when iterating), an entry that is null, a number or a boolean (`TypeError` at `field in car`), and a string or list entry, or a key of a dict `cars`, that contains all four field names (`AttributeError` at `car.get`). Every other string or list entry is skipped, as the source skips it.
- Matcher.FilterCarsByCriteria: with a type filter, requires every car's `type`, when present, to be a string (`Matcher.TypesAreStrings`). The source calls `.lower()` on it and raises otherwise.
- Matcher.GetStatistics: requires the counted fields (`type`, `brand`, `price_range`) to be hashable (`Matcher.KeysHashable`). A list or object there makes the source raise. The per-dimension default of 0 for short vectors never applies, because every catalog car has five components.
- Personality.GetDominantTraits: requires no score past the fifth to reach the threshold (`Personality.NoTraitPastLastDimension`). Such a score makes the source index past the five names and raise. `GeneratePersonalityInsights` and `ExportPersonalityProfile` inherit the requirement.
- Personality.CalculatePersonalityVector: an answer's `weights` is either missing or a list of numbers. A `weights` value of another type (a string, a dict) that happens to have length five makes the source add non-numbers or raise, which is not modelled.
- Personality.CalculatePersonalityVector: the per-dimension weights are a parameter. The source always uses all ones (`Personality.DefaultDimensionWeights`).
- Personality.CalculatePersonalitySimilarity: its own contract states only one direction of the identity case. The full if-and-only-if, and every other fact, follows from `Consistency.SimilarityIsMatchScore` and the contract of `Matcher.CalculateMatchScore`.
- Personality.GetPersonalityDescription: the result is a map, so the insertion order of Python's dict is not modelled.
- Text.Lower: lower-cases only the Basic Latin and Latin-1 upper-case letters, not the whole of Unicode.
- Matcher.RecommendSimilarCars: the source's `if not reference_car` also rejects a found but empty dict. That never happens here, because a catalog car always has its four required fields.
- Dictionaries returned by the source are modelled as datatypes: `Ranking.Scored` for a match or similarity entry, `Matcher.Statistics` for the summary and `Personality.Profile` for the profile.
