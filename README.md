# Pairwise-bounded quadratic funding calculators

A model of the "CLR" (capital-constrained liberal radicalism) matching
calculators used for Gitcoin grant rounds. Every calculator takes
`[grant_id, user_id, amount]` contribution records and then does the
following:

- It folds the records into `contrib_dict = {grant: {user: summed amount}}`.
- It builds the pair totals `tot_overlap[a][b]`. Each entry is the sum of
  `sqrt(v_a * v_b)` over every grant that both users gave to.
- It scores every grant by a pairwise formula, bounded by a threshold:
  - the division form `sqrt(v1 v2) / (overlap / t + 1)`;
  - the min-capped form `sqrt(v1 v2) * min(1, t / overlap)`;
  - a form with a verified and an unverified threshold;
  - a negative-vote form.
- It post-processes the per-grant totals. Depending on the round, that means
  any of the following:
  - normalising to the pot;
  - a saturation flag;
  - caps;
  - zero-filling of missing grants;
  - reconciling positive against negative votes;
  - decaying the previous round;
  - "live" what-if curves;
  - sweeps over transaction prefixes.
- Some rounds search for the threshold whose total equals the pot.

The model has two layers:

- **Shared engine.** Its modules are `Basics`, `Aggregation`, `PairOverlap`,
  `MatchEngine`, `Monotonicity`, `Distribution`, `GrantStats`, `Translation`,
  `LiveDonation` and `ThresholdSearch`.
  - Each script loop becomes a Dafny method.
  - Each method is proved against a specification function.
  - The properties of those functions are proved as lemmas.
- **Per-script modules.** Each one composes the engine the way its script
  does.

Modelling choices:

- Amounts are exact `real`s.
- The square root is a parameter `sqrt` constrained by `IsSqrt`: it is
  non-negative, and its square is its argument.
- Python dicts keep insertion order, so both levels of `contrib_dict` are
  association lists in first-appearance order.
- `tot_overlap`, which is only ever looked up, is a map of maps.
- Ids are integers, so `k2 > k1` is an integer comparison.
- A Python exception that depends on computed values is a `Result`:
  - `ZeroDivisionError` in normalisation, and in the min-form division of contrib_calculator_r3_test.py;
  - `UnboundLocalError` and `ValueError` (from `math.sqrt` of a negative product) in clr.py;
  - `ValueError` from `math.sqrt` of a negative reconciled amount in `calculate_new_clr_final` of contrib_calculator_r5.py.
- A demand on the caller is a `requires`. Examples: the grant must be a key,
  and the pair totals must hold the pair.

## Model

| member | source | states |
|---|---|---|
| Basics.SqrtOfSquare | contrib_calculator_r5.py:273-275 | The self term `(v*v) ** 0.5` is the absolute value of v. |
| Basics.Dedup | contrib_calculator_r7.py:87-93 | First-appearance de-duplication has no repeats and keeps exactly the elements of its input. |
| Basics.DedupOfDistinct | contrib_calculator_r7.py:87-93 | A list without repeats is its own de-duplication. |
| Basics.FlattenLoop | contrib_calculator_consensys.py:193-196 | The nested append loop yields the blocks one after the other. |
| Basics.FlattenMember | contrib_calculator_consensys.py:193-196 | An element is in the flattened list iff it is in some block. |
| Basics.FlattenSound | contrib_calculator_consensys.py:193-196 | Every flattened element comes from a block, and the lemma returns which one. |
| Basics.FlattenComplete | contrib_calculator_consensys.py:193-196 | Every element of every block is in the flattened list. |
| Aggregation.Aggregate | contrib_calculator_r5.py:219-223 | The accumulation loop builds exactly the reference fold of the records. |
| Aggregation.AggregateAmounts | contrib_calculator_r5.py:219-223 | `contrib_dict[g][u]` is the sum of the amounts of all records for (g, u), and 0 if there are none. |
| Aggregation.AggregateGrants | contrib_calculator_r5.py:219-223 | The grants of `contrib_dict` are the records' grant ids, each once, in order of first appearance, so a grant is a key iff some record names it. |
| Aggregation.AggregateUsers | contrib_calculator_r5.py:219-223 | A grant's contributors are the users of its records, each once, in order of first appearance. |
| Aggregation.AggregateWellFormed | contrib_calculator_r5.py:219-223 | No grant and no contributor within a grant is repeated, and every grant has at least one contributor. |
| Aggregation.AggregateSignConsistent | contrib_calculator_r5.py:219-223 | Records whose amounts share one sign aggregate to amounts of that sign within every grant. |
| Aggregation.PostDonors | contrib_calculator_r5.py:221-223 | One record adds its grant if it is new, and changes only that grant's entry for its user, by its amount. |
| Aggregation.KeysCredit | contrib_calculator_r5.py:223 | `d.get(user, 0) + amount` appends a new user at the end and keeps the order of the existing ones. |
| Aggregation.AmountOfCredit | contrib_calculator_r5.py:223 | Crediting (u, a) adds a to u's amount and leaves every other user's amount unchanged. |
| PairOverlap.PairTotals | contrib_calculator_r5.py:225-233 | The triple loop builds exactly the reference pair totals of the ledger. |
| PairOverlap.AddGrant | contrib_calculator_r5.py:227-233 | The loop over one grant's rows adds that grant's contributions to the running pair totals. |
| PairOverlap.AddRow | contrib_calculator_r5.py:230-233 | The loop over k2 adds row k1's terms, creating missing entries at 0 first. |
| PairOverlap.OverlapEntries | contrib_calculator_r5.py:225-233 | The rows of `tot_overlap` are exactly the contributors, and entry (a, b) exists iff a and b gave to a common grant. |
| PairOverlap.OverlapValues | contrib_calculator_r5.py:225-233 | `tot_overlap[a][b]` is the sum of `sqrt(v_a * v_b)` over the grants containing both, in grant order. |
| PairOverlap.OverlapSymmetric | contrib_calculator_r5.py:225-233 | The same entries exist in both directions, with equal values. |
| PairOverlap.OverlapDiagonal | contrib_calculator_r5.py:225-233 | Every contributor has an entry with themself. |
| PairOverlap.OverlapCovers | contrib_calculator_r5.py:225-233 | Every pair of contributors of a common grant has an entry, so the match loops' lookups succeed. |
| PairOverlap.OverlapNonNegative | contrib_calculator_r5.py:225-233 | With a true square root and amounts of one sign within each grant, every entry is at least 0. |
| PairOverlap.PairScoreAtLeast | contrib_calculator_r5.py:225-233 | An entry is at least the root that any single common grant contributes to it. |
| MatchEngine.RawTotals | contrib_calculator_r5.py:256-264 | The grant loop emits one award per grant, in order, each carrying that grant's score, and `bigtot` is the sum of the awards. |
| MatchEngine.GrantMatch | contrib_calculator_r5.py:258-262 | The double loop over one grant's contributors computes that grant's score under the rule. |
| MatchEngine.RowMatch | contrib_calculator_r5.py:260-262 | The loop over k2 adds row k1's terms to the running `tot`. |
| MatchEngine.RawShape | contrib_calculator_r5.py:256-264 | One award per grant, with the ids in grant order, and each amount is its grant's score. |
| MatchEngine.LoneContributorNoMatch | contrib_calculator_r5.py:261 | Under the `k2 > k1` forms, a grant with a single contributor scores 0. |
| MatchEngine.LoneNegativeVoter | contrib_calculator_r5.py:266-277 | In negative mode, a lone contributor of amount v scores \|v\|, the unscaled self term. |
| MatchEngine.DividedMonotone | contrib_calculator_r4_vitalik.py:50-54 | For p ≥ 0, the division term lies in [0, root] and does not decrease as the threshold grows. |
| MatchEngine.CappedMonotone | contrib_calculator_r3_test.py:44-47 | For p > 0, the min-capped term lies in [0, root] and does not decrease as the threshold grows. |
| Monotonicity.TermMonotone | contrib_calculator_r4_vitalik.py:50-54 | A pair's term is non-negative and monotone in the threshold, under both forms. |
| Monotonicity.TotalsMonotone | contrib_calculator_r4_vitalik.py:46-57 | Every grant's score is non-negative and monotone in the threshold. |
| Monotonicity.BigTotalMonotone | contrib_calculator_r4_vitalik.py:55-67 | `bigtot` is non-negative and does not decrease as the threshold grows, which is the direction the search's updates rely on. |
| Monotonicity.LedgerReadyAt | contrib_calculator_r4_vitalik.py:54 | Under the stated pair-total conditions, every positive threshold (any threshold, for the min form) gives defined terms and existing lookups. |
| Monotonicity.RecordsReady | contrib_calculator_r5.py:218-235 | The aggregate and pair totals built from records of one sign meet those conditions for the division form. For the min form they also need every `k2 > k1` pair total of a grant to be non-zero. |
| Monotonicity.LedgerOkFromOverlap | contrib_calculator_r3_test.py:16-24 | Pair totals built from a same-sign ledger are lookups that exist and are at least 0, and for the min form they are positive exactly where they are non-zero. |
| Monotonicity.NonZeroMinDefined | contrib_calculator_r3_test.py:47 | When no aggregated amount is 0, no pair total that the min form divides by is 0. |
| Monotonicity.StrictRecordsDefined | contrib_calculator_frank.py:43 | Records that are all positive, or all negative, are sign-consistent, and the min form never divides by 0 on them. |
| Distribution.Rescale | contrib_calculator_r4.py:184-185 | The division loop fails with ZeroDivisionError iff the factor is 0 and there is an award. Otherwise it divides every amount by the factor and keeps the ids. |
| Distribution.Normalize | contrib_calculator_r4.py:181-185 | Normalisation by `bigtot / total_pot` is the reference normalisation. |
| Distribution.NormalizeFails | contrib_calculator_r5.py:311-319 | Normalisation fails iff the pot is 0, or there is an award and the awards sum to 0. |
| Distribution.NormalizeProportional | contrib_calculator_r5.py:311-319 | Otherwise the ids and order are kept, and every amount is scaled to amount × pot / bigtot. |
| Distribution.NormalizeSumsToPot | contrib_calculator_r5.py:320-324 | Otherwise the normalised amounts of a non-empty list add up to the pot. |
| Distribution.ScaledTotal | contrib_calculator_r5.py:318-324 | Dividing every amount by f divides their sum by f. |
| Distribution.SumAmounts | contrib_calculator_r5.py:311-313 | The `bigtot` loop sums the amounts. |
| Distribution.Clamp | contrib_calculator_consensys.py:166-169 | The clipped value is at most both the value and the cap, and is one of the two. |
| Distribution.AmountForFirst | contrib_calculator_r4.py:298 | `filter(...)[0]` picks the amount of the first award for the grant. |
| GrantStats.Tally | contrib_calculator_consensys.py:131-136 | The tally loop yields the grant's amount total and its number of contributors. |
| GrantStats.CalculateClr | contrib_calculator_consensys.py:123-141 | One record per grant, in order, with the division-form clr, `one_match`, `num_contrib` and `avg_ca`. `total_pot` is not used. |
| GrantStats.StatsMatchRaw | contrib_calculator_consensys.py:125-130 | The `clr_amount`s are the division-form scores over `k2 > k1` pairs, grant for grant. |
| GrantStats.AverageTimesCount | contrib_calculator_consensys.py:131-137 | `num_contrib` ≥ 1, and `avg_ca * num_contrib == one_match`. |
| GrantStats.StatsOfRecords | contrib_calculator_consensys_plus.py:131-139 | `one_match` is the total the grant's records raised, and `num_contrib` is its number of distinct contributors. |
| GrantStats.AggregateRaised | contrib_calculator_consensys_plus.py:89-94 | The aggregated amounts of a grant add up to the total of its records. |
| GrantStats.ValuesCredit | contrib_calculator_consensys_plus.py:94 | Crediting a contributor raises the grant's total by the amount. |
| GrantStats.StatsReady | contrib_calculator_consensys_plus.py:123-141 | Records of one sign can be tallied at every positive threshold, and no grant is empty. |
| Translation.TranslateData | contrib_calculator_r5.py:192-200 | The nested loops produce the reference translation. |
| Translation.TranslateLength | contrib_calculator_r5.py:192-200 | Exactly one triple is produced per contribution entry. |
| Translation.TranslateAt | contrib_calculator_r5.py:192-200 | Entry j of grant k becomes the triple at position (entries before grant k) + j, so grants and entries keep input order. |
| Translation.UpToKeeps | contrib_calculator_r5.py:194-198 | Later entries only append to the output. |
| LiveDonation.InjectAsRecord | contrib_calculator_r4.py:135-136 | Adding the trial amount to the copy is the same as aggregating one more record (grant, live user, amount). |
| LiveDonation.InjectEffect | contrib_calculator_r4.py:135-136 | Only `copy[grant][live_user]` changes, by the trial amount. The grants and every other amount are unchanged. |
| LiveDonation.InjectOthers | contrib_calculator_r4.py:136 | Every other grant keeps its contributors exactly. |
| LiveDonation.InjectZero | contrib_calculator_consensys_live.py:76 | A zero trial amount changes no amount. It only adds the live user, at 0, if they were absent. |
| LiveDonation.Variants | contrib_calculator_consensys_live.py:74-87 | There is one (copy, pair totals) pair per trial amount. Each copy is the base with that amount injected, and each pair totals are recomputed from that copy alone. |
| LiveDonation.VariantOf | contrib_calculator_r4.py:135-147 | One trial amount gives the deep copy with the amount added, and that copy's own pair totals. The grant must already be a key. |
| LiveDonation.VariantReady | contrib_calculator_r4.py:126-147 | A variant of non-negative records with a non-negative trial amount can be scored at every positive threshold. |
| LiveDonation.Deltas | contrib_calculator_r4.py:300 | The first value is kept, and every later value is replaced by its difference from the first. |
| LiveDonation.Offsets | contrib_calculator_consensys_live.py:139 | The curve starts at 0, and each entry is the value minus the first value. |
| ThresholdSearch.Bisect | contrib_calculator_r4_vitalik.py:31-68 | The result covers at most 100 rounds. Its properties: <br>• lower_bound ≤ lower < upper ≤ pot; <br>• the interval brackets the pot; <br>• the returned `bigtot` and `totals` are the evaluation at the returned threshold. That threshold is an extra output of the model: the last one evaluated. The script keeps no such value, and after 100 rounds it prints a midpoint it never evaluated; <br>• the search stops early iff `bigtot == pot`, otherwise after 100 rounds, with the width halved 99 times. |
| ThresholdSearch.Round | contrib_calculator_r4_vitalik.py:36-67 | Each round evaluates at the midpoint. Below the pot, lower moves to it; above the pot, upper moves to it; at equality, nothing moves. The bracket is kept. |
| ThresholdSearch.WidthHalvings | contrib_calculator_r3_test.py:58-61 | Halving n times divides the width by 2^n. |
| ThresholdSearch.RootInBracket | contrib_calculator_r3_test.py:53-61 | Any threshold whose `bigtot` equals the pot lies strictly inside the moved ends of the interval. |
| ThresholdSearch.BigTotalOrder | contrib_calculator_r3_test.py:47-50 | `bigtot` does not decrease between two thresholds. |
| RoundThreeTest.Run | contrib_calculator_r3_test.py:10-61 | Aggregation and pair totals of the loaded records, then the min-form search on [0, 100000]. <br>• It fails with ZeroDivisionError iff some `k2 > k1` pair of a grant has a pair total of 0; records with amount 0 are otherwise accepted. <br>• Otherwise it reports an evaluated threshold in (0, 100000] with one award per grant in order. <br>• `found` holds iff `bigtot` equals the pot. |
| RoundThreeTest.ZeroAmountAccepted | contrib_calculator_r3_test.py:42-47 | A user giving 0 to grant 1 and 4 to grant 2, next to a user giving 9 to both, leaves every pair total non-zero, so the run proceeds. |
| RoundThreeTest.ZeroPairFails | contrib_calculator_r3_test.py:42-47 | Two users whose only common grant has one of them at 0 have a pair total of 0, so the run raises ZeroDivisionError. |
| VitalikDivision.Selected | contrib_calculator_r4_vitalik.py:9 | The comprehension keeps exactly the lines of the grant type, as (project, user, amount). |
| VitalikDivision.GetRawGrants | contrib_calculator_r4_vitalik.py:4-25 | It returns the aggregate of the selected records and that aggregate's pair totals. |
| VitalikDivision.CalculateClr | contrib_calculator_r4_vitalik.py:31-68 | The script returns `(bigtot, totals)`; these are the division-form evaluation, with one award per grant. The model also returns the threshold they were evaluated at, in (lower_bound, pot]. The script has no such output: after 100 rounds it prints a midpoint it never evaluated. |
| VitalikDivision.Run | contrib_calculator_r4_vitalik.py:28-29 | Each search reports a threshold in (0, pot] (pot 125000 for tech, 75000 for media), with the division-form totals and `bigtot` evaluated there on the aggregate of that type's lines and its pair totals. There is one award per grant of the type, in first-appearance order. |
| Frank.Contribs | contrib_calculator_frank.py:8 | The fixture has 8 records, all with positive amounts. |
| Frank.Search | contrib_calculator_frank.py:28-58 | The reported `bigtot` and `totals` are the min-form evaluation at the last evaluated threshold, and equality with the pot leaves the threshold there. <br>• Below the pot, the threshold moves halfway to the fixed upper bound 2·pot: (evaluated + 2·pot)/2. <br>• Above the pot, it moves halfway to the fixed lower bound 0: evaluated/2. <br>• For a non-negative pot, both thresholds stay within [0, 2·pot]. |
| Frank.Run | contrib_calculator_frank.py:8-58 | The search on the aggregate of the fixture records and its pair totals. <br>• `totals` and `bigtot` are the min-form evaluation there. <br>• The final threshold is the halfway move that evaluation calls for. <br>• There is one award per fixture grant, in first-appearance order. |
| Clr.UniqueContributions | clr.py:29-35 | The per-profile fold of all entries' items, in order. |
| Clr.CreditEntry | clr.py:30-35 | Crediting one entry's items extends the fold by those items. |
| Clr.FoldAmount | clr.py:29-35 | Every profile ends with the total of its items. |
| Clr.FoldProfiles | clr.py:29-35 | The profiles of the fold are those of the items, each once, in order of first appearance. |
| Clr.Pairs | clr.py:39 | Fewer than two values give no combination. |
| Clr.PairsCount | clr.py:39 | n values give n(n−1)/2 combinations. |
| Clr.PairsMember | clr.py:39 | (a, b) is a combination iff a and b are the values at two positions i < j. |
| Clr.CalculateGrantLr | clr.py:26-53 | It fails with ValueError iff some combination of the folded amounts has a negative product. Otherwise the terms are the roots of the products of the 2-combinations, and `grant_lr` is their sum. The threshold is unused. |
| Clr.GrantTermsCount | clr.py:39-47 | A grant with n distinct profiles has n(n−1)/2 terms. |
| Clr.GrantTermsNonNegative | clr.py:44-47 | With non-negative amounts, every term is non-negative. |
| Clr.GrantLrLoop | clr.py:57-65 | It fails with ValueError iff some grant has a negative product. Otherwise there is one record per input grant, in order, carrying its id, `grant_lr` and term list. |
| Clr.AdjustBounds | clr.py:74-79 | With a threshold ≥ 1, an adjusted term lies in [0, term]. A term above the threshold is divided by it and stays above 1. |
| Clr.GrantClrBelow | clr.py:71-81 | When every term is at most the threshold, the intended clr is `grant_lr` itself. |
| Clr.GrantClrBounds | clr.py:71-81 | With a threshold ≥ 1 and non-negative terms, the intended clr lies in [0, `grant_lr`]. |
| Clr.SumAdjusted | clr.py:71-81 | The term loop with one reset per grant sums the adjusted terms. It fails with ZeroDivisionError iff a positive term meets a zero threshold. |
| Clr.ClrLoop | clr.py:67-86 | Every record gets the sum of its adjusted terms, and `total_clr` is the sum of those clr values. It fails iff some division is by zero. |
| Clr.CalculateClr | clr.py:55-86 | The corrected calculate_clr. It gives ValueError on a negative product and ZeroDivisionError iff a positive term meets a zero threshold. Otherwise each grant's clr is the sum of its adjusted terms, and `total_clr` is their sum. |
| Clr.GrantsClrCalculate | clr.py:88-91 | calculate_clr as written at threshold 15; the pot is unused. <br>• A negative product gives ValueError. <br>• Otherwise the result follows the last-term rule of `LastClrs`, and the only possible failure is UnboundLocalError. |
| Clr.GrantsClrCalculateSummed | clr.py:88-91 | The same call with the corrected calculate_clr: ValueError on a negative product, otherwise the summed records and their total, never a failure. |
| Clr.LastClrsUnbound | clr.py:71-83 | With a non-zero threshold, the loop as written can fail only with UnboundLocalError. |
| Clr.CalculateClrAsWritten | clr.py:55-86 | calculate_clr as written: ValueError on a negative product. Otherwise the records and `total_clr` follow the last-term rule of `LastClrs`, including its failures. |
| Clr.ClrLoopAsWritten | clr.py:67-86 | The loop as written leaves each grant's last adjusted term, and `total_clr` is their sum. |
| Clr.LastAdjusted | clr.py:71-81 | Resetting before every term leaves the last adjusted term. With no terms, it leaves the previous value. |
| Clr.LastClrsRule | clr.py:71-83 | As written: <br>• a grant with terms gets its last adjusted term; <br>• a later grant without terms repeats the value before it; <br>• a first grant without terms has no value. |
| Clr.FirstPairlessFails | clr.py:71-83 | A first grant without terms raises UnboundLocalError. |
| Clr.SingleTermsAgree | clr.py:71-83 | When every grant has exactly one term, the as-written and the intended results agree. |
| Clr.LastTermOnly | clr.py:71-83 | Terms 1 and 2 below threshold 15: as written the clr is 2, where the intended sum is 3. |
| Clr.SecondGrantFold | clr.py:13-23 | Grant '2' of the fixture folds to {1: 17, 4: 2, 5: 5, 3: 20}. |
| Clr.FirstThreeFold | clr.py:15-18 | The first three contributions of grant '2' come from three distinct profiles and are kept as they are. |
| Consensys.ClipAndTag | contrib_calculator_consensys.py:165-170 | Every record is clipped at the cap in `clr_amount` and `one_match` and tagged with x. |
| Consensys.Step | contrib_calculator_consensys.py:162-170 | One pass aggregates exactly `_data[0:x]`, runs calculate_clr, then clips and tags. |
| Consensys.StepIds | contrib_calculator_consensys.py:162-163 | A prefix's block has one record per grant of that prefix, in order of first appearance. |
| Consensys.StepBounds | contrib_calculator_consensys.py:165-170 | Every record is tagged with x and is ≤ cap in both amounts. Values below the cap are unchanged. |
| Consensys.PrefixBlocks | contrib_calculator_consensys.py:161-191 | `res` holds one block per x in 0 .. len(_data) − 1. |
| Consensys.CalculateClrByTxn | contrib_calculator_consensys.py:158-197 | The output is the flattened blocks filtered to the prefix lengths divisible by the bin size. |
| Consensys.BinnedMember | contrib_calculator_consensys.py:197 | A record is kept iff it is in the input and its `txns` is divisible by the bin size. |
| Consensys.SweepRows | contrib_calculator_consensys.py:158-197 | Every output record satisfies 0 ≤ txns < len(_data), so the full data set is never aggregated. Its txns is divisible by the bin size, and it is clipped at the cap. |
| ConsensysPlus.Range | contrib_calculator_consensys_plus.py:165 | `range(start, stop, step)` has the values start + i·step, each below stop, and it reaches stop. |
| ConsensysPlus.Pots | contrib_calculator_consensys_plus.py:159 | Every pot lies in [10000, upper_pot). |
| ConsensysPlus.Caps | contrib_calculator_consensys_plus.py:160 | The percentage caps lie in [0.05, 0.6), and the last cap is 99999999. |
| ConsensysPlus.Prefixes | contrib_calculator_consensys_plus.py:165 | The prefix lengths are the multiples of bin_size from 0 up to below txns + bin_size. |
| ConsensysPlus.SliceLen | contrib_calculator_consensys_plus.py:166 | `_data[0:x]` has length min(x, len(_data)). |
| ConsensysPlus.Missing | contrib_calculator_consensys_plus.py:212-215 | The missing ids are exactly the data's grants absent from the step's records, without repeats. |
| ConsensysPlus.TagRows | contrib_calculator_consensys_plus.py:170-174 | Every record is tagged with txns, total_pot, cap_pct and cap_amt = cap·total_pot. |
| ConsensysPlus.ClrSum | contrib_calculator_consensys_plus.py:194-196 | `bigtot` is the sum of the `clr_amount`s. |
| ConsensysPlus.NormalizeRows | contrib_calculator_consensys_plus.py:200-202 | Every `clr_amount` is divided by the factor, unless the factor is 0. |
| ConsensysPlus.CapRows | contrib_calculator_consensys_plus.py:205-209 | Both amounts are cut at cap·total_pot. |
| ConsensysPlus.FillMissing | contrib_calculator_consensys_plus.py:212-217 | One all-zero record, tagged like the others, is appended per missing grant. |
| ConsensysPlus.SweepStep | contrib_calculator_consensys_plus.py:166-217 | One grid point: calculate_clr on the prefix, then tag, normalise, cap and fill. |
| ConsensysPlus.NormalizedTotal | contrib_calculator_consensys_plus.py:193-202 | With a non-zero factor, the normalised `clr_amount`s add up to the pot. With a zero factor, they are unchanged. |
| ConsensysPlus.CappedRow | contrib_calculator_consensys_plus.py:205-209 | Capping keeps ids and tags, bounds both amounts by the cap amount, and leaves values below it unchanged. |
| ConsensysPlus.StepCovers | contrib_calculator_consensys_plus.py:212-217 | Each grid point has exactly one record per grant that occurs anywhere in `_data`. |
| ConsensysPlus.StepRow | contrib_calculator_consensys_plus.py:170-217 | Every record of a grid point carries its tags, and both amounts are ≤ the cap amount. Added records are all zero. |
| ConsensysPlus.CapSweep | contrib_calculator_consensys_plus.py:165-219 | The loop over prefix lengths appends one grid point's records per length. |
| ConsensysPlus.PotSweep | contrib_calculator_consensys_plus.py:163-219 | The loop over the caps repeats the prefix sweep for every cap. |
| ConsensysPlus.CalculateClrByTxn | contrib_calculator_consensys_plus.py:158-225 | The output is the flattened grid over pots × caps × prefix lengths. |
| ConsensysPlus.GridRow | contrib_calculator_consensys_plus.py:162-225 | Every record of the grid comes from one (pot, cap, x) point, carries its tags, and is capped at cap·pot. |
| ConsensysPlus.SweepRowsPlus | contrib_calculator_consensys_plus.py:158-225 | Every output record has a pot from the pot range and a cap from the cap list. Its txns is a multiple of bin_size below txns + bin_size. cap_amt = cap_pct·total_pot bounds both of its amounts. |
| ConsensysLive.Zip | contrib_calculator_consensys_live.py:88 | `zip` pairs the k-th copy with the k-th pair totals. |
| ConsensysLive.AggregateContributions | contrib_calculator_consensys_live.py:62-89 | One entry per selected id, each id a grant of the records, holding the five variants for amounts 0, 1, 10, 25 and 100. |
| ConsensysLive.FillVariants | contrib_calculator_consensys_live.py:70-88 | The loop over the ids fills exactly the selected grants with their variant lists. |
| ConsensysLive.GrantVariants | contrib_calculator_consensys_live.py:72-88 | The variants of one grant are the base with each trial amount injected, each paired with its own pair totals. |
| ConsensysLive.CalculateClr | contrib_calculator_consensys_live.py:97-116 | `bigtot` is the pre-normalisation sum. It fails with ZeroDivisionError iff the pot is 0, or there is a grant and the raw totals sum to 0. Otherwise the awards are the raw totals normalised to the pot, one per grant, adding up to the pot. |
| ConsensysLive.VariantListPrepared | contrib_calculator_consensys_live.py:70-87 | For non-negative records, every variant holds the grant and can be scored. |
| ConsensysLive.VariantPrepared | contrib_calculator_consensys_live.py:75-87 | One non-negative trial amount gives a variant that holds the grant and can be scored. |
| ConsensysLive.Grab | contrib_calculator_consensys_live.py:129-137 | The grab for variant k is the grant's normalised match there. It fails exactly when that variant's calculation does. |
| ConsensysLive.Matches | contrib_calculator_consensys_live.py:136-138 | One match per variant, in order, unless some calculation fails. |
| ConsensysLive.GrabNext | contrib_calculator_consensys_live.py:136-138 | One pass appends the next variant's match and keeps the earlier ones. |
| ConsensysLive.GrantCurve | contrib_calculator_consensys_live.py:135-140 | A grant's prediction curve starts at 0, and each entry is the match minus the amount-0 baseline. It fails iff some variant's calculation does. |
| ConsensysLive.CurveOfMatches | contrib_calculator_consensys_live.py:139 | The offsets of the matches form the prediction curve. |
| ConsensysLive.Curves | contrib_calculator_consensys_live.py:126-140 | Every zipped grant gets its prediction curve, unless some calculation fails. |
| ConsensysLive.Predictions | contrib_calculator_consensys_live.py:120-140 | The main block: exactly the selected grants are zipped, each with its variants, and each gets its curve, or the run fails with ZeroDivisionError. |
| RoundFour.AggregateContributionsLive | contrib_calculator_r4.py:113-149 | One variant: the aggregate with 0.00001 added for the live user on the grant, plus that copy's pair totals. The grant must be a key. |
| RoundFour.CalculateNewClr | contrib_calculator_r4.py:166-188 | The division-form totals over `k2 > k1`, normalised to the pot, with one award per grant in order. |
| RoundFour.RunCalc | contrib_calculator_r4.py:257-280 | The result is the division-form totals at threshold 25 of the aggregated records, normalised to the pot. It fails with ZeroDivisionError iff the pot is 0, or there is a grant and the raw totals sum to 0. Otherwise there is one award per grant in first-appearance order, adding up to the pot. |
| RoundFour.RunTechCalc | contrib_calculator_r4.py:257-263 | The tech records' division-form totals at threshold 25, normalised to 125000. It fails with ZeroDivisionError iff the pot is 0, or there is a grant and the raw totals sum to 0. Otherwise the awards add up to 125000. |
| RoundFour.RunMediaCalc | contrib_calculator_r4.py:274-280 | The media records' division-form totals at threshold 25, normalised to 75000. It fails with ZeroDivisionError iff the pot is 0, or there is a grant and the raw totals sum to 0. Otherwise the awards add up to 75000. |
| RoundFour.Predict | contrib_calculator_r4.py:296-299 | One pass takes the grant's normalised match in the variant. |
| RoundFour.RunLiveCalc | contrib_calculator_r4.py:291-303 | For the one trial amount, the curve is the grant's normalised match in the variant, or that variant's failure. |
| RoundFive.CalculateNewClr | contrib_calculator_r5.py:253-279 | One raw award per grant, in order. Positive mode counts `k2 > k1` pairs; negative mode also adds each voter's unscaled self term. |
| RoundFive.ZeroFill | contrib_calculator_r5.py:297 | The padding holds only zero awards for ids that are not yet present. |
| RoundFive.AwardList.constructor | contrib_calculator_r5.py:295 | The list the caller passes in. |
| RoundFive.AwardList.AppendMissing | contrib_calculator_r5.py:296-300 | The caller's list grows in place by the padding. |
| RoundFive.ZeroFillHas | contrib_calculator_r5.py:296-300 | An id is padded iff it is in the source and not yet present. |
| RoundFive.ZeroFillDistinct | contrib_calculator_r5.py:296-300 | A source without repeated ids gives padding without repeats. |
| RoundFive.PaddingUnion | contrib_calculator_r5.py:296-300 | After both paddings, each list holds exactly the ids of either list, once each. |
| RoundFive.NetBounds | contrib_calculator_r5.py:305-308 | The reconciled value is never negative. It is p when n = 0, at most p − n when n ≤ p, and 0 when p < n. |
| RoundFive.Reconcile | contrib_calculator_r5.py:302-308 | The double loop raises ValueError iff some matched pair reaches `math.sqrt` with a negative amount (p ≠ 0, p ≥ n, and p or n below 0). Otherwise it builds the reference reconciliation. |
| RoundFive.MatchRow | contrib_calculator_r5.py:304-308 | The inner loop raises ValueError iff one of the entry's matches reaches `math.sqrt` with a negative amount. Otherwise it appends the matches of one positive entry. |
| RoundFive.MatchesOne | contrib_calculator_r5.py:304-308 | Against a list without repeated ids, an entry matches exactly its own id once. |
| RoundFive.ReconcileLength | contrib_calculator_r5.py:302-308 | When every positive id has one negative entry, there is one result per positive entry. |
| RoundFive.ReconcileAt | contrib_calculator_r5.py:302-308 | Result i carries the id of positive entry i and the reconciled value of its amounts. |
| RoundFive.PaddedRootsDefined | contrib_calculator_r5.py:295-308 | Lists of non-negative awards, once padded with zero awards, never reach a root of a negative amount. |
| RoundFive.NegativeAmountFails | contrib_calculator_r5.py:305-308 | A positive total of 4 against a negative total of −1 for one grant raises ValueError. |
| RoundFive.SignRawNonNegative | contrib_calculator_r5.py:253-279 | On pair totals that meet the division form's needs, every award of calculate_new_clr is at least 0, in either mode. |
| RoundFive.SideClrNonNegative | contrib_calculator_r5.py:338-348 | Each side's awards, from records of one sign, are at least 0. |
| RoundFive.ReconciledIds | contrib_calculator_r5.py:302-308 | Reconciling keeps the ids of the positive list. |
| RoundFive.CalculateNewClrFinal | contrib_calculator_r5.py:295-327 | Both caller lists are padded in place. The result is ValueError when the reconciliation reaches a root of a negative amount. Otherwise it is the normalised reconciliation and its sum. |
| RoundFive.FinalOutcome | contrib_calculator_r5.py:295-327 | On lists without repeated ids, the result is ValueError iff a matched pair reaches a root of a negative amount. Otherwise it fails with ZeroDivisionError iff the pot is 0, or there is a grant and the reconciled amounts sum to 0. On success there is one result per id in the union, and the results add up to the pot. |
| RoundFive.RunR5 | contrib_calculator_r5.py:338-355 | calculate_new_clr of each side's aggregate: positive pairs, and negative pairs plus self terms. <br>• The negative list is padded from the positive one, then the positive from the padded negative. <br>• The result is the normalised reconciliation of the padded lists. <br>• Both lists hold the union of the grants. <br>• Both sides' awards are at least 0, so ValueError cannot occur. The only failure is ZeroDivisionError: when the pot is 0, or when there is a grant and the reconciled amounts sum to 0. Otherwise the result has the positive list's ids and sums to the pot. |
| RoundSix.Decayed | contrib_calculator_r6.py:81-82 | Every amount is a third of the original, and grants and users are unchanged. |
| RoundSix.CombinePreviousRound | contrib_calculator_r6.py:80-85 | The caller's previous list is divided by 3 in place, and the result is current followed by the decayed previous. |
| RoundSix.SumForDecayed | contrib_calculator_r6.py:81-82 | Decaying divides every (grant, user) total by 3. |
| RoundSix.CombinedAmount | contrib_calculator_r6.py:83 | After combining, a contributor's amount for a grant is the current total plus a third of the previous total. |
| RoundSix.DecayedSign | contrib_calculator_r6.py:81-83 | Decaying keeps every amount's sign. |
| RoundSix.CalculateClr | contrib_calculator_r6.py:141-164 | `saturation_point` holds iff bigtot ≥ pot. It fails with ZeroDivisionError iff the pot is 0, or there is a grant and the raw totals sum to 0. Otherwise every grant is rescaled regardless of the flag, so the awards add up to the pot. |
| RoundSix.ClrOf | contrib_calculator_r6.py:188-189 | The division-form totals of the aggregated records, normalised to the pot. It fails with ZeroDivisionError iff the pot is 0, or there is a grant and the raw totals sum to 0. Otherwise the saturation flag holds iff their sum reaches the pot, there is one award per grant, and the awards add up to the pot. |
| RoundSix.RunCalcs | contrib_calculator_r6.py:182-198 | The previous round is decayed in place. <br>• The first result is the normalised division-form totals of the current plus decayed previous records; the second is those of the current records alone. <br>• It fails iff either normalisation fails. <br>• Each result has one entry per grant and adds up to the pot. |
| RoundSeven.GetDataDjango | contrib_calculator_r7.py:61-71 | The nested loops build the reference row list. |
| RoundSeven.DjangoRowsExact | contrib_calculator_r7.py:61-71 | A row is emitted iff some grant entry has a truthy id, and it is `[grant_id, id, is_verified, sum]`. |
| RoundSeven.GetVerifiedList | contrib_calculator_r7.py:87-93 | The flagged users, each once, in first-appearance order. |
| RoundSeven.VerifiedListExact | contrib_calculator_r7.py:87-93 | The list has no repeats and holds a user iff some record of theirs is flagged. |
| RoundSeven.AggregateContributions | contrib_calculator_r7.py:112-119 | The fold of the records with the flag ignored. Every amount is the sum over its (grant, user). |
| RoundSeven.CalculateClr | contrib_calculator_r7.py:186-218 | As written: `v_threshold` applies when k2 > k1 and both users are verified, `uv_threshold` applies to every other ordered pair, and one unnormalised award is produced per grant. |
| RoundSeven.CalculateClrPairs | contrib_calculator_r7.py:186-218 | Corrected: only `k2 > k1` pairs are scored, with `v_threshold` when both users are verified and `uv_threshold` otherwise. |
| RoundSeven.VerifiedReady | contrib_calculator_r7.py:138-153 | The pair totals of records of one sign can be scored under both rules at positive thresholds. |
| RoundSeven.VerifiedPairsReduces | contrib_calculator_r7.py:198-203 | Corrected rule: a grant whose contributors are all verified scores as the division form at `v_threshold`. A grant with no verified contributor scores as the division form at `uv_threshold`. |
| RoundSeven.LoneContributorMatched | contrib_calculator_r7.py:202-203 | As written, a lone contributor of amount v > 0 whose self total is v is matched v·uv/(v + uv) > 0. |
| RoundSeven.LoneContributorExample | contrib_calculator_r7.py:198-203 | For a grant with a single contribution of 4 at uv_threshold 5, as written gives 20/9 and the corrected rule gives 0. |
| RoundSeven.RunCalcs | contrib_calculator_r7.py:236-245 | The verified list, aggregate and pair totals of one record list, scored by calculate_clr as written (the Verified rule over all ordered pairs), with one award per grant in first-appearance order. |
| RoundSeven.RunCalcsPairs | contrib_calculator_r7.py:236-245 | The same run scored by the corrected rule (only `k2 > k1` pairs). |

## Left out

- Loading data is not modelled; the records are parameters. This covers:
  - CSV, JSON and Django loading (`get_data`, `get_data_csv`, the file reads of contrib_calculator_r4_vitalik.py and `json.load`);
  - random sampling of grants and transactions.
- Not modelled, because none of it changes an award:
  - pandas DataFrames and `drop_duplicates`;
  - plotting (`distribution_plot`);
  - timing, prints;
  - commented-out code;
  - the `__main__` blocks and module-level driver calls.
- Floating point:
  - Amounts are exact reals.
  - The square root is any function meeting `IsSqrt`.
  - The scripts' `bigtot == total_pot` tests are exact comparisons of reals.
- Mixed-sign amounts in one run of the contrib_calculator scripts are excluded by `RecordsSignConsistent` / `SignConsistent`: there `** 0.5` of a negative product is a complex number, which the model does not represent. Two places use `math.sqrt`, which raises ValueError instead, and that is modelled as a failure: clr.py, and the reconciliation in `calculate_new_clr_final` of contrib_calculator_r5.py.
- Grant and user ids are integers. This holds both for the scripts that use strings or floats and for the string profile ids of clr.py.
- `total_grants_lr` in clr.py is summed and never read, so it is not modelled.
- ConsensysPlus.Missing: the ids come in their order of first appearance in the data. `list(set(...))` in the source has no defined order.
- ConsensysPlus.Range, ConsensysPlus.Pots, ConsensysPlus.Prefixes: they require a positive step (pot_by, cap_by, bin_size). `range` with a step of 0 raises, and a negative step is never used.
- Consensys.CalculateClrByTxn: it requires a non-zero bin size. `% 0` raises in Python.
- Frank.Search: `total_pot` is a parameter, since the script never assigns it. The floor `upper // 2` is modelled for the initial threshold only.
- ThresholdSearch.Bisect: it requires 0 < pot and lower_bound < pot, the only configurations the scripts use (defaults 0 and 100000 / 125000).
- LiveDonation.VariantOf, RoundFour.AggregateContributionsLive, ConsensysLive.AggregateContributions: they require the chosen grant to be a key. In the source a missing grant raises KeyError.
- RoundFour.RunLiveCalc: it is modelled for the one trial amount (0.00001) that the script iterates over. `clr_curve` then has a single entry, which is kept.
- ConsensysLive.Predictions: `selected_ids = list(set(...))` becomes a parameter, and the dict of curves is a map.
- The zip of contrib_calculator_consensys_live.py:88 is lazy and single-use. It is modelled as a sequence of pairs.

## Findings

| source | as written | input that shows it | evidently intended | confidence | as-written member | corrected member |
|---|---|---|---|---|---|---|
| clr.py:71-83 | `grant_clr = 0` sits inside the loop over the terms, so a grant's `'clr'` is only its last adjusted term. A grant without terms repeats the previous grant's value, or raises UnboundLocalError if it is first. | one grant with terms [1, 2] at threshold 15: clr 2 | the sum of the grant's adjusted terms: 3 | high; not executed | Clr.LastTermOnly | Clr.CalculateClr |
| contrib_calculator_r7.py:198-203 | the `else` branch scores every pair that is not (k2 > k1 and both verified), so reversed pairs and self pairs get a `uv_threshold` term | one grant with a single contributor of 4, uv_threshold 5: match 20/9 | only k2 > k1 pairs scored, as in every other calculator (a lone contributor gets 0) | medium; not executed | RoundSeven.LoneContributorExample | RoundSeven.CalculateClrPairs |
