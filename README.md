# Tsum Tsum score mission helper — verified model of the score core

The helper works out which tsum scores and base scores let a player hit a
score mission ("finish with a score ending in 7"). Its core has three parts:

- **Level bonus** (`level_bonus.dfy`, module `LevelBonus`) is the schedule of
  45 level bands. Each band gives a bonus rate, from 0% at level 1 up to 30.5%
  at level 900. The linear lookup returns 0 below level 1 and caps at 30.5%
  above the table. Rates are kept as exact integers in per-mille (29.3% is
  293), and the decimal rate is the exact rational `permille / 1000`.
- **Calculators** (`calculators.dfy`, module `Calculators`) covers:
  - the final score `floor(base * (1 + rate))`;
  - the base score `tsum * chain + chainScore[chain]`;
  - the last-digit test;
  - the two exhaustive searches:
    - `findTsumCandidates` tries tsum scores 1..max for every chain length;
    - `listBaseScoresMatchingLastDigit` tries base scores 0, step, 2·step, … up to a limit.
- **Class names** (`classnames.dfy`, module `ClassNames`) is the `cn` joiner.
  It drops falsy values, flattens nested lists recursively, and joins with
  single spaces. It also contains `conditionalClass`.

Each loop of the source is a Dafny `method` with its loop, proved equal to a
recursive specification function:

- `GetLevelBonusRate` is proved equal to `BonusRate`, whose range, band rates,
  saturation and monotonicity are proved as lemmas;
- `Cn` is proved equal to `Join(Leaves(..))`, the space-separated non-empty
  leaf strings, with lemmas on splicing, skipping and the empty result;
- the two searches are further proved *exact*: sound (every entry is
  correct), complete (every matching input is listed) and strictly
  ascending (so there are no repeats).

The table of per-chain bonuses (`CHAIN_SCORE`) lives in a configuration file
that is not part of this model. It is therefore a `map<int, int>` parameter,
and unmapped chain lengths score 0, as `?? 0` does.

## Model

| member | source | states |
|---|---|---|
| LevelBonus.TableWellFormed | utils/levelBonus.ts:30-79 | The band table starts at level 1 and ends at level 900. The bands are contiguous, each has start ≤ end, and rates lie in 0..30.5% without decreasing. |
| LevelBonus.FirstMatch | utils/levelBonus.ts:100-104 | The scan returns the first band containing the level, or None exactly when no band contains it. |
| LevelBonus.BandsOrdered | utils/levelBonus.ts:30-79 | In a well-formed table every earlier band ends before every later band starts. |
| LevelBonus.RatesOrdered | utils/levelBonus.ts:30-79 | In a well-formed table rates never decrease from band to band. |
| LevelBonus.BandsDisjoint | utils/levelBonus.ts:30-79 | No level lies in two bands. |
| LevelBonus.BandWithinTable | utils/levelBonus.ts:30-79 | Every band lies within levels 1..900. |
| LevelBonus.AllBandsBelow | utils/levelBonus.ts:100-107 | If no band contains a level ≥ 1, every band ends below it, so the fallback is only reached above the table. |
| LevelBonus.BandsCover | utils/levelBonus.ts:100-104 | Every level in 1..900 is found by the scan, so the table has no gaps. |
| LevelBonus.FirstMatchIsContainingBand | utils/levelBonus.ts:100-103 | The scan stops at the unique band that contains the level. |
| LevelBonus.RatePermille | utils/levelBonus.ts:96-108 | The looked-up rate is always between 0 and 305 per-mille. |
| LevelBonus.BonusRate | utils/levelBonus.ts:96-108 | The decimal rate lies in [0, 0.305] and is exactly the per-mille rate divided by 1000. |
| LevelBonus.BonusRatePercent | utils/levelBonus.ts:116-118 | The percent rate lies in [0, 30.5] and is 100 times the decimal rate. |
| LevelBonus.GetLevelBonusTable | utils/levelBonus.ts:123-125 | The table handed out is the well-formed 45-band schedule. |
| LevelBonus.GetLevelBonusRate | utils/levelBonus.ts:96-108 | The scan with early return gives 0 below level 1, 0.305 above level 900, and the containing band's rate otherwise. |
| LevelBonus.RateCases | utils/levelBonus.ts:98-107 | The three cases of the lookup are below the table, inside a band and above the table. |
| LevelBonus.RateOfContainingBand | utils/levelBonus.ts:100-103 | A level inside a band lies in 1..900 and gets exactly that band's rate. |
| LevelBonus.RateSaturates | utils/levelBonus.ts:106-107 | Above level 900 the rate equals the rate of level 900 (30.5%). |
| LevelBonus.RateMonotone | utils/levelBonus.ts:30-107 | A higher level never gets a smaller bonus. |
| LevelBonus.KnownRates | tests/levelBonus.test.ts:6-10 | These rates hold: level 1 → 0, 3 → 0.01, 10 → 0.05, 100 → 0.2, 150 → 0.25, 706 → 0.293, 900 → 0.305, and level 706 → 29.3%. |
| Calculators.JsRemainder10 | tests/calculators.test.ts:19 | JavaScript's truncating `% 10` takes the sign of the dividend and differs from it by a multiple of 10. |
| Calculators.LastDigit | utils/calculators.ts:185-187 | The last digit is in 0..9 and is congruent to the absolute value mod 10. |
| Calculators.NormalizeDigit | utils/calculators.ts:192-194 | The result is in 0..9 and congruent mod 10 to the digit's absolute value, so larger digits wrap (17 → 7, −23 → 3). Digits 0..9 are kept and -9..-1 become their negation. |
| Calculators.NormalizeDigitWraps | utils/calculators.ts:192-194 | Out-of-range digits wrap: 17 normalizes to 7 and −23 to 3. |
| Calculators.NormalizeDigitIdempotent | utils/calculators.ts:192-194 | Normalizing twice equals normalizing once. |
| Calculators.ChainScore | utils/calculators.ts:82 | The result is the configured chain bonus, or 0 for a chain length without an entry. |
| Calculators.DefaultsAreUsable | utils/calculators.ts:119-163 | The default maximum tsum score (2000), limit (10000) and step (1) meet both searches' preconditions. |
| Calculators.FinalScoreFromBase | utils/calculators.ts:61-67 | A non-negative base score never loses points. |
| Calculators.FinalScoreRoundsDown | utils/calculators.ts:61-67 | The final score is the largest integer f with f·1000 ≤ base·(1000 + permille). |
| Calculators.FinalScoreIsFloor | utils/calculators.ts:61-67 | The integer formula equals `floor(base * (1 + rate))` computed on exact reals. |
| Calculators.FinalScoreBounds | utils/calculators.ts:61-67 | For base ≥ 0: base ≤ final ≤ base + floor(base · 0.305). |
| Calculators.FinalScoreMonotone | utils/calculators.ts:61-67 | A larger base score never gives a smaller final score. |
| Calculators.BaseScoreFromTsum | utils/calculators.ts:81-84 | The base score is tsum·chain plus the configured chain bonus, or just tsum·chain for a chain length without an entry. |
| Calculators.BaseScoreIncreasing | utils/calculators.ts:81-84 | For chain ≥ 1 a larger tsum score gives a strictly larger base score. |
| Calculators.BaseScoreRecoversTsum | utils/calculators.ts:81-84 | For chain ≥ 1, (base − chainScore) / chain gives back the tsum score. |
| Calculators.IsFinalLastDigitTarget | utils/calculators.ts:94-101 | The test holds exactly when the final score's absolute value is congruent mod 10 to the normalized target. |
| Calculators.TargetWraps | utils/calculators.ts:94-101 | Negating any target does not change the test's answer; for a target ≥ 0, adding 10 does not change it either. |
| Calculators.TargetShiftNeedsNonNegative | utils/calculators.ts:94-101 | For a negative target, adding 10 can change the answer: base 3 at level 0 accepts target −3 (read as 3) but not −3 + 10 = 7. |
| Calculators.LastDigitTargetUnique | utils/calculators.ts:94-101 | For a target in 0..9 the test holds for exactly one digit: the final score's own last digit. |
| Calculators.OwnRemainderIsTarget | tests/calculators.test.ts:15-21 | The final score's JavaScript remainder `final % 10` is always accepted as the target, negative scores included. |
| Calculators.KnownScores | tests/calculators.test.ts:5-21 | These values hold: final(1000, level 3) = 1010, final(1000, level 100) = 1200, base(50, chain 3) = 450 and base(100, chain 3) = 600, given chain 3 → 300. The 1234 / level 10 last-digit case also holds. |
| Calculators.CandidateIfHit | utils/calculators.ts:133-138 | One inner step adds a candidate exactly when the tsum score matches, and that candidate is correct. |
| Calculators.TsumCandidatesUpTo | utils/calculators.ts:132-139 | Every collected candidate has tsum in 1..n, the right base and final scores, and the target last digit. |
| Calculators.TsumCandidatesAscending | utils/calculators.ts:132-139 | The collected tsum scores strictly ascend. |
| Calculators.TsumCandidatesComplete | utils/calculators.ts:132-139 | Every matching tsum score in 1..n is collected. |
| Calculators.TsumCandidatesExact | utils/calculators.ts:132-139 | The collected list is sound, complete and strictly ascending. |
| Calculators.SortedHeadIsHead | utils/calculators.ts:142 | Any tsum-sorted permutation of a strictly ascending list starts with the same element. |
| Calculators.SortedPermutationIsIdentity | utils/calculators.ts:142 | Sorting by tsum changes nothing: the only tsum-sorted permutation of a strictly ascending list is the list itself. |
| Calculators.CollectTsumCandidates | utils/calculators.ts:129-143 | The inner loop plus sort yields exactly the matching tsum scores 1..max for one chain length, in ascending order. |
| Calculators.FindTsumCandidates | utils/calculators.ts:119-147 | The result has exactly the given chain lengths as keys, and each value is the exact ascending list of matching tsum scores 1..max. |
| Calculators.PairIfHit | utils/calculators.ts:168-172 | One visit adds a pair exactly when the base score matches, and that pair holds the correct final score. |
| Calculators.BasePairsBelow | utils/calculators.ts:167-173 | Every collected pair holds the base's final score and that score ends in the target digit. |
| Calculators.CloseMultiples | utils/calculators.ts:167 | Two visited base scores less than one step apart are equal. |
| Calculators.IsMultipleIffRemainderZero | utils/calculators.ts:167 | The visited base scores 0, step, 2·step, … are exactly the non-negative multiples of step. |
| Calculators.BasePairsBounded | utils/calculators.ts:167-173 | Every collected base is a visited base below the scan position. |
| Calculators.BasePairsAscending | utils/calculators.ts:167-173 | The collected base scores strictly ascend. |
| Calculators.BasePairsComplete | utils/calculators.ts:167-173 | Every matching visited base below the scan position is collected. |
| Calculators.BasePairsExact | utils/calculators.ts:167-173 | Once the scan passes the limit, the collected list is exact: sound, complete and ascending. |
| Calculators.ListBaseScoresMatchingLastDigit | utils/calculators.ts:158-176 | The loop returns exactly the matching bases among 0, step, … ≤ limit, ascending, with their final scores, and returns [] for a negative limit. |
| ClassNames.Truthy | utils/classnames.ts:21 | A value is falsy exactly when it is '', undefined, null or false; every list, even an empty one, is truthy. |
| ClassNames.Join | utils/classnames.ts:31 | Joining no parts gives ''; otherwise the length is the parts' total length plus one separator between each pair of neighbours. |
| ClassNames.Leaves | utils/classnames.ts:20-28 | The reference meaning of `cn` is the non-empty strings, nested lists spliced in place, and it contains no empty string. |
| ClassNames.LeavesOf | utils/classnames.ts:21-28 | One argument contributes only non-empty strings. |
| ClassNames.JoinAppend | utils/classnames.ts:31 | `join(' ')` of two non-empty lists is their joins separated by one space. |
| ClassNames.JoinEmptyIff | utils/classnames.ts:27-31 | With no empty parts, the join is empty exactly when there are no parts; this is the `if (nested)` test. |
| ClassNames.LeavesAppend | utils/classnames.ts:20-28 | The leaves of concatenated arguments are the concatenated leaves. |
| ClassNames.PushKeepsJoin | utils/classnames.ts:24-27 | Pushing a string or a non-empty nested join keeps the pushed classes in step with the leaves seen so far. |
| ClassNames.Cn | utils/classnames.ts:17-32 | `cn` returns the space-separated join of the non-empty leaf strings of its arguments, in order. |
| ClassNames.LeavesOfStrings | utils/classnames.ts:23-24 | Non-empty string arguments are kept as given, in order. |
| ClassNames.FalsyIsSkipped | utils/classnames.ts:21 | A falsy argument contributes nothing, not even a separator. |
| ClassNames.NestedIsSpliced | utils/classnames.ts:25-27 | A nested list gives the same result as passing its elements directly. |
| ClassNames.CnEmptyIff | utils/classnames.ts:20-31 | `cn` yields '' exactly when no argument holds a non-empty string at any depth. |
| ClassNames.CnExampleStrings | utils/classnames.ts:13 | cn('foo', 'bar') is 'foo bar'. |
| ClassNames.CnExampleFalsy | utils/classnames.ts:14 | cn('foo', false, 'baz') is 'foo baz'. |
| ClassNames.CnExampleNested | utils/classnames.ts:15 | cn(['foo', 'bar'], 'baz') is 'foo bar baz'. |
| ClassNames.CnExampleNothing | utils/classnames.ts:21-27 | cn(undefined, null, '', []) is ''. |
| ClassNames.ConditionalClass | utils/classnames.ts:40-46 | Returns the true class when the condition holds and the false class otherwise. |
| ClassNames.ConditionalClassDefault | utils/classnames.ts:40-46 | With the default false class, the result is the true class or ''. |

## Left out

- Floating point:
  - JavaScript computes the rate (`ratePercent / 100`), the multiplier and the product in IEEE-754 doubles.
  - The model uses exact per-mille integers and exact reals instead.
  - A double product that lands just below an integer could floor one lower than the exact value. Nothing here decides whether that happens for any table rate.
- FinalScoreFromBase: states the exact rational formula, not the double-precision one.
- GetLevelBonusRate: returns the exact rational rate, not its nearest double.
- BonusRatePercent: is exactly 100 times the rate. A double product such as `0.293 * 100` need not be exactly 29.3, and the model does not reproduce that rounding.
- Non-integer and NaN inputs are not modelled; levels, scores, digits, limits and steps are integers.
  - A fractional level between two bands, such as 2.5, or a NaN level matches no band and gets 30.5% in the source.
  - Fractional or NaN digits are likewise not covered.
- ListBaseScoresMatchingLastDigit: requires `step >= 1 || limit < 0`. With step ≤ 0 and limit ≥ 0 the source's loop never terminates, and a terminating model cannot return anything for those inputs.
- The contents of `CHAIN_SCORE` are a parameter, because the configuration file `constants/config` is not part of this model. Only the tested entry (chain 3 → 300) appears, as a hypothesis of `KnownScores`.
- The default `chainCounts` of `findTsumCandidates` is `CHAIN_CONFIG.suggestChains`, which is not part of this model.
- The sort in `findTsumCandidates` is not executed. Any tsum-sorted permutation of the collected list is chosen, and `SortedPermutationIsIdentity` shows it is the list itself. The comparator's arithmetic is not modelled.
- JavaScript object keys are strings, while the model's result map is keyed by the integer chain lengths. A chain length that appears twice gets the same value twice, as in the source.
- `cn` models the ClassValue union as a datatype. Values outside the declared type (numbers, objects) are not modelled.
- The React components, local storage, CSV export and clipboard code are outside the score core and not modelled.
