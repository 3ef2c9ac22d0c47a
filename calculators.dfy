/** Score transforms (base score to final score, tsum score and chain length
    to base score), the last-digit test, and the two exhaustive searches for
    inputs whose final score ends in a chosen digit. */
module Calculators {
  import opened LevelBonus

  /** A per-tile (tsum) score with the base and final scores it yields. */
  datatype TsumCandidate = TsumCandidate(tsum: int, base: int, final: int)

  /** A base score with the final score it yields. */
  datatype ScorePair = ScorePair(base: int, final: int)

  /** CHAIN_SCORE: fixed bonus per chain length. Its contents come from a
      configuration file that is not part of this model, so it is a parameter;
      the one known entry is chain 3 -> 300. */
  type ChainScores = map<int, int>

  /** Defaults of the optional parameters of the two searches. */
  const DefaultMaxTsumScore: int := 2000
  const DefaultLimit: int := 10000
  const DefaultStep: int := 1

  function Abs(x: int): (r: nat)
    ensures r == x || r == -x
  {
    if x < 0 then -x else x
  }

  /** JavaScript's `a % 10`: the remainder takes the sign of the dividend. */
  function JsRemainder10(a: int): (r: int)
    ensures a >= 0 ==> 0 <= r <= 9
    ensures a < 0 ==> -9 <= r <= 0
    ensures (a - r) % 10 == 0
  {
    if a >= 0 then a % 10 else -((-a) % 10)
  }

  /** getLastDigit: the ones digit of |value|. */
  function LastDigit(value: int): (d: int)
    ensures 0 <= d <= 9
    ensures (Abs(value) - d) % 10 == 0
  {
    Abs(value) % 10
  }

  /** normalizeDigit: a target digit folded into 0..9; digits already in
      range are kept, others wrap to the last digit of their magnitude. */
  function NormalizeDigit(digit: int): (d: int)
    ensures 0 <= d <= 9
    ensures (Abs(digit) - d) % 10 == 0
    ensures 0 <= digit <= 9 ==> d == digit
    ensures -9 <= digit < 0 ==> d == -digit
  {
    Abs(digit) % 10
  }

  lemma NormalizeDigitIdempotent(digit: int)
    ensures NormalizeDigit(NormalizeDigit(digit)) == NormalizeDigit(digit)
  {
  }

  /** Out-of-range targets wrap: 17 is read as 7 and -23 as 3. */
  lemma NormalizeDigitWraps()
    ensures NormalizeDigit(17) == 7
    ensures NormalizeDigit(-23) == 3
  {
  }

  /** The default limit and step of listBaseScoresMatchingLastDigit meet its
      precondition, and the default tsum range of findTsumCandidates is not
      empty. */
  lemma DefaultsAreUsable()
    ensures DefaultStep >= 1 || DefaultLimit < 0
    ensures DefaultLimit >= 0 && DefaultMaxTsumScore >= 1
  {
  }

  /** chainScore: the configured bonus, 0 for an unmapped chain length. */
  function ChainScore(scores: ChainScores, chain: int): (s: int)
    ensures chain in scores ==> s == scores[chain]
    ensures chain !in scores ==> s == 0
  {
    if chain in scores then scores[chain] else 0
  }

  lemma MulMonotone(a: int, b: int, c: int)
    requires a <= b && c >= 0
    ensures a * c <= b * c
  {
  }

  lemma BonusNeverShrinks(base: int, permille: int)
    requires permille >= 0
    ensures base >= 0 ==> base * 1000 <= base * (1000 + permille)
  {
  }

  /** The final score for a per-mille rate: base * (1000 + permille) / 1000,
      rounded down. */
  function ScaleByPermille(base: int, permille: int): (final: int)
    requires permille >= 0
    ensures base >= 0 ==> base <= final
  {
    BonusNeverShrinks(base, permille);
    base * (1000 + permille) / 1000
  }

  /** finalScoreFromBase: floor(base * (1 + bonusRate(level))), computed
      exactly on the per-mille rate. */
  function FinalScoreFromBase(base: int, level: int): (final: int)
    ensures base >= 0 ==> base <= final
  {
    ScaleByPermille(base, RatePermille(level))
  }

  /** finalScoreFromBase rounds down: the result is the largest integer
      whose thousandfold does not exceed base * (1000 + permille). */
  lemma FinalScoreRoundsDown(base: int, level: int)
    ensures var final := FinalScoreFromBase(base, level);
      final * 1000 <= base * (1000 + RatePermille(level)) < final * 1000 + 1000
  {
  }

  lemma ScaledProduct(base: int, p: int)
    ensures (base as real) * (1.0 + p as real / 1000.0) * 1000.0 == (base * (1000 + p)) as real
  {
    var b := base as real;
    var q := p as real;
    assert (base * p) as real == b * q;
    calc {
      b * (1.0 + q / 1000.0) * 1000.0;
      b * 1000.0 + b * q;
      (base * 1000) as real + (base * p) as real;
    }
  }

  lemma FloorOfBracketed(x: real, f: int)
    requires (f * 1000) as real <= x * 1000.0 < (f * 1000 + 1000) as real
    ensures x.Floor == f
  {
    assert f as real <= x < f as real + 1.0;
  }

  lemma PermilleFloor(base: int, p: int, rate: real)
    requires p >= 0
    requires rate == p as real / 1000.0
    ensures ScaleByPermille(base, p) == ((base as real) * (1.0 + rate)).Floor
  {
    var n := base * (1000 + p);
    var f := n / 1000;
    ScaledProduct(base, p);
    FloorOfBracketed((base as real) * (1.0 + rate), f);
  }

  /** The integer formula is the real-valued one of the source:
      floor(base * (1 + rate)). */
  lemma FinalScoreIsFloor(base: int, level: int)
    ensures FinalScoreFromBase(base, level) == ((base as real) * (1.0 + BonusRate(level))).Floor
  {
    PermilleFloor(base, RatePermille(level), BonusRate(level));
  }

  /** Bonuses never reduce a score, and at most add 30.5% (rounded down). */
  lemma FinalScoreBounds(base: int, level: int)
    requires base >= 0
    ensures base <= FinalScoreFromBase(base, level) <= base + base * MaxPermille / 1000
  {
    var f := FinalScoreFromBase(base, level);
    FinalScoreRoundsDown(base, level);
    MulMonotone(1000 + RatePermille(level), 1000 + MaxPermille, base);
    assert f * 1000 <= base * 1000 + base * MaxPermille;
  }

  /** baseScoreFromTsum: tsum * chain plus the chain's fixed bonus; a chain
      length without a configured bonus adds nothing. */
  function BaseScoreFromTsum(scores: ChainScores, tsum: int, chain: int): (base: int)
    ensures chain in scores ==> base == tsum * chain + scores[chain]
    ensures chain !in scores ==> base == tsum * chain
  {
    tsum * chain + ChainScore(scores, chain)
  }

  /** For a positive chain length a larger tsum score gives a larger base score. */
  lemma BaseScoreIncreasing(scores: ChainScores, t1: int, t2: int, chain: int)
    requires chain >= 1 && t1 < t2
    ensures BaseScoreFromTsum(scores, t1, chain) < BaseScoreFromTsum(scores, t2, chain)
  {
    MulMonotone(t1 + 1, t2, chain);
  }

  /** For a positive chain length the tsum score is recovered from the base
      score by removing the chain bonus and dividing by the chain length. */
  lemma BaseScoreRecoversTsum(scores: ChainScores, tsum: int, chain: int)
    requires chain >= 1
    ensures (BaseScoreFromTsum(scores, tsum, chain) - ChainScore(scores, chain)) / chain == tsum
  {
    var q := tsum * chain;
    assert BaseScoreFromTsum(scores, tsum, chain) - ChainScore(scores, chain) == q;
    RemainderUnique(q, tsum, 0, chain);
  }

  /** A larger base score never gives a smaller final score. */
  lemma FinalScoreMonotone(b1: int, b2: int, level: int)
    requires b1 <= b2
    ensures FinalScoreFromBase(b1, level) <= FinalScoreFromBase(b2, level)
  {
    var p := RatePermille(level);
    MulMonotone(b1, b2, 1000 + p);
    DivMonotone(b1 * (1000 + p), b2 * (1000 + p));
  }

  lemma DivMonotone(x: int, y: int)
    requires x <= y
    ensures x / 1000 <= y / 1000
  {
  }

  /** isFinalLastDigitTarget: does the final score end in the target digit? */
  function IsFinalLastDigitTarget(base: int, level: int, targetDigit: int): (hit: bool)
    ensures hit <==> (Abs(FinalScoreFromBase(base, level)) - NormalizeDigit(targetDigit)) % 10 == 0
  {
    LastDigit(FinalScoreFromBase(base, level)) == NormalizeDigit(targetDigit)
  }

  /** Negating a target never changes the test; adding ten to a target
      that is at least 0 does not change it either. */
  lemma TargetWraps(base: int, level: int, digit: int)
    ensures digit >= 0 ==> IsFinalLastDigitTarget(base, level, digit + 10) == IsFinalLastDigitTarget(base, level, digit)
    ensures IsFinalLastDigitTarget(base, level, -digit) == IsFinalLastDigitTarget(base, level, digit)
  {
    if digit >= 0 {
      assert NormalizeDigit(digit + 10) == NormalizeDigit(digit);
    }
    assert NormalizeDigit(-digit) == NormalizeDigit(digit);
  }

  /** Adding ten to a negative target can change the test: -3 is read as 3
      but -3 + 10 = 7 is read as 7, and base 3 at level 0 scores 3. */
  lemma TargetShiftNeedsNonNegative()
    ensures IsFinalLastDigitTarget(3, 0, -3)
    ensures !IsFinalLastDigitTarget(3, 0, -3 + 10)
  {
    assert FinalScoreFromBase(3, 0) == 3;
  }

  /** For a digit in 0..9 the test holds for exactly one digit: the final
      score's own last digit. */
  lemma LastDigitTargetUnique(base: int, level: int, digit: int)
    requires 0 <= digit <= 9
    ensures IsFinalLastDigitTarget(base, level, digit) <==> digit == LastDigit(FinalScoreFromBase(base, level))
  {
  }

  /** The final score's remainder by 10, as JavaScript computes it, is always
      accepted as the target digit. */
  lemma OwnRemainderIsTarget(base: int, level: int)
    ensures IsFinalLastDigitTarget(base, level, JsRemainder10(FinalScoreFromBase(base, level)))
  {
    var f := FinalScoreFromBase(base, level);
    var d := JsRemainder10(f);
    assert NormalizeDigit(d) == Abs(d);
    if f < 0 {
      assert (-f) % 10 == -d;
    }
  }

  /** Values documented with the source and checked by its tests. */
  lemma KnownScores(scores: ChainScores)
    requires 3 in scores && scores[3] == 300
    ensures FinalScoreFromBase(1000, 3) == 1010
    ensures FinalScoreFromBase(1000, 100) == 1200
    ensures BaseScoreFromTsum(scores, 50, 3) == 450
    ensures BaseScoreFromTsum(scores, 100, 3) == 600
    ensures IsFinalLastDigitTarget(1234, 10, JsRemainder10(FinalScoreFromBase(1234, 10)))
  {
    KnownRates();
    OwnRemainderIsTarget(1234, 10);
  }

  // ---------------------------------------------------------------------------
  // findTsumCandidates
  // ---------------------------------------------------------------------------

  /** Does tsum score `t` at chain length `chain` give a final score ending in `nt`? */
  predicate TsumHits(scores: ChainScores, level: int, nt: int, chain: int, t: int)
  {
    LastDigit(FinalScoreFromBase(BaseScoreFromTsum(scores, t, chain), level)) == nt
  }

  /** `c` is a correct entry of the search over tsum scores 1..upTo. */
  ghost predicate IsTsumCandidate(scores: ChainScores, level: int, nt: int, chain: int, upTo: int, c: TsumCandidate)
  {
    && 1 <= c.tsum <= upTo
    && c.base == BaseScoreFromTsum(scores, c.tsum, chain)
    && c.final == FinalScoreFromBase(c.base, level)
    && LastDigit(c.final) == nt
  }

  ghost predicate StrictlyAscendingTsum(cs: seq<TsumCandidate>)
  {
    forall i, j :: 0 <= i < j < |cs| ==> cs[i].tsum < cs[j].tsum
  }

  ghost predicate SortedByTsum(cs: seq<TsumCandidate>)
  {
    forall i, j :: 0 <= i < j < |cs| ==> cs[i].tsum <= cs[j].tsum
  }

  /** `cs` is exactly the list of matching tsum scores in 1..upTo, in
      ascending order: every entry is correct (sound), every matching tsum
      score is listed (complete), and no tsum score is listed twice. */
  ghost predicate ExactTsumCandidates(cs: seq<TsumCandidate>, scores: ChainScores, level: int, nt: int, chain: int, upTo: int)
  {
    && (forall k :: 0 <= k < |cs| ==> IsTsumCandidate(scores, level, nt, chain, upTo, cs[k]))
    && StrictlyAscendingTsum(cs)
    && (forall t :: 1 <= t <= upTo && TsumHits(scores, level, nt, chain, t) ==>
          exists k :: 0 <= k < |cs| && cs[k].tsum == t)
  }

  /** What one step of the inner loop adds: the candidate for tsum score `t`
      when it matches, else nothing. */
  function CandidateIfHit(scores: ChainScores, level: int, nt: int, chain: int, t: int): (r: seq<TsumCandidate>)
    requires t >= 1
    ensures |r| <= 1
    ensures r != [] <==> TsumHits(scores, level, nt, chain, t)
    ensures r != [] ==> r[0].tsum == t && IsTsumCandidate(scores, level, nt, chain, t, r[0])
  {
    var base := BaseScoreFromTsum(scores, t, chain);
    var final := FinalScoreFromBase(base, level);
    if LastDigit(final) == nt then [TsumCandidate(t, base, final)] else []
  }

  /** The candidates the inner loop collects after scanning tsum scores 1..n. */
  function TsumCandidatesUpTo(scores: ChainScores, level: int, nt: int, chain: int, n: int): (cs: seq<TsumCandidate>)
    ensures forall k :: 0 <= k < |cs| ==> IsTsumCandidate(scores, level, nt, chain, n, cs[k])
    decreases n
  {
    if n < 1 then []
    else TsumCandidatesUpTo(scores, level, nt, chain, n - 1) + CandidateIfHit(scores, level, nt, chain, n)
  }

  /** The listed tsum scores strictly ascend. */
  lemma {:induction false} TsumCandidatesAscending(scores: ChainScores, level: int, nt: int, chain: int, n: int)
    ensures StrictlyAscendingTsum(TsumCandidatesUpTo(scores, level, nt, chain, n))
    decreases n
  {
    if n >= 1 {
      var prev := TsumCandidatesUpTo(scores, level, nt, chain, n - 1);
      var tail := CandidateIfHit(scores, level, nt, chain, n);
      TsumCandidatesAscending(scores, level, nt, chain, n - 1);
      var cs: seq<TsumCandidate> := prev + tail;
      assert TsumCandidatesUpTo(scores, level, nt, chain, n) == cs;
      forall i, j | 0 <= i < j < |cs|
        ensures cs[i].tsum < cs[j].tsum
      {
        assert cs[i] == prev[i];
        assert IsTsumCandidate(scores, level, nt, chain, n - 1, prev[i]);
        if j >= |prev| {
          assert cs[j] == tail[0];
        } else {
          assert cs[j] == prev[j];
        }
      }
    }
  }

  /** Every matching tsum score in 1..n is listed. */
  lemma {:induction false} TsumCandidatesComplete(scores: ChainScores, level: int, nt: int, chain: int, n: int, t: int)
    requires 1 <= t <= n && TsumHits(scores, level, nt, chain, t)
    ensures ListsTsum(TsumCandidatesUpTo(scores, level, nt, chain, n), t)
    decreases n
  {
    var prev := TsumCandidatesUpTo(scores, level, nt, chain, n - 1);
    var tail := CandidateIfHit(scores, level, nt, chain, n);
    var cs: seq<TsumCandidate> := prev + tail;
    assert TsumCandidatesUpTo(scores, level, nt, chain, n) == cs;
    if t < n {
      TsumCandidatesComplete(scores, level, nt, chain, n - 1, t);
      var k :| 0 <= k < |prev| && prev[k].tsum == t;
      assert cs[k] == prev[k];
      assert ListsTsum(cs, t);
    } else {
      assert cs[|prev|] == tail[0];
      assert ListsTsum(cs, t);
    }
  }

  /** Some entry of `cs` has tsum score `t`. */
  ghost predicate ListsTsum(cs: seq<TsumCandidate>, t: int)
  {
    exists k :: 0 <= k < |cs| && cs[k].tsum == t
  }

  /** The scan is sound, complete and strictly ascending in tsum. */
  lemma TsumCandidatesExact(scores: ChainScores, level: int, nt: int, chain: int, n: int)
    ensures ExactTsumCandidates(TsumCandidatesUpTo(scores, level, nt, chain, n), scores, level, nt, chain, n)
  {
    var cs := TsumCandidatesUpTo(scores, level, nt, chain, n);
    TsumCandidatesAscending(scores, level, nt, chain, n);
    forall t | 1 <= t <= n && TsumHits(scores, level, nt, chain, t)
      ensures exists k :: 0 <= k < |cs| && cs[k].tsum == t
    {
      TsumCandidatesComplete(scores, level, nt, chain, n, t);
    }
  }

  lemma MultisetConsCancel<T>(a: T, s: seq<T>, t: seq<T>)
    requires multiset([a] + s) == multiset([a] + t)
    ensures multiset(s) == multiset(t)
  {
    assert multiset([a] + s) == multiset{a} + multiset(s);
    assert multiset([a] + t) == multiset{a} + multiset(t);
    assert multiset(s) == multiset([a] + s) - multiset{a};
  }

  /** A sorted arrangement of a strictly ascending list starts with its head. */
  lemma SortedHeadIsHead(cs: seq<TsumCandidate>, sorted: seq<TsumCandidate>)
    requires |cs| > 0
    requires StrictlyAscendingTsum(cs)
    requires SortedByTsum(sorted)
    requires multiset(sorted) == multiset(cs)
    ensures |sorted| > 0 && sorted[0] == cs[0]
  {
    assert cs[0] in multiset(sorted);
    var j :| 0 <= j < |sorted| && sorted[j] == cs[0];
    assert sorted[0] in multiset(cs);
    var i :| 0 <= i < |cs| && cs[i] == sorted[0];
    assert cs[i].tsum <= cs[0].tsum by {
      assert sorted[0].tsum <= sorted[j].tsum;
    }
  }

  /** candidates.sort((a, b) => a.tsum - b.tsum) changes nothing: a list that
      is strictly ascending in tsum is the only ordering of its elements that
      is sorted by tsum. */
  lemma {:induction false} SortedPermutationIsIdentity(cs: seq<TsumCandidate>, sorted: seq<TsumCandidate>)
    requires StrictlyAscendingTsum(cs)
    requires SortedByTsum(sorted)
    requires multiset(sorted) == multiset(cs)
    ensures sorted == cs
    decreases |cs|
  {
    if |cs| == 0 {
      assert |sorted| == |multiset(sorted)| == 0;
    } else {
      SortedHeadIsHead(cs, sorted);
      var rest, sortedRest := cs[1..], sorted[1..];
      assert sorted == [cs[0]] + sortedRest;
      assert cs == [cs[0]] + rest;
      MultisetConsCancel(cs[0], sortedRest, rest);
      assert StrictlyAscendingTsum(rest) by {
        forall i, j | 0 <= i < j < |rest|
          ensures rest[i].tsum < rest[j].tsum
        {
          assert rest[i] == cs[i + 1] && rest[j] == cs[j + 1];
        }
      }
      assert SortedByTsum(sortedRest) by {
        forall i, j | 0 <= i < j < |sortedRest|
          ensures sortedRest[i].tsum <= sortedRest[j].tsum
        {
          assert sortedRest[i] == sorted[i + 1] && sortedRest[j] == sorted[j + 1];
        }
      }
      SortedPermutationIsIdentity(rest, sortedRest);
    }
  }

  /** The body of findTsumCandidates for one chain length: scan tsum scores
      1..maxTsumScore, keep the matching ones, then sort them by tsum. */
  method CollectTsumCandidates(scores: ChainScores, level: int, normalizedTarget: int, chainCount: int, maxTsumScore: int)
    returns (candidates: seq<TsumCandidate>)
    ensures candidates == TsumCandidatesUpTo(scores, level, normalizedTarget, chainCount, maxTsumScore)
    ensures ExactTsumCandidates(candidates, scores, level, normalizedTarget, chainCount, maxTsumScore)
  {
    candidates := [];
    var tsum := 1;
    while tsum <= maxTsumScore
      invariant 1 <= tsum
      invariant tsum == 1 || tsum <= maxTsumScore + 1
      invariant candidates == TsumCandidatesUpTo(scores, level, normalizedTarget, chainCount, tsum - 1)
      decreases maxTsumScore - tsum
    {
      var base := BaseScoreFromTsum(scores, tsum, chainCount);
      var final := FinalScoreFromBase(base, level);
      if LastDigit(final) == normalizedTarget {
        candidates := candidates + [TsumCandidate(tsum, base, final)];
      }
      tsum := tsum + 1;
    }
    TsumCandidatesExact(scores, level, normalizedTarget, chainCount, maxTsumScore);
    // The sort by tsum: whatever order a correct sort produces is the list itself.
    assert SortedByTsum(candidates);
    ghost var sorted: seq<TsumCandidate> :| SortedByTsum(sorted) && multiset(sorted) == multiset(candidates);
    SortedPermutationIsIdentity(candidates, sorted);
  }

  /** findTsumCandidates: for every chain length in `chainCounts`, the tsum
      scores 1..maxTsumScore whose final score ends in the target digit. */
  method FindTsumCandidates(scores: ChainScores, level: int, targetDigit: int, chainCounts: seq<int>, maxTsumScore: int)
    returns (results: map<int, seq<TsumCandidate>>)
    ensures forall c :: c in results <==> c in chainCounts
    ensures forall c :: c in results ==>
              results[c] == TsumCandidatesUpTo(scores, level, NormalizeDigit(targetDigit), c, maxTsumScore)
    ensures forall c :: c in results ==>
              ExactTsumCandidates(results[c], scores, level, NormalizeDigit(targetDigit), c, maxTsumScore)
  {
    results := map[];
    var normalizedTarget := NormalizeDigit(targetDigit);
    var i := 0;
    while i < |chainCounts|
      invariant 0 <= i <= |chainCounts|
      invariant forall c :: c in results <==> c in chainCounts[..i]
      invariant forall c :: c in results ==>
                  results[c] == TsumCandidatesUpTo(scores, level, normalizedTarget, c, maxTsumScore)
    {
      var chainCount := chainCounts[i];
      var candidates := CollectTsumCandidates(scores, level, normalizedTarget, chainCount, maxTsumScore);
      results := results[chainCount := candidates];
      assert chainCounts[..i + 1] == chainCounts[..i] + [chainCount];
      i := i + 1;
    }
    assert chainCounts[..i] == chainCounts;
    forall c | c in results
      ensures ExactTsumCandidates(results[c], scores, level, normalizedTarget, c, maxTsumScore)
    {
      TsumCandidatesExact(scores, level, normalizedTarget, c, maxTsumScore);
    }
  }

  // ---------------------------------------------------------------------------
  // listBaseScoresMatchingLastDigit
  // ---------------------------------------------------------------------------

  /** Does base score `b` give a final score ending in `nt`? */
  predicate BaseHits(level: int, nt: int, b: int)
  {
    LastDigit(FinalScoreFromBase(b, level)) == nt
  }

  /** `ps` is exactly the list of matching base scores among 0, step, 2*step,
      ... up to `limit`, in ascending order: sound, complete, no repeats. */
  ghost predicate ExactBasePairs(ps: seq<ScorePair>, level: int, nt: int, limit: int, step: int)
    requires step >= 1
  {
    && (forall i :: 0 <= i < |ps| ==>
          && 0 <= ps[i].base <= limit
          && IsMultiple(ps[i].base, step)
          && ps[i].final == FinalScoreFromBase(ps[i].base, level)
          && LastDigit(ps[i].final) == nt)
    && (forall i, j :: 0 <= i < j < |ps| ==> ps[i].base < ps[j].base)
    && (forall b :: 0 <= b <= limit && IsMultiple(b, step) && BaseHits(level, nt, b) ==>
          exists i :: 0 <= i < |ps| && ps[i].base == b)
  }

  /** What one visit of base `base` adds: its pair when it matches, else nothing. */
  function PairIfHit(level: int, nt: int, base: int): (r: seq<ScorePair>)
    ensures |r| <= 1
    ensures r != [] <==> BaseHits(level, nt, base)
    ensures r != [] ==> r[0].base == base && r[0].final == FinalScoreFromBase(base, level)
  {
    var final := FinalScoreFromBase(base, level);
    if LastDigit(final) == nt then [ScorePair(base, final)] else []
  }

  /** The pairs the loop has collected once it has visited every base below
      `next`, that is 0, step, ..., next - step. */
  function BasePairsBelow(level: int, nt: int, step: int, next: int): (ps: seq<ScorePair>)
    requires step >= 1
    ensures forall i :: 0 <= i < |ps| ==>
              ps[i].final == FinalScoreFromBase(ps[i].base, level) && LastDigit(ps[i].final) == nt
    decreases next
  {
    if next <= 0 then []
    else BasePairsBelow(level, nt, step, next - step) + PairIfHit(level, nt, next - step)
  }

  /** `b` is one of 0, step, 2*step, ...: the bases the scan visits. */
  predicate IsMultiple(b: int, step: int)
    requires step >= 1
    decreases b
  {
    b == 0 || (b >= step && IsMultiple(b - step, step))
  }

  /** Two visited bases less than one step apart are equal. */
  lemma {:induction false} CloseMultiples(a: int, b: int, step: int)
    requires step >= 1 && IsMultiple(a, step) && IsMultiple(b, step)
    requires a <= b < a + step
    ensures a == b
    decreases a
  {
    if a != 0 {
      CloseMultiples(a - step, b - step, step);
    }
  }

  /** The visited bases are exactly the non-negative multiples of `step`. */
  lemma {:induction false} IsMultipleIffRemainderZero(b: int, step: int)
    requires step >= 1
    ensures IsMultiple(b, step) <==> b >= 0 && b % step == 0
    decreases if b < 0 then 0 else b
  {
    if b > 0 {
      IsMultipleIffRemainderZero(b - step, step);
      RemainderShift(b, step);
      if b < step {
        assert b % step == b;
      }
    }
  }

  /** Euclidean division is unique: q * step + r with 0 <= r < step leaves remainder r. */
  lemma RemainderUnique(x: int, q: int, r: int, step: int)
    requires step >= 1 && 0 <= r < step
    requires x == q * step + r
    ensures x % step == r
  {
    var q' := x / step;
    var r' := x % step;
    assert x == q' * step + r';
    assert (q - q') * step == r' - r;
    if q > q' {
      MulMonotone(1, q - q', step);
    }
    if q < q' {
      MulMonotone(1, q' - q, step);
    }
  }

  /** Removing one step keeps the remainder. */
  lemma RemainderShift(x: int, step: int)
    requires step >= 1
    ensures (x - step) % step == x % step
  {
    var q := x / step;
    var r := x % step;
    assert x == q * step + r;
    RemainderUnique(x - step, q - 1, r, step);
  }

  /** Every listed base is one of 0, step, ..., below `next`. */
  ghost predicate VisitedBases(ps: seq<ScorePair>, step: int, next: int)
    requires step >= 1
  {
    forall i :: 0 <= i < |ps| ==> 0 <= ps[i].base < next && IsMultiple(ps[i].base, step)
  }

  ghost predicate AscendingBases(ps: seq<ScorePair>)
  {
    forall i, j :: 0 <= i < j < |ps| ==> ps[i].base < ps[j].base
  }

  /** Every base listed after visiting the bases below `next` is a visited
      multiple of `step` below `next`. */
  lemma {:induction false} BasePairsBounded(level: int, nt: int, step: int, next: int)
    requires step >= 1 && IsMultiple(next, step)
    ensures VisitedBases(BasePairsBelow(level, nt, step, next), step, next)
    decreases next
  {
    if next > 0 {
      var last := next - step;
      var prev := BasePairsBelow(level, nt, step, last);
      var tail := PairIfHit(level, nt, last);
      assert 0 <= last && IsMultiple(last, step);
      BasePairsBounded(level, nt, step, last);
      var ps: seq<ScorePair> := prev + tail;
      assert BasePairsBelow(level, nt, step, next) == ps;
      forall i | 0 <= i < |ps|
        ensures 0 <= ps[i].base < next && IsMultiple(ps[i].base, step)
      {
        if i >= |prev| {
          assert ps[i] == tail[0];
          assert tail[0].base == last;
        } else {
          assert ps[i] == prev[i];
          assert 0 <= prev[i].base < last;
          assert IsMultiple(prev[i].base, step);
        }
      }
    }
  }

  /** The listed bases strictly ascend. */
  lemma {:induction false} BasePairsAscending(level: int, nt: int, step: int, next: int)
    requires step >= 1 && IsMultiple(next, step)
    ensures AscendingBases(BasePairsBelow(level, nt, step, next))
    decreases next
  {
    if next > 0 {
      var last := next - step;
      var prev := BasePairsBelow(level, nt, step, last);
      var tail := PairIfHit(level, nt, last);
      assert 0 <= last && IsMultiple(last, step);
      BasePairsAscending(level, nt, step, last);
      BasePairsBounded(level, nt, step, last);
      var ps: seq<ScorePair> := prev + tail;
      assert BasePairsBelow(level, nt, step, next) == ps;
      forall i, j | 0 <= i < j < |ps|
        ensures ps[i].base < ps[j].base
      {
        assert ps[i] == prev[i];
        if j >= |prev| {
          assert ps[j] == tail[0];
        } else {
          assert ps[j] == prev[j];
        }
      }
    }
  }

  /** Every matching visited base below `next` is listed. */
  lemma {:induction false} BasePairsComplete(level: int, nt: int, step: int, next: int, b: int)
    requires step >= 1 && IsMultiple(next, step)
    requires 0 <= b < next && IsMultiple(b, step) && BaseHits(level, nt, b)
    ensures var ps := BasePairsBelow(level, nt, step, next);
      exists i :: 0 <= i < |ps| && ps[i].base == b
    decreases next
  {
    var last := next - step;
    var prev := BasePairsBelow(level, nt, step, last);
    var tail := PairIfHit(level, nt, last);
    assert BasePairsBelow(level, nt, step, next) == prev + tail;
    if b < last {
      BasePairsComplete(level, nt, step, last, b);
      var i :| 0 <= i < |prev| && prev[i].base == b;
      assert (prev + tail)[i] == prev[i];
    } else {
      CloseMultiples(last, b, step);
      assert (prev + tail)[|prev|] == tail[0];
    }
  }

  /** Once the scan has passed `limit`, the collected list is exact. */
  lemma BasePairsExact(level: int, nt: int, limit: int, step: int, next: int)
    requires step >= 1 && IsMultiple(next, step)
    requires limit < next
    requires next == 0 || next - step <= limit
    ensures ExactBasePairs(BasePairsBelow(level, nt, step, next), level, nt, limit, step)
  {
    var ps := BasePairsBelow(level, nt, step, next);
    BasePairsBounded(level, nt, step, next);
    BasePairsAscending(level, nt, step, next);
    forall b | 0 <= b <= limit && IsMultiple(b, step) && BaseHits(level, nt, b)
      ensures exists i :: 0 <= i < |ps| && ps[i].base == b
    {
      BasePairsComplete(level, nt, step, next, b);
    }
    if next > 0 {
      forall i | 0 <= i < |ps|
        ensures ps[i].base <= limit
      {
        if ps[i].base > next - step {
          CloseMultiples(next - step, ps[i].base, step);
        }
      }
    }
  }

  /** listBaseScoresMatchingLastDigit: the bases 0, step, 2*step, ... up to
      `limit` whose final score ends in the target digit. The scan only
      terminates when step >= 1 or when it does not start (limit < 0). */
  method ListBaseScoresMatchingLastDigit(level: int, targetDigit: int, limit: int, step: int)
    returns (results: seq<ScorePair>)
    requires step >= 1 || limit < 0
    ensures limit < 0 ==> results == []
    ensures step >= 1 ==> ExactBasePairs(results, level, NormalizeDigit(targetDigit), limit, step)
  {
    results := [];
    var normalizedTarget := NormalizeDigit(targetDigit);
    var base := 0;
    while base <= limit
      invariant step >= 1 || base == 0
      invariant step >= 1 ==> IsMultiple(base, step)
      invariant base == 0 || base - step <= limit
      invariant step >= 1 ==> results == BasePairsBelow(level, normalizedTarget, step, base)
      invariant step < 1 ==> results == []
      decreases limit - base
    {
      assert step >= 1;
      assert BasePairsBelow(level, normalizedTarget, step, base + step)
        == results + PairIfHit(level, normalizedTarget, base);
      var final := FinalScoreFromBase(base, level);
      if LastDigit(final) == normalizedTarget {
        results := results + [ScorePair(base, final)];
      }
      base := base + step;
    }
    if step >= 1 {
      BasePairsExact(level, normalizedTarget, limit, step, base);
    }
  }
}
