/** The "binary" threshold search of contrib_calculator_r3_test.py (min form,
    pot 100000) and of `calculate_clr` in contrib_calculator_r4_vitalik.py
    (division form): up to 100 rounds, each evaluating `bigtot` at the
    midpoint of [lower, upper] and keeping the half in which `bigtot`
    crosses the pot. */
module ThresholdSearch {
  import opened Basics
  import opened Aggregation
  import opened PairOverlap
  import opened MatchEngine
  import opened Monotonicity

  /** The round counter's bound; the 100th round stops before evaluating. */
  const Rounds: nat := 100

  /** What the search knows about its interval: a lower end that moved has
      `bigtot` below the pot, an upper end that moved has it above. */
  ghost predicate Brackets(sqrt: Root, capped: bool, ov: Overlap, c: Ledger, lowerBound: real, totalPot: real, lower: real, upper: real) {
    && (lower != lowerBound ==>
          0.0 < lower && LedgerReady(Family(capped, lower), ov, c) && BigTotal(sqrt, capped, ov, c, lower) < totalPot)
    && (upper != totalPot ==>
          0.0 < upper && LedgerReady(Family(capped, upper), ov, c) && totalPot < BigTotal(sqrt, capped, ov, c, upper))
  }

  /** `totals` and `bigtot` are what the grant loop yields at threshold t
      (positive for the division form). */
  ghost predicate Evaluated(sqrt: Root, capped: bool, ov: Overlap, c: Ledger, t: real, totals: seq<Award>, bigtot: real) {
    && (capped || 0.0 < t) && LedgerReady(Family(capped, t), ov, c)
    && totals == RawSpec(sqrt, Family(capped, t), ov, c) && bigtot == Total(totals)
  }

  /** The while loop of the search. `threshold`, `bigtot` and `totals` are
      those of the last round that evaluated. Rounds 1 to 99 evaluate; in
      round 100 the script takes the midpoint, counts the round and breaks
      before evaluating, which is the statement after the loop here. */
  method Bisect(sqrt: Root, capped: bool, ov: Overlap, c: Ledger, lowerBound: real, totalPot: real)
    returns (found: bool, bigtot: real, totals: seq<Award>, threshold: real, lower: real, upper: real, iterations: nat)
    requires IsSqrt(sqrt) && LedgerOk(ov, capped, c)
    requires 0.0 <= lowerBound < totalPot
    ensures 1 <= iterations <= Rounds
    ensures lowerBound <= lower < upper <= totalPot
    ensures Brackets(sqrt, capped, ov, c, lowerBound, totalPot, lower, upper)
    ensures lowerBound < threshold <= totalPot
    ensures Evaluated(sqrt, capped, ov, c, threshold, totals, bigtot)
    ensures found <==> bigtot == totalPot
    ensures found ==> threshold == (lower + upper) / 2.0
    ensures !found ==> iterations == Rounds && (threshold == lower || threshold == upper)
    ensures !found ==> upper - lower == Width(totalPot - lowerBound, Rounds - 1)
  {
    lower, upper := lowerBound, totalPot;
    iterations := 0;
    found := false;
    bigtot, totals, threshold := 0.0, [], 0.0;
    while iterations < Rounds - 1
      invariant iterations <= Rounds - 1
      invariant lowerBound <= lower < upper <= totalPot
      invariant upper - lower == Width(totalPot - lowerBound, iterations)
      invariant Brackets(sqrt, capped, ov, c, lowerBound, totalPot, lower, upper)
      invariant !found
      invariant 1 <= iterations ==>
        && lowerBound < threshold && Evaluated(sqrt, capped, ov, c, threshold, totals, bigtot)
        && bigtot != totalPot && (threshold == lower || threshold == upper)
    {
      iterations := iterations + 1;
      var below, above;
      bigtot, totals, threshold, below, above := Round(sqrt, capped, ov, c, lowerBound, totalPot, lower, upper);
      if bigtot == totalPot {
        found := true;
        break;
      }
      lower, upper := below, above;
    }
    if !found {
      iterations := iterations + 1;
    }
  }

  /** One evaluating round: `bigtot` and `totals` at the midpoint, then the
      `elif` that moves one end of the interval to it. */
  method Round(sqrt: Root, capped: bool, ov: Overlap, c: Ledger, lowerBound: real, totalPot: real, lower: real, upper: real)
    returns (bigtot: real, totals: seq<Award>, threshold: real, lower': real, upper': real)
    requires IsSqrt(sqrt) && LedgerOk(ov, capped, c)
    requires 0.0 <= lowerBound <= lower < upper <= totalPot
    requires Brackets(sqrt, capped, ov, c, lowerBound, totalPot, lower, upper)
    ensures threshold == (lower + upper) / 2.0
    ensures Evaluated(sqrt, capped, ov, c, threshold, totals, bigtot)
    ensures bigtot == totalPot ==> lower' == lower && upper' == upper
    ensures bigtot < totalPot ==> lower' == threshold && upper' == upper
    ensures totalPot < bigtot ==> lower' == lower && upper' == threshold
    ensures Brackets(sqrt, capped, ov, c, lowerBound, totalPot, lower', upper')
  {
    threshold := (lower + upper) / 2.0;
    LedgerReadyAt(ov, capped, c, threshold);
    totals, bigtot := RawTotals(sqrt, Family(capped, threshold), ov, c);
    lower', upper' := lower, upper;
    if bigtot < totalPot {
      MoveLower(sqrt, capped, ov, c, lowerBound, totalPot, lower, upper, threshold);
      lower' := threshold;
    } else if totalPot < bigtot {
      MoveUpper(sqrt, capped, ov, c, lowerBound, totalPot, lower, upper, threshold);
      upper' := threshold;
    }
  }

  /** The width of the interval after n halvings of an interval of width w. */
  function Width(w: real, n: nat): real {
    if n == 0 then w else Width(w, n - 1) / 2.0
  }

  /** n halvings divide the width by 2 to the power n. */
  lemma {:induction false} WidthHalvings(w: real, n: nat)
    ensures Width(w, n) * Pow2(n) == w
  {
    if n != 0 {
      WidthHalvings(w, n - 1);
      calc {
        Width(w, n) * Pow2(n);
        (Width(w, n - 1) / 2.0) * (2.0 * Pow2(n - 1));
        Width(w, n - 1) * Pow2(n - 1);
      }
    }
  }

  lemma {:induction false} MoveLower(sqrt: Root, capped: bool, ov: Overlap, c: Ledger, lowerBound: real, totalPot: real, lower: real, upper: real, mid: real)
    requires Brackets(sqrt, capped, ov, c, lowerBound, totalPot, lower, upper)
    requires lowerBound <= lower < mid && 0.0 < mid && LedgerReady(Family(capped, mid), ov, c)
    requires Total(RawSpec(sqrt, Family(capped, mid), ov, c)) < totalPot
    ensures Brackets(sqrt, capped, ov, c, lowerBound, totalPot, mid, upper)
  {
  }

  lemma {:induction false} MoveUpper(sqrt: Root, capped: bool, ov: Overlap, c: Ledger, lowerBound: real, totalPot: real, lower: real, upper: real, mid: real)
    requires Brackets(sqrt, capped, ov, c, lowerBound, totalPot, lower, upper)
    requires mid < upper && 0.0 < mid && LedgerReady(Family(capped, mid), ov, c)
    requires totalPot < Total(RawSpec(sqrt, Family(capped, mid), ov, c))
    ensures Brackets(sqrt, capped, ov, c, lowerBound, totalPot, lower, mid)
  {
  }

  /** `bigtot` does not decrease with the threshold, stated for two
      thresholds in either order. */
  lemma {:induction false} BigTotalOrder(sqrt: Root, capped: bool, ov: Overlap, c: Ledger, t1: real, t2: real)
    requires IsSqrt(sqrt) && LedgerOk(ov, capped, c) && 0.0 < t1 && 0.0 < t2
    requires LedgerReady(Family(capped, t1), ov, c) && LedgerReady(Family(capped, t2), ov, c)
    ensures t1 <= t2 ==> BigTotal(sqrt, capped, ov, c, t1) <= BigTotal(sqrt, capped, ov, c, t2)
  {
    if t1 <= t2 {
      BigTotalMonotone(sqrt, ov, capped, c, t1, t2);
    }
  }

  /** Any threshold at which `bigtot` equals the pot lies strictly inside
      the ends of the interval that the search has moved. */
  lemma {:induction false} RootInBracket(sqrt: Root, capped: bool, ov: Overlap, c: Ledger, lowerBound: real, totalPot: real, lower: real, upper: real, t: real)
    requires IsSqrt(sqrt) && LedgerOk(ov, capped, c)
    requires Brackets(sqrt, capped, ov, c, lowerBound, totalPot, lower, upper)
    requires 0.0 < t && LedgerReady(Family(capped, t), ov, c) && BigTotal(sqrt, capped, ov, c, t) == totalPot
    ensures lower != lowerBound ==> lower < t
    ensures upper != totalPot ==> t < upper
  {
    if lower != lowerBound {
      BigTotalOrder(sqrt, capped, ov, c, t, lower);
    }
    if upper != totalPot {
      BigTotalOrder(sqrt, capped, ov, c, upper, t);
    }
  }
}
