/** contrib_calculator_frank.py: the fixture records, aggregation, pair
    totals and a threshold loop on the min form that, unlike the bisection,
    never moves its bounds: each of its 100 rounds evaluates `bigtot` and
    moves the threshold halfway towards the fixed upper bound (below the
    pot) or the fixed lower bound (above it). */
module Frank {
  import opened Basics
  import opened Aggregation
  import opened PairOverlap
  import opened MatchEngine
  import opened Monotonicity
  import opened ThresholdSearch

  /** The script's hard-coded records: (project, user, amount). */
  function Contribs(): (recs: seq<Contribution>)
    ensures |recs| == 8 && RecordsStrict(recs)
  {
    [ Contribution(1, 1, 5.0), Contribution(2, 3, 20.0), Contribution(2, 1, 2.0), Contribution(2, 4, 2.0),
      Contribution(2, 5, 5.0), Contribution(2, 1, 15.0), Contribution(3, 3, 20.0), Contribution(3, 1, 2.0) ]
  }

  /** The threshold loop. `total_pot` is never assigned in the script, so it
      is a parameter here. The threshold starts at `lower + upper // 2`, the
      floor of the pot. `bigtot` and `totals` are those of the 100th round,
      evaluated at `evaluated`; `threshold` is the one that round moved to. */
  method Search(sqrt: Root, totOverlap: Overlap, contribDict: Ledger, totalPot: real)
    returns (threshold: real, bigtot: real, totals: seq<Award>, evaluated: real)
    requires LedgerOk(totOverlap, true, contribDict)
    ensures Evaluated(sqrt, true, totOverlap, contribDict, evaluated, totals, bigtot)
    ensures bigtot == totalPot ==> threshold == evaluated
    ensures 0.0 <= totalPot ==> 0.0 <= evaluated <= 2.0 * totalPot && 0.0 <= threshold <= 2.0 * totalPot
    ensures 0.0 <= totalPot && bigtot < totalPot ==> evaluated <= threshold
    ensures 0.0 <= totalPot && totalPot < bigtot ==> threshold <= evaluated
    ensures bigtot < totalPot ==> threshold == (evaluated + 2.0 * totalPot) / 2.0
    ensures totalPot < bigtot ==> threshold == evaluated / 2.0
  {
    var lower := 0.0;
    var upper := totalPot * 2.0;
    var iterations := 0;
    threshold := lower + (upper / 2.0).Floor as real;
    bigtot, totals, evaluated := 0.0, [], threshold;
    while iterations < 100
      invariant iterations <= 100
      invariant 0.0 <= totalPot ==> lower <= threshold <= upper
      invariant 0.0 <= totalPot && 1 <= iterations ==> lower <= evaluated <= upper
      invariant 1 <= iterations ==> Evaluated(sqrt, true, totOverlap, contribDict, evaluated, totals, bigtot)
      invariant 1 <= iterations && bigtot == totalPot ==> threshold == evaluated
      invariant 0.0 <= totalPot && 1 <= iterations && bigtot < totalPot ==> evaluated <= threshold
      invariant 0.0 <= totalPot && 1 <= iterations && totalPot < bigtot ==> threshold <= evaluated
      invariant 1 <= iterations && bigtot < totalPot ==> threshold == (evaluated + upper) / 2.0
      invariant 1 <= iterations && totalPot < bigtot ==> threshold == (lower + evaluated) / 2.0
    {
      iterations := iterations + 1;
      LedgerReadyAt(totOverlap, true, contribDict, threshold);
      totals, bigtot := RawTotals(sqrt, MinCapped(threshold), totOverlap, contribDict);
      evaluated := threshold;
      // The script's fourth branch, `elif iterations == 101`, follows three
      // exhaustive comparisons and is never taken.
      if bigtot == totalPot {
      } else if bigtot < totalPot {
        threshold := (threshold + upper) / 2.0;
      } else {
        threshold := (lower + threshold) / 2.0;
      }
    }
  }

  /** The script's top level for a given pot: the search over the aggregate
      of the fixture and its pair totals. */
  method Run(sqrt: Root, totalPot: real) returns (threshold: real, bigtot: real, totals: seq<Award>, evaluated: real)
    requires IsSqrt(sqrt)
    ensures var c := AggregateSpec(Contribs());
            Evaluated(sqrt, true, OverlapSpec(sqrt, c), c, evaluated, totals, bigtot)
    ensures bigtot == totalPot ==> threshold == evaluated
    ensures bigtot < totalPot ==> threshold == (evaluated + 2.0 * totalPot) / 2.0
    ensures totalPot < bigtot ==> threshold == evaluated / 2.0
    ensures 0.0 <= totalPot ==> 0.0 <= evaluated <= 2.0 * totalPot && 0.0 <= threshold <= 2.0 * totalPot
    ensures Ids(totals) == Dedup(GrantIds(Contribs()))
  {
    var contribDict := Aggregate(Contribs());
    var totOverlap := PairTotals(sqrt, contribDict);
    StrictRecordsDefined(sqrt, Contribs());
    RecordsReady(sqrt, Contribs(), true);
    threshold, bigtot, totals, evaluated := Search(sqrt, totOverlap, contribDict, totalPot);
    RawShape(sqrt, Family(true, evaluated), totOverlap, contribDict);
    AggregateGrants(Contribs());
  }
}
