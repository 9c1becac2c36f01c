/** contrib_calculator_r4_vitalik.py: per grant type, aggregate the CSV
    records and build the pair totals, then search for the division-form
    threshold whose `bigtot` is the type's pot. */
module VitalikDivision {
  import opened Basics
  import opened Aggregation
  import opened PairOverlap
  import opened MatchEngine
  import opened Monotonicity
  import opened ThresholdSearch

  /** The fields of a CSV line that the script reads: the project, the user,
      the amount and the grant type column. */
  datatype Line = Line(proj: Id, user: Id, amount: real, grantType: string)

  /** The list comprehension of get_raw_grants: the lines of one grant type,
      as (project, user, amount) records, in file order. */
  function Selected(lines: seq<Line>, grantType: string): (recs: seq<Contribution>)
    ensures |recs| <= |lines|
    ensures forall r :: r in recs <==> exists l :: l in lines && l.grantType == grantType && r == Contribution(l.proj, l.user, l.amount)
  {
    if lines == [] then []
    else
      var l := lines[|lines| - 1];
      var prefix := lines[..|lines| - 1];
      assert forall x :: x in lines <==> x in prefix || x == l;
      Selected(prefix, grantType) + (if l.grantType == grantType then [Contribution(l.proj, l.user, l.amount)] else [])
  }

  /** get_raw_grants: the aggregated contributions and pair totals of one
      grant type. */
  method GetRawGrants(sqrt: Root, lines: seq<Line>, grantType: string) returns (o: Ledger, totOverlap: Overlap)
    ensures o == AggregateSpec(Selected(lines, grantType))
    ensures totOverlap == OverlapSpec(sqrt, o)
  {
    o := Aggregate(Selected(lines, grantType));
    totOverlap := PairTotals(sqrt, o);
  }

  /** calculate_clr: the bisection with the division formula. `bigtot` and
      `totals` are those of the last evaluating round, at `threshold`. */
  method CalculateClr(sqrt: Root, aggregatedContributions: Ledger, pairTotals: Overlap, lowerBound: real, totalPot: real)
    returns (bigtot: real, totals: seq<Award>, ghost threshold: real)
    requires IsSqrt(sqrt) && LedgerOk(pairTotals, false, aggregatedContributions)
    requires 0.0 <= lowerBound < totalPot
    ensures lowerBound < threshold <= totalPot
    ensures Evaluated(sqrt, false, pairTotals, aggregatedContributions, threshold, totals, bigtot)
    ensures Ids(totals) == Keys(aggregatedContributions)
  {
    var found, lower, upper, iterations;
    found, bigtot, totals, threshold, lower, upper, iterations := Bisect(sqrt, false, pairTotals, aggregatedContributions, lowerBound, totalPot);
    RawShape(sqrt, Family(false, threshold), pairTotals, aggregatedContributions);
  }

  /** The two calls at the end of the script: tech with the default pot of
      125000, media with 75000, both from a lower bound of 0. */
  method Run(sqrt: Root, lines: seq<Line>)
    returns (techBigtot: real, techTotals: seq<Award>, mediaBigtot: real, mediaTotals: seq<Award>,
             ghost techThreshold: real, ghost mediaThreshold: real)
    requires IsSqrt(sqrt)
    requires RecordsSignConsistent(Selected(lines, "tech")) && RecordsSignConsistent(Selected(lines, "media"))
    ensures var c := AggregateSpec(Selected(lines, "tech"));
            && 0.0 < techThreshold <= 125000.0
            && Evaluated(sqrt, false, OverlapSpec(sqrt, c), c, techThreshold, techTotals, techBigtot)
    ensures var c := AggregateSpec(Selected(lines, "media"));
            && 0.0 < mediaThreshold <= 75000.0
            && Evaluated(sqrt, false, OverlapSpec(sqrt, c), c, mediaThreshold, mediaTotals, mediaBigtot)
    ensures Ids(techTotals) == Dedup(GrantIds(Selected(lines, "tech")))
    ensures Ids(mediaTotals) == Dedup(GrantIds(Selected(lines, "media")))
  {
    var tech, toverlap := GetRawGrants(sqrt, lines, "tech");
    var media, moverlap := GetRawGrants(sqrt, lines, "media");
    RecordsReady(sqrt, Selected(lines, "tech"), false);
    RecordsReady(sqrt, Selected(lines, "media"), false);
    AggregateGrants(Selected(lines, "tech"));
    AggregateGrants(Selected(lines, "media"));
    techBigtot, techTotals, techThreshold := CalculateClr(sqrt, tech, toverlap, 0.0, 125000.0);
    mediaBigtot, mediaTotals, mediaThreshold := CalculateClr(sqrt, media, moverlap, 0.0, 75000.0);
  }
}
