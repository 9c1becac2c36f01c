/** contrib_calculator_r3_test.py: aggregate the records, build the pair
    totals, then search for the min-form threshold whose `bigtot` is the pot
    of 100000. */
module RoundThreeTest {
  import opened Basics
  import opened Aggregation
  import opened PairOverlap
  import opened MatchEngine
  import opened Monotonicity
  import opened ThresholdSearch

  const TotalPot: real := 100000.0

  /** What the search reports: whether `bigtot` met the pot, and the
      `bigtot`, `totals` and threshold of the last round that evaluated. */
  datatype Outcome = Outcome(found: bool, bigtot: real, totals: seq<Award>, threshold: real)

  /** The script's top level; `contribs` are the records it loads from its
      JSON file. The first round of the search evaluates every pair k2 > k1
      of every grant, so `threshold / tot_overlap[k1][k2]` raises
      ZeroDivisionError there when one of those pair totals is 0, whatever
      the threshold; otherwise every round evaluates. */
  method Run(sqrt: Root, contribs: seq<Contribution>) returns (r: Result<Outcome>)
    requires IsSqrt(sqrt) && RecordsSignConsistent(contribs)
    ensures var c := AggregateSpec(contribs);
            r.Error? <==> !MinDefined(OverlapSpec(sqrt, c), c)
    ensures r.Error? ==> r.failure == ZeroDivisionError
    ensures r.Ok? ==> 0.0 < r.value.threshold <= TotalPot
    ensures r.Ok? ==>
              var c := AggregateSpec(contribs);
              Evaluated(sqrt, true, OverlapSpec(sqrt, c), c, r.value.threshold, r.value.totals, r.value.bigtot)
    ensures r.Ok? ==> (r.value.found <==> r.value.bigtot == TotalPot)
    ensures r.Ok? ==> Ids(r.value.totals) == Dedup(GrantIds(contribs))
  {
    var contribDict := Aggregate(contribs);
    var totOverlap := PairTotals(sqrt, contribDict);
    if !MinDefined(totOverlap, contribDict) {
      return Error(ZeroDivisionError);
    }
    RecordsReady(sqrt, contribs, true);
    var found, bigtot, totals, threshold, lower, upper, iterations;
    found, bigtot, totals, threshold, lower, upper, iterations := Bisect(sqrt, true, totOverlap, contribDict, 0.0, TotalPot);
    RawShape(sqrt, Family(true, threshold), totOverlap, contribDict);
    AggregateGrants(contribs);
    r := Ok(Outcome(found, bigtot, totals, threshold));
  }

  /** User 1 gives 0 to grant 1 and 4 to grant 2; user 2 gives 9 to both. */
  const ZeroAmountRecords: seq<Contribution> :=
    [Contribution(1, 1, 0.0), Contribution(2, 1, 4.0), Contribution(1, 2, 9.0), Contribution(2, 2, 9.0)]

  lemma {:induction false} ZeroAmountLedger()
    ensures AggregateSpec(ZeroAmountRecords) == [(1, [(1, 0.0), (2, 9.0)]), (2, [(1, 4.0), (2, 9.0)])]
  {
    var recs := ZeroAmountRecords;
    assert recs[..3][..2][..1] == recs[..1] && recs[..1][..0] == [];
    assert AggregateSpec(recs[..1]) == [(1, [(1, 0.0)])];
    assert AggregateSpec(recs[..2]) == Post([(1, [(1, 0.0)])], recs[1]) == [(1, [(1, 0.0)]), (2, [(1, 4.0)])];
    assert [(1, 0.0)][1..] == [];
    assert Credit([(1, 0.0)], 2, 9.0) == [(1, 0.0), (2, 9.0)];
    assert [(1, [(1, 0.0)]), (2, [(1, 4.0)])][1..] == [(2, [(1, 4.0)])];
    assert AggregateSpec(recs[..3]) == Post(AggregateSpec(recs[..2]), recs[2]) == [(1, [(1, 0.0), (2, 9.0)]), (2, [(1, 4.0)])];
    var c3: Ledger := [(1, [(1, 0.0), (2, 9.0)]), (2, [(1, 4.0)])];
    assert c3[1..] == [(2, [(1, 4.0)])] && |c3[1..][1..]| == 0;
    assert |[(1, 4.0)][1..]| == 0;
    assert Credit([(1, 4.0)], 2, 9.0) == [(1, 4.0), (2, 9.0)];
    assert DonorsOf(c3, 2) == [(1, 4.0)];
    assert SetDonors(c3, 2, [(1, 4.0), (2, 9.0)]) == [(1, [(1, 0.0), (2, 9.0)]), (2, [(1, 4.0), (2, 9.0)])];
    assert AggregateSpec(recs) == Post(AggregateSpec(recs[..3]), recs[3]);
  }

  /** The pair (1, 2) of that ledger has a positive total, through grant 2. */
  lemma {:induction false} ZeroAmountPairTotal(sqrt: Root)
    requires IsSqrt(sqrt)
    ensures var c := AggregateSpec(ZeroAmountRecords);
            0.0 < Get2(OverlapSpec(sqrt, c), 1, 2)
  {
    var c := AggregateSpec(ZeroAmountRecords);
    AggregateWellFormed(ZeroAmountRecords);
    AggregateSignConsistent(ZeroAmountRecords);
    OverlapValues(sqrt, c, 1, 2);
    ZeroAmountLedger();
    PairScoreAtLeast(sqrt, c, 1, 0, 1);
    RootPositive(sqrt, 4.0 * 9.0);
  }

  /** A record of amount 0 is accepted when the pairs it is part of have a
      non-zero total through another grant. */
  lemma {:induction false} ZeroAmountAccepted(sqrt: Root)
    requires IsSqrt(sqrt)
    ensures var c := AggregateSpec(ZeroAmountRecords);
            RecordsSignConsistent(ZeroAmountRecords) && MinDefined(OverlapSpec(sqrt, c), c)
  {
    var c := AggregateSpec(ZeroAmountRecords);
    ZeroAmountPairTotal(sqrt);
    ZeroAmountLedger();
    MinDefinedOfPair(OverlapSpec(sqrt, c), c, 1, 2);
    ZeroAmountSigns();
  }

  lemma {:induction false} ZeroAmountSigns()
    ensures RecordsSignConsistent(ZeroAmountRecords)
  {
    forall i | 0 <= i < |ZeroAmountRecords|
      ensures 0.0 <= ZeroAmountRecords[i].amount
    {
    }
  }

  /** In a ledger whose only contributors are a < b, the only pair the min
      form divides by is (a, b). */
  lemma {:induction false} MinDefinedOfPair(ov: Overlap, c: Ledger, a: Id, b: Id)
    requires forall i, j :: 0 <= i < |c| && 0 <= j < |c[i].1| ==> c[i].1[j].0 == a || c[i].1[j].0 == b
    requires a < b && Get2(ov, a, b) != 0.0
    ensures MinDefined(ov, c)
  {
  }

  /** User 1 gives 0 to grant 1 and user 2 gives 9 to it. */
  const ZeroPairRecords: seq<Contribution> := [Contribution(1, 1, 0.0), Contribution(1, 2, 9.0)]

  lemma {:induction false} ZeroPairLedger()
    ensures AggregateSpec(ZeroPairRecords) == [(1, [(1, 0.0), (2, 9.0)])]
  {
    var recs := ZeroPairRecords;
    assert recs[..1][..0] == [];
    assert AggregateSpec(recs[..1]) == [(1, [(1, 0.0)])];
    assert [(1, 0.0)][1..] == [];
    assert Credit([(1, 0.0)], 2, 9.0) == [(1, 0.0), (2, 9.0)];
    assert [(1, [(1, 0.0)])][1..] == [];
    assert AggregateSpec(recs) == Post(AggregateSpec(recs[..1]), recs[1]);
  }

  /** Two contributors whose only common grant has one of them at 0 have a
      pair total of 0, so the run fails. */
  lemma {:induction false} ZeroPairFails(sqrt: Root)
    requires IsSqrt(sqrt)
    ensures var c := AggregateSpec(ZeroPairRecords);
            RecordsSignConsistent(ZeroPairRecords) && !MinDefined(OverlapSpec(sqrt, c), c)
  {
    var c := AggregateSpec(ZeroPairRecords);
    AggregateWellFormed(ZeroPairRecords);
    ZeroPairLedger();
    OverlapValues(sqrt, c, 1, 2);
    SqrtOfSquare(sqrt, 0.0);
    assert PairScore(sqrt, c, 1, 2) == PairScore(sqrt, c[..0], 1, 2) + GrantTerm(sqrt, c[0].1, 1, 2);
    assert c[0].1[0].0 < c[0].1[1].0;
    ZeroPairSigns();
  }

  lemma {:induction false} ZeroPairSigns()
    ensures RecordsSignConsistent(ZeroPairRecords)
  {
    forall i | 0 <= i < |ZeroPairRecords|
      ensures 0.0 <= ZeroPairRecords[i].amount
    {
    }
  }
}
