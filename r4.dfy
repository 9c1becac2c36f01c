/** contrib_calculator_r4.py: the division formula at a fixed threshold,
    normalised to the pot, and the what-if curve of one grant's match when
    one more user gives to it. */
module RoundFour {
  import opened Basics
  import opened Aggregation
  import opened PairOverlap
  import opened MatchEngine
  import opened Monotonicity
  import opened Distribution
  import opened LiveDonation

  /** The one trial amount of aggregate_contributions_live. */
  const TrialAmount: real := 0.00001

  /** aggregate_contributions_live: the aggregate of the records, then one
      copy per trial amount with the amount added to (grant_id, live_user)
      and its own pair totals. The grant must already be a key. */
  method AggregateContributionsLive(sqrt: Root, grantContributions: seq<Contribution>, grantId: Id, liveUser: Id)
    returns (contribDictList: seq<Ledger>, totOverlapList: seq<Overlap>)
    requires grantId in GrantIds(grantContributions)
    ensures grantId in Keys(AggregateSpec(grantContributions))
    ensures |contribDictList| == 1 && |totOverlapList| == 1
    ensures contribDictList[0] == Inject(AggregateSpec(grantContributions), grantId, liveUser, TrialAmount)
    ensures totOverlapList[0] == OverlapSpec(sqrt, contribDictList[0])
  {
    var contribDict := Aggregate(grantContributions);
    AggregateGrants(grantContributions);
    contribDictList, totOverlapList := Variants(sqrt, contribDict, grantId, liveUser, [TrialAmount]);
  }

  /** calculate_new_clr: the division-form totals divided by
      `bigtot / total_pot`. */
  method CalculateNewClr(sqrt: Root, aggregatedContributions: Ledger, pairTotals: Overlap, threshold: real, totalPot: real)
    returns (r: Result<seq<Award>>)
    requires LedgerReady(Pairwise(threshold), pairTotals, aggregatedContributions)
    ensures r == NormalizeSpec(RawSpec(sqrt, Pairwise(threshold), pairTotals, aggregatedContributions), totalPot)
    ensures r.Ok? ==> Ids(r.value) == Keys(aggregatedContributions)
  {
    var totals, bigtot := RawTotals(sqrt, Pairwise(threshold), pairTotals, aggregatedContributions);
    r := Normalize(totals, bigtot, totalPot);
    RawShape(sqrt, Pairwise(threshold), pairTotals, aggregatedContributions);
    if r.Ok? {
      NormalizeProportional(totals, totalPot);
    }
  }

  /** The awards of run_tech_calc and run_media_calc for a record list and a
      pot: the division-form totals at threshold 25 of the records, normalised
      to the pot; one per grant in first-appearance order, adding up to the
      pot. */
  method RunCalc(sqrt: Root, records: seq<Contribution>, totalPot: real) returns (res: Result<seq<Award>>)
    requires IsSqrt(sqrt) && RecordsSignConsistent(records)
    ensures res == NormalizeSpec(RecordsRaw(sqrt, records, 25.0), totalPot)
    ensures totalPot == 0.0 ==> res == Error(ZeroDivisionError)
    ensures res.Ok? ==> Ids(res.value) == Dedup(GrantIds(records))
    ensures res.Ok? && records != [] ==> Total(res.value) == totalPot
  {
    var aggregated := Aggregate(records);
    var pairTotals := PairTotals(sqrt, aggregated);
    RecordsReady(sqrt, records, false);
    LedgerReadyAt(pairTotals, false, aggregated, 25.0);
    res := CalculateNewClr(sqrt, aggregated, pairTotals, 25.0, totalPot);
    AggregateGrants(records);
    NormalizeFails(RawSpec(sqrt, Pairwise(25.0), pairTotals, aggregated), totalPot);
    if res.Ok? && records != [] {
      assert records[0].grant in GrantIds(records);
      assert Keys(aggregated) != [];
      RawShape(sqrt, Pairwise(25.0), pairTotals, aggregated);
      NormalizeSumsToPot(RawSpec(sqrt, Pairwise(25.0), pairTotals, aggregated), totalPot);
    }
  }

  /** run_tech_calc: the tech records with the default pot of 125000. */
  method RunTechCalc(sqrt: Root, tech: seq<Contribution>) returns (res: Result<seq<Award>>)
    requires IsSqrt(sqrt) && RecordsSignConsistent(tech)
    ensures res == NormalizeSpec(RecordsRaw(sqrt, tech, 25.0), 125000.0)
    ensures res.Ok? ==> Ids(res.value) == Dedup(GrantIds(tech))
    ensures res.Ok? && tech != [] ==> Total(res.value) == 125000.0
  {
    res := RunCalc(sqrt, tech, 125000.0);
  }

  /** run_media_calc: the media records with a pot of 75000. */
  method RunMediaCalc(sqrt: Root, media: seq<Contribution>) returns (res: Result<seq<Award>>)
    requires IsSqrt(sqrt) && RecordsSignConsistent(media)
    ensures res == NormalizeSpec(RecordsRaw(sqrt, media, 25.0), 75000.0)
    ensures res.Ok? ==> Ids(res.value) == Dedup(GrantIds(media))
    ensures res.Ok? && media != [] ==> Total(res.value) == 75000.0
  {
    res := RunCalc(sqrt, media, 75000.0);
  }

  /** One pass of run_live_calc's loop: calculate_new_clr on a variant and
      the grant's amount in it (`filter(...)[0]`). */
  method Predict(sqrt: Root, tech: seq<Contribution>, grantId: Id, liveUser: Id, threshold: real, totalPot: real, x: Ledger, y: Overlap)
    returns (pred: Result<real>)
    requires IsSqrt(sqrt) && grantId in GrantIds(tech) && 0.0 < threshold
    requires forall i :: 0 <= i < |tech| ==> 0.0 <= tech[i].amount
    requires grantId in Keys(AggregateSpec(tech))
    requires x == Inject(AggregateSpec(tech), grantId, liveUser, TrialAmount) && y == OverlapSpec(sqrt, x)
    ensures var v := VariantClr(sqrt, tech, grantId, liveUser, TrialAmount, threshold, totalPot);
            && (v.Error? ==> pred == Error(v.failure))
            && (v.Ok? ==> grantId in Ids(v.value) && pred == Ok(AmountFor(v.value, grantId)))
  {
    VariantReady(sqrt, tech, grantId, liveUser, TrialAmount, threshold);
    var res := CalculateNewClr(sqrt, x, y, threshold, totalPot);
    if res.Error? {
      return Error(res.failure);
    }
    InjectEffect(tech, grantId, liveUser, TrialAmount, grantId, liveUser);
    pred := Ok(AmountFor(res.value, grantId));
  }

  /** run_live_calc: the grant's normalised match in every variant, then the
      delta curve. With its single trial amount the curve is that match. */
  method RunLiveCalc(sqrt: Root, tech: seq<Contribution>, grantId: Id, liveUser: Id, threshold: real, totalPot: real)
    returns (clrCurve: Result<seq<real>>)
    requires IsSqrt(sqrt) && grantId in GrantIds(tech) && 0.0 < threshold
    requires forall i :: 0 <= i < |tech| ==> 0.0 <= tech[i].amount
    ensures var v := VariantClr(sqrt, tech, grantId, liveUser, TrialAmount, threshold, totalPot);
            && (v.Error? ==> clrCurve == Error(v.failure))
            && (v.Ok? ==> grantId in Ids(v.value) && clrCurve == Ok([AmountFor(v.value, grantId)]))
  {
    var cs, ovs := AggregateContributionsLive(sqrt, tech, grantId, liveUser);
    ghost var v := VariantClr(sqrt, tech, grantId, liveUser, TrialAmount, threshold, totalPot);
    var curve: seq<real> := [];
    for k := 0 to |cs|
      invariant |curve| == k
      invariant k == 1 ==> v.Ok?
      invariant v.Ok? && k == 1 ==> grantId in Ids(v.value) && curve == [AmountFor(v.value, grantId)]
    {
      var pred := Predict(sqrt, tech, grantId, liveUser, threshold, totalPot, cs[k], ovs[k]);
      if pred.Error? {
        return Error(pred.failure);
      }
      curve := curve + [pred.value];
    }
    assert |Deltas(curve)| == 1 && Deltas(curve)[0] == curve[0];
    clrCurve := Ok(Deltas(curve));
    assert clrCurve.value == curve;
  }
}
