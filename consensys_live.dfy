/** contrib_calculator_consensys_live.py: for every selected grant, five
    what-if copies of the aggregate with a live user giving 0, 1, 10, 25 and
    100 to it, the normalised match of each copy, and the grant's prediction
    curve against the amount-0 baseline. */
module ConsensysLive {
  import opened Basics
  import opened Aggregation
  import opened PairOverlap
  import opened MatchEngine
  import opened Monotonicity
  import opened Distribution
  import opened LiveDonation

  /** The trial amounts of aggregate_contributions. */
  const TrialAmounts: seq<real> := [0.0, 1.0, 10.0, 25.0, 100.0]

  /** The threshold the main block passes to calculate_clr. */
  const CurveThreshold: real := 999999999.0

  /** The pot the main block passes to calculate_clr. */
  const CurvePot: real := 25000.0

  /** The zipped list of one grant: variant k adds the k-th trial amount to
      (g, u) in a copy of c and carries that copy's own pair totals. */
  function VariantList(sqrt: Root, c: Ledger, g: Id, u: Id): (vs: seq<(Ledger, Overlap)>)
    requires g in Keys(c)
    ensures |vs| == |TrialAmounts|
  {
    seq(|TrialAmounts|, k requires 0 <= k < |TrialAmounts| =>
      (Inject(c, g, u, TrialAmounts[k]), OverlapSpec(sqrt, Inject(c, g, u, TrialAmounts[k]))))
  }

  /** `zip(contrib_dict_list, tot_overlap_list)`, as a sequence of pairs. */
  function Zip(xs: seq<Ledger>, ys: seq<Overlap>): (r: seq<(Ledger, Overlap)>)
    requires |xs| == |ys|
    ensures |r| == |xs| && forall k :: 0 <= k < |r| ==> r[k].0 == xs[k] && r[k].1 == ys[k]
  {
    seq(|xs|, k requires 0 <= k < |xs| => (xs[k], ys[k]))
  }

  /** aggregate_contributions: one entry per selected grant, each holding the
      five variants of the shared aggregate for that grant. */
  method AggregateContributions(sqrt: Root, grantContributions: seq<Contribution>, ids: seq<Id>, liveUser: Id)
    returns (finalList: map<Id, seq<(Ledger, Overlap)>>)
    requires forall n :: 0 <= n < |ids| ==> ids[n] in GrantIds(grantContributions)
    ensures forall g :: g in finalList <==> g in ids
    ensures forall g :: g in finalList ==> g in Keys(AggregateSpec(grantContributions))
    ensures forall g :: g in finalList ==>
      finalList[g] == VariantList(sqrt, AggregateSpec(grantContributions), g, liveUser)
  {
    var contribDict := Aggregate(grantContributions);
    AggregateGrants(grantContributions);
    finalList := FillVariants(sqrt, contribDict, ids, liveUser);
  }

  /** The loop of aggregate_contributions over the selected grants. */
  method FillVariants(sqrt: Root, contribDict: Ledger, ids: seq<Id>, liveUser: Id)
    returns (finalList: map<Id, seq<(Ledger, Overlap)>>)
    requires forall n :: 0 <= n < |ids| ==> ids[n] in Keys(contribDict)
    ensures forall g :: g in finalList <==> g in ids
    ensures forall g :: g in finalList ==> g in Keys(contribDict)
    ensures forall g :: g in finalList ==> finalList[g] == VariantList(sqrt, contribDict, g, liveUser)
  {
    finalList := map[];
    for n := 0 to |ids|
      invariant forall g :: g in finalList <==> g in ids[..n]
      invariant forall g :: g in finalList ==> g in Keys(contribDict)
      invariant forall g :: g in finalList ==> finalList[g] == VariantList(sqrt, contribDict, g, liveUser)
    {
      var i := ids[n];
      var zipped := GrantVariants(sqrt, contribDict, i, liveUser);
      finalList := finalList[i := zipped];
      assert ids[..n + 1] == ids[..n] + [i];
    }
    assert ids[..|ids|] == ids;
  }

  /** The body of the loop over the selected grants: the five variants of
      grant i, zipped with their pair totals. */
  method GrantVariants(sqrt: Root, contribDict: Ledger, i: Id, liveUser: Id) returns (zipped: seq<(Ledger, Overlap)>)
    requires i in Keys(contribDict)
    ensures zipped == VariantList(sqrt, contribDict, i, liveUser)
  {
    var contribDictList, totOverlapList := Variants(sqrt, contribDict, i, liveUser, TrialAmounts);
    zipped := Zip(contribDictList, totOverlapList);
    ghost var vs := VariantList(sqrt, contribDict, i, liveUser);
    assert forall k :: 0 <= k < |vs| ==> vs[k] == zipped[k];
  }

  /** calculate_clr: the division-form totals over k2 > k1 pairs, divided by
      `bigtot / total_pot`, together with the sum before the division. */
  method CalculateClr(sqrt: Root, aggregatedContributions: Ledger, pairTotals: Overlap, threshold: real, totalPot: real)
    returns (r: Result<(seq<Award>, real)>)
    requires LedgerReady(Pairwise(threshold), pairTotals, aggregatedContributions)
    ensures var raw := RawSpec(sqrt, Pairwise(threshold), pairTotals, aggregatedContributions);
            && (r.Error? <==> NormalizeSpec(raw, totalPot).Error?)
            && (r.Error? ==> r.failure == ZeroDivisionError)
            && (r.Ok? ==> r.value.0 == NormalizeSpec(raw, totalPot).value && r.value.1 == Total(raw))
    ensures totalPot == 0.0 ==> r.Error?
    ensures r.Ok? ==> Ids(r.value.0) == Keys(aggregatedContributions)
    ensures r.Ok? && Keys(aggregatedContributions) != [] ==> Total(r.value.0) == totalPot
  {
    var totals, bigtot := RawTotals(sqrt, Pairwise(threshold), pairTotals, aggregatedContributions);
    var normalized := Normalize(totals, bigtot, totalPot);
    RawShape(sqrt, Pairwise(threshold), pairTotals, aggregatedContributions);
    if normalized.Error? {
      return Error(normalized.failure);
    }
    NormalizeProportional(totals, totalPot);
    if totals != [] {
      NormalizeSumsToPot(totals, totalPot);
    }
    r := Ok((normalized.value, bigtot));
  }

  /** Every variant can be matched at the main block's threshold and holds
      grant g. */
  ghost predicate Prepared(vs: seq<(Ledger, Overlap)>, g: Id) {
    forall k :: 0 <= k < |vs| ==> g in Keys(vs[k].0) && LedgerReady(Pairwise(CurveThreshold), vs[k].1, vs[k].0)
  }

  /** What calculate_clr returns, in the main block, for each variant. */
  function Clrs(sqrt: Root, vs: seq<(Ledger, Overlap)>, g: Id): (os: seq<Result<seq<Award>>>)
    requires Prepared(vs, g)
    ensures |os| == |vs|
  {
    seq(|vs|, k requires 0 <= k < |vs| && Prepared(vs, g) =>
      NormalizeSpec(RawSpec(sqrt, Pairwise(CurveThreshold), vs[k].1, vs[k].0), CurvePot))
  }

  /** The variants of every grant of non-negative records are prepared. */
  lemma {:induction false} VariantListPrepared(sqrt: Root, recs: seq<Contribution>, g: Id, u: Id)
    requires IsSqrt(sqrt) && g in GrantIds(recs)
    requires forall i :: 0 <= i < |recs| ==> 0.0 <= recs[i].amount
    ensures g in Keys(AggregateSpec(recs))
    ensures Prepared(VariantList(sqrt, AggregateSpec(recs), g, u), g)
  {
    AggregateGrants(recs);
    var vs := VariantList(sqrt, AggregateSpec(recs), g, u);
    forall k | 0 <= k < |vs|
      ensures g in Keys(vs[k].0) && LedgerReady(Pairwise(CurveThreshold), vs[k].1, vs[k].0)
    {
      VariantPreparedAt(sqrt, recs, g, u, k);
    }
  }

  lemma {:induction false} VariantPreparedAt(sqrt: Root, recs: seq<Contribution>, g: Id, u: Id, k: nat)
    requires IsSqrt(sqrt) && g in GrantIds(recs) && g in Keys(AggregateSpec(recs)) && k < |TrialAmounts|
    requires forall i :: 0 <= i < |recs| ==> 0.0 <= recs[i].amount
    ensures var v := VariantList(sqrt, AggregateSpec(recs), g, u)[k];
            g in Keys(v.0) && LedgerReady(Pairwise(CurveThreshold), v.1, v.0)
  {
    var a := TrialAmounts[k];
    assert 0.0 <= a;
    VariantPrepared(sqrt, recs, g, u, a);
  }

  lemma {:induction false} VariantPrepared(sqrt: Root, recs: seq<Contribution>, g: Id, u: Id, amount: real)
    requires IsSqrt(sqrt) && g in GrantIds(recs) && 0.0 <= amount
    requires forall i :: 0 <= i < |recs| ==> 0.0 <= recs[i].amount
    ensures g in Keys(AggregateSpec(recs))
    ensures var c := Inject(AggregateSpec(recs), g, u, amount);
            g in Keys(c) && LedgerReady(Pairwise(CurveThreshold), OverlapSpec(sqrt, c), c)
  {
    VariantReady(sqrt, recs, g, u, amount, CurveThreshold);
    InjectEffect(recs, g, u, amount, g, u);
  }

  /** x is grant g's match in outcome k. */
  predicate Predicted(os: seq<Result<seq<Award>>>, g: Id, k: nat, x: real) {
    k < |os| && os[k].Ok? && g in Ids(os[k].value) && x == AmountFor(os[k].value, g)
  }

  /** No outcome is an error. */
  predicate AllOk(os: seq<Result<seq<Award>>>) {
    forall k :: 0 <= k < |os| ==> os[k].Ok?
  }

  /** curve is grant g's prediction: its match in every outcome less its
      match in the first (amount-0) one. */
  predicate PredictionOf(os: seq<Result<seq<Award>>>, g: Id, curve: seq<real>) {
    && |curve| == |os| && 0 < |os|
    && os[0].Ok? && g in Ids(os[0].value)
    && forall k :: 0 <= k < |os| ==> Predicted(os, g, k, curve[k] + AmountFor(os[0].value, g))
  }

  /** calculate_clr on variant k and `filter(...)[0]['clr_amount']` for g. */
  method Grab(sqrt: Root, g: Id, variants: seq<(Ledger, Overlap)>, k: nat) returns (grab: Result<real>)
    requires k < |variants| && Prepared(variants, g)
    ensures grab.Error? <==> Clrs(sqrt, variants, g)[k].Error?
    ensures grab.Error? ==> grab.failure == ZeroDivisionError
    ensures grab.Ok? ==> Predicted(Clrs(sqrt, variants, g), g, k, grab.value)
  {
    var x, y := variants[k].0, variants[k].1;
    var clrRewards := CalculateClr(sqrt, x, y, CurveThreshold, CurvePot);
    assert Clrs(sqrt, variants, g)[k] == NormalizeSpec(RawSpec(sqrt, Pairwise(CurveThreshold), y, x), CurvePot);
    if clrRewards.Error? {
      return Error(clrRewards.failure);
    }
    grab := Ok(AmountFor(clrRewards.value.0, g));
  }

  /** The main block for one grant: the match of g in each of its variants,
      then `[pred[0] - pred[0]] + [x - pred[0] for x in pred[1:]]`. It fails
      exactly when one of the variants' normalisations does. */
  method GrantCurve(sqrt: Root, g: Id, variants: seq<(Ledger, Overlap)>)
    returns (pred: Result<seq<real>>)
    requires 0 < |variants| && Prepared(variants, g)
    ensures pred.Error? <==> !AllOk(Clrs(sqrt, variants, g))
    ensures pred.Error? ==> pred.failure == ZeroDivisionError
    ensures pred.Ok? ==> PredictionOf(Clrs(sqrt, variants, g), g, pred.value) && pred.value[0] == 0.0
  {
    var total := Matches(sqrt, g, variants);
    if total.Error? {
      return Error(total.failure);
    }
    CurveOfMatches(Clrs(sqrt, variants, g), g, total.value);
    pred := Ok(Offsets(total.value));
  }

  /** The loop of the main block over one grant's variants: g's match in
      each, or the first ZeroDivisionError. */
  method Matches(sqrt: Root, g: Id, variants: seq<(Ledger, Overlap)>) returns (r: Result<seq<real>>)
    requires Prepared(variants, g)
    ensures r.Error? ==> !AllOk(Clrs(sqrt, variants, g)) && r.failure == ZeroDivisionError
    ensures r.Ok? ==> |r.value| == |variants|
    ensures r.Ok? ==> forall m :: 0 <= m < |variants| ==> Predicted(Clrs(sqrt, variants, g), g, m, r.value[m])
  {
    var total: seq<real> := [];
    for k := 0 to |variants|
      invariant |total| == k
      invariant forall m :: 0 <= m < k ==> Predicted(Clrs(sqrt, variants, g), g, m, total[m])
    {
      var next := GrabNext(sqrt, g, variants, total);
      if next.Error? {
        return next;
      }
      total := next.value;
    }
    r := Ok(total);
  }

  /** One pass of that loop: g's match in the next variant appended to the
      matches so far. */
  method GrabNext(sqrt: Root, g: Id, variants: seq<(Ledger, Overlap)>, total: seq<real>) returns (r: Result<seq<real>>)
    requires |total| < |variants| && Prepared(variants, g)
    requires forall m :: 0 <= m < |total| ==> Predicted(Clrs(sqrt, variants, g), g, m, total[m])
    ensures r.Error? ==> !AllOk(Clrs(sqrt, variants, g)) && r.failure == ZeroDivisionError
    ensures r.Ok? ==> |r.value| == |total| + 1 && r.value[..|total|] == total
    ensures r.Ok? ==> forall m :: 0 <= m <= |total| ==> Predicted(Clrs(sqrt, variants, g), g, m, r.value[m])
  {
    var k := |total|;
    var grab := Grab(sqrt, g, variants, k);
    if grab.Error? {
      assert !Clrs(sqrt, variants, g)[k].Ok?;
      return Error(grab.failure);
    }
    r := Ok(total + [grab.value]);
  }

  /** The offsets of the matches are the prediction curve. */
  lemma {:induction false} CurveOfMatches(os: seq<Result<seq<Award>>>, g: Id, total: seq<real>)
    requires |total| == |os| && 0 < |os|
    requires forall m :: 0 <= m < |total| ==> Predicted(os, g, m, total[m])
    ensures AllOk(os)
    ensures PredictionOf(os, g, Offsets(total)) && Offsets(total)[0] == 0.0
  {
    var curve := Offsets(total);
    forall k | 0 <= k < |os|
      ensures os[k].Ok? && Predicted(os, g, k, curve[k] + total[0])
    {
      assert Predicted(os, g, k, total[k]);
    }
    assert Predicted(os, g, 0, total[0]);
  }

  /** The loops of the main block over the grants, given the zipped
      variants of aggregate_contributions: a prediction curve per grant, or
      the first ZeroDivisionError. */
  method Curves(sqrt: Root, selectedIds: seq<Id>, zipped: map<Id, seq<(Ledger, Overlap)>>)
    returns (r: Result<map<Id, seq<real>>>)
    requires forall g :: g in zipped <==> g in selectedIds
    requires forall g :: g in zipped ==> 0 < |zipped[g]| && Prepared(zipped[g], g)
    ensures r.Error? ==> exists g :: g in zipped && !AllOk(Clrs(sqrt, zipped[g], g))
    ensures r.Error? ==> r.failure == ZeroDivisionError
    ensures r.Ok? ==> forall g :: g in r.value <==> g in zipped
    ensures r.Ok? ==> forall g :: g in r.value ==> PredictionOf(Clrs(sqrt, zipped[g], g), g, r.value[g])
  {
    var final: map<Id, seq<real>> := map[];
    for n := 0 to |selectedIds|
      invariant forall g :: g in final <==> g in selectedIds[..n]
      invariant forall g :: g in final ==> PredictionOf(Clrs(sqrt, zipped[g], g), g, final[g])
    {
      var g := selectedIds[n];
      var curve := GrantCurve(sqrt, g, zipped[g]);
      if curve.Error? {
        return Error(curve.failure);
      }
      final := final[g := curve.value];
      assert selectedIds[..n + 1] == selectedIds[..n] + [g];
    }
    assert selectedIds[..|selectedIds|] == selectedIds;
    r := Ok(final);
  }

  /** The main block: aggregate_contributions, then every grant's curve; the
      curve of a selected grant is the prediction over its five variants. */
  method Predictions(sqrt: Root, d: seq<Contribution>, selectedIds: seq<Id>, liveUser: Id)
    returns (r: Result<map<Id, seq<real>>>, ghost zipped: map<Id, seq<(Ledger, Overlap)>>)
    requires IsSqrt(sqrt)
    requires forall i :: 0 <= i < |d| ==> 0.0 <= d[i].amount
    requires forall n :: 0 <= n < |selectedIds| ==> selectedIds[n] in GrantIds(d)
    ensures forall g :: g in zipped <==> g in selectedIds
    ensures forall g :: g in zipped ==> g in Keys(AggregateSpec(d)) && zipped[g] == VariantList(sqrt, AggregateSpec(d), g, liveUser)
    ensures forall g :: g in zipped ==> Prepared(zipped[g], g)
    ensures r.Error? ==> exists g :: g in zipped && !AllOk(Clrs(sqrt, zipped[g], g))
    ensures r.Error? ==> r.failure == ZeroDivisionError
    ensures r.Ok? ==> forall g :: g in r.value <==> g in selectedIds
    ensures r.Ok? ==> forall g :: g in r.value ==> PredictionOf(Clrs(sqrt, zipped[g], g), g, r.value[g])
  {
    var aggregatedPairZipped := AggregateContributions(sqrt, d, selectedIds, liveUser);
    zipped := aggregatedPairZipped;
    forall g | g in zipped ensures Prepared(zipped[g], g) {
      var n :| 0 <= n < |selectedIds| && selectedIds[n] == g;
      VariantListPrepared(sqrt, d, g, liveUser);
    }
    r := Curves(sqrt, selectedIds, aggregatedPairZipped);
  }
}
