/** contrib_calculator_r6.py: the previous round's contributions count for a
    third, are appended to the current round's, and the division formula is
    normalised to the pot with a saturation flag. */
module RoundSix {
  import opened Basics
  import opened Aggregation
  import opened PairOverlap
  import opened MatchEngine
  import opened Monotonicity
  import opened Distribution

  /** The previous round with every amount divided by 3; grants, users and
      order are kept, and tripling an amount gives back the original. */
  function Decayed(xs: seq<Contribution>): (r: seq<Contribution>)
    ensures |r| == |xs|
    ensures forall i :: 0 <= i < |xs| ==>
      r[i].grant == xs[i].grant && r[i].user == xs[i].user && r[i].amount * 3.0 == xs[i].amount
  {
    seq(|xs|, i requires 0 <= i < |xs| => Contribution(xs[i].grant, xs[i].user, xs[i].amount / 3.0))
  }

  /** combine_previous_round: `x[2] = x[2]/3.0` on the caller's previous
      records, then `current + previous`. */
  method CombinePreviousRound(previous: array<Contribution>, current: seq<Contribution>)
    returns (combined: seq<Contribution>)
    modifies previous
    ensures previous[..] == Decayed(old(previous[..]))
    ensures combined == current + previous[..]
  {
    for i := 0 to previous.Length
      invariant forall j :: 0 <= j < i ==> previous[j] == Decayed(old(previous[..]))[j]
      invariant forall j :: i <= j < previous.Length ==> previous[j] == old(previous[j])
    {
      var x := previous[i];
      previous[i] := Contribution(x.grant, x.user, x.amount / 3.0);
    }
    combined := current + previous[..];
  }

  /** Sums over a concatenation add up. */
  lemma {:induction false} SumForAppend(xs: seq<Contribution>, ys: seq<Contribution>, g: Id, u: Id)
    ensures SumFor(xs + ys, g, u) == SumFor(xs, g, u) + SumFor(ys, g, u)
    decreases |ys|
  {
    if ys != [] {
      var n := |ys| - 1;
      var zs := xs + ys;
      var last := if ys[n].grant == g && ys[n].user == u then ys[n].amount else 0.0;
      assert zs[..|zs| - 1] == xs + ys[..n] && zs[|zs| - 1] == ys[n];
      assert SumFor(zs, g, u) == SumFor(xs + ys[..n], g, u) + last;
      assert SumFor(ys, g, u) == SumFor(ys[..n], g, u) + last;
      SumForAppend(xs, ys[..n], g, u);
    } else {
      assert xs + ys == xs;
    }
  }

  /** Decaying the records decays every (grant, user) total by the same 3. */
  lemma {:induction false} SumForDecayed(xs: seq<Contribution>, g: Id, u: Id)
    ensures SumFor(Decayed(xs), g, u) * 3.0 == SumFor(xs, g, u)
  {
    if xs != [] {
      var n := |xs| - 1;
      assert Decayed(xs)[..n] == Decayed(xs[..n]);
      SumForDecayed(xs[..n], g, u);
    }
  }

  /** After combining, a contributor's aggregated amount for a grant is the
      current total plus a third of the previous total. */
  lemma {:induction false} CombinedAmount(current: seq<Contribution>, previous: seq<Contribution>, g: Id, u: Id)
    ensures AmountOf(DonorsOf(AggregateSpec(current + Decayed(previous)), g), u)
         == SumFor(current, g, u) + SumFor(previous, g, u) / 3.0
  {
    AggregateAmounts(current + Decayed(previous), g, u);
    SumForAppend(current, Decayed(previous), g, u);
    SumForDecayed(previous, g, u);
  }

  /** Decaying keeps every amount's sign. */
  lemma {:induction false} DecayedSign(current: seq<Contribution>, previous: seq<Contribution>)
    requires RecordsSignConsistent(current + previous)
    ensures RecordsSignConsistent(current + Decayed(previous))
  {
    var a, b := current + previous, current + Decayed(previous);
    assert forall i :: 0 <= i < |current| ==> b[i] == a[i];
    assert forall i :: |current| <= i < |b| ==> b[i].amount * 3.0 == a[i].amount;
  }

  /** calculate_clr: the division-form totals over k2 > k1 pairs, the
      saturation flag `bigtot >= total_pot`, and every total divided by
      `bigtot / total_pot`, whatever the flag. */
  method CalculateClr(sqrt: Root, aggregatedContributions: Ledger, pairTotals: Overlap, threshold: real, totalPot: real)
    returns (r: Result<(seq<Award>, bool)>)
    requires LedgerReady(Pairwise(threshold), pairTotals, aggregatedContributions)
    ensures var raw := RawSpec(sqrt, Pairwise(threshold), pairTotals, aggregatedContributions);
            && (r.Error? <==> NormalizeSpec(raw, totalPot).Error?)
            && (r.Error? ==> r.failure == ZeroDivisionError)
            && (r.Ok? ==> r.value.0 == NormalizeSpec(raw, totalPot).value)
            && (r.Ok? ==> (r.value.1 <==> Total(raw) >= totalPot))
    ensures totalPot == 0.0 ==> r.Error?
    ensures r.Ok? ==> Ids(r.value.0) == Keys(aggregatedContributions)
    ensures r.Ok? && Keys(aggregatedContributions) != [] ==> Total(r.value.0) == totalPot
  {
    var saturationPoint := false;
    var totals, bigtot := RawTotals(sqrt, Pairwise(threshold), pairTotals, aggregatedContributions);
    if bigtot >= totalPot {
      saturationPoint := true;
    }
    var normalized := Normalize(totals, bigtot, totalPot);
    RawShape(sqrt, Pairwise(threshold), pairTotals, aggregatedContributions);
    if normalized.Error? {
      return Error(normalized.failure);
    }
    NormalizeProportional(totals, totalPot);
    if totals != [] {
      NormalizeSumsToPot(totals, totalPot);
    }
    r := Ok((normalized.value, saturationPoint));
  }

  /** aggregate_contributions followed by calculate_clr on one record list:
      one award per grant, in order of first appearance, adding up to the
      pot. */
  method ClrOf(sqrt: Root, records: seq<Contribution>, threshold: real, totalPot: real)
    returns (r: Result<(seq<Award>, bool)>)
    requires IsSqrt(sqrt) && RecordsSignConsistent(records) && 0.0 < threshold
    ensures var raw := RecordsRaw(sqrt, records, threshold);
            && (r.Error? <==> NormalizeSpec(raw, totalPot).Error?)
            && (r.Ok? ==> r.value.0 == NormalizeSpec(raw, totalPot).value)
            && (r.Ok? ==> (r.value.1 <==> Total(raw) >= totalPot))
    ensures totalPot == 0.0 ==> r.Error?
    ensures r.Error? ==> r.failure == ZeroDivisionError
    ensures r.Ok? ==> Ids(r.value.0) == Dedup(GrantIds(records))
    ensures r.Ok? && records != [] ==> Total(r.value.0) == totalPot
  {
    var aggContribs := Aggregate(records);
    var pairTots := PairTotals(sqrt, aggContribs);
    RecordsReady(sqrt, records, false);
    LedgerReadyAt(pairTots, false, aggContribs, threshold);
    r := CalculateClr(sqrt, aggContribs, pairTots, threshold, totalPot);
    AggregateGrants(records);
    if r.Ok? && records != [] {
      assert records[0].grant in GrantIds(records);
    }
  }

  /** The current round alone is as sign-consistent as the combined one. */
  lemma {:induction false} SignConsistentFront(current: seq<Contribution>, previous: seq<Contribution>)
    requires RecordsSignConsistent(current + previous)
    ensures RecordsSignConsistent(current)
  {
    assert forall i :: 0 <= i < |current| ==> (current + previous)[i] == current[i];
  }

  /** run_calcs: the combined rounds, then the current round alone; the
      first ZeroDivisionError ends the run. */
  method RunCalcs(sqrt: Root, prevRound: array<Contribution>, currRound: seq<Contribution>, threshold: real, totalPot: real)
    returns (r: Result<(seq<Award>, seq<Award>)>)
    requires IsSqrt(sqrt) && 0.0 < threshold
    requires RecordsSignConsistent(currRound + prevRound[..])
    modifies prevRound
    ensures prevRound[..] == Decayed(old(prevRound[..]))
    ensures RecordsSignConsistent(currRound + prevRound[..]) && RecordsSignConsistent(currRound)
    ensures var comb, curr := NormalizeSpec(RecordsRaw(sqrt, currRound + prevRound[..], threshold), totalPot),
                              NormalizeSpec(RecordsRaw(sqrt, currRound, threshold), totalPot);
            && (r.Error? <==> comb.Error? || curr.Error?)
            && (r.Ok? ==> r.value.0 == comb.value && r.value.1 == curr.value)
    ensures totalPot == 0.0 ==> r.Error?
    ensures r.Error? ==> r.failure == ZeroDivisionError
    ensures r.Ok? ==> Ids(r.value.0) == Dedup(GrantIds(currRound + prevRound[..]))
    ensures r.Ok? ==> Ids(r.value.1) == Dedup(GrantIds(currRound))
    ensures r.Ok? && currRound + prevRound[..] != [] ==> Total(r.value.0) == totalPot
    ensures r.Ok? && currRound != [] ==> Total(r.value.1) == totalPot
  {
    DecayedSign(currRound, prevRound[..]);
    var combRound := CombinePreviousRound(prevRound, currRound);
    SignConsistentFront(currRound, prevRound[..]);
    var totals := ClrOf(sqrt, combRound, threshold, totalPot);
    if totals.Error? {
      return Error(totals.failure);
    }
    var totalsC := ClrOf(sqrt, currRound, threshold, totalPot);
    if totalsC.Error? {
      return Error(totalsC.failure);
    }
    r := Ok((totals.value.0, totalsC.value.0));
  }
}
