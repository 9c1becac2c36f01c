/** The bisection scripts raise the threshold when `bigtot` is below the pot
    and lower it when above; that is sound because, for non-negative pair
    totals and same-sign amounts, every pair term and so `bigtot` is
    non-decreasing in the threshold. */
module Monotonicity {
  import opened Basics
  import opened Aggregation
  import opened PairOverlap
  import opened MatchEngine

  /** The threshold-parameterised rule of a search: the min-capped form
      (contrib_calculator_r3_test.py, contrib_calculator_frank.py) or the
      division form (contrib_calculator_r4_vitalik.py). */
  function Family(capped: bool, t: real): Rule {
    if capped then MinCapped(t) else Pairwise(t)
  }

  /** `bigtot` at threshold t. */
  function BigTotal(sqrt: Root, capped: bool, ov: Overlap, c: Ledger, t: real): real
    requires LedgerReady(Family(capped, t), ov, c)
  {
    Total(RawSpec(sqrt, Family(capped, t), ov, c))
  }

  /** What one pair needs: a product with a real root, and for k2 > k1 a pair
      total that is non-negative (division form) or positive (min form). */
  ghost predicate PairOk(ov: Overlap, capped: bool, k1: Id, v1: real, k2: Id, v2: real) {
    && 0.0 <= v1 * v2
    && (k2 > k1 ==> Has(ov, k1, k2) && (if capped then 0.0 < Get2(ov, k1, k2) else 0.0 <= Get2(ov, k1, k2)))
  }

  ghost predicate RowOk(ov: Overlap, capped: bool, k1: Id, v1: real, ds: Donors) {
    forall j :: 0 <= j < |ds| ==> PairOk(ov, capped, k1, v1, ds[j].0, ds[j].1)
  }

  ghost predicate RowsOk(ov: Overlap, capped: bool, pre: Donors, all: Donors) {
    forall j :: 0 <= j < |pre| ==> RowOk(ov, capped, pre[j].0, pre[j].1, all)
  }

  ghost predicate LedgerOk(ov: Overlap, capped: bool, c: Ledger) {
    forall i :: 0 <= i < |c| ==> RowsOk(ov, capped, c[i].1, c[i].1)
  }

  // ---------------------------------------------------------------------
  // Readiness for every positive threshold

  lemma {:induction false} PairReadyAt(ov: Overlap, capped: bool, k1: Id, v1: real, k2: Id, v2: real, t: real)
    requires PairOk(ov, capped, k1, v1, k2, v2) && (capped || 0.0 < t)
    ensures PairReady(Family(capped, t), ov, k1, k2)
  {
    if k2 > k1 && !capped {
      QuotientAntitone(Get2(ov, k1, k2), t, t);
    }
  }

  lemma {:induction false} RowReadyAt(ov: Overlap, capped: bool, k1: Id, v1: real, ds: Donors, t: real)
    requires RowOk(ov, capped, k1, v1, ds) && (capped || 0.0 < t)
    ensures RowReady(Family(capped, t), ov, k1, ds)
  {
    forall j | 0 <= j < |ds| ensures PairReady(Family(capped, t), ov, k1, ds[j].0) {
      PairReadyAt(ov, capped, k1, v1, ds[j].0, ds[j].1, t);
    }
  }

  lemma {:induction false} RowsReadyAt(ov: Overlap, capped: bool, pre: Donors, all: Donors, t: real)
    requires RowsOk(ov, capped, pre, all) && (capped || 0.0 < t)
    ensures RowsReady(Family(capped, t), ov, pre, all)
  {
    forall j | 0 <= j < |pre| ensures RowReady(Family(capped, t), ov, pre[j].0, all) {
      RowReadyAt(ov, capped, pre[j].0, pre[j].1, all, t);
    }
  }

  /** Every positive threshold (every threshold for the min form) gives a
      computation without division by zero or missing pair entry. */
  lemma {:induction false} LedgerReadyAt(ov: Overlap, capped: bool, c: Ledger, t: real)
    requires LedgerOk(ov, capped, c) && (capped || 0.0 < t)
    ensures LedgerReady(Family(capped, t), ov, c)
  {
    forall i | 0 <= i < |c| ensures RowsReady(Family(capped, t), ov, c[i].1, c[i].1) {
      RowsReadyAt(ov, capped, c[i].1, c[i].1, t);
    }
  }

  // ---------------------------------------------------------------------
  // Monotonicity, term by term and then through the three folds

  lemma {:induction false} TermMonotone(sqrt: Root, ov: Overlap, capped: bool, k1: Id, v1: real, k2: Id, v2: real, t1: real, t2: real)
    requires IsSqrt(sqrt) && PairOk(ov, capped, k1, v1, k2, v2) && 0.0 < t1 <= t2
    ensures PairReady(Family(capped, t1), ov, k1, k2) && PairReady(Family(capped, t2), ov, k1, k2)
    ensures 0.0 <= Term(sqrt, Family(capped, t1), ov, k1, v1, k2, v2)
                <= Term(sqrt, Family(capped, t2), ov, k1, v1, k2, v2)
  {
    PairReadyAt(ov, capped, k1, v1, k2, v2, t1);
    PairReadyAt(ov, capped, k1, v1, k2, v2, t2);
    if k2 > k1 {
      RootNonNegative(sqrt, v1, v2);
      if capped {
        CappedMonotone(PairRoot(sqrt, v1, v2), Get2(ov, k1, k2), t1, t2);
      } else {
        DividedMonotone(PairRoot(sqrt, v1, v2), Get2(ov, k1, k2), t1, t2);
      }
    }
  }

  lemma {:induction false} RowMonotone(sqrt: Root, ov: Overlap, capped: bool, k1: Id, v1: real, ds: Donors, t1: real, t2: real)
    requires IsSqrt(sqrt) && RowOk(ov, capped, k1, v1, ds) && 0.0 < t1 <= t2
    ensures RowReady(Family(capped, t1), ov, k1, ds) && RowReady(Family(capped, t2), ov, k1, ds)
    ensures 0.0 <= RowSpec(sqrt, Family(capped, t1), ov, k1, v1, ds)
                <= RowSpec(sqrt, Family(capped, t2), ov, k1, v1, ds)
  {
    RowReadyAt(ov, capped, k1, v1, ds, t1);
    RowReadyAt(ov, capped, k1, v1, ds, t2);
    if ds != [] {
      var n := |ds| - 1;
      assert RowOk(ov, capped, k1, v1, ds[..n]) by {
        forall j | 0 <= j < n ensures PairOk(ov, capped, k1, v1, ds[..n][j].0, ds[..n][j].1) {
          assert ds[..n][j] == ds[j];
        }
      }
      RowMonotone(sqrt, ov, capped, k1, v1, ds[..n], t1, t2);
      TermMonotone(sqrt, ov, capped, k1, v1, ds[n].0, ds[n].1, t1, t2);
    }
  }

  lemma {:induction false} RowsMonotone(sqrt: Root, ov: Overlap, capped: bool, pre: Donors, all: Donors, t1: real, t2: real)
    requires IsSqrt(sqrt) && RowsOk(ov, capped, pre, all) && 0.0 < t1 <= t2
    ensures RowsReady(Family(capped, t1), ov, pre, all) && RowsReady(Family(capped, t2), ov, pre, all)
    ensures 0.0 <= RowsSpec(sqrt, Family(capped, t1), ov, pre, all)
                <= RowsSpec(sqrt, Family(capped, t2), ov, pre, all)
  {
    RowsReadyAt(ov, capped, pre, all, t1);
    RowsReadyAt(ov, capped, pre, all, t2);
    if pre != [] {
      var n := |pre| - 1;
      assert RowsOk(ov, capped, pre[..n], all) by {
        forall j | 0 <= j < n ensures RowOk(ov, capped, pre[..n][j].0, pre[..n][j].1, all) {
          assert pre[..n][j] == pre[j];
        }
      }
      RowsMonotone(sqrt, ov, capped, pre[..n], all, t1, t2);
      RowMonotone(sqrt, ov, capped, pre[n].0, pre[n].1, all, t1, t2);
    }
  }

  lemma {:induction false} TotalsMonotone(sqrt: Root, ov: Overlap, capped: bool, c: Ledger, t1: real, t2: real)
    requires IsSqrt(sqrt) && LedgerOk(ov, capped, c) && 0.0 < t1 <= t2
    ensures LedgerReady(Family(capped, t1), ov, c) && LedgerReady(Family(capped, t2), ov, c)
    ensures 0.0 <= Total(RawSpec(sqrt, Family(capped, t1), ov, c))
                <= Total(RawSpec(sqrt, Family(capped, t2), ov, c))
  {
    LedgerReadyAt(ov, capped, c, t1);
    LedgerReadyAt(ov, capped, c, t2);
    if c != [] {
      var n := |c| - 1;
      assert LedgerOk(ov, capped, c[..n]) by {
        forall i | 0 <= i < n ensures RowsOk(ov, capped, c[..n][i].1, c[..n][i].1) {
          assert c[..n][i] == c[i];
        }
      }
      TotalsMonotone(sqrt, ov, capped, c[..n], t1, t2);
      RowsMonotone(sqrt, ov, capped, c[n].1, c[n].1, t1, t2);
      var r1 := RawSpec(sqrt, Family(capped, t1), ov, c[..n]);
      var r2 := RawSpec(sqrt, Family(capped, t2), ov, c[..n]);
      TotalSnoc(r1, Award(c[n].0, GrantSpec(sqrt, Family(capped, t1), ov, c[n].1)));
      TotalSnoc(r2, Award(c[n].0, GrantSpec(sqrt, Family(capped, t2), ov, c[n].1)));
    }
  }

  /** `bigtot` does not decrease when the threshold grows. */
  lemma BigTotalMonotone(sqrt: Root, ov: Overlap, capped: bool, c: Ledger, t1: real, t2: real)
    requires IsSqrt(sqrt) && LedgerOk(ov, capped, c) && 0.0 < t1 <= t2
    ensures LedgerReady(Family(capped, t1), ov, c) && LedgerReady(Family(capped, t2), ov, c)
    ensures 0.0 <= BigTotal(sqrt, capped, ov, c, t1) <= BigTotal(sqrt, capped, ov, c, t2)
  {
    TotalsMonotone(sqrt, ov, capped, c, t1, t2);
  }

  // ---------------------------------------------------------------------
  // Pair totals built from the ledger meet the needs

  /** Every aggregated amount is non-zero. */
  ghost predicate NonZeroAmounts(c: Ledger) {
    forall i, j :: 0 <= i < |c| && 0 <= j < |c[i].1| ==> c[i].1[j].1 != 0.0
  }

  lemma {:induction false} RootPositive(sqrt: Root, x: real)
    requires IsSqrt(sqrt) && 0.0 < x
    ensures 0.0 < sqrt(x)
  {
  }

  lemma {:induction false} EntryFromLedger(sqrt: Root, c: Ledger, i: nat, j1: nat, j2: nat)
    requires IsSqrt(sqrt) && DistinctDonors(c) && SignConsistent(c)
    requires i < |c| && j1 < |c[i].1| && j2 < |c[i].1|
    ensures Has(OverlapSpec(sqrt, c), c[i].1[j1].0, c[i].1[j2].0)
    ensures Get2(OverlapSpec(sqrt, c), c[i].1[j1].0, c[i].1[j2].0) == PairScore(sqrt, c, c[i].1[j1].0, c[i].1[j2].0)
    ensures 0.0 <= PairScore(sqrt, c, c[i].1[j1].0, c[i].1[j2].0)
  {
    var a, b := c[i].1[j1].0, c[i].1[j2].0;
    assert a in Keys(c[i].1) && b in Keys(c[i].1);
    OverlapCovers(sqrt, c, i, a, b);
    OverlapValues(sqrt, c, a, b);
    PairScoreNonNegative(sqrt, c, a, b);
  }

  lemma {:induction false} ScorePositive(sqrt: Root, c: Ledger, i: nat, j1: nat, j2: nat)
    requires IsSqrt(sqrt) && DistinctDonors(c) && SignConsistent(c) && NonZeroAmounts(c)
    requires i < |c| && j1 < |c[i].1| && j2 < |c[i].1|
    ensures 0.0 < PairScore(sqrt, c, c[i].1[j1].0, c[i].1[j2].0)
  {
    var x := c[i].1[j1].1 * c[i].1[j2].1;
    ProductNonNegative(c, i, j1, j2);
    assert x != 0.0;
    RootPositive(sqrt, x);
    PairScoreAtLeast(sqrt, c, i, j1, j2);
  }

  /** No pair k2 > k1 of a grant's contributors has a pair total of 0, so
      the min form's `threshold / tot_overlap[k1][k2]` never divides by 0. */
  predicate MinDefined(ov: Overlap, c: Ledger) {
    forall i, j1, j2 :: 0 <= i < |c| && 0 <= j1 < |c[i].1| && 0 <= j2 < |c[i].1| && c[i].1[j1].0 < c[i].1[j2].0
      ==> Get2(ov, c[i].1[j1].0, c[i].1[j2].0) != 0.0
  }

  lemma {:induction false} PairOkFromLedger(sqrt: Root, c: Ledger, capped: bool, i: nat, j1: nat, j2: nat)
    requires IsSqrt(sqrt) && DistinctDonors(c) && SignConsistent(c)
    requires capped ==> MinDefined(OverlapSpec(sqrt, c), c)
    requires i < |c| && j1 < |c[i].1| && j2 < |c[i].1|
    ensures PairOk(OverlapSpec(sqrt, c), capped, c[i].1[j1].0, c[i].1[j1].1, c[i].1[j2].0, c[i].1[j2].1)
  {
    ProductNonNegative(c, i, j1, j2);
    EntryFromLedger(sqrt, c, i, j1, j2);
  }

  /** The pair totals computed from a ledger of same-sign amounts meet the
      needs of the division form, and of the min form when no pair total it
      divides by is 0. */
  lemma {:induction false} LedgerOkFromOverlap(sqrt: Root, c: Ledger, capped: bool)
    requires IsSqrt(sqrt) && DistinctDonors(c) && SignConsistent(c)
    requires capped ==> MinDefined(OverlapSpec(sqrt, c), c)
    ensures LedgerOk(OverlapSpec(sqrt, c), capped, c)
  {
    var ov := OverlapSpec(sqrt, c);
    forall i, j1, j2 | 0 <= i < |c| && 0 <= j1 < |c[i].1| && 0 <= j2 < |c[i].1|
      ensures PairOk(ov, capped, c[i].1[j1].0, c[i].1[j1].1, c[i].1[j2].0, c[i].1[j2].1)
    {
      PairOkFromLedger(sqrt, c, capped, i, j1, j2);
    }
  }

  /** When no aggregated amount is 0, no pair total of two contributors of
      a common grant is 0. */
  lemma {:induction false} NonZeroMinDefined(sqrt: Root, c: Ledger)
    requires IsSqrt(sqrt) && DistinctDonors(c) && SignConsistent(c) && NonZeroAmounts(c)
    ensures MinDefined(OverlapSpec(sqrt, c), c)
  {
    var ov := OverlapSpec(sqrt, c);
    forall i, j1, j2 | 0 <= i < |c| && 0 <= j1 < |c[i].1| && 0 <= j2 < |c[i].1| && c[i].1[j1].0 < c[i].1[j2].0
      ensures Get2(ov, c[i].1[j1].0, c[i].1[j2].0) != 0.0
    {
      EntryFromLedger(sqrt, c, i, j1, j2);
      ScorePositive(sqrt, c, i, j1, j2);
    }
  }

  // ---------------------------------------------------------------------
  // From the records to a ledger the searches can evaluate

  /** Every record amount is positive, or every one is negative. */
  ghost predicate RecordsStrict(recs: seq<Contribution>) {
    (forall i :: 0 <= i < |recs| ==> 0.0 < recs[i].amount)
    || (forall i :: 0 <= i < |recs| ==> recs[i].amount < 0.0)
  }

  /** A contributor who gave to g at least once, with amounts all of the sign
      of s, has a total for g of that strict sign. */
  lemma {:induction false} SumForStrict(recs: seq<Contribution>, g: Id, u: Id, s: real)
    requires forall i :: 0 <= i < |recs| ==> 0.0 < s * recs[i].amount
    requires u in UsersFor(recs, g)
    ensures 0.0 < s * SumFor(recs, g, u)
  {
    var n := |recs| - 1;
    var r := recs[n];
    var last := if r.grant == g && r.user == u then r.amount else 0.0;
    assert s * SumFor(recs, g, u) == s * SumFor(recs[..n], g, u) + s * last;
    assert forall i :: 0 <= i < n ==> recs[..n][i] == recs[i];
    if r.grant == g && r.user == u {
      SumForSign(recs[..n], g, u, s);
    } else {
      SumForStrict(recs[..n], g, u, s);
    }
  }

  /** Strictly signed records aggregate to non-zero amounts. */
  lemma {:induction false} AggregateNonZero(recs: seq<Contribution>)
    requires RecordsStrict(recs)
    ensures NonZeroAmounts(AggregateSpec(recs))
  {
    var c := AggregateSpec(recs);
    AggregateWellFormed(recs);
    var s := if forall i :: 0 <= i < |recs| ==> 0.0 < recs[i].amount then 1.0 else -1.0;
    assert forall i :: 0 <= i < |recs| ==> 0.0 < s * recs[i].amount;
    forall i, j | 0 <= i < |c| && 0 <= j < |c[i].1|
      ensures c[i].1[j].1 != 0.0
    {
      var g, u := c[i].0, c[i].1[j].0;
      DonorsAt(c, i);
      AmountAtFirst(c[i].1, j);
      AggregateAmounts(recs, g, u);
      AggregateUsers(recs, g);
      assert u in Keys(c[i].1);
      SumForStrict(recs, g, u, s);
    }
  }

  /** The ledger and pair totals that a script builds from sign-consistent
      records can be evaluated at every positive threshold under the
      division form, and under the min form when no pair total it divides by
      is 0; `bigtot` grows with the threshold there. */
  lemma {:induction false} RecordsReady(sqrt: Root, recs: seq<Contribution>, capped: bool)
    requires IsSqrt(sqrt) && RecordsSignConsistent(recs)
    requires capped ==> MinDefined(OverlapSpec(sqrt, AggregateSpec(recs)), AggregateSpec(recs))
    ensures LedgerOk(OverlapSpec(sqrt, AggregateSpec(recs)), capped, AggregateSpec(recs))
  {
    AggregateWellFormed(recs);
    AggregateSignConsistent(recs);
    LedgerOkFromOverlap(sqrt, AggregateSpec(recs), capped);
  }

  /** Strictly signed records are sign-consistent, and no pair total of their
      aggregate that the min form divides by is 0. */
  lemma {:induction false} StrictRecordsDefined(sqrt: Root, recs: seq<Contribution>)
    requires IsSqrt(sqrt) && RecordsStrict(recs)
    ensures RecordsSignConsistent(recs)
    ensures MinDefined(OverlapSpec(sqrt, AggregateSpec(recs)), AggregateSpec(recs))
  {
    AggregateWellFormed(recs);
    AggregateSignConsistent(recs);
    AggregateNonZero(recs);
    NonZeroMinDefined(sqrt, AggregateSpec(recs));
  }

  /** The division-form totals at threshold t of the aggregate of the
      records and its pair totals: what calculate_clr computes from the
      output of aggregate_contributions and get_totals_by_pair. */
  ghost function RecordsRaw(sqrt: Root, recs: seq<Contribution>, t: real): seq<Award>
    requires IsSqrt(sqrt) && RecordsSignConsistent(recs) && 0.0 < t
  {
    RecordsReady(sqrt, recs, false);
    LedgerReadyAt(OverlapSpec(sqrt, AggregateSpec(recs)), false, AggregateSpec(recs), t);
    RawSpec(sqrt, Pairwise(t), OverlapSpec(sqrt, AggregateSpec(recs)), AggregateSpec(recs))
  }
}
