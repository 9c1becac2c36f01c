/** The calculate_clr of contrib_calculator_consensys.py and
    contrib_calculator_consensys_plus.py: next to the division-form match of
    every grant, the amount it raised (`one_match`), its number of
    contributors (`num_contrib`) and their average contribution (`avg_ca`).
    The pot is not used. */
module GrantStats {
  import opened Basics
  import opened Aggregation
  import opened PairOverlap
  import opened MatchEngine
  import opened Monotonicity

  /** `{'id', 'clr_amount', 'one_match', 'num_contrib', 'avg_ca'}` */
  datatype Stat = Stat(id: Id, clrAmount: real, oneMatch: real, numContrib: nat, avgCa: real)

  /** The amounts of one grant's contributors, in order. */
  function Values(ds: Donors): (vs: seq<real>)
    ensures |vs| == |ds| && forall j :: 0 <= j < |ds| ==> vs[j] == ds[j].1
  {
    seq(|ds|, j requires 0 <= j < |ds| => ds[j].1)
  }

  /** Reference definition: the total of the records for grant g. */
  function Raised(recs: seq<Contribution>, g: Id): real {
    if recs == [] then 0.0
    else
      var r := recs[|recs| - 1];
      Raised(recs[..|recs| - 1], g) + (if r.grant == g then r.amount else 0.0)
  }

  /** No grant of the ledger is empty (`avg_ca = tot1 / numc`). */
  predicate NonEmptyGrants(c: Ledger) {
    forall i :: 0 <= i < |c| ==> c[i].1 != []
  }

  /** The record of one grant. */
  function StatOf(sqrt: Root, t: real, ov: Overlap, g: Id, ds: Donors): Stat
    requires RowsReady(Pairwise(t), ov, ds, ds) && ds != []
  {
    var oneMatch := Sum(Values(ds));
    Stat(g, GrantSpec(sqrt, Pairwise(t), ov, ds), oneMatch, |ds|, oneMatch / (|ds| as real))
  }

  /** The `totals` list: one record per grant, in order. */
  function Stats(sqrt: Root, t: real, ov: Overlap, c: Ledger): (ss: seq<Stat>)
    requires LedgerReady(Pairwise(t), ov, c) && NonEmptyGrants(c)
    ensures |ss| == |c|
  {
    seq(|c|, i requires 0 <= i < |c| && LedgerReady(Pairwise(t), ov, c) && NonEmptyGrants(c) =>
      StatOf(sqrt, t, ov, c[i].0, c[i].1))
  }

  // ---------------------------------------------------------------------
  // The loops

  /** The second loop over a grant's contributors: `tot1 += v1`, `numc += 1`. */
  method Tally(ds: Donors) returns (tot1: real, numc: nat)
    ensures tot1 == Sum(Values(ds)) && numc == |ds|
  {
    tot1, numc := 0.0, 0;
    for j := 0 to |ds|
      invariant tot1 == Sum(Values(ds[..j])) && numc == j
    {
      assert Values(ds[..j + 1]) == Values(ds[..j]) + [ds[j].1];
      tot1 := tot1 + ds[j].1;
      numc := numc + 1;
    }
    assert ds[..|ds|] == ds;
  }

  /** calculate_clr: the match loop, the tally loop and `avg_ca` per grant. */
  method CalculateClr(sqrt: Root, aggregatedContributions: Ledger, pairTotals: Overlap, threshold: real, totalPot: real)
    returns (totals: seq<Stat>)
    requires LedgerReady(Pairwise(threshold), pairTotals, aggregatedContributions)
    requires NonEmptyGrants(aggregatedContributions)
    ensures totals == Stats(sqrt, threshold, pairTotals, aggregatedContributions)
  {
    var c := aggregatedContributions;
    totals := [];
    for i := 0 to |c|
      invariant |totals| == i
      invariant forall j :: 0 <= j < i ==> totals[j] == StatOf(sqrt, threshold, pairTotals, c[j].0, c[j].1)
    {
      var tot := GrantMatch(sqrt, Pairwise(threshold), pairTotals, c[i].1);
      var tot1, numc := Tally(c[i].1);
      var avgCa := tot1 / (numc as real);
      totals := totals + [Stat(c[i].0, tot, tot1, numc, avgCa)];
    }
  }

  // ---------------------------------------------------------------------
  // What the records mean

  /** The clr amounts are the division-form totals of every other
      calculator, grant for grant. */
  lemma {:induction false} StatsMatchRaw(sqrt: Root, t: real, ov: Overlap, c: Ledger)
    requires LedgerReady(Pairwise(t), ov, c) && NonEmptyGrants(c)
    ensures |Stats(sqrt, t, ov, c)| == |RawSpec(sqrt, Pairwise(t), ov, c)|
    ensures forall i :: 0 <= i < |c| ==>
      && Stats(sqrt, t, ov, c)[i].id == RawSpec(sqrt, Pairwise(t), ov, c)[i].id
      && Stats(sqrt, t, ov, c)[i].clrAmount == RawSpec(sqrt, Pairwise(t), ov, c)[i].amount
  {
    RawShape(sqrt, Pairwise(t), ov, c);
    assert |Ids(RawSpec(sqrt, Pairwise(t), ov, c))| == |c|;
    forall i | 0 <= i < |c|
      ensures Stats(sqrt, t, ov, c)[i].id == RawSpec(sqrt, Pairwise(t), ov, c)[i].id
    {
      assert Ids(RawSpec(sqrt, Pairwise(t), ov, c))[i] == Keys(c)[i];
    }
  }

  /** `avg_ca * num_contrib == one_match`, with at least one contributor. */
  lemma {:induction false} AverageTimesCount(sqrt: Root, t: real, ov: Overlap, c: Ledger, i: nat)
    requires LedgerReady(Pairwise(t), ov, c) && NonEmptyGrants(c) && i < |c|
    ensures 1 <= Stats(sqrt, t, ov, c)[i].numContrib
    ensures Stats(sqrt, t, ov, c)[i].avgCa * (Stats(sqrt, t, ov, c)[i].numContrib as real)
         == Stats(sqrt, t, ov, c)[i].oneMatch
  {
    var s := Stats(sqrt, t, ov, c)[i];
    assert c[i].1 != [];
    assert s.numContrib == |c[i].1| && 1 <= s.numContrib;
  }

  lemma {:induction false} SumCons(x: real, ys: seq<real>)
    ensures Sum([x] + ys) == x + Sum(ys)
  {
    SumAppend([x], ys);
    assert [x][..0] == [];
  }

  lemma {:induction false} ValuesHead(ds: Donors)
    requires ds != []
    ensures Sum(Values(ds)) == ds[0].1 + Sum(Values(ds[1..]))
  {
    assert Values(ds) == [ds[0].1] + Values(ds[1..]);
    SumCons(ds[0].1, Values(ds[1..]));
  }

  /** Crediting a contributor adds the amount to the grant's total. */
  lemma {:induction false} ValuesCredit(ds: Donors, u: Id, a: real)
    ensures Sum(Values(Credit(ds, u, a))) == Sum(Values(ds)) + a
  {
    var c := Credit(ds, u, a);
    ValuesHead(c);
    if ds == [] {
      assert c == [(u, a)];
      assert c[1..] == [] && Values(c[1..]) == [] && Values(ds) == [];
    } else {
      ValuesHead(ds);
      if ds[0].0 == u {
        assert c[0] == (u, ds[0].1 + a) && c[1..] == ds[1..];
      } else {
        assert c[0] == ds[0] && c[1..] == Credit(ds[1..], u, a);
        ValuesCredit(ds[1..], u, a);
      }
    }
  }

  /** `one_match` of an aggregated grant is the total its records raised. */
  lemma {:induction false} AggregateRaised(recs: seq<Contribution>, g: Id)
    ensures Sum(Values(DonorsOf(AggregateSpec(recs), g))) == Raised(recs, g)
  {
    if recs == [] {
      assert Values([]) == [];
    } else {
      var n := |recs| - 1;
      var r := recs[n];
      AggregateRaised(recs[..n], g);
      PostDonors(AggregateSpec(recs[..n]), r, g);
      if r.grant == g {
        ValuesCredit(DonorsOf(AggregateSpec(recs[..n]), g), r.user, r.amount);
      }
    }
  }

  /** What the records of an aggregated grant say: `one_match` is the total
      raised and `num_contrib` the number of distinct contributors. */
  lemma {:induction false} StatsOfRecords(sqrt: Root, t: real, recs: seq<Contribution>, i: nat)
    requires LedgerReady(Pairwise(t), OverlapSpec(sqrt, AggregateSpec(recs)), AggregateSpec(recs))
    requires NonEmptyGrants(AggregateSpec(recs)) && i < |AggregateSpec(recs)|
    ensures var s := Stats(sqrt, t, OverlapSpec(sqrt, AggregateSpec(recs)), AggregateSpec(recs))[i];
            && s.oneMatch == Raised(recs, s.id)
            && s.numContrib == |Dedup(UsersFor(recs, s.id))|
  {
    var c := AggregateSpec(recs);
    var g := c[i].0;
    AggregateGrants(recs);
    assert Keys(c)[i] == g;
    DonorsAt(c, i);
    AggregateRaised(recs, g);
    AggregateUsers(recs, g);
  }

  /** The ledger of sign-consistent records can be tallied at every positive
      threshold. */
  lemma {:induction false} StatsReady(sqrt: Root, recs: seq<Contribution>, t: real)
    requires IsSqrt(sqrt) && RecordsSignConsistent(recs) && 0.0 < t
    ensures LedgerReady(Pairwise(t), OverlapSpec(sqrt, AggregateSpec(recs)), AggregateSpec(recs))
    ensures NonEmptyGrants(AggregateSpec(recs))
  {
    RecordsReady(sqrt, recs, false);
    LedgerReadyAt(OverlapSpec(sqrt, AggregateSpec(recs)), false, AggregateSpec(recs), t);
    AggregateWellFormed(recs);
  }
}
