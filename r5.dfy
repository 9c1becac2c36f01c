/** contrib_calculator_r5.py: positive and negative votes are matched
    separately, the negative form also counting each voter's own vote; the
    two award lists are padded to the same grants, reconciled grant by grant
    as (sqrt p - sqrt n)^2, and normalised to the pot. */
module RoundFive {
  import opened Basics
  import opened Aggregation
  import opened PairOverlap
  import opened MatchEngine
  import opened Monotonicity
  import opened Distribution

  // ---------------------------------------------------------------------
  // calculate_new_clr

  /** The formula of calculate_new_clr for its `positive` flag. */
  function SignRule(threshold: real, positive: bool): Rule {
    if positive then Pairwise(threshold) else PairwiseWithSelf(threshold)
  }

  /** calculate_new_clr: one raw award per aggregated grant, in order. Its
      `total_pot` argument is never read. */
  method CalculateNewClr(sqrt: Root, aggregatedContributions: Ledger, pairTotals: Overlap, threshold: real, positive: bool)
    returns (totals: seq<Award>)
    requires LedgerReady(SignRule(threshold, positive), pairTotals, aggregatedContributions)
    ensures totals == RawSpec(sqrt, SignRule(threshold, positive), pairTotals, aggregatedContributions)
    ensures Ids(totals) == Keys(aggregatedContributions)
  {
    var bigtot;
    totals, bigtot := RawTotals(sqrt, SignRule(threshold, positive), pairTotals, aggregatedContributions);
    RawShape(sqrt, SignRule(threshold, positive), pairTotals, aggregatedContributions);
  }

  /** The negative form reads the same pair totals with the same divisions
      as the positive one, so whatever readies one readies the other. */
  lemma {:induction false} SelfReady(t: real, ov: Overlap, c: Ledger)
    requires LedgerReady(Pairwise(t), ov, c)
    ensures LedgerReady(PairwiseWithSelf(t), ov, c)
  {
    forall i, j, l | 0 <= i < |c| && 0 <= j < |c[i].1| && 0 <= l < |c[i].1|
      ensures PairReady(PairwiseWithSelf(t), ov, c[i].1[j].0, c[i].1[l].0)
    {
      assert RowReady(Pairwise(t), ov, c[i].1[j].0, c[i].1);
      assert PairReady(Pairwise(t), ov, c[i].1[j].0, c[i].1[l].0);
    }
  }

  /** Records of one sign and a positive threshold ready both forms on the
      aggregate and pair totals that aggregate_contributions builds. */
  lemma {:induction false} RecordsReadyBoth(sqrt: Root, recs: seq<Contribution>, threshold: real, positive: bool)
    requires IsSqrt(sqrt) && RecordsSignConsistent(recs) && 0.0 < threshold
    ensures LedgerReady(SignRule(threshold, positive), OverlapSpec(sqrt, AggregateSpec(recs)), AggregateSpec(recs))
  {
    var c := AggregateSpec(recs);
    RecordsReady(sqrt, recs, false);
    LedgerReadyAt(OverlapSpec(sqrt, c), false, c, threshold);
    SelfReady(threshold, OverlapSpec(sqrt, c), c);
  }

  // ---------------------------------------------------------------------
  // calculate_new_clr_final: padding

  /** The zero awards that a padding comprehension appends: one per entry
      of `src`, in order, whose id is not in `present`. */
  function ZeroFill(src: seq<Award>, present: seq<Id>): (r: seq<Award>)
    ensures |r| <= |src|
    ensures forall k :: 0 <= k < |r| ==> r[k].amount == 0.0 && r[k].id !in present
  {
    if src == [] then []
    else
      var n := |src| - 1;
      ZeroFill(src[..n], present) + (if src[n].id in present then [] else [Award(src[n].id, 0.0)])
  }

  /** An award list that calculate_new_clr_final extends in place. */
  class AwardList {
    var items: seq<Award>

    constructor (items0: seq<Award>)
      ensures items == items0
    {
      items := items0;
    }

    /** `[self.append({'id': x['id'], 'clr_amount': 0}) for x in src
        if x['id'] not in present]` */
    method AppendMissing(src: seq<Award>, present: seq<Id>)
      modifies this
      ensures items == old(items) + ZeroFill(src, present)
    {
      for i := 0 to |src|
        invariant items == old(items) + ZeroFill(src[..i], present)
      {
        assert src[..i + 1][..i] == src[..i];
        if src[i].id !in present {
          items := items + [Award(src[i].id, 0.0)];
        }
      }
      assert src[..|src|] == src;
    }
  }

  lemma {:induction false} IdsAppend(a: seq<Award>, b: seq<Award>)
    ensures Ids(a + b) == Ids(a) + Ids(b)
  {
    assert forall i :: 0 <= i < |a + b| ==> Ids(a + b)[i] == (Ids(a) + Ids(b))[i];
  }

  /** The padding holds exactly the ids of `src` that are missing ... */
  lemma {:induction false} ZeroFillIds(src: seq<Award>, present: seq<Id>)
    ensures forall id :: id in Ids(ZeroFill(src, present)) <==> id in Ids(src) && id !in present
  {
    forall id ensures id in Ids(ZeroFill(src, present)) <==> id in Ids(src) && id !in present {
      ZeroFillHas(src, present, id);
    }
  }

  lemma {:induction false} ZeroFillHas(src: seq<Award>, present: seq<Id>, id: Id)
    ensures id in Ids(ZeroFill(src, present)) <==> id in Ids(src) && id !in present
  {
    if src != [] {
      var n := |src| - 1;
      var tail := if src[n].id in present then [] else [Award(src[n].id, 0.0)];
      ZeroFillHas(src[..n], present, id);
      assert ZeroFill(src, present) == ZeroFill(src[..n], present) + tail;
      IdsAppend(ZeroFill(src[..n], present), tail);
      assert Ids(src) == Ids(src[..n]) + [src[n].id];
    }
  }

  /** ... once each when `src` has no repeated id. */
  lemma {:induction false} ZeroFillDistinct(src: seq<Award>, present: seq<Id>)
    requires Distinct(Ids(src))
    ensures Distinct(Ids(ZeroFill(src, present)))
  {
    if src != [] {
      var n := |src| - 1;
      var tail := if src[n].id in present then [] else [Award(src[n].id, 0.0)];
      assert Ids(src[..n]) == Ids(src)[..n];
      ZeroFillDistinct(src[..n], present);
      ZeroFillIds(src[..n], present);
      assert src[n].id !in Ids(src[..n]);
      IdsAppend(ZeroFill(src[..n], present), tail);
    }
  }

  lemma {:induction false} DistinctAppend(a: seq<Award>, b: seq<Award>)
    requires Distinct(Ids(a)) && Distinct(Ids(b))
    requires forall id :: id in Ids(b) ==> id !in Ids(a)
    ensures Distinct(Ids(a + b))
  {
    IdsAppend(a, b);
    forall i, j | 0 <= i < j < |a + b| ensures Ids(a + b)[i] != Ids(a + b)[j] {
      if i < |a| && |a| <= j {
        assert Ids(a + b)[j] == Ids(b)[j - |a|];
        assert Ids(a + b)[j] in Ids(b);
      }
    }
  }

  /** The two paddings leave both lists with the ids of either list, each
      once when neither list repeats an id. */
  lemma {:induction false} PaddingUnion(pos: seq<Award>, neg: seq<Award>)
    requires Distinct(Ids(pos)) && Distinct(Ids(neg))
    ensures var neg' := neg + ZeroFill(pos, Ids(neg));
            var pos' := pos + ZeroFill(neg', Ids(pos));
            && Distinct(Ids(pos')) && Distinct(Ids(neg'))
            && (forall id :: id in Ids(pos') <==> id in Ids(pos) || id in Ids(neg))
            && (forall id :: id in Ids(neg') <==> id in Ids(pos) || id in Ids(neg))
  {
    var neg' := neg + ZeroFill(pos, Ids(neg));
    var pos' := pos + ZeroFill(neg', Ids(pos));
    ZeroFillIds(pos, Ids(neg));
    ZeroFillDistinct(pos, Ids(neg));
    IdsAppend(neg, ZeroFill(pos, Ids(neg)));
    DistinctAppend(neg, ZeroFill(pos, Ids(neg)));
    ZeroFillIds(neg', Ids(pos));
    ZeroFillDistinct(neg', Ids(pos));
    IdsAppend(pos, ZeroFill(neg', Ids(pos)));
    DistinctAppend(pos, ZeroFill(neg', Ids(pos)));
  }

  // ---------------------------------------------------------------------
  // calculate_new_clr_final: reconciliation

  /** The reconciled amount of a grant with positive total p and negative
      total n. */
  function Net(sqrt: Root, p: real, n: real): real {
    if p == 0.0 || p < n then 0.0 else (sqrt(p) - sqrt(n)) * (sqrt(p) - sqrt(n))
  }

  /** The reconciled amount is never negative, is the positive total when
      there is no negative vote, and otherwise takes away at least the
      negative total. */
  lemma {:induction false} NetBounds(sqrt: Root, p: real, n: real)
    requires IsSqrt(sqrt) && 0.0 <= p && 0.0 <= n
    ensures 0.0 <= Net(sqrt, p, n)
    ensures n == 0.0 ==> Net(sqrt, p, n) == p
    ensures n <= p ==> Net(sqrt, p, n) <= p - n
    ensures p < n ==> Net(sqrt, p, n) == 0.0
  {
    var sp, sn := sqrt(p), sqrt(n);
    assert 0.0 <= sp && sp * sp == p && 0.0 <= sn && sn * sn == n;
    if n == 0.0 {
      SqrtOfSquare(sqrt, 0.0);
      assert (sp - sn) * (sp - sn) == sp * sp;
    }
    if n <= p && p != 0.0 {
      if sp < sn {
        SquareStrict(sp, sn);
      }
      assert sn <= sp;
      assert sn * sn <= sp * sn;
      assert (sp - sn) * (sp - sn) == p + n - 2.0 * (sp * sn);
    }
  }

  /** The inner loop of the reconciliation for one positive entry x. */
  function Matches(sqrt: Root, x: Award, ns: seq<Award>): seq<Award> {
    if ns == [] then []
    else
      var n := |ns| - 1;
      Matches(sqrt, x, ns[..n]) + (if x.id == ns[n].id then [Award(x.id, Net(sqrt, x.amount, ns[n].amount))] else [])
  }

  /** The `totals` list of the reconciliation. */
  function ReconcileSpec(sqrt: Root, ps: seq<Award>, ns: seq<Award>): seq<Award> {
    if ps == [] then [] else ReconcileSpec(sqrt, ps[..|ps| - 1], ns) + Matches(sqrt, ps[|ps| - 1], ns)
  }

  /** `math.sqrt(x['clr_amount']) - math.sqrt(y['clr_amount'])` is reached
      when p is not 0 and not below n, and raises ValueError unless both are
      non-negative. */
  predicate NetDefined(p: real, n: real) {
    p == 0.0 || p < n || (0.0 <= p && 0.0 <= n)
  }

  /** No entry of ns with x's id makes the inner loop raise. */
  predicate RowDefined(x: Award, ns: seq<Award>) {
    forall j :: 0 <= j < |ns| && ns[j].id == x.id ==> NetDefined(x.amount, ns[j].amount)
  }

  /** The reconciliation loops run without raising. */
  predicate RootsDefined(ps: seq<Award>, ns: seq<Award>) {
    forall i :: 0 <= i < |ps| ==> RowDefined(ps[i], ns)
  }

  /** The outer loop of the reconciliation: ValueError iff some matched pair
      takes a root of a negative amount, else the `totals` list. */
  method Reconcile(sqrt: Root, ps: seq<Award>, ns: seq<Award>) returns (r: Result<seq<Award>>)
    ensures r.Error? <==> !RootsDefined(ps, ns)
    ensures r.Error? ==> r.failure == ValueError
    ensures r.Ok? ==> r.value == ReconcileSpec(sqrt, ps, ns)
  {
    var totals := [];
    for i := 0 to |ps|
      invariant RootsDefined(ps[..i], ns)
      invariant totals == ReconcileSpec(sqrt, ps[..i], ns)
    {
      assert ps[..i + 1][..i] == ps[..i];
      var row := MatchRow(sqrt, ps[i], ns, totals);
      if row.Error? {
        return Error(ValueError);
      }
      totals := row.value;
      assert forall k :: 0 <= k < i ==> ps[..i + 1][k] == ps[..i][k];
    }
    assert ps[..|ps|] == ps;
    r := Ok(totals);
  }

  /** The inner loop for one positive entry x: ValueError iff one of x's
      matching entries reaches a root of a negative amount. */
  method MatchRow(sqrt: Root, x: Award, ns: seq<Award>, totals0: seq<Award>) returns (r: Result<seq<Award>>)
    ensures r.Error? <==> !RowDefined(x, ns)
    ensures r.Error? ==> r.failure == ValueError
    ensures r.Ok? ==> r.value == totals0 + Matches(sqrt, x, ns)
  {
    var totals := totals0;
    for j := 0 to |ns|
      invariant RowDefined(x, ns[..j])
      invariant totals == totals0 + Matches(sqrt, x, ns[..j])
    {
      assert ns[..j + 1][..j] == ns[..j];
      assert ns[..j + 1] == ns[..j] + [ns[j]];
      if x.id == ns[j].id && (x.amount == 0.0 || x.amount < ns[j].amount) {
        totals := totals + [Award(x.id, 0.0)];
      } else if x.id == ns[j].id {
        if x.amount < 0.0 || ns[j].amount < 0.0 {
          return Error(ValueError);
        }
        var d := sqrt(x.amount) - sqrt(ns[j].amount);
        assert d * d == Net(sqrt, x.amount, ns[j].amount);
        totals := totals + [Award(x.id, d * d)];
      }
    }
    assert ns[..|ns|] == ns;
    r := Ok(totals);
  }

  lemma {:induction false} MatchesNone(sqrt: Root, x: Award, ns: seq<Award>)
    requires x.id !in Ids(ns)
    ensures Matches(sqrt, x, ns) == []
  {
    if ns != [] {
      var n := |ns| - 1;
      assert Ids(ns[..n]) == Ids(ns)[..n];
      assert Ids(ns)[n] == ns[n].id;
      MatchesNone(sqrt, x, ns[..n]);
    }
  }

  /** Against a list without repeated ids, an entry matches exactly its own
      grant's entry. */
  lemma {:induction false} MatchesOne(sqrt: Root, x: Award, ns: seq<Award>, j: nat)
    requires Distinct(Ids(ns)) && j < |ns| && ns[j].id == x.id
    ensures Matches(sqrt, x, ns) == [Award(x.id, Net(sqrt, x.amount, ns[j].amount))]
  {
    var n := |ns| - 1;
    assert Ids(ns[..n]) == Ids(ns)[..n];
    if j == n {
      assert forall k :: 0 <= k < n ==> Ids(ns)[k] != Ids(ns)[n];
      MatchesNone(sqrt, x, ns[..n]);
    } else {
      assert Ids(ns)[j] != Ids(ns)[n];
      assert ns[..n][j] == ns[j];
      MatchesOne(sqrt, x, ns[..n], j);
    }
  }

  /** When every positive id has one negative entry, the reconciliation
      yields one award per positive entry ... */
  lemma {:induction false} ReconcileLength(sqrt: Root, ps: seq<Award>, ns: seq<Award>)
    requires Distinct(Ids(ns)) && forall i :: 0 <= i < |ps| ==> ps[i].id in Ids(ns)
    ensures |ReconcileSpec(sqrt, ps, ns)| == |ps|
  {
    if ps != [] {
      var n := |ps| - 1;
      assert forall i :: 0 <= i < n ==> ps[..n][i] == ps[i];
      ReconcileLength(sqrt, ps[..n], ns);
      var j :| 0 <= j < |ns| && Ids(ns)[j] == ps[n].id;
      MatchesOne(sqrt, ps[n], ns, j);
    }
  }

  /** ... in order, each with the amount reconciled against the negative
      entry of its grant. */
  lemma {:induction false} ReconcileAt(sqrt: Root, ps: seq<Award>, ns: seq<Award>, i: nat, j: nat)
    requires Distinct(Ids(ns)) && forall k :: 0 <= k < |ps| ==> ps[k].id in Ids(ns)
    requires i < |ps| && j < |ns| && ns[j].id == ps[i].id
    ensures i < |ReconcileSpec(sqrt, ps, ns)|
    ensures ReconcileSpec(sqrt, ps, ns)[i] == Award(ps[i].id, Net(sqrt, ps[i].amount, ns[j].amount))
  {
    var n := |ps| - 1;
    ReconcileFront(sqrt, ps, ns, ps[..n]);
    var rest := ReconcileSpec(sqrt, ps[..n], ns);
    if i < n {
      ReconcileAt(sqrt, ps[..n], ns, i, j);
      assert ps[..n][i] == ps[i];
      assert ReconcileSpec(sqrt, ps, ns)[i] == rest[i];
    } else {
      assert i == n;
      MatchesOne(sqrt, ps[n], ns, j);
      assert ReconcileSpec(sqrt, ps, ns) == rest + [Award(ps[n].id, Net(sqrt, ps[n].amount, ns[j].amount))];
    }
  }

  /** The reconciliation of all but the last positive entry has one entry
      per positive entry. */
  lemma {:induction false} ReconcileFront(sqrt: Root, ps: seq<Award>, ns: seq<Award>, front: seq<Award>)
    requires Distinct(Ids(ns)) && forall k :: 0 <= k < |ps| ==> ps[k].id in Ids(ns)
    requires ps != [] && front == ps[..|ps| - 1]
    ensures forall k :: 0 <= k < |front| ==> front[k].id in Ids(ns)
    ensures |ReconcileSpec(sqrt, front, ns)| == |front|
    ensures ReconcileSpec(sqrt, ps, ns) == ReconcileSpec(sqrt, front, ns) + Matches(sqrt, ps[|ps| - 1], ns)
  {
    forall k | 0 <= k < |front| ensures front[k].id in Ids(ns) {
      assert front[k] == ps[k];
    }
    ReconcileLength(sqrt, front, ns);
  }

  // ---------------------------------------------------------------------
  // calculate_new_clr_final: normalisation and the whole function

  /** The result of calculate_new_clr_final on the padded lists: the summed
      normalised amounts and the normalised reconciled list. */
  function FinalSpec(sqrt: Root, pos: seq<Award>, neg: seq<Award>, totalPot: real): Result<(real, seq<Award>)> {
    if !RootsDefined(pos, neg) then Error(ValueError)
    else
      match NormalizeSpec(ReconcileSpec(sqrt, pos, neg), totalPot)
      case Error(f) => Error(f)
      case Ok(ts) => Ok((Total(ts), ts))
  }

  method CalculateNewClrFinal(sqrt: Root, totalsPos: AwardList, totalsNeg: AwardList, totalPot: real)
    returns (r: Result<(real, seq<Award>)>)
    requires totalsPos != totalsNeg
    modifies totalsPos, totalsNeg
    ensures totalsNeg.items == old(totalsNeg.items) + ZeroFill(old(totalsPos.items), Ids(old(totalsNeg.items)))
    ensures totalsPos.items == old(totalsPos.items) + ZeroFill(totalsNeg.items, Ids(old(totalsPos.items)))
    ensures r == FinalSpec(sqrt, totalsPos.items, totalsNeg.items, totalPot)
  {
    var negIds := Ids(totalsNeg.items);
    totalsNeg.AppendMissing(totalsPos.items, negIds);
    var posIds := Ids(totalsPos.items);
    totalsPos.AppendMissing(totalsNeg.items, posIds);
    var reconciled := Reconcile(sqrt, totalsPos.items, totalsNeg.items);
    if reconciled.Error? {
      return Error(reconciled.failure);
    }
    var totals := reconciled.value;
    var bigtot := SumAmounts(totals);
    var normalized := Normalize(totals, bigtot, totalPot);
    if normalized.Error? {
      return Error(normalized.failure);
    }
    bigtot := SumAmounts(normalized.value);
    r := Ok((bigtot, normalized.value));
  }

  /** Reconciling keeps the ids of the positive list when every one of them
      has a negative entry. */
  lemma {:induction false} ReconciledIds(sqrt: Root, ps: seq<Award>, ns: seq<Award>)
    requires Distinct(Ids(ns)) && forall k :: 0 <= k < |ps| ==> ps[k].id in Ids(ns)
    ensures Ids(ReconcileSpec(sqrt, ps, ns)) == Ids(ps)
  {
    var ts := ReconcileSpec(sqrt, ps, ns);
    ReconcileLength(sqrt, ps, ns);
    forall i | 0 <= i < |ps| ensures Ids(ts)[i] == Ids(ps)[i] {
      var j := IdIndex(ns, ps[i].id);
      ReconcileAt(sqrt, ps, ns, i, j);
    }
  }

  /** On two lists without repeated ids, calculate_new_clr_final raises
      ValueError iff a matched pair takes a root of a negative amount; past
      that, it fails on the default pot of 0, and otherwise returns one
      award per grant of either list, in the padded positive list's order,
      with the `bigtot` it recomputes equal to the pot. */
  lemma {:induction false} FinalOutcome(sqrt: Root, pos: seq<Award>, neg: seq<Award>, totalPot: real)
    requires Distinct(Ids(pos)) && Distinct(Ids(neg))
    ensures var neg' := neg + ZeroFill(pos, Ids(neg));
            var pos' := pos + ZeroFill(neg', Ids(pos));
            var r := FinalSpec(sqrt, pos', neg', totalPot);
            && (!RootsDefined(pos', neg') ==> r == Error(ValueError))
            && (RootsDefined(pos', neg') && totalPot == 0.0 ==> r == Error(ZeroDivisionError))
            && (r.Ok? ==> Ids(r.value.1) == Ids(pos') && (pos' != [] ==> r.value.0 == totalPot))
  {
    var neg' := neg + ZeroFill(pos, Ids(neg));
    var pos' := pos + ZeroFill(neg', Ids(pos));
    PaddingUnion(pos, neg);
    var ts := ReconcileSpec(sqrt, pos', neg');
    ReconciledIds(sqrt, pos', neg');
    if NormalizeSpec(ts, totalPot).Ok? {
      NormalizeProportional(ts, totalPot);
      if pos' != [] {
        NormalizeSumsToPot(ts, totalPot);
      }
    }
  }

  /** Every award is at least 0. */
  ghost predicate NonNegativeAwards(ts: seq<Award>) {
    forall i :: 0 <= i < |ts| ==> 0.0 <= ts[i].amount
  }

  /** Lists of non-negative awards, padded with zero awards, never reach a
      root of a negative amount. */
  lemma {:induction false} PaddedRootsDefined(pos: seq<Award>, neg: seq<Award>)
    requires NonNegativeAwards(pos) && NonNegativeAwards(neg)
    ensures var neg' := neg + ZeroFill(pos, Ids(neg));
            var pos' := pos + ZeroFill(neg', Ids(pos));
            RootsDefined(pos', neg')
  {
    var neg' := neg + ZeroFill(pos, Ids(neg));
    var pos' := pos + ZeroFill(neg', Ids(pos));
    assert NonNegativeAwards(neg');
    assert NonNegativeAwards(pos');
  }

  /** The example of a negative amount reaching the root: a positive total
      of 4 against a negative total of -1 for the same grant. */
  lemma {:induction false} NegativeAmountFails(sqrt: Root, totalPot: real)
    ensures FinalSpec(sqrt, [Award(1, 4.0)], [Award(1, -1.0)], totalPot) == Error(ValueError)
  {
    var ps, ns := [Award(1, 4.0)], [Award(1, -1.0)];
    assert ns[0].id == ps[0].id && !NetDefined(ps[0].amount, ns[0].amount);
    assert !RowDefined(ps[0], ns);
  }

  // ---------------------------------------------------------------------
  // Both sides' awards are non-negative

  lemma {:induction false} SignTermNonNegative(sqrt: Root, ov: Overlap, k1: Id, v1: real, k2: Id, v2: real, t: real, positive: bool)
    requires IsSqrt(sqrt) && PairOk(ov, false, k1, v1, k2, v2) && 0.0 < t
    ensures PairReady(SignRule(t, positive), ov, k1, k2)
    ensures 0.0 <= Term(sqrt, SignRule(t, positive), ov, k1, v1, k2, v2)
  {
    TermMonotone(sqrt, ov, false, k1, v1, k2, v2, t, t);
    RootNonNegative(sqrt, v1, v2);
  }

  lemma {:induction false} SignRowNonNegative(sqrt: Root, ov: Overlap, k1: Id, v1: real, ds: Donors, t: real, positive: bool)
    requires IsSqrt(sqrt) && RowOk(ov, false, k1, v1, ds) && 0.0 < t
    ensures RowReady(SignRule(t, positive), ov, k1, ds)
    ensures 0.0 <= RowSpec(sqrt, SignRule(t, positive), ov, k1, v1, ds)
  {
    forall j | 0 <= j < |ds| ensures PairReady(SignRule(t, positive), ov, k1, ds[j].0) {
      SignTermNonNegative(sqrt, ov, k1, v1, ds[j].0, ds[j].1, t, positive);
    }
    if ds != [] {
      var n := |ds| - 1;
      assert RowOk(ov, false, k1, v1, ds[..n]) by {
        forall j | 0 <= j < n ensures PairOk(ov, false, k1, v1, ds[..n][j].0, ds[..n][j].1) {
          assert ds[..n][j] == ds[j];
        }
      }
      SignRowNonNegative(sqrt, ov, k1, v1, ds[..n], t, positive);
      SignTermNonNegative(sqrt, ov, k1, v1, ds[n].0, ds[n].1, t, positive);
    }
  }

  lemma {:induction false} SignRowsNonNegative(sqrt: Root, ov: Overlap, pre: Donors, all: Donors, t: real, positive: bool)
    requires IsSqrt(sqrt) && RowsOk(ov, false, pre, all) && 0.0 < t
    ensures RowsReady(SignRule(t, positive), ov, pre, all)
    ensures 0.0 <= RowsSpec(sqrt, SignRule(t, positive), ov, pre, all)
  {
    forall j | 0 <= j < |pre| ensures RowReady(SignRule(t, positive), ov, pre[j].0, all) {
      SignRowNonNegative(sqrt, ov, pre[j].0, pre[j].1, all, t, positive);
    }
    if pre != [] {
      var n := |pre| - 1;
      assert RowsOk(ov, false, pre[..n], all) by {
        forall j | 0 <= j < n ensures RowOk(ov, false, pre[..n][j].0, pre[..n][j].1, all) {
          assert pre[..n][j] == pre[j];
        }
      }
      SignRowsNonNegative(sqrt, ov, pre[..n], all, t, positive);
      SignRowNonNegative(sqrt, ov, pre[n].0, pre[n].1, all, t, positive);
    }
  }

  /** With pair totals that meet the division form's needs, every award of
      calculate_new_clr is at least 0, under either sign's formula. */
  lemma {:induction false} SignRawNonNegative(sqrt: Root, ov: Overlap, c: Ledger, t: real, positive: bool)
    requires IsSqrt(sqrt) && LedgerOk(ov, false, c) && 0.0 < t
    ensures LedgerReady(SignRule(t, positive), ov, c)
    ensures NonNegativeAwards(RawSpec(sqrt, SignRule(t, positive), ov, c))
  {
    forall i | 0 <= i < |c| ensures RowsReady(SignRule(t, positive), ov, c[i].1, c[i].1) {
      SignRowsNonNegative(sqrt, ov, c[i].1, c[i].1, t, positive);
    }
    if c != [] {
      var n := |c| - 1;
      assert LedgerOk(ov, false, c[..n]) by {
        forall i | 0 <= i < n ensures RowsOk(ov, false, c[..n][i].1, c[..n][i].1) {
          assert c[..n][i] == c[i];
        }
      }
      SignRawNonNegative(sqrt, ov, c[..n], t, positive);
      SignRowsNonNegative(sqrt, ov, c[n].1, c[n].1, t, positive);
    }
  }

  // ---------------------------------------------------------------------
  // run_r5_clr

  /** calculate_new_clr on the aggregate of the records and its pair
      totals. */
  ghost function SideClr(sqrt: Root, recs: seq<Contribution>, threshold: real, positive: bool): seq<Award>
    requires IsSqrt(sqrt) && RecordsSignConsistent(recs) && 0.0 < threshold
  {
    RecordsReadyBoth(sqrt, recs, threshold, positive);
    RawSpec(sqrt, SignRule(threshold, positive), OverlapSpec(sqrt, AggregateSpec(recs)), AggregateSpec(recs))
  }

  /** Each side's awards are at least 0, whatever the sign of its records. */
  lemma {:induction false} SideClrNonNegative(sqrt: Root, recs: seq<Contribution>, threshold: real, positive: bool)
    requires IsSqrt(sqrt) && RecordsSignConsistent(recs) && 0.0 < threshold
    ensures NonNegativeAwards(SideClr(sqrt, recs, threshold, positive))
  {
    RecordsReady(sqrt, recs, false);
    SignRawNonNegative(sqrt, OverlapSpec(sqrt, AggregateSpec(recs)), AggregateSpec(recs), threshold, positive);
  }

  /** run_r5_clr: both sides aggregated and matched, then padded,
      reconciled and normalised. It returns the final result and the two
      award lists as padded. */
  method RunR5(sqrt: Root, positiveContributions: seq<Contribution>, negativeContributions: seq<Contribution>, threshold: real, totalPot: real)
    returns (t: Result<(real, seq<Award>)>, totalsPos: seq<Award>, totalsNeg: seq<Award>)
    requires IsSqrt(sqrt) && 0.0 < threshold
    requires RecordsSignConsistent(positiveContributions) && RecordsSignConsistent(negativeContributions)
    ensures var pos, neg := SideClr(sqrt, positiveContributions, threshold, true), SideClr(sqrt, negativeContributions, threshold, false);
            && totalsNeg == neg + ZeroFill(pos, Ids(neg))
            && totalsPos == pos + ZeroFill(totalsNeg, Ids(pos))
            && t == FinalSpec(sqrt, totalsPos, totalsNeg, totalPot)
    ensures totalPot == 0.0 ==> t == Error(ZeroDivisionError)
    ensures t.Error? ==> t.failure == ZeroDivisionError
    ensures forall id :: id in Ids(totalsPos) <==> id in GrantIds(positiveContributions) || id in GrantIds(negativeContributions)
    ensures forall id :: id in Ids(totalsNeg) <==> id in GrantIds(positiveContributions) || id in GrantIds(negativeContributions)
    ensures t.Ok? ==> Ids(t.value.1) == Ids(totalsPos) && (totalsPos != [] ==> t.value.0 == totalPot)
  {
    var p := Aggregate(positiveContributions);
    var tp := PairTotals(sqrt, p);
    RecordsReadyBoth(sqrt, positiveContributions, threshold, true);
    var pos := CalculateNewClr(sqrt, p, tp, threshold, true);
    var n := Aggregate(negativeContributions);
    var tn := PairTotals(sqrt, n);
    RecordsReadyBoth(sqrt, negativeContributions, threshold, false);
    var neg := CalculateNewClr(sqrt, n, tn, threshold, false);
    AggregateGrants(positiveContributions);
    AggregateGrants(negativeContributions);
    var posList := new AwardList(pos);
    var negList := new AwardList(neg);
    t := CalculateNewClrFinal(sqrt, posList, negList, totalPot);
    totalsPos, totalsNeg := posList.items, negList.items;
    FinalOutcome(sqrt, pos, neg, totalPot);
    SideClrNonNegative(sqrt, positiveContributions, threshold, true);
    SideClrNonNegative(sqrt, negativeContributions, threshold, false);
    PaddedRootsDefined(pos, neg);
    PaddingUnion(pos, neg);
  }
}
