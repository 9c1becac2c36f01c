/** The per-grant match loop shared by every calculator: for each grant,
    `tot` accumulates a pair term over every ordered pair (k1, k2) of its
    contributors, `bigtot` accumulates the grants' `tot`, and one
    `{'id': proj, 'clr_amount': tot}` record is emitted per grant in order. */
module MatchEngine {
  import opened Basics
  import opened Aggregation
  import opened PairOverlap

  /** The pair formulas of the calculators. */
  datatype Rule =
      /** `(v1*v2)**0.5 / (pair_totals[k1][k2]/threshold + 1)` for k2 > k1 */
    | Pairwise(threshold: real)
      /** the same, plus the unscaled `(v1*v2)**0.5` when k2 == k1
          (negative votes in round 5) */
    | PairwiseWithSelf(threshold: real)
      /** `(v1*v2)**0.5 * min(1, threshold/tot_overlap[k1][k2])` for k2 > k1 */
    | MinCapped(threshold: real)
      /** round 7: v_threshold when k2 > k1 and both are verified, otherwise
          uv_threshold, over every ordered pair */
    | Verified(verified: seq<Id>, vThreshold: real, uvThreshold: real)
      /** the same two thresholds over the pairs with k2 > k1 only */
    | VerifiedPairs(verified: seq<Id>, vThreshold: real, uvThreshold: real)

  /** `{'id': proj, 'clr_amount': tot}` */
  datatype Award = Award(id: Id, amount: real)

  function Amounts(ts: seq<Award>): (r: seq<real>)
    ensures |r| == |ts|
    ensures forall i :: 0 <= i < |ts| ==> r[i] == ts[i].amount
  {
    if ts == [] then [] else Amounts(ts[..|ts| - 1]) + [ts[|ts| - 1].amount]
  }

  function Ids(ts: seq<Award>): (r: seq<Id>)
    ensures |r| == |ts|
    ensures forall i :: 0 <= i < |ts| ==> r[i] == ts[i].id
  {
    if ts == [] then [] else Ids(ts[..|ts| - 1]) + [ts[|ts| - 1].id]
  }

  /** A position at which id occurs. */
  lemma {:induction false} IdIndex(ts: seq<Award>, id: Id) returns (j: nat)
    requires id in Ids(ts)
    ensures j < |ts| && ts[j].id == id
  {
    var ids := Ids(ts);
    j :| 0 <= j < |ids| && ids[j] == id;
  }

  /** `bigtot`: the sum of the awards' amounts. */
  function Total(ts: seq<Award>): real {
    Sum(Amounts(ts))
  }

  /** The division form `root / (p / t + 1)`. */
  function Divided(root: real, p: real, t: real): real
    requires t != 0.0 && p / t + 1.0 != 0.0
  {
    root / (p / t + 1.0)
  }

  /** Whether the term for (k1, k2) reads `pair_totals[k1][k2]`. */
  predicate Reads(rule: Rule, k1: Id, k2: Id) {
    if rule.Verified? then true else k2 > k1
  }

  predicate BothVerified(vs: seq<Id>, k1: Id, k2: Id) {
    k2 in vs && k1 in vs
  }

  /** No division by zero in the term for (k1, k2) with pair total p. */
  predicate TermDefined(rule: Rule, k1: Id, k2: Id, p: real) {
    match rule
    case Pairwise(t) => k2 > k1 ==> t != 0.0 && p / t + 1.0 != 0.0
    case PairwiseWithSelf(t) => k2 > k1 ==> t != 0.0 && p / t + 1.0 != 0.0
    case MinCapped(t) => k2 > k1 ==> p != 0.0
    case Verified(vs, vt, ut) =>
      if k2 > k1 && BothVerified(vs, k1, k2) then vt != 0.0 && p / vt + 1.0 != 0.0
      else ut != 0.0 && p / ut + 1.0 != 0.0
    case VerifiedPairs(vs, vt, ut) =>
      k2 > k1 ==>
        if BothVerified(vs, k1, k2) then vt != 0.0 && p / vt + 1.0 != 0.0
        else ut != 0.0 && p / ut + 1.0 != 0.0
  }

  /** The pair entry the term reads exists, and the term is defined. */
  predicate PairReady(rule: Rule, ov: Overlap, k1: Id, k2: Id) {
    (Reads(rule, k1, k2) ==> Has(ov, k1, k2)) && TermDefined(rule, k1, k2, Get2(ov, k1, k2))
  }

  /** What the pair (k1, v1), (k2, v2) adds to `tot`. */
  function Term(sqrt: Root, rule: Rule, ov: Overlap, k1: Id, v1: real, k2: Id, v2: real): real
    requires PairReady(rule, ov, k1, k2)
  {
    var root := PairRoot(sqrt, v1, v2);
    var p := Get2(ov, k1, k2);
    match rule
    case Pairwise(t) => if k2 > k1 then Divided(root, p, t) else 0.0
    case PairwiseWithSelf(t) =>
      if k2 > k1 then Divided(root, p, t) else if k2 == k1 then root else 0.0
    case MinCapped(t) => if k2 > k1 then root * Min(1.0, t / p) else 0.0
    case Verified(vs, vt, ut) =>
      if k2 > k1 && BothVerified(vs, k1, k2) then Divided(root, p, vt) else Divided(root, p, ut)
    case VerifiedPairs(vs, vt, ut) =>
      if k2 <= k1 then 0.0
      else if BothVerified(vs, k1, k2) then Divided(root, p, vt) else Divided(root, p, ut)
  }

  predicate RowReady(rule: Rule, ov: Overlap, k1: Id, ds: Donors) {
    forall j :: 0 <= j < |ds| ==> PairReady(rule, ov, k1, ds[j].0)
  }

  predicate RowsReady(rule: Rule, ov: Overlap, pre: Donors, all: Donors) {
    forall j :: 0 <= j < |pre| ==> RowReady(rule, ov, pre[j].0, all)
  }

  predicate LedgerReady(rule: Rule, ov: Overlap, c: Ledger) {
    forall i :: 0 <= i < |c| ==> RowsReady(rule, ov, c[i].1, c[i].1)
  }

  /** The inner loop: row k1 against the contributors `ds`. */
  function RowSpec(sqrt: Root, rule: Rule, ov: Overlap, k1: Id, v1: real, ds: Donors): real
    requires RowReady(rule, ov, k1, ds)
  {
    if ds == [] then 0.0
    else
      var n := |ds| - 1;
      RowSpec(sqrt, rule, ov, k1, v1, ds[..n]) + Term(sqrt, rule, ov, k1, v1, ds[n].0, ds[n].1)
  }

  /** The loop over the rows k1 in `pre`, each against all contributors. */
  function RowsSpec(sqrt: Root, rule: Rule, ov: Overlap, pre: Donors, all: Donors): real
    requires RowsReady(rule, ov, pre, all)
  {
    if pre == [] then 0.0
    else
      var n := |pre| - 1;
      RowsSpec(sqrt, rule, ov, pre[..n], all) + RowSpec(sqrt, rule, ov, pre[n].0, pre[n].1, all)
  }

  /** A grant's `tot`. */
  function GrantSpec(sqrt: Root, rule: Rule, ov: Overlap, ds: Donors): real
    requires RowsReady(rule, ov, ds, ds)
  {
    RowsSpec(sqrt, rule, ov, ds, ds)
  }

  /** The `totals` list: one award per grant of c, in order. */
  function RawSpec(sqrt: Root, rule: Rule, ov: Overlap, c: Ledger): (ts: seq<Award>)
    requires LedgerReady(rule, ov, c)
    ensures |ts| == |c|
  {
    if c == [] then []
    else
      var n := |c| - 1;
      RawSpec(sqrt, rule, ov, c[..n]) + [Award(c[n].0, GrantSpec(sqrt, rule, ov, c[n].1))]
  }

  // ---------------------------------------------------------------------
  // The loops

  /** The `for proj, contribz in aggregated_contributions.items()` loop with
      its `bigtot` and `totals` accumulators. */
  method RawTotals(sqrt: Root, rule: Rule, ov: Overlap, c: Ledger) returns (totals: seq<Award>, bigtot: real)
    requires LedgerReady(rule, ov, c)
    ensures totals == RawSpec(sqrt, rule, ov, c)
    ensures bigtot == Total(totals)
  {
    bigtot := 0.0;
    totals := [];
    for i := 0 to |c|
      invariant totals == RawSpec(sqrt, rule, ov, c[..i])
      invariant bigtot == Total(totals)
    {
      LedgerReadyPrefix(rule, ov, c, i + 1);
      assert c[..i + 1][..i] == c[..i];
      var tot := GrantMatch(sqrt, rule, ov, c[i].1);
      TotalSnoc(totals, Award(c[i].0, tot));
      bigtot := bigtot + tot;
      totals := totals + [Award(c[i].0, tot)];
    }
    assert c[..|c|] == c;
  }

  lemma {:induction false} TotalSnoc(ts: seq<Award>, a: Award)
    ensures Total(ts + [a]) == Total(ts) + a.amount
  {
    assert (ts + [a])[..|ts|] == ts;
    assert Amounts(ts + [a]) == Amounts(ts) + [a.amount];
  }

  lemma {:induction false} LedgerReadyPrefix(rule: Rule, ov: Overlap, c: Ledger, i: nat)
    requires LedgerReady(rule, ov, c) && i <= |c|
    ensures LedgerReady(rule, ov, c[..i])
  {
    forall h | 0 <= h < i ensures RowsReady(rule, ov, c[..i][h].1, c[..i][h].1) {
      assert c[..i][h] == c[h];
    }
  }

  /** The loop over the rows k1 of one grant. */
  method GrantMatch(sqrt: Root, rule: Rule, ov: Overlap, ds: Donors) returns (tot: real)
    requires RowsReady(rule, ov, ds, ds)
    ensures tot == GrantSpec(sqrt, rule, ov, ds)
  {
    tot := 0.0;
    RowsReadyPrefix(rule, ov, ds, ds, 0);
    for j := 0 to |ds|
      invariant RowsReady(rule, ov, ds[..j], ds)
      invariant tot == RowsSpec(sqrt, rule, ov, ds[..j], ds)
    {
      RowsSnoc(sqrt, rule, ov, ds, j);
      tot := RowMatch(sqrt, rule, ov, ds[j].0, ds[j].1, ds, tot);
    }
    assert ds[..|ds|] == ds;
  }

  lemma {:induction false} RowsSnoc(sqrt: Root, rule: Rule, ov: Overlap, ds: Donors, j: nat)
    requires RowsReady(rule, ov, ds, ds) && j < |ds|
    ensures RowsReady(rule, ov, ds[..j], ds) && RowsReady(rule, ov, ds[..j + 1], ds)
    ensures RowReady(rule, ov, ds[j].0, ds)
    ensures RowsSpec(sqrt, rule, ov, ds[..j + 1], ds)
         == RowsSpec(sqrt, rule, ov, ds[..j], ds) + RowSpec(sqrt, rule, ov, ds[j].0, ds[j].1, ds)
  {
    RowsReadyPrefix(rule, ov, ds, ds, j);
    RowsReadyPrefix(rule, ov, ds, ds, j + 1);
    assert ds[..j + 1][..j] == ds[..j];
    assert ds[..j + 1][j] == ds[j];
  }

  lemma {:induction false} RowsReadyPrefix(rule: Rule, ov: Overlap, pre: Donors, all: Donors, j: nat)
    requires RowsReady(rule, ov, pre, all) && j <= |pre|
    ensures RowsReady(rule, ov, pre[..j], all)
  {
    forall m | 0 <= m < j ensures RowReady(rule, ov, pre[..j][m].0, all) {
      assert pre[..j][m] == pre[m];
    }
  }

  lemma {:induction false} RowReadyPrefix(rule: Rule, ov: Overlap, k1: Id, ds: Donors, m: nat)
    requires RowReady(rule, ov, k1, ds) && m <= |ds|
    ensures RowReady(rule, ov, k1, ds[..m])
  {
    forall j | 0 <= j < m ensures PairReady(rule, ov, k1, ds[..m][j].0) {
      assert ds[..m][j] == ds[j];
    }
  }

  /** RowSpec of a prefix one longer. */
  lemma {:induction false} RowSpecSnoc(sqrt: Root, rule: Rule, ov: Overlap, k1: Id, v1: real, ds: Donors, m: nat)
    requires RowReady(rule, ov, k1, ds) && 0 < m <= |ds|
    ensures RowReady(rule, ov, k1, ds[..m]) && RowReady(rule, ov, k1, ds[..m - 1])
    ensures PairReady(rule, ov, k1, ds[m - 1].0)
    ensures RowSpec(sqrt, rule, ov, k1, v1, ds[..m])
         == RowSpec(sqrt, rule, ov, k1, v1, ds[..m - 1]) + Term(sqrt, rule, ov, k1, v1, ds[m - 1].0, ds[m - 1].1)
  {
    RowReadyPrefix(rule, ov, k1, ds, m);
    RowReadyPrefix(rule, ov, k1, ds, m - 1);
    assert ds[..m][..m - 1] == ds[..m - 1];
    assert ds[..m][m - 1] == ds[m - 1];
  }

  /** RowsSpec of a prefix one longer. */
  lemma {:induction false} RowsSpecSnoc(sqrt: Root, rule: Rule, ov: Overlap, pre: Donors, all: Donors, m: nat)
    requires RowsReady(rule, ov, pre, all) && 0 < m <= |pre|
    ensures RowsReady(rule, ov, pre[..m], all) && RowsReady(rule, ov, pre[..m - 1], all)
    ensures RowReady(rule, ov, pre[m - 1].0, all)
    ensures RowsSpec(sqrt, rule, ov, pre[..m], all)
         == RowsSpec(sqrt, rule, ov, pre[..m - 1], all) + RowSpec(sqrt, rule, ov, pre[m - 1].0, pre[m - 1].1, all)
  {
    RowsReadyPrefix(rule, ov, pre, all, m);
    RowsReadyPrefix(rule, ov, pre, all, m - 1);
    assert pre[..m][..m - 1] == pre[..m - 1];
    assert pre[..m][m - 1] == pre[m - 1];
  }

  /** The loop over k2 for row (k1, v1), adding to the running `tot`. */
  method RowMatch(sqrt: Root, rule: Rule, ov: Overlap, k1: Id, v1: real, ds: Donors, tot0: real) returns (tot: real)
    requires RowReady(rule, ov, k1, ds)
    ensures tot == tot0 + RowSpec(sqrt, rule, ov, k1, v1, ds)
  {
    tot := tot0;
    for l := 0 to |ds|
      invariant tot == tot0 + RowSpec(sqrt, rule, ov, k1, v1, ds[..l])
    {
      assert ds[..l + 1][..l] == ds[..l];
      tot := tot + Term(sqrt, rule, ov, k1, v1, ds[l].0, ds[l].1);
    }
    assert ds[..|ds|] == ds;
  }

  // ---------------------------------------------------------------------
  // Shape of the result

  /** One award per grant, carrying the grant's id, in order. */
  lemma {:induction false} RawShape(sqrt: Root, rule: Rule, ov: Overlap, c: Ledger)
    requires LedgerReady(rule, ov, c)
    ensures Ids(RawSpec(sqrt, rule, ov, c)) == Keys(c)
    ensures forall i :: 0 <= i < |c| ==> RawSpec(sqrt, rule, ov, c)[i].amount == GrantSpec(sqrt, rule, ov, c[i].1)
  {
    var ts := RawSpec(sqrt, rule, ov, c);
    forall i | 0 <= i < |c| ensures ts[i] == Award(c[i].0, GrantSpec(sqrt, rule, ov, c[i].1)) {
      RawAt(sqrt, rule, ov, c, i);
    }
    assert forall i :: 0 <= i < |c| ==> Ids(ts)[i] == Keys(c)[i];
  }

  lemma {:induction false} RawAt(sqrt: Root, rule: Rule, ov: Overlap, c: Ledger, i: nat)
    requires LedgerReady(rule, ov, c) && i < |c|
    ensures RawSpec(sqrt, rule, ov, c)[i] == Award(c[i].0, GrantSpec(sqrt, rule, ov, c[i].1))
  {
    var n := |c| - 1;
    LedgerReadyPrefix(rule, ov, c, n);
    if i < n {
      RawAt(sqrt, rule, ov, c[..n], i);
      assert c[..n][i] == c[i];
    }
  }

  /** Rules that only count pairs with k2 > k1. */
  predicate StrictPairsOnly(rule: Rule) {
    rule.Pairwise? || rule.MinCapped? || rule.VerifiedPairs?
  }

  /** The grant [(k, v)] scores its single self-pair term. */
  lemma {:induction false} LoneGrant(sqrt: Root, rule: Rule, ov: Overlap, k: Id, v: real)
    requires PairReady(rule, ov, k, k)
    ensures RowsReady(rule, ov, [(k, v)], [(k, v)])
    ensures GrantSpec(sqrt, rule, ov, [(k, v)]) == Term(sqrt, rule, ov, k, v, k, v)
  {
    var ds := [(k, v)];
    assert ds[..0] == [];
    assert RowSpec(sqrt, rule, ov, k, v, ds)
        == RowSpec(sqrt, rule, ov, k, v, ds[..0]) + Term(sqrt, rule, ov, k, v, k, v);
    assert RowsSpec(sqrt, rule, ov, ds, ds)
        == RowsSpec(sqrt, rule, ov, ds[..0], ds) + RowSpec(sqrt, rule, ov, k, v, ds);
  }

  /** A single contribution does not get a match: a grant with one
      contributor scores 0 under the k2 > k1 rules. */
  lemma {:induction false} LoneContributorNoMatch(sqrt: Root, rule: Rule, ov: Overlap, k: Id, v: real)
    requires StrictPairsOnly(rule)
    ensures RowsReady(rule, ov, [(k, v)], [(k, v)])
    ensures GrantSpec(sqrt, rule, ov, [(k, v)]) == 0.0
  {
    LoneGrant(sqrt, rule, ov, k, v);
  }

  /** Negative mode: a lone contributor of amount v scores |v|. */
  lemma {:induction false} LoneNegativeVoter(sqrt: Root, t: real, ov: Overlap, k: Id, v: real)
    requires IsSqrt(sqrt)
    ensures RowsReady(PairwiseWithSelf(t), ov, [(k, v)], [(k, v)])
    ensures GrantSpec(sqrt, PairwiseWithSelf(t), ov, [(k, v)]) == Abs(v)
  {
    LoneGrant(sqrt, PairwiseWithSelf(t), ov, k, v);
    SqrtOfSquare(sqrt, v);
  }

  // ---------------------------------------------------------------------
  // Bounds and monotonicity of the terms in the threshold

  /** The contributions of a grant all have one sign. */
  ghost predicate SameSign(ds: Donors) {
    (forall j :: 0 <= j < |ds| ==> 0.0 <= ds[j].1) || (forall j :: 0 <= j < |ds| ==> ds[j].1 <= 0.0)
  }

  lemma {:induction false} ProductSameSign(v1: real, v2: real)
    requires (0.0 <= v1 && 0.0 <= v2) || (v1 <= 0.0 && v2 <= 0.0)
    ensures 0.0 <= v1 * v2
  {
    if v1 <= 0.0 && v2 <= 0.0 {
      assert v1 * v2 == (-v1) * (-v2);
    }
  }

  lemma {:induction false} QuotientAntitone(p: real, t1: real, t2: real)
    requires 0.0 <= p && 0.0 < t1 <= t2
    ensures 0.0 <= p / t2 <= p / t1
  {
    var q1, q2 := p / t1, p / t2;
    assert q1 * t1 == p && q2 * t2 == p;
  }

  lemma {:induction false} DivAntitone(x: real, d1: real, d2: real)
    requires 0.0 <= x && 0.0 < d2 <= d1
    ensures x / d1 <= x / d2
  {
    var q1, q2 := x / d1, x / d2;
    assert q1 * d1 == x && q2 * d2 == x;
  }

  /** The division form is non-negative and at most the root, and it does
      not decrease when the threshold grows. */
  lemma {:induction false} DividedMonotone(root: real, p: real, t1: real, t2: real)
    requires 0.0 <= root && 0.0 <= p && 0.0 < t1 <= t2
    ensures 0.0 <= Divided(root, p, t1) <= Divided(root, p, t2) <= root
  {
    QuotientAntitone(p, t1, t2);
    DivAntitone(root, p / t1 + 1.0, p / t2 + 1.0);
    DivAntitone(root, p / t2 + 1.0, 1.0);
  }

  /** The min-capped form is non-negative and at most the root, and it does
      not decrease when the threshold grows. */
  lemma {:induction false} CappedMonotone(root: real, p: real, t1: real, t2: real)
    requires 0.0 <= root && 0.0 < p && 0.0 <= t1 <= t2
    ensures 0.0 <= root * Min(1.0, t1 / p) <= root * Min(1.0, t2 / p) <= root
  {
    var m1, m2 := Min(1.0, t1 / p), Min(1.0, t2 / p);
    assert t1 / p <= t2 / p by {
      var q1, q2 := t1 / p, t2 / p;
      assert q1 * p == t1 && q2 * p == t2;
    }
    assert 0.0 <= t1 / p by {
      assert (t1 / p) * p == t1;
    }
    assert 0.0 <= m1 <= m2 <= 1.0;
    assert root * m1 <= root * m2;
    assert root * m2 <= root * 1.0;
  }
}
