/** clr.py: per grant, the contributions of every profile are summed, every
    two-profile combination contributes the root of the product of their
    totals (`grant_lr`), and each such term above the threshold is divided
    by it. */
module Clr {
  import opened Basics
  import opened Aggregation
  import opened GrantStats

  /** One dict of a grant's `contributions` list, `{profile: amount}`, in
      its own order. */
  type Entry = seq<(Id, real)>

  /** `{'id', 'contributions'}` */
  datatype GrantInput = GrantInput(id: Id, contributions: seq<Entry>)

  /** `{'id', 'grant_lr', 'lr_contributions'}` */
  datatype GrantLr = GrantLr(id: Id, grantLr: real, lrContributions: seq<real>)

  /** A record of `grants` once `'clr'` is set. */
  datatype GrantRecord = GrantRecord(id: Id, grantLr: real, lrContributions: seq<real>, clr: real)

  // ---------------------------------------------------------------------
  // calculate_grant_lr

  /** `unique_contributions` after the items, one at a time: a profile seen
      before is credited, a new one is added at the end. */
  function Fold(items: seq<(Id, real)>): Donors {
    if items == [] then []
    else
      var n := |items| - 1;
      Credit(Fold(items[..n]), items[n].0, items[n].1)
  }

  /** The profiles of the items, in order. */
  function Profiles(items: seq<(Id, real)>): (ps: seq<Id>)
    ensures |ps| == |items| && forall k :: 0 <= k < |items| ==> ps[k] == items[k].0
  {
    seq(|items|, k requires 0 <= k < |items| => items[k].0)
  }

  /** Reference definition: the total of the items of profile p. */
  function ProfileTotal(items: seq<(Id, real)>, p: Id): real {
    if items == [] then 0.0
    else
      var n := |items| - 1;
      ProfileTotal(items[..n], p) + (if items[n].0 == p then items[n].1 else 0.0)
  }

  /** Every profile ends with the total of its items. */
  lemma {:induction false} FoldAmount(items: seq<(Id, real)>, p: Id)
    ensures AmountOf(Fold(items), p) == ProfileTotal(items, p)
  {
    if items != [] {
      var n := |items| - 1;
      FoldAmount(items[..n], p);
      AmountOfCredit(Fold(items[..n]), items[n].0, items[n].1, p);
    }
  }

  /** The profiles of the fold are those of the items, each once, in order of
      first appearance. */
  lemma {:induction false} FoldProfiles(items: seq<(Id, real)>)
    ensures Keys(Fold(items)) == Dedup(Profiles(items))
  {
    if items != [] {
      var n := |items| - 1;
      var prefix, u := items[..n], items[n].0;
      var f, p := Fold(prefix), Profiles(prefix);
      FoldProfiles(prefix);
      assert Fold(items) == Credit(f, u, items[n].1);
      KeysCredit(f, u, items[n].1);
      assert Profiles(items) == p + [u];
      DedupSnoc(p, u);
      if u in Keys(f) {
        assert Keys(Fold(items)) == Keys(f) == Dedup(p) == Dedup(p + [u]);
      } else {
        assert Keys(Fold(items)) == Keys(f) + [u] == Dedup(p) + [u] == Dedup(p + [u]);
      }
    }
  }

  lemma {:induction false} FoldSnoc(items: seq<(Id, real)>, y: (Id, real))
    ensures Fold(items + [y]) == Credit(Fold(items), y.0, y.1)
  {
    assert (items + [y])[..|items|] == items;
  }

  /** The two loops over the entries and their items. */
  method UniqueContributions(grantContributions: seq<Entry>) returns (unique: Donors)
    ensures unique == Fold(Flatten(grantContributions))
  {
    unique := [];
    for i := 0 to |grantContributions|
      invariant unique == Fold(Flatten(grantContributions[..i]))
    {
      assert grantContributions[..i + 1][..i] == grantContributions[..i];
      unique := CreditEntry(unique, Flatten(grantContributions[..i]), grantContributions[i]);
    }
    assert grantContributions[..|grantContributions|] == grantContributions;
  }

  /** The inner loop: credit every item of one entry. */
  method CreditEntry(unique: Donors, ghost items: seq<(Id, real)>, e: Entry) returns (res: Donors)
    requires unique == Fold(items)
    ensures res == Fold(items + e)
  {
    res := unique;
    assert items + e[..0] == items;
    for j := 0 to |e|
      invariant res == Fold(items + e[..j])
    {
      FoldSnoc(items + e[..j], e[j]);
      assert items + e[..j + 1] == items + e[..j] + [e[j]];
      res := Credit(res, e[j].0, e[j].1);
    }
    assert e[..|e|] == e;
  }

  /** `combinations(values, 2)`: the value at every position paired with the
      value at every later position, n(n-1)/2 pairs in all. */
  function Pairs(vs: seq<real>): (ps: seq<(real, real)>)
    ensures |vs| < 2 ==> ps == []
  {
    if |vs| < 2 then []
    else seq(|vs| - 1, j requires 0 <= j < |vs| - 1 => (vs[0], vs[j + 1])) + Pairs(vs[1..])
  }

  /** n values give n*(n-1)/2 combinations. */
  lemma {:induction false} PairsCount(vs: seq<real>)
    ensures 2 * |Pairs(vs)| == |vs| * (|vs| - 1)
  {
    if |vs| >= 2 {
      PairsCount(vs[1..]);
      var n := |vs|;
      assert |Pairs(vs)| == (n - 1) + |Pairs(vs[1..])|;
      assert 2 * (n - 1) + (n - 1) * (n - 2) == n * (n - 1);
    }
  }

  /** A pair is a combination exactly when it takes its two values from two
      positions in order. */
  lemma {:induction false} PairsMember(vs: seq<real>, a: real, b: real)
    ensures (a, b) in Pairs(vs) <==> exists i, j :: 0 <= i < j < |vs| && vs[i] == a && vs[j] == b
  {
    if |vs| >= 2 {
      var head := seq(|vs| - 1, j requires 0 <= j < |vs| - 1 => (vs[0], vs[j + 1]));
      PairsMember(vs[1..], a, b);
      assert Pairs(vs) == head + Pairs(vs[1..]);
      if (a, b) in head {
        var j :| 0 <= j < |head| && head[j] == (a, b);
        assert vs[0] == a && vs[j + 1] == b;
      } else if (a, b) in Pairs(vs[1..]) {
        var i, j :| 0 <= i < j < |vs[1..]| && vs[1..][i] == a && vs[1..][j] == b;
        assert vs[i + 1] == a && vs[j + 1] == b;
      }
      if exists i, j :: 0 <= i < j < |vs| && vs[i] == a && vs[j] == b {
        var i, j :| 0 <= i < j < |vs| && vs[i] == a && vs[j] == b;
        if i == 0 {
          assert head[j - 1] == (a, b);
        } else {
          assert vs[1..][i - 1] == a && vs[1..][j - 1] == b;
        }
      }
    }
  }

  /** `math.sqrt(contribution_1 * contribution_2)` for every pair. */
  function Terms(sqrt: Root, ps: seq<(real, real)>): (ts: seq<real>)
    ensures |ts| == |ps|
  {
    seq(|ps|, k requires 0 <= k < |ps| => PairRoot(sqrt, ps[k].0, ps[k].1))
  }

  /** `lr_contributions` of a grant's entries. */
  function GrantTerms(sqrt: Root, es: seq<Entry>): seq<real> {
    Terms(sqrt, Pairs(Values(Fold(Flatten(es)))))
  }

  /** `math.sqrt` raises ValueError on a negative argument, so the two
      values of a pair must not have opposite signs (see
      RootablePairProduct). */
  predicate RootablePair(p: (real, real)) {
    (0.0 <= p.0 && 0.0 <= p.1) || (p.0 <= 0.0 && p.1 <= 0.0)
  }

  /** The sign test is exactly the test of a non-negative product. */
  lemma {:induction false} RootablePairProduct(p: (real, real))
    ensures RootablePair(p) <==> 0.0 <= p.0 * p.1
  {
    if p.0 < 0.0 && 0.0 < p.1 {
      assert p.0 * p.1 < 0.0 * p.1;
    } else if 0.0 < p.0 && p.1 < 0.0 {
      assert p.0 * p.1 < p.0 * 0.0;
    } else if 0.0 <= p.0 && 0.0 <= p.1 {
      assert 0.0 * p.1 <= p.0 * p.1;
    } else {
      assert p.0 <= 0.0 && p.1 <= 0.0;
      assert 0.0 <= (-p.0) * (-p.1);
    }
  }

  predicate Rootable(ps: seq<(real, real)>) {
    forall k :: 0 <= k < |ps| ==> RootablePair(ps[k])
  }

  /** Every combination of a grant's profile totals can be rooted. */
  predicate GrantRootable(es: seq<Entry>) {
    Rootable(Pairs(Values(Fold(Flatten(es)))))
  }

  predicate AllRootable(gcs: seq<GrantInput>) {
    forall i :: 0 <= i < |gcs| ==> GrantRootable(gcs[i].contributions)
  }

  /** calculate_grant_lr: the fold, then the loop over the pairs; the
      threshold is not used. */
  method CalculateGrantLr(sqrt: Root, threshold: real, grantContributions: seq<Entry>)
    returns (r: Result<(real, seq<real>)>)
    ensures r.Error? <==> !GrantRootable(grantContributions)
    ensures r.Error? ==> r.failure == ValueError
    ensures r.Ok? ==> r.value.1 == GrantTerms(sqrt, grantContributions) && r.value.0 == Sum(r.value.1)
  {
    var unique := UniqueContributions(grantContributions);
    r := RootLoop(sqrt, Pairs(Values(unique)));
  }

  /** The loop over the pairs: the running sum of their roots, or ValueError
      from the first negative product. */
  method RootLoop(sqrt: Root, contributionPairs: seq<(real, real)>) returns (r: Result<(real, seq<real>)>)
    ensures r.Error? <==> !Rootable(contributionPairs)
    ensures r.Error? ==> r.failure == ValueError
    ensures r.Ok? ==> r.value.1 == Terms(sqrt, contributionPairs) && r.value.0 == Sum(r.value.1)
  {
    var grantLrContribution := 0.0;
    var lrContributions := [];
    for k := 0 to |contributionPairs|
      invariant lrContributions == Terms(sqrt, contributionPairs[..k])
      invariant grantLrContribution == Sum(lrContributions)
      invariant forall m :: 0 <= m < k ==> RootablePair(contributionPairs[m])
    {
      if !RootablePair(contributionPairs[k]) {
        return Error(ValueError);
      }
      var lrContribution := PairRoot(sqrt, contributionPairs[k].0, contributionPairs[k].1);
      assert Terms(sqrt, contributionPairs[..k + 1]) == Terms(sqrt, contributionPairs[..k]) + [lrContribution];
      assert (lrContributions + [lrContribution])[..|lrContributions|] == lrContributions;
      lrContributions := lrContributions + [lrContribution];
      grantLrContribution := grantLrContribution + lrContribution;
    }
    assert contributionPairs[..|contributionPairs|] == contributionPairs;
    r := Ok((grantLrContribution, lrContributions));
  }

  /** A grant with n distinct profiles has n(n-1)/2 terms. */
  lemma {:induction false} GrantTermsCount(sqrt: Root, es: seq<Entry>)
    ensures var n := |Dedup(Profiles(Flatten(es)))|;
            2 * |GrantTerms(sqrt, es)| == n * (n - 1)
  {
    FoldProfiles(Flatten(es));
    PairsCount(Values(Fold(Flatten(es))));
  }

  /** With non-negative amounts every term is non-negative. */
  lemma {:induction false} GrantTermsNonNegative(sqrt: Root, es: seq<Entry>, k: nat)
    requires IsSqrt(sqrt)
    requires forall y :: y in Flatten(es) ==> 0.0 <= y.1
    requires k < |GrantTerms(sqrt, es)|
    ensures 0.0 <= GrantTerms(sqrt, es)[k]
  {
    var vs := Values(Fold(Flatten(es)));
    FoldNonNegative(Flatten(es));
    PairsNonNegative(vs);
    var p := Pairs(vs)[k];
    assert GrantTerms(sqrt, es)[k] == PairRoot(sqrt, p.0, p.1);
    assert 0.0 <= p.0 * p.1;
    RootNonNegative(sqrt, p.0, p.1);
  }

  /** Pairs of non-negative values have non-negative components. */
  lemma {:induction false} PairsNonNegative(vs: seq<real>)
    requires forall m :: 0 <= m < |vs| ==> 0.0 <= vs[m]
    ensures forall k :: 0 <= k < |Pairs(vs)| ==> 0.0 <= Pairs(vs)[k].0 && 0.0 <= Pairs(vs)[k].1
  {
    if |vs| >= 2 {
      PairsNonNegative(vs[1..]);
    }
  }

  /** Crediting non-negative amounts keeps every total non-negative. */
  lemma {:induction false} FoldNonNegative(items: seq<(Id, real)>)
    requires forall y :: y in items ==> 0.0 <= y.1
    ensures forall m :: 0 <= m < |Values(Fold(items))| ==> 0.0 <= Values(Fold(items))[m]
  {
    if items != [] {
      var n := |items| - 1;
      assert forall y :: y in items[..n] ==> y in items;
      FoldNonNegative(items[..n]);
      assert items[n] in items;
      CreditNonNegative(Fold(items[..n]), items[n].0, items[n].1);
    }
  }

  lemma {:induction false} CreditNonNegative(ds: Donors, u: Id, a: real)
    requires 0.0 <= a && forall m :: 0 <= m < |Values(ds)| ==> 0.0 <= Values(ds)[m]
    ensures forall m :: 0 <= m < |Values(Credit(ds, u, a))| ==> 0.0 <= Values(Credit(ds, u, a))[m]
  {
    if ds == [] {
      assert Values(Credit(ds, u, a)) == [a];
    } else if ds[0].0 == u {
      assert 0.0 <= Values(ds)[0];
      assert forall m :: 1 <= m < |ds| ==> Values(Credit(ds, u, a))[m] == Values(ds)[m];
    } else {
      assert forall m :: 0 <= m < |ds[1..]| ==> Values(ds[1..])[m] == Values(ds)[m + 1];
      CreditNonNegative(ds[1..], u, a);
      assert Credit(ds, u, a) == [ds[0]] + Credit(ds[1..], u, a);
      assert 0.0 <= Values(ds)[0];
      assert forall m :: 1 <= m < |Credit(ds, u, a)| ==> Values(Credit(ds, u, a))[m] == Values(Credit(ds[1..], u, a))[m - 1];
    }
  }

  // ---------------------------------------------------------------------
  // calculate_clr

  /** The records of the first loop: one per input grant, in order. */
  function GrantLrs(sqrt: Root, gcs: seq<GrantInput>): (gs: seq<GrantLr>)
    ensures |gs| == |gcs|
  {
    seq(|gcs|, i requires 0 <= i < |gcs| =>
      GrantLr(gcs[i].id, Sum(GrantTerms(sqrt, gcs[i].contributions)), GrantTerms(sqrt, gcs[i].contributions)))
  }

  /** The first loop of calculate_clr. `total_grants_lr` is summed and never
      used. */
  method GrantLrLoop(sqrt: Root, threshold: real, grantContributions: seq<GrantInput>)
    returns (r: Result<seq<GrantLr>>)
    ensures r.Error? <==> !AllRootable(grantContributions)
    ensures r.Error? ==> r.failure == ValueError
    ensures r.Ok? ==> r.value == GrantLrs(sqrt, grantContributions)
  {
    var totalGrantsLr := 0.0;
    var grants := [];
    for index := 0 to |grantContributions|
      invariant |grants| == index
      invariant forall i :: 0 <= i < index ==> GrantRootable(grantContributions[i].contributions)
      invariant forall i :: 0 <= i < index ==> grants[i] == GrantLrs(sqrt, grantContributions)[i]
    {
      var lr := CalculateGrantLr(sqrt, threshold, grantContributions[index].contributions);
      if lr.Error? {
        return Error(lr.failure);
      }
      var (grantLr, lrContributions) := lr.value;
      totalGrantsLr := totalGrantsLr + grantLr;
      grants := grants + [GrantLr(grantContributions[index].id, grantLr, lrContributions)];
    }
    r := Ok(grants);
  }

  /** Dividing by the threshold is possible for every term above it. */
  predicate Divisible(ts: seq<real>, threshold: real) {
    forall k :: 0 <= k < |ts| ==> ts[k] > threshold ==> threshold != 0.0
  }

  predicate AllDivisible(gs: seq<GrantLr>, threshold: real) {
    forall i :: 0 <= i < |gs| ==> Divisible(gs[i].lrContributions, threshold)
  }

  /** A term above the threshold is divided by it, any other is kept. */
  function Adjust(term: real, threshold: real): real
    requires term > threshold ==> threshold != 0.0
  {
    if term > threshold then term / threshold else term
  }

  /** With a threshold of at least 1 a non-negative term only shrinks, and a
      term above the threshold becomes its quotient by the threshold. */
  lemma {:induction false} AdjustBounds(term: real, threshold: real)
    requires 1.0 <= threshold && 0.0 <= term
    ensures 0.0 <= Adjust(term, threshold) <= term
    ensures term > threshold ==> Adjust(term, threshold) * threshold == term && 1.0 < Adjust(term, threshold)
  {
    if term > threshold {
      var q := term / threshold;
      assert q * threshold == term;
      assert q <= term by {
        assert q * 1.0 <= q * threshold;
      }
      assert 1.0 < q;
    }
  }

  /** The adjusted terms of a grant. */
  function Adjusted(ts: seq<real>, threshold: real): (xs: seq<real>)
    requires Divisible(ts, threshold)
    ensures |xs| == |ts|
  {
    seq(|ts|, k requires 0 <= k < |ts| && Divisible(ts, threshold) => Adjust(ts[k], threshold))
  }

  /** The intended `'clr'` of a grant: the sum of its adjusted terms. */
  function GrantClr(ts: seq<real>, threshold: real): real
    requires Divisible(ts, threshold)
  {
    Sum(Adjusted(ts, threshold))
  }

  lemma {:induction false} AdjustedPrefix(ts: seq<real>, threshold: real, n: nat)
    requires Divisible(ts, threshold) && n <= |ts|
    ensures Divisible(ts[..n], threshold) && Adjusted(ts[..n], threshold) == Adjusted(ts, threshold)[..n]
  {
  }

  /** A grant whose terms are all at most the threshold has its `grant_lr`
      as clr. */
  lemma {:induction false} GrantClrBelow(ts: seq<real>, threshold: real)
    requires forall k :: 0 <= k < |ts| ==> ts[k] <= threshold
    ensures Divisible(ts, threshold) && GrantClr(ts, threshold) == Sum(ts)
  {
    if ts != [] {
      var n := |ts| - 1;
      GrantClrBelow(ts[..n], threshold);
      AdjustedPrefix(ts, threshold, n);
    }
  }

  /** With a threshold of at least 1 and non-negative terms, the clr lies
      between 0 and `grant_lr`. */
  lemma {:induction false} GrantClrBounds(ts: seq<real>, threshold: real)
    requires 1.0 <= threshold && forall k :: 0 <= k < |ts| ==> 0.0 <= ts[k]
    ensures Divisible(ts, threshold) && 0.0 <= GrantClr(ts, threshold) <= Sum(ts)
  {
    if ts != [] {
      var n := |ts| - 1;
      GrantClrBounds(ts[..n], threshold);
      AdjustedPrefix(ts, threshold, n);
      AdjustBounds(ts[n], threshold);
    }
  }

  /** The clr values of the intended calculation. */
  function Clrs(gs: seq<GrantLr>, threshold: real): (cs: seq<real>)
    requires AllDivisible(gs, threshold)
    ensures |cs| == |gs|
  {
    seq(|gs|, i requires 0 <= i < |gs| && AllDivisible(gs, threshold) => GrantClr(gs[i].lrContributions, threshold))
  }

  /** The records with their clr values. */
  function WithClr(gs: seq<GrantLr>, cs: seq<real>): (rs: seq<GrantRecord>)
    requires |cs| == |gs|
    ensures |rs| == |gs|
  {
    seq(|gs|, i requires 0 <= i < |gs| => Record(gs[i], cs[i]))
  }

  function Record(g: GrantLr, clr: real): GrantRecord {
    GrantRecord(g.id, g.grantLr, g.lrContributions, clr)
  }

  /** The term loop with `grant_clr = 0` before it. */
  method SumAdjusted(ts: seq<real>, threshold: real) returns (r: Result<real>)
    ensures Divisible(ts, threshold) ==> r == Ok(GrantClr(ts, threshold))
    ensures !Divisible(ts, threshold) ==> r == Error(ZeroDivisionError)
  {
    var grantClr := 0.0;
    for k := 0 to |ts|
      invariant Divisible(ts[..k], threshold)
      invariant grantClr == GrantClr(ts[..k], threshold)
    {
      if ts[k] > threshold && threshold == 0.0 {
        return Error(ZeroDivisionError);
      }
      var lrContribution := Adjust(ts[k], threshold);
      assert Divisible(ts[..k + 1], threshold);
      GrantClrSnoc(ts, threshold, k);
      grantClr := grantClr + lrContribution;
    }
    assert ts[..|ts|] == ts;
    r := Ok(grantClr);
  }

  /** The clr of one more term is the clr before it plus the adjusted term. */
  lemma {:induction false} GrantClrSnoc(ts: seq<real>, threshold: real, k: nat)
    requires k < |ts| && Divisible(ts[..k + 1], threshold)
    ensures Divisible(ts[..k], threshold)
    ensures GrantClr(ts[..k + 1], threshold) == GrantClr(ts[..k], threshold) + Adjust(ts[k], threshold)
  {
    var xs := ts[..k + 1];
    AdjustedPrefix(xs, threshold, k);
    assert xs[..k] == ts[..k];
    var a := Adjusted(xs, threshold);
    assert a[k] == Adjust(ts[k], threshold);
  }

  /** calculate_clr with `grant_clr` set to 0 once per grant, so that a
      grant's clr is the sum of its adjusted terms. */
  method CalculateClr(sqrt: Root, threshold: real, grantContributions: seq<GrantInput>)
    returns (r: Result<(seq<GrantRecord>, real)>)
    ensures !AllRootable(grantContributions) ==> r == Error(ValueError)
    ensures AllRootable(grantContributions) ==> var gs := GrantLrs(sqrt, grantContributions);
      && (r.Error? <==> !AllDivisible(gs, threshold))
      && (r.Error? ==> r.failure == ZeroDivisionError)
      && (r.Ok? ==> r.value.0 == WithClr(gs, Clrs(gs, threshold)) && r.value.1 == Sum(Clrs(gs, threshold)))
  {
    var grants := GrantLrLoop(sqrt, threshold, grantContributions);
    if grants.Error? {
      return Error(grants.failure);
    }
    r := ClrLoop(grants.value, threshold);
  }

  /** The second loop of calculate_clr, over the grant records. */
  method ClrLoop(grants: seq<GrantLr>, threshold: real) returns (r: Result<(seq<GrantRecord>, real)>)
    ensures r.Error? <==> !AllDivisible(grants, threshold)
    ensures r.Error? ==> r.failure == ZeroDivisionError
    ensures r.Ok? ==> r.value.0 == WithClr(grants, Clrs(grants, threshold)) && r.value.1 == Sum(Clrs(grants, threshold))
  {
    var records := [];
    var clrs := [];
    var totalClr := 0.0;
    for index := 0 to |grants|
      invariant forall j :: 0 <= j < index ==> Divisible(grants[j].lrContributions, threshold)
      invariant |clrs| == index
      invariant forall j :: 0 <= j < index ==> clrs[j] == GrantClr(grants[j].lrContributions, threshold)
      invariant |records| == index
      invariant forall j :: 0 <= j < index ==> records[j] == Record(grants[j], clrs[j])
      invariant totalClr == Sum(clrs)
    {
      var g := grants[index];
      var grantClr := SumAdjusted(g.lrContributions, threshold);
      if grantClr.Error? {
        return Error(grantClr.failure);
      }
      records := records + [Record(g, grantClr.value)];
      assert (clrs + [grantClr.value])[..index] == clrs;
      clrs := clrs + [grantClr.value];
      totalClr := totalClr + grantClr.value;
    }
    assert clrs == Clrs(grants, threshold);
    assert records == WithClr(grants, clrs);
    r := Ok((records, totalClr));
  }


  // ---------------------------------------------------------------------
  // calculate_clr as written: `grant_clr = 0` inside the term loop

  function Prepend(xs: seq<real>, r: Result<seq<real>>): Result<seq<real>> {
    if r.Ok? then Ok(xs + r.value) else r
  }

  /** The clr values the loop leaves when `grant_clr` is reset before every
      term: each grant gets its last adjusted term, a grant without terms
      keeps the value of the grant before it, and the first such grant
      before any term fails with UnboundLocalError. */
  function LastClrs(gs: seq<GrantLr>, threshold: real, carry: Option<real>): (r: Result<seq<real>>)
    ensures r.Ok? ==> |r.value| == |gs|
    decreases |gs|
  {
    if gs == [] then Ok([])
    else
      var ts := gs[0].lrContributions;
      if !Divisible(ts, threshold) then Error(ZeroDivisionError)
      else
        var c := if ts == [] then carry else Some(Adjust(ts[|ts| - 1], threshold));
        if c.None? then Error(UnboundLocalError)
        else Prepend([c.value], LastClrs(gs[1..], threshold, c))
  }

  /** The term loop as written: every term first resets `grant_clr` to 0. */
  method LastAdjusted(ts: seq<real>, threshold: real, grantClr: Option<real>) returns (r: Result<Option<real>>)
    ensures Divisible(ts, threshold) ==> r == Ok(if ts == [] then grantClr else Some(Adjust(ts[|ts| - 1], threshold)))
    ensures !Divisible(ts, threshold) ==> r == Error(ZeroDivisionError)
  {
    var clr := grantClr;
    for k := 0 to |ts|
      invariant forall m :: 0 <= m < k ==> ts[m] > threshold ==> threshold != 0.0
      invariant k == 0 ==> clr == grantClr
      invariant 0 < k ==> clr == Some(Adjust(ts[k - 1], threshold))
    {
      clr := Some(0.0);
      if ts[k] > threshold && threshold == 0.0 {
        return Error(ZeroDivisionError);
      }
      var lrContribution := Adjust(ts[k], threshold);
      clr := Some(clr.value + lrContribution);
    }
    r := Ok(clr);
  }

  /** calculate_clr as written. */
  method CalculateClrAsWritten(sqrt: Root, threshold: real, grantContributions: seq<GrantInput>)
    returns (r: Result<(seq<GrantRecord>, real)>)
    ensures !AllRootable(grantContributions) ==> r == Error(ValueError)
    ensures AllRootable(grantContributions) ==> var out := LastClrs(GrantLrs(sqrt, grantContributions), threshold, None);
      && (r.Error? <==> out.Error?)
      && (r.Error? ==> r.failure == out.failure)
      && (r.Ok? ==> r.value.0 == WithClr(GrantLrs(sqrt, grantContributions), out.value) && r.value.1 == Sum(out.value))
  {
    var grants := GrantLrLoop(sqrt, threshold, grantContributions);
    if grants.Error? {
      return Error(grants.failure);
    }
    r := ClrLoopAsWritten(grants.value, threshold);
  }

  /** The second loop of calculate_clr as written. */
  method ClrLoopAsWritten(grants: seq<GrantLr>, threshold: real) returns (r: Result<(seq<GrantRecord>, real)>)
    ensures var out := LastClrs(grants, threshold, None);
      && (r.Error? <==> out.Error?)
      && (r.Error? ==> r.failure == out.failure)
      && (r.Ok? ==> r.value.0 == WithClr(grants, out.value) && r.value.1 == Sum(out.value))
  {
    var records := [];
    var clrs := [];
    var totalClr := 0.0;
    var grantClr: Option<real> := None;
    assert grants[0..] == grants;
    PrependNothing(LastClrs(grants, threshold, None));
    for index := 0 to |grants|
      invariant LastClrs(grants, threshold, None) == Prepend(clrs, LastClrs(grants[index..], threshold, grantClr))
      invariant |clrs| == index && |records| == index
      invariant forall j :: 0 <= j < index ==> records[j] == Record(grants[j], clrs[j])
      invariant totalClr == Sum(clrs)
    {
      var g := grants[index];
      var next := LastAdjusted(g.lrContributions, threshold, grantClr);
      AsWrittenAdvance(grants, threshold, grantClr, index, clrs);
      if next.Error? {
        return Error(next.failure);
      }
      if next.value.None? {
        return Error(UnboundLocalError);
      }
      grantClr := next.value;
      var clr := grantClr.value;
      records := records + [Record(g, clr)];
      assert (clrs + [clr])[..index] == clrs;
      clrs := clrs + [clr];
      totalClr := totalClr + clr;
    }
    assert clrs + [] == clrs;
    assert records == WithClr(grants, clrs);
    r := Ok((records, totalClr));
  }

  /** The loop as written after the records before index: the grant at
      index fails, or its value joins the finished ones. */
  lemma {:induction false} AsWrittenAdvance(gs: seq<GrantLr>, threshold: real, carry: Option<real>, index: nat, clrs: seq<real>)
    requires index < |gs|
    ensures var ts := gs[index].lrContributions;
      && (!Divisible(ts, threshold) ==> Prepend(clrs, LastClrs(gs[index..], threshold, carry)) == Error(ZeroDivisionError))
      && (Divisible(ts, threshold) ==>
            var c := if ts == [] then carry else Some(Adjust(ts[|ts| - 1], threshold));
            && (c.None? ==> Prepend(clrs, LastClrs(gs[index..], threshold, carry)) == Error(UnboundLocalError))
            && (c.Some? ==> Prepend(clrs, LastClrs(gs[index..], threshold, carry))
                            == Prepend(clrs + [c.value], LastClrs(gs[index + 1..], threshold, c))))
  {
    LastClrsAt(gs, threshold, carry, index);
    var ts := gs[index].lrContributions;
    if Divisible(ts, threshold) {
      var c := if ts == [] then carry else Some(Adjust(ts[|ts| - 1], threshold));
      if c.Some? {
        PrependTwice(clrs, [c.value], LastClrs(gs[index + 1..], threshold, c));
      }
    }
  }

  /** One grant of the loop as written, at position index. */
  lemma {:induction false} LastClrsAt(gs: seq<GrantLr>, threshold: real, carry: Option<real>, index: nat)
    requires index < |gs|
    ensures var ts := gs[index].lrContributions;
      && (!Divisible(ts, threshold) ==> LastClrs(gs[index..], threshold, carry) == Error(ZeroDivisionError))
      && (Divisible(ts, threshold) && ts == [] && carry.None? ==>
            LastClrs(gs[index..], threshold, carry) == Error(UnboundLocalError))
      && (Divisible(ts, threshold) && ts == [] && carry.Some? ==>
            LastClrs(gs[index..], threshold, carry) == Prepend([carry.value], LastClrs(gs[index + 1..], threshold, carry)))
      && (Divisible(ts, threshold) && ts != [] ==>
            var c := Adjust(ts[|ts| - 1], threshold);
            LastClrs(gs[index..], threshold, carry) == Prepend([c], LastClrs(gs[index + 1..], threshold, Some(c))))
  {
    assert gs[index..][0] == gs[index] && gs[index..][1..] == gs[index + 1..];
  }

  lemma {:induction false} PrependNothing(r: Result<seq<real>>)
    ensures Prepend([], r) == r
  {
    if r.Ok? {
      assert [] + r.value == r.value;
    }
  }

  lemma {:induction false} PrependTwice(xs: seq<real>, ys: seq<real>, r: Result<seq<real>>)
    ensures Prepend(xs, Prepend(ys, r)) == Prepend(xs + ys, r)
  {
    if r.Ok? {
      assert xs + (ys + r.value) == (xs + ys) + r.value;
    }
  }

  /** What the loop as written leaves: a grant with terms gets its last
      adjusted term, a later grant without terms repeats the value before
      it, and a first grant without terms fails. */
  lemma {:induction false} LastClrsRule(gs: seq<GrantLr>, threshold: real, carry: Option<real>, i: nat)
    requires LastClrs(gs, threshold, carry).Ok? && i < |gs|
    ensures var cs, ts := LastClrs(gs, threshold, carry).value, gs[i].lrContributions;
      && Divisible(ts, threshold)
      && (ts != [] ==> cs[i] == Adjust(ts[|ts| - 1], threshold))
      && (ts == [] && 0 < i ==> cs[i] == cs[i - 1])
      && (ts == [] && i == 0 ==> carry.Some? && cs[0] == carry.value)
  {
    var ts0 := gs[0].lrContributions;
    var c := if ts0 == [] then carry else Some(Adjust(ts0[|ts0| - 1], threshold));
    var rest := LastClrs(gs[1..], threshold, c);
    assert LastClrs(gs, threshold, carry).value == [c.value] + rest.value;
    if 0 < i {
      LastClrsRule(gs[1..], threshold, c, i - 1);
      if i == 1 {
        assert gs[1..][0] == gs[1];
      }
    }
  }

  /** A first grant without terms fails before any record gets its clr. */
  lemma {:induction false} FirstPairlessFails(gs: seq<GrantLr>, threshold: real)
    requires gs != [] && gs[0].lrContributions == []
    ensures LastClrs(gs, threshold, None) == Error(UnboundLocalError)
  {
  }

  /** Where every grant has exactly one term, the loop as written and the
      intended sum agree. */
  lemma {:induction false} SingleTermsAgree(gs: seq<GrantLr>, threshold: real, carry: Option<real>)
    requires AllDivisible(gs, threshold)
    requires forall i :: 0 <= i < |gs| ==> |gs[i].lrContributions| == 1
    ensures LastClrs(gs, threshold, carry) == Ok(Clrs(gs, threshold))
    decreases |gs|
  {
    if gs != [] {
      var ts := gs[0].lrContributions;
      var c := Some(Adjust(ts[0], threshold));
      SingleTermsAgree(gs[1..], threshold, c);
      assert Adjusted(ts, threshold) == [Adjust(ts[0], threshold)];
      assert Sum([Adjust(ts[0], threshold)]) == Adjust(ts[0], threshold) by {
        assert [Adjust(ts[0], threshold)][..0] == [];
      }
      assert Clrs(gs, threshold) == [c.value] + Clrs(gs[1..], threshold);
    }
  }

  /** Two terms below the threshold, 1 and 2: the loop as written reports 2
      where the grant's terms add up to 3. */
  lemma {:induction false} LastTermOnly()
    ensures LastClrs([GrantLr(1, 3.0, [1.0, 2.0])], 15.0, None) == Ok([2.0])
    ensures Clrs([GrantLr(1, 3.0, [1.0, 2.0])], 15.0) == [3.0]
  {
    var g := GrantLr(1, 3.0, [1.0, 2.0]);
    assert [g][1..] == [];
    assert Divisible([1.0, 2.0], 15.0);
    assert Adjust(2.0, 15.0) == 2.0;
    assert LastClrs([], 15.0, Some(2.0)) == Ok([]);
    assert LastClrs([g], 15.0, None) == Prepend([2.0], Ok([]));
    assert [2.0] + [] == [2.0];
    GrantClrBelow([1.0, 2.0], 15.0);
    assert Sum([1.0, 2.0]) == 3.0 by {
      assert [1.0, 2.0][..1] == [1.0];
      assert [1.0][..0] == [];
    }
    assert Clrs([g], 15.0)[0] == GrantClr([1.0, 2.0], 15.0);
  }

  /** With a non-zero threshold no term fails to divide, so the loop as
      written can only fail with UnboundLocalError. */
  lemma {:induction false} LastClrsUnbound(gs: seq<GrantLr>, threshold: real, carry: Option<real>)
    requires threshold != 0.0
    ensures LastClrs(gs, threshold, carry).Error? ==> LastClrs(gs, threshold, carry).failure == UnboundLocalError
    decreases |gs|
  {
    if gs != [] {
      var ts := gs[0].lrContributions;
      var c := if ts == [] then carry else Some(Adjust(ts[|ts| - 1], threshold));
      if c.Some? {
        LastClrsUnbound(gs[1..], threshold, c);
      }
    }
  }

  // ---------------------------------------------------------------------
  // grants_clr_calculate

  /** grants_clr_calculate: calculate_clr as written at threshold 15; the pot
      is not used. Only a negative product or a first grant without terms
      makes it fail. */
  method GrantsClrCalculate(sqrt: Root, totalPot: real, grantContributions: seq<GrantInput>)
    returns (r: Result<(seq<GrantRecord>, real)>)
    ensures !AllRootable(grantContributions) ==> r == Error(ValueError)
    ensures AllRootable(grantContributions) ==> var out := LastClrs(GrantLrs(sqrt, grantContributions), 15.0, None);
      && (r.Error? <==> out.Error?)
      && (r.Error? ==> r.failure == UnboundLocalError)
      && (r.Ok? ==> r.value.0 == WithClr(GrantLrs(sqrt, grantContributions), out.value) && r.value.1 == Sum(out.value))
  {
    var threshold := 15.0;
    r := CalculateClrAsWritten(sqrt, threshold, grantContributions);
    LastClrsUnbound(GrantLrs(sqrt, grantContributions), threshold, None);
  }

  /** grants_clr_calculate with the corrected calculate_clr: at threshold 15
      it fails only on a negative product. */
  method GrantsClrCalculateSummed(sqrt: Root, totalPot: real, grantContributions: seq<GrantInput>)
    returns (r: Result<(seq<GrantRecord>, real)>)
    ensures !AllRootable(grantContributions) ==> r == Error(ValueError)
    ensures AllRootable(grantContributions) ==> var gs := GrantLrs(sqrt, grantContributions);
      r == Ok((WithClr(gs, Clrs(gs, 15.0)), Sum(Clrs(gs, 15.0))))
  {
    var threshold := 15.0;
    r := CalculateClr(sqrt, threshold, grantContributions);
  }

  // ---------------------------------------------------------------------
  // The fixture

  /** The contributions of grant '2', whose profile 1 gives twice. */
  lemma {:induction false} SecondGrantFold()
    ensures Fold(Flatten([[(1, 2.0)], [(4, 2.0)], [(5, 5.0)], [(1, 15.0)], [(3, 20.0)]]))
         == [(1, 17.0), (4, 2.0), (5, 5.0), (3, 20.0)]
  {
    var es: seq<Entry> := [[(1, 2.0)], [(4, 2.0)], [(5, 5.0)], [(1, 15.0)], [(3, 20.0)]];
    var items := [(1, 2.0), (4, 2.0), (5, 5.0), (1, 15.0), (3, 20.0)];
    FlattenOfSingletons(es, items);
    var s3 := [(1, 2.0), (4, 2.0), (5, 5.0)];
    var s4 := s3 + [(1, 15.0)];
    assert s4 + [(3, 20.0)] == items;
    FirstThreeFold();
    FoldSnoc(s3, (1, 15.0));
    FoldSnoc(s4, (3, 20.0));
    assert Fold(s4) == [(1, 17.0), (4, 2.0), (5, 5.0)];
    assert Fold(items) == [(1, 17.0)] + Credit([(4, 2.0), (5, 5.0)], 3, 20.0);
    assert Credit([(4, 2.0), (5, 5.0)], 3, 20.0) == [(4, 2.0)] + Credit([(5, 5.0)], 3, 20.0);
    assert Credit([(5, 5.0)], 3, 20.0) == [(5, 5.0)] + Credit([], 3, 20.0);
  }

  /** The first three contributions of grant '2' come from three profiles. */
  lemma {:induction false} FirstThreeFold()
    ensures Fold([(1, 2.0), (4, 2.0), (5, 5.0)]) == [(1, 2.0), (4, 2.0), (5, 5.0)]
  {
    var s1 := [(1, 2.0)];
    var s2 := s1 + [(4, 2.0)];
    var s3 := s2 + [(5, 5.0)];
    FoldSnoc([], (1, 2.0));
    assert [] + s1 == s1;
    FoldSnoc(s1, (4, 2.0));
    FoldSnoc(s2, (5, 5.0));
    assert Fold(s1) == [(1, 2.0)];
    assert Fold(s2) == [(1, 2.0)] + Credit([], 4, 2.0) == [(1, 2.0), (4, 2.0)];
    assert Fold(s3) == [(1, 2.0)] + Credit([(4, 2.0)], 5, 5.0);
    assert Credit([(4, 2.0)], 5, 5.0) == [(4, 2.0)] + Credit([], 5, 5.0);
  }

  lemma {:induction false} FlattenOfSingletons(es: seq<Entry>, items: seq<(Id, real)>)
    requires |es| == |items| && forall k :: 0 <= k < |es| ==> es[k] == [items[k]]
    ensures Flatten(es) == items
  {
    if es != [] {
      var n := |es| - 1;
      FlattenOfSingletons(es[..n], items[..n]);
      assert items == items[..n] + [items[n]];
    }
  }
}
