/** contrib_calculator_r7.py: records carry an SMS-verification flag, and a
    pair of contributors is scored with `v_threshold` when both are verified
    and with `uv_threshold` otherwise; the totals are not normalised. */
module RoundSeven {
  import opened Basics
  import opened Aggregation
  import opened PairOverlap
  import opened MatchEngine
  import opened Monotonicity

  /** `[grant_id, user_id, sms_verification, contribution_amount]` */
  datatype VRecord = VRecord(grant: Id, user: Id, verified: bool, amount: real)

  /** One entry of a Django grant's `contributions`: the profile `id` (absent
      as None), `is_verified` and `sum_of_each_profiles_contributions`. */
  datatype ProfileEntry = ProfileEntry(id: Option<Id>, isVerified: bool, sum: real)

  /** `{'id': ..., 'contributions': [...]}` */
  datatype DjangoGrant = DjangoGrant(id: Id, contributions: seq<ProfileEntry>)

  // ---------------------------------------------------------------------
  // get_data_django

  /** `if profile_id:` with integer ids: present and not 0. */
  predicate Truthy(e: ProfileEntry) {
    e.id.Some? && e.id.value != 0
  }

  /** The row emitted for a kept entry of grant gid. */
  function Row(gid: Id, e: ProfileEntry): VRecord
    requires e.id.Some?
  {
    VRecord(gid, e.id.value, e.isVerified, e.sum)
  }

  /** The rows of one grant: its kept entries, in order. */
  function GrantRows(gid: Id, es: seq<ProfileEntry>): seq<VRecord> {
    if es == [] then []
    else
      var n := |es| - 1;
      GrantRows(gid, es[..n]) + (if Truthy(es[n]) then [Row(gid, es[n])] else [])
  }

  /** What the two nested loops of get_data_django append. */
  function DjangoRows(gs: seq<DjangoGrant>): seq<VRecord> {
    if gs == [] then []
    else
      var n := |gs| - 1;
      DjangoRows(gs[..n]) + GrantRows(gs[n].id, gs[n].contributions)
  }

  method GetDataDjango(grantsData: seq<DjangoGrant>) returns (grantsList: seq<VRecord>)
    ensures grantsList == DjangoRows(grantsData)
  {
    grantsList := [];
    for i := 0 to |grantsData|
      invariant grantsList == DjangoRows(grantsData[..i])
    {
      var g := grantsData[i];
      var cs := g.contributions;
      assert grantsData[..i + 1][..i] == grantsData[..i];
      for j := 0 to |cs|
        invariant grantsList == DjangoRows(grantsData[..i]) + GrantRows(g.id, cs[..j])
      {
        var c := cs[j];
        assert cs[..j + 1][..j] == cs[..j];
        if Truthy(c) {
          grantsList := grantsList + [VRecord(g.id, c.id.value, c.isVerified, c.sum)];
        }
      }
      assert cs[..|cs|] == cs;
    }
    assert grantsData[..|grantsData|] == grantsData;
  }

  /** Every row of a grant comes from one of its entries with a truthy id. */
  lemma {:induction false} GrantRowsSound(gid: Id, es: seq<ProfileEntry>, k: nat)
    requires k < |GrantRows(gid, es)|
    ensures exists j :: 0 <= j < |es| && Truthy(es[j]) && GrantRows(gid, es)[k] == Row(gid, es[j])
  {
    var n := |es| - 1;
    if k < |GrantRows(gid, es[..n])| {
      GrantRowsSound(gid, es[..n], k);
      var j :| 0 <= j < n && Truthy(es[..n][j]) && GrantRows(gid, es[..n])[k] == Row(gid, es[..n][j]);
      assert es[..n][j] == es[j];
    } else {
      assert Truthy(es[n]) && GrantRows(gid, es)[k] == Row(gid, es[n]);
    }
  }

  /** Every entry of a grant with a truthy id gives a row. */
  lemma {:induction false} GrantRowsComplete(gid: Id, es: seq<ProfileEntry>, j: nat)
    requires j < |es| && Truthy(es[j])
    ensures Row(gid, es[j]) in GrantRows(gid, es)
  {
    var n := |es| - 1;
    if j < n {
      assert es[..n][j] == es[j];
      GrantRowsComplete(gid, es[..n], j);
    }
  }

  /** Every row comes from a grant's entry with a truthy id. */
  lemma {:induction false} DjangoRowsSound(gs: seq<DjangoGrant>, r: VRecord) returns (i: nat, j: nat)
    requires r in DjangoRows(gs)
    ensures i < |gs| && j < |gs[i].contributions| && Truthy(gs[i].contributions[j])
    ensures r == Row(gs[i].id, gs[i].contributions[j])
  {
    var n := |gs| - 1;
    var g := gs[n];
    if r in DjangoRows(gs[..n]) {
      i, j := DjangoRowsSound(gs[..n], r);
      assert gs[..n][i] == gs[i];
    } else {
      assert r in GrantRows(g.id, g.contributions);
      var k :| 0 <= k < |GrantRows(g.id, g.contributions)| && GrantRows(g.id, g.contributions)[k] == r;
      GrantRowsSound(g.id, g.contributions, k);
      i := n;
      j :| 0 <= j < |g.contributions| && Truthy(g.contributions[j]) && r == Row(g.id, g.contributions[j]);
    }
  }

  /** Every entry with a truthy id gives a row. */
  lemma {:induction false} DjangoRowsComplete(gs: seq<DjangoGrant>, i: nat, j: nat)
    requires i < |gs| && j < |gs[i].contributions| && Truthy(gs[i].contributions[j])
    ensures Row(gs[i].id, gs[i].contributions[j]) in DjangoRows(gs)
  {
    var n := |gs| - 1;
    if i < n {
      assert gs[..n][i] == gs[i];
      DjangoRowsComplete(gs[..n], i, j);
    } else {
      GrantRowsComplete(gs[n].id, gs[n].contributions, j);
    }
  }

  /** A row is emitted exactly for each contribution entry whose id is
      truthy, carrying its grant's id, the entry's id, flag and sum. */
  lemma {:induction false} DjangoRowsExact(gs: seq<DjangoGrant>, r: VRecord)
    ensures r in DjangoRows(gs) <==>
      exists i, j :: 0 <= i < |gs| && 0 <= j < |gs[i].contributions|
        && Truthy(gs[i].contributions[j]) && r == Row(gs[i].id, gs[i].contributions[j])
  {
    if r in DjangoRows(gs) {
      var i, j := DjangoRowsSound(gs, r);
    }
    if exists i, j ::
         0 <= i < |gs| && 0 <= j < |gs[i].contributions|
         && Truthy(gs[i].contributions[j]) && r == Row(gs[i].id, gs[i].contributions[j])
    {
      var i, j :| 0 <= i < |gs| && 0 <= j < |gs[i].contributions|
        && Truthy(gs[i].contributions[j]) && r == Row(gs[i].id, gs[i].contributions[j]);
      DjangoRowsComplete(gs, i, j);
    }
  }

  // ---------------------------------------------------------------------
  // get_verified_list

  /** The users of the flagged records, in record order, with repetitions. */
  function FlaggedUsers(recs: seq<VRecord>): seq<Id> {
    if recs == [] then []
    else
      var n := |recs| - 1;
      FlaggedUsers(recs[..n]) + (if recs[n].verified then [recs[n].user] else [])
  }

  method GetVerifiedList(grantContributions: seq<VRecord>) returns (verifiedList: seq<Id>)
    ensures verifiedList == Dedup(FlaggedUsers(grantContributions))
  {
    verifiedList := [];
    for i := 0 to |grantContributions|
      invariant verifiedList == Dedup(FlaggedUsers(grantContributions[..i]))
    {
      var r := grantContributions[i];
      var pre := grantContributions[..i + 1];
      assert pre[..i] == grantContributions[..i] && pre[i] == r;
      if r.verified {
        assert FlaggedUsers(pre) == FlaggedUsers(grantContributions[..i]) + [r.user];
        DedupSnoc(FlaggedUsers(grantContributions[..i]), r.user);
        if r.user !in verifiedList {
          verifiedList := verifiedList + [r.user];
        }
      } else {
        assert FlaggedUsers(pre) == FlaggedUsers(grantContributions[..i]);
      }
    }
    assert grantContributions[..|grantContributions|] == grantContributions;
  }

  /** Every flagged user has a flagged record. */
  lemma {:induction false} FlaggedUsersSound(recs: seq<VRecord>, u: Id) returns (i: nat)
    requires u in FlaggedUsers(recs)
    ensures i < |recs| && recs[i].verified && recs[i].user == u
  {
    var n := |recs| - 1;
    if u in FlaggedUsers(recs[..n]) {
      i := FlaggedUsersSound(recs[..n], u);
      assert recs[..n][i] == recs[i];
    } else {
      i := n;
    }
  }

  /** The user of every flagged record is a flagged user. */
  lemma {:induction false} FlaggedUsersComplete(recs: seq<VRecord>, i: nat)
    requires i < |recs| && recs[i].verified
    ensures recs[i].user in FlaggedUsers(recs)
  {
    var n := |recs| - 1;
    if i < n {
      assert recs[..n][i] == recs[i];
      FlaggedUsersComplete(recs[..n], i);
    }
  }

  /** A user is among the flagged users exactly when some record of theirs
      is flagged. */
  lemma {:induction false} FlaggedUsersExact(recs: seq<VRecord>, u: Id)
    ensures u in FlaggedUsers(recs) <==> exists i :: 0 <= i < |recs| && recs[i].verified && recs[i].user == u
  {
    if u in FlaggedUsers(recs) {
      var i := FlaggedUsersSound(recs, u);
    }
    if exists i :: 0 <= i < |recs| && recs[i].verified && recs[i].user == u {
      var i :| 0 <= i < |recs| && recs[i].verified && recs[i].user == u;
      FlaggedUsersComplete(recs, i);
    }
  }

  /** The verified list holds each user with a flagged record once, and no
      other user. */
  lemma {:induction false} VerifiedListExact(recs: seq<VRecord>, u: Id)
    ensures Distinct(Dedup(FlaggedUsers(recs)))
    ensures u in Dedup(FlaggedUsers(recs)) <==> exists i :: 0 <= i < |recs| && recs[i].verified && recs[i].user == u
  {
    FlaggedUsersExact(recs, u);
  }

  // ---------------------------------------------------------------------
  // aggregate_contributions

  /** The records without their verification flag. */
  function Strip(recs: seq<VRecord>): (r: seq<Contribution>)
    ensures |r| == |recs|
    ensures forall i :: 0 <= i < |recs| ==>
      r[i].grant == recs[i].grant && r[i].user == recs[i].user && r[i].amount == recs[i].amount
  {
    seq(|recs|, i requires 0 <= i < |recs| => Contribution(recs[i].grant, recs[i].user, recs[i].amount))
  }

  /** One more record folds its grant, user and amount into the aggregate. */
  lemma {:induction false} StripStep(recs: seq<VRecord>, i: nat)
    requires i < |recs|
    ensures AggregateSpec(Strip(recs[..i + 1]))
         == Post(AggregateSpec(Strip(recs[..i])), Contribution(recs[i].grant, recs[i].user, recs[i].amount))
  {
    var front, last := Strip(recs[..i + 1]), Contribution(recs[i].grant, recs[i].user, recs[i].amount);
    assert front[..i] == Strip(recs[..i]);
    assert front[i] == last;
  }

  /** The accumulation loop over the flagged records: the aggregate of the
      records with the flag ignored, so a contributor's amount for a grant is
      the total of their records for it. */
  method AggregateContributions(grantContributions: seq<VRecord>) returns (contribDict: Ledger)
    ensures contribDict == AggregateSpec(Strip(grantContributions))
    ensures forall g, u :: AmountOf(DonorsOf(contribDict, g), u) == SumFor(Strip(grantContributions), g, u)
  {
    contribDict := [];
    for i := 0 to |grantContributions|
      invariant contribDict == AggregateSpec(Strip(grantContributions[..i]))
    {
      var r := grantContributions[i];
      StripStep(grantContributions, i);
      if r.grant !in Keys(contribDict) {
        contribDict := contribDict + [(r.grant, [])];
      }
      contribDict := SetDonors(contribDict, r.grant, Credit(DonorsOf(contribDict, r.grant), r.user, r.amount));
    }
    assert grantContributions[..|grantContributions|] == grantContributions;
    forall g, u ensures AmountOf(DonorsOf(contribDict, g), u) == SumFor(Strip(grantContributions), g, u) {
      AggregateAmounts(Strip(grantContributions), g, u);
    }
  }

  // ---------------------------------------------------------------------
  // calculate_clr

  /** calculate_clr as written: every ordered pair of a grant's contributors
      is scored, with `v_threshold` when k2 > k1 and both are verified and
      with `uv_threshold` otherwise; `total_pot` is not used. */
  method CalculateClr(sqrt: Root, aggregatedContributions: Ledger, pairTotals: Overlap, verifiedList: seq<Id>,
                      vThreshold: real, uvThreshold: real, totalPot: real)
    returns (totals: seq<Award>)
    requires LedgerReady(Verified(verifiedList, vThreshold, uvThreshold), pairTotals, aggregatedContributions)
    ensures totals == RawSpec(sqrt, Verified(verifiedList, vThreshold, uvThreshold), pairTotals, aggregatedContributions)
    ensures Ids(totals) == Keys(aggregatedContributions)
  {
    var bigtot;
    totals, bigtot := RawTotals(sqrt, Verified(verifiedList, vThreshold, uvThreshold), pairTotals, aggregatedContributions);
    RawShape(sqrt, Verified(verifiedList, vThreshold, uvThreshold), pairTotals, aggregatedContributions);
  }

  /** calculate_clr with the else branch restricted to the pairs with
      k2 > k1, as in every other calculator. */
  method CalculateClrPairs(sqrt: Root, aggregatedContributions: Ledger, pairTotals: Overlap, verifiedList: seq<Id>,
                           vThreshold: real, uvThreshold: real)
    returns (totals: seq<Award>)
    requires LedgerReady(VerifiedPairs(verifiedList, vThreshold, uvThreshold), pairTotals, aggregatedContributions)
    ensures totals == RawSpec(sqrt, VerifiedPairs(verifiedList, vThreshold, uvThreshold), pairTotals, aggregatedContributions)
    ensures Ids(totals) == Keys(aggregatedContributions)
  {
    var bigtot;
    totals, bigtot := RawTotals(sqrt, VerifiedPairs(verifiedList, vThreshold, uvThreshold), pairTotals, aggregatedContributions);
    RawShape(sqrt, VerifiedPairs(verifiedList, vThreshold, uvThreshold), pairTotals, aggregatedContributions);
  }

  /** The pair totals of a sign-consistent ledger can be scored under both
      verified rules whenever both thresholds are positive. */
  lemma {:induction false} VerifiedReady(sqrt: Root, c: Ledger, vs: seq<Id>, vt: real, ut: real)
    requires IsSqrt(sqrt) && DistinctDonors(c) && SignConsistent(c) && 0.0 < vt && 0.0 < ut
    ensures LedgerReady(Verified(vs, vt, ut), OverlapSpec(sqrt, c), c)
    ensures LedgerReady(VerifiedPairs(vs, vt, ut), OverlapSpec(sqrt, c), c)
  {
    var ov := OverlapSpec(sqrt, c);
    forall i, j1, j2 | 0 <= i < |c| && 0 <= j1 < |c[i].1| && 0 <= j2 < |c[i].1|
      ensures PairReady(Verified(vs, vt, ut), ov, c[i].1[j1].0, c[i].1[j2].0)
      ensures PairReady(VerifiedPairs(vs, vt, ut), ov, c[i].1[j1].0, c[i].1[j2].0)
    {
      EntryFromLedger(sqrt, c, i, j1, j2);
      var p := Get2(ov, c[i].1[j1].0, c[i].1[j2].0);
      QuotientAntitone(p, vt, vt);
      QuotientAntitone(p, ut, ut);
    }
  }

  // ---------------------------------------------------------------------
  // The verified rule against the division rule

  /** Two rules that agree on every pair of a row give the row the same sum. */
  lemma {:induction false} RowAgree(sqrt: Root, r1: Rule, r2: Rule, ov: Overlap, k1: Id, v1: real, ds: Donors)
    requires RowReady(r1, ov, k1, ds) && RowReady(r2, ov, k1, ds)
    requires forall j :: 0 <= j < |ds| ==> Term(sqrt, r1, ov, k1, v1, ds[j].0, ds[j].1) == Term(sqrt, r2, ov, k1, v1, ds[j].0, ds[j].1)
    ensures RowSpec(sqrt, r1, ov, k1, v1, ds) == RowSpec(sqrt, r2, ov, k1, v1, ds)
  {
    RowAgreeUpTo(sqrt, r1, r2, ov, k1, v1, ds, |ds|);
    assert ds[..|ds|] == ds;
  }

  /** The same, for the first m contributors. */
  lemma {:induction false} RowAgreeUpTo(sqrt: Root, r1: Rule, r2: Rule, ov: Overlap, k1: Id, v1: real, ds: Donors, m: nat)
    requires RowReady(r1, ov, k1, ds) && RowReady(r2, ov, k1, ds) && m <= |ds|
    requires forall j :: 0 <= j < |ds| ==> Term(sqrt, r1, ov, k1, v1, ds[j].0, ds[j].1) == Term(sqrt, r2, ov, k1, v1, ds[j].0, ds[j].1)
    ensures RowReady(r1, ov, k1, ds[..m]) && RowReady(r2, ov, k1, ds[..m])
    ensures RowSpec(sqrt, r1, ov, k1, v1, ds[..m]) == RowSpec(sqrt, r2, ov, k1, v1, ds[..m])
  {
    RowReadyPrefix(r1, ov, k1, ds, m);
    RowReadyPrefix(r2, ov, k1, ds, m);
    if m > 0 {
      RowAgreeUpTo(sqrt, r1, r2, ov, k1, v1, ds, m - 1);
      RowSpecSnoc(sqrt, r1, ov, k1, v1, ds, m);
      RowSpecSnoc(sqrt, r2, ov, k1, v1, ds, m);
    }
  }

  /** Two rules that agree on every pair of a grant give it the same score. */
  lemma {:induction false} RowsAgree(sqrt: Root, r1: Rule, r2: Rule, ov: Overlap, pre: Donors, all: Donors)
    requires RowsReady(r1, ov, pre, all) && RowsReady(r2, ov, pre, all)
    requires forall j1, j2 :: 0 <= j1 < |pre| && 0 <= j2 < |all| ==>
      Term(sqrt, r1, ov, pre[j1].0, pre[j1].1, all[j2].0, all[j2].1) == Term(sqrt, r2, ov, pre[j1].0, pre[j1].1, all[j2].0, all[j2].1)
    ensures RowsSpec(sqrt, r1, ov, pre, all) == RowsSpec(sqrt, r2, ov, pre, all)
  {
    RowsAgreeUpTo(sqrt, r1, r2, ov, pre, all, |pre|);
    assert pre[..|pre|] == pre;
  }

  /** The same, for the first m rows. */
  lemma {:induction false} RowsAgreeUpTo(sqrt: Root, r1: Rule, r2: Rule, ov: Overlap, pre: Donors, all: Donors, m: nat)
    requires RowsReady(r1, ov, pre, all) && RowsReady(r2, ov, pre, all) && m <= |pre|
    requires forall j1, j2 {:trigger Term(sqrt, r1, ov, pre[j1].0, pre[j1].1, all[j2].0, all[j2].1)} :: 0 <= j1 < |pre| && 0 <= j2 < |all| ==>
      Term(sqrt, r1, ov, pre[j1].0, pre[j1].1, all[j2].0, all[j2].1) == Term(sqrt, r2, ov, pre[j1].0, pre[j1].1, all[j2].0, all[j2].1)
    ensures RowsReady(r1, ov, pre[..m], all) && RowsReady(r2, ov, pre[..m], all)
    ensures RowsSpec(sqrt, r1, ov, pre[..m], all) == RowsSpec(sqrt, r2, ov, pre[..m], all)
  {
    RowsReadyPrefix(r1, ov, pre, all, m);
    RowsReadyPrefix(r2, ov, pre, all, m);
    if m > 0 {
      var n := m - 1;
      RowsAgreeUpTo(sqrt, r1, r2, ov, pre, all, n);
      RowAgreeAt(sqrt, r1, r2, ov, pre, all, n);
      RowsSpecSnoc(sqrt, r1, ov, pre, all, m);
      RowsSpecSnoc(sqrt, r2, ov, pre, all, m);
    }
  }

  lemma {:induction false} RowAgreeAt(sqrt: Root, r1: Rule, r2: Rule, ov: Overlap, pre: Donors, all: Donors, n: nat)
    requires RowsReady(r1, ov, pre, all) && RowsReady(r2, ov, pre, all) && n < |pre|
    requires forall j1, j2 {:trigger Term(sqrt, r1, ov, pre[j1].0, pre[j1].1, all[j2].0, all[j2].1)} :: 0 <= j1 < |pre| && 0 <= j2 < |all| ==>
      Term(sqrt, r1, ov, pre[j1].0, pre[j1].1, all[j2].0, all[j2].1) == Term(sqrt, r2, ov, pre[j1].0, pre[j1].1, all[j2].0, all[j2].1)
    ensures RowReady(r1, ov, pre[n].0, all) && RowReady(r2, ov, pre[n].0, all)
    ensures RowSpec(sqrt, r1, ov, pre[n].0, pre[n].1, all) == RowSpec(sqrt, r2, ov, pre[n].0, pre[n].1, all)
  {
    var k1, v1 := pre[n].0, pre[n].1;
    assert RowReady(r1, ov, k1, all) && RowReady(r2, ov, k1, all);
    forall j | 0 <= j < |all|
      ensures Term(sqrt, r1, ov, k1, v1, all[j].0, all[j].1) == Term(sqrt, r2, ov, k1, v1, all[j].0, all[j].1)
    {
      assert PairReady(r1, ov, pre[n].0, all[j].0);
      assert Term(sqrt, r1, ov, pre[n].0, pre[n].1, all[j].0, all[j].1) == Term(sqrt, r2, ov, pre[n].0, pre[n].1, all[j].0, all[j].1);
    }
    RowAgree(sqrt, r1, r2, ov, k1, v1, all);
  }

  /** A grant whose contributors are all verified is scored as by the
      division rule at `v_threshold`; one with no verified contributor as at
      `uv_threshold`. */
  lemma {:induction false} VerifiedPairsReduces(sqrt: Root, vs: seq<Id>, vt: real, ut: real, ov: Overlap, ds: Donors, allVerified: bool)
    requires RowsReady(VerifiedPairs(vs, vt, ut), ov, ds, ds)
    requires forall j :: 0 <= j < |ds| ==> (ds[j].0 in vs <==> allVerified)
    ensures var t := if allVerified then vt else ut;
            && RowsReady(Pairwise(t), ov, ds, ds)
            && GrantSpec(sqrt, VerifiedPairs(vs, vt, ut), ov, ds) == GrantSpec(sqrt, Pairwise(t), ov, ds)
  {
    var t := if allVerified then vt else ut;
    var r1, r2 := VerifiedPairs(vs, vt, ut), Pairwise(t);
    forall j1, j2 | 0 <= j1 < |ds| && 0 <= j2 < |ds|
      ensures PairReady(r2, ov, ds[j1].0, ds[j2].0)
      ensures Term(sqrt, r1, ov, ds[j1].0, ds[j1].1, ds[j2].0, ds[j2].1) == Term(sqrt, r2, ov, ds[j1].0, ds[j1].1, ds[j2].0, ds[j2].1)
    {
      assert RowReady(r1, ov, ds[j1].0, ds);
      assert PairReady(r1, ov, ds[j1].0, ds[j2].0);
    }
    RowsAgree(sqrt, r1, r2, ov, ds, ds);
  }

  // ---------------------------------------------------------------------
  // The self pair of the as-written formula

  /** As written, a grant with a single contributor of amount v > 0, whose
      pair total with themself is v, is matched v*uv/(v + uv) through the
      else branch, although no pair of distinct contributors exists. */
  lemma {:induction false} LoneContributorMatched(sqrt: Root, vs: seq<Id>, vt: real, ut: real, ov: Overlap, k: Id, v: real)
    requires IsSqrt(sqrt) && 0.0 < v && 0.0 < ut
    requires Has(ov, k, k) && Get2(ov, k, k) == v
    ensures RowsReady(Verified(vs, vt, ut), ov, [(k, v)], [(k, v)])
    ensures GrantSpec(sqrt, Verified(vs, vt, ut), ov, [(k, v)]) == v * ut / (v + ut)
    ensures 0.0 < GrantSpec(sqrt, Verified(vs, vt, ut), ov, [(k, v)])
  {
    DividedSelf(v, ut);
    SelfRoot(sqrt, v);
    LoneGrant(sqrt, Verified(vs, vt, ut), ov, k, v);
  }

  /** The root of a contributor's product with themself. */
  lemma {:induction false} SelfRoot(sqrt: Root, v: real)
    requires IsSqrt(sqrt)
    ensures PairRoot(sqrt, v, v) == Abs(v)
  {
    SqrtOfSquare(sqrt, v);
  }

  /** `v / (v/uv + 1)` is `v*uv / (v + uv)`, which is positive. */
  lemma {:induction false} DividedSelf(v: real, ut: real)
    requires 0.0 < v && 0.0 < ut
    ensures v / ut + 1.0 != 0.0 && Divided(v, v, ut) == v * ut / (v + ut)
    ensures 0.0 < v * ut / (v + ut)
  {
    QuotientAntitone(v, ut, ut);
    var q := v / ut + 1.0;
    assert q * ut == v + ut;
    var x := v / q;
    assert x * q == v;
    assert x * (v + ut) == v * ut;
  }

  /** The instance v = 4, uv_threshold = 5 of the pair totals that
      get_totals_by_pair builds: as written the grant gets 20/9, with the
      k2 > k1 restriction it gets 0. */
  lemma {:induction false} LoneContributorExample(sqrt: Root, vs: seq<Id>, vt: real, g: Id, k: Id)
    requires IsSqrt(sqrt)
    ensures var c: Ledger := [(g, [(k, 4.0)])];
            && LedgerReady(Verified(vs, vt, 5.0), OverlapSpec(sqrt, c), c)
            && RawSpec(sqrt, Verified(vs, vt, 5.0), OverlapSpec(sqrt, c), c) == [Award(g, 20.0 / 9.0)]
            && LedgerReady(VerifiedPairs(vs, vt, 5.0), OverlapSpec(sqrt, c), c)
            && RawSpec(sqrt, VerifiedPairs(vs, vt, 5.0), OverlapSpec(sqrt, c), c) == [Award(g, 0.0)]
  {
    var c: Ledger := [(g, [(k, 4.0)])];
    var ov := OverlapSpec(sqrt, c);
    assert DistinctDonors(c);
    assert Keys(c[0].1) == [k];
    OverlapCovers(sqrt, c, 0, k, k);
    OverlapValues(sqrt, c, k, k);
    assert c[..0] == [];
    assert PairScore(sqrt, c, k, k) == PairRoot(sqrt, 4.0, 4.0);
    SelfRoot(sqrt, 4.0);
    LoneContributorMatched(sqrt, vs, vt, 5.0, ov, k, 4.0);
    LoneContributorNoMatch(sqrt, VerifiedPairs(vs, vt, 5.0), ov, k, 4.0);
    assert RawSpec(sqrt, Verified(vs, vt, 5.0), ov, c[..0]) == [];
    assert RawSpec(sqrt, VerifiedPairs(vs, vt, 5.0), ov, c[..0]) == [];
  }

  // ---------------------------------------------------------------------
  // run_calcs

  /** run_calcs on the records of one grant type: one unnormalised award
      per grant in first-appearance order, scored by calculate_clr as written
      with the verified list of the same records. */
  method RunCalcs(sqrt: Root, currRound: seq<VRecord>, vThreshold: real, uvThreshold: real)
    returns (totals: seq<Award>)
    requires IsSqrt(sqrt) && RecordsSignConsistent(Strip(currRound))
    requires 0.0 < vThreshold && 0.0 < uvThreshold
    ensures var agg := AggregateSpec(Strip(currRound));
            && LedgerReady(Verified(Dedup(FlaggedUsers(currRound)), vThreshold, uvThreshold), OverlapSpec(sqrt, agg), agg)
            && totals == RawSpec(sqrt, Verified(Dedup(FlaggedUsers(currRound)), vThreshold, uvThreshold), OverlapSpec(sqrt, agg), agg)
    ensures Ids(totals) == Dedup(GrantIds(Strip(currRound)))
  {
    var vlist := GetVerifiedList(currRound);
    var agg := AggregateContributions(currRound);
    var ptots := PairTotals(sqrt, agg);
    AggregateWellFormed(Strip(currRound));
    AggregateSignConsistent(Strip(currRound));
    VerifiedReady(sqrt, agg, vlist, vThreshold, uvThreshold);
    totals := CalculateClr(sqrt, agg, ptots, vlist, vThreshold, uvThreshold, 0.0);
    AggregateGrants(Strip(currRound));
  }

  /** run_calcs with the corrected calculate_clr, which scores only the
      pairs with k2 > k1. */
  method RunCalcsPairs(sqrt: Root, currRound: seq<VRecord>, vThreshold: real, uvThreshold: real)
    returns (totals: seq<Award>)
    requires IsSqrt(sqrt) && RecordsSignConsistent(Strip(currRound))
    requires 0.0 < vThreshold && 0.0 < uvThreshold
    ensures var agg := AggregateSpec(Strip(currRound));
            && LedgerReady(VerifiedPairs(Dedup(FlaggedUsers(currRound)), vThreshold, uvThreshold), OverlapSpec(sqrt, agg), agg)
            && totals == RawSpec(sqrt, VerifiedPairs(Dedup(FlaggedUsers(currRound)), vThreshold, uvThreshold), OverlapSpec(sqrt, agg), agg)
    ensures Ids(totals) == Dedup(GrantIds(Strip(currRound)))
  {
    var vlist := GetVerifiedList(currRound);
    var agg := AggregateContributions(currRound);
    var ptots := PairTotals(sqrt, agg);
    AggregateWellFormed(Strip(currRound));
    AggregateSignConsistent(Strip(currRound));
    VerifiedReady(sqrt, agg, vlist, vThreshold, uvThreshold);
    totals := CalculateClrPairs(sqrt, agg, ptots, vlist, vThreshold, uvThreshold);
    AggregateGrants(Strip(currRound));
  }
}
