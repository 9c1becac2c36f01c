/** The "live donation" what-if of contrib_calculator_r4.py and
    contrib_calculator_consensys_live.py: a deep copy of the aggregate with
    a trial amount added for one user on one grant, its own pair totals, and
    the curve of the grant's match against the trial amount. */
module LiveDonation {
  import opened Basics
  import opened Aggregation
  import opened PairOverlap
  import opened MatchEngine
  import opened Monotonicity
  import opened Distribution

  /** `copy[grant][user] = copy[grant].get(user, 0) + amount` on a copy. */
  function Inject(c: Ledger, g: Id, u: Id, amount: real): Ledger
    requires g in Keys(c)
  {
    SetDonors(c, g, Credit(DonorsOf(c, g), u, amount))
  }

  /** Injecting into the aggregate of some records is aggregating one more
      record, for a grant that already has records. */
  lemma {:induction false} InjectAsRecord(recs: seq<Contribution>, g: Id, u: Id, amount: real)
    requires g in GrantIds(recs)
    ensures g in Keys(AggregateSpec(recs))
    ensures Inject(AggregateSpec(recs), g, u, amount) == AggregateSpec(recs + [Contribution(g, u, amount)])
  {
    AggregateGrants(recs);
    var r := Contribution(g, u, amount);
    assert (recs + [r])[..|recs|] == recs;
  }

  /** Only the amount of (grant, user) changes, by the trial amount; the
      grants and their order stay. */
  lemma {:induction false} InjectEffect(recs: seq<Contribution>, g: Id, u: Id, amount: real, h: Id, w: Id)
    requires g in GrantIds(recs)
    ensures g in Keys(AggregateSpec(recs))
    ensures Keys(Inject(AggregateSpec(recs), g, u, amount)) == Keys(AggregateSpec(recs))
    ensures AmountOf(DonorsOf(Inject(AggregateSpec(recs), g, u, amount), h), w)
         == AmountOf(DonorsOf(AggregateSpec(recs), h), w) + (if h == g && w == u then amount else 0.0)
  {
    var r := Contribution(g, u, amount);
    InjectAsRecord(recs, g, u, amount);
    KeysSetDonors(AggregateSpec(recs), g, Credit(DonorsOf(AggregateSpec(recs), g), u, amount));
    AggregateAmounts(recs, h, w);
    AggregateAmounts(recs + [r], h, w);
    assert (recs + [r])[..|recs|] == recs;
  }

  /** The other grants keep their contributors exactly. */
  lemma {:induction false} InjectOthers(c: Ledger, g: Id, u: Id, amount: real, h: Id)
    requires g in Keys(c) && h != g
    ensures DonorsOf(Inject(c, g, u, amount), h) == DonorsOf(c, h)
  {
    DonorsOfSetDonors(c, g, Credit(DonorsOf(c, g), u, amount), h);
  }

  /** A zero trial amount changes no amount; it only adds the live user to
      the grant's contributors when absent. */
  lemma {:induction false} InjectZero(c: Ledger, g: Id, u: Id, w: Id)
    requires g in Keys(c)
    ensures AmountOf(DonorsOf(Inject(c, g, u, 0.0), g), w) == AmountOf(DonorsOf(c, g), w)
    ensures Keys(DonorsOf(Inject(c, g, u, 0.0), g)) ==
      if u in Keys(DonorsOf(c, g)) then Keys(DonorsOf(c, g)) else Keys(DonorsOf(c, g)) + [u]
  {
    DonorsOfSetDonors(c, g, Credit(DonorsOf(c, g), u, 0.0), g);
    AmountOfCredit(DonorsOf(c, g), u, 0.0, w);
    KeysCredit(DonorsOf(c, g), u, 0.0);
  }

  /** The loop over the trial amounts: one deep copy with the amount added
      per trial amount, and that copy's own pair totals. */
  method Variants(sqrt: Root, contribDict: Ledger, g: Id, liveUser: Id, amounts: seq<real>)
    returns (contribDictList: seq<Ledger>, totOverlapList: seq<Overlap>)
    requires amounts != [] ==> g in Keys(contribDict)
    ensures |contribDictList| == |amounts| && |totOverlapList| == |amounts|
    ensures forall k :: 0 <= k < |amounts| ==>
      && contribDictList[k] == Inject(contribDict, g, liveUser, amounts[k])
      && totOverlapList[k] == OverlapSpec(sqrt, contribDictList[k])
  {
    contribDictList, totOverlapList := [], [];
    for k := 0 to |amounts|
      invariant |contribDictList| == k && |totOverlapList| == k
      invariant forall m :: 0 <= m < k ==>
        && contribDictList[m] == Inject(contribDict, g, liveUser, amounts[m])
        && totOverlapList[m] == OverlapSpec(sqrt, contribDictList[m])
    {
      var copy, totOverlap := VariantOf(sqrt, contribDict, g, liveUser, amounts[k]);
      contribDictList := contribDictList + [copy];
      totOverlapList := totOverlapList + [totOverlap];
    }
  }

  /** One trial amount: the deep copy with the amount added, and its pair
      totals. */
  method VariantOf(sqrt: Root, contribDict: Ledger, g: Id, liveUser: Id, amount: real)
    returns (copy: Ledger, totOverlap: Overlap)
    requires g in Keys(contribDict)
    ensures copy == Inject(contribDict, g, liveUser, amount)
    ensures totOverlap == OverlapSpec(sqrt, copy)
  {
    copy := contribDict;
    copy := SetDonors(copy, g, Credit(DonorsOf(copy, g), liveUser, amount));
    totOverlap := PairTotals(sqrt, copy);
  }

  /** A variant of non-negative records with a non-negative trial amount can
      be matched at every positive threshold. */
  lemma {:induction false} VariantReady(sqrt: Root, recs: seq<Contribution>, g: Id, u: Id, amount: real, t: real)
    requires IsSqrt(sqrt) && g in GrantIds(recs) && 0.0 <= amount && 0.0 < t
    requires forall i :: 0 <= i < |recs| ==> 0.0 <= recs[i].amount
    ensures g in Keys(AggregateSpec(recs))
    ensures var c := Inject(AggregateSpec(recs), g, u, amount);
            LedgerReady(Pairwise(t), OverlapSpec(sqrt, c), c)
  {
    var recs' := recs + [Contribution(g, u, amount)];
    InjectAsRecord(recs, g, u, amount);
    assert forall i :: 0 <= i < |recs'| ==> 0.0 <= recs'[i].amount;
    RecordsReady(sqrt, recs', false);
    LedgerReadyAt(OverlapSpec(sqrt, AggregateSpec(recs')), false, AggregateSpec(recs'), t);
  }

  /** What the normalising calculators return for the variant with `amount`
      added to (g, u), at threshold t and pot totalPot. */
  ghost function VariantClr(sqrt: Root, recs: seq<Contribution>, g: Id, u: Id, amount: real, t: real, totalPot: real): Result<seq<Award>>
    requires IsSqrt(sqrt) && g in GrantIds(recs) && 0.0 <= amount && 0.0 < t
    requires forall i :: 0 <= i < |recs| ==> 0.0 <= recs[i].amount
  {
    VariantReady(sqrt, recs, g, u, amount, t);
    var c := Inject(AggregateSpec(recs), g, u, amount);
    NormalizeSpec(RawSpec(sqrt, Pairwise(t), OverlapSpec(sqrt, c), c), totalPot)
  }

  /** `[curve[0]] + [x - curve[0] for x in curve[1:]]`: the first value is
      kept and every later value is recovered by adding it back to its
      delta. */
  function Deltas(curve: seq<real>): (d: seq<real>)
    requires curve != []
    ensures |d| == |curve| && d[0] == curve[0]
    ensures forall k :: 1 <= k < |curve| ==> d[k] + d[0] == curve[k]
  {
    [curve[0]] + seq(|curve| - 1, k requires 0 <= k < |curve| - 1 => curve[k + 1] - curve[0])
  }

  /** `[pred[0] - pred[0]] + [x - pred[0] for x in pred[1:]]`: the curve
      starts at 0 and every entry is the match minus the baseline. */
  function Offsets(pred: seq<real>): (d: seq<real>)
    requires pred != []
    ensures |d| == |pred| && d[0] == 0.0
    ensures forall k :: 0 <= k < |pred| ==> d[k] + pred[0] == pred[k]
  {
    [pred[0] - pred[0]] + seq(|pred| - 1, k requires 0 <= k < |pred| - 1 => pred[k + 1] - pred[0])
  }
}
