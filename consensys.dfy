/** contrib_calculator_consensys.py: the grant records of every proper
    prefix of the data, clipped at a cap and tagged with the prefix length,
    flattened and thinned to the prefix lengths that are multiples of the
    bin size. */
module Consensys {
  import opened Basics
  import opened Aggregation
  import opened PairOverlap
  import opened MatchEngine
  import opened Distribution
  import opened GrantStats

  /** A record of calculate_clr with `_res['txns'] = x`. */
  datatype TxnStat = TxnStat(stat: Stat, txns: int)

  /** The grant ids of the records, in order. */
  function RowIds(rows: seq<TxnStat>): (ids: seq<Id>)
    ensures |ids| == |rows| && forall i :: 0 <= i < |rows| ==> ids[i] == rows[i].stat.id
  {
    seq(|rows|, i requires 0 <= i < |rows| => rows[i].stat.id)
  }

  /** `if v >= cap: v = cap` on `clr_amount` and on `one_match`. */
  function Clip(s: Stat, cap: real): Stat {
    s.(clrAmount := Clamp(s.clrAmount, cap), oneMatch := Clamp(s.oneMatch, cap))
  }

  /** The records of calculate_clr on the prefix `_data[0: x]`. */
  ghost function PrefixStats(sqrt: Root, data: seq<Contribution>, x: nat, t: real): seq<Stat>
    requires IsSqrt(sqrt) && RecordsSignConsistent(data) && 0.0 < t && x <= |data|
  {
    PrefixReady(sqrt, data, x, t);
    var c := AggregateSpec(data[..x]);
    Stats(sqrt, t, OverlapSpec(sqrt, c), c)
  }

  /** The records clipped at the cap and tagged with x. */
  function Tagged(ss: seq<Stat>, cap: real, x: nat): (rows: seq<TxnStat>)
    ensures |rows| == |ss|
  {
    seq(|ss|, i requires 0 <= i < |ss| => TxnStat(Clip(ss[i], cap), x))
  }

  /** The block of prefix x. */
  ghost function StepRows(sqrt: Root, data: seq<Contribution>, x: nat, cap: real, t: real): seq<TxnStat>
    requires IsSqrt(sqrt) && RecordsSignConsistent(data) && 0.0 < t && x <= |data|
  {
    Tagged(PrefixStats(sqrt, data, x, t), cap, x)
  }

  /** `res`: one block per x in `range(0, len(_data))`. */
  ghost function Blocks(sqrt: Root, data: seq<Contribution>, cap: real, t: real): (bs: seq<seq<TxnStat>>)
    requires IsSqrt(sqrt) && RecordsSignConsistent(data) && 0.0 < t
    ensures |bs| == |data|
  {
    seq(|data|, x requires 0 <= x < |data| && IsSqrt(sqrt) && RecordsSignConsistent(data) && 0.0 < t =>
      StepRows(sqrt, data, x, cap, t))
  }

  /** `[d for d in dict_list if d['txns'] % bin_size == 0]`. The prefix
      lengths are never negative, so Python's `%` and Dafny's agree on
      whether the remainder is 0. */
  function Binned(rows: seq<TxnStat>, binSize: int): seq<TxnStat>
    requires binSize != 0
  {
    if rows == [] then []
    else
      var n := |rows| - 1;
      Binned(rows[..n], binSize) + (if rows[n].txns % binSize == 0 then [rows[n]] else [])
  }

  /** A prefix of sign-consistent records is sign-consistent, so its records
      can be computed. */
  lemma {:induction false} PrefixReady(sqrt: Root, data: seq<Contribution>, x: nat, t: real)
    requires IsSqrt(sqrt) && RecordsSignConsistent(data) && 0.0 < t && x <= |data|
    ensures var c := AggregateSpec(data[..x]);
            LedgerReady(Pairwise(t), OverlapSpec(sqrt, c), c) && NonEmptyGrants(c)
  {
    assert forall i :: 0 <= i < x ==> data[..x][i] == data[i];
    StatsReady(sqrt, data[..x], t);
  }

  // ---------------------------------------------------------------------
  // The loops

  /** The clip-and-tag loop over one prefix's records. */
  method ClipAndTag(ss: seq<Stat>, cap: real, x: nat) returns (totals: seq<TxnStat>)
    ensures totals == Tagged(ss, cap, x)
  {
    totals := [];
    for i := 0 to |ss|
      invariant |totals| == i
      invariant forall j :: 0 <= j < i ==> totals[j] == TxnStat(Clip(ss[j], cap), x)
    {
      var r := ss[i];
      if r.clrAmount >= cap {
        r := r.(clrAmount := cap);
      }
      if r.oneMatch >= cap {
        r := r.(oneMatch := cap);
      }
      totals := totals + [TxnStat(r, x)];
    }
  }

  /** One pass of the prefix loop: aggregate `_data[0: x]`, calculate_clr,
      then clip and tag every record. */
  method Step(sqrt: Root, data: seq<Contribution>, x: nat, cap: real, threshold: real, totalPot: real)
    returns (totals: seq<TxnStat>)
    requires IsSqrt(sqrt) && RecordsSignConsistent(data) && 0.0 < threshold && x <= |data|
    ensures totals == StepRows(sqrt, data, x, cap, threshold)
  {
    var aggContribs := Aggregate(data[..x]);
    var pairTots := PairTotals(sqrt, aggContribs);
    PrefixReady(sqrt, data, x, threshold);
    var ss := CalculateClr(sqrt, aggContribs, pairTots, threshold, totalPot);
    totals := ClipAndTag(ss, cap, x);
  }

  /** A prefix's block has one record per grant of the prefix, in order of
      first appearance. */
  lemma {:induction false} StepIds(sqrt: Root, data: seq<Contribution>, x: nat, cap: real, t: real)
    requires IsSqrt(sqrt) && RecordsSignConsistent(data) && 0.0 < t && x <= |data|
    ensures RowIds(StepRows(sqrt, data, x, cap, t)) == Dedup(GrantIds(data[..x]))
  {
    PrefixReady(sqrt, data, x, t);
    var c := AggregateSpec(data[..x]);
    var rows := StepRows(sqrt, data, x, cap, t);
    AggregateGrants(data[..x]);
    assert |rows| == |c|;
    assert forall i :: 0 <= i < |rows| ==> RowIds(rows)[i] == Keys(c)[i];
  }

  /** Each record of the block is tagged with x and clipped at the cap; a
      value below the cap is left as calculate_clr made it. */
  lemma {:induction false} StepBounds(sqrt: Root, data: seq<Contribution>, x: nat, cap: real, t: real, i: nat)
    requires IsSqrt(sqrt) && RecordsSignConsistent(data) && 0.0 < t && x <= |data|
    requires i < |PrefixStats(sqrt, data, x, t)|
    ensures var r, s := StepRows(sqrt, data, x, cap, t)[i], PrefixStats(sqrt, data, x, t)[i];
      && r.txns == x && r.stat.id == s.id && r.stat.clrAmount <= cap && r.stat.oneMatch <= cap
      && (s.clrAmount < cap ==> r.stat.clrAmount == s.clrAmount)
      && (s.oneMatch < cap ==> r.stat.oneMatch == s.oneMatch)
  {
    var s := PrefixStats(sqrt, data, x, t)[i];
    assert StepRows(sqrt, data, x, cap, t)[i] == TxnStat(Clip(s, cap), x);
  }

  /** `res` holds the blocks of the first |res| prefixes. */
  ghost predicate BlocksSoFar(sqrt: Root, data: seq<Contribution>, cap: real, t: real, res: seq<seq<TxnStat>>)
    requires IsSqrt(sqrt) && RecordsSignConsistent(data) && 0.0 < t
  {
    |res| <= |data| && forall k :: 0 <= k < |res| ==> res[k] == StepRows(sqrt, data, k, cap, t)
  }

  lemma {:induction false} BlocksSoFarSnoc(sqrt: Root, data: seq<Contribution>, cap: real, t: real,
                                           res: seq<seq<TxnStat>>, totals: seq<TxnStat>)
    requires IsSqrt(sqrt) && RecordsSignConsistent(data) && 0.0 < t
    requires BlocksSoFar(sqrt, data, cap, t, res) && |res| < |data|
    requires totals == StepRows(sqrt, data, |res|, cap, t)
    ensures BlocksSoFar(sqrt, data, cap, t, res + [totals])
  {
    var next := res + [totals];
    forall k | 0 <= k < |next| ensures next[k] == StepRows(sqrt, data, k, cap, t) {
      if k < |res| {
        assert next[k] == res[k];
      }
    }
  }

  lemma {:induction false} BlocksSoFarAll(sqrt: Root, data: seq<Contribution>, cap: real, t: real, res: seq<seq<TxnStat>>)
    requires IsSqrt(sqrt) && RecordsSignConsistent(data) && 0.0 < t
    requires BlocksSoFar(sqrt, data, cap, t, res) && |res| == |data|
    ensures res == Blocks(sqrt, data, cap, t)
  {
    var bs := Blocks(sqrt, data, cap, t);
    forall k | 0 <= k < |data| ensures bs[k] == res[k] {
      assert bs[k] == StepRows(sqrt, data, k, cap, t);
    }
  }

  /** The prefix loop: `res.append(totals)` for every x in
      `range(0, len(_data))`. */
  method PrefixBlocks(sqrt: Root, data: seq<Contribution>, cap: real, threshold: real, totalPot: real)
    returns (res: seq<seq<TxnStat>>)
    requires IsSqrt(sqrt) && RecordsSignConsistent(data) && 0.0 < threshold
    ensures res == Blocks(sqrt, data, cap, threshold)
  {
    res := [];
    for x := 0 to |data|
      invariant |res| == x && BlocksSoFar(sqrt, data, cap, threshold, res)
    {
      var totals := Step(sqrt, data, x, cap, threshold, totalPot);
      BlocksSoFarSnoc(sqrt, data, cap, threshold, res, totals);
      res := res + [totals];
    }
    BlocksSoFarAll(sqrt, data, cap, threshold, res);
  }

  /** calculate_clr_by_txn: the prefix loop, the flattening loop and the bin
      filter. */
  method CalculateClrByTxn(sqrt: Root, data: seq<Contribution>, cap: real, binSize: int, threshold: real, totalPot: real)
    returns (dictList: seq<TxnStat>)
    requires IsSqrt(sqrt) && RecordsSignConsistent(data) && 0.0 < threshold && binSize != 0
    ensures dictList == Binned(Flatten(Blocks(sqrt, data, cap, threshold)), binSize)
  {
    var res := PrefixBlocks(sqrt, data, cap, threshold, totalPot);
    dictList := FlattenLoop(res);
    dictList := Binned(dictList, binSize);
  }

  // ---------------------------------------------------------------------
  // What the output holds

  /** The filter keeps exactly the rows whose prefix length is a multiple of
      the bin size, in order. */
  lemma {:induction false} BinnedMember(rows: seq<TxnStat>, binSize: int, r: TxnStat)
    requires binSize != 0
    ensures r in Binned(rows, binSize) <==> r in rows && r.txns % binSize == 0
  {
    if rows != [] {
      var n := |rows| - 1;
      BinnedMember(rows[..n], binSize, r);
      assert rows == rows[..n] + [rows[n]];
    }
  }

  /** Every record of the sweep comes from a prefix that leaves out at least
      the last transaction, so the full data set is never aggregated; it is
      clipped at the cap and its prefix length is a multiple of the bin
      size. */
  lemma {:induction false} SweepRows(sqrt: Root, data: seq<Contribution>, cap: real, binSize: int, t: real, r: TxnStat)
    requires IsSqrt(sqrt) && RecordsSignConsistent(data) && 0.0 < t && binSize != 0
    requires r in Binned(Flatten(Blocks(sqrt, data, cap, t)), binSize)
    ensures 0 <= r.txns < |data| && r.txns % binSize == 0
    ensures r.stat.clrAmount <= cap && r.stat.oneMatch <= cap
  {
    var bs := Blocks(sqrt, data, cap, t);
    BinnedMember(Flatten(bs), binSize, r);
    FlattenMember(bs, r);
    var k :| 0 <= k < |bs| && r in bs[k];
    var i :| 0 <= i < |bs[k]| && bs[k][i] == r;
    assert bs[k] == StepRows(sqrt, data, k, cap, t);
  }
}
