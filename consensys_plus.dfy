/** contrib_calculator_consensys_plus.py: calculate_clr over a grid of pots,
    caps and prefix lengths. Each prefix's records are tagged with the grid
    point, normalised to the pot, capped at a share of it and completed with
    zero records for the grants the prefix has not reached yet. */
module ConsensysPlus {
  import opened Basics
  import opened Aggregation
  import opened MatchEngine
  import opened Distribution
  import opened GrantStats
  import opened Consensys

  /** A record of calculate_clr with `txns`, `total_pot`, `cap_pct` and
      `cap_amt` added. */
  datatype SweepStat = SweepStat(stat: Stat, txns: int, totalPot: real, capPct: real, capAmt: real)

  /** `range(start, stop, step)` for a positive step: the arithmetic
      progression from start that stays below stop and that one more step
      would take to stop or past it. */
  function Range(start: int, stop: int, step: int): (r: seq<int>)
    requires 0 < step
    ensures forall i :: 0 <= i < |r| ==> r[i] == start + i * step && start <= r[i] < stop
    ensures stop <= start + |r| * step
    decreases stop - start
  {
    if start >= stop then []
    else
      var rest := Range(start + step, stop, step);
      StepShift(start, step, |rest|);
      assert forall i :: 1 <= i < |rest| + 1 ==> ([start] + rest)[i] == rest[i - 1];
      [start] + rest
  }

  lemma StepShift(start: int, step: int, n: nat)
    ensures forall i :: 1 <= i <= n ==> start + step + (i - 1) * step == start + i * step
    ensures start + step + n * step == start + (n + 1) * step
  {
  }

  /** `poss_total_pots = range(10000, upper_pot, pot_by)`, as amounts. */
  function Pots(upperPot: int, potBy: int): (ps: seq<real>)
    requires 0 < potBy
    ensures forall i :: 0 <= i < |ps| ==> 10000.0 <= ps[i] < upperPot as real
  {
    var r := Range(10000, upperPot, potBy);
    seq(|r|, i requires 0 <= i < |r| => r[i] as real)
  }

  /** `poss_caps`: the percentages `range(5, 60, cap_by)` as fractions, then
      the uncapped 99999999. */
  function Caps(capBy: int): (cs: seq<real>)
    requires 0 < capBy
    ensures cs != [] && cs[|cs| - 1] == 99999999.0
    ensures forall i :: 0 <= i < |cs| - 1 ==> 0.05 <= cs[i] < 0.6
  {
    var r := Range(5, 60, capBy);
    seq(|r|, i requires 0 <= i < |r| => r[i] as real / 100.0) + [99999999.0]
  }

  /** The prefix lengths `range(0, txns + bin_size, bin_size)`. */
  function Prefixes(txns: int, binSize: int): (xs: seq<int>)
    requires 0 < binSize
    ensures forall i :: 0 <= i < |xs| ==> xs[i] == i * binSize && 0 <= xs[i] < txns + binSize
  {
    Range(0, txns + binSize, binSize)
  }

  /** `_data[0: x]` keeps the whole data when x runs past its end. */
  function SliceLen(data: seq<Contribution>, x: nat): (n: nat)
    ensures n <= |data| && (x <= |data| ==> n == x) && (|data| < x ==> n == |data|)
  {
    if x <= |data| then x else |data|
  }

  // ---------------------------------------------------------------------
  // One grid point

  /** The grant ids of the records, in order. */
  function SweepIds(rows: seq<SweepStat>): (ids: seq<Id>)
    ensures |ids| == |rows| && forall i :: 0 <= i < |rows| ==> ids[i] == rows[i].stat.id
  {
    seq(|rows|, i requires 0 <= i < |rows| => rows[i].stat.id)
  }

  /** Every record's `clr_amount`, as awards. */
  function ClrAwards(rows: seq<SweepStat>): (ts: seq<Award>)
    ensures |ts| == |rows|
    ensures forall i :: 0 <= i < |rows| ==> ts[i] == Award(rows[i].stat.id, rows[i].stat.clrAmount)
  {
    seq(|rows|, i requires 0 <= i < |rows| => Award(rows[i].stat.id, rows[i].stat.clrAmount))
  }

  /** The records tagged with the grid point; `cap_amt` is `cap * total_pot`. */
  function Tag(ss: seq<Stat>, x: int, pot: real, cap: real): (rows: seq<SweepStat>)
    ensures |rows| == |ss|
  {
    seq(|ss|, i requires 0 <= i < |ss| => SweepStat(ss[i], x, pot, cap, cap * pot))
  }

  /** The division of every `clr_amount` by the factor, skipped when the
      factor is 0. */
  function Normalized(rows: seq<SweepStat>, f: real): (out: seq<SweepStat>)
    ensures |out| == |rows|
  {
    seq(|rows|, i requires 0 <= i < |rows| =>
      if f != 0.0 then rows[i].(stat := rows[i].stat.(clrAmount := rows[i].stat.clrAmount / f))
      else rows[i])
  }

  /** `clr_amount` and `one_match` cut down to the cap amount. */
  function Capped(rows: seq<SweepStat>, capAmt: real): (out: seq<SweepStat>)
    ensures |out| == |rows|
  {
    seq(|rows|, i requires 0 <= i < |rows| =>
      rows[i].(stat := rows[i].stat.(clrAmount := Clamp(rows[i].stat.clrAmount, capAmt),
                                     oneMatch := Clamp(rows[i].stat.oneMatch, capAmt))))
  }

  /** The ids of `all` that are not in `present`, in the order of `all`. */
  function Missing(all: seq<Id>, present: seq<Id>): (m: seq<Id>)
    ensures forall y :: y in m <==> y in all && y !in present
    ensures Distinct(all) ==> Distinct(m)
  {
    if all == [] then []
    else
      var n := |all| - 1;
      var m := Missing(all[..n], present);
      assert forall y :: y in all <==> y in all[..n] || y == all[n];
      DistinctInit(all);
      if all[n] in present then m else m + [all[n]]
  }

  lemma {:induction false} DistinctInit(s: seq<Id>)
    requires s != []
    ensures Distinct(s) ==> Distinct(s[..|s| - 1]) && s[|s| - 1] !in s[..|s| - 1]
  {
    if Distinct(s) {
      DistinctSnoc(s);
    }
  }

  /** The all-zero records of the missing grants, tagged like the others. */
  function ZeroRows(ids: seq<Id>, x: int, pot: real, cap: real): (rows: seq<SweepStat>)
    ensures |rows| == |ids|
  {
    seq(|ids|, k requires 0 <= k < |ids| => SweepStat(Stat(ids[k], 0.0, 0.0, 0, 0.0), x, pot, cap, cap * pot))
  }

  /** The tagged records of the prefix. */
  ghost function TaggedStats(sqrt: Root, data: seq<Contribution>, t: real, pot: real, cap: real, x: nat): seq<SweepStat>
    requires IsSqrt(sqrt) && RecordsSignConsistent(data) && 0.0 < t
  {
    Tag(PrefixStats(sqrt, data, SliceLen(data, x), t), x, pot, cap)
  }

  /** The tagged records normalised to the pot and capped. */
  ghost function CappedStats(sqrt: Root, data: seq<Contribution>, t: real, pot: real, cap: real, x: nat): seq<SweepStat>
    requires IsSqrt(sqrt) && RecordsSignConsistent(data) && 0.0 < t && pot != 0.0
  {
    var tagged := TaggedStats(sqrt, data, t, pot, cap, x);
    Capped(Normalized(tagged, Total(ClrAwards(tagged)) / pot), cap * pot)
  }

  /** The block of one grid point: the capped records, then a zero record for
      every grant of the data that the prefix has not reached. */
  ghost function StepSpec(sqrt: Root, data: seq<Contribution>, t: real, pot: real, cap: real, x: nat): seq<SweepStat>
    requires IsSqrt(sqrt) && RecordsSignConsistent(data) && 0.0 < t && pot != 0.0
  {
    var capped := CappedStats(sqrt, data, t, pot, cap, x);
    capped + ZeroRows(Missing(Dedup(GrantIds(data)), SweepIds(capped)), x, pot, cap)
  }

  // ---------------------------------------------------------------------
  // The loops of one grid point

  /** The tagging loop. */
  method TagRows(ss: seq<Stat>, x: int, pot: real, cap: real) returns (totals: seq<SweepStat>)
    ensures totals == Tag(ss, x, pot, cap)
  {
    totals := [];
    for i := 0 to |ss|
      invariant |totals| == i
      invariant forall j :: 0 <= j < i ==> totals[j] == SweepStat(ss[j], x, pot, cap, cap * pot)
    {
      totals := totals + [SweepStat(ss[i], x, pot, cap, cap * pot)];
    }
  }

  /** `bigtot += _res['clr_amount']`. */
  method ClrSum(totals: seq<SweepStat>) returns (bigtot: real)
    ensures bigtot == Total(ClrAwards(totals))
  {
    bigtot := 0.0;
    for i := 0 to |totals|
      invariant bigtot == Total(ClrAwards(totals[..i]))
    {
      assert ClrAwards(totals[..i + 1]) == ClrAwards(totals[..i]) + [Award(totals[i].stat.id, totals[i].stat.clrAmount)];
      TotalSnoc(ClrAwards(totals[..i]), Award(totals[i].stat.id, totals[i].stat.clrAmount));
      bigtot := bigtot + totals[i].stat.clrAmount;
    }
    assert totals[..|totals|] == totals;
  }

  /** The normalisation loop. */
  method NormalizeRows(totals: seq<SweepStat>, normalizationFactor: real) returns (out: seq<SweepStat>)
    ensures out == Normalized(totals, normalizationFactor)
  {
    out := [];
    for i := 0 to |totals|
      invariant |out| == i
      invariant forall j :: 0 <= j < i ==> out[j] == Normalized(totals, normalizationFactor)[j]
    {
      var r := totals[i];
      if normalizationFactor != 0.0 {
        r := r.(stat := r.stat.(clrAmount := r.stat.clrAmount / normalizationFactor));
      }
      out := out + [r];
    }
  }

  /** The cap loop at `cap * total_pot`. */
  method CapRows(totals: seq<SweepStat>, capAmt: real) returns (out: seq<SweepStat>)
    ensures out == Capped(totals, capAmt)
  {
    out := [];
    for i := 0 to |totals|
      invariant |out| == i
      invariant forall j :: 0 <= j < i ==> out[j] == Capped(totals, capAmt)[j]
    {
      var s := totals[i].stat;
      if s.clrAmount >= capAmt {
        s := s.(clrAmount := capAmt);
      }
      if s.oneMatch >= capAmt {
        s := s.(oneMatch := capAmt);
      }
      out := out + [totals[i].(stat := s)];
    }
  }

  /** The fill-in loop: a zero record for every grant of the data that has
      no record yet. */
  method FillMissing(totals: seq<SweepStat>, data: seq<Contribution>, x: int, pot: real, cap: real)
    returns (out: seq<SweepStat>)
    ensures out == totals + ZeroRows(Missing(Dedup(GrantIds(data)), SweepIds(totals)), x, pot, cap)
  {
    var allIds := Dedup(GrantIds(data));
    var tempIds := SweepIds(totals);
    var missingIds := Missing(allIds, tempIds);
    out := totals;
    for k := 0 to |missingIds|
      invariant out == totals + ZeroRows(missingIds[..k], x, pot, cap)
    {
      assert ZeroRows(missingIds[..k + 1], x, pot, cap)
          == ZeroRows(missingIds[..k], x, pot, cap) + [SweepStat(Stat(missingIds[k], 0.0, 0.0, 0, 0.0), x, pot, cap, cap * pot)];
      out := out + [SweepStat(Stat(missingIds[k], 0.0, 0.0, 0, 0.0), x, pot, cap, cap * pot)];
    }
    assert missingIds[..|missingIds|] == missingIds;
  }

  /** One grid point: calculate_clr on the prefix, tag, normalise, cap and
      fill in. */
  method SweepStep(sqrt: Root, data: seq<Contribution>, threshold: real, totalPot: real, cap: real, x: nat)
    returns (totals: seq<SweepStat>)
    requires IsSqrt(sqrt) && RecordsSignConsistent(data) && 0.0 < threshold && totalPot != 0.0
    ensures totals == StepSpec(sqrt, data, threshold, totalPot, cap, x)
  {
    var n := SliceLen(data, x);
    var aggContribs := Aggregate(data[..n]);
    var pairTots := PairOverlap.PairTotals(sqrt, aggContribs);
    PrefixReady(sqrt, data, n, threshold);
    var ss := GrantStats.CalculateClr(sqrt, aggContribs, pairTots, threshold, totalPot);
    totals := TagRows(ss, x, totalPot, cap);
    var bigtot := ClrSum(totals);
    var normalizationFactor := bigtot / totalPot;
    totals := NormalizeRows(totals, normalizationFactor);
    totals := CapRows(totals, cap * totalPot);
    totals := FillMissing(totals, data, x, totalPot, cap);
  }

  // ---------------------------------------------------------------------
  // What one grid point holds

  /** Normalising by `bigtot / total_pot` makes the clr amounts add up to the
      pot, unless they add up to 0, in which case nothing changes. */
  lemma {:induction false} NormalizedTotal(rows: seq<SweepStat>, pot: real)
    requires pot != 0.0
    ensures var f := Total(ClrAwards(rows)) / pot;
            && (Total(ClrAwards(rows)) == 0.0 ==> Normalized(rows, f) == rows)
            && (Total(ClrAwards(rows)) != 0.0 ==> Total(ClrAwards(Normalized(rows, f))) == pot)
  {
    var ts := ClrAwards(rows);
    var f := Total(ts) / pot;
    QuotientZero(Total(ts), pot);
    if Total(ts) == 0.0 {
      assert forall i :: 0 <= i < |rows| ==> Normalized(rows, f)[i] == rows[i];
    } else {
      assert ts != [];
      var sc := Scaled(ts, f);
      forall i | 0 <= i < |rows| ensures ClrAwards(Normalized(rows, f))[i] == sc[i] {
        assert sc[i].amount * f == ts[i].amount;
      }
      assert ClrAwards(Normalized(rows, f)) == sc;
      NormalizeSumsToPot(ts, pot);
    }
  }

  /** Capping leaves ids and tags alone, bounds both amounts by the cap
      amount and leaves an amount below it as it was. */
  lemma {:induction false} CappedRow(rows: seq<SweepStat>, capAmt: real, i: nat)
    requires i < |rows|
    ensures var r, s := Capped(rows, capAmt)[i], rows[i];
      && r.stat.id == s.stat.id && r.txns == s.txns && r.totalPot == s.totalPot
      && r.capPct == s.capPct && r.capAmt == s.capAmt
      && r.stat.clrAmount <= capAmt && r.stat.oneMatch <= capAmt
      && (s.stat.clrAmount < capAmt ==> r.stat.clrAmount == s.stat.clrAmount)
      && (s.stat.oneMatch < capAmt ==> r.stat.oneMatch == s.stat.oneMatch)
  {
    assert Capped(rows, capAmt)[i].stat.clrAmount == Clamp(rows[i].stat.clrAmount, capAmt);
  }

  /** The capped records are those of the prefix's grants, in order of first
      appearance in the prefix, and every one carries the grid point's tags. */
  lemma {:induction false} CappedIds(sqrt: Root, data: seq<Contribution>, t: real, pot: real, cap: real, x: nat)
    requires IsSqrt(sqrt) && RecordsSignConsistent(data) && 0.0 < t && pot != 0.0
    ensures var rows := CappedStats(sqrt, data, t, pot, cap, x);
      && SweepIds(rows) == Dedup(GrantIds(data[..SliceLen(data, x)]))
      && forall i :: 0 <= i < |rows| ==>
           rows[i].txns == x && rows[i].totalPot == pot && rows[i].capPct == cap && rows[i].capAmt == cap * pot
  {
    var n := SliceLen(data, x);
    PrefixReady(sqrt, data, n, t);
    var tagged := TaggedStats(sqrt, data, t, pot, cap, x);
    var normed := Normalized(tagged, Total(ClrAwards(tagged)) / pot);
    var rows := CappedStats(sqrt, data, t, pot, cap, x);
    StepIds(sqrt, data, n, 0.0, t);
    var c := AggregateSpec(data[..n]);
    forall i | 0 <= i < |rows|
      ensures SweepIds(rows)[i] == RowIds(StepRows(sqrt, data, n, 0.0, t))[i]
      ensures rows[i].txns == x && rows[i].totalPot == pot && rows[i].capPct == cap && rows[i].capAmt == cap * pot
    {
      CappedRow(normed, cap * pot, i);
      assert normed[i].stat.id == tagged[i].stat.id;
    }
  }

  /** The ids of a grid point: those of the capped records, then the
      missing ones. */
  lemma {:induction false} StepIdsSplit(sqrt: Root, data: seq<Contribution>, t: real, pot: real, cap: real, x: nat)
    requires IsSqrt(sqrt) && RecordsSignConsistent(data) && 0.0 < t && pot != 0.0
    ensures var ids := SweepIds(CappedStats(sqrt, data, t, pot, cap, x));
            SweepIds(StepSpec(sqrt, data, t, pot, cap, x)) == ids + Missing(Dedup(GrantIds(data)), ids)
  {
    var capped := CappedStats(sqrt, data, t, pot, cap, x);
    ZeroRowsIds(capped, Missing(Dedup(GrantIds(data)), SweepIds(capped)), x, pot, cap);
  }

  lemma {:induction false} ZeroRowsIds(rows: seq<SweepStat>, ids: seq<Id>, x: int, pot: real, cap: real)
    ensures SweepIds(rows + ZeroRows(ids, x, pot, cap)) == SweepIds(rows) + ids
  {
    var zeros := ZeroRows(ids, x, pot, cap);
    assert forall k :: 0 <= k < |ids| ==> zeros[k].stat.id == ids[k];
  }

  /** The grants of a prefix are grants of the data. */
  lemma {:induction false} PrefixGrants(data: seq<Contribution>, n: nat)
    requires n <= |data|
    ensures forall g :: g in GrantIds(data[..n]) ==> g in GrantIds(data)
  {
    forall g | g in GrantIds(data[..n]) ensures g in GrantIds(data) {
      var i :| 0 <= i < n && GrantIds(data[..n])[i] == g;
      assert GrantIds(data)[i] == g;
    }
  }

  /** Two lists without repeats and without a common element make one
      without repeats. */
  lemma {:induction false} DistinctJoin(a: seq<Id>, b: seq<Id>)
    requires Distinct(a) && Distinct(b) && forall y :: y in b ==> y !in a
    ensures Distinct(a + b)
  {
    forall i, j | 0 <= i < j < |a + b| ensures (a + b)[i] != (a + b)[j] {
      if j < |a| {
        assert (a + b)[i] == a[i] && (a + b)[j] == a[j];
      } else if i < |a| {
        assert (a + b)[i] == a[i] && (a + b)[j] == b[j - |a|] && b[j - |a|] in b;
      } else {
        assert (a + b)[i] == b[i - |a|] && (a + b)[j] == b[j - |a|];
      }
    }
  }

  /** Each grid point has exactly one record per grant of the whole data. */
  lemma {:induction false} StepCovers(sqrt: Root, data: seq<Contribution>, t: real, pot: real, cap: real, x: nat)
    requires IsSqrt(sqrt) && RecordsSignConsistent(data) && 0.0 < t && pot != 0.0
    ensures var ids := SweepIds(StepSpec(sqrt, data, t, pot, cap, x));
            Distinct(ids) && forall g :: g in ids <==> g in GrantIds(data)
  {
    var n := SliceLen(data, x);
    var a := SweepIds(CappedStats(sqrt, data, t, pot, cap, x));
    CappedIds(sqrt, data, t, pot, cap, x);
    assert a == Dedup(GrantIds(data[..n]));
    var m := Missing(Dedup(GrantIds(data)), a);
    StepIdsSplit(sqrt, data, t, pot, cap, x);
    PrefixGrants(data, n);
    DistinctJoin(a, m);
  }

  /** The record carries the tags of grid point (x, pot, cap) and, for a
      positive pot and cap, neither amount exceeds `cap * total_pot`. */
  predicate RowOfPoint(r: SweepStat, x: int, pot: real, cap: real) {
    && r.txns == x && r.totalPot == pot && r.capPct == cap && r.capAmt == r.capPct * r.totalPot
    && (0.0 < cap && 0.0 < pot ==> r.stat.clrAmount <= r.capAmt && r.stat.oneMatch <= r.capAmt)
  }

  /** Every record of a grid point carries its tags and is capped at
      `cap * total_pot`; the added records are all zero. */
  lemma {:induction false} StepRow(sqrt: Root, data: seq<Contribution>, t: real, pot: real, cap: real, x: nat, i: nat)
    requires IsSqrt(sqrt) && RecordsSignConsistent(data) && 0.0 < t && pot != 0.0
    requires i < |StepSpec(sqrt, data, t, pot, cap, x)|
    ensures var r := StepSpec(sqrt, data, t, pot, cap, x)[i];
      && RowOfPoint(r, x, pot, cap)
      && (i >= |CappedStats(sqrt, data, t, pot, cap, x)| ==> r.stat == Stat(r.stat.id, 0.0, 0.0, 0, 0.0))
  {
    var capped := CappedStats(sqrt, data, t, pot, cap, x);
    var ids := Missing(Dedup(GrantIds(data)), SweepIds(capped));
    assert StepSpec(sqrt, data, t, pot, cap, x) == capped + ZeroRows(ids, x, pot, cap);
    if i < |capped| {
      CappedTagged(sqrt, data, t, pot, cap, x, i);
      TagProduct(capped[i], x, pot, cap);
    } else {
      ZeroRowAt(capped, ids, x, pot, cap, i);
    }
  }

  /** An added record is all zero and carries the grid point's tags. */
  lemma {:induction false} ZeroRowAt(rows: seq<SweepStat>, ids: seq<Id>, x: int, pot: real, cap: real, i: nat)
    requires |rows| <= i < |rows| + |ids|
    ensures var r := (rows + ZeroRows(ids, x, pot, cap))[i];
            RowOfPoint(r, x, pot, cap) && r.stat == Stat(ids[i - |rows|], 0.0, 0.0, 0, 0.0)
  {
    var r := (rows + ZeroRows(ids, x, pot, cap))[i];
    assert r == ZeroRows(ids, x, pot, cap)[i - |rows|];
    TagProduct(r, x, pot, cap);
  }

  /** A capped record of a grid point carries its tags and is below its cap
      amount. */
  lemma {:induction false} CappedTagged(sqrt: Root, data: seq<Contribution>, t: real, pot: real, cap: real, x: nat, i: nat)
    requires IsSqrt(sqrt) && RecordsSignConsistent(data) && 0.0 < t && pot != 0.0
    requires i < |CappedStats(sqrt, data, t, pot, cap, x)|
    ensures var r := CappedStats(sqrt, data, t, pot, cap, x)[i];
      && r.txns == x && r.totalPot == pot && r.capPct == cap && r.capAmt == cap * pot
      && r.stat.clrAmount <= cap * pot && r.stat.oneMatch <= cap * pot
  {
    var tagged := TaggedStats(sqrt, data, t, pot, cap, x);
    var normed := Normalized(tagged, Total(ClrAwards(tagged)) / pot);
    CappedRow(normed, cap * pot, i);
    assert normed[i].txns == tagged[i].txns && normed[i].totalPot == tagged[i].totalPot;
    assert normed[i].capPct == tagged[i].capPct && normed[i].capAmt == tagged[i].capAmt;
  }

  lemma {:induction false} TagProduct(r: SweepStat, x: int, pot: real, cap: real)
    requires r.txns == x && r.totalPot == pot && r.capPct == cap && r.capAmt == cap * pot
    requires r.stat.clrAmount <= r.capAmt || r.stat.clrAmount == 0.0
    requires r.stat.oneMatch <= r.capAmt || r.stat.oneMatch == 0.0
    ensures RowOfPoint(r, x, pot, cap)
  {
    if 0.0 < cap && 0.0 < pot {
      assert 0.0 < cap * pot;
    }
  }

  // ---------------------------------------------------------------------
  // The grid

  /** The blocks of one pot and one cap, one per prefix length. */
  ghost function CapBlocks(sqrt: Root, data: seq<Contribution>, t: real, pot: real, cap: real, xs: seq<int>)
    : seq<seq<SweepStat>>
    requires IsSqrt(sqrt) && RecordsSignConsistent(data) && 0.0 < t && pot != 0.0
    requires forall k :: 0 <= k < |xs| ==> 0 <= xs[k]
  {
    if xs == [] then []
    else
      var n := |xs| - 1;
      CapBlocks(sqrt, data, t, pot, cap, xs[..n]) + [StepSpec(sqrt, data, t, pot, cap, xs[n])]
  }

  /** The blocks of one pot, cap by cap. */
  ghost function PotBlocks(sqrt: Root, data: seq<Contribution>, t: real, pot: real, caps: seq<real>, xs: seq<int>)
    : seq<seq<SweepStat>>
    requires IsSqrt(sqrt) && RecordsSignConsistent(data) && 0.0 < t && pot != 0.0
    requires forall k :: 0 <= k < |xs| ==> 0 <= xs[k]
  {
    if caps == [] then []
    else
      var n := |caps| - 1;
      PotBlocks(sqrt, data, t, pot, caps[..n], xs) + CapBlocks(sqrt, data, t, pot, caps[n], xs)
  }

  /** `res`: the blocks of the whole grid, pot by pot. */
  ghost function AllBlocks(sqrt: Root, data: seq<Contribution>, t: real, pots: seq<real>, caps: seq<real>, xs: seq<int>)
    : seq<seq<SweepStat>>
    requires IsSqrt(sqrt) && RecordsSignConsistent(data) && 0.0 < t
    requires forall i :: 0 <= i < |pots| ==> pots[i] != 0.0
    requires forall k :: 0 <= k < |xs| ==> 0 <= xs[k]
  {
    if pots == [] then []
    else
      var n := |pots| - 1;
      AllBlocks(sqrt, data, t, pots[..n], caps, xs) + PotBlocks(sqrt, data, t, pots[n], caps, xs)
  }

  /** The innermost loop, over the prefix lengths. */
  method CapSweep(sqrt: Root, data: seq<Contribution>, threshold: real, totalPot: real, cap: real, xs: seq<int>)
    returns (res: seq<seq<SweepStat>>)
    requires IsSqrt(sqrt) && RecordsSignConsistent(data) && 0.0 < threshold && totalPot != 0.0
    requires forall k :: 0 <= k < |xs| ==> 0 <= xs[k]
    ensures res == CapBlocks(sqrt, data, threshold, totalPot, cap, xs)
  {
    res := [];
    for k := 0 to |xs|
      invariant res == CapBlocks(sqrt, data, threshold, totalPot, cap, xs[..k])
    {
      assert xs[..k + 1][..k] == xs[..k];
      var totals := SweepStep(sqrt, data, threshold, totalPot, cap, xs[k]);
      res := res + [totals];
    }
    assert xs[..|xs|] == xs;
  }

  /** The loop over the caps. */
  method PotSweep(sqrt: Root, data: seq<Contribution>, threshold: real, totalPot: real, caps: seq<real>, xs: seq<int>)
    returns (res: seq<seq<SweepStat>>)
    requires IsSqrt(sqrt) && RecordsSignConsistent(data) && 0.0 < threshold && totalPot != 0.0
    requires forall k :: 0 <= k < |xs| ==> 0 <= xs[k]
    ensures res == PotBlocks(sqrt, data, threshold, totalPot, caps, xs)
  {
    res := [];
    for j := 0 to |caps|
      invariant res == PotBlocks(sqrt, data, threshold, totalPot, caps[..j], xs)
    {
      assert caps[..j + 1][..j] == caps[..j];
      var blocks := CapSweep(sqrt, data, threshold, totalPot, caps[j], xs);
      res := res + blocks;
    }
    assert caps[..|caps|] == caps;
  }

  /** calculate_clr_by_txn: the loop over the pots, then the flattening
      loop. */
  method CalculateClrByTxn(sqrt: Root, data: seq<Contribution>, threshold: real,
                           upperPot: int, potBy: int, capBy: int, txns: int, binSize: int)
    returns (dictList: seq<SweepStat>)
    requires IsSqrt(sqrt) && RecordsSignConsistent(data) && 0.0 < threshold
    requires 0 < potBy && 0 < capBy && 0 < binSize
    ensures dictList == Flatten(AllBlocks(sqrt, data, threshold, Pots(upperPot, potBy), Caps(capBy), Prefixes(txns, binSize)))
  {
    var possTotalPots := Pots(upperPot, potBy);
    var possCaps := Caps(capBy);
    var xs := Prefixes(txns, binSize);
    var res := [];
    for i := 0 to |possTotalPots|
      invariant res == AllBlocks(sqrt, data, threshold, possTotalPots[..i], possCaps, xs)
    {
      assert possTotalPots[..i + 1][..i] == possTotalPots[..i];
      var blocks := PotSweep(sqrt, data, threshold, possTotalPots[i], possCaps, xs);
      res := res + blocks;
    }
    assert possTotalPots[..|possTotalPots|] == possTotalPots;
    dictList := FlattenLoop(res);
  }

  // ---------------------------------------------------------------------
  // What the grid holds

  /** A block of one pot and cap is the grid point of one prefix length. */
  lemma {:induction false} CapBlocksMember(sqrt: Root, data: seq<Contribution>, t: real, pot: real,
                                           cap: real, xs: seq<int>, b: seq<SweepStat>)
    returns (k: nat)
    requires IsSqrt(sqrt) && RecordsSignConsistent(data) && 0.0 < t && pot != 0.0
    requires forall k :: 0 <= k < |xs| ==> 0 <= xs[k]
    requires b in CapBlocks(sqrt, data, t, pot, cap, xs)
    ensures k < |xs| && b == StepSpec(sqrt, data, t, pot, cap, xs[k])
  {
    var n := |xs| - 1;
    if b in CapBlocks(sqrt, data, t, pot, cap, xs[..n]) {
      k := CapBlocksMember(sqrt, data, t, pot, cap, xs[..n], b);
      assert xs[..n][k] == xs[k];
    } else {
      k := n;
    }
  }

  /** A block of one pot's sweep is a grid point of that pot. */
  lemma {:induction false} PotBlocksMember(sqrt: Root, data: seq<Contribution>, t: real, pot: real,
                                           caps: seq<real>, xs: seq<int>, b: seq<SweepStat>)
    returns (j: nat, k: nat)
    requires IsSqrt(sqrt) && RecordsSignConsistent(data) && 0.0 < t && pot != 0.0
    requires forall k :: 0 <= k < |xs| ==> 0 <= xs[k]
    requires b in PotBlocks(sqrt, data, t, pot, caps, xs)
    ensures j < |caps| && k < |xs| && b == StepSpec(sqrt, data, t, pot, caps[j], xs[k])
  {
    var n := |caps| - 1;
    if b in PotBlocks(sqrt, data, t, pot, caps[..n], xs) {
      j, k := PotBlocksMember(sqrt, data, t, pot, caps[..n], xs, b);
      assert caps[..n][j] == caps[j];
    } else {
      k := CapBlocksMember(sqrt, data, t, pot, caps[n], xs, b);
      j := n;
    }
  }

  /** A block of the grid is a grid point. */
  lemma {:induction false} AllBlocksMember(sqrt: Root, data: seq<Contribution>, t: real, pots: seq<real>,
                                           caps: seq<real>, xs: seq<int>, b: seq<SweepStat>)
    returns (i: nat, j: nat, k: nat)
    requires IsSqrt(sqrt) && RecordsSignConsistent(data) && 0.0 < t
    requires forall i :: 0 <= i < |pots| ==> pots[i] != 0.0
    requires forall k :: 0 <= k < |xs| ==> 0 <= xs[k]
    requires b in AllBlocks(sqrt, data, t, pots, caps, xs)
    ensures i < |pots| && j < |caps| && k < |xs| && b == StepSpec(sqrt, data, t, pots[i], caps[j], xs[k])
  {
    var n := |pots| - 1;
    if b in AllBlocks(sqrt, data, t, pots[..n], caps, xs) {
      i, j, k := AllBlocksMember(sqrt, data, t, pots[..n], caps, xs, b);
      assert pots[..n][i] == pots[i];
    } else {
      i := n;
      j, k := PotBlocksMember(sqrt, data, t, pots[n], caps, xs, b);
    }
  }

  /** A record of the grid is a record of a grid point. */
  lemma {:induction false} GridPoint(sqrt: Root, data: seq<Contribution>, t: real,
                                     pots: seq<real>, caps: seq<real>, xs: seq<int>, r: SweepStat)
    returns (i: nat, j: nat, k: nat)
    requires IsSqrt(sqrt) && RecordsSignConsistent(data) && 0.0 < t
    requires forall i :: 0 <= i < |pots| ==> pots[i] != 0.0
    requires forall k :: 0 <= k < |xs| ==> 0 <= xs[k]
    requires r in Flatten(AllBlocks(sqrt, data, t, pots, caps, xs))
    ensures i < |pots| && j < |caps| && k < |xs|
    ensures RowOfPoint(r, xs[k], pots[i], caps[j])
  {
    var bs := AllBlocks(sqrt, data, t, pots, caps, xs);
    FlattenMember(bs, r);
    var m :| 0 <= m < |bs| && r in bs[m];
    i, j, k := AllBlocksMember(sqrt, data, t, pots, caps, xs, bs[m]);
    var q :| 0 <= q < |bs[m]| && bs[m][q] == r;
    StepRow(sqrt, data, t, pots[i], caps[j], xs[k], q);
  }

  /** Every record of the grid belongs to a grid point, carries its tags and
      does not exceed its cap amount when pots and caps are positive. */
  lemma {:induction false} GridRow(sqrt: Root, data: seq<Contribution>, t: real,
                                   pots: seq<real>, caps: seq<real>, xs: seq<int>, r: SweepStat)
    requires IsSqrt(sqrt) && RecordsSignConsistent(data) && 0.0 < t
    requires forall i :: 0 <= i < |pots| ==> 0.0 < pots[i]
    requires forall j :: 0 <= j < |caps| ==> 0.0 < caps[j]
    requires forall k :: 0 <= k < |xs| ==> 0 <= xs[k]
    requires r in Flatten(AllBlocks(sqrt, data, t, pots, caps, xs))
    ensures r.totalPot in pots && r.capPct in caps && r.txns in xs
    ensures r.capAmt == r.capPct * r.totalPot
    ensures r.stat.clrAmount <= r.capAmt && r.stat.oneMatch <= r.capAmt
  {
    var i, j, k := GridPoint(sqrt, data, t, pots, caps, xs, r);
  }

  /** Every record of calculate_clr_by_txn belongs to a point of the grid:
      a pot of `poss_total_pots`, a cap of `poss_caps` and a prefix length
      that is a multiple of the bin size below `txns + bin_size`; `cap_amt`
      is `cap_pct * total_pot`, and neither amount exceeds it. */
  lemma {:induction false} SweepRowsPlus(sqrt: Root, data: seq<Contribution>, threshold: real,
                                         upperPot: int, potBy: int, capBy: int, txns: int, binSize: int, r: SweepStat)
    requires IsSqrt(sqrt) && RecordsSignConsistent(data) && 0.0 < threshold
    requires 0 < potBy && 0 < capBy && 0 < binSize
    requires r in Flatten(AllBlocks(sqrt, data, threshold, Pots(upperPot, potBy), Caps(capBy), Prefixes(txns, binSize)))
    ensures r.totalPot in Pots(upperPot, potBy) && r.capPct in Caps(capBy)
    ensures r.txns in Prefixes(txns, binSize) && 0 <= r.txns < txns + binSize
    ensures exists k: nat :: r.txns == k * binSize
    ensures r.capAmt == r.capPct * r.totalPot
    ensures r.stat.clrAmount <= r.capAmt && r.stat.oneMatch <= r.capAmt
  {
    var pots, caps, xs := Pots(upperPot, potBy), Caps(capBy), Prefixes(txns, binSize);
    assert forall j :: 0 <= j < |caps| ==> 0.0 < caps[j] by {
      forall j | 0 <= j < |caps| ensures 0.0 < caps[j] {
        if j < |caps| - 1 {
          assert 0.05 <= caps[j];
        }
      }
    }
    GridRow(sqrt, data, threshold, pots, caps, xs, r);
    var k :| 0 <= k < |xs| && xs[k] == r.txns;
    assert r.txns == k * binSize;
  }
}
