/** What the calculators do to the raw per-grant totals once the grant loop
    is done: divide them by `bigtot / total_pot` so that they add up to the
    pot, sum them again, clip them at a cap, and look one grant up. */
module Distribution {
  import opened Basics
  import opened MatchEngine

  /** Every award with its amount divided by f; ids and order are kept. */
  function Scaled(ts: seq<Award>, f: real): (r: seq<Award>)
    requires f != 0.0 || ts == []
    ensures |r| == |ts|
    ensures forall i :: 0 <= i < |ts| ==> r[i].id == ts[i].id && r[i].amount * f == ts[i].amount
  {
    if ts == [] then []
    else
      var n := |ts| - 1;
      Scaled(ts[..n], f) + [Award(ts[n].id, ts[n].amount / f)]
  }

  /** Dividing every amount by f divides their sum by f. */
  lemma {:induction false} ScaledTotal(ts: seq<Award>, f: real)
    requires f != 0.0
    ensures Total(Scaled(ts, f)) * f == Total(ts)
  {
    if ts != [] {
      var n := |ts| - 1;
      var a := Award(ts[n].id, ts[n].amount / f);
      ScaledTotal(ts[..n], f);
      assert Scaled(ts, f) == Scaled(ts[..n], f) + [a];
      TotalSnoc(Scaled(ts[..n], f), a);
      assert ts == ts[..n] + [ts[n]];
      TotalSnoc(ts[..n], ts[n]);
      assert a.amount * f == ts[n].amount;
      assert Total(Scaled(ts, f)) * f == Total(Scaled(ts[..n], f)) * f + a.amount * f;
    }
  }

  /** The loop `for x in totals: x['clr_amount'] /= factor`, which raises
      ZeroDivisionError at its first element when the factor is zero. */
  method Rescale(totals: seq<Award>, factor: real) returns (r: Result<seq<Award>>)
    ensures r.Error? <==> factor == 0.0 && totals != []
    ensures r.Error? ==> r.failure == ZeroDivisionError
    ensures r.Ok? ==> r.value == Scaled(totals, factor)
  {
    var out := totals;
    for i := 0 to |totals|
      invariant 0 < i ==> factor != 0.0
      invariant |out| == |totals|
      invariant forall j :: 0 <= j < i ==> out[j] == Award(totals[j].id, totals[j].amount / factor)
      invariant forall j :: i <= j < |totals| ==> out[j] == totals[j]
    {
      if factor == 0.0 {
        return Error(ZeroDivisionError);
      }
      out := out[i := Award(out[i].id, out[i].amount / factor)];
    }
    if totals != [] {
      forall j | 0 <= j < |totals| ensures out[j] == Scaled(totals, factor)[j] {
        assert Scaled(totals, factor)[j].amount * factor == totals[j].amount;
      }
    }
    return Ok(out);
  }

  /** `normalization_factor = bigtot / total_pot` followed by the division
      loop, where `bigtot` is the sum of the raw totals. */
  function NormalizeSpec(ts: seq<Award>, totalPot: real): Result<seq<Award>> {
    if totalPot == 0.0 then Error(ZeroDivisionError)
    else if Total(ts) / totalPot == 0.0 && ts != [] then Error(ZeroDivisionError)
    else Ok(Scaled(ts, Total(ts) / totalPot))
  }

  /** Normalisation as the scripts run it, given the `bigtot` they summed. */
  method Normalize(totals: seq<Award>, bigtot: real, totalPot: real) returns (r: Result<seq<Award>>)
    requires bigtot == Total(totals)
    ensures r == NormalizeSpec(totals, totalPot)
  {
    if totalPot == 0.0 {
      return Error(ZeroDivisionError);
    }
    var factor := bigtot / totalPot;
    r := Rescale(totals, factor);
  }

  /** Normalisation fails exactly on a zero pot or on a non-empty list whose
      amounts sum to zero. */
  lemma {:induction false} NormalizeFails(ts: seq<Award>, totalPot: real)
    ensures NormalizeSpec(ts, totalPot).Error? <==> totalPot == 0.0 || (ts != [] && Total(ts) == 0.0)
  {
    if totalPot != 0.0 {
      QuotientZero(Total(ts), totalPot);
    }
  }

  /** Otherwise it keeps the grants in order and scales every amount by the
      same `total_pot / bigtot`. */
  lemma {:induction false} NormalizeProportional(ts: seq<Award>, totalPot: real)
    requires NormalizeSpec(ts, totalPot).Ok?
    ensures Ids(NormalizeSpec(ts, totalPot).value) == Ids(ts)
    ensures forall i :: 0 <= i < |ts| ==>
      NormalizeSpec(ts, totalPot).value[i].amount * Total(ts) == ts[i].amount * totalPot
  {
    var f := Total(ts) / totalPot;
    QuotientZero(Total(ts), totalPot);
    assert NormalizeSpec(ts, totalPot).value == Scaled(ts, f);
    ScaledIds(ts, f);
    ScaledProportional(ts, f, totalPot);
  }

  /** And the normalised amounts of a non-empty list add up to the pot. */
  lemma {:induction false} NormalizeSumsToPot(ts: seq<Award>, totalPot: real)
    requires NormalizeSpec(ts, totalPot).Ok? && ts != []
    ensures Total(NormalizeSpec(ts, totalPot).value) == totalPot
  {
    var f := Total(ts) / totalPot;
    QuotientZero(Total(ts), totalPot);
    ScaledTotal(ts, f);
    Cancel(Total(Scaled(ts, f)), f, totalPot);
  }

  lemma {:induction false} ScaledIds(ts: seq<Award>, f: real)
    requires f != 0.0 || ts == []
    ensures Ids(Scaled(ts, f)) == Ids(ts)
  {
    assert forall i :: 0 <= i < |ts| ==> Ids(Scaled(ts, f))[i] == Ids(ts)[i];
  }

  lemma {:induction false} ScaledProportional(ts: seq<Award>, f: real, p: real)
    requires (f != 0.0 || ts == []) && Total(ts) == f * p
    ensures forall i :: 0 <= i < |ts| ==> Scaled(ts, f)[i].amount * Total(ts) == ts[i].amount * p
  {
    forall i | 0 <= i < |ts| ensures Scaled(ts, f)[i].amount * Total(ts) == ts[i].amount * p {
      ScaledProportionalAt(ts, f, p, i);
    }
  }

  lemma {:induction false} ScaledProportionalAt(ts: seq<Award>, f: real, p: real, i: nat)
    requires (f != 0.0 || ts == []) && Total(ts) == f * p && i < |ts|
    ensures Scaled(ts, f)[i].amount * Total(ts) == ts[i].amount * p
  {
    var x := Scaled(ts, f)[i].amount;
    assert x * f == ts[i].amount;
    Proportional(x, ts[i].amount, f, Total(ts), p);
  }

  lemma {:induction false} QuotientZero(t: real, p: real)
    requires p != 0.0
    ensures t / p == 0.0 <==> t == 0.0
    ensures t == (t / p) * p
  {
  }

  lemma {:induction false} Proportional(x: real, a: real, f: real, t: real, p: real)
    requires x * f == a && t == f * p
    ensures x * t == a * p
  {
    calc {
      x * t;
      x * (f * p);
      (x * f) * p;
    }
  }

  lemma {:induction false} Cancel(x: real, f: real, p: real)
    requires f != 0.0 && x * f == f * p
    ensures x == p
  {
    assert (x - p) * f == 0.0;
  }

  /** The loop `for x in totals: bigtot += x['clr_amount']`. */
  method SumAmounts(totals: seq<Award>) returns (bigtot: real)
    ensures bigtot == Total(totals)
  {
    bigtot := 0.0;
    for i := 0 to |totals|
      invariant bigtot == Total(totals[..i])
    {
      assert totals[..i + 1] == totals[..i] + [totals[i]];
      TotalSnoc(totals[..i], totals[i]);
      bigtot := bigtot + totals[i].amount;
    }
    assert totals[..|totals|] == totals;
  }

  /** Clipping at a cap: `if x >= cap: x = cap`. */
  function Clamp(x: real, cap: real): (r: real)
    ensures r <= x && r <= cap
    ensures r == x || r == cap
  {
    if x >= cap then cap else x
  }

  /** `list(filter(lambda x: x['id'] == grant_id, res))[0]['clr_amount']`:
      the amount of the first award for the grant. */
  function AmountFor(ts: seq<Award>, id: Id): (a: real)
    requires id in Ids(ts)
  {
    if ts[0].id == id then ts[0].amount
    else
      assert Ids(ts) == [ts[0].id] + Ids(ts[1..]);
      AmountFor(ts[1..], id)
  }

  /** The first award for a grant is the one `filter(...)[0]` picks. */
  lemma {:induction false} AmountForFirst(ts: seq<Award>, j: nat)
    requires j < |ts| && forall k :: 0 <= k < j ==> ts[k].id != ts[j].id
    ensures ts[j].id in Ids(ts) && AmountFor(ts, ts[j].id) == ts[j].amount
  {
    assert Ids(ts)[j] == ts[j].id;
    if j != 0 {
      assert Ids(ts) == [ts[0].id] + Ids(ts[1..]);
      AmountForFirst(ts[1..], j - 1);
    }
  }
}
