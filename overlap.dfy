/** PairOverlapIndex: `tot_overlap[k1][k2]` accumulates `(v1 * v2) ** 0.5` over
    every grant and every ordered pair of its contributors, the diagonal
    included. */
module PairOverlap {
  import opened Basics
  import opened Aggregation

  /** `tot_overlap = {user_id: {user_id: pair_total}}`; only looked up, so
      its key order plays no part. */
  type Overlap = map<Id, map<Id, real>>

  predicate Has(ov: Overlap, a: Id, b: Id) {
    a in ov && b in ov[a]
  }

  /** `tot_overlap[a][b]`, read as 0 where the entry does not exist. */
  function Get2(ov: Overlap, a: Id, b: Id): real {
    if Has(ov, a, b) then ov[a][b] else 0.0
  }

  /** `if k1 not in tot_overlap: tot_overlap[k1] = {}` */
  function OpenRow(ov: Overlap, k1: Id): Overlap {
    if k1 in ov then ov else ov[k1 := map[]]
  }

  /** `if k2 not in tot_overlap[k1]: tot_overlap[k1][k2] = 0` followed by
      `tot_overlap[k1][k2] += x` */
  function AddCell(ov: Overlap, k1: Id, k2: Id, x: real): Overlap
    requires k1 in ov
  {
    ov[k1 := ov[k1][k2 := (if k2 in ov[k1] then ov[k1][k2] else 0.0) + x]]
  }

  /** AddCell is the two statements of the loop body. */
  lemma AddCellSteps(ov: Overlap, k1: Id, k2: Id, x: real)
    requires k1 in ov
    ensures var o := if k2 !in ov[k1] then ov[k1 := ov[k1][k2 := 0.0]] else ov;
            o[k1 := o[k1][k2 := o[k1][k2] + x]] == AddCell(ov, k1, k2, x)
  {
    var o := if k2 !in ov[k1] then ov[k1 := ov[k1][k2 := 0.0]] else ov;
    assert o[k1][k2 := o[k1][k2] + x] == ov[k1][k2 := (if k2 in ov[k1] then ov[k1][k2] else 0.0) + x];
  }

  /** The inner loop: row k1 (amount v1) against the contributors `ds`. */
  function RowFold(sqrt: Root, ov: Overlap, k1: Id, v1: real, ds: Donors): (r: Overlap)
    requires k1 in ov
    ensures k1 in r
  {
    if ds == [] then ov
    else
      var n := |ds| - 1;
      AddCell(RowFold(sqrt, ov, k1, v1, ds[..n]), k1, ds[n].0, PairRoot(sqrt, v1, ds[n].1))
  }

  /** The middle loop for one grant: rows for the contributors in `pre`
      (a prefix of the grant's contributors `all`). */
  function GrantFold(sqrt: Root, ov: Overlap, pre: Donors, all: Donors): Overlap {
    if pre == [] then ov
    else
      var n := |pre| - 1;
      RowFold(sqrt, OpenRow(GrantFold(sqrt, ov, pre[..n], all), pre[n].0), pre[n].0, pre[n].1, all)
  }

  /** `tot_overlap` after the loop over the grants of `c`. */
  function OverlapSpec(sqrt: Root, c: Ledger): Overlap {
    if c == [] then map[]
    else
      var n := |c| - 1;
      GrantFold(sqrt, OverlapSpec(sqrt, c[..n]), c[n].1, c[n].1)
  }

  /** What a grant with contributors ds adds to the pair score of a and b. */
  function GrantTerm(sqrt: Root, ds: Donors, a: Id, b: Id): real {
    if a in Keys(ds) && b in Keys(ds) then PairRoot(sqrt, AmountOf(ds, a), AmountOf(ds, b)) else 0.0
  }

  /** Reference definition: the sum over the grants that both a and b gave
      to of the root of the product of their aggregated amounts. */
  function PairScore(sqrt: Root, c: Ledger, a: Id, b: Id): real {
    if c == [] then 0.0
    else
      var n := |c| - 1;
      var ds := c[n].1;
      PairScore(sqrt, c[..n], a, b) + GrantTerm(sqrt, ds, a, b)
  }

  /** a and b both gave to some grant of c (a == b allowed). */
  predicate CoOccur(c: Ledger, a: Id, b: Id) {
    exists i :: 0 <= i < |c| && a in Keys(c[i].1) && b in Keys(c[i].1)
  }

  /** a gave to some grant of c. */
  predicate Contributes(c: Ledger, a: Id) {
    exists i :: 0 <= i < |c| && a in Keys(c[i].1)
  }

  ghost predicate DistinctDonors(c: Ledger) {
    forall i :: 0 <= i < |c| ==> Distinct(Keys(c[i].1))
  }

  // ---------------------------------------------------------------------
  // The overlap loops

  /** aggregate_contributions, second half (get_totals_by_pair in round 7):
      the loop over the grants. */
  method PairTotals(sqrt: Root, c: Ledger) returns (ov: Overlap)
    ensures ov == OverlapSpec(sqrt, c)
  {
    ov := map[];
    for i := 0 to |c|
      invariant ov == OverlapSpec(sqrt, c[..i])
    {
      ov := AddGrant(sqrt, ov, c[i].1);
      assert c[..i + 1][..i] == c[..i];
    }
    assert c[..|c|] == c;
  }

  /** The loop over the contributors k1 of one grant. */
  method AddGrant(sqrt: Root, ov0: Overlap, ds: Donors) returns (ov: Overlap)
    ensures ov == GrantFold(sqrt, ov0, ds, ds)
  {
    ov := ov0;
    for j := 0 to |ds|
      invariant ov == GrantFold(sqrt, ov0, ds[..j], ds)
    {
      var k1, v1 := ds[j].0, ds[j].1;
      if k1 !in ov {
        ov := ov[k1 := map[]];
      }
      ov := AddRow(sqrt, ov, k1, v1, ds);
      assert ds[..j + 1][..j] == ds[..j];
    }
    assert ds[..|ds|] == ds;
  }

  /** The loop over the contributors k2 of the grant, for row k1. */
  method AddRow(sqrt: Root, ov0: Overlap, k1: Id, v1: real, ds: Donors) returns (ov: Overlap)
    requires k1 in ov0
    ensures ov == RowFold(sqrt, ov0, k1, v1, ds)
  {
    ov := ov0;
    for l := 0 to |ds|
      invariant k1 in ov
      invariant ov == RowFold(sqrt, ov0, k1, v1, ds[..l])
    {
      var k2, v2 := ds[l].0, ds[l].1;
      AddCellSteps(ov, k1, k2, PairRoot(sqrt, v1, v2));
      if k2 !in ov[k1] {
        ov := ov[k1 := ov[k1][k2 := 0.0]];
      }
      ov := ov[k1 := ov[k1][k2 := ov[k1][k2] + PairRoot(sqrt, v1, v2)]];
      assert ds[..l + 1][..l] == ds[..l];
    }
    assert ds[..|ds|] == ds;
  }

  // ---------------------------------------------------------------------
  // Entries and values, one loop level at a time

  lemma {:induction false} AddCellAt(ov: Overlap, k1: Id, k2: Id, x: real, a: Id, b: Id)
    requires k1 in ov
    ensures a in AddCell(ov, k1, k2, x) <==> a in ov
    ensures Has(AddCell(ov, k1, k2, x), a, b) <==> Has(ov, a, b) || (a == k1 && b == k2)
    ensures Get2(AddCell(ov, k1, k2, x), a, b)
         == Get2(ov, a, b) + (if a == k1 && b == k2 then x else 0.0)
  {
  }

  lemma {:induction false} OpenRowAt(ov: Overlap, k1: Id, a: Id, b: Id)
    ensures a in OpenRow(ov, k1) <==> a in ov || a == k1
    ensures Has(OpenRow(ov, k1), a, b) <==> Has(ov, a, b)
    ensures Get2(OpenRow(ov, k1), a, b) == Get2(ov, a, b)
  {
  }

  lemma {:induction false} AmountOfSnoc(ds: Donors, k: Id, v: real, w: Id)
    ensures AmountOf(ds + [(k, v)], w)
         == if w in Keys(ds) then AmountOf(ds, w) else if w == k then v else 0.0
  {
    if ds != [] {
      assert (ds + [(k, v)])[1..] == ds[1..] + [(k, v)];
      assert Keys(ds) == [ds[0].0] + Keys(ds[1..]);
      AmountOfSnoc(ds[1..], k, v, w);
    }
  }

  lemma {:induction false} RowFoldAt(sqrt: Root, ov: Overlap, k1: Id, v1: real, ds: Donors, a: Id, b: Id)
    requires k1 in ov
    ensures a in RowFold(sqrt, ov, k1, v1, ds) <==> a in ov
    ensures Has(RowFold(sqrt, ov, k1, v1, ds), a, b) <==> Has(ov, a, b) || (a == k1 && b in Keys(ds))
  {
    if ds != [] {
      var n := |ds| - 1;
      RowFoldAt(sqrt, ov, k1, v1, ds[..n], a, b);
      AddCellAt(RowFold(sqrt, ov, k1, v1, ds[..n]), k1, ds[n].0, PairRoot(sqrt, v1, ds[n].1), a, b);
      KeysSnoc(ds);
    }
  }

  /** What row k1 (amount v1) contributes to column b for the contributors `ds`. */
  function Cell(sqrt: Root, v1: real, ds: Donors, b: Id): real {
    if b in Keys(ds) then PairRoot(sqrt, v1, AmountOf(ds, b)) else 0.0
  }

  lemma {:induction false} CellSnoc(sqrt: Root, v1: real, ds: Donors, b: Id)
    requires ds != [] && Distinct(Keys(ds))
    ensures Cell(sqrt, v1, ds, b)
         == Cell(sqrt, v1, ds[..|ds| - 1], b) + (if b == ds[|ds| - 1].0 then PairRoot(sqrt, v1, ds[|ds| - 1].1) else 0.0)
  {
    KeysSnoc(ds);
    DistinctSnoc(Keys(ds));
    AmountOfLast(ds, b);
  }

  lemma {:induction false} AmountOfLast(ds: Donors, w: Id)
    requires ds != []
    ensures var n := |ds| - 1;
            AmountOf(ds, w) == if w in Keys(ds[..n]) then AmountOf(ds[..n], w) else if w == ds[n].0 then ds[n].1 else 0.0
  {
    var n := |ds| - 1;
    assert ds == ds[..n] + [(ds[n].0, ds[n].1)];
    AmountOfSnoc(ds[..n], ds[n].0, ds[n].1, w);
  }

  lemma {:induction false} RowFoldValue(sqrt: Root, ov: Overlap, k1: Id, v1: real, ds: Donors, a: Id, b: Id)
    requires k1 in ov && Distinct(Keys(ds))
    ensures Get2(RowFold(sqrt, ov, k1, v1, ds), a, b)
         == Get2(ov, a, b) + (if a == k1 then Cell(sqrt, v1, ds, b) else 0.0)
  {
    if ds != [] {
      var n := |ds| - 1;
      KeysSnoc(ds);
      DistinctSnoc(Keys(ds));
      RowFoldValue(sqrt, ov, k1, v1, ds[..n], a, b);
      AddCellAt(RowFold(sqrt, ov, k1, v1, ds[..n]), k1, ds[n].0, PairRoot(sqrt, v1, ds[n].1), a, b);
      CellSnoc(sqrt, v1, ds, b);
    }
  }

  lemma {:induction false} GrantFoldAt(sqrt: Root, ov: Overlap, pre: Donors, all: Donors, a: Id, b: Id)
    ensures a in GrantFold(sqrt, ov, pre, all) <==> a in ov || a in Keys(pre)
    ensures Has(GrantFold(sqrt, ov, pre, all), a, b)
        <==> Has(ov, a, b) || (a in Keys(pre) && b in Keys(all))
  {
    if pre != [] {
      var n := |pre| - 1;
      var g := GrantFold(sqrt, ov, pre[..n], all);
      GrantFoldAt(sqrt, ov, pre[..n], all, a, b);
      OpenRowAt(g, pre[n].0, a, b);
      RowFoldAt(sqrt, OpenRow(g, pre[n].0), pre[n].0, pre[n].1, all, a, b);
      KeysSnoc(pre);
    }
  }

  lemma {:induction false} GrantFoldValue(sqrt: Root, ov: Overlap, pre: Donors, all: Donors, a: Id, b: Id)
    requires Distinct(Keys(all)) && |pre| <= |all| && pre == all[..|pre|]
    ensures Get2(GrantFold(sqrt, ov, pre, all), a, b) == FoldedValue(sqrt, ov, pre, all, a, b)
  {
    if pre != [] {
      var n := |pre| - 1;
      assert pre[..n] == all[..n];
      GrantFoldValue(sqrt, ov, pre[..n], all, a, b);
      GrantFoldStep(sqrt, ov, pre, all, a, b);
    }
  }

  /** The value GrantFoldValue states for entry (a, b). */
  function FoldedValue(sqrt: Root, ov: Overlap, pre: Donors, all: Donors, a: Id, b: Id): real {
    Get2(ov, a, b) + (if a in Keys(pre) && b in Keys(all) then PairRoot(sqrt, AmountOf(all, a), AmountOf(all, b)) else 0.0)
  }

  lemma {:induction false} GrantFoldStep(sqrt: Root, ov: Overlap, pre: Donors, all: Donors, a: Id, b: Id)
    requires Distinct(Keys(all)) && 0 < |pre| <= |all| && pre == all[..|pre|]
    requires Get2(GrantFold(sqrt, ov, pre[..|pre| - 1], all), a, b) == FoldedValue(sqrt, ov, pre[..|pre| - 1], all, a, b)
    ensures Get2(GrantFold(sqrt, ov, pre, all), a, b) == FoldedValue(sqrt, ov, pre, all, a, b)
  {
    var n := |pre| - 1;
    var k1, v1 := pre[n].0, pre[n].1;
    var g := GrantFold(sqrt, ov, pre[..n], all);
    OpenRowAt(g, k1, a, b);
    RowFoldValue(sqrt, OpenRow(g, k1), k1, v1, all, a, b);
    assert Get2(GrantFold(sqrt, ov, pre, all), a, b)
        == Get2(g, a, b) + (if a == k1 then Cell(sqrt, v1, all, b) else 0.0);
    FoldedValueStep(sqrt, ov, pre, all, a, b);
  }

  lemma {:induction false} FoldedValueStep(sqrt: Root, ov: Overlap, pre: Donors, all: Donors, a: Id, b: Id)
    requires Distinct(Keys(all)) && 0 < |pre| <= |all| && pre == all[..|pre|]
    ensures var n := |pre| - 1;
      FoldedValue(sqrt, ov, pre, all, a, b)
      == FoldedValue(sqrt, ov, pre[..n], all, a, b) + (if a == pre[n].0 then Cell(sqrt, pre[n].1, all, b) else 0.0)
  {
    var n := |pre| - 1;
    var k1 := pre[n].0;
    KeysSnoc(pre);
    if a == k1 {
      PrefixKeysDistinct(pre, all);
      DistinctSnoc(Keys(pre));
      assert a !in Keys(pre[..n]);
      assert all[n] == pre[n];
      AmountAtFirst(all, n);
    } else {
      assert a in Keys(pre) <==> a in Keys(pre[..n]);
    }
  }

  lemma {:induction false} PrefixKeysDistinct(pre: Donors, all: Donors)
    requires Distinct(Keys(all)) && |pre| <= |all| && pre == all[..|pre|]
    ensures Distinct(Keys(pre))
  {
    forall i, j | 0 <= i < j < |pre| ensures Keys(pre)[i] != Keys(pre)[j] {
      assert Keys(pre)[i] == Keys(all)[i] && Keys(pre)[j] == Keys(all)[j];
    }
  }

  lemma {:induction false} CoOccurSnoc(c: Ledger, a: Id, b: Id)
    requires c != []
    ensures CoOccur(c, a, b)
        <==> CoOccur(c[..|c| - 1], a, b) || (a in Keys(c[|c| - 1].1) && b in Keys(c[|c| - 1].1))
  {
    var n := |c| - 1;
    if CoOccur(c, a, b) {
      var i :| 0 <= i < |c| && a in Keys(c[i].1) && b in Keys(c[i].1);
      if i < n {
        assert c[..n][i] == c[i];
      }
    }
    if CoOccur(c[..n], a, b) {
      var i :| 0 <= i < n && a in Keys(c[..n][i].1) && b in Keys(c[..n][i].1);
      assert c[i] == c[..n][i];
    }
  }

  lemma {:induction false} ContributesSnoc(c: Ledger, a: Id)
    requires c != []
    ensures Contributes(c, a) <==> Contributes(c[..|c| - 1], a) || a in Keys(c[|c| - 1].1)
  {
    var n := |c| - 1;
    if Contributes(c, a) {
      var i :| 0 <= i < |c| && a in Keys(c[i].1);
      if i < n {
        assert c[..n][i] == c[i];
      }
    }
    if Contributes(c[..n], a) {
      var i :| 0 <= i < n && a in Keys(c[..n][i].1);
      assert c[i] == c[..n][i];
    }
  }

  /** The rows of `tot_overlap` are exactly the contributors and its entries
      exactly the pairs that gave to a common grant. */
  lemma {:induction false} OverlapAt(sqrt: Root, c: Ledger, a: Id, b: Id)
    ensures a in OverlapSpec(sqrt, c) <==> Contributes(c, a)
    ensures Has(OverlapSpec(sqrt, c), a, b) <==> CoOccur(c, a, b)
  {
    if c != [] {
      var n := |c| - 1;
      OverlapAt(sqrt, c[..n], a, b);
      GrantFoldAt(sqrt, OverlapSpec(sqrt, c[..n]), c[n].1, c[n].1, a, b);
      CoOccurSnoc(c, a, b);
      ContributesSnoc(c, a);
    }
  }

  lemma {:induction false} OverlapEntries(sqrt: Root, c: Ledger)
    ensures forall a, b :: Has(OverlapSpec(sqrt, c), a, b) <==> CoOccur(c, a, b)
    ensures forall a :: a in OverlapSpec(sqrt, c) <==> Contributes(c, a)
  {
    forall a, b ensures Has(OverlapSpec(sqrt, c), a, b) <==> CoOccur(c, a, b) {
      OverlapAt(sqrt, c, a, b);
    }
    forall a ensures a in OverlapSpec(sqrt, c) <==> Contributes(c, a) {
      OverlapAt(sqrt, c, a, a);
    }
  }

  /** `tot_overlap[a][b]` is the reference pair score. */
  lemma {:induction false} OverlapValues(sqrt: Root, c: Ledger, a: Id, b: Id)
    requires DistinctDonors(c)
    ensures Get2(OverlapSpec(sqrt, c), a, b) == PairScore(sqrt, c, a, b)
  {
    if c != [] {
      var n := |c| - 1;
      assert DistinctDonors(c[..n]) by {
        forall i | 0 <= i < n ensures Distinct(Keys(c[..n][i].1)) {
          assert c[..n][i] == c[i];
        }
      }
      OverlapValues(sqrt, c[..n], a, b);
      assert c[n].1[..|c[n].1|] == c[n].1;
      GrantFoldValue(sqrt, OverlapSpec(sqrt, c[..n]), c[n].1, c[n].1, a, b);
    }
  }

  lemma {:induction false} PairScoreSymmetric(sqrt: Root, c: Ledger, a: Id, b: Id)
    ensures PairScore(sqrt, c, a, b) == PairScore(sqrt, c, b, a)
  {
    if c != [] {
      var n := |c| - 1;
      PairScoreSymmetric(sqrt, c[..n], a, b);
      var ds := c[n].1;
      assert AmountOf(ds, a) * AmountOf(ds, b) == AmountOf(ds, b) * AmountOf(ds, a);
    }
  }

  /** `tot_overlap` is symmetric: the same entries exist both ways round and
      hold the same value. */
  lemma {:induction false} OverlapSymmetric(sqrt: Root, c: Ledger, a: Id, b: Id)
    requires DistinctDonors(c)
    ensures Has(OverlapSpec(sqrt, c), a, b) <==> Has(OverlapSpec(sqrt, c), b, a)
    ensures Get2(OverlapSpec(sqrt, c), a, b) == Get2(OverlapSpec(sqrt, c), b, a)
  {
    OverlapAt(sqrt, c, a, b);
    OverlapAt(sqrt, c, b, a);
    OverlapValues(sqrt, c, a, b);
    OverlapValues(sqrt, c, b, a);
    PairScoreSymmetric(sqrt, c, a, b);
  }

  /** The diagonal is included: every contributor has an entry with itself. */
  lemma {:induction false} OverlapDiagonal(sqrt: Root, c: Ledger, a: Id)
    requires a in OverlapSpec(sqrt, c)
    ensures Has(OverlapSpec(sqrt, c), a, a)
  {
    OverlapAt(sqrt, c, a, a);
  }

  /** Every pair of contributors of a grant of c has an entry. */
  lemma {:induction false} OverlapCovers(sqrt: Root, c: Ledger, i: nat, a: Id, b: Id)
    requires i < |c| && a in Keys(c[i].1) && b in Keys(c[i].1)
    ensures Has(OverlapSpec(sqrt, c), a, b)
  {
    OverlapAt(sqrt, c, a, b);
  }

  /** With a true square root and sign-consistent amounts every entry is
      non-negative. */
  lemma {:induction false} PairScoreNonNegative(sqrt: Root, c: Ledger, a: Id, b: Id)
    requires IsSqrt(sqrt) && DistinctDonors(c) && SignConsistent(c)
    ensures 0.0 <= PairScore(sqrt, c, a, b)
  {
    if c != [] {
      var n := |c| - 1;
      PrefixPrepared(c, n);
      PairScoreNonNegative(sqrt, c[..n], a, b);
      GrantTermNonNegative(sqrt, c, n, a, b);
    }
  }

  lemma {:induction false} PrefixPrepared(c: Ledger, n: nat)
    requires DistinctDonors(c) && SignConsistent(c) && n <= |c|
    ensures DistinctDonors(c[..n]) && SignConsistent(c[..n])
  {
    forall i | 0 <= i < n ensures c[..n][i] == c[i] { }
  }

  lemma {:induction false} GrantTermNonNegative(sqrt: Root, c: Ledger, i: nat, a: Id, b: Id)
    requires IsSqrt(sqrt) && DistinctDonors(c) && SignConsistent(c) && i < |c|
    ensures 0.0 <= GrantTerm(sqrt, c[i].1, a, b)
  {
    var ds := c[i].1;
    if a in Keys(ds) && b in Keys(ds) {
      assert Distinct(Keys(ds));
      var ja := KeyIndex(ds, a);
      var jb := KeyIndex(ds, b);
      AmountAtFirst(ds, ja);
      AmountAtFirst(ds, jb);
      var x, y := ds[ja].1, ds[jb].1;
      SameSignAt(c, i, ja, jb);
      SameSignRoot(sqrt, x, y);
      assert GrantTerm(sqrt, ds, a, b) == PairRoot(sqrt, x, y);
    }
  }

  /** The pair score of two contributors of grant i is at least that grant's
      own term. */
  lemma {:induction false} PairScoreAtLeast(sqrt: Root, c: Ledger, i: nat, j1: nat, j2: nat)
    requires IsSqrt(sqrt) && DistinctDonors(c) && SignConsistent(c)
    requires i < |c| && j1 < |c[i].1| && j2 < |c[i].1|
    ensures PairRoot(sqrt, c[i].1[j1].1, c[i].1[j2].1) <= PairScore(sqrt, c, c[i].1[j1].0, c[i].1[j2].0)
  {
    var n := |c| - 1;
    var ds := c[i].1;
    var a, b := ds[j1].0, ds[j2].0;
    PrefixPrepared(c, n);
    if i == n {
      PairScoreNonNegative(sqrt, c[..n], a, b);
      AmountAtFirst(ds, j1);
      AmountAtFirst(ds, j2);
      assert a in Keys(ds) && b in Keys(ds);
    } else {
      assert c[..n][i] == c[i];
      PairScoreAtLeast(sqrt, c[..n], i, j1, j2);
      GrantTermNonNegative(sqrt, c, n, a, b);
    }
  }

  lemma {:induction false} SameSignAt(c: Ledger, i: nat, j1: nat, j2: nat)
    requires SignConsistent(c) && i < |c| && j1 < |c[i].1| && j2 < |c[i].1|
    ensures var x, y := c[i].1[j1].1, c[i].1[j2].1;
            (0.0 <= x && 0.0 <= y) || (x <= 0.0 && y <= 0.0)
  {
  }

  lemma {:induction false} ProductNonNegative(c: Ledger, i: nat, j1: nat, j2: nat)
    requires SignConsistent(c) && i < |c| && j1 < |c[i].1| && j2 < |c[i].1|
    ensures 0.0 <= c[i].1[j1].1 * c[i].1[j2].1
  {
    var x, y := c[i].1[j1].1, c[i].1[j2].1;
    if 0.0 <= x && 0.0 <= y {
      assert 0.0 <= x * y;
    } else {
      assert x <= 0.0 && y <= 0.0;
      assert 0.0 <= (-x) * (-y);
    }
  }

  lemma {:induction false} OverlapNonNegative(sqrt: Root, c: Ledger)
    requires IsSqrt(sqrt) && DistinctDonors(c) && SignConsistent(c)
    ensures forall a, b :: 0.0 <= Get2(OverlapSpec(sqrt, c), a, b)
  {
    forall a, b ensures 0.0 <= Get2(OverlapSpec(sqrt, c), a, b) {
      OverlapValues(sqrt, c, a, b);
      PairScoreNonNegative(sqrt, c, a, b);
    }
  }
}
