/** ContributionAggregator: folds `[grant_id, user_id, amount]` records into
    `contrib_dict = {grant_id: {user_id: aggregated_amount}}`. Python dicts keep
    insertion order, so both levels are association lists in insertion order. */
module Aggregation {
  import opened Basics

  /** One `[grant_id, user_id, contribution_amount]` record. */
  datatype Contribution = Contribution(grant: Id, user: Id, amount: real)

  /** One grant's `{user_id: aggregated_amount}` dict. */
  type Donors = seq<(Id, real)>

  /** `contrib_dict`: `{grant_id: {user_id: aggregated_amount}}`. */
  type Ledger = seq<(Id, Donors)>

  /** The keys of an association list, in order. */
  function Keys<V>(d: seq<(Id, V)>): (ks: seq<Id>)
    ensures |ks| == |d|
    ensures forall i :: 0 <= i < |d| ==> ks[i] == d[i].0
  {
    if d == [] then [] else [d[0].0] + Keys(d[1..])
  }

  lemma {:induction false} KeysSnoc<V>(d: seq<(Id, V)>)
    requires d != []
    ensures Keys(d) == Keys(d[..|d| - 1]) + [d[|d| - 1].0]
  {
  }

  /** A position at which key a occurs. */
  lemma {:induction false} KeyIndex<V>(d: seq<(Id, V)>, a: Id) returns (j: nat)
    requires a in Keys(d)
    ensures j < |d| && d[j].0 == a
  {
    var ks := Keys(d);
    j :| 0 <= j < |ks| && ks[j] == a;
  }

  /** `donors.get(user, 0)` */
  function AmountOf(ds: Donors, u: Id): real {
    if ds == [] then 0.0
    else if ds[0].0 == u then ds[0].1
    else AmountOf(ds[1..], u)
  }

  /** `contrib_dict.get(grant, {})` */
  function DonorsOf(c: Ledger, g: Id): Donors {
    if c == [] then []
    else if c[0].0 == g then c[0].1
    else DonorsOf(c[1..], g)
  }

  /** `donors[user] = donors.get(user, 0) + amount` */
  function Credit(ds: Donors, u: Id, a: real): Donors {
    if ds == [] then [(u, a)]
    else if ds[0].0 == u then [(u, ds[0].1 + a)] + ds[1..]
    else [ds[0]] + Credit(ds[1..], u, a)
  }

  /** `if grant not in contrib_dict: contrib_dict[grant] = {}` */
  function Open(c: Ledger, g: Id): Ledger {
    if g in Keys(c) then c else c + [(g, [])]
  }

  /** `contrib_dict[grant] = donors` for a grant that is already a key. */
  function SetDonors(c: Ledger, g: Id, ds: Donors): Ledger {
    if c == [] then []
    else if c[0].0 == g then [(g, ds)] + c[1..]
    else [c[0]] + SetDonors(c[1..], g, ds)
  }

  /** The effect of one record on `contrib_dict` (loop body of
      aggregate_contributions). */
  function Post(c: Ledger, r: Contribution): Ledger {
    var o := Open(c, r.grant);
    SetDonors(o, r.grant, Credit(DonorsOf(o, r.grant), r.user, r.amount))
  }

  /** `contrib_dict` after folding `recs` in order. */
  function AggregateSpec(recs: seq<Contribution>): Ledger {
    if recs == [] then [] else Post(AggregateSpec(recs[..|recs| - 1]), recs[|recs| - 1])
  }

  /** Reference definition: the total of all records for (g, u). */
  function SumFor(recs: seq<Contribution>, g: Id, u: Id): real {
    if recs == [] then 0.0
    else
      var r := recs[|recs| - 1];
      SumFor(recs[..|recs| - 1], g, u) + (if r.grant == g && r.user == u then r.amount else 0.0)
  }

  /** The grant ids of the records, in record order. */
  function GrantIds(recs: seq<Contribution>): (gs: seq<Id>)
    ensures |gs| == |recs|
    ensures forall i :: 0 <= i < |recs| ==> gs[i] == recs[i].grant
  {
    if recs == [] then [] else GrantIds(recs[..|recs| - 1]) + [recs[|recs| - 1].grant]
  }

  /** The contributors of grant g, in record order (with repetitions). */
  function UsersFor(recs: seq<Contribution>, g: Id): seq<Id> {
    if recs == [] then []
    else
      var r := recs[|recs| - 1];
      UsersFor(recs[..|recs| - 1], g) + (if r.grant == g then [r.user] else [])
  }

  /** No grant twice, no contributor twice within a grant, no empty grant. */
  ghost predicate WellFormed(c: Ledger) {
    && Distinct(Keys(c))
    && forall i :: 0 <= i < |c| ==> Distinct(Keys(c[i].1)) && c[i].1 != []
  }

  /** Every aggregated amount is non-negative, or every one is non-positive
      (the scripts take `** 0.5` of products of two amounts). */
  ghost predicate SignConsistent(c: Ledger) {
    (forall i, j :: 0 <= i < |c| && 0 <= j < |c[i].1| ==> 0.0 <= c[i].1[j].1)
    || (forall i, j :: 0 <= i < |c| && 0 <= j < |c[i].1| ==> c[i].1[j].1 <= 0.0)
  }

  ghost predicate RecordsSignConsistent(recs: seq<Contribution>) {
    (forall i :: 0 <= i < |recs| ==> 0.0 <= recs[i].amount)
    || (forall i :: 0 <= i < |recs| ==> recs[i].amount <= 0.0)
  }

  // ---------------------------------------------------------------------
  // The aggregation loop

  /** aggregate_contributions, first half: the accumulation loop. */
  method Aggregate(records: seq<Contribution>) returns (c: Ledger)
    ensures c == AggregateSpec(records)
  {
    c := [];
    var i := 0;
    while i < |records|
      invariant 0 <= i <= |records|
      invariant c == AggregateSpec(records[..i])
    {
      var r := records[i];
      if r.grant !in Keys(c) {
        c := c + [(r.grant, [])];
      }
      c := SetDonors(c, r.grant, Credit(DonorsOf(c, r.grant), r.user, r.amount));
      assert records[..i + 1][..i] == records[..i];
      i := i + 1;
    }
    assert records[..|records|] == records;
  }

  // ---------------------------------------------------------------------
  // Facts about one dict update

  lemma {:induction false} AmountOfCredit(ds: Donors, u: Id, a: real, w: Id)
    ensures AmountOf(Credit(ds, u, a), w) == AmountOf(ds, w) + (if w == u then a else 0.0)
  {
    if ds != [] && ds[0].0 != u {
      AmountOfCredit(ds[1..], u, a, w);
      assert Credit(ds, u, a)[1..] == Credit(ds[1..], u, a);
    }
  }

  lemma {:induction false} KeysCredit(ds: Donors, u: Id, a: real)
    ensures Keys(Credit(ds, u, a)) == if u in Keys(ds) then Keys(ds) else Keys(ds) + [u]
  {
    if ds == [] {
      assert Keys(Credit(ds, u, a)) == [u];
    } else if ds[0].0 == u {
      assert Keys(Credit(ds, u, a)) == [u] + Keys(ds[1..]) == Keys(ds);
      assert Keys(ds)[0] == u;
    } else {
      var rest := Credit(ds[1..], u, a);
      KeysCredit(ds[1..], u, a);
      assert Keys(Credit(ds, u, a)) == [ds[0].0] + Keys(rest);
      assert Keys(ds) == [ds[0].0] + Keys(ds[1..]);
      assert u in Keys(ds) <==> u in Keys(ds[1..]);
    }
  }

  lemma {:induction false} KeysSetDonors(c: Ledger, g: Id, ds: Donors)
    ensures Keys(SetDonors(c, g, ds)) == Keys(c)
  {
    if c != [] && c[0].0 != g {
      KeysSetDonors(c[1..], g, ds);
    }
  }

  lemma {:induction false} DonorsOfSetDonors(c: Ledger, g: Id, ds: Donors, h: Id)
    requires g in Keys(c)
    ensures DonorsOf(SetDonors(c, g, ds), h) == if h == g then ds else DonorsOf(c, h)
  {
    if c[0].0 != g {
      assert Keys(c) == [c[0].0] + Keys(c[1..]);
      DonorsOfSetDonors(c[1..], g, ds, h);
    }
  }

  lemma {:induction false} DonorsOfAppend(c: Ledger, g: Id, h: Id)
    requires g !in Keys(c)
    ensures DonorsOf(c + [(g, [])], h) == DonorsOf(c, h)
  {
    if c != [] {
      assert (c + [(g, [])])[1..] == c[1..] + [(g, [])];
      assert Keys(c) == [c[0].0] + Keys(c[1..]);
      if c[0].0 != h {
        DonorsOfAppend(c[1..], g, h);
      }
    }
  }

  lemma {:induction false} KeysOpen(c: Ledger, g: Id)
    ensures Keys(Open(c, g)) == if g in Keys(c) then Keys(c) else Keys(c) + [g]
  {
    var o := Open(c, g);
    if g !in Keys(c) {
      assert Keys(o) == Keys(c) + [g];
    }
  }

  /** One record changes only the grant it names, and within it only the
      contributor it names. */
  lemma {:induction false} PostDonors(c: Ledger, r: Contribution, h: Id)
    ensures Keys(Post(c, r)) == if r.grant in Keys(c) then Keys(c) else Keys(c) + [r.grant]
    ensures DonorsOf(Post(c, r), h)
         == if h == r.grant then Credit(DonorsOf(c, h), r.user, r.amount) else DonorsOf(c, h)
  {
    var o := Open(c, r.grant);
    KeysOpen(c, r.grant);
    if r.grant !in Keys(c) {
      DonorsOfAppend(c, r.grant, h);
      DonorsOfAppend(c, r.grant, r.grant);
    }
    KeysSetDonors(o, r.grant, Credit(DonorsOf(o, r.grant), r.user, r.amount));
    DonorsOfSetDonors(o, r.grant, Credit(DonorsOf(o, r.grant), r.user, r.amount), h);
  }

  // ---------------------------------------------------------------------
  // Properties of the aggregate

  /** `contrib_dict[g][u]` is the sum of the amounts of all records for (g, u);
      nothing is dropped or counted twice. */
  lemma {:induction false} AggregateAmounts(recs: seq<Contribution>, g: Id, u: Id)
    ensures AmountOf(DonorsOf(AggregateSpec(recs), g), u) == SumFor(recs, g, u)
  {
    if recs != [] {
      var n := |recs| - 1;
      var r := recs[n];
      AggregateAmounts(recs[..n], g, u);
      PostDonors(AggregateSpec(recs[..n]), r, g);
      if g == r.grant {
        AmountOfCredit(DonorsOf(AggregateSpec(recs[..n]), g), r.user, r.amount, u);
      }
    }
  }

  /** The grants of `contrib_dict` are the records' grant ids in order of first
      appearance: a grant is a key iff some record names it, and only once. */
  lemma {:induction false} AggregateGrants(recs: seq<Contribution>)
    ensures Keys(AggregateSpec(recs)) == Dedup(GrantIds(recs))
  {
    if recs != [] {
      var n := |recs| - 1;
      assert AggregateSpec(recs) == Post(AggregateSpec(recs[..n]), recs[n]);
      AggregateGrants(recs[..n]);
      PostDonors(AggregateSpec(recs[..n]), recs[n], recs[n].grant);
      assert GrantIds(recs) == GrantIds(recs[..n]) + [recs[n].grant];
      DedupSnoc(GrantIds(recs[..n]), recs[n].grant);
    }
  }

  /** The contributors of grant g are the users of g's records in order of
      first appearance. */
  lemma {:induction false} AggregateUsers(recs: seq<Contribution>, g: Id)
    ensures Keys(DonorsOf(AggregateSpec(recs), g)) == Dedup(UsersFor(recs, g))
  {
    if recs != [] {
      var n := |recs| - 1;
      var r := recs[n];
      assert AggregateSpec(recs) == Post(AggregateSpec(recs[..n]), r);
      AggregateUsers(recs[..n], g);
      PostDonors(AggregateSpec(recs[..n]), r, g);
      if r.grant == g {
        KeysCredit(DonorsOf(AggregateSpec(recs[..n]), g), r.user, r.amount);
        DedupSnoc(UsersFor(recs[..n], g), r.user);
      } else {
        assert UsersFor(recs, g) == UsersFor(recs[..n], g) + [];
        assert UsersFor(recs[..n], g) + [] == UsersFor(recs[..n], g);
      }
    }
  }

  lemma {:induction false} DonorsAt(c: Ledger, i: nat)
    requires i < |c| && Distinct(Keys(c))
    ensures DonorsOf(c, c[i].0) == c[i].1
  {
    if i > 0 {
      assert Keys(c[1..]) == Keys(c)[1..];
      assert c[0].0 != c[i].0;
      DonorsAt(c[1..], i - 1);
    }
  }

  lemma {:induction false} DonorsOfAbsent(c: Ledger, g: Id)
    requires g !in Keys(c)
    ensures DonorsOf(c, g) == []
  {
    if c != [] {
      assert Keys(c) == [c[0].0] + Keys(c[1..]);
      DonorsOfAbsent(c[1..], g);
    }
  }

  /** The aggregate is a proper two-level dict and every grant has at least
      one contributor. */
  lemma {:induction false} AggregateWellFormed(recs: seq<Contribution>)
    ensures WellFormed(AggregateSpec(recs))
  {
    var c := AggregateSpec(recs);
    AggregateGrants(recs);
    forall i | 0 <= i < |c|
      ensures Distinct(Keys(c[i].1)) && c[i].1 != []
    {
      DonorsAt(c, i);
      AggregateUsers(recs, c[i].0);
      assert c[i].0 in Keys(c);
      assert c[i].0 in GrantIds(recs);
      var k :| 0 <= k < |recs| && recs[k].grant == c[i].0;
      UsersForHas(recs, k);
      assert recs[k].user in Keys(c[i].1);
    }
  }

  lemma {:induction false} UsersForHas(recs: seq<Contribution>, k: nat)
    requires k < |recs|
    ensures recs[k].user in UsersFor(recs, recs[k].grant)
  {
    var n := |recs| - 1;
    if k < n {
      UsersForHas(recs[..n], k);
    }
  }

  /** With sign-consistent records the aggregated amounts are sign-consistent. */
  lemma {:induction false} AggregateSignConsistent(recs: seq<Contribution>)
    requires RecordsSignConsistent(recs)
    ensures SignConsistent(AggregateSpec(recs))
  {
    var c := AggregateSpec(recs);
    AggregateWellFormed(recs);
    var nonneg := forall i :: 0 <= i < |recs| ==> 0.0 <= recs[i].amount;
    forall i, j | 0 <= i < |c| && 0 <= j < |c[i].1|
      ensures if nonneg then 0.0 <= c[i].1[j].1 else c[i].1[j].1 <= 0.0
    {
      DonorsAt(c, i);
      AmountAtFirst(c[i].1, j);
      AggregateAmounts(recs, c[i].0, c[i].1[j].0);
      SumForSign(recs, c[i].0, c[i].1[j].0, if nonneg then 1.0 else -1.0);
    }
  }

  /** A sum of amounts that all have the sign of `s` has that sign. */
  lemma {:induction false} SumForSign(recs: seq<Contribution>, g: Id, u: Id, s: real)
    requires forall i :: 0 <= i < |recs| ==> 0.0 <= s * recs[i].amount
    ensures 0.0 <= s * SumFor(recs, g, u)
  {
    if recs != [] {
      var n := |recs| - 1;
      SumForSign(recs[..n], g, u, s);
      var r := recs[n];
      var last := if r.grant == g && r.user == u then r.amount else 0.0;
      assert 0.0 <= s * last;
      assert s * SumFor(recs, g, u) == s * SumFor(recs[..n], g, u) + s * last;
    }
  }

  /** In a list without repeated keys, the value read at an index is the one
      `get` returns for its key. */
  lemma {:induction false} AmountAtFirst(ds: Donors, j: nat)
    requires j < |ds| && Distinct(Keys(ds))
    ensures AmountOf(ds, ds[j].0) == ds[j].1
  {
    if j > 0 {
      assert Keys(ds[1..]) == Keys(ds)[1..];
      assert ds[0].0 != ds[j].0;
      AmountAtFirst(ds[1..], j - 1);
    }
  }
}
