/** `translate_data`: the grant/contribution JSON shape flattened into
    `[grant_id, user, amount]` triples. The same function appears, line for
    line, in contrib_calculator_r4.py, contrib_calculator_r5.py and
    contrib_calculator_r6.py. */
module Translation {
  import opened Basics
  import opened Aggregation

  /** `{'id': ..., 'contributions': [{profile: amount}, ...]}`; each entry
      is the first key and value of its one-entry dict. */
  datatype GrantData = GrantData(id: Id, contributions: seq<(Id, real)>)

  /** The triple built from entry j of grant g. */
  function Triple(g: GrantData, j: nat): Contribution
    requires j < |g.contributions|
  {
    Contribution(g.id, g.contributions[j].0, g.contributions[j].1)
  }

  /** The number of contribution entries over all grants. */
  function EntryCount(gs: seq<GrantData>): nat {
    if gs == [] then 0 else EntryCount(gs[..|gs| - 1]) + |gs[|gs| - 1].contributions|
  }

  /** The triples of the grants before the j-th entry of the last one. */
  function TranslatedUpTo(gs: seq<GrantData>, j: nat): seq<Contribution>
    requires gs != [] && j <= |gs[|gs| - 1].contributions|
    decreases |gs|, 0, j
  {
    if j == 0 then TranslateSpec(gs[..|gs| - 1])
    else TranslatedUpTo(gs, j - 1) + [Triple(gs[|gs| - 1], j - 1)]
  }

  /** What the two nested loops append, grant by grant and entry by entry. */
  function TranslateSpec(gs: seq<GrantData>): seq<Contribution>
    decreases |gs|, 1, 0
  {
    if gs == [] then [] else TranslatedUpTo(gs, |gs[|gs| - 1].contributions|)
  }

  method TranslateData(grantsData: seq<GrantData>) returns (grantsList: seq<Contribution>)
    ensures grantsList == TranslateSpec(grantsData)
  {
    grantsList := [];
    for i := 0 to |grantsData|
      invariant grantsList == TranslateSpec(grantsData[..i])
    {
      var g := grantsData[i];
      var pre := grantsData[..i + 1];
      assert pre[..i] == grantsData[..i] && pre[i] == g;
      for j := 0 to |g.contributions|
        invariant grantsList == TranslatedUpTo(pre, j)
      {
        grantsList := grantsList + [Triple(g, j)];
      }
    }
    assert grantsData[..|grantsData|] == grantsData;
  }

  /** Translating emits exactly one triple per contribution entry. */
  lemma {:induction false} TranslateLength(gs: seq<GrantData>)
    ensures |TranslateSpec(gs)| == EntryCount(gs)
  {
    if gs != [] {
      TranslateLength(gs[..|gs| - 1]);
      UpToLength(gs, |gs[|gs| - 1].contributions|);
    }
  }

  lemma {:induction false} UpToLength(gs: seq<GrantData>, j: nat)
    requires gs != [] && j <= |gs[|gs| - 1].contributions|
    requires |TranslateSpec(gs[..|gs| - 1])| == EntryCount(gs[..|gs| - 1])
    ensures |TranslatedUpTo(gs, j)| == EntryCount(gs[..|gs| - 1]) + j
  {
    if j != 0 {
      UpToLength(gs, j - 1);
    }
  }

  /** Entry j of grant k becomes the triple at position EntryCount(gs[..k]) + j:
      grants in input order, and each grant's entries in input order. */
  lemma {:induction false} TranslateAt(gs: seq<GrantData>, k: nat, j: nat)
    requires k < |gs| && j < |gs[k].contributions|
    ensures EntryCount(gs[..k]) + j < |TranslateSpec(gs)|
    ensures TranslateSpec(gs)[EntryCount(gs[..k]) + j] == Triple(gs[k], j)
  {
    var n := |gs| - 1;
    var init := gs[..n];
    TranslateLength(init);
    TranslateLength(gs);
    assert EntryCount(gs) == EntryCount(init) + |gs[n].contributions|;
    if k == n {
      assert init == gs[..k];
      UpToLength(gs, j);
      UpToKeeps(gs, j + 1, |gs[n].contributions|);
    } else {
      assert init[k] == gs[k] && init[..k] == gs[..k];
      TranslateAt(init, k, j);
      PrefixCount(gs, k);
      UpToKeeps(gs, 0, |gs[n].contributions|);
    }
  }

  /** Later entries only append. */
  lemma {:induction false} UpToKeeps(gs: seq<GrantData>, i: nat, j: nat)
    requires gs != [] && i <= j <= |gs[|gs| - 1].contributions|
    ensures |TranslatedUpTo(gs, i)| <= |TranslatedUpTo(gs, j)|
    ensures TranslatedUpTo(gs, j)[..|TranslatedUpTo(gs, i)|] == TranslatedUpTo(gs, i)
    decreases j
  {
    if i < j {
      UpToKeeps(gs, i, j - 1);
    }
  }

  /** The entries before grant k fit inside the translation of the grants
      before the last one. */
  lemma {:induction false} PrefixCount(gs: seq<GrantData>, k: nat)
    requires k < |gs| - 1
    ensures EntryCount(gs[..k]) + |gs[k].contributions| <= EntryCount(gs[..|gs| - 1])
    decreases |gs|
  {
    var n := |gs| - 1;
    var init := gs[..n];
    if k < n - 1 {
      assert init[..k] == gs[..k] && init[k] == gs[k];
      PrefixCount(init, k);
      assert init[..|init| - 1] == gs[..n - 1];
    } else {
      assert init[..|init| - 1] == gs[..k];
    }
  }
}
