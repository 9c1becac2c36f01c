/** Shared vocabulary of the matching engine: ids, the square root, sums,
    first-appearance de-duplication and the exceptions the scripts can raise. */
module Basics {

  /** Grant and contributor ids. The scripts use strings or floats; only
      equality and the `k2 > k1` comparison matter, so ids are integers. */
  type Id = int

  /** The square root that the scripts take with `** 0.5` and `math.sqrt`.
      It is a parameter of the model: exact real roots cannot be computed. */
  type Root = real -> real

  /** `sqrt` is the non-negative square root on non-negative reals. */
  ghost predicate IsSqrt(sqrt: Root) {
    forall x :: 0.0 <= x ==> 0.0 <= sqrt(x) && sqrt(x) * sqrt(x) == x
  }

  /** `(x * y) ** 0.5`, the root of a product of two contributions. */
  function PairRoot(sqrt: Root, x: real, y: real): real {
    sqrt(x * y)
  }

  /** The root of a non-negative product is non-negative. */
  lemma {:induction false} RootNonNegative(sqrt: Root, v1: real, v2: real)
    requires IsSqrt(sqrt) && 0.0 <= v1 * v2
    ensures 0.0 <= PairRoot(sqrt, v1, v2)
  {
  }

  /** The root of the product of two amounts of the same sign is
      non-negative. */
  lemma {:induction false} SameSignRoot(sqrt: Root, v1: real, v2: real)
    requires IsSqrt(sqrt) && ((0.0 <= v1 && 0.0 <= v2) || (v1 <= 0.0 && v2 <= 0.0))
    ensures 0.0 <= PairRoot(sqrt, v1, v2)
  {
    if v1 <= 0.0 && v2 <= 0.0 {
      assert v1 * v2 == (-v1) * (-v2);
    }
    RootNonNegative(sqrt, v1, v2);
  }

  /** The Python exceptions that end a computation early. */
  datatype Failure = ZeroDivisionError | UnboundLocalError | ValueError

  datatype Result<T> = Ok(value: T) | Error(failure: Failure)

  datatype Option<T> = None | Some(value: T)

  function Abs(x: real): real {
    if x < 0.0 then -x else x
  }

  function Min(x: real, y: real): real {
    if x <= y then x else y
  }

  /** The non-negative root of a square is the absolute value. */
  lemma {:induction false} SqrtOfSquare(sqrt: Root, v: real)
    requires IsSqrt(sqrt)
    ensures sqrt(v * v) == Abs(v)
  {
    var a := Abs(v);
    assert a * a == v * v;
    assert 0.0 <= v * v;
    var r := sqrt(v * v);
    assert 0.0 <= r && r * r == a * a;
    RootUnique(r, a);
  }

  lemma {:induction false} RootUnique(r: real, a: real)
    requires 0.0 <= r && 0.0 <= a && r * r == a * a
    ensures r == a
  {
    if r < a {
      SquareStrict(r, a);
      assert false;
    } else if a < r {
      SquareStrict(a, r);
      assert false;
    }
  }

  lemma {:induction false} SquareStrict(r: real, a: real)
    requires 0.0 <= r < a
    ensures r * r < a * a
  {
    var d := a - r;
    assert a * a == r * r + d * (a + r);
    assert 0.0 < d * (a + r);
  }

  /** Sum of a list, accumulated left to right as the scripts' loops do. */
  function Sum(xs: seq<real>): real {
    if xs == [] then 0.0 else Sum(xs[..|xs| - 1]) + xs[|xs| - 1]
  }

  lemma {:induction false} SumAppend(xs: seq<real>, ys: seq<real>)
    ensures Sum(xs + ys) == Sum(xs) + Sum(ys)
  {
    if ys == [] {
      assert xs + ys == xs;
    } else {
      var n := |ys| - 1;
      assert (xs + ys)[..|xs + ys| - 1] == xs + ys[..n];
      SumAppend(xs, ys[..n]);
    }
  }

  predicate Distinct(s: seq<Id>) {
    forall i, j :: 0 <= i < j < |s| ==> s[i] != s[j]
  }

  lemma {:induction false} DistinctSnoc(s: seq<Id>)
    requires s != [] && Distinct(s)
    ensures Distinct(s[..|s| - 1]) && s[|s| - 1] !in s[..|s| - 1]
  {
  }

  /** The elements of `s` in order of first appearance, each once. */
  function Dedup(s: seq<Id>): (d: seq<Id>)
    ensures Distinct(d)
    ensures forall x :: x in d <==> x in s
  {
    if s == [] then []
    else
      var d := Dedup(s[..|s| - 1]);
      assert forall x :: x in s <==> x in s[..|s| - 1] || x == s[|s| - 1];
      if s[|s| - 1] in d then d else d + [s[|s| - 1]]
  }

  /** A list with no repeated element is its own de-duplication. */
  lemma {:induction false} DedupOfDistinct(s: seq<Id>)
    requires Distinct(s)
    ensures Dedup(s) == s
  {
    if s != [] {
      var n := |s| - 1;
      DedupOfDistinct(s[..n]);
      assert s[n] !in s[..n];
      assert s[..n] + [s[n]] == s;
    }
  }

  /** Membership in a first-appearance list that was extended by one element. */
  lemma {:induction false} DedupSnoc(s: seq<Id>, x: Id)
    ensures Dedup(s + [x]) == if x in Dedup(s) then Dedup(s) else Dedup(s) + [x]
  {
    assert (s + [x])[..|s + [x]| - 1] == s;
  }

  /** The blocks of `bs` one after the other (`for x in res: for y in x:
      dict_list.append(y)`). */
  function Flatten<T>(bs: seq<seq<T>>): seq<T> {
    if bs == [] then [] else Flatten(bs[..|bs| - 1]) + bs[|bs| - 1]
  }

  /** The flattening loop `for x in res: for y in x: dict_list.append(y)`. */
  method FlattenLoop<T>(res: seq<seq<T>>) returns (dictList: seq<T>)
    ensures dictList == Flatten(res)
  {
    dictList := [];
    for i := 0 to |res|
      invariant dictList == Flatten(res[..i])
    {
      assert res[..i + 1][..i] == res[..i];
      for j := 0 to |res[i]|
        invariant dictList == Flatten(res[..i]) + res[i][..j]
      {
        assert res[i][..j + 1] == res[i][..j] + [res[i][j]];
        dictList := dictList + [res[i][j]];
      }
      assert res[i][..|res[i]|] == res[i];
    }
    assert res[..|res|] == res;
  }

  /** An element is in the flattened list exactly when it is in one of the
      blocks. */
  lemma {:induction false} FlattenMember<T>(bs: seq<seq<T>>, y: T)
    ensures y in Flatten(bs) <==> exists k :: 0 <= k < |bs| && y in bs[k]
  {
    if y in Flatten(bs) {
      var k := FlattenSound(bs, y);
    }
    if exists k :: 0 <= k < |bs| && y in bs[k] {
      var k :| 0 <= k < |bs| && y in bs[k];
      FlattenComplete(bs, k, y);
    }
  }

  /** Every element of the flattening comes from one of the blocks. */
  lemma {:induction false} FlattenSound<T>(bs: seq<seq<T>>, y: T) returns (k: nat)
    requires y in Flatten(bs)
    ensures k < |bs| && y in bs[k]
  {
    var n := |bs| - 1;
    if y in Flatten(bs[..n]) {
      k := FlattenSound(bs[..n], y);
      assert bs[..n][k] == bs[k];
    } else {
      k := n;
    }
  }

  /** Every element of every block is in the flattening. */
  lemma {:induction false} FlattenComplete<T>(bs: seq<seq<T>>, k: nat, y: T)
    requires k < |bs| && y in bs[k]
    ensures y in Flatten(bs)
  {
    var n := |bs| - 1;
    if k < n {
      assert bs[..n][k] == bs[k];
      FlattenComplete(bs[..n], k, y);
    }
  }

  /** 2 to the power n, for the halving of the search interval. */
  function Pow2(n: nat): (p: real)
    ensures 1.0 <= p
  {
    if n == 0 then 1.0 else 2.0 * Pow2(n - 1)
  }
}
