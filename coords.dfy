/**
 * Operations on coordinate lists shared by points, vectors and matrices:
 * the iterator chains of the source (`vec![x; n]`, zip/map/collect, the
 * folds that accumulate products) written as recursive functions, together
 * with a reference sum they are proved to compute.
 */
module Coords {

  import opened Number

  /** `vec![x; n]`: a list of `n` copies of `x`. */
  function Repeat<T>(x: T, n: nat): (r: seq<T>)
    ensures |r| == n
    ensures forall i :: 0 <= i < n ==> r[i] == x
  {
    if n == 0 then [] else Repeat(x, n - 1) + [x]
  }

  /** Element-wise sum of two lists of equal length (zip, map `a + b`, collect). */
  function ZipAdd(xs: seq<int>, ys: seq<int>): (r: seq<int>)
    requires |xs| == |ys|
    ensures |r| == |xs|
    ensures forall i :: 0 <= i < |r| ==> r[i] == xs[i] + ys[i]
  {
    if xs == [] then [] else [xs[0] + ys[0]] + ZipAdd(xs[1..], ys[1..])
  }

  /** Element-wise difference of two lists of equal length. */
  function ZipSub(xs: seq<int>, ys: seq<int>): (r: seq<int>)
    requires |xs| == |ys|
    ensures |r| == |xs|
    ensures forall i :: 0 <= i < |r| ==> r[i] == xs[i] - ys[i]
  {
    if xs == [] then [] else [xs[0] - ys[0]] + ZipSub(xs[1..], ys[1..])
  }

  /** Every entry multiplied by `s` (map `s * val`, collect). */
  function Scale(s: int, xs: seq<int>): (r: seq<int>)
    ensures |r| == |xs|
    ensures forall i :: 0 <= i < |r| ==> r[i] == s * xs[i]
  {
    if xs == [] then [] else [s * xs[0]] + Scale(s, xs[1..])
  }

  /** Every entry divided by `d` with the integer `/` (map `val / d`, collect). */
  function DivideAll(xs: seq<int>, d: int): (r: seq<int>)
    requires d != 0
    ensures |r| == |xs|
    ensures forall i :: 0 <= i < |r| ==> r[i] == TruncDiv(xs[i], d)
  {
    if xs == [] then [] else [TruncDiv(xs[0], d)] + DivideAll(xs[1..], d)
  }

  /** Reference definition: the sum of the pairwise products. */
  function SumProducts(xs: seq<int>, ys: seq<int>): int
    requires |xs| == |ys|
  {
    if xs == [] then 0 else xs[0] * ys[0] + SumProducts(xs[1..], ys[1..])
  }

  /**
   * The left fold of the source, `fold(acc, |acc, (a, b)| acc + a * b)`,
   * computes the reference sum on top of its seed.
   */
  function FoldProducts(acc: int, xs: seq<int>, ys: seq<int>): (r: int)
    requires |xs| == |ys|
    ensures r == acc + SumProducts(xs, ys)
    decreases |xs|
  {
    if xs == [] then acc else FoldProducts(acc + xs[0] * ys[0], xs[1..], ys[1..])
  }

  /**
   * The fold of `distance_to`, `fold(zero, |acc, (a, b)| acc + (a - b).pow(2))`,
   * computes the sum of the squared coordinate differences.
   */
  function FoldSquaredDiffs(acc: int, xs: seq<int>, ys: seq<int>): (r: int)
    requires |xs| == |ys|
    ensures r == acc + SumProducts(ZipSub(xs, ys), ZipSub(xs, ys))
    decreases |xs|
  {
    if xs == [] then acc
    else
      assert ZipSub(xs, ys)[1..] == ZipSub(xs[1..], ys[1..]);
      assert Power(xs[0] - ys[0], 2) == (xs[0] - ys[0]) * Power(xs[0] - ys[0], 1);
      FoldSquaredDiffs(acc + Power(xs[0] - ys[0], 2), xs[1..], ys[1..])
  }

  lemma {:induction false} SumProductsSymmetric(xs: seq<int>, ys: seq<int>)
    requires |xs| == |ys|
    ensures SumProducts(xs, ys) == SumProducts(ys, xs)
  {
    if xs != [] {
      SumProductsSymmetric(xs[1..], ys[1..]);
    }
  }

  /** A sum of squares is never negative, and it is zero exactly when every entry is. */
  lemma {:induction false} SumSquaresZero(xs: seq<int>)
    ensures SumProducts(xs, xs) >= 0
    ensures SumProducts(xs, xs) == 0 <==> forall i :: 0 <= i < |xs| ==> xs[i] == 0
  {
    if xs != [] {
      SumSquaresZero(xs[1..]);
      if SumProducts(xs, xs) == 0 {
        assert xs[0] == 0;
        forall i | 0 <= i < |xs| ensures xs[i] == 0 {
          if i > 0 {
            assert xs[1..][i - 1] == xs[i];
          }
        }
      }
    }
  }

  /** Scaling the left operand scales the sum. */
  lemma {:induction false} SumProductsScaleLeft(c: int, xs: seq<int>, ys: seq<int>)
    requires |xs| == |ys|
    ensures SumProducts(Scale(c, xs), ys) == c * SumProducts(xs, ys)
  {
    if xs != [] {
      assert Scale(c, xs)[1..] == Scale(c, xs[1..]);
      SumProductsScaleLeft(c, xs[1..], ys[1..]);
    }
  }

  /** Pairing with a list that is zero everywhere gives zero. */
  lemma {:induction false} SumProductsZeros(xs: seq<int>, ys: seq<int>)
    requires |xs| == |ys|
    requires forall k :: 0 <= k < |xs| ==> xs[k] == 0
    ensures SumProducts(xs, ys) == 0
  {
    if xs != [] {
      SumProductsZeros(xs[1..], ys[1..]);
    }
  }

  /**
   * Pairing with a list that is zero everywhere but at `i` picks out entry
   * `i` times that value (with a unit list, entry `i` itself).
   */
  lemma {:induction false} SumProductsSingle(xs: seq<int>, ys: seq<int>, i: nat)
    requires |xs| == |ys| && i < |xs|
    requires forall k :: 0 <= k < |xs| && k != i ==> xs[k] == 0
    ensures SumProducts(xs, ys) == xs[i] * ys[i]
  {
    if i == 0 {
      SumProductsZeros(xs[1..], ys[1..]);
    } else {
      SumProductsSingle(xs[1..], ys[1..], i - 1);
    }
  }

  /** The sum over a prefix one longer adds the next product (the loop's `sum +=`). */
  lemma {:induction false} SumProductsSnoc(xs: seq<int>, ys: seq<int>, k: nat)
    requires |xs| == |ys| && k < |xs|
    ensures SumProducts(xs[..k + 1], ys[..k + 1]) == SumProducts(xs[..k], ys[..k]) + xs[k] * ys[k]
  {
    if k > 0 {
      SumProductsSnoc(xs[1..], ys[1..], k - 1);
      assert xs[..k + 1][1..] == xs[1..][..k] && ys[..k + 1][1..] == ys[1..][..k];
      assert xs[..k][1..] == xs[1..][..k - 1] && ys[..k][1..] == ys[1..][..k - 1];
    }
  }

  /** The sum is additive in its right operand. */
  lemma {:induction false} SumProductsAddRight(xs: seq<int>, ys: seq<int>, zs: seq<int>)
    requires |xs| == |ys| == |zs|
    ensures SumProducts(xs, ZipAdd(ys, zs)) == SumProducts(xs, ys) + SumProducts(xs, zs)
  {
    if xs != [] {
      assert ZipAdd(ys, zs)[1..] == ZipAdd(ys[1..], zs[1..]);
      SumProductsAddRight(xs[1..], ys[1..], zs[1..]);
    }
  }
}
