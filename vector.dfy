/**
 * The n-dimensional `Vector` of the linear-algebra layer, over the integer
 * instantiation of `Number`.  Every operation checks the dimensions first and
 * reports a mismatch as an error; the arithmetic is then entry-wise or a fold
 * of products.
 */
module Vectors {

  import opened Wrappers
  import opened Number
  import opened Coords

  datatype Vector = Vector(values: seq<int>)

  /** The constructors never build an empty vector. */
  predicate Valid(v: Vector) {
    |v.values| > 0
  }

  /** `new`: refuses an empty list of coordinates, otherwise keeps them as given. */
  function New(values: seq<int>): (r: Option<Vector>)
    ensures r.None? <==> values == []
    ensures r.Some? ==> Valid(r.value) && r.value.values == values
  {
    if values == [] then None else Some(Vector(values))
  }

  /** `origin`: refuses dimension 0, otherwise the zero vector of that dimension. */
  function Origin(dimensions: nat): (r: Option<Vector>)
    ensures r.None? <==> dimensions == 0
    ensures r.Some? ==> Valid(r.value) && |r.value.values| == dimensions
    ensures r.Some? ==> forall i :: 0 <= i < dimensions ==> r.value.values[i] == Zero
  {
    if dimensions == 0 then None else Some(Vector(Repeat(Zero, dimensions)))
  }

  /** `values` and `get_dimensions`. */
  function Values(v: Vector): seq<int> {
    v.values
  }

  function Dimensions(v: Vector): nat {
    |v.values|
  }

  /** What `new` stores is what the getters report. */
  lemma GettersOfNew(values: seq<int>)
    requires values != []
    ensures Values(New(values).value) == values
    ensures Dimensions(New(values).value) == |values|
  {
  }

  /**
   * `dot`: an error on a dimension mismatch, otherwise the fold of pairwise
   * products from zero, which is the sum of the products.
   */
  function Dot(v: Vector, w: Vector): (r: Result<int>)
    ensures r.Err? <==> Dimensions(v) != Dimensions(w)
    ensures r.Err? ==> r.error == DimensionMismatch
    ensures r.Ok? ==> r.value == SumProducts(v.values, w.values)
  {
    if Dimensions(v) != Dimensions(w) then Err(DimensionMismatch)
    else Ok(FoldProducts(Zero, v.values, w.values))
  }

  lemma DotSymmetric(v: Vector, w: Vector)
    ensures Dot(v, w) == Dot(w, v)
  {
    if Dimensions(v) == Dimensions(w) {
      SumProductsSymmetric(v.values, w.values);
    }
  }

  /** The test example: (1, 2, 3) . (3, 2, 1) == 10. */
  lemma DotExample()
    ensures Dot(Vector([1, 2, 3]), Vector([3, 2, 1])) == Ok(10)
  {
    assert SumProducts([1, 2, 3], [3, 2, 1]) == 10 by {
      assert [1, 2, 3][1..] == [2, 3] && [3, 2, 1][1..] == [2, 1];
      assert [2, 3][1..] == [3] && [2, 1][1..] == [1];
    }
  }

  /**
   * `norm`: the integer square root of the sum of squares, so the norm is
   * the largest value whose square does not exceed that sum.
   */
  function Norm(v: Vector): (r: int)
    ensures r >= 0
    ensures r * r <= SumProducts(v.values, v.values) < (r + 1) * (r + 1)
  {
    SumSquaresZero(v.values);
    Sqrt(FoldProducts(Zero, v.values, v.values))
  }

  /** The norm is zero exactly for a vector whose coordinates are all zero. */
  lemma NormZero(v: Vector)
    ensures Norm(v) == 0 <==> forall i :: 0 <= i < |v.values| ==> v.values[i] == 0
  {
    SumSquaresZero(v.values);
    SqrtZero(SumProducts(v.values, v.values));
  }

  /**
   * `normalize`: an error when the norm is zero (the division would be by
   * zero), otherwise every coordinate divided by the norm with the integer
   * `/`, in the same dimension.
   */
  function Normalize(v: Vector): (r: Result<Vector>)
    ensures r.Err? <==> Norm(v) == Zero
    ensures r.Err? ==> r.error == ZeroNorm
    ensures r.Ok? ==> Dimensions(r.value) == Dimensions(v)
    ensures r.Ok? ==> forall i :: 0 <= i < |v.values| ==> r.value.values[i] == TruncDiv(v.values[i], Norm(v))
  {
    if Norm(v) == Zero then Err(ZeroNorm)
    else Ok(Vector(DivideAll(v.values, Norm(v))))
  }

  /** `normalize` fails exactly on the zero vector. */
  lemma NormalizeFailsIffZero(v: Vector)
    ensures Normalize(v).Err? <==> forall i :: 0 <= i < |v.values| ==> v.values[i] == 0
  {
    NormZero(v);
  }

  /**
   * A vector along an axis normalizes to the unit vector on that axis, with
   * the sign of its one non-zero coordinate; this includes the example
   * (2, 0) -> (1, 0).
   */
  lemma NormalizeAxis(v: Vector, i: nat)
    requires i < |v.values| && v.values[i] != 0
    requires forall k :: 0 <= k < |v.values| && k != i ==> v.values[k] == 0
    ensures Normalize(v).Ok?
    ensures forall k :: 0 <= k < |v.values| && k != i ==> Normalize(v).value.values[k] == 0
    ensures Normalize(v).value.values[i] == (if v.values[i] > 0 then 1 else -1)
  {
    NormOfAxis(v, i);
    var n := Norm(v);
    assert Normalize(v).value.values[i] == TruncDiv(v.values[i], n);
    forall k | 0 <= k < |v.values| && k != i
      ensures Normalize(v).value.values[k] == 0
    {
      TruncDivSmall(0, n);
    }
  }

  /** The norm of a vector along one axis is the magnitude of its one non-zero coordinate. */
  lemma NormOfAxis(v: Vector, i: nat)
    requires i < |v.values|
    requires forall k :: 0 <= k < |v.values| && k != i ==> v.values[k] == 0
    ensures Norm(v) == DefaultAbs(v.values[i])
  {
    var c := v.values[i];
    SumProductsSingle(v.values, v.values, i);
    SqrtUnique(c * c, DefaultAbs(c));
  }

  lemma NormalizeExample()
    ensures Normalize(Vector([2, 0])) == Ok(Vector([1, 0]))
  {
    NormalizeAxis(Vector([2, 0]), 0);
    var r := Normalize(Vector([2, 0])).value.values;
    assert r == [r[0], r[1]] == [1, 0];
  }

  /** `+`: an error on a dimension mismatch, otherwise the entry-wise sum. */
  function Add(v: Vector, w: Vector): (r: Result<Vector>)
    ensures r.Err? <==> Dimensions(v) != Dimensions(w)
    ensures r.Err? ==> r.error == DimensionMismatch
    ensures r.Ok? ==> Dimensions(r.value) == Dimensions(v)
    ensures r.Ok? ==> forall i :: 0 <= i < |v.values| ==> r.value.values[i] == v.values[i] + w.values[i]
  {
    if Dimensions(v) != Dimensions(w) then Err(DimensionMismatch)
    else Ok(Vector(ZipAdd(v.values, w.values)))
  }

  /** Addition commutes, and adding the origin changes nothing. */
  lemma AddCommutative(v: Vector, w: Vector)
    ensures Add(v, w) == Add(w, v)
  {
    if Dimensions(v) == Dimensions(w) {
      assert Add(v, w).value.values == Add(w, v).value.values;
    }
  }

  lemma AddOrigin(v: Vector)
    requires Valid(v)
    ensures Add(v, Origin(Dimensions(v)).value) == Ok(v)
  {
    assert Add(v, Origin(Dimensions(v)).value).value.values == v.values;
  }

  /** The tests: (1, 2, 3) + (0, 1, 0) == (1, 3, 3), and a 2-dimensional operand is refused. */
  lemma AddExample()
    ensures Add(Vector([1, 2, 3]), Vector([0, 1, 0])) == Ok(Vector([1, 3, 3]))
  {
    assert Add(Vector([1, 2, 3]), Vector([0, 1, 0])).value.values == [1, 3, 3];
  }

  lemma AddWrongDimensions(b: Vector)
    requires Dimensions(b) == 2
    ensures Add(Vector([1, 2, 3]), b) == Err(DimensionMismatch)
  {
  }

  /**
   * `*` between vectors, the 3-dimensional cross product: an error unless
   * both dimensions are 3, otherwise the component formula, whose result is
   * orthogonal to both operands.
   */
  function Cross(v: Vector, w: Vector): (r: Result<Vector>)
    ensures r.Err? <==> Dimensions(v) != Dimensions(w) || Dimensions(v) != 3
    ensures r.Err? ==> r.error == DimensionMismatch
    ensures r.Ok? ==> Dimensions(r.value) == 3
    ensures r.Ok? ==> r.value.values[0] == v.values[1] * w.values[2] - v.values[2] * w.values[1]
    ensures r.Ok? ==> r.value.values[1] == v.values[2] * w.values[0] - v.values[0] * w.values[2]
    ensures r.Ok? ==> r.value.values[2] == v.values[0] * w.values[1] - v.values[1] * w.values[0]
    ensures r.Ok? ==> Dot(r.value, v) == Ok(0) && Dot(r.value, w) == Ok(0)
  {
    if Dimensions(v) != Dimensions(w) || Dimensions(v) != 3 then Err(DimensionMismatch)
    else
      var a, b := v.values, w.values;
      var c := [a[1] * b[2] - a[2] * b[1], a[2] * b[0] - a[0] * b[2], a[0] * b[1] - a[1] * b[0]];
      SumProductsThree(c, a);
      SumProductsThree(c, b);
      CrossOrthogonal(a[0], a[1], a[2], b[0], b[1], b[2]);
      Ok(Vector(c))
  }

  /** The component formula is orthogonal to both of its operands. */
  lemma CrossOrthogonal(a0: int, a1: int, a2: int, b0: int, b1: int, b2: int)
    ensures (a1 * b2 - a2 * b1) * a0 + (a2 * b0 - a0 * b2) * a1 + (a0 * b1 - a1 * b0) * a2 == 0
    ensures (a1 * b2 - a2 * b1) * b0 + (a2 * b0 - a0 * b2) * b1 + (a0 * b1 - a1 * b0) * b2 == 0
  {
    TripleProductZero(a0, a1, a2, b0, b1, b2);
    TripleProductZero(b0, b1, b2, a0, a1, a2);
  }

  /** Expanding `(a x b) . a` cancels term by term. */
  lemma TripleProductZero(a0: int, a1: int, a2: int, b0: int, b1: int, b2: int)
    ensures (a1 * b2 - a2 * b1) * a0 + (a2 * b0 - a0 * b2) * a1 + (a0 * b1 - a1 * b0) * a2 == 0
  {
  }

  lemma SumProductsThree(xs: seq<int>, ys: seq<int>)
    requires |xs| == |ys| == 3
    ensures SumProducts(xs, ys) == xs[0] * ys[0] + xs[1] * ys[1] + xs[2] * ys[2]
  {
    assert SumProducts(xs[1..], ys[1..]) == xs[1] * ys[1] + SumProducts(xs[2..], ys[2..]);
    assert SumProducts(xs[2..], ys[2..]) == xs[2] * ys[2] + SumProducts(xs[3..], ys[3..]);
  }

  /** The cross product of a vector with itself is zero; swapping the operands negates it. */
  lemma CrossSelf(v: Vector)
    requires Dimensions(v) == 3
    ensures Cross(v, v) == Ok(Vector([0, 0, 0]))
  {
    var c := Cross(v, v).value.values;
    assert c == [0, 0, 0];
  }

  lemma CrossAntiCommutative(v: Vector, w: Vector)
    requires Dimensions(v) == Dimensions(w) == 3
    ensures Cross(w, v).Ok? && Cross(v, w).Ok?
    ensures forall i :: 0 <= i < 3 ==> Cross(w, v).value.values[i] == -Cross(v, w).value.values[i]
  {
  }

  /** The test example: (1, 2, 3) x (3, 2, 1) == (-4, 8, -4). */
  lemma CrossExample()
    ensures Cross(Vector([1, 2, 3]), Vector([3, 2, 1])) == Ok(Vector([-4, 8, -4]))
  {
    assert Cross(Vector([1, 2, 3]), Vector([3, 2, 1])).value.values == [-4, 8, -4];
  }

  /** `*` by a scalar: the same dimension, every coordinate multiplied by the scalar. */
  function ScalarMul(v: Vector, s: int): (r: Vector)
    ensures Dimensions(r) == Dimensions(v)
    ensures forall i :: 0 <= i < |v.values| ==> r.values[i] == s * v.values[i]
  {
    Vector(Scale(s, v.values))
  }

  /** Scaling one operand of a dot product scales the product. */
  lemma DotScalarMul(v: Vector, w: Vector, s: int)
    requires Dimensions(v) == Dimensions(w)
    ensures Dot(ScalarMul(v, s), w) == Ok(s * Dot(v, w).value)
  {
    SumProductsScaleLeft(s, v.values, w.values);
  }

  /** The example: (1, 1) * 2 == (2, 2). */
  lemma ScalarMulExample()
    ensures ScalarMul(Vector([1, 1]), 2) == Vector([2, 2])
  {
    assert ScalarMul(Vector([1, 1]), 2).values == [2, 2];
  }
}
