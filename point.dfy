/**
 * The n-dimensional `Point`: a list of coordinates that can be moved by a
 * vector of the same dimension and measured against another point.
 */
module Points {

  import opened Wrappers
  import opened Number
  import opened Coords
  import Vectors

  datatype Point = Point(values: seq<int>)

  /** `new`: refuses an empty list of coordinates, otherwise keeps them as given. */
  function New(values: seq<int>): (r: Option<Point>)
    ensures r.None? <==> values == []
    ensures r.Some? ==> r.value.values == values
  {
    if values == [] then None else Some(Point(values))
  }

  /** `origin`: refuses dimension 0, otherwise the point with every coordinate zero. */
  function Origin(dimensions: nat): (r: Option<Point>)
    ensures r.None? <==> dimensions == 0
    ensures r.Some? ==> |r.value.values| == dimensions
    ensures r.Some? ==> forall i :: 0 <= i < dimensions ==> r.value.values[i] == Zero
  {
    if dimensions == 0 then None else Some(Point(Repeat(Zero, dimensions)))
  }

  /** `values` and `get_dimensions`. */
  function Values(p: Point): seq<int> {
    p.values
  }

  function Dimensions(p: Point): nat {
    |p.values|
  }

  /** What `new` and `origin` store is what the getters report. */
  lemma GettersOfNew(values: seq<int>, n: nat)
    requires values != [] && n > 0
    ensures Values(New(values).value) == values
    ensures Dimensions(New(values).value) == |values|
    ensures Dimensions(Origin(n).value) == n
  {
  }

  /** Point `+` vector: an error on a dimension mismatch, otherwise the entry-wise sum. */
  function AddVector(p: Point, v: Vectors.Vector): (r: Result<Point>)
    ensures r.Err? <==> Dimensions(p) != Vectors.Dimensions(v)
    ensures r.Err? ==> r.error == DimensionMismatch
    ensures r.Ok? ==> Dimensions(r.value) == Dimensions(p)
    ensures r.Ok? ==> forall i :: 0 <= i < |p.values| ==> r.value.values[i] == p.values[i] + v.values[i]
  {
    if Dimensions(p) != Vectors.Dimensions(v) then Err(DimensionMismatch)
    else Ok(Point(ZipAdd(p.values, Vectors.Values(v))))
  }

  /** Moving the origin by a vector lands on the vector's coordinates (the example uses (1, 0)). */
  lemma AddVectorToOrigin(v: Vectors.Vector)
    requires Vectors.Valid(v)
    ensures AddVector(Origin(Vectors.Dimensions(v)).value, v) == Ok(Point(v.values))
  {
    assert AddVector(Origin(Vectors.Dimensions(v)).value, v).value.values == v.values;
  }

  /**
   * `distance_to`: an error on a dimension mismatch, otherwise the integer
   * square root of the sum of the squared coordinate differences.
   */
  function DistanceTo(p: Point, q: Point): (r: Result<int>)
    ensures r.Err? <==> Dimensions(p) != Dimensions(q)
    ensures r.Err? ==> r.error == DimensionMismatch
    ensures r.Ok? ==> 0 <= r.value
    ensures r.Ok? ==> var d := ZipSub(p.values, q.values);
      r.value * r.value <= SumProducts(d, d) < (r.value + 1) * (r.value + 1)
  {
    if Dimensions(p) != Dimensions(q) then Err(DimensionMismatch)
    else
      SumSquaresZero(ZipSub(p.values, q.values));
      Ok(Sqrt(FoldSquaredDiffs(Zero, p.values, q.values)))
  }

  /** A point is at distance zero from itself, and only from itself. */
  lemma DistanceZero(p: Point, q: Point)
    requires Dimensions(p) == Dimensions(q)
    ensures DistanceTo(p, q) == Ok(0) <==> p == q
  {
    var d := ZipSub(p.values, q.values);
    SumSquaresZero(d);
    SqrtZero(SumProducts(d, d));
    if DistanceTo(p, q) == Ok(0) {
      assert p.values == q.values by {
        forall i | 0 <= i < |p.values| ensures p.values[i] == q.values[i] {
          assert d[i] == 0;
        }
      }
    }
  }

  /** The distance does not depend on the order of the two points. */
  lemma DistanceSymmetric(p: Point, q: Point)
    ensures DistanceTo(p, q) == DistanceTo(q, p)
  {
    if Dimensions(p) == Dimensions(q) {
      SumSquaresNegate(p.values, q.values);
    }
  }

  lemma {:induction false} SumSquaresNegate(xs: seq<int>, ys: seq<int>)
    requires |xs| == |ys|
    ensures SumProducts(ZipSub(xs, ys), ZipSub(xs, ys)) == SumProducts(ZipSub(ys, xs), ZipSub(ys, xs))
  {
    if xs != [] {
      assert ZipSub(xs, ys)[1..] == ZipSub(xs[1..], ys[1..]);
      assert ZipSub(ys, xs)[1..] == ZipSub(ys[1..], xs[1..]);
      SumSquaresNegate(xs[1..], ys[1..]);
    }
  }

  /** Moving a point by a vector puts it at the vector's norm from where it started. */
  lemma DistanceAfterMove(p: Point, v: Vectors.Vector)
    requires Dimensions(p) == Vectors.Dimensions(v)
    ensures DistanceTo(AddVector(p, v).value, p) == Ok(Vectors.Norm(v))
  {
    var moved := AddVector(p, v).value;
    assert ZipSub(moved.values, p.values) == v.values;
    SumSquaresZero(v.values);
    SqrtUnique(SumProducts(v.values, v.values), Vectors.Norm(v));
  }

  /** The example: from the origin of the plane to (1, 0) the distance is 1. */
  lemma DistanceExample()
    ensures DistanceTo(Origin(2).value, Point([1, 0])) == Ok(1)
  {
    var o := Origin(2).value;
    assert o.values == [0, 0];
    var d := ZipSub(o.values, [1, 0]);
    assert d == [-1, 0];
    SumProductsSingle(d, d, 0);
    SqrtUnique(1, 1);
  }
}
