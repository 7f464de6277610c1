/**
 * The `Matrix` of the linear-algebra layer: a non-empty list of rows of one
 * common, non-zero length.  Construction checks that shape; every operation
 * checks the dimensions it needs before computing.  The determinant, the
 * identity and the matrix product are loops in the source and are methods
 * here, each proved equal to a specification function about which the
 * algebraic laws are proved.
 */
module Matrices {

  import opened Wrappers
  import opened Number
  import opened Coords
  import Vectors
  import Util

  datatype Matrix = Matrix(values: seq<seq<int>>)

  /** At least one row, a non-empty first row, and every row as long as the first. */
  predicate Rectangular(rows: seq<seq<int>>) {
    |rows| > 0 && |rows[0]| > 0 && forall i :: 0 <= i < |rows| ==> |rows[i]| == |rows[0]|
  }

  /** Every matrix the constructors build is rectangular. */
  predicate Valid(m: Matrix) {
    Rectangular(m.values)
  }

  function Rows(m: Matrix): nat {
    |m.values|
  }

  function Cols(m: Matrix): nat
    requires Valid(m)
  {
    |m.values[0]|
  }

  /** `get_dimensions`: the number of rows and the length of the first row, which every row shares. */
  function Dimensions(m: Matrix): (r: (nat, nat))
    requires Valid(m)
    ensures r.0 == |m.values| && r.1 > 0
    ensures forall i :: 0 <= i < |m.values| ==> |m.values[i]| == r.1
  {
    (Rows(m), Cols(m))
  }

  /**
   * `new`: refuses no rows, an empty first row, or a row whose length differs
   * from the first; otherwise keeps the rows as given.
   */
  function New(values: seq<seq<int>>): (r: Option<Matrix>)
    ensures r.None? <==> values == [] || values[0] == [] || exists i :: 0 <= i < |values| && |values[i]| != |values[0]|
    ensures r.Some? ==> Valid(r.value) && r.value.values == values
    ensures r.Some? ==> Dimensions(r.value) == (|values|, |values[0]|)
  {
    if Rectangular(values) then Some(Matrix(values)) else None
  }

  /** The tests: no rows, and rows of lengths 3 and 2, are both refused. */
  lemma NewRefusesExamples()
    ensures New([]) == None
    ensures New([[1, 2, 3], [1, 2]]) == None
  {
    assert |[[1, 2, 3], [1, 2]][1]| != |[[1, 2, 3], [1, 2]][0]|;
  }

  /** The n-by-n identity: one on the diagonal and zero elsewhere. */
  function IdentityMatrix(n: nat): (r: Matrix)
    requires n > 0
    ensures Valid(r) && Dimensions(r) == (n, n)
    ensures forall i, j :: 0 <= i < n && 0 <= j < n ==> r.values[i][j] == if i == j then One else Zero
  {
    Matrix(seq(n, i => seq(n, j => if i == j then One else Zero)))
  }

  /**
   * `identity`: refuses dimension 0; otherwise builds each row as a row of
   * zeros whose diagonal entry is then set to one.
   */
  method Identity(dimensions: nat) returns (r: Option<Matrix>)
    ensures r.None? <==> dimensions == 0
    ensures r.Some? ==> r.value == IdentityMatrix(dimensions)
  {
    if dimensions == 0 {
      return None;
    }
    var rows: seq<seq<int>> := [];
    for i := 0 to dimensions
      invariant |rows| == i
      invariant forall k :: 0 <= k < i ==> rows[k] == IdentityMatrix(dimensions).values[k]
    {
      var row := Repeat(Zero, dimensions);
      row := row[i := One];
      assert row == IdentityMatrix(dimensions).values[i];
      rows := rows + [row];
    }
    assert rows == IdentityMatrix(dimensions).values;
    r := Some(Matrix(rows));
  }

  // ---------------------------------------------------------------------
  // Determinant

  /** As many entries in every row as there are rows. */
  predicate Square(rows: seq<seq<int>>) {
    forall i :: 0 <= i < |rows| ==> |rows[i]| == |rows|
  }

  /** A row without its entry in column `col`. */
  function RemoveAt(row: seq<int>, col: nat): (r: seq<int>)
    requires col < |row|
    ensures |r| == |row| - 1
    ensures forall k :: 0 <= k < |r| ==> r[k] == if k < col then row[k] else row[k + 1]
  {
    row[..col] + row[col + 1..]
  }

  /** The minor of the first row's entry in column `col`: rows 1.. without column `col`. */
  function Minor(rows: seq<seq<int>>, col: nat): (r: seq<seq<int>>)
    requires Square(rows) && |rows| >= 2 && col < |rows|
    ensures |r| == |rows| - 1 && Square(r)
    ensures forall i :: 0 <= i < |r| ==> r[i] == RemoveAt(rows[i + 1], col)
  {
    seq(|rows| - 1, i requires 0 <= i < |rows| - 1 => RemoveAt(rows[i + 1], col))
  }

  /** The cofactor sign of the first row's column `col`. */
  function Sign(col: nat): int {
    if col % 2 == 0 then One else -One
  }

  /**
   * Specification of the determinant: the single entry of a 1-by-1 matrix,
   * otherwise the cofactor expansion along the first row.
   */
  function Det(rows: seq<seq<int>>): int
    requires Square(rows) && |rows| >= 1
    decreases |rows|, 1
  {
    if |rows| == 1 then rows[0][0] else Cofactors(rows, |rows|)
  }

  /** The first `k` terms of the cofactor expansion along the first row. */
  function Cofactors(rows: seq<seq<int>>, k: nat): int
    requires Square(rows) && |rows| >= 2 && k <= |rows|
    decreases |rows|, 0, k
  {
    if k == 0 then Zero
    else Cofactors(rows, k - 1) + Sign(k - 1) * rows[0][k - 1] * Det(Minor(rows, k - 1))
  }

  /**
   * `determinant`: refuses a matrix that is not square; returns the entry of
   * a 1-by-1 matrix; otherwise, column by column, builds the minor row by row
   * and entry by entry, takes its determinant recursively and accumulates the
   * signed product.
   */
  method Determinant(m: Matrix) returns (r: Result<int>)
    requires Valid(m)
    ensures r.Err? <==> Rows(m) != Cols(m)
    ensures r.Err? ==> r.error == NotSquare
    ensures r.Ok? ==> Square(m.values) && r.value == Det(m.values)
    decreases Rows(m)
  {
    if Rows(m) != Cols(m) {
      return Err(NotSquare);
    }
    var size := Rows(m);
    if size == 1 {
      return Ok(m.values[0][0]);
    }
    var current := Zero;
    for col := 0 to size
      invariant current == Cofactors(m.values, col)
    {
      var value := m.values[0][col];
      var subValues: seq<seq<int>> := [];
      for row := 1 to size
        invariant |subValues| == row - 1
        invariant forall k :: 0 <= k < row - 1 ==> subValues[k] == RemoveAt(m.values[k + 1], col)
      {
        var subRow: seq<int> := [];
        for column := 0 to size
          invariant subRow == RemoveAt(m.values[row], col)[..if column <= col then column else column - 1]
        {
          if column != col {
            subRow := subRow + [m.values[row][column]];
          }
        }
        subValues := subValues + [subRow];
      }
      assert subValues == Minor(m.values, col);
      var sub := New(subValues);
      var subDeterminant := Determinant(sub.value);
      current := current + Sign(col) * value * subDeterminant.value;
    }
    return Ok(current);
  }

  /** The determinant of a 2-by-2 matrix is `ad - bc`. */
  lemma Det2(rows: seq<seq<int>>)
    requires |rows| == 2 && Square(rows)
    ensures Det(rows) == rows[0][0] * rows[1][1] - rows[0][1] * rows[1][0]
  {
    assert RemoveAt(rows[1], 0) == [rows[1][1]];
    assert RemoveAt(rows[1], 1) == [rows[1][0]];
    assert Minor(rows, 0) == [Minor(rows, 0)[0]] == [[rows[1][1]]];
    assert Minor(rows, 1) == [Minor(rows, 1)[0]] == [[rows[1][0]]];
    assert Cofactors(rows, 1) == rows[0][0] * rows[1][1];
    assert Cofactors(rows, 2) == Cofactors(rows, 1) - rows[0][1] * rows[1][0];
  }

  /** The identity has determinant one. */
  lemma {:induction false} DetIdentity(n: nat)
    requires n > 0
    ensures Det(IdentityMatrix(n).values) == One
  {
    if n > 1 {
      var id := IdentityMatrix(n).values;
      assert Minor(id, 0) == IdentityMatrix(n - 1).values by {
        var minor, smaller := Minor(id, 0), IdentityMatrix(n - 1).values;
        forall i | 0 <= i < n - 1
          ensures minor[i] == smaller[i]
        {
          assert |minor[i]| == |smaller[i]|;
          forall j | 0 <= j < n - 1
            ensures minor[i][j] == smaller[i][j]
          {
          }
        }
      }
      DetIdentity(n - 1);
      CofactorsIdentity(n, n);
    }
  }

  lemma {:induction false} CofactorsIdentity(n: nat, k: nat)
    requires n > 1 && 1 <= k <= n
    requires Minor(IdentityMatrix(n).values, 0) == IdentityMatrix(n - 1).values
    ensures Cofactors(IdentityMatrix(n).values, k) == Det(IdentityMatrix(n - 1).values)
  {
    if k > 1 {
      CofactorsIdentity(n, k - 1);
    }
  }

  /** A minor of a 3-by-3 matrix is the two lower rows without that column. */
  lemma Minor3(rows: seq<seq<int>>, col: nat)
    requires |rows| == 3 && Square(rows) && col < 3
    ensures Minor(rows, col) == [RemoveAt(rows[1], col), RemoveAt(rows[2], col)]
  {
    var m := Minor(rows, col);
    assert m == [m[0], m[1]];
  }

  /** The cofactor expansion of a 3-by-3 matrix, written out. */
  lemma Det3(rows: seq<seq<int>>)
    requires |rows| == 3 && Square(rows)
    ensures Det(rows) == rows[0][0] * (rows[1][1] * rows[2][2] - rows[1][2] * rows[2][1])
      - rows[0][1] * (rows[1][0] * rows[2][2] - rows[1][2] * rows[2][0])
      + rows[0][2] * (rows[1][0] * rows[2][1] - rows[1][1] * rows[2][0])
  {
    MinorDet3(rows, 0);
    MinorDet3(rows, 1);
    MinorDet3(rows, 2);
    Expand3(rows);
  }

  /** Three terms of the expansion along the first row. */
  lemma Expand3(rows: seq<seq<int>>)
    requires |rows| == 3 && Square(rows)
    ensures Det(rows) == rows[0][0] * Det(Minor(rows, 0)) - rows[0][1] * Det(Minor(rows, 1))
      + rows[0][2] * Det(Minor(rows, 2))
  {
    var d0, d1, d2 := Det(Minor(rows, 0)), Det(Minor(rows, 1)), Det(Minor(rows, 2));
    var t0, t1, t2 := rows[0][0] * d0, rows[0][1] * d1, rows[0][2] * d2;
    assert Sign(0) * rows[0][0] * d0 == t0 by { assert Sign(0) == 1; }
    assert Sign(1) * rows[0][1] * d1 == -t1 by { assert Sign(1) == -1; }
    assert Sign(2) * rows[0][2] * d2 == t2 by { assert Sign(2) == 1; }
    assert Cofactors(rows, 1) == t0;
    assert Cofactors(rows, 2) == t0 - t1;
    assert Cofactors(rows, 3) == t0 - t1 + t2;
  }

  /** The determinant of a minor of a 3-by-3 matrix, from the remaining four entries. */
  lemma MinorDet3(rows: seq<seq<int>>, col: nat)
    requires |rows| == 3 && Square(rows) && col < 3
    ensures var l, r := if col == 0 then 1 else 0, if col == 2 then 1 else 2;
      Det(Minor(rows, col)) == rows[1][l] * rows[2][r] - rows[1][r] * rows[2][l]
  {
    Minor3(rows, col);
    Det2(Minor(rows, col));
  }

  /** The test example: the determinant of ((1,2,3),(3,2,1),(1,2,2)) is 4. */
  lemma DetExample()
    ensures Det([[1, 2, 3], [3, 2, 1], [1, 2, 2]]) == 4
  {
    Det3([[1, 2, 3], [3, 2, 1], [1, 2, 2]]);
  }

  // ---------------------------------------------------------------------
  // Transpose and product

  /** Column `j` of a list of rows, top to bottom. */
  function Column(rows: seq<seq<int>>, j: nat): (r: seq<int>)
    requires forall i :: 0 <= i < |rows| ==> j < |rows[i]|
    ensures |r| == |rows|
    ensures forall i :: 0 <= i < |rows| ==> r[i] == rows[i][j]
  {
    seq(|rows|, i requires 0 <= i < |rows| => rows[i][j])
  }

  /** `transpose`: row `i` of the result is column `i` of the matrix. */
  function Transpose(m: Matrix): (r: Matrix)
    requires Valid(m)
    ensures Valid(r) && Dimensions(r) == (Cols(m), Rows(m))
    ensures forall i, j :: 0 <= i < Cols(m) && 0 <= j < Rows(m) ==> r.values[i][j] == m.values[j][i]
  {
    Matrix(seq(Cols(m), i requires 0 <= i < Cols(m) => Column(m.values, i)))
  }

  /** Transposing twice gives the matrix back. */
  lemma TransposeInvolution(m: Matrix)
    requires Valid(m)
    ensures Transpose(Transpose(m)) == m
  {
    var t := Transpose(Transpose(m));
    forall i | 0 <= i < Rows(m)
      ensures t.values[i] == m.values[i]
    {
    }
  }

  /** The test example: the transpose of ((1,0),(1,1)) is ((1,1),(0,1)). */
  lemma TransposeExample()
    ensures Transpose(Matrix([[1, 0], [1, 1]])) == Matrix([[1, 1], [0, 1]])
  {
    var t := Transpose(Matrix([[1, 0], [1, 1]]));
    assert t.values[0] == [1, 1] && t.values[1] == [0, 1];
  }

  /**
   * Specification of the matrix product: entry `(i, j)` is the sum of the
   * products of row `i` of `a` with column `j` of `b`.
   */
  function Product(a: Matrix, b: Matrix): (r: Matrix)
    requires Valid(a) && Valid(b) && Cols(a) == Rows(b)
    ensures Valid(r) && Dimensions(r) == (Rows(a), Cols(b))
    ensures forall i, j :: 0 <= i < Rows(a) && 0 <= j < Cols(b) ==>
      r.values[i][j] == SumProducts(a.values[i], Column(b.values, j))
  {
    Matrix(seq(Rows(a), i requires 0 <= i < Rows(a) =>
      seq(Cols(b), j requires 0 <= j < Cols(b) => SumProducts(a.values[i], Column(b.values, j)))))
  }

  /**
   * Matrix `*` matrix: refuses operands whose inner dimensions differ;
   * otherwise fills a zero matrix of the result's shape entry by entry, each
   * entry a running sum over the shared dimension.
   */
  method Multiply(a: Matrix, b: Matrix) returns (r: Result<Matrix>)
    requires Valid(a) && Valid(b)
    ensures r.Err? <==> Cols(a) != Rows(b)
    ensures r.Err? ==> r.error == DimensionMismatch
    ensures r.Ok? ==> r.value == Product(a, b)
  {
    if Cols(a) != Rows(b) {
      return Err(DimensionMismatch);
    }
    var n, p := Rows(a), Cols(b);
    ghost var spec := Product(a, b).values;
    var c := Repeat(Repeat(Zero, p), n);
    for i := 0 to n
      invariant |c| == n && forall s :: 0 <= s < n ==> |c[s]| == p
      invariant forall s :: 0 <= s < i ==> c[s] == spec[s]
    {
      for j := 0 to p
        invariant |c| == n && forall s :: 0 <= s < n ==> |c[s]| == p
        invariant forall s :: 0 <= s < i ==> c[s] == spec[s]
        invariant forall t :: 0 <= t < j ==> c[i][t] == spec[i][t]
      {
        var sum := Zero;
        ghost var column := Column(b.values, j);
        for k := 0 to Cols(a)
          invariant sum == SumProducts(a.values[i][..k], column[..k])
        {
          SumProductsSnoc(a.values[i], column, k);
          sum := sum + a.values[i][k] * b.values[k][j];
        }
        assert a.values[i][..Cols(a)] == a.values[i] && column[..Cols(a)] == column;
        c := c[i := c[i][j := sum]];
      }
      assert c[i] == spec[i];
    }
    assert c == spec;
    return Ok(Matrix(c));
  }

  /** The identity is neutral on both sides of the product. */
  lemma ProductIdentityLeft(a: Matrix)
    requires Valid(a)
    ensures Product(IdentityMatrix(Rows(a)), a) == a
  {
    var p := Product(IdentityMatrix(Rows(a)), a);
    forall i, j | 0 <= i < Rows(a) && 0 <= j < Cols(a)
      ensures p.values[i][j] == a.values[i][j]
    {
      SumProductsSingle(IdentityMatrix(Rows(a)).values[i], Column(a.values, j), i);
    }
    forall i | 0 <= i < Rows(a)
      ensures p.values[i] == a.values[i]
    {
    }
  }

  lemma ProductIdentityRight(a: Matrix)
    requires Valid(a)
    ensures Product(a, IdentityMatrix(Cols(a))) == a
  {
    var id := IdentityMatrix(Cols(a));
    var p := Product(a, id);
    forall i, j | 0 <= i < Rows(a) && 0 <= j < Cols(a)
      ensures p.values[i][j] == a.values[i][j]
    {
      SumProductsSingle(Column(id.values, j), a.values[i], j);
      SumProductsSymmetric(Column(id.values, j), a.values[i]);
    }
    forall i | 0 <= i < Rows(a)
      ensures p.values[i] == a.values[i]
    {
    }
  }

  /** The test example: ((1,1),(1,1)) * ((1,1),(0,1)) == ((1,2),(1,2)). */
  lemma ProductExample()
    ensures Product(Matrix([[1, 1], [1, 1]]), Matrix([[1, 1], [0, 1]])) == Matrix([[1, 2], [1, 2]])
  {
    var a, b := Matrix([[1, 1], [1, 1]]), Matrix([[1, 1], [0, 1]]);
    var p := Product(a, b);
    assert Column(b.values, 0) == [1, 0] && Column(b.values, 1) == [1, 1];
    SumProductsTwo([1, 1], [1, 0]);
    SumProductsTwo([1, 1], [1, 1]);
    assert p.values[0] == [1, 2] && p.values[1] == [1, 2];
  }

  lemma SumProductsTwo(xs: seq<int>, ys: seq<int>)
    requires |xs| == |ys| == 2
    ensures SumProducts(xs, ys) == xs[0] * ys[0] + xs[1] * ys[1]
  {
    assert SumProducts(xs[1..], ys[1..]) == xs[1] * ys[1] + SumProducts(xs[2..], ys[2..]);
  }

  /** The transpose of a product is the product of the transposes in the other order. */
  lemma TransposeProduct(a: Matrix, b: Matrix)
    requires Valid(a) && Valid(b) && Cols(a) == Rows(b)
    ensures Transpose(Product(a, b)) == Product(Transpose(b), Transpose(a))
  {
    var left, right := Transpose(Product(a, b)), Product(Transpose(b), Transpose(a));
    forall j, i | 0 <= j < Cols(b) && 0 <= i < Rows(a)
      ensures left.values[j][i] == right.values[j][i]
    {
      assert Transpose(b).values[j] == Column(b.values, j);
      assert Column(Transpose(a).values, i) == a.values[i];
      SumProductsSymmetric(a.values[i], Column(b.values, j));
    }
    forall j | 0 <= j < Cols(b)
      ensures left.values[j] == right.values[j]
    {
    }
  }

  // ---------------------------------------------------------------------
  // Scalar and vector products

  /** Matrix `*` scalar: the same shape, every entry multiplied by the scalar. */
  function ScaleMatrix(m: Matrix, s: int): (r: Matrix)
    ensures |r.values| == |m.values|
    ensures forall i :: 0 <= i < |m.values| ==> |r.values[i]| == |m.values[i]|
    ensures forall i, j :: 0 <= i < |m.values| && 0 <= j < |m.values[i]| ==> r.values[i][j] == m.values[i][j] * s
  {
    Matrix(seq(|m.values|, i requires 0 <= i < |m.values| => Scale(s, m.values[i])))
  }

  /** Scaling the right factor scales the product. */
  lemma ProductScaleRight(a: Matrix, b: Matrix, s: int)
    requires Valid(a) && Valid(b) && Cols(a) == Rows(b)
    ensures Valid(ScaleMatrix(b, s))
    ensures Product(a, ScaleMatrix(b, s)) == ScaleMatrix(Product(a, b), s)
  {
    var left, right := Product(a, ScaleMatrix(b, s)), ScaleMatrix(Product(a, b), s);
    forall i, j | 0 <= i < Rows(a) && 0 <= j < Cols(b)
      ensures left.values[i][j] == right.values[i][j]
    {
      var column := Column(b.values, j);
      assert Column(ScaleMatrix(b, s).values, j) == Scale(s, column);
      SumProductsSymmetric(a.values[i], Scale(s, column));
      SumProductsScaleLeft(s, column, a.values[i]);
      SumProductsSymmetric(column, a.values[i]);
    }
    forall i | 0 <= i < Rows(a)
      ensures left.values[i] == right.values[i]
    {
    }
  }

  /**
   * Matrix `*` vector: refuses a vector whose dimension differs from the
   * number of columns; otherwise entry `i` is the sum of the products of row
   * `i` with the vector.
   */
  function MulVector(m: Matrix, v: Vectors.Vector): (r: Result<Vectors.Vector>)
    requires Valid(m)
    ensures r.Err? <==> Cols(m) != Vectors.Dimensions(v)
    ensures r.Err? ==> r.error == DimensionMismatch
    ensures r.Ok? ==> Vectors.Dimensions(r.value) == Rows(m)
    ensures r.Ok? ==> forall i :: 0 <= i < Rows(m) ==> r.value.values[i] == SumProducts(m.values[i], v.values)
  {
    if Cols(m) != Vectors.Dimensions(v) then Err(DimensionMismatch)
    else Ok(Vectors.Vector(seq(Rows(m), i requires 0 <= i < Rows(m) => FoldProducts(Zero, m.values[i], v.values))))
  }

  /** The identity maps every vector to itself. */
  lemma MulVectorIdentity(v: Vectors.Vector)
    requires Vectors.Valid(v)
    ensures MulVector(IdentityMatrix(Vectors.Dimensions(v)), v) == Ok(v)
  {
    var id := IdentityMatrix(Vectors.Dimensions(v));
    var r := MulVector(id, v).value;
    forall i | 0 <= i < Vectors.Dimensions(v)
      ensures r.values[i] == v.values[i]
    {
      SumProductsSingle(id.values[i], v.values, i);
    }
    assert r.values == v.values;
  }

  /** Multiplying a matrix by a vector is additive in the vector. */
  lemma MulVectorAdd(m: Matrix, v: Vectors.Vector, w: Vectors.Vector)
    requires Valid(m) && Cols(m) == Vectors.Dimensions(v) == Vectors.Dimensions(w)
    ensures Vectors.Add(MulVector(m, v).value, MulVector(m, w).value)
      == MulVector(m, Vectors.Add(v, w).value)
  {
    var left := Vectors.Add(MulVector(m, v).value, MulVector(m, w).value).value;
    var right := MulVector(m, Vectors.Add(v, w).value).value;
    forall i | 0 <= i < Rows(m)
      ensures left.values[i] == right.values[i]
    {
      assert Vectors.Add(v, w).value.values == ZipAdd(v.values, w.values);
      SumProductsAddRight(m.values[i], v.values, w.values);
    }
    assert left.values == right.values;
  }

  /** The test example: ((1,-1,2),(0,-3,1)) * (2,1,0) == (1,-3). */
  lemma MulVectorExample()
    ensures MulVector(Matrix([[1, -1, 2], [0, -3, 1]]), Vectors.Vector([2, 1, 0])) == Ok(Vectors.Vector([1, -3]))
  {
    var r := MulVector(Matrix([[1, -1, 2], [0, -3, 1]]), Vectors.Vector([2, 1, 0])).value;
    Vectors.SumProductsThree([1, -1, 2], [2, 1, 0]);
    Vectors.SumProductsThree([0, -3, 1], [2, 1, 0]);
    assert r.values == [1, -3];
  }

  // ---------------------------------------------------------------------
  // 2-by-2 operations

  predicate Is2x2(m: Matrix)
    requires Valid(m)
  {
    Dimensions(m) == (2, 2)
  }

  /** A 2-by-2 matrix is the list of its four entries. */
  lemma Entries2x2(m: Matrix)
    requires Valid(m) && Is2x2(m)
    ensures m.values == [[m.values[0][0], m.values[0][1]], [m.values[1][0], m.values[1][1]]]
  {
    assert m.values[0] == [m.values[0][0], m.values[0][1]];
    assert m.values[1] == [m.values[1][0], m.values[1][1]];
  }

  /**
   * `invert_2d`: refuses a matrix that is not 2-by-2; otherwise the adjugate
   * `((d, -b), (-c, a))` multiplied by `1 / det` computed with the integer
   * `/`, which divides by zero when the determinant is zero.
   */
  function Invert2D(m: Matrix): (r: Result<Matrix>)
    requires Valid(m)
    requires Is2x2(m) ==> Det(m.values) != 0
    ensures r.Err? <==> !Is2x2(m)
    ensures r.Err? ==> r.error == Not2x2
    ensures r.Ok? ==> Valid(r.value) && Is2x2(r.value)
  {
    if !Is2x2(m) then Err(Not2x2)
    else
      var a, b, c, d := m.values[0][0], m.values[0][1], m.values[1][0], m.values[1][1];
      Ok(ScaleMatrix(Matrix([[d, -b], [-c, a]]), TruncDiv(One, Det(m.values))))
  }

  /**
   * A 2-by-2 matrix of determinant 1 or -1 is inverted exactly: its product
   * with the result, on either side, is the identity.
   */
  lemma InvertUnimodular(m: Matrix)
    requires Valid(m) && Is2x2(m)
    requires Det(m.values) == 1 || Det(m.values) == -1
    ensures Product(m, Invert2D(m).value) == IdentityMatrix(2)
    ensures Product(Invert2D(m).value, m) == IdentityMatrix(2)
  {
    var a, b, c, d := m.values[0][0], m.values[0][1], m.values[1][0], m.values[1][1];
    var det := Det(m.values);
    Det2(m.values);
    TruncDivUnit(One, det);
    var q := TruncDiv(One, det);
    assert (a * d - b * c) * q == 1;
    var inv := Invert2D(m).value;
    assert inv.values[0][0] == d * q && inv.values[0][1] == (-b) * q;
    assert inv.values[1][0] == (-c) * q && inv.values[1][1] == a * q;
    AdjugateProducts(a, b, c, d, q);
    ProductIsIdentity(m, inv);
    ProductIsIdentity(inv, m);
  }

  /** Two 2-by-2 matrices whose four row-by-column sums are those of the identity multiply to it. */
  lemma ProductIsIdentity(x: Matrix, y: Matrix)
    requires Valid(x) && Valid(y) && Is2x2(x) && Is2x2(y)
    requires x.values[0][0] * y.values[0][0] + x.values[0][1] * y.values[1][0] == 1
    requires x.values[0][0] * y.values[0][1] + x.values[0][1] * y.values[1][1] == 0
    requires x.values[1][0] * y.values[0][0] + x.values[1][1] * y.values[1][0] == 0
    requires x.values[1][0] * y.values[0][1] + x.values[1][1] * y.values[1][1] == 1
    ensures Product(x, y) == IdentityMatrix(2)
  {
    Product2x2(x, y);
    Entries2x2(IdentityMatrix(2));
  }

  /** The adjugate scaled by an inverse `q` of `ad - bc` multiplies with the matrix to the identity. */
  lemma AdjugateProducts(a: int, b: int, c: int, d: int, q: int)
    requires (a * d - b * c) * q == 1
    ensures a * (d * q) + b * ((-c) * q) == 1 && a * ((-b) * q) + b * (a * q) == 0
    ensures c * (d * q) + d * ((-c) * q) == 0 && c * ((-b) * q) + d * (a * q) == 1
    ensures (d * q) * a + ((-b) * q) * c == 1 && (d * q) * b + ((-b) * q) * d == 0
    ensures ((-c) * q) * a + (a * q) * c == 0 && ((-c) * q) * b + (a * q) * d == 1
  {
    assert a * (d * q) + b * ((-c) * q) == (a * d - b * c) * q;
    assert c * ((-b) * q) + d * (a * q) == (a * d - b * c) * q;
    assert (d * q) * a + ((-b) * q) * c == (a * d - b * c) * q;
    assert ((-c) * q) * b + (a * q) * d == (a * d - b * c) * q;
  }

  /** The entries of a product of two 2-by-2 matrices. */
  lemma Product2x2(x: Matrix, y: Matrix)
    requires Valid(x) && Valid(y) && Is2x2(x) && Is2x2(y)
    ensures Product(x, y).values == [
      [x.values[0][0] * y.values[0][0] + x.values[0][1] * y.values[1][0],
       x.values[0][0] * y.values[0][1] + x.values[0][1] * y.values[1][1]],
      [x.values[1][0] * y.values[0][0] + x.values[1][1] * y.values[1][0],
       x.values[1][0] * y.values[0][1] + x.values[1][1] * y.values[1][1]]]
  {
    var p := Product(x, y);
    forall i, j | 0 <= i < 2 && 0 <= j < 2
      ensures p.values[i][j] == x.values[i][0] * y.values[0][j] + x.values[i][1] * y.values[1][j]
    {
      SumProductsTwo(x.values[i], Column(y.values, j));
    }
    Entries2x2(p);
  }

  /** With a determinant of magnitude two or more, `1 / det` truncates to zero and so does the result. */
  lemma InvertTruncates(m: Matrix)
    requires Valid(m) && Is2x2(m)
    requires Det(m.values) >= 2 || Det(m.values) <= -2
    ensures Invert2D(m) == Ok(Matrix([[0, 0], [0, 0]]))
  {
    TruncDivSmall(One, Det(m.values));
    Entries2x2(Invert2D(m).value);
  }

  /** The example: the inverse of the 2-by-2 identity is the identity. */
  lemma InvertIdentity()
    ensures Invert2D(IdentityMatrix(2)) == Ok(IdentityMatrix(2))
  {
    var id := IdentityMatrix(2);
    Entries2x2(id);
    Det2(id.values);
    Entries2x2(Invert2D(id).value);
  }

  /**
   * `eigenvalues_2d`: refuses a matrix that is not 2-by-2; otherwise the two
   * roots the quadratic formula gives for the characteristic polynomial
   * `x^2 - (a + d) x + (ad - bc)`.
   */
  function Eigenvalues2D(m: Matrix): (r: Result<(int, int)>)
    requires Valid(m)
    ensures r.Err? <==> !Is2x2(m)
    ensures r.Err? ==> r.error == Not2x2
  {
    if !Is2x2(m) then Err(Not2x2)
    else
      var a, b, c, d := m.values[0][0], m.values[0][1], m.values[1][0], m.values[1][1];
      Ok(Util.Quadsolve(One, -a - d, -(b * c) + a * d))
  }

  /** The sum of the diagonal entries of a 2-by-2 matrix. */
  function Trace2(m: Matrix): int
    requires Valid(m) && Is2x2(m)
  {
    m.values[0][0] + m.values[1][1]
  }

  /**
   * When the characteristic polynomial has integer roots (its discriminant
   * `trace^2 - 4 det` is the square of some `s`), the two results are exactly
   * those roots: they add up to the trace, multiply to the determinant, and
   * each is a zero of the characteristic polynomial.
   */
  lemma EigenvaluesExact(m: Matrix, s: nat)
    requires Valid(m) && Is2x2(m)
    requires s * s == Trace2(m) * Trace2(m) - 4 * Det(m.values)
    ensures Eigenvalues2D(m).Ok?
    ensures Eigenvalues2D(m).value.0 + Eigenvalues2D(m).value.1 == Trace2(m)
    ensures Eigenvalues2D(m).value.0 * Eigenvalues2D(m).value.1 == Det(m.values)
    ensures IsCharacteristicRoot(m, Eigenvalues2D(m).value.0)
    ensures IsCharacteristicRoot(m, Eigenvalues2D(m).value.1)
  {
    var a, b, c, d := m.values[0][0], m.values[0][1], m.values[1][0], m.values[1][1];
    var tr, det := Trace2(m), Det(m.values);
    Det2(m.values);
    assert -(b * c) + a * d == det;
    assert Eigenvalues2D(m).value == Util.Quadsolve(1, -tr, det);
    CharacteristicRoots(tr, det, s);
  }

  /** The roots `quadsolve` finds for `x^2 - tr x + det` when the discriminant is a square. */
  lemma CharacteristicRoots(tr: int, det: int, s: nat)
    requires s * s == tr * tr - 4 * det
    ensures Util.Quadsolve(1, -tr, det).0 + Util.Quadsolve(1, -tr, det).1 == tr
    ensures Util.Quadsolve(1, -tr, det).0 * Util.Quadsolve(1, -tr, det).1 == det
    ensures Util.Quadsolve(1, -tr, det).0 * Util.Quadsolve(1, -tr, det).0 - tr * Util.Quadsolve(1, -tr, det).0 + det == 0
    ensures Util.Quadsolve(1, -tr, det).1 * Util.Quadsolve(1, -tr, det).1 - tr * Util.Quadsolve(1, -tr, det).1 + det == 0
  {
    assert (-tr) * (-tr) == tr * tr;
    Util.QuadsolveMonic(-tr, det, s);
    var r := Util.Quadsolve(1, -tr, det);
    NegatedCoefficient(tr, det, r.0);
    NegatedCoefficient(tr, det, r.1);
  }

  /** `l` is a zero of the characteristic polynomial `x^2 - trace x + det`. */
  predicate IsCharacteristicRoot(m: Matrix, l: int)
    requires Valid(m) && Is2x2(m)
  {
    l * l - Trace2(m) * l + Det(m.values) == 0
  }

  lemma NegatedCoefficient(tr: int, det: int, l: int)
    requires l * l + (-tr) * l + det == 0
    ensures l * l - tr * l + det == 0
  {
  }

  /** The example: both eigenvalues of the 2-by-2 identity are one. */
  lemma EigenvaluesIdentity()
    ensures Eigenvalues2D(IdentityMatrix(2)) == Ok((1, 1))
  {
    var id := IdentityMatrix(2);
    Entries2x2(id);
    EigenvaluesExact(id, 0);
  }
}
