# mathvis core, modelled in Dafny

mathvis is a Rust library and command-line program that animates linear
algebra. It renders numbered PNG frames of vectors moving in the plane, and
an external encoder joins them into a video. This project models its core:

- **Linear algebra.** Shape-checked `Matrix`, `Vector` and `Point` types over
  the generic `Number` trait:
  - matrices: construction, identity, cofactor determinant, transpose,
    matrix, scalar and vector products, 2x2 inverse and eigenvalues;
  - vectors: dot product, norm, normalisation, sum, cross product and
    scaling;
  - points: moving by a vector and Euclidean distance.
- **Configuration helpers.**
  - the four output `Quality` values and their resolutions;
  - the inclusive axis-range test;
  - the integer `Number` implementations (`zero`, `one`, sign tests, `abs`,
    `sqrt`, `pow`) and the trait's default `abs`;
  - the quadratic formula;
  - the pixel `Screen`.
- **Animated vector.** `Vector2D` with its attach/draw state machine
  (`add_context`, `draw`), its arithmetic, and the frame bookkeeping of
  `move_along_parametric`:
  - frame `i` of a call is saved under number `current_frame + i`;
  - the call fails unless every frame was written;
  - only then is the context's frame counter committed to
    `current_frame + frames`.

The generic `Number` is modelled by its integer instantiations, on `int`.
This means:

- `/` is Rust's integer division, which truncates toward zero
  (`Number.TruncDiv`);
- `sqrt` is `(x as f64).sqrt() as i32`, which is the floor square root of a
  non-negative value and `0` for a negative one (the cast of NaN);
- every property is an exact statement.

Where the source would panic, the model either states the condition as a
precondition or returns an explicit error (a panicking frame worker counts as
a failed frame). Each case is listed under "Left out" below.

The modules follow the source files:

| file | source |
|---|---|
| `wrappers.dfy` | `Option`, `Result` and the error kinds |
| `number.dfy` | the integer `Number` impls |
| `coords.dfy` | the iterator folds shared by vectors, points and matrices |
| `vector.dfy` | `src/api/vector.rs` |
| `point.dfy` | `src/api/point.rs` |
| `util.dfy` | `src/api/util.rs` and `rust/src/api/util.rs` |
| `matrix.dfy` | `src/api/matrix.rs` |
| `screen.dfy` | `src/api/screen.rs` and the `Screen2D` context |
| `animation.dfy` | `rust/src/animation/vector.rs` |

The repository holds two copies of the utility module: `src/api/util.rs` and
`rust/src/api/util.rs`. Their `Quality` tables and `in_axis_range` agree, so
each is modelled once, and the lemmas below cite both copies.

`rust/src/api/screen.rs`, which defines `Screen2D`, is not part of this model.
`Screens.Screen2D` takes its rules from the way the code uses the context:
the construction and `unwrap` at src/main.rs:59-66, the checks and the frame
commit in rust/src/animation/vector.rs:72-75 and 188-193, and the comparison
at line 330. Beyond those uses, the following is assumed:

- axis ranges whose start is below their end;
- `can_contain` as the inclusive test on both axes;
- a frame counter that `change_current_frame` only moves forward;
- equality on every field.

The determinant and the matrix product are nested loops in the source, so
they are methods. Each is proved equal to a recursive specification function
(`Det`, `Product`), and the algebraic properties are lemmas about those
functions.

`Vector2D` is a class: `add_context` assigns its `context` field in place,
and the context is a shared, mutable `Screen2D` object.

## Model

| member | source | states |
|---|---|---|
| `Number.AbsBySign` | rust/src/api/util.rs:98-103 | exactly one of zero, positive and negative holds for any value, and the default `abs` negates exactly the negative values, making them positive, and keeps the others |
| `Number.Abs` | src/api/util.rs:277-279 | the built-in `abs` of `i32`/`i64` is non-negative, in range, and equals the value or its negation |
| `Number.DefaultAbs` | rust/src/api/util.rs:98-103 | the trait's default `abs` (the value if positive, else its negation) is non-negative, equals the value or its negation, and is zero only for zero |
| `Number.DefaultAbsEven` | rust/src/api/util.rs:99-102 | the default `abs` gives the same result for a value and its negation |
| `Number.DefaultAbsAgrees` | src/api/util.rs:338-340 | the default `abs` agrees with the built-in `abs` of `i32` and `i64` |
| `Number.Pow` | src/api/util.rs:285-290 | `pow` with a non-negative exponent is repeated multiplication, and `x.pow(0)` is 1. With a negative exponent it is the float power cast back: `0` gives the type's maximum, `1` gives 1, `-1` gives 1 for an even and -1 for an odd exponent, and every other base gives 0 |
| `Number.PowTwo` | src/api/util.rs:346-351 | `x.pow(2) == x * x` |
| `Number.PowAdd` | src/api/util.rs:288-289 | `x.pow(m + n) == x.pow(m) * x.pow(n)` for non-negative exponents |
| `Number.Sqrt` | src/api/util.rs:281-283 | the integer `sqrt` is the largest `r` with `r*r <= x` for `x >= 0`, and 0 for a negative `x` |
| `Number.SqrtUnique` | src/api/util.rs:342-344 | any `r >= 0` with `r*r <= x < (r+1)^2` is the `sqrt` of `x` |
| `Number.SqrtZero` | src/api/util.rs:282 | `sqrt(x) == 0` exactly when `x == 0`, for `x >= 0` |
| `Number.TruncDiv` | src/api/util.rs:408-411 | integer `/` leaves a remainder smaller in magnitude than the divisor and with the sign of the dividend |
| `Number.TruncDivUnit` | src/api/matrix.rs:322-323 | dividing by `1` or `-1` is multiplying by it |
| `Coords.Repeat` | src/api/vector.rs:254-256 | `vec![x; n]` has length `n` and every entry `x` |
| `Coords.FoldProducts` | src/api/vector.rs:57-61 | the fold `acc + a * b` from a seed is the seed plus the sum of pairwise products |
| `Coords.FoldSquaredDiffs` | src/api/point.rs:96-103 | the fold `acc + (a - b).pow(2)` is the seed plus the sum of squared differences |
| `Coords.SumSquaresZero` | src/api/vector.rs:76-81 | a sum of squares is non-negative, and zero exactly when every entry is zero |
| `Coords.SumProductsSymmetric` | src/api/vector.rs:60-61 | the sum of pairwise products does not depend on the operand order |
| `Coords.DivideAll` | src/api/vector.rs:101-103 | `map(val / d)` divides every entry by `d` with integer `/` and keeps the length |
| `Vectors.New` | src/api/vector.rs:223-231 | `new` is None exactly for an empty list; otherwise the values are kept |
| `Vectors.Origin` | src/api/vector.rs:247-257 | `origin(0)` is None; `origin(n)` is `n` zeros |
| `Vectors.GettersOfNew` | src/api/vector.rs:271-289 | `values` returns what `new` stored and `get_dimensions` is its length |
| `Vectors.Dot` | src/api/vector.rs:53-62 | error exactly on a dimension mismatch; otherwise the sum of pairwise products |
| `Vectors.DotSymmetric` | src/api/vector.rs:57-61 | `a.dot(b) == b.dot(a)`, including the error case |
| `Vectors.DotExample` | src/api/vector.rs:347-351 | `(1,2,3) . (3,2,1) == 10` |
| `Vectors.Norm` | src/api/vector.rs:76-81 | `norm` is the largest non-negative `r` with `r*r` at most the sum of squares |
| `Vectors.NormZero` | src/api/vector.rs:77-80 | the norm is zero exactly for the zero vector |
| `Vectors.Normalize` | src/api/vector.rs:97-104 | error exactly when the norm is zero; otherwise every entry is divided by the norm and the dimension is kept |
| `Vectors.NormalizeFailsIffZero` | src/api/vector.rs:98-100 | `normalize` fails exactly on a vector whose entries are all zero |
| `Vectors.NormalizeAxis` | src/api/vector.rs:101-103 | a vector along one axis normalizes to the signed unit vector on that axis |
| `Vectors.NormOfAxis` | src/api/vector.rs:76-81 | the norm of a vector with a single non-zero entry is that entry's absolute value |
| `Vectors.NormalizeExample` | src/api/vector.rs:92-94 | `(2,0)` normalizes to `(1,0)` |
| `Vectors.Add` | src/api/vector.rs:129-141 | error exactly on a dimension mismatch; otherwise the element-wise sum in the same dimension |
| `Vectors.AddCommutative` | src/api/vector.rs:133-139 | vector addition commutes, including the error case |
| `Vectors.AddOrigin` | src/api/vector.rs:130-140 | adding the origin of the same dimension changes nothing |
| `Vectors.AddExample` | src/api/vector.rs:323-335 | `(1,2,3) + (0,1,0) == (1,3,3)` |
| `Vectors.AddWrongDimensions` | src/api/vector.rs:338-344 | a 3-dimensional plus a 2-dimensional vector is a dimension error |
| `Vectors.Cross` | src/api/vector.rs:165-177 | error unless both dimensions are 3; otherwise the component formula, and the result is orthogonal to both operands |
| `Vectors.CrossOrthogonal` | src/api/vector.rs:169-173 | the three components of the cross product have zero dot product with each operand |
| `Vectors.CrossSelf` | src/api/vector.rs:169-173 | `v x v` is the zero vector |
| `Vectors.CrossAntiCommutative` | src/api/vector.rs:170-172 | `w x v` is the negation of `v x w` |
| `Vectors.CrossExample` | src/api/vector.rs:354-359 | `(1,2,3) x (3,2,1) == (-4,8,-4)` |
| `Vectors.ScalarMul` | src/api/vector.rs:199-203 | the same dimension, every entry multiplied by the scalar |
| `Vectors.DotScalarMul` | src/api/vector.rs:200-202 | scaling one operand scales the dot product |
| `Vectors.ScalarMulExample` | src/api/vector.rs:189-196 | `(1,1) * 2 == (2,2)` |
| `Points.New` | src/api/point.rs:164-172 | `new` is None exactly for an empty list; otherwise the values are kept |
| `Points.Origin` | src/api/point.rs:187-194 | `origin(0)` is None; `origin(n)` is `n` zeros |
| `Points.GettersOfNew` | src/api/point.rs:207-224 | `values` returns what `new` stored; `get_dimensions` is its length and that of `origin(n)` is `n` |
| `Points.AddVector` | src/api/point.rs:131-143 | error exactly on a dimension mismatch; otherwise the element-wise sum in the same dimension |
| `Points.AddVectorToOrigin` | src/api/point.rs:125-129 | origin plus `v` has `v`'s coordinates |
| `Points.DistanceTo` | src/api/point.rs:92-104 | error exactly on a dimension mismatch; otherwise the integer square root of the sum of squared differences |
| `Points.DistanceZero` | src/api/point.rs:96-103 | the distance is zero exactly between equal points |
| `Points.DistanceSymmetric` | src/api/point.rs:99-101 | `p.distance_to(q) == q.distance_to(p)` |
| `Points.DistanceAfterMove` | src/api/point.rs:131-143 | moving a point by `v` puts it at distance `norm(v)` from where it started |
| `Points.DistanceExample` | src/api/point.rs:84-91 | the origin of the plane is at distance 1 from `(1,0)` |
| `Util.InAxisRangeInclusive` | src/api/util.rs:18-20 | `in_axis_range(v, (s, e))` holds exactly when `s <= v <= e`, both ends included |
| `Util.InAxisRangeEmpty` | rust/src/api/util.rs:15-17 | a range whose start is above its end contains nothing |
| `Util.QualityNew` | src/api/util.rs:34-42 | `Quality::new` is Some exactly for the four resolution pairs, and the quality it returns has that resolution |
| `Util.Resolution` | src/api/util.rs:45-52 | every resolution has two positive coordinates, and all but the lowest are 16:9 |
| `Util.QualityRoundTrip` | src/api/util.rs:34-52 | `Quality::new(resolution(q)) == Some(q)` for every quality |
| `Util.QualityNewAcceptsExactly` | rust/src/api/util.rs:28-36 | a pair is accepted exactly when it is the resolution of some quality |
| `Util.ResolutionInjective` | rust/src/api/util.rs:37-44 | distinct qualities have distinct resolutions |
| `Util.Name` | src/api/util.rs:61-69 | every name is a non-empty lower-case word |
| `Util.NamesDistinct` | rust/src/api/util.rs:52-61 | the four names are pairwise distinct |
| `Util.QuadsolveVieta` | src/api/util.rs:406-412 | when the discriminant is a perfect square and both numerators divide exactly, `quadsolve` returns the exact roots: they sum to `-b/a`, multiply to `c/a`, and are zeros of the polynomial |
| `Util.QuadsolveMonic` | src/api/util.rs:407-411 | with leading coefficient 1 and a perfect-square discriminant, both results are exact roots summing to `-b` with product `c` |
| `Matrices.Dimensions` | src/api/matrix.rs:167-169 | `get_dimensions` is the row count and the first row's length, which every row shares |
| `Matrices.New` | src/api/matrix.rs:77-86 | None exactly for no rows, an empty first row, or a row of another length; otherwise the dimensions are the row count and the first row's length |
| `Matrices.NewRefusesExamples` | src/api/matrix.rs:481-490 | no rows, and rows of lengths 3 and 2, are both refused |
| `Matrices.IdentityMatrix` | src/api/matrix.rs:105-113 | `n x n` with one on the diagonal and zero elsewhere |
| `Matrices.Identity` | src/api/matrix.rs:101-114 | `identity(0)` is None; the loop builds exactly the identity matrix of the given size |
| `Matrices.Minor` | src/api/matrix.rs:196-205 | the sub-matrix of the cofactor expansion drops row 0 and the given column |
| `Matrices.Determinant` | src/api/matrix.rs:184-215 | error exactly on a non-square matrix; otherwise the loops compute the cofactor expansion along row 0 with signs alternating by column |
| `Matrices.Det2` | src/api/matrix.rs:193-212 | for a 2x2 matrix the expansion is `ad - bc` |
| `Matrices.DetIdentity` | src/api/matrix.rs:176-182 | the determinant of every identity matrix is one |
| `Matrices.Expand3` | src/api/matrix.rs:193-209 | a 3x3 determinant is the signed sum over the first row of each entry times the determinant of its minor |
| `Matrices.MinorDet3` | src/api/matrix.rs:196-205 | the minor of a 3x3 matrix at a column keeps the other two columns of rows 1 and 2, so its determinant is their 2x2 cross difference |
| `Matrices.Det3` | src/api/matrix.rs:193-212 | the determinant of a 3x3 matrix is the rule-of-Sarrus formula in its nine entries |
| `Matrices.DetExample` | src/api/matrix.rs:508-516 | the 3x3 test matrix has determinant 4 |
| `Matrices.Transpose` | src/api/matrix.rs:229-239 | the dimensions swap and entry `(i, j)` is `A[j][i]` |
| `Matrices.TransposeInvolution` | src/api/matrix.rs:230-238 | transposing twice gives the matrix back |
| `Matrices.TransposeExample` | src/api/matrix.rs:526-530 | `((1,0),(1,1))` transposes to `((1,1),(0,1))` |
| `Matrices.Product` | src/api/matrix.rs:389-401 | the product has `rows(A)` rows of `cols(B)` entries, entry `(i, j)` being row `i` of `A` dotted with column `j` of `B` |
| `Matrices.Multiply` | src/api/matrix.rs:386-403 | error exactly when `cols(A) != rows(B)`; otherwise the triple loop computes the product |
| `Matrices.ProductIdentityLeft` | src/api/matrix.rs:493-497 | `I * A == A` |
| `Matrices.ProductIdentityRight` | src/api/matrix.rs:380-383 | `A * I == A` |
| `Matrices.ProductExample` | src/api/matrix.rs:500-505 | `((1,1),(1,1)) * ((1,1),(0,1)) == ((1,2),(1,2))` |
| `Matrices.TransposeProduct` | src/api/matrix.rs:394-398 | the transpose of a product is the product of the transposes in the other order |
| `Matrices.ScaleMatrix` | src/api/matrix.rs:424-432 | the same dimensions, every entry multiplied by the scalar |
| `Matrices.ProductScaleRight` | src/api/matrix.rs:428-429 | scaling the right factor scales the product |
| `Matrices.MulVector` | src/api/matrix.rs:457-473 | error exactly when `cols != dim(v)`; otherwise entry `i` is row `i` dotted with `v` and the dimension is the row count |
| `Matrices.MulVectorIdentity` | src/api/matrix.rs:452-455 | `I * v == v` |
| `Matrices.MulVectorAdd` | src/api/matrix.rs:464-471 | `M * (v + w) == M * v + M * w` |
| `Matrices.MulVectorExample` | src/api/matrix.rs:519-523 | `((1,-1,2),(0,-3,1)) * (2,1,0) == (1,-3)` |
| `Matrices.Invert2D` | src/api/matrix.rs:312-324 | error exactly for a matrix that is not 2x2; otherwise a 2x2 matrix |
| `Matrices.InvertUnimodular` | src/api/matrix.rs:319-323 | for determinant 1 or -1 the result is a two-sided inverse |
| `Matrices.InvertTruncates` | src/api/matrix.rs:322-323 | for a determinant of magnitude at least 2, `one / det` is 0 and the result is the zero matrix |
| `Matrices.InvertIdentity` | src/api/matrix.rs:312-323 | the inverse of the identity is the identity |
| `Matrices.Eigenvalues2D` | src/api/matrix.rs:254-265 | error exactly for a matrix that is not 2x2 |
| `Matrices.EigenvaluesExact` | src/api/matrix.rs:258-264 | when the characteristic discriminant is a perfect square, the results sum to the trace, multiply to the determinant, and are both zeros of `x^2 - trace x + det` |
| `Matrices.EigenvaluesIdentity` | src/api/matrix.rs:250-253 | the eigenvalues of the 2x2 identity are `(1, 1)` |
| `Screens.New` | src/api/screen.rs:8-13 | None exactly when the width or the height is 0; a built screen has positive dimensions that the getters report |
| `Screens.NewPositive` | src/api/screen.rs:9-11 | `new` succeeds exactly for two positive arguments |
| `Screens.NewScreen2D` | src/main.rs:59-66 | the context constructor refuses an axis range whose start is not below its end; otherwise the new context holds the given axes, save directory, frame rate, width and height, and starts at frame 0 |
| `Screens.Screen2D.Snapshot` | rust/src/animation/vector.rs:330 | the value two contexts are compared by carries every field, including the frame counter |
| `Screens.Screen2D.ChangeCurrentFrame` | rust/src/animation/vector.rs:188-193 | the counter moves only to a larger value; a refused value changes nothing |
| `Screens.CanContainInclusive` | rust/src/animation/vector.rs:72-75 | a context contains a point exactly when both coordinates lie in their axis ranges, ends included |
| `Animation.Vector2D.constructor` | rust/src/animation/vector.rs:267-277 | `new` stores the coordinates, the two-dimensional inner vector `[x, y]`, the colour and no context |
| `Animation.Vector2D.Origin` | rust/src/animation/vector.rs:307-316 | `origin` is at `(0, 0)` with the inner vector `Vector::origin(2)` and no context |
| `Animation.Vector2D.Dot` | rust/src/animation/vector.rs:291-294 | `dot` never fails and equals the general dot product of the inner vectors, `x1 x2 + y1 y2` |
| `Animation.Vector2D.Draw` | rust/src/animation/vector.rs:60-69 | drawing fails with the missing-context error exactly when no context is attached |
| `Animation.Vector2D.AddContext` | rust/src/animation/vector.rs:71-78 | attaches exactly when the context can contain the vector, after which drawing succeeds; otherwise fails and leaves the context unchanged |
| `Animation.Vector2D.Add` | rust/src/animation/vector.rs:324-341 | error exactly when both contexts are present and differ; otherwise the coordinate sum, which agrees with the inner vectors' sum and keeps the left context and colour |
| `Animation.Vector2D.AddAsWritten` | rust/src/animation/vector.rs:326-331 | the operator as written blocks exactly when both operands hold the same context |
| `Animation.Vector2D.Mul` | rust/src/animation/vector.rs:351-360 | coordinates and inner vector scaled, context and colour kept |
| `Animation.MatrixTimes` | rust/src/animation/vector.rs:366-382 | error exactly for a matrix that is not 2x2; otherwise the matrix applied to the coordinates, equal to the general matrix-vector product, with the operand's context and colour |
| `Animation.Vector2D.MoveAlongParametric` | rust/src/animation/vector.rs:90-196 | fails without a context. It saves frame `i` as `current_frame + i` when the context's size is a quality resolution, the sample fits and the save succeeds, and succeeds exactly when there is at least one frame and every frame succeeds. On success the counter becomes `current_frame + frames`; on failure it is unchanged and the error reports the completed and total counts |
| `Animation.DrawFrame` | rust/src/animation/vector.rs:124-171 | a frame succeeds exactly when the context's size is one of the four quality resolutions (otherwise `draw_vector`'s `Quality::new(..).unwrap()` at line 394 panics the worker), the screen contains the sample and the save succeeds |
| `Animation.FrameResults` | rust/src/animation/vector.rs:124-171 | frame `i` is counted exactly when the size is a quality resolution, the context contains sample `i` and saving it succeeds |
| `Animation.QualitySizedSupported` | src/main.rs:59-66 | a context whose width and height are a quality's resolution, as the program builds its screen, can be drawn on |
| `Animation.UnsupportedSizeWritesNothing` | rust/src/animation/vector.rs:393-394 | on a context whose size is not a quality resolution no frame is ever written |
| `Animation.NoneSaved` | rust/src/animation/vector.rs:156-170 | when no frame succeeds, no frame number is written |
| `Animation.GenerateFrames` | rust/src/animation/vector.rs:112-178 | the frame loop writes exactly the numbers `SavedIndices` gives, counts them, and raises the error flag exactly when some frame fails |
| `Animation.SampleTimeAsWritten` | rust/src/animation/vector.rs:127 | the sample time as written is NaN (here `None`) exactly when there is a single frame |
| `Animation.SingleFrameSampleIsNaN` | rust/src/animation/vector.rs:127 | a one-frame animation samples its curve at `0.0 / 0.0` |
| `Animation.SampleTime` | rust/src/animation/vector.rs:127 | the corrected sample time: the first sample at `t_min`, the last of several at `t_max`, and equal to the time as written whenever there are several frames |
| `Animation.SampleTimeWithin` | rust/src/animation/vector.rs:127 | every corrected sample time lies between `t_min` and `t_max` |
| `Animation.SampleTimesIncrease` | rust/src/animation/vector.rs:127 | later samples are taken at strictly later times when `t_min < t_max` |
| `Animation.SavedIndicesSnoc` | rust/src/animation/vector.rs:156-165 | one more frame adds its number `current_frame + i` to the written list exactly when it succeeds |
| `Animation.SavedIndices` | rust/src/animation/vector.rs:156-160 | every frame number written by a call lies between `current_frame` and `current_frame + frames - 1` |
| `Animation.SavedIndicesIncreasing` | rust/src/animation/vector.rs:115 | the numbers written are strictly increasing, so no two frames of a call share a file |
| `Animation.SavedIndicesExactly` | rust/src/animation/vector.rs:156-163 | a number is written exactly when it is `current_frame + i` for a successful frame `i` |
| `Animation.SavedIndicesAll` | rust/src/animation/vector.rs:177-186 | all frames are written exactly when all succeed, and then the numbers are `current_frame` to `current_frame + frames - 1` in order |
| `Animation.FramesNotOverwritten` | rust/src/animation/vector.rs:189-191 | after a fully successful call, the next call writes only numbers above every number the first wrote |
| `Animation.SharedContextExample` | rust/src/animation/vector.rs:330 | two vectors attached to one context: the operator as written blocks, and the corrected one returns their sum |

## Left out

- Float instantiations of `Number` (`f32`, `f64`), the float conversions
  (`to_f64`, `from_f64`, `from_f32`, `to_i64`) and float rounding: the model
  is the integer instantiation.
- Number.Abs: requires the value not to be the type's minimum, because `abs`
  of the minimum overflows. The other arithmetic is on unbounded integers, so
  `i32`/`i64` overflow of `+`, `*`, the folds and negation is not modelled;
  in particular `Number.DefaultAbs` negates the type's minimum without the
  overflow that `-self` has in the source.
- Number.Pow: requires a non-negative exponent's result to fit the type,
  because integer `pow` panics on overflow.
- Number.Sqrt: the floor square root is exact. The rounding of
  `(x as f64).sqrt()` for values beyond 2^52 is not modelled.
- Util.InAxisRangeInclusive: the conversion of the value to `f32` is exact in
  the model, so rounding above 2^24 is not modelled.
- Matrices.Invert2D: requires a non-zero determinant for a 2x2 matrix. With
  integer entries, `one / det` then divides by zero, which panics; the
  comment at src/api/matrix.rs:301 says the function does not work for a
  determinant of 0, and no error is returned for it.
- Matrices.EigenvaluesExact: the roots are characterised only when the
  discriminant is a perfect square. Otherwise `Eigenvalues2D` is its
  definition, truncating division of the floor square root.
- Util.Quadsolve: requires a non-zero leading coefficient, because the
  integer division by `2a` panics on zero. `eigenvalues_2d`, its only caller
  here, always passes `a = 1`.
- Vectors.Normalize: the result is not shown to have norm one. That holds
  only over a field; integer division truncates.
- Animation.Vector2D.MoveAlongParametric:
  - the model runs the frames one after the other, not on the thread pool.
    This reading assumes two things about `ThreadPool`, which is not part of
    this model. First, leaving the block at rust/src/animation/vector.rs:112-175
    drops the pool and waits for every queued job, before `completed_frames`
    and `error_flag` are read. Second, a worker's panic is not raised again
    when the pool is joined;
  - mutex poisoning and the lock errors it raises are not modelled; a frame
    whose worker panics (in `draw_vector`, on a context whose size is not a
    quality resolution) is counted as failed, and since that condition is the
    same for every frame, all of them fail, as they do in the source once
    the poisoned context can no longer be locked;
  - `frames = (duration * fps as f32) as u32` is an input rather than
    computed from floats;
  - `samples[i]` is whatever the curve returns at the sample time `t_i` as
    written (`Animation.SampleTimeAsWritten`), on the integer `Number`. For a
    single frame that time is NaN, and `samples[0]` is the curve's value
    there. `Animation.SampleTime` is the corrected time, which the program
    does not use. The curve itself, a float closure, is not modelled;
  - the outcome of saving frame `i` is the input `saved[i]`;
  - with zero frames the source's `unwrap` of the refused counter commit
    panics; the model reports a failure instead.
- Raster drawing (`draw_vector`, `draw_vector_tip`, `draw_axis`,
  `fill_background`) and image saving: these are library calls and I/O, so
  `draw` is modelled only as its missing-context check.
- Animation.Vector2D.Draw: the panic of `draw_vector` on an image whose size
  is not a quality resolution is not part of `Draw`, which takes no image;
  `Animation.DrawFrame` accounts for it, since a frame's image always has the
  context's size.
- `rotate`, `move_to`, `multiply_by_matrix` and `rotate_then_scale`: they
  only build a float curve and call `move_along_parametric`.
- `interpolate`, `Quality::usable` and `get_center_pixels`: float
  arithmetic.
- `Screen2D::change_dimensions`: its definition is not part of this model.
- `eigenvectors_2d`, `svd_2d` and `polar_decomposition_2d`: they rest on
  float square roots, and the source marks them as not working reliably.
- `rotation_matrix_2d`: float trigonometry.
- The `random` constructors: they call a random number generator.
- `src/main.rs`: argument parsing, directory handling and the ffmpeg call,
  which are all I/O.
- `src/animation/show.rs` and `src/api/motion.rs`: they declare interfaces
  with no logic.

## Findings

| source | as written | input that shows it | evidently intended | confidence | as-written member | corrected member |
|---|---|---|---|---|---|---|
| rust/src/animation/vector.rs:326-331 | `Vector2D + Vector2D` locks the left context and, while that guard is still alive in the same expression, locks the right one. A non-reentrant `Mutex` locked twice by one thread never returns (or panics). | Two vectors attached to one `Arc<Mutex<Screen2D>>`, the normal way to share a context, for example `(0,1)` and `(1,2)` on one screen. | Two vectors on the same context add to `(1,3)` in that context; only two different, unequal contexts are refused. | medium, not executed | `Animation.Vector2D.AddAsWritten` (exhibited by `Animation.SharedContextExample`) | `Animation.Vector2D.Add` |
| rust/src/animation/vector.rs:127 | The sample time is `t_min + (i / (frames - 1)) * (t_max - t_min)` in `f64`, so with a single frame the fraction is `0.0 / 0.0`, which is NaN, and the curve is sampled at NaN instead of at a time in the interval. | `duration * fps` between 1 and 2, for example a duration of 0.5 at 2 frames per second, so `frames == 1`. | A one-frame animation shows the curve at `t_min`, and with several frames the samples run from `t_min` to `t_max` in increasing order. | low, not executed | `Animation.SampleTimeAsWritten` (exhibited by `Animation.SingleFrameSampleIsNaN`) | `Animation.SampleTime` (with `Animation.SampleTimeWithin` and `Animation.SampleTimesIncrease`) |
