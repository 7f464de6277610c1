/**
 * The animated two-dimensional vector.  A `Vector2D` keeps its coordinates
 * both as two numbers and as a general `Vector`, a colour, and optionally
 * the drawing context it is attached to.  Only `AddContext` changes an
 * existing object; the arithmetic builds new objects.  Animating it writes
 * one numbered frame per sample and then commits the context's frame
 * counter, which only ever moves forward.
 */
module Animation {

  import opened Wrappers
  import opened Number
  import Vectors
  import Matrices
  import Screens
  import Util

  newtype Byte = x: int | 0 <= x < 256

  /** `Rgb<u8>`: the colour the vector is drawn with. */
  datatype Rgb = Rgb(red: Byte, green: Byte, blue: Byte)

  /**
   * Two optional contexts conflict when both are present and they compare
   * unequal (the context's equality compares every field).
   */
  predicate Differ(a: Option<Screens.Screen2D>, b: Option<Screens.Screen2D>)
    reads (if a.Some? then {a.value} else {}), (if b.Some? then {b.value} else {})
  {
    a.Some? && b.Some? && a.value.Snapshot() != b.value.Snapshot()
  }

  class Vector2D {
    const vector: Vectors.Vector
    const x: int
    const y: int
    var context: Option<Screens.Screen2D>
    const color: Rgb

    /** The general vector always holds the two coordinates. */
    predicate Valid() {
      vector == Vectors.Vector([x, y])
    }

    /** `new`: the given coordinates and colour, and no context. */
    constructor (x: int, y: int, color: Rgb)
      ensures Valid() && Vectors.Dimensions(vector) == 2
      ensures this.x == x && this.y == y && this.color == color && context == None
    {
      vector := Vectors.New([x, y]).value;
      this.x := x;
      this.y := y;
      context := None;
      this.color := color;
    }

    /** `origin`: both coordinates zero, the given colour, and no context. */
    constructor Origin(color: Rgb)
      ensures Valid() && Vectors.Origin(2) == Some(vector)
      ensures x == Zero && y == Zero && this.color == color && context == None
    {
      var o := Vectors.Origin(2).value;
      assert o.values == [Zero, Zero];
      vector := o;
      x := Zero;
      y := Zero;
      context := None;
      this.color := color;
    }

    /** The struct literal the operators build their results with. */
    constructor Build(vector: Vectors.Vector, x: int, y: int, context: Option<Screens.Screen2D>, color: Rgb)
      ensures this.vector == vector && this.x == x && this.y == y
      ensures this.context == context && this.color == color
    {
      this.vector := vector;
      this.x := x;
      this.y := y;
      this.context := context;
      this.color := color;
    }

    /**
     * `dot`: never fails, because both operands are two-dimensional; it is
     * the general dot product of the inner vectors, `x1 x2 + y1 y2`.
     */
    function Dot(other: Vector2D): (r: int)
      requires Valid() && other.Valid()
      ensures Vectors.Dot(vector, other.vector) == Ok(r)
      ensures r == x * other.x + y * other.y
    {
      Matrices.SumProductsTwo(vector.values, other.vector.values);
      Vectors.Dot(vector, other.vector).value
    }

    /** `draw`: refused while no context is attached (the raster drawing is not modelled). */
    function Draw(): (r: Outcome)
      reads this
      ensures r.Fail? <==> context.None?
      ensures r.Fail? ==> r.error == NoContext
    {
      if context.Some? then Pass else Fail(NoContext)
    }

    /**
     * `add_context`: attaches the context when it can contain the vector's
     * coordinates; otherwise reports the error and leaves the vector as it
     * was.  A vector it attaches can then be drawn.
     */
    method AddContext(ctx: Screens.Screen2D) returns (r: Outcome)
      modifies this
      ensures r.Pass? <==> ctx.CanContain(x, y)
      ensures r.Pass? ==> context == Some(ctx) && Draw().Pass?
      ensures r.Fail? ==> context == old(context) && r.error == OutOfBounds
    {
      if !ctx.CanContain(x, y) {
        return Fail(OutOfBounds);
      }
      context := Some(ctx);
      r := Pass;
    }

    /**
     * `+`: refuses two operands whose contexts are both present and differ;
     * otherwise the coordinates add, and the result keeps the left operand's
     * context and colour.  The two contexts are compared one after the
     * other, so one context shared by both operands is accepted.
     */
    method Add(rhs: Vector2D) returns (r: Result<Vector2D>)
      requires Valid() && rhs.Valid()
      ensures r.Err? <==> Differ(context, rhs.context)
      ensures r.Err? ==> r.error == ContextMismatch
      ensures r.Ok? ==> fresh(r.value) && r.value.Valid()
      ensures r.Ok? ==> r.value.x == x + rhs.x && r.value.y == y + rhs.y
      ensures r.Ok? ==> r.value.context == context && r.value.color == color
      ensures r.Ok? ==> Vectors.Add(vector, rhs.vector) == Ok(r.value.vector)
    {
      var sum := Vectors.Add(vector, rhs.vector).value;
      if Differ(context, rhs.context) {
        return Err(ContextMismatch);
      }
      assert sum.values == [x + rhs.x, y + rhs.y];
      var v := new Vector2D.Build(sum, x + rhs.x, y + rhs.y, context, color);
      r := Ok(v);
    }

    /**
     * `+` as written: the guard on the left context is still held while the
     * right one is locked, so when both operands share one context the
     * second lock waits on the first forever.
     */
    method AddAsWritten(rhs: Vector2D) returns (r: AddOutcome)
      requires Valid() && rhs.Valid()
      ensures r.Blocked? <==> context.Some? && rhs.context.Some? && context.value == rhs.context.value
      ensures r.Returned? ==> (r.result.Err? <==> Differ(context, rhs.context))
      ensures r.Returned? && r.result.Ok? ==> fresh(r.result.value) && r.result.value.Valid()
      ensures r.Returned? && r.result.Err? ==> r.result.error == ContextMismatch
      ensures r.Returned? && r.result.Ok? ==> r.result.value.x == x + rhs.x && r.result.value.y == y + rhs.y
      ensures r.Returned? && r.result.Ok? ==> r.result.value.context == context && r.result.value.color == color
      ensures r.Returned? && r.result.Ok? ==> Vectors.Add(vector, rhs.vector) == Ok(r.result.value.vector)
    {
      var sum := Vectors.Add(vector, rhs.vector).value;
      if context.Some? && rhs.context.Some? {
        if context.value == rhs.context.value {
          return Blocked;
        }
        if context.value.Snapshot() != rhs.context.value.Snapshot() {
          return Returned(Err(ContextMismatch));
        }
      }
      assert sum.values == [x + rhs.x, y + rhs.y];
      var v := new Vector2D.Build(sum, x + rhs.x, y + rhs.y, context, color);
      r := Returned(Ok(v));
    }

    /**
     * `*` by a scalar: both coordinates and the inner vector are scaled; the
     * context and the colour are kept.
     */
    method Mul(scalar: int) returns (r: Vector2D)
      requires Valid()
      ensures fresh(r) && r.Valid()
      ensures r.x == scalar * x && r.y == scalar * y
      ensures r.context == context && r.color == color
      ensures r.vector == Vectors.ScalarMul(vector, scalar)
    {
      var scaled := Vectors.ScalarMul(vector, scalar);
      assert scaled.values == [scalar * x, scalar * y];
      r := new Vector2D.Build(scaled, scalar * x, scalar * y, context, color);
    }

    /**
     * `move_along_parametric`, run one frame after the other.  `samples[i]`
     * is the parametric curve at the `i`-th sample time as written
     * (`SampleTimeAsWritten`, NaN for a single frame) and
     * `saved[i]` says whether writing frame `i` to disk succeeded.  Frame `i`
     * attaches a fresh vector at the sample to the context, draws it (which
     * needs the context's size to be a quality resolution) and saves it
     * under number `currentFrame + i`.  The call fails unless every frame was
     * written; only then is the context's counter committed to
     * `currentFrame + frames`, and a refused commit (no frames at all) is a
     * failure too.  `written` lists the frame numbers saved, in order.
     */
    method MoveAlongParametric(frames: nat, samples: seq<(int, int)>, saved: seq<bool>)
      returns (r: Outcome, written: seq<nat>)
      requires |samples| == frames && |saved| == frames
      modifies if context.Some? then {context.value} else {}
      ensures context.None? ==> r == Fail(NoContext) && written == []
      ensures context.Some? ==>
        written == SavedIndices(old(context.value.currentFrame), FrameResults(context.value, samples, saved))
      ensures context.Some? ==>
        (r.Pass? <==> frames > 0 && forall i :: 0 <= i < frames ==> FrameResults(context.value, samples, saved)[i])
      ensures context.Some? && r.Pass? ==> context.value.currentFrame == old(context.value.currentFrame) + frames
      ensures context.Some? && r.Fail? ==> context.value.currentFrame == old(context.value.currentFrame)
      ensures context.Some? && r.Fail? && frames > 0 ==> r.error == FrameGenerationFailed(|written|, frames)
      ensures context.Some? && r.Fail? && frames == 0 ==> r.error == FrameCounterNotIncreasing
    {
      written := [];
      if context.None? {
        return Fail(NoContext), [];
      }
      var c := context.value;
      var start := c.currentFrame;
      var ok := FrameResults(c, samples, saved);
      var completed, error;
      completed, error, written := GenerateFrames(c, start, samples, saved, color);
      if !error {
        SavedIndicesAll(start, ok);
      }
      if error || completed != frames {
        return Fail(FrameGenerationFailed(completed, frames)), written;
      }
      var committed := c.ChangeCurrentFrame(start + frames);
      if committed.Fail? {
        r := Fail(FrameCounterNotIncreasing);
      } else {
        r := Pass;
      }
    }
  }

  /**
   * The frame loop of `move_along_parametric`: every frame is generated,
   * `written` lists the numbers of the frames saved, `completed` counts
   * them, and `error` says whether some frame failed.
   */
  method GenerateFrames(c: Screens.Screen2D, start: nat, samples: seq<(int, int)>, saved: seq<bool>, color: Rgb)
    returns (completed: nat, error: bool, written: seq<nat>)
    requires |samples| == |saved|
    ensures written == SavedIndices(start, FrameResults(c, samples, saved))
    ensures completed == |written|
    ensures error <==> exists j :: 0 <= j < |samples| && !FrameResults(c, samples, saved)[j]
  {
    var ok := FrameResults(c, samples, saved);
    completed, error, written := 0, false, [];
    for i := 0 to |samples|
      invariant written == SavedIndices(start, ok[..i])
      invariant completed == |written|
      invariant error <==> exists j :: 0 <= j < i && !ok[j]
    {
      var success := DrawFrame(c, samples[i], saved[i], color);
      SavedIndicesSnoc(start, ok, i);
      if success {
        completed := completed + 1;
        written := written + [start + i];
      } else {
        error := true;
      }
    }
    assert ok[..|samples|] == ok;
  }

  /**
   * One frame of `move_along_parametric`: a vector at the sampled point is
   * attached to the screen and drawn, then the frame is saved.  Drawing on
   * an image whose size is not a quality resolution panics, which ends the
   * frame without counting it.  The frame succeeds exactly when the size is
   * supported, the screen contains the point and the save succeeds; nothing
   * that existed before is changed.
   */
  method DrawFrame(c: Screens.Screen2D, sample: (int, int), savedOk: bool, color: Rgb) returns (success: bool)
    ensures success <==> SupportedSize(c) && c.CanContain(sample.0, sample.1) && savedOk
  {
    var v := new Vector2D(sample.0, sample.1, color);
    var attached := v.AddContext(c);
    if attached.Fail? {
      return false;
    }
    var drawn := v.Draw();
    if drawn.Fail? || !SupportedSize(c) {
      return false;
    }
    success := savedOk;
  }

  /** The two ends of `+` as written: it either blocks on a lock or returns. */
  datatype AddOutcome = Blocked | Returned(result: Result<Vector2D>)

  /**
   * `Matrix * Vector2D`: refuses a matrix that is not 2-by-2; otherwise the
   * matrix applied to the coordinates, which is the general matrix-vector
   * product of the inner vector, with the operand's context and colour.
   */
  method MatrixTimes(m: Matrices.Matrix, rhs: Vector2D) returns (r: Result<Vector2D>)
    requires Matrices.Valid(m) && rhs.Valid()
    ensures r.Err? <==> !Matrices.Is2x2(m)
    ensures r.Err? ==> r.error == Not2x2
    ensures r.Ok? ==> fresh(r.value) && r.value.Valid()
    ensures r.Ok? ==> r.value.x == m.values[0][0] * rhs.x + m.values[0][1] * rhs.y
    ensures r.Ok? ==> r.value.y == m.values[1][0] * rhs.x + m.values[1][1] * rhs.y
    ensures r.Ok? ==> r.value.context == rhs.context && r.value.color == rhs.color
    ensures r.Ok? ==> Matrices.MulVector(m, rhs.vector) == Ok(r.value.vector)
  {
    if !Matrices.Is2x2(m) {
      return Err(Not2x2);
    }
    var vals := m.values;
    var nx, ny := vals[0][0] * rhs.x + vals[0][1] * rhs.y, vals[1][0] * rhs.x + vals[1][1] * rhs.y;
    var inner := Vectors.New([nx, ny]).value;
    Matrices.SumProductsTwo(vals[0], rhs.vector.values);
    Matrices.SumProductsTwo(vals[1], rhs.vector.values);
    assert Matrices.MulVector(m, rhs.vector).value.values == [nx, ny];
    var v := new Vector2D.Build(inner, nx, ny, rhs.context, rhs.color);
    r := Ok(v);
  }

  /** The point a fraction `q` of the way from `lo` to `hi`. */
  function Lerp(lo: real, hi: real, q: real): real {
    lo + q * (hi - lo)
  }

  /** `i / k` as a float. */
  function Fraction(i: nat, k: nat): real
    requires k > 0
  {
    i as real / k as real
  }

  /**
   * The time of sample `i` out of `frames`, as written: `i / (frames - 1)`
   * of the way from `tMin` to `tMax`.  With a single frame the fraction is
   * `0.0 / 0.0`, which is NaN; `None` stands for that NaN.
   */
  function SampleTimeAsWritten(i: nat, frames: nat, tMin: real, tMax: real): (r: Option<real>)
    requires i < frames
    ensures r.None? <==> frames == 1
  {
    if frames - 1 == 0 then None
    else Some(Lerp(tMin, tMax, Fraction(i, frames - 1)))
  }

  /** A one-frame animation samples its curve at NaN. */
  lemma SingleFrameSampleIsNaN(tMin: real, tMax: real)
    ensures SampleTimeAsWritten(0, 1, tMin, tMax) == None
  {
  }

  /**
   * The sample time with the single-frame case sampled at `tMin`: the first
   * sample is at `tMin`, the last of several at `tMax`, and with several
   * frames it is the time as written.
   */
  function SampleTime(i: nat, frames: nat, tMin: real, tMax: real): (r: real)
    requires i < frames
    ensures i == 0 ==> r == tMin
    ensures frames > 1 && i == frames - 1 ==> r == tMax
    ensures frames > 1 ==> SampleTimeAsWritten(i, frames, tMin, tMax) == Some(r)
  {
    if frames == 1 then tMin
    else
      FractionEnds(frames - 1);
      LerpEnds(tMin, tMax);
      Lerp(tMin, tMax, Fraction(i, frames - 1))
  }

  /** Every sample time lies in the interval from `tMin` to `tMax`. */
  lemma SampleTimeWithin(i: nat, frames: nat, tMin: real, tMax: real)
    requires i < frames && tMin <= tMax
    ensures tMin <= SampleTime(i, frames, tMin, tMax) <= tMax
  {
    if frames > 1 {
      var q := Fraction(i, frames - 1);
      FractionInUnit(i, frames - 1);
      LerpWithin(tMin, tMax, q);
    }
  }

  /** Later samples are taken at later times when the interval is proper. */
  lemma SampleTimesIncrease(i: nat, j: nat, frames: nat, tMin: real, tMax: real)
    requires i < j < frames && tMin < tMax
    ensures SampleTime(i, frames, tMin, tMax) < SampleTime(j, frames, tMin, tMax)
  {
    FractionIncreases(i, j, frames - 1);
    LerpIncreases(tMin, tMax, Fraction(i, frames - 1), Fraction(j, frames - 1));
  }

  lemma LerpEnds(lo: real, hi: real)
    ensures Lerp(lo, hi, 0.0) == lo && Lerp(lo, hi, 1.0) == hi
  {
  }

  lemma FractionEnds(k: nat)
    requires k > 0
    ensures Fraction(0, k) == 0.0 && Fraction(k, k) == 1.0
  {
    SelfQuotient(k as real);
  }

  lemma SelfQuotient(k: real)
    requires k != 0.0
    ensures k / k == 1.0
  {
  }

  lemma FractionInUnit(i: nat, k: nat)
    requires i <= k && k > 0
    ensures 0.0 <= Fraction(i, k) <= 1.0
  {
    var a, b := i as real, k as real;
    assert a / b * b == a;
  }

  lemma FractionIncreases(i: nat, j: nat, k: nat)
    requires i < j <= k
    ensures Fraction(i, k) < Fraction(j, k)
  {
    QuotientIncreases(i as real, j as real, k as real);
  }

  lemma LerpWithin(lo: real, hi: real, q: real)
    requires 0.0 <= q <= 1.0 && lo <= hi
    ensures lo <= Lerp(lo, hi, q) <= hi
  {
    var d := hi - lo;
    NonNegativeProduct(q, d);
    NonNegativeProduct(1.0 - q, d);
    assert hi - (lo + q * d) == (1.0 - q) * d;
  }

  lemma LerpIncreases(lo: real, hi: real, p: real, q: real)
    requires lo < hi && p < q
    ensures Lerp(lo, hi, p) < Lerp(lo, hi, q)
  {
    ScaledIncreases(p, q, hi - lo);
  }

  lemma NonNegativeProduct(a: real, b: real)
    requires 0.0 <= a && 0.0 <= b
    ensures 0.0 <= a * b
  {
  }

  lemma QuotientIncreases(a: real, b: real, k: real)
    requires a < b && k > 0.0
    ensures a / k < b / k
  {
    assert b / k - a / k == (b - a) / k;
  }

  lemma ScaledIncreases(p: real, q: real, d: real)
    requires p < q && d > 0.0
    ensures p * d < q * d
  {
    assert q * d - p * d == (q - p) * d;
  }

  /**
   * Frames are images of the context's width and height, and `draw_vector`
   * unwraps the `Quality` of the image size: only the four quality
   * resolutions can be drawn on, any other size panics the frame's worker.
   */
  predicate SupportedSize(c: Screens.Screen2D) {
    Util.QualityNew(c.width, c.height).Some?
  }

  /**
   * A context sized as one of the qualities, the way the program builds its
   * screen from the chosen quality's resolution, can be drawn on.
   */
  lemma QualitySizedSupported(c: Screens.Screen2D, q: Util.Quality)
    requires c.width == Util.Resolution(q).values[0] && c.height == Util.Resolution(q).values[1]
    ensures SupportedSize(c)
  {
    Util.QualityRoundTrip(q);
  }

  /**
   * Whether frame `i` of an animation is written: the context's size is a
   * quality resolution (drawing does not panic), the sample fits in the
   * context (attaching succeeds) and saving the image succeeds.
   */
  function FrameResults(c: Screens.Screen2D, samples: seq<(int, int)>, saved: seq<bool>): (r: seq<bool>)
    requires |samples| == |saved|
    ensures |r| == |samples|
    ensures forall i :: 0 <= i < |r| ==>
      (r[i] <==> SupportedSize(c) && c.CanContain(samples[i].0, samples[i].1) && saved[i])
  {
    seq(|samples|, i requires 0 <= i < |samples| =>
      SupportedSize(c) && c.CanContain(samples[i].0, samples[i].1) && saved[i])
  }

  /**
   * On a context whose size is not a quality resolution no frame is
   * written, whatever the samples and the saves.
   */
  lemma {:induction false} UnsupportedSizeWritesNothing(c: Screens.Screen2D, start: nat, samples: seq<(int, int)>, saved: seq<bool>)
    requires |samples| == |saved| && !SupportedSize(c)
    ensures SavedIndices(start, FrameResults(c, samples, saved)) == []
  {
    var ok := FrameResults(c, samples, saved);
    NoneSaved(start, ok);
  }

  lemma {:induction false} NoneSaved(start: nat, ok: seq<bool>)
    requires forall i :: 0 <= i < |ok| ==> !ok[i]
    ensures SavedIndices(start, ok) == []
  {
    if ok != [] {
      NoneSaved(start, ok[..|ok| - 1]);
    }
  }

  /**
   * The frame numbers written by an animation that starts at frame `start`
   * and whose frames succeed as `ok` says: `start + i` for every successful
   * frame `i`, in order.
   */
  function SavedIndices(start: nat, ok: seq<bool>): (r: seq<nat>)
    ensures |r| <= |ok|
    ensures forall j :: 0 <= j < |r| ==> start <= r[j] < start + |ok|
  {
    if ok == [] then []
    else SavedIndices(start, ok[..|ok| - 1]) + (if ok[|ok| - 1] then [start + |ok| - 1] else [])
  }

  /** Extending the frame results by frame `i` appends `start + i` exactly when that frame succeeds. */
  lemma SavedIndicesSnoc(start: nat, ok: seq<bool>, i: nat)
    requires i < |ok|
    ensures SavedIndices(start, ok[..i + 1]) ==
      SavedIndices(start, ok[..i]) + (if ok[i] then [start + i] else [])
  {
    assert ok[..i + 1][..i] == ok[..i];
  }

  /** The frame numbers are strictly increasing, so no two frames share a file. */
  lemma {:induction false} SavedIndicesIncreasing(start: nat, ok: seq<bool>)
    ensures forall j, l :: 0 <= j < l < |SavedIndices(start, ok)| ==>
      SavedIndices(start, ok)[j] < SavedIndices(start, ok)[l]
  {
    if ok != [] {
      SavedIndicesIncreasing(start, ok[..|ok| - 1]);
    }
  }

  /** A frame number is written exactly when it belongs to a successful frame of this call. */
  lemma {:induction false} SavedIndicesExactly(start: nat, ok: seq<bool>, n: nat)
    ensures n in SavedIndices(start, ok) <==> start <= n < start + |ok| && ok[n - start]
  {
    if ok != [] {
      var prefix := ok[..|ok| - 1];
      SavedIndicesExactly(start, prefix, n);
      if start <= n < start + |prefix| {
        assert ok[n - start] == prefix[n - start];
      }
    }
  }

  /**
   * Every frame is written exactly when every frame succeeds, and then the
   * call writes the consecutive numbers `start` to `start + |ok| - 1`.
   */
  lemma {:induction false} SavedIndicesAll(start: nat, ok: seq<bool>)
    ensures |SavedIndices(start, ok)| == |ok| <==> forall i :: 0 <= i < |ok| ==> ok[i]
    ensures (forall i :: 0 <= i < |ok| ==> ok[i]) ==>
      SavedIndices(start, ok) == seq(|ok|, i requires 0 <= i < |ok| => start + i)
  {
    if ok != [] {
      var prefix := ok[..|ok| - 1];
      SavedIndicesAll(start, prefix);
      if forall i :: 0 <= i < |ok| ==> ok[i] {
        assert forall i :: 0 <= i < |prefix| ==> prefix[i];
      }
      if |SavedIndices(start, ok)| == |ok| {
        assert ok[|ok| - 1];
        assert |SavedIndices(start, prefix)| == |prefix|;
      }
    }
  }

  /**
   * After a call that wrote every frame, the counter moved past all of them,
   * so a following call starting there writes only numbers above every
   * number the first call wrote.
   */
  lemma FramesNotOverwritten(start: nat, first: seq<bool>, second: seq<bool>)
    ensures var a, b := SavedIndices(start, first), SavedIndices(start + |first|, second);
      forall j, l :: 0 <= j < |a| && 0 <= l < |b| ==> a[j] < b[l]
  {
  }

  /**
   * The as-written `+` applied to two vectors attached to one context
   * blocks, where the corrected `+` returns their sum in that context.
   */
  method SharedContextExample() returns (asWritten: AddOutcome, corrected: Result<Vector2D>)
    ensures asWritten.Blocked?
    ensures corrected.Ok? && corrected.value.x == 1 && corrected.value.y == 3
  {
    var screen := new Screens.Screen2D((-3.0, 3.0), (-3.0, 3.0), "", 30, 1920, 1080);
    var white := Rgb(255, 255, 255);
    var v := new Vector2D(0, 1, white);
    var w := new Vector2D(1, 2, white);
    var attachedV := v.AddContext(screen);
    var attachedW := w.AddContext(screen);
    asWritten := v.AddAsWritten(w);
    corrected := v.Add(w);
  }
}
