/**
 * The output surfaces: the immutable pixel `Screen` of the API, and the
 * shared drawing context `Screen2D` that animated objects attach to.  The
 * context's axes, resolution, frame rate and save directory are fixed once
 * it is built; only its frame counter moves, and it only moves forward.
 */
module Screens {

  import opened Wrappers
  import Util

  /** `Screen`: a width and a height in pixels (`u32` in the source). */
  datatype Screen = Screen(width: nat, height: nat)

  /** `Screen::new`: refuses a zero width or a zero height. */
  function New(width: nat, height: nat): (r: Option<Screen>)
    ensures r.None? <==> width == 0 || height == 0
    ensures r.Some? ==> r.value.width > 0 && r.value.height > 0
    ensures r.Some? ==> Width(r.value) == width && Height(r.value) == height
  {
    if width > 0 && height > 0 then Some(Screen(width, height)) else None
  }

  /** `width` and `height`. */
  function Width(s: Screen): nat {
    s.width
  }

  function Height(s: Screen): nat {
    s.height
  }

  /** Every screen that `new` builds has two positive dimensions, and only those pairs build one. */
  lemma NewPositive(width: nat, height: nat)
    ensures New(width, height).Some? <==> width > 0 && height > 0
    ensures New(width, 0).None? && New(0, height).None?
  {
  }

  /** What `Screen2D` values compare: the derived equality on every field. */
  datatype ScreenState = ScreenState(
    xAxis: (real, real), yAxis: (real, real), saveDirectory: string,
    fps: nat, width: nat, height: nat, currentFrame: nat)

  /**
   * `Screen2D`: the drawing context shared between an object and the frame
   * workers.  The axis ranges are the world window shown in each frame;
   * `currentFrame` is the number of the next frame file to write.
   */
  class Screen2D {
    const xAxis: (real, real)
    const yAxis: (real, real)
    const saveDirectory: string
    const fps: nat
    const width: nat
    const height: nat
    var currentFrame: nat

    constructor (xAxis: (real, real), yAxis: (real, real), saveDirectory: string, fps: nat, width: nat, height: nat)
      requires xAxis.0 < xAxis.1 && yAxis.0 < yAxis.1
      ensures this.xAxis == xAxis && this.yAxis == yAxis && this.saveDirectory == saveDirectory
      ensures this.fps == fps && this.width == width && this.height == height
      ensures currentFrame == 0
    {
      this.xAxis := xAxis;
      this.yAxis := yAxis;
      this.saveDirectory := saveDirectory;
      this.fps := fps;
      this.width := width;
      this.height := height;
      currentFrame := 0;
    }

    /** The value the context's equality compares. */
    function Snapshot(): (r: ScreenState)
      reads this
      ensures r.currentFrame == currentFrame && r.xAxis == xAxis && r.yAxis == yAxis
    {
      ScreenState(xAxis, yAxis, saveDirectory, fps, width, height, currentFrame)
    }

    /** `can_contain`: both coordinates lie in their axis range, ends included. */
    predicate CanContain(x: int, y: int) {
      Util.InAxisRange(x, xAxis) && Util.InAxisRange(y, yAxis)
    }

    /**
     * `change_current_frame`: the counter only moves forward; a value that
     * is not above the current one is refused and changes nothing.
     */
    method ChangeCurrentFrame(newFrame: nat) returns (r: Outcome)
      modifies this
      ensures r.Pass? <==> newFrame > old(currentFrame)
      ensures r.Pass? ==> currentFrame == newFrame
      ensures r.Fail? ==> currentFrame == old(currentFrame) && r.error == FrameCounterNotIncreasing
    {
      if newFrame <= currentFrame {
        return Fail(FrameCounterNotIncreasing);
      }
      currentFrame := newFrame;
      r := Pass;
    }
  }

  /** `Screen2D::new`: refuses an axis range whose start is not below its end. */
  method NewScreen2D(xAxis: (real, real), yAxis: (real, real), saveDirectory: string, fps: nat, width: nat, height: nat)
    returns (r: Result<Screen2D>)
    ensures r.Err? <==> !(xAxis.0 < xAxis.1 && yAxis.0 < yAxis.1)
    ensures r.Err? ==> r.error == InvalidRange
    ensures r.Ok? ==> fresh(r.value) && r.value.currentFrame == 0
    ensures r.Ok? ==> r.value.xAxis == xAxis && r.value.yAxis == yAxis
    ensures r.Ok? ==> r.value.saveDirectory == saveDirectory && r.value.fps == fps
    ensures r.Ok? ==> r.value.width == width && r.value.height == height
  {
    if !(xAxis.0 < xAxis.1 && yAxis.0 < yAxis.1) {
      return Err(InvalidRange);
    }
    var s := new Screen2D(xAxis, yAxis, saveDirectory, fps, width, height);
    r := Ok(s);
  }

  /** With whole-number axis bounds, `can_contain` is the inclusive box test on both coordinates. */
  lemma CanContainInclusive(s: Screen2D, x0: int, x1: int, y0: int, y1: int, x: int, y: int)
    requires s.xAxis == (x0 as real, x1 as real) && s.yAxis == (y0 as real, y1 as real)
    ensures s.CanContain(x, y) <==> x0 <= x <= x1 && y0 <= y <= y1
    ensures x0 <= x1 && y0 <= y1 ==> s.CanContain(x0, y0) && s.CanContain(x1, y1)
  {
  }
}
