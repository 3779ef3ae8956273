/** The image data model (an OpenCV `cv::Mat` as the repository uses it) and
    the two CPU filters whose pixel values come from OpenCV: grayscale and
    Canny edges. Their luminance and edge computations are parameters; what
    is modelled is the channel and shape contract around them. */
module Frames {

  /** One pixel: a value per channel, in the frame's channel order. */
  type Pixel = seq<real>

  /** A row-major image: `px[y][x]` is the pixel in row `y`, column `x`. */
  datatype Frame = Frame(rows: nat, cols: nat, channels: nat, px: seq<seq<Pixel>>)

  /** The dimensions of a frame, without its pixels. */
  datatype Shape = Shape(rows: nat, cols: nat, channels: nat)

  predicate WellFormed(f: Frame) {
    && f.channels >= 1
    && |f.px| == f.rows
    && (forall y :: 0 <= y < f.rows ==> |f.px[y]| == f.cols)
    && (forall y, x :: 0 <= y < f.rows && 0 <= x < f.cols ==> |f.px[y][x]| == f.channels)
  }

  function ShapeOf(f: Frame): Shape {
    Shape(f.rows, f.cols, f.channels)
  }

  /** `cv::Mat::empty()`: the frame holds no pixel. */
  predicate IsEmpty(s: Shape) {
    s.rows == 0 || s.cols == 0
  }

  /** Every channel of the pixel holds the same value. */
  predicate GrayPixel(p: Pixel) {
    forall c :: 0 <= c < |p| ==> p[c] == p[0]
  }

  /** Same height and width, three channels, each pixel gray. */
  predicate ThreeChannelGrayOf(r: Frame, f: Frame) {
    && WellFormed(r)
    && r.rows == f.rows && r.cols == f.cols && r.channels == 3
    && (forall y, x :: 0 <= y < r.rows && 0 <= x < r.cols ==> GrayPixel(r.px[y][x]))
  }

  /** `cv::cvtColor(..., COLOR_GRAY2BGR)` of one value. */
  function Replicate3(v: real): (p: Pixel)
    ensures |p| == 3 && GrayPixel(p) && p[0] == v
  {
    [v, v, v]
  }

  /** A frame built by evaluating `value` at every position, each result
      replicated into three equal channels. */
  function GrayFrame(rows: nat, cols: nat, value: (nat, nat) -> real): (r: Frame)
    ensures WellFormed(r) && r.rows == rows && r.cols == cols && r.channels == 3
    ensures forall y, x :: 0 <= y < rows && 0 <= x < cols ==> r.px[y][x] == Replicate3(value(y, x))
  {
    var px := seq(rows, y requires 0 <= y < rows =>
                seq(cols, x requires 0 <= x < cols => Replicate3(value(y, x))));
    assert forall y, x :: 0 <= y < rows && 0 <= x < cols ==> px[y][x] == Replicate3(value(y, x));
    Frame(rows, cols, 3, px)
  }

  /** The single-channel luminance image of a colour frame, `luma` standing
      for OpenCV's BGR(A)-to-gray weighting. */
  function LumaFrame(f: Frame, luma: Pixel -> real): (g: Frame)
    requires WellFormed(f)
    ensures WellFormed(g) && g.rows == f.rows && g.cols == f.cols && g.channels == 1
  {
    Frame(f.rows, f.cols, 1, seq(f.rows, y requires 0 <= y < f.rows =>
      seq(f.cols, x requires 0 <= x < f.cols => [luma(f.px[y][x])])))
  }

  /** `Filters::applyGrayscaleCPU`: an empty frame and a frame of an
      unsupported channel count are left alone; a 1-, 3- or 4-channel frame
      becomes a 3-channel frame of the same size whose channels agree. */
  function Grayscale(f: Frame, luma: Pixel -> real): (r: Frame)
    requires WellFormed(f)
    ensures WellFormed(r)
    ensures IsEmpty(ShapeOf(f)) ==> r == f
    ensures !IsEmpty(ShapeOf(f)) && f.channels in {1, 3, 4} ==> ThreeChannelGrayOf(r, f)
    ensures f.channels !in {1, 3, 4} ==> r == f
    ensures !IsEmpty(ShapeOf(f)) && f.channels == 1 ==>
              forall y, x :: 0 <= y < f.rows && 0 <= x < f.cols ==> r.px[y][x][0] == f.px[y][x][0]
  {
    if IsEmpty(ShapeOf(f)) then f
    else if f.channels == 3 || f.channels == 4 then
      GrayFrame(f.rows, f.cols, (y: nat, x: nat) => if y < f.rows && x < f.cols then luma(f.px[y][x]) else 0.0)
    else if f.channels == 1 then
      GrayFrame(f.rows, f.cols, (y: nat, x: nat) => if y < f.rows && x < f.cols then f.px[y][x][0] else 0.0)
    else f
  }

  /** The luminance weighting maps an already-gray pixel to its own value
      (true of OpenCV's weights, which sum to one). */
  ghost predicate PreservesGray(luma: Pixel -> real) {
    forall v: real :: luma([v, v, v]) == v
  }

  /** Grayscale is idempotent: a second pass keeps size, channel count and
      every pixel, provided the weighting fixes gray pixels. */
  lemma GrayscaleIdempotent(f: Frame, luma: Pixel -> real)
    requires WellFormed(f) && PreservesGray(luma)
    ensures Grayscale(Grayscale(f, luma), luma) == Grayscale(f, luma)
  {
    var g := Grayscale(f, luma);
    if !IsEmpty(ShapeOf(f)) && f.channels in {1, 3, 4} {
      var h := Grayscale(g, luma);
      forall y, x | 0 <= y < g.rows && 0 <= x < g.cols
        ensures h.px[y][x] == g.px[y][x]
      {
        var p := g.px[y][x];
        assert p == [p[0], p[0], p[0]];
        assert luma(p) == p[0];
      }
      assert forall y :: 0 <= y < g.rows ==> h.px[y] == g.px[y];
    }
  }

  const CannyLowDefault: real := 50.0
  const CannyHighDefault: real := 150.0

  /** `Filters::applyCannyCPU(frame, low, high)`: an empty frame is left
      alone; otherwise the input is reduced to one channel (colour frames
      through `luma`, other frames as they are) and `edge` stands for
      `cv::Canny` on that image; the edge map is re-expanded to three equal
      channels of the input's size. */
  function Canny(f: Frame, low: real, high: real, luma: Pixel -> real,
                 edge: (Frame, real, real, nat, nat) -> real): (r: Frame)
    requires WellFormed(f)
    ensures WellFormed(r)
    ensures IsEmpty(ShapeOf(f)) ==> r == f
    ensures !IsEmpty(ShapeOf(f)) ==> ThreeChannelGrayOf(r, f)
  {
    if IsEmpty(ShapeOf(f)) then f
    else
      var gray := if f.channels == 3 || f.channels == 4 then LumaFrame(f, luma) else f;
      GrayFrame(f.rows, f.cols, (y: nat, x: nat) => edge(gray, low, high, y, x))
  }

  /** An edge image is already gray: running grayscale over Canny's output
      changes nothing. */
  lemma GrayscaleAfterCanny(f: Frame, low: real, high: real, luma: Pixel -> real,
                            edge: (Frame, real, real, nat, nat) -> real)
    requires WellFormed(f) && PreservesGray(luma)
    ensures var e := Canny(f, low, high, luma, edge); Grayscale(e, luma) == e
  {
    var e := Canny(f, low, high, luma, edge);
    if !IsEmpty(ShapeOf(f)) {
      var h := Grayscale(e, luma);
      forall y, x | 0 <= y < e.rows && 0 <= x < e.cols
        ensures h.px[y][x] == e.px[y][x]
      {
        var p := e.px[y][x];
        assert p == [p[0], p[0], p[0]];
      }
      assert forall y :: 0 <= y < e.rows ==> h.px[y] == e.px[y];
    }
  }

  /** The shape a filter leaves behind, as a function of the shape it is
      given: grayscale and Canny yield three channels on non-empty frames they
      accept; pixelate keeps the shape. */
  function GrayscaleShape(s: Shape): Shape {
    if !IsEmpty(s) && s.channels in {1, 3, 4} then Shape(s.rows, s.cols, 3) else s
  }

  function CannyShape(s: Shape): Shape {
    if !IsEmpty(s) then Shape(s.rows, s.cols, 3) else s
  }

  lemma GrayscaleShapeAgrees(f: Frame, luma: Pixel -> real)
    requires WellFormed(f)
    ensures ShapeOf(Grayscale(f, luma)) == GrayscaleShape(ShapeOf(f))
  {
  }

  lemma CannyShapeAgrees(f: Frame, low: real, high: real, luma: Pixel -> real,
                         edge: (Frame, real, real, nat, nat) -> real)
    requires WellFormed(f)
    ensures ShapeOf(Canny(f, low, high, luma, edge)) == CannyShape(ShapeOf(f))
  {
  }
}
