/** What the webcam viewer does to one captured frame before it reaches the
    GPU: the CPU filter of the current mode, then (only in CPU transform
    mode) a guarded scale, rotation and translation, then one vertical flip
    and the texture upload. The frame is modelled by its shape and the
    pipeline by the sequence of calls it makes; what each call does to the
    pixels is modelled in `Frames`, `Pixelate` and `Transforms`. */
module WebcamFrame {
  import opened Frames
  import opened Pixelate
  import opened Transforms
  import opened WebcamView

  /** The viewer's `FilterMode`. */
  datatype FilterMode = NoFilter | CpuGray | CpuEdge | CpuPixelate | GpuGray | GpuEdge | GpuPixelate

  predicate IsCpuMode(m: FilterMode) {
    m == CpuGray || m == CpuEdge || m == CpuPixelate
  }

  predicate IsGpuMode(m: FilterMode) {
    m == GpuGray || m == GpuEdge || m == GpuPixelate
  }

  datatype WarpKind = ScaleWarp | RotateWarp | TranslateWarp

  /** One call the pipeline makes on the frame. */
  datatype FrameOp =
    | GrayOp
    | CannyOp(low: real, high: real)
    | PixelateOp(size: int)
    | WarpOp(kind: WarpKind, warp: Warp)
    | FlipVertical
    | Upload

  predicate IsFilterOp(op: FrameOp) {
    op.GrayOp? || op.CannyOp? || op.PixelateOp?
  }

  /** The frame's shape after a call. */
  function OpShape(op: FrameOp, s: Shape): Shape {
    match op
    case GrayOp => GrayscaleShape(s)
    case CannyOp(_, _) => CannyShape(s)
    case WarpOp(_, w) => w.out
    case _ => s
  }

  function ShapeAfter(ops: seq<FrameOp>, s: Shape): Shape
    decreases |ops|
  {
    if |ops| == 0 then s else ShapeAfter(ops[1..], OpShape(ops[0], s))
  }

  /** The CPU filter call of a mode, with the filters' default arguments;
      none for the other modes. */
  function FilterOps(m: FilterMode): (r: seq<FrameOp>)
    ensures |r| <= 1
    ensures |r| == 1 <==> IsCpuMode(m)
    ensures forall i :: 0 <= i < |r| ==> IsFilterOp(r[i])
  {
    match m
    case CpuGray => [GrayOp]
    case CpuEdge => [CannyOp(CannyLowDefault, CannyHighDefault)]
    case CpuPixelate => [PixelateOp(PixelSizeDefault)]
    case _ => []
  }

  /** The guard threshold `1e-6f` of the scale and rotation steps. */
  const Epsilon: real := 0.000001

  function Abs(x: real): real {
    if x < 0.0 then -x else x
  }

  /** The pixel pivot of the CPU scale: the zoom pivot mirrored in x. */
  function PixelPivot(s: Shape, v: View): Point {
    Point((1.0 - v.pivotU) * s.cols as real, v.pivotV * s.rows as real)
  }

  /** The CPU scale step: one warp when the scale is away from 1, scaling by
      it about the pixel pivot, or about the frame centre when the zoom pivot
      lies right of the frame (`pivotU > 1`) or below it (`pivotV < 0`), which
      makes a pixel coordinate negative. */
  function ScaleStep(s: Shape, v: View): (r: seq<FrameOp>)
    requires !IsEmpty(s)
    ensures |r| == (if Abs(v.scale - 1.0) > Epsilon then 1 else 0)
    ensures |r| == 1 ==> r[0].WarpOp? && r[0].kind == ScaleWarp && r[0].warp.out == s
    ensures |r| == 1 ==> r[0].warp.m.a == v.scale && r[0].warp.m.d == v.scale
    ensures |r| == 1 && v.pivotU <= 1.0 && v.pivotV >= 0.0 ==>
              Apply(r[0].warp.m, PixelPivot(s, v)) == PixelPivot(s, v)
    ensures |r| == 1 && !(v.pivotU <= 1.0 && v.pivotV >= 0.0) ==>
              Apply(r[0].warp.m, Centre(s)) == Centre(s)
  {
    if Abs(v.scale - 1.0) > Epsilon then
      var p := PixelPivot(s, v);
      PivotSign(1.0 - v.pivotU, s.cols as real);
      PivotSign(v.pivotV, s.rows as real);
      [WarpOp(ScaleWarp, ScaleCPU(s, v.scale, v.scale, p.x, p.y).value)]
    else []
  }

  lemma NegNonZero(a: real, b: real)
    ensures (-a * b != 0.0) <==> (a * b != 0.0)
  {
  }

  /** A pixel coordinate is negative exactly when its UV factor is, the
      frame's side being positive. */
  lemma PivotSign(a: real, b: real)
    requires b > 0.0
    ensures a * b >= 0.0 <==> a >= 0.0
  {
    if a < 0.0 {
      assert a * b < 0.0;
    }
  }

  /** The CPU rotation step: one warp about the frame centre when the angle
      is away from 0. */
  function RotateStep(s: Shape, v: View, cosd: real -> real, sind: real -> real): (r: seq<FrameOp>)
    requires !IsEmpty(s)
    ensures |r| == (if Abs(v.rotation) > Epsilon then 1 else 0)
    ensures |r| == 1 ==> r[0].WarpOp? && r[0].kind == RotateWarp && r[0].warp.out == s
    ensures |r| == 1 ==> Apply(r[0].warp.m, Centre(s)) == Centre(s)
    ensures |r| == 1 ==> r[0].warp.m == RotationMatrix2D(Centre(s), cosd(v.rotation), sind(v.rotation), 1.0)
  {
    if Abs(v.rotation) > Epsilon then [WarpOp(RotateWarp, RotateCPU(s, v.rotation, cosd, sind).value)]
    else []
  }

  /** The CPU translation step: UV translation to pixels, U mirrored, one
      warp when the shift is not zero. */
  function TranslateStep(s: Shape, v: View): (r: seq<FrameOp>)
    requires !IsEmpty(s)
    ensures var dx := -v.translateU * s.cols as real;
            var dy := v.translateV * s.rows as real;
            && |r| == (if dx != 0.0 || dy != 0.0 then 1 else 0)
            && (|r| == 1 ==> r[0].WarpOp? && r[0].kind == TranslateWarp && r[0].warp.out == s)
            && (|r| == 1 ==> Translates(r[0].warp.m, dx, dy))
  {
    var dx := -v.translateU * s.cols as real;
    var dy := v.translateV * s.rows as real;
    if dx != 0.0 || dy != 0.0 then [WarpOp(TranslateWarp, TranslateCPU(s, dx, dy).value)] else []
  }

  /** The CPU transforms: scale, rotate, translate, in this order, each at
      most once and only past its guard, each keeping the frame's size. */
  function TransformOps(s: Shape, v: View, cosd: real -> real, sind: real -> real): (r: seq<FrameOp>)
    requires !IsEmpty(s)
    ensures forall i :: 0 <= i < |r| ==> r[i].WarpOp? && r[i].warp.out == s && r[i].warp.border == BorderValue
    ensures forall i, j :: 0 <= i < j < |r| ==> WarpRank(r[i].kind) < WarpRank(r[j].kind)
    ensures (exists i :: 0 <= i < |r| && r[i].kind == ScaleWarp) <==> Abs(v.scale - 1.0) > Epsilon
    ensures (exists i :: 0 <= i < |r| && r[i].kind == RotateWarp) <==> Abs(v.rotation) > Epsilon
    ensures (exists i :: 0 <= i < |r| && r[i].kind == TranslateWarp)
            <==> (v.translateU * s.cols as real != 0.0 || v.translateV * s.rows as real != 0.0)
  {
    var a := ScaleStep(s, v);
    var b := RotateStep(s, v, cosd, sind);
    var c := TranslateStep(s, v);
    ThreeSteps(a, b, c, s);
    NegNonZero(v.translateU, s.cols as real);
    a + b + c
  }

  /** At most one warp of each kind, in kind order. */
  lemma ThreeSteps(a: seq<FrameOp>, b: seq<FrameOp>, c: seq<FrameOp>, s: Shape)
    requires |a| <= 1 && |b| <= 1 && |c| <= 1
    requires |a| == 1 ==> a[0].WarpOp? && a[0].kind == ScaleWarp && a[0].warp.out == s && a[0].warp.border == BorderValue
    requires |b| == 1 ==> b[0].WarpOp? && b[0].kind == RotateWarp && b[0].warp.out == s && b[0].warp.border == BorderValue
    requires |c| == 1 ==> c[0].WarpOp? && c[0].kind == TranslateWarp && c[0].warp.out == s && c[0].warp.border == BorderValue
    ensures var r := a + b + c;
            && (forall i :: 0 <= i < |r| ==> r[i].WarpOp? && r[i].warp.out == s && r[i].warp.border == BorderValue)
            && (forall i, j :: 0 <= i < j < |r| ==> WarpRank(r[i].kind) < WarpRank(r[j].kind))
            && ((exists i :: 0 <= i < |r| && r[i].kind == ScaleWarp) <==> |a| == 1)
            && ((exists i :: 0 <= i < |r| && r[i].kind == RotateWarp) <==> |b| == 1)
            && ((exists i :: 0 <= i < |r| && r[i].kind == TranslateWarp) <==> |c| == 1)
  {
    var r := a + b + c;
    assert forall i :: 0 <= i < |r| ==>
      (i < |a| && r[i] == a[0]) || (|a| <= i < |a| + |b| && r[i] == b[0]) || (|a| + |b| <= i && r[i] == c[0]);
    if |a| == 1 {
      assert r[0] == a[0];
    }
    if |b| == 1 {
      assert r[|a|] == b[0];
    }
    if |c| == 1 {
      assert r[|a| + |b|] == c[0];
    }
  }

  function WarpRank(k: WarpKind): nat {
    match k
    case ScaleWarp => 0
    case RotateWarp => 1
    case TranslateWarp => 2
  }

  /** The shape the mode's CPU filter leaves. */
  function FilteredShape(m: FilterMode, s: Shape): (r: Shape)
    ensures r.rows == s.rows && r.cols == s.cols
    ensures r == ShapeAfter(FilterOps(m), s)
  {
    match m
    case CpuGray => GrayscaleShape(s)
    case CpuEdge => CannyShape(s)
    case _ => s
  }

  /** The calls before the flip: the filter and the transforms. */
  function Processing(s: Shape, m: FilterMode, f: Flags, v: View,
                      cosd: real -> real, sind: real -> real): (r: seq<FrameOp>)
    requires !IsEmpty(s)
    ensures forall i :: 0 <= i < |r| ==> r[i] != FlipVertical && r[i] != Upload
    ensures forall i :: 0 <= i < |r| && r[i].WarpOp? ==> f.enabled && f.useCPU
    ensures (|r| > 0 && IsFilterOp(r[0])) <==> IsCpuMode(m)
  {
    var filt := FilterOps(m);
    var warps := if f.enabled && f.useCPU then TransformOps(FilteredShape(m, s), v, cosd, sind) else [];
    assert forall i :: 0 <= i < |filt| ==> IsFilterOp(filt[i]);
    filt + warps
  }

  lemma CountAbsent(r: seq<FrameOp>, x: FrameOp)
    requires forall i :: 0 <= i < |r| ==> r[i] != x
    ensures multiset(r)[x] == 0
  {
    assert x !in r;
  }

  /** The frame part of one loop iteration for a frame of shape `s`. */
  function Pipeline(s: Shape, m: FilterMode, f: Flags, v: View,
                    cosd: real -> real, sind: real -> real): (r: seq<FrameOp>)
    ensures IsEmpty(s) ==> r == []
    ensures !IsEmpty(s) ==> |r| >= 2 && r[|r| - 2] == FlipVertical && r[|r| - 1] == Upload
    ensures multiset(r)[FlipVertical] == (if IsEmpty(s) then 0 else 1)
    ensures multiset(r)[Upload] == (if IsEmpty(s) then 0 else 1)
    ensures (|r| > 0 && IsFilterOp(r[0])) <==> (!IsEmpty(s) && IsCpuMode(m))
    ensures forall i :: 0 <= i < |r| && r[i].WarpOp? ==> f.enabled && f.useCPU
  {
    if IsEmpty(s) then []
    else
      var pre := Processing(s, m, f, v, cosd, sind);
      FlipThenUpload(pre, IsCpuMode(m), f.enabled && f.useCPU);
      pre + [FlipVertical, Upload]
  }

  /** Appending the flip and the upload to calls that contain neither adds
      exactly one of each, at the end, and keeps the first call and the
      warps. */
  lemma FlipThenUpload(pre: seq<FrameOp>, filtered: bool, warps: bool)
    requires forall i :: 0 <= i < |pre| ==> pre[i] != FlipVertical && pre[i] != Upload
    requires (|pre| > 0 && IsFilterOp(pre[0])) <==> filtered
    requires forall i :: 0 <= i < |pre| && pre[i].WarpOp? ==> warps
    ensures var r := pre + [FlipVertical, Upload];
            && |r| >= 2 && r[|r| - 2] == FlipVertical && r[|r| - 1] == Upload
            && multiset(r)[FlipVertical] == 1 && multiset(r)[Upload] == 1
            && ((|r| > 0 && IsFilterOp(r[0])) <==> filtered)
            && (forall i :: 0 <= i < |r| && r[i].WarpOp? ==> warps)
  {
    CountAbsent(pre, FlipVertical);
    CountAbsent(pre, Upload);
    var r := pre + [FlipVertical, Upload];
    assert multiset(r) == multiset(pre) + multiset([FlipVertical, Upload]);
  }

  /** The warp calls of a call sequence, in order. */
  function WarpsOf(r: seq<FrameOp>): (w: seq<FrameOp>)
    ensures forall i :: 0 <= i < |w| ==> w[i].WarpOp?
  {
    if |r| == 0 then []
    else (if r[0].WarpOp? then [r[0]] else []) + WarpsOf(r[1..])
  }

  lemma {:induction false} WarpsOfAppend(a: seq<FrameOp>, b: seq<FrameOp>)
    ensures WarpsOf(a + b) == WarpsOf(a) + WarpsOf(b)
  {
    if |a| > 0 {
      assert (a + b)[1..] == a[1..] + b;
      WarpsOfAppend(a[1..], b);
    } else {
      assert a + b == b;
    }
  }

  lemma {:induction false} WarpsOfAllWarps(a: seq<FrameOp>)
    requires forall i :: 0 <= i < |a| ==> a[i].WarpOp?
    ensures WarpsOf(a) == a
  {
    if |a| > 0 {
      WarpsOfAllWarps(a[1..]);
    }
  }

  lemma {:induction false} WarpsOfNoWarps(a: seq<FrameOp>)
    requires forall i :: 0 <= i < |a| ==> !a[i].WarpOp?
    ensures WarpsOf(a) == []
  {
    if |a| > 0 {
      WarpsOfNoWarps(a[1..]);
    }
  }

  /** The calls before the flip are the mode's filter followed by the
      transform steps in CPU transform mode. */
  lemma ProcessingParts(s: Shape, m: FilterMode, f: Flags, v: View, cosd: real -> real, sind: real -> real)
    requires !IsEmpty(s)
    ensures Pipeline(s, m, f, v, cosd, sind) == Processing(s, m, f, v, cosd, sind) + [FlipVertical, Upload]
    ensures Processing(s, m, f, v, cosd, sind)
            == FilterOps(m) + (if f.enabled && f.useCPU then TransformOps(FilteredShape(m, s), v, cosd, sind) else [])
  {
  }

  /** The warps a frame goes through are exactly the transform steps, and
      only in CPU transform mode. */
  lemma PipelineWarps(s: Shape, m: FilterMode, f: Flags, v: View, cosd: real -> real, sind: real -> real)
    requires !IsEmpty(s)
    ensures WarpsOf(Pipeline(s, m, f, v, cosd, sind))
            == if f.enabled && f.useCPU then TransformOps(FilteredShape(m, s), v, cosd, sind) else []
  {
    ProcessingParts(s, m, f, v, cosd, sind);
    WarpsBetween(FilterOps(m), if f.enabled && f.useCPU then TransformOps(FilteredShape(m, s), v, cosd, sind) else []);
  }

  lemma WarpsBetween(filt: seq<FrameOp>, warps: seq<FrameOp>)
    requires forall i :: 0 <= i < |filt| ==> !filt[i].WarpOp?
    requires forall i :: 0 <= i < |warps| ==> warps[i].WarpOp?
    ensures WarpsOf(filt + warps + [FlipVertical, Upload]) == warps
  {
    WarpsOfAppend(filt + warps, [FlipVertical, Upload]);
    WarpsOfAppend(filt, warps);
    WarpsOfNoWarps(filt);
    WarpsOfAllWarps(warps);
    WarpsOfNoWarps([FlipVertical, Upload]);
  }
}
