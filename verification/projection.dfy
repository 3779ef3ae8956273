/** The camera program's OpenGL projection matrix built from calibrated
    pinhole intrinsics (focal lengths `fx`, `fy`, principal point `cx`, `cy`)
    and the frame size, with fixed near and far planes. Matrices are
    column-major as in glm: `m.c2.y` is column 2, row 1. */
module Projection {
  datatype Vec4 = Vec4(x: real, y: real, z: real, w: real)

  /** A 4x4 matrix by columns. */
  datatype Mat4 = Mat4(c0: Vec4, c1: Vec4, c2: Vec4, c3: Vec4)

  function Component(v: Vec4, r: nat): real
    requires r < 4
  {
    if r == 0 then v.x else if r == 1 then v.y else if r == 2 then v.z else v.w
  }

  function Column(m: Mat4, c: nat): Vec4
    requires c < 4
  {
    if c == 0 then m.c0 else if c == 1 then m.c1 else if c == 2 then m.c2 else m.c3
  }

  /** glm's `m[c][r]`. */
  function Entry(m: Mat4, c: nat, r: nat): real
    requires c < 4 && r < 4
  {
    Component(Column(m, c), r)
  }

  /** `m * v`: the columns weighted by the vector's coordinates. */
  function MulVec(m: Mat4, v: Vec4): Vec4 {
    Vec4(m.c0.x * v.x + m.c1.x * v.y + m.c2.x * v.z + m.c3.x * v.w,
         m.c0.y * v.x + m.c1.y * v.y + m.c2.y * v.z + m.c3.y * v.w,
         m.c0.z * v.x + m.c1.z * v.y + m.c2.z * v.z + m.c3.z * v.w,
         m.c0.w * v.x + m.c1.w * v.y + m.c2.w * v.z + m.c3.w * v.w)
  }

  /** The calibration the program uses (pixels), and its clip planes. */
  const CalibFx: real := 2218.397864043568
  const CalibFy: real := 2218.397864043568
  const CalibCx: real := 959.5
  const CalibCy: real := 539.5
  const Near: real := 0.01
  const Far: real := 1000.0

  /** Pinhole intrinsics and the image they were measured on. */
  datatype Intrinsics = Intrinsics(fx: real, fy: real, cx: real, cy: real, width: real, height: real)

  predicate ValidIntrinsics(k: Intrinsics) {
    k.fx > 0.0 && k.fy > 0.0 && k.width > 0.0 && k.height > 0.0
  }

  predicate ValidPlanes(near: real, far: real) {
    0.0 < near < far
  }

  /** The projection the camera program installs: zero everywhere except the
      focal scales on the diagonal, the principal point offsets in column 2,
      and the depth terms. */
  function ProjectionMatrix(k: Intrinsics, near: real, far: real): (m: Mat4)
    requires ValidIntrinsics(k) && ValidPlanes(near, far)
    ensures m.c0.x > 0.0 && m.c1.y > 0.0
    ensures forall x, y, z :: MulVec(m, Vec4(x, y, z, 1.0)).w == -z
  {
    PositiveQuotient(2.0 * k.fx, k.width);
    PositiveQuotient(2.0 * k.fy, k.height);
    Mat4(Vec4(2.0 * k.fx / k.width, 0.0, 0.0, 0.0),
         Vec4(0.0, 2.0 * k.fy / k.height, 0.0, 0.0),
         Vec4(2.0 * k.cx / k.width - 1.0, 2.0 * k.cy / k.height - 1.0, -(far + near) / (far - near), -1.0),
         Vec4(0.0, 0.0, -2.0 * far * near / (far - near), 0.0))
  }

  /** Exactly seven entries can be non-zero: (0,0), (1,1), (2,0), (2,1),
      (2,2), (2,3) and (3,2); (2,3) is -1 and (3,2) is negative. */
  lemma ProjectionSparsity(k: Intrinsics, near: real, far: real)
    requires ValidIntrinsics(k) && ValidPlanes(near, far)
    ensures var m := ProjectionMatrix(k, near, far);
            forall c: nat, r: nat | c < 4 && r < 4 ::
              !((c == r && c < 3) || (c == 2 && r != 2) || (c == 3 && r == 2)) ==> Entry(m, c, r) == 0.0
    ensures var m := ProjectionMatrix(k, near, far);
            Entry(m, 0, 0) > 0.0 && Entry(m, 1, 1) > 0.0 && Entry(m, 2, 3) == -1.0 && Entry(m, 3, 2) < 0.0
  {
    var m := ProjectionMatrix(k, near, far);
    assert 2.0 * k.fx / k.width > 0.0 by {
      PositiveQuotient(2.0 * k.fx, k.width);
    }
    assert 2.0 * k.fy / k.height > 0.0 by {
      PositiveQuotient(2.0 * k.fy, k.height);
    }
    assert -2.0 * far * near / (far - near) < 0.0 by {
      PositiveQuotient(2.0 * far * near, far - near);
    }
  }

  lemma PositiveQuotient(a: real, b: real)
    requires a > 0.0 && b > 0.0
    ensures a / b > 0.0
  {
  }

  /** The clip-space w of any point is minus its eye-space z. */
  lemma ClipW(k: Intrinsics, near: real, far: real, x: real, y: real, z: real)
    requires ValidIntrinsics(k) && ValidPlanes(near, far)
    ensures MulVec(ProjectionMatrix(k, near, far), Vec4(x, y, z, 1.0)).w == -z
  {
  }

  /** The depth a point at eye-space `z` gets after the perspective divide. */
  function NdcDepth(k: Intrinsics, near: real, far: real, z: real): real
    requires ValidIntrinsics(k) && ValidPlanes(near, far) && z != 0.0
  {
    var c := MulVec(ProjectionMatrix(k, near, far), Vec4(0.0, 0.0, z, 1.0));
    ClipW(k, near, far, 0.0, 0.0, z);
    c.z / c.w
  }

  /** The near plane maps to depth -1 and the far plane to +1. */
  lemma DepthRange(k: Intrinsics, near: real, far: real)
    requires ValidIntrinsics(k) && ValidPlanes(near, far)
    ensures NdcDepth(k, near, far, -near) == -1.0
    ensures NdcDepth(k, near, far, -far) == 1.0
  {
    DepthClip(k, near, far, near);
    DepthClip(k, near, far, far);
  }

  /** Clip z and w of the axis point at depth `e`, spelled out. */
  lemma DepthClip(k: Intrinsics, near: real, far: real, e: real)
    requires ValidIntrinsics(k) && ValidPlanes(near, far) && (e == near || e == far)
    ensures NdcDepth(k, near, far, -e) == if e == near then -1.0 else 1.0
  {
    var m := ProjectionMatrix(k, near, far);
    var c := MulVec(m, Vec4(0.0, 0.0, -e, 1.0));
    var d := far - near;
    assert c.w == e;
    assert c.z == (-(far + near) / d) * -e + (-2.0 * far * near / d);
    DepthAt(near, far, e);
  }

  /** The depth rows at eye-space `z = -e` for `e` on a clip plane: clip z is
      `-e` at the near plane and `e` at the far plane. */
  lemma DepthAt(near: real, far: real, e: real)
    requires ValidPlanes(near, far) && (e == near || e == far)
    ensures var z := (-(far + near) / (far - near)) * -e + (-2.0 * far * near / (far - near));
            z / e == if e == near then -1.0 else 1.0
  {
    var z := (-(far + near) / (far - near)) * -e + (-2.0 * far * near / (far - near));
    DepthNumerator(near, far, e);
    if e == near {
      NumeratorAt(near, far, near, -near);
      assert z == -near;
      assert z / e == -1.0;
    } else {
      NumeratorAt(near, far, far, far);
      assert z == far;
      assert z / e == 1.0;
    }
  }

  /** Clip z of the axis point at `z = -e` as one quotient. */
  lemma DepthNumerator(near: real, far: real, e: real)
    requires ValidPlanes(near, far)
    ensures (-(far + near) / (far - near)) * -e + (-2.0 * far * near / (far - near))
            == ((far + near) * e + -2.0 * far * near) / (far - near)
  {
    var d := far - near;
    MulDiv(-(far + near), -e, d);
    assert -(far + near) * -e == (far + near) * e;
    DivAdd((far + near) * e, -2.0 * far * near, d);
  }

  /** At a clip plane the numerator is a multiple of `far - near`. */
  lemma NumeratorAt(near: real, far: real, e: real, z: real)
    requires ValidPlanes(near, far)
    requires (e == near && z == -near) || (e == far && z == far)
    ensures ((far + near) * e + -2.0 * far * near) / (far - near) == z
  {
    var d := far - near;
    assert (far + near) * e + -2.0 * far * near == z * d;
    MulDiv(z, d, d);
  }

  lemma MulDiv(a: real, b: real, d: real)
    requires d != 0.0
    ensures (a / d) * b == (a * b) / d
  {
  }

  lemma DivAdd(a: real, b: real, d: real)
    requires d != 0.0
    ensures a / d + b / d == (a + b) / d
  {
  }

  /** A point on the optical axis lands at NDC `(2cx/w - 1, 2cy/h - 1)`
      divided by `-1`, i.e. `(1 - 2cx/w, 1 - 2cy/h)`. */
  lemma OpticalAxis(k: Intrinsics, near: real, far: real, z: real)
    requires ValidIntrinsics(k) && ValidPlanes(near, far) && z != 0.0
    ensures var c := MulVec(ProjectionMatrix(k, near, far), Vec4(0.0, 0.0, z, 1.0));
            c.x / c.w == 1.0 - 2.0 * k.cx / k.width && c.y / c.w == 1.0 - 2.0 * k.cy / k.height
  {
    var c := MulVec(ProjectionMatrix(k, near, far), Vec4(0.0, 0.0, z, 1.0));
    ClipW(k, near, far, 0.0, 0.0, z);
    var px := 2.0 * k.cx / k.width - 1.0;
    var py := 2.0 * k.cy / k.height - 1.0;
    assert c.x == px * z;
    assert c.y == py * z;
    assert px * z / -z == -px;
    assert py * z / -z == -py;
  }

  /** The optical axis hits the centre of the screen exactly when the
      principal point is the image centre. */
  lemma OpticalAxisCentred(k: Intrinsics, near: real, far: real, z: real)
    requires ValidIntrinsics(k) && ValidPlanes(near, far) && z != 0.0
    ensures var c := MulVec(ProjectionMatrix(k, near, far), Vec4(0.0, 0.0, z, 1.0));
            (c.x / c.w == 0.0 && c.y / c.w == 0.0) <==> (k.cx == k.width / 2.0 && k.cy == k.height / 2.0)
  {
    OpticalAxis(k, near, far, z);
    assert 1.0 - 2.0 * k.cx / k.width == 0.0 <==> k.cx == k.width / 2.0;
    assert 1.0 - 2.0 * k.cy / k.height == 0.0 <==> k.cy == k.height / 2.0;
  }

  /** The perspective matrix of `glFrustum(l, r, b, t, n, f)`, section 2.11.2
      of the OpenGL 2.1 specification. */
  function Frustum(l: real, r: real, b: real, t: real, n: real, f: real): Mat4
    requires l != r && b != t && n != f
  {
    Mat4(Vec4(2.0 * n / (r - l), 0.0, 0.0, 0.0),
         Vec4(0.0, 2.0 * n / (t - b), 0.0, 0.0),
         Vec4((r + l) / (r - l), (t + b) / (t - b), -(f + n) / (f - n), -1.0),
         Vec4(0.0, 0.0, -2.0 * f * n / (f - n), 0.0))
  }

  /** The intrinsics projection is the frustum whose near-plane window is the
      image rectangle seen through the pinhole: left `(cx - w)·n/fx`, right
      `cx·n/fx`, bottom `(cy - h)·n/fy`, top `cy·n/fy`. */
  lemma ProjectionIsFrustum(k: Intrinsics, near: real, far: real)
    requires ValidIntrinsics(k) && ValidPlanes(near, far)
    ensures var l := (k.cx - k.width) * near / k.fx;
            var r := k.cx * near / k.fx;
            var b := (k.cy - k.height) * near / k.fy;
            var t := k.cy * near / k.fy;
            l != r && b != t && ProjectionMatrix(k, near, far) == Frustum(l, r, b, t, near, far)
  {
    FrustumAxis(k.fx, k.cx, k.width, near, (k.cx - k.width) * near / k.fx, k.cx * near / k.fx);
    FrustumAxis(k.fy, k.cy, k.height, near, (k.cy - k.height) * near / k.fy, k.cy * near / k.fy);
  }

  /** One axis of the frustum correspondence, for the window `[lo, hi]`. */
  lemma FrustumAxis(f: real, c: real, w: real, n: real, lo: real, hi: real)
    requires f > 0.0 && w > 0.0 && n > 0.0
    requires lo == (c - w) * n / f
    requires hi == c * n / f
    ensures hi - lo == w * n / f
    ensures hi - lo != 0.0
    ensures 2.0 * n / (hi - lo) == 2.0 * f / w
    ensures (hi + lo) / (hi - lo) == 2.0 * c / w - 1.0
  {
    AxisExtent(f, c, w, n);
    AxisScale(f, w, n);
    AxisOffset(f, c, w, n);
  }

  /** The window's extent and centre sum along one axis. */
  lemma AxisExtent(f: real, c: real, w: real, n: real)
    requires f > 0.0 && w > 0.0 && n > 0.0
    ensures c * n / f - (c - w) * n / f == w * n / f
    ensures c * n / f + (c - w) * n / f == (2.0 * c - w) * n / f
    ensures w * n / f > 0.0
  {
    DivAdd(c * n, -((c - w) * n), f);
    assert c * n - (c - w) * n == w * n;
    PositiveQuotient(w * n, f);
    DivAdd(c * n, (c - w) * n, f);
    assert c * n + (c - w) * n == (2.0 * c - w) * n;
  }

  lemma AxisScale(f: real, w: real, n: real)
    requires f > 0.0 && w > 0.0 && n > 0.0
    ensures 2.0 * n / (w * n / f) == 2.0 * f / w
  {
    calc {
      2.0 * n / (w * n / f);
      { MulDiv(2.0 * f * n, 1.0, f); assert 2.0 * n == (2.0 * f * n) / f; }
      ((2.0 * f * n) / f) / (w * n / f);
      { QuotientOfQuotients(2.0 * f * n, w * n, f); }
      (2.0 * f * n) / (w * n);
      { assert 2.0 * f * n == (2.0 * f) * n; CancelFactor(2.0 * f, w, n); }
      2.0 * f / w;
    }
  }

  lemma AxisOffset(f: real, c: real, w: real, n: real)
    requires f > 0.0 && w > 0.0 && n > 0.0
    ensures ((2.0 * c - w) * n / f) / (w * n / f) == 2.0 * c / w - 1.0
  {
    calc {
      ((2.0 * c - w) * n / f) / (w * n / f);
      { QuotientOfQuotients((2.0 * c - w) * n, w * n, f); }
      ((2.0 * c - w) * n) / (w * n);
      { CancelFactor(2.0 * c - w, w, n); }
      (2.0 * c - w) / w;
      { DivAdd(2.0 * c, -w, w); }
      2.0 * c / w + -w / w;
      2.0 * c / w - 1.0;
    }
  }

  lemma QuotientOfQuotients(p: real, q: real, f: real)
    requires f != 0.0 && q != 0.0
    ensures (p / f) / (q / f) == p / q
  {
    assert (p / f) == (p / q) * (q / f);
  }

  lemma CancelFactor(p: real, q: real, n: real)
    requires n != 0.0 && q != 0.0
    ensures (p * n) / (q * n) == p / q
  {
    assert p * n == (p / q) * (q * n);
  }

  /** The calibrated camera's intrinsics on a frame of the given size. */
  function CalibratedIntrinsics(width: real, height: real): Intrinsics {
    Intrinsics(CalibFx, CalibFy, CalibCx, CalibCy, width, height)
  }

  /** The calibration's principal point (959.5, 539.5) is the centre of a
      1920x1080 image in OpenCV's pixel-centre convention, but the matrix maps
      a pixel coordinate x to NDC 2x/w - 1, an edge convention: on a full-HD
      frame the optical axis lands at NDC (1/1920, 1/1080), half a pixel off
      the screen centre in each direction. */
  lemma CalibratedAxisOffset(z: real)
    requires z != 0.0
    ensures var k := CalibratedIntrinsics(1920.0, 1080.0);
            var c := MulVec(ProjectionMatrix(k, Near, Far), Vec4(0.0, 0.0, z, 1.0));
            c.x / c.w == 1.0 / 1920.0 && c.y / c.w == 1.0 / 1080.0
  {
    OpticalAxis(CalibratedIntrinsics(1920.0, 1080.0), Near, Far, z);
  }
}
