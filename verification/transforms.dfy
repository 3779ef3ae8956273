/** `Transforms::applyTranslateCPU`, `applyScaleCPU` and `applyRotateCPU`:
    each builds a 2x3 affine matrix and hands it to `cv::warpAffine` with the
    frame's own size as output size, bilinear sampling and a constant border.
    What is modelled is the matrix, the output size and the border; the
    resampling belongs to OpenCV. */
module Transforms {
  import opened Wrappers
  import opened Frames

  /** A point in pixel coordinates (x to the right, y down). */
  datatype Point = Point(x: real, y: real)

  /** The 2x3 matrix `[[a, b, tx], [c, d, ty]]`, mapping `(x, y)` to
      `(a*x + b*y + tx, c*x + d*y + ty)`. */
  datatype Affine = Affine(a: real, b: real, tx: real, c: real, d: real, ty: real)

  function Apply(m: Affine, p: Point): Point {
    Point(m.a * p.x + m.b * p.y + m.tx, m.c * p.x + m.d * p.y + m.ty)
  }

  /** `m` moves every point by `(dx, dy)`. */
  ghost predicate Translates(m: Affine, dx: real, dy: real) {
    forall p :: Apply(m, p) == Point(p.x + dx, p.y + dy)
  }

  const Identity: Affine := Affine(1.0, 0.0, 0.0, 0.0, 1.0, 0.0)

  /** The product matrix of "first `m1`, then `m2`". */
  function Then(m1: Affine, m2: Affine): Affine {
    Affine(m2.a * m1.a + m2.b * m1.c, m2.a * m1.b + m2.b * m1.d, m2.a * m1.tx + m2.b * m1.ty + m2.tx,
           m2.c * m1.a + m2.d * m1.c, m2.c * m1.b + m2.d * m1.d, m2.c * m1.tx + m2.d * m1.ty + m2.ty)
  }

  /** The product matrix applies `m1`, then `m2`. */
  lemma ThenApply(m1: Affine, m2: Affine, p: Point)
    ensures Apply(Then(m1, m2), p) == Apply(m2, Apply(m1, p))
  {
    var q := Apply(m1, p);
    var t := Then(m1, m2);
    Row(m2.a, m2.b, m2.tx, m1.a, m1.b, m1.tx, m1.c, m1.d, m1.ty, p.x, p.y, q.x, q.y);
    Row(m2.c, m2.d, m2.ty, m1.a, m1.b, m1.tx, m1.c, m1.d, m1.ty, p.x, p.y, q.x, q.y);
    assert Apply(t, p).x == Apply(m2, q).x;
    assert Apply(t, p).y == Apply(m2, q).y;
  }

  /** One output coordinate of a composition, expanded: `(qx, qy)` is the
      image of `(x, y)` under the first map. */
  lemma Row(r0: real, r1: real, r2: real, a: real, b: real, tx: real, c: real, d: real, ty: real,
            x: real, y: real, qx: real, qy: real)
    requires qx == a * x + b * y + tx && qy == c * x + d * y + ty
    ensures r0 * qx + r1 * qy + r2 == (r0 * a + r1 * c) * x + (r0 * b + r1 * d) * y + (r0 * tx + r1 * ty + r2)
  {
    calc {
      r0 * qx + r1 * qy + r2;
      r0 * (a * x + b * y + tx) + r1 * (c * x + d * y + ty) + r2;
      r0 * a * x + r0 * b * y + r0 * tx + r1 * c * x + r1 * d * y + r1 * ty + r2;
      (r0 * a + r1 * c) * x + (r0 * b + r1 * d) * y + (r0 * tx + r1 * ty + r2);
    }
  }

  /** A BGR `cv::Scalar`. */
  datatype Scalar = Scalar(v0: real, v1: real, v2: real)

  /** The border colour all three warps fill uncovered pixels with. */
  const BorderValue: Scalar := Scalar(51.0, 25.5, 25.5)

  /** One `cv::warpAffine(frame, frame, m, out, INTER_LINEAR, BORDER_CONSTANT,
      border)` call. */
  datatype Warp = Warp(m: Affine, out: Shape, border: Scalar)

  /** The centre of the frame, `(cols * 0.5, rows * 0.5)`. */
  function Centre(s: Shape): Point {
    Point(s.cols as real * 0.5, s.rows as real * 0.5)
  }

  function TranslateMatrix(dx: real, dy: real): Affine {
    Affine(1.0, 0.0, dx, 0.0, 1.0, dy)
  }

  /** Translating by `(dx, dy)` and then by `(-dx, -dy)` is the identity. */
  lemma TranslateInverse(dx: real, dy: real)
    ensures Then(TranslateMatrix(dx, dy), TranslateMatrix(-dx, -dy)) == Identity
  {
  }

  /** `applyTranslateCPU(frame, dx, dy)`: nothing for an empty frame;
      otherwise a same-size warp that shifts content by `(dx, dy)`. */
  function TranslateCPU(s: Shape, dx: real, dy: real): (r: Option<Warp>)
    ensures r.None? <==> IsEmpty(s)
    ensures r.Some? ==> r.value.out == s && r.value.border == BorderValue
    ensures r.Some? ==> Translates(r.value.m, dx, dy)
  {
    if IsEmpty(s) then None else Some(Warp(TranslateMatrix(dx, dy), s, BorderValue))
  }

  /** Axis scaling about the origin. */
  function Diagonal(sx: real, sy: real): Affine {
    Affine(sx, 0.0, 0.0, 0.0, sy, 0.0)
  }

  /** `[[sx, 0, (1-sx)*px], [0, sy, (1-sy)*py]]`: scaling about `(px, py)`. */
  function ScaleMatrix(sx: real, sy: real, px: real, py: real): (m: Affine)
    ensures Apply(m, Point(px, py)) == Point(px, py)
  {
    Affine(sx, 0.0, (1.0 - sx) * px, 0.0, sy, (1.0 - sy) * py)
  }

  /** Every point moves away from the pivot by the factor along each axis. */
  lemma ScaleApply(sx: real, sy: real, px: real, py: real, p: Point)
    ensures Apply(ScaleMatrix(sx, sy, px, py), p) == Point(px + sx * (p.x - px), py + sy * (p.y - py))
  {
    assert sx * p.x + (1.0 - sx) * px == px + sx * (p.x - px);
    assert sy * p.y + (1.0 - sy) * py == py + sy * (p.y - py);
  }

  /** The closed form is the conjugation `T(p) * S * T(-p)`: move the pivot
      to the origin, scale, move it back. */
  lemma ScaleIsConjugation(sx: real, sy: real, px: real, py: real)
    ensures ScaleMatrix(sx, sy, px, py)
            == Then(Then(TranslateMatrix(-px, -py), Diagonal(sx, sy)), TranslateMatrix(px, py))
  {
    ScaleAtOrigin(sx, sy, px, py);
    PivotBack(sx, sy, px, py);
  }

  /** Moving the pivot to the origin and then scaling. */
  lemma ScaleAtOrigin(sx: real, sy: real, px: real, py: real)
    ensures Then(TranslateMatrix(-px, -py), Diagonal(sx, sy)) == Affine(sx, 0.0, -(sx * px), 0.0, sy, -(sy * py))
  {
  }

  /** Moving the scaled pivot back gives the closed form. */
  lemma PivotBack(sx: real, sy: real, px: real, py: real)
    ensures Then(Affine(sx, 0.0, -(sx * px), 0.0, sy, -(sy * py)), TranslateMatrix(px, py)) == ScaleMatrix(sx, sy, px, py)
  {
    var outer := Then(Affine(sx, 0.0, -(sx * px), 0.0, sy, -(sy * py)), TranslateMatrix(px, py));
    assert outer.tx == -(sx * px) + px == (1.0 - sx) * px;
    assert outer.ty == -(sy * py) + py == (1.0 - sy) * py;
  }

  /** Unit scale is the identity, whatever the pivot. */
  lemma ScaleUnit(px: real, py: real)
    ensures ScaleMatrix(1.0, 1.0, px, py) == Identity
  {
  }

  /** The pivot `applyScaleCPU` scales about: the given one, or the frame
      centre as soon as either coordinate is negative. */
  function ScalePivot(s: Shape, pivotX: real, pivotY: real): Point {
    if pivotX < 0.0 || pivotY < 0.0 then Centre(s) else Point(pivotX, pivotY)
  }

  /** `applyScaleCPU(frame, sx, sy, pivotX, pivotY)`: nothing for an empty
      frame; otherwise a same-size warp that keeps the given pivot fixed when
      both of its coordinates are non-negative, and the frame centre fixed
      otherwise. */
  function ScaleCPU(s: Shape, sx: real, sy: real, pivotX: real, pivotY: real): (r: Option<Warp>)
    ensures r.None? <==> IsEmpty(s)
    ensures r.Some? ==> r.value.out == s && r.value.border == BorderValue
    ensures r.Some? && pivotX >= 0.0 && pivotY >= 0.0 ==>
              Apply(r.value.m, Point(pivotX, pivotY)) == Point(pivotX, pivotY)
    ensures r.Some? && (pivotX < 0.0 || pivotY < 0.0) ==>
              Apply(r.value.m, Centre(s)) == Centre(s)
    ensures r.Some? ==> r.value.m.a == sx && r.value.m.d == sy && r.value.m.b == 0.0 && r.value.m.c == 0.0
  {
    if IsEmpty(s) then None
    else
      var p := ScalePivot(s, pivotX, pivotY);
      Some(Warp(ScaleMatrix(sx, sy, p.x, p.y), s, BorderValue))
  }

  /** One negative pivot coordinate is enough to discard both: a pivot on
      the valid x range with a negative y scales about the centre instead. */
  lemma ScalePivotEitherNegative(s: Shape, sx: real, sy: real, pivotX: real, pivotY: real)
    requires !IsEmpty(s) && pivotY < 0.0
    ensures ScaleCPU(s, sx, sy, pivotX, pivotY) == ScaleCPU(s, sx, sy, -1.0, -1.0)
  {
  }

  /** `cv::getRotationMatrix2D(center, angle, scale)` with `cosA`, `sinA` the
      cosine and sine of `angle`: `alpha = scale*cos`, `beta = scale*sin`,
      `[[alpha, beta, (1-alpha)*cx - beta*cy], [-beta, alpha, beta*cx + (1-alpha)*cy]]`. */
  function RotationMatrix2D(center: Point, cosA: real, sinA: real, scale: real): (m: Affine)
    ensures Apply(m, center) == center
  {
    var alpha := scale * cosA;
    var beta := scale * sinA;
    Affine(alpha, beta, (1.0 - alpha) * center.x - beta * center.y,
           -beta, alpha, beta * center.x + (1.0 - alpha) * center.y)
  }

  /** Offsets from the centre are rotated and scaled; the centre stays. */
  lemma RotationApply(center: Point, cosA: real, sinA: real, scale: real, p: Point)
    ensures Apply(RotationMatrix2D(center, cosA, sinA, scale), p) ==
              Point(center.x + scale * cosA * (p.x - center.x) + scale * sinA * (p.y - center.y),
                    center.y - scale * sinA * (p.x - center.x) + scale * cosA * (p.y - center.y))
  {
    var alpha := scale * cosA;
    var beta := scale * sinA;
    var m := RotationMatrix2D(center, cosA, sinA, scale);
    AboutCentre(alpha, beta, center.x, center.y, p.x, p.y);
    assert Apply(m, p).x == center.x + alpha * (p.x - center.x) + beta * (p.y - center.y);
    assert Apply(m, p).y == center.y - beta * (p.x - center.x) + alpha * (p.y - center.y);
  }

  /** Both coordinates of a rotation about `(cx, cy)`, written as offsets
      from the centre. */
  lemma AboutCentre(alpha: real, beta: real, cx: real, cy: real, x: real, y: real)
    ensures alpha * x + beta * y + ((1.0 - alpha) * cx - beta * cy) == cx + alpha * (x - cx) + beta * (y - cy)
    ensures -beta * x + alpha * y + (beta * cx + (1.0 - alpha) * cy) == cy - beta * (x - cx) + alpha * (y - cy)
  {
  }

  function SqDist(p: Point, q: Point): real {
    (p.x - q.x) * (p.x - q.x) + (p.y - q.y) * (p.y - q.y)
  }

  /** With unit scale and `cos^2 + sin^2 = 1` the matrix is a rigid motion. */
  lemma RotationIsometry(center: Point, cosA: real, sinA: real, p: Point, q: Point)
    requires cosA * cosA + sinA * sinA == 1.0
    ensures SqDist(Apply(RotationMatrix2D(center, cosA, sinA, 1.0), p),
                   Apply(RotationMatrix2D(center, cosA, sinA, 1.0), q)) == SqDist(p, q)
  {
    var m := RotationMatrix2D(center, cosA, sinA, 1.0);
    var u := p.x - q.x;
    var v := p.y - q.y;
    var mp := Apply(m, p);
    var mq := Apply(m, q);
    RotationApply(center, cosA, sinA, 1.0, p);
    RotationApply(center, cosA, sinA, 1.0, q);
    assert mp.x - mq.x == cosA * u + sinA * v;
    assert mp.y - mq.y == cosA * v - sinA * u;
    SumOfSquares(cosA, sinA, u, v);
  }

  lemma SumOfSquares(c: real, s: real, u: real, v: real)
    ensures (c * u + s * v) * (c * u + s * v) + (c * v - s * u) * (c * v - s * u)
            == (c * c + s * s) * (u * u + v * v)
  {
    calc {
      (c * u + s * v) * (c * u + s * v) + (c * v - s * u) * (c * v - s * u);
      (c * c * u * u + 2.0 * c * s * u * v + s * s * v * v) + (c * c * v * v - 2.0 * c * s * u * v + s * s * u * u);
      c * c * u * u + s * s * v * v + c * c * v * v + s * s * u * u;
      (c * c + s * s) * (u * u + v * v);
    }
  }

  /** A zero angle (cosine 1, sine 0) gives the identity. */
  lemma RotationZero(center: Point)
    ensures RotationMatrix2D(center, 1.0, 0.0, 1.0) == Identity
  {
  }

  /** `applyRotateCPU(frame, angleDegrees)`: nothing for an empty frame;
      otherwise a same-size warp rotating by the angle, at unit scale, about
      the frame centre. `cosd`/`sind` are cosine and sine of an angle in
      degrees. */
  function RotateCPU(s: Shape, angleDegrees: real, cosd: real -> real, sind: real -> real): (r: Option<Warp>)
    ensures r.None? <==> IsEmpty(s)
    ensures r.Some? ==> r.value.out == s && r.value.border == BorderValue
    ensures r.Some? ==> Apply(r.value.m, Centre(s)) == Centre(s)
    ensures r.Some? ==> r.value.m == RotationMatrix2D(Centre(s), cosd(angleDegrees), sind(angleDegrees), 1.0)
  {
    if IsEmpty(s) then None
    else Some(Warp(RotationMatrix2D(Centre(s), cosd(angleDegrees), sind(angleDegrees), 1.0), s, BorderValue))
  }

  /** `gpuFragmentPathTransform()`. */
  const TransformShaderPath: string := "gpu_transform.frag"
}
