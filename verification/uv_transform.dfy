/** The 3x3 texture-coordinate transform the webcam viewer uploads as the
    `uTransform` uniform. Matrices follow glm's `mat3`: stored as three
    columns, `M[c][r]` being column `c`, row `r`, and `A * B` meaning "apply
    `B`, then `A`" to a column vector. A UV point `(u, v)` is transformed as
    the homogeneous vector `(u, v, 1)`. */
module UvTransform {
  import opened Frames
  import opened Transforms

  datatype Vec3 = Vec3(x: real, y: real, z: real)

  /** A glm `mat3`: its three columns. */
  datatype Mat3 = Mat3(c0: Vec3, c1: Vec3, c2: Vec3)

  /** `M * v`: the columns weighted by the vector's coordinates. */
  function MulVec(m: Mat3, v: Vec3): Vec3 {
    Vec3(v.x * m.c0.x + v.y * m.c1.x + v.z * m.c2.x,
         v.x * m.c0.y + v.y * m.c1.y + v.z * m.c2.y,
         v.x * m.c0.z + v.y * m.c1.z + v.z * m.c2.z)
  }

  /** `A * B`, column by column. */
  function Mul(a: Mat3, b: Mat3): Mat3 {
    Mat3(MulVec(a, b.c0), MulVec(a, b.c1), MulVec(a, b.c2))
  }

  /** The product matrix acts as its factors do, right factor first. */
  lemma MulVecMul(a: Mat3, b: Mat3, v: Vec3)
    ensures MulVec(Mul(a, b), v) == MulVec(a, MulVec(b, v))
  {
    var l := MulVec(Mul(a, b), v);
    var r := MulVec(a, MulVec(b, v));
    ProductCoords(a, b, v);
    assert l.x == r.x && l.y == r.y && l.z == r.z;
  }

  lemma ProductCoords(a: Mat3, b: Mat3, v: Vec3)
    ensures MulVec(Mul(a, b), v).x == MulVec(a, MulVec(b, v)).x
    ensures MulVec(Mul(a, b), v).y == MulVec(a, MulVec(b, v)).y
    ensures MulVec(Mul(a, b), v).z == MulVec(a, MulVec(b, v)).z
  {
    ProductX(a, b, v);
    ProductY(a, b, v);
    ProductZ(a, b, v);
  }

  lemma ProductX(a: Mat3, b: Mat3, v: Vec3)
    ensures MulVec(Mul(a, b), v).x == MulVec(a, MulVec(b, v)).x
  {
    var ab := Mul(a, b);
    ProductRow(a.c0.x, a.c1.x, a.c2.x, b, v, ab.c0.x, ab.c1.x, ab.c2.x);
  }

  lemma ProductY(a: Mat3, b: Mat3, v: Vec3)
    ensures MulVec(Mul(a, b), v).y == MulVec(a, MulVec(b, v)).y
  {
    var ab := Mul(a, b);
    ProductRow(a.c0.y, a.c1.y, a.c2.y, b, v, ab.c0.y, ab.c1.y, ab.c2.y);
  }

  lemma ProductZ(a: Mat3, b: Mat3, v: Vec3)
    ensures MulVec(Mul(a, b), v).z == MulVec(a, MulVec(b, v)).z
  {
    var ab := Mul(a, b);
    ProductRow(a.c0.z, a.c1.z, a.c2.z, b, v, ab.c0.z, ab.c1.z, ab.c2.z);
  }

  /** Row `(r0, r1, r2)` of `A`, whose products with the columns of `B` are
      `p0`, `p1`, `p2`, gives the same coordinate either way. */
  lemma ProductRow(r0: real, r1: real, r2: real, b: Mat3, v: Vec3, p0: real, p1: real, p2: real)
    requires p0 == b.c0.x * r0 + b.c0.y * r1 + b.c0.z * r2
    requires p1 == b.c1.x * r0 + b.c1.y * r1 + b.c1.z * r2
    requires p2 == b.c2.x * r0 + b.c2.y * r1 + b.c2.z * r2
    ensures v.x * p0 + v.y * p1 + v.z * p2
            == MulVec(b, v).x * r0 + MulVec(b, v).y * r1 + MulVec(b, v).z * r2
  {
    MulVecCoord(r0, r1, r2, b, v);
  }

  /** One coordinate of `MulVecMul`, row `(r0, r1, r2)` of `A`. */
  lemma MulVecCoord(r0: real, r1: real, r2: real, b: Mat3, v: Vec3)
    ensures v.x * (b.c0.x * r0 + b.c0.y * r1 + b.c0.z * r2)
          + v.y * (b.c1.x * r0 + b.c1.y * r1 + b.c1.z * r2)
          + v.z * (b.c2.x * r0 + b.c2.y * r1 + b.c2.z * r2)
         == (v.x * b.c0.x + v.y * b.c1.x + v.z * b.c2.x) * r0
          + (v.x * b.c0.y + v.y * b.c1.y + v.z * b.c2.y) * r1
          + (v.x * b.c0.z + v.y * b.c1.z + v.z * b.c2.z) * r2
  {
  }

  /** `glm::mat3(1.0f)`. */
  const Identity3: Mat3 := Mat3(Vec3(1.0, 0.0, 0.0), Vec3(0.0, 1.0, 0.0), Vec3(0.0, 0.0, 1.0))

  /** The identity with `M[2][0] = tx`, `M[2][1] = ty`. */
  function Translation(tx: real, ty: real): Mat3 {
    Mat3(Vec3(1.0, 0.0, 0.0), Vec3(0.0, 1.0, 0.0), Vec3(tx, ty, 1.0))
  }

  /** The identity with `M[0][0] = sx`, `M[1][1] = sy`. */
  function Diag(sx: real, sy: real): Mat3 {
    Mat3(Vec3(sx, 0.0, 0.0), Vec3(0.0, sy, 0.0), Vec3(0.0, 0.0, 1.0))
  }

  /** The identity with `R[0][0] = ca`, `R[0][1] = sa`, `R[1][0] = -sa`,
      `R[1][1] = ca`. */
  function Rotation(ca: real, sa: real): Mat3 {
    Mat3(Vec3(ca, sa, 0.0), Vec3(-sa, ca, 0.0), Vec3(0.0, 0.0, 1.0))
  }

  /** The quad's aspect ratio as the draw step computes it: `cols / rows` for
      a non-empty frame, `1` otherwise. */
  function Aspect(s: Shape): (a: real)
    ensures a > 0.0
    ensures !IsEmpty(s) ==> a * s.rows as real == s.cols as real
  {
    if !IsEmpty(s) && s.rows != 0 then s.cols as real / s.rows as real else 1.0
  }

  /** The centre of UV space. */
  const Cx: real := 0.5
  const Cy: real := 0.5

  /** `M = T_translate * T_back * Ainv * R * S * A * T_neg` for translation
      `(tu, tv)`, uniform scale `s`, rotation cosine/sine `(ca, sa)` and
      aspect ratio `aspect`. */
  function UvMatrix(tu: real, tv: real, s: real, ca: real, sa: real, aspect: real): (m: Mat3)
    requires aspect != 0.0
    ensures IsAffine(m)
  {
    var tNeg := Translation(-Cx, -Cy);
    var sc := Diag(s, s);
    var tBack := Translation(Cx, Cy);
    var r := Rotation(ca, sa);
    var tTranslate := Translation(tu, tv);
    var a := Diag(aspect, 1.0);
    var aInv := Diag(1.0 / aspect, 1.0);
    MulAffine(tTranslate, tBack);
    MulAffine(Mul(tTranslate, tBack), aInv);
    MulAffine(Mul(Mul(tTranslate, tBack), aInv), r);
    MulAffine(Mul(Mul(Mul(tTranslate, tBack), aInv), r), sc);
    MulAffine(Mul(Mul(Mul(Mul(tTranslate, tBack), aInv), r), sc), a);
    MulAffine(Mul(Mul(Mul(Mul(Mul(tTranslate, tBack), aInv), r), sc), a), tNeg);
    Mul(Mul(Mul(Mul(Mul(Mul(tTranslate, tBack), aInv), r), sc), a), tNeg)
  }

  /** The bottom row is (0, 0, 1): the matrix maps a UV point `(u, v, 1)` to
      a point `(u', v', 1)`, so no divide is needed in the shader. */
  predicate IsAffine(m: Mat3) {
    m.c0.z == 0.0 && m.c1.z == 0.0 && m.c2.z == 1.0
  }

  /** Products of affine matrices are affine. */
  lemma MulAffine(a: Mat3, b: Mat3)
    requires IsAffine(a) && IsAffine(b)
    ensures IsAffine(Mul(a, b))
  {
  }

  /** `M` applies its seven factors right to left. */
  lemma UvMatrixFactors(tu: real, tv: real, s: real, ca: real, sa: real, aspect: real, p: Vec3)
    requires aspect != 0.0
    ensures MulVec(UvMatrix(tu, tv, s, ca, sa, aspect), p)
            == MulVec(Translation(tu, tv), MulVec(Translation(Cx, Cy), MulVec(Diag(1.0 / aspect, 1.0),
                 MulVec(Rotation(ca, sa), MulVec(Diag(s, s), MulVec(Diag(aspect, 1.0),
                 MulVec(Translation(-Cx, -Cy), p)))))))
  {
    var m1 := Mul(Translation(tu, tv), Translation(Cx, Cy));
    var m2 := Mul(m1, Diag(1.0 / aspect, 1.0));
    var m3 := Mul(m2, Rotation(ca, sa));
    var m4 := Mul(m3, Diag(s, s));
    var m5 := Mul(m4, Diag(aspect, 1.0));
    var p1 := MulVec(Translation(-Cx, -Cy), p);
    var p2 := MulVec(Diag(aspect, 1.0), p1);
    var p3 := MulVec(Diag(s, s), p2);
    var p4 := MulVec(Rotation(ca, sa), p3);
    var p5 := MulVec(Diag(1.0 / aspect, 1.0), p4);
    MulVecMul(m5, Translation(-Cx, -Cy), p);
    MulVecMul(m4, Diag(aspect, 1.0), p1);
    MulVecMul(m3, Diag(s, s), p2);
    MulVecMul(m2, Rotation(ca, sa), p3);
    MulVecMul(m1, Diag(1.0 / aspect, 1.0), p4);
    MulVecMul(Translation(tu, tv), Translation(Cx, Cy), p5);
  }

  lemma TranslationPoint(tx: real, ty: real, x: real, y: real)
    ensures MulVec(Translation(tx, ty), Vec3(x, y, 1.0)) == Vec3(x + tx, y + ty, 1.0)
  {
  }

  lemma DiagPoint(sx: real, sy: real, x: real, y: real)
    ensures MulVec(Diag(sx, sy), Vec3(x, y, 1.0)) == Vec3(sx * x, sy * y, 1.0)
  {
  }

  lemma RotationPoint(ca: real, sa: real, x: real, y: real)
    ensures MulVec(Rotation(ca, sa), Vec3(x, y, 1.0)) == Vec3(ca * x - sa * y, sa * x + ca * y, 1.0)
  {
  }

  /** What `M` does to a UV point: offset from the centre, stretch x by the
      aspect, scale, rotate, undo the stretch, move back and translate. */
  lemma UvMatrixApply(tu: real, tv: real, s: real, ca: real, sa: real, aspect: real, u: real, v: real)
    requires aspect != 0.0
    ensures var w := MulVec(UvMatrix(tu, tv, s, ca, sa, aspect), Vec3(u, v, 1.0));
            && w.z == 1.0
            && w.x == tu + Cx + (ca * s * aspect * (u - Cx) - sa * s * (v - Cy)) / aspect
            && w.y == tv + Cy + (sa * s * aspect * (u - Cx) + ca * s * (v - Cy))
  {
    var x3 := s * (aspect * (u - Cx));
    var y3 := s * (v - Cy);
    var x := tu + Cx + (ca * s * aspect * (u - Cx) - sa * s * (v - Cy)) / aspect;
    var y := tv + Cy + (sa * s * aspect * (u - Cx) + ca * s * (v - Cy));
    UvMatrixFactors(tu, tv, s, ca, sa, aspect, Vec3(u, v, 1.0));
    InnerChain(s, aspect, u, v, x3, y3);
    OuterChain(tu, tv, s, ca, sa, aspect, u, v, x3, y3, x, y);
  }

  /** The first three factors: offset from the centre, stretch, scale. */
  lemma InnerChain(s: real, aspect: real, u: real, v: real, x3: real, y3: real)
    requires x3 == s * (aspect * (u - Cx)) && y3 == s * (v - Cy)
    ensures MulVec(Diag(s, s), MulVec(Diag(aspect, 1.0), MulVec(Translation(-Cx, -Cy), Vec3(u, v, 1.0))))
            == Vec3(x3, y3, 1.0)
  {
    TranslationPoint(-Cx, -Cy, u, v);
    DiagPoint(aspect, 1.0, u + -Cx, v + -Cy);
    DiagPoint(s, s, aspect * (u + -Cx), 1.0 * (v + -Cy));
  }

  /** The last four factors: rotate, undo the stretch, move back, translate. */
  lemma OuterChain(tu: real, tv: real, s: real, ca: real, sa: real, aspect: real, u: real, v: real,
                   x3: real, y3: real, x: real, y: real)
    requires aspect != 0.0
    requires x3 == s * (aspect * (u - Cx)) && y3 == s * (v - Cy)
    requires x == tu + Cx + (ca * s * aspect * (u - Cx) - sa * s * (v - Cy)) / aspect
    requires y == tv + Cy + (sa * s * aspect * (u - Cx) + ca * s * (v - Cy))
    ensures MulVec(Translation(tu, tv), MulVec(Translation(Cx, Cy), MulVec(Diag(1.0 / aspect, 1.0),
              MulVec(Rotation(ca, sa), Vec3(x3, y3, 1.0)))))
            == Vec3(x, y, 1.0)
  {
    var x4, y4 := ca * x3 - sa * y3, sa * x3 + ca * y3;
    RotationPoint(ca, sa, x3, y3);
    DiagPoint(1.0 / aspect, 1.0, x4, y4);
    TranslationPoint(Cx, Cy, (1.0 / aspect) * x4, 1.0 * y4);
    TranslationPoint(tu, tv, (1.0 / aspect) * x4 + Cx, 1.0 * y4 + Cy);
    UvArithmetic(tu, tv, s, ca, sa, aspect, u, v, x3, y3, x4, y4, x, y);
  }

  lemma UvArithmetic(tu: real, tv: real, s: real, ca: real, sa: real, aspect: real, u: real, v: real,
                     x3: real, y3: real, x4: real, y4: real, x: real, y: real)
    requires aspect != 0.0
    requires x3 == s * (aspect * (u - Cx)) && y3 == s * (v - Cy)
    requires x4 == ca * x3 - sa * y3 && y4 == sa * x3 + ca * y3
    requires x == tu + Cx + (ca * s * aspect * (u - Cx) - sa * s * (v - Cy)) / aspect
    requires y == tv + Cy + (sa * s * aspect * (u - Cx) + ca * s * (v - Cy))
    ensures (1.0 / aspect) * x4 + Cx + tu == x
    ensures 1.0 * y4 + Cy + tv == y
  {
    assert x4 == ca * s * aspect * (u - Cx) - sa * s * (v - Cy);
    assert (1.0 / aspect) * x4 == x4 / aspect;
  }

  /** The UV centre goes to the centre plus the translation, whatever the
      scale, rotation and aspect. */
  lemma UvCentre(tu: real, tv: real, s: real, ca: real, sa: real, aspect: real)
    requires aspect != 0.0
    ensures MulVec(UvMatrix(tu, tv, s, ca, sa, aspect), Vec3(Cx, Cy, 1.0)) == Vec3(Cx + tu, Cy + tv, 1.0)
  {
    UvMatrixApply(tu, tv, s, ca, sa, aspect, Cx, Cy);
  }

  /** The zoom-and-pan map `u |-> t + c + s * (u - c)`. */
  function ZoomMap(tu: real, tv: real, s: real, u: real, v: real): Point {
    Point(tu + Cx + s * (u - Cx), tv + Cy + s * (v - Cy))
  }

  /** Without rotation the aspect compensation cancels and `M` is the
      zoom-and-pan map. */
  lemma UvNoRotation(tu: real, tv: real, s: real, aspect: real, u: real, v: real)
    requires aspect != 0.0
    ensures var w := MulVec(UvMatrix(tu, tv, s, 1.0, 0.0, aspect), Vec3(u, v, 1.0));
            Point(w.x, w.y) == ZoomMap(tu, tv, s, u, v)
  {
    UvMatrixApply(tu, tv, s, 1.0, 0.0, aspect, u, v);
    assert (1.0 * s * aspect * (u - Cx) - 0.0 * s * (v - Cy)) / aspect == s * (u - Cx);
  }
}
