/** The cube mesh of the camera program: a constant table of 36 vertices
    (six faces, two triangles each, three floats per vertex) and the loop that
    gives every vertex of a face that face's solid colour. */
module Cube {
  import Pixelate

  /** Floats per vertex, vertices per face, faces, and the vertex count the
      draw call uses. */
  const Components: nat := 3
  const VerticesPerFace: nat := 6
  const FaceCount: nat := 6
  const DrawCount: nat := 36

  datatype Vec3 = Vec3(x: real, y: real, z: real)

  /** The vertex table face by face: six vertices per face, the two
      triangles (0, 1, 2) and (3, 4, 5). */
  const FrontVertices: seq<Vec3> := [
    Vec3(-0.5, -0.5, 0.5), Vec3(0.5, -0.5, 0.5), Vec3(0.5, 0.5, 0.5),
    Vec3(0.5, 0.5, 0.5), Vec3(-0.5, 0.5, 0.5), Vec3(-0.5, -0.5, 0.5)
  ]

  const BackVertices: seq<Vec3> := [
    Vec3(-0.5, -0.5, -0.5), Vec3(-0.5, 0.5, -0.5), Vec3(0.5, 0.5, -0.5),
    Vec3(0.5, 0.5, -0.5), Vec3(0.5, -0.5, -0.5), Vec3(-0.5, -0.5, -0.5)
  ]

  const LeftVertices: seq<Vec3> := [
    Vec3(-0.5, 0.5, 0.5), Vec3(-0.5, 0.5, -0.5), Vec3(-0.5, -0.5, -0.5),
    Vec3(-0.5, -0.5, -0.5), Vec3(-0.5, -0.5, 0.5), Vec3(-0.5, 0.5, 0.5)
  ]

  const RightVertices: seq<Vec3> := [
    Vec3(0.5, 0.5, 0.5), Vec3(0.5, -0.5, 0.5), Vec3(0.5, -0.5, -0.5),
    Vec3(0.5, -0.5, -0.5), Vec3(0.5, 0.5, -0.5), Vec3(0.5, 0.5, 0.5)
  ]

  const TopVertices: seq<Vec3> := [
    Vec3(-0.5, 0.5, -0.5), Vec3(-0.5, 0.5, 0.5), Vec3(0.5, 0.5, 0.5),
    Vec3(0.5, 0.5, 0.5), Vec3(0.5, 0.5, -0.5), Vec3(-0.5, 0.5, -0.5)
  ]

  const BottomVertices: seq<Vec3> := [
    Vec3(-0.5, -0.5, -0.5), Vec3(0.5, -0.5, -0.5), Vec3(0.5, -0.5, 0.5),
    Vec3(0.5, -0.5, 0.5), Vec3(-0.5, -0.5, 0.5), Vec3(-0.5, -0.5, -0.5)
  ]

  const FaceVertices: seq<seq<Vec3>> :=
    [FrontVertices, BackVertices, LeftVertices, RightVertices, TopVertices, BottomVertices]

  /** The 36 vertices in draw order. */
  const Vertices: seq<Vec3> :=
    FrontVertices + BackVertices + LeftVertices + RightVertices + TopVertices + BottomVertices

  /** The coordinate along axis 0 (x), 1 (y) or 2 (z). */
  function Coord(p: Vec3, axis: nat): real {
    if axis == 0 then p.x else if axis == 1 then p.y else p.z
  }

  /** Vertices as the flat float array the source declares and uploads:
      x, y, z of each vertex in turn. */
  function Flatten(vs: seq<Vec3>): (r: seq<real>)
    ensures |r| == Components * |vs|
  {
    if |vs| == 0 then [] else [vs[0].x, vs[0].y, vs[0].z] + Flatten(vs[1..])
  }

  /** Float `3k + c` of the flat array is coordinate `c` of vertex `k`. */
  lemma {:induction false} FlattenAt(vs: seq<Vec3>, k: nat, c: nat)
    requires k < |vs| && c < Components
    ensures Flatten(vs)[3 * k + c] == Coord(vs[k], c)
    decreases k
  {
    if k > 0 {
      FlattenAt(vs[1..], k - 1, c);
      assert Flatten(vs)[3 * k + c] == Flatten(vs[1..])[3 * (k - 1) + c];
    }
  }

  /** The flat table. */
  function VertexData(): seq<real> {
    Flatten(Vertices)
  }

  /** The table holds one float per component of every vertex drawn, so the
      draw call reads exactly the table; the vertices are the six faces'
      six vertices in order. */
  lemma TableSize()
    ensures |Vertices| == DrawCount == FaceCount * VerticesPerFace
    ensures |VertexData()| == Components * DrawCount == 108
    ensures forall f, v :: 0 <= f < FaceCount && 0 <= v < VerticesPerFace ==>
              Vertices[f * 6 + v] == FaceVertices[f][v]
  {
    forall f, v | 0 <= f < FaceCount && 0 <= v < VerticesPerFace
      ensures Vertices[f * 6 + v] == FaceVertices[f][v]
    {
      FaceBlock(f);
    }
  }

  /** Vertices `6f` to `6f + 5` are face `f`'s. */
  lemma FaceBlock(f: nat)
    requires f < FaceCount
    ensures |Vertices| == 36 && Vertices[6 * f .. 6 * f + 6] == FaceVertices[f]
  {
  }

  /** Every coordinate is a corner coordinate of the unit cube centred at
      the origin. */
  lemma UnitCube()
    ensures forall k :: 0 <= k < |VertexData()| ==> VertexData()[k] == 0.5 || VertexData()[k] == -0.5
  {
    forall k | 0 <= k < |VertexData()|
      ensures VertexData()[k] == 0.5 || VertexData()[k] == -0.5
    {
      FlattenAt(Vertices, k / 3, k % 3);
      FaceBlock((k / 3) / 6);
      CornerFace((k / 3) / 6);
      assert Vertices[k / 3] == FaceVertices[(k / 3) / 6][(k / 3) % 6];
    }
  }

  /** The faces in table order. */
  datatype Face = Front | Back | Left | Right | Top | Bottom
  const Faces: seq<Face> := [Front, Back, Left, Right, Top, Bottom]

  /** The axis a face is perpendicular to, and the side of the cube it is on. */
  function FaceAxis(f: Face): nat {
    match f
    case Front => 2 case Back => 2
    case Left => 0 case Right => 0
    case Top => 1 case Bottom => 1
  }

  function FaceSide(f: Face): real {
    match f
    case Front => 0.5 case Back => -0.5
    case Left => -0.5 case Right => 0.5
    case Top => 0.5 case Bottom => -0.5
  }

  /** The unit vector perpendicular to a face, pointing out of the cube. */
  function OutwardNormal(f: Face): (n: Vec3)
    ensures Coord(n, FaceAxis(f)) == 2.0 * FaceSide(f)
    ensures forall axis :: 0 <= axis < 3 && axis != FaceAxis(f) ==> Coord(n, axis) == 0.0
  {
    match f
    case Front => Vec3(0.0, 0.0, 1.0) case Back => Vec3(0.0, 0.0, -1.0)
    case Left => Vec3(-1.0, 0.0, 0.0) case Right => Vec3(1.0, 0.0, 0.0)
    case Top => Vec3(0.0, 1.0, 0.0) case Bottom => Vec3(0.0, -1.0, 0.0)
  }

  function Sub(a: Vec3, b: Vec3): Vec3 {
    Vec3(a.x - b.x, a.y - b.y, a.z - b.z)
  }

  function Cross(a: Vec3, b: Vec3): Vec3 {
    Vec3(a.y * b.z - a.z * b.y, a.z * b.x - a.x * b.z, a.x * b.y - a.y * b.x)
  }

  /** Twice the area-weighted normal of triangle (a, b, c), by the
      right-hand rule. */
  function Normal(a: Vec3, b: Vec3, c: Vec3): Vec3 {
    Cross(Sub(b, a), Sub(c, a))
  }

  predicate IsCorner(p: Vec3) {
    (p.x == 0.5 || p.x == -0.5) && (p.y == 0.5 || p.y == -0.5) && (p.z == 0.5 || p.z == -0.5)
  }

  /** The geometry of a face's six vertices: all on the face's plane, the two
      triangles sharing the diagonal from vertex 0 to vertex 2 (vertex 3 is
      vertex 2 and vertex 5 is vertex 0), four distinct corners, and both
      triangles winding counter-clockwise seen from outside: their normal
      points away from the centre, along the face's axis. */
  predicate FaceGeometry(d: seq<Vec3>, face: Face) {
    |d| == 6 && OnPlane(d, face) && SharedDiagonal(d) && Outward(d, face)
  }

  predicate OnPlane(d: seq<Vec3>, face: Face) {
    forall v :: 0 <= v < |d| ==> Coord(d[v], FaceAxis(face)) == FaceSide(face)
  }

  predicate SharedDiagonal(d: seq<Vec3>)
    requires |d| == 6
  {
    d[2] == d[3] && d[5] == d[0]
    && d[0] != d[1] && d[0] != d[2] && d[0] != d[4]
    && d[1] != d[2] && d[1] != d[4] && d[2] != d[4]
  }

  predicate Outward(d: seq<Vec3>, face: Face)
    requires |d| == 6
  {
    Normal(d[0], d[1], d[2]) == OutwardNormal(face) && Normal(d[3], d[4], d[5]) == OutwardNormal(face)
  }

  /** The normal of a triangle from its two edge vectors. */
  lemma NormalAt(a: Vec3, b: Vec3, c: Vec3, u: Vec3, w: Vec3, n: Vec3)
    requires Sub(b, a) == u && Sub(c, a) == w && Cross(u, w) == n
    ensures Normal(a, b, c) == n
  {
  }

  /** Every face of the table has that geometry: front z = 0.5, back
      z = -0.5, left x = -0.5, right x = 0.5, top y = 0.5, bottom y = -0.5. */
  lemma FacesAreSquares()
    ensures forall f :: 0 <= f < FaceCount ==> FaceGeometry(FaceVertices[f], Faces[f])
  {
    forall f | 0 <= f < FaceCount
      ensures FaceGeometry(FaceVertices[f], Faces[f])
    {
      FaceAt(f);
    }
  }

  lemma FaceAt(f: nat)
    requires f < FaceCount
    ensures FaceGeometry(FaceVertices[f], Faces[f])
  {
    if f == 0 { FrontFace(); }
    else if f == 1 { BackFace(); }
    else if f == 2 { LeftFace(); }
    else if f == 3 { RightFace(); }
    else if f == 4 { TopFace(); }
    else { assert f == 5; BottomFace(); }
  }

  lemma FrontFace()
    ensures FaceGeometry(FaceVertices[0], Faces[0])
  {
    FrontPlane();
    FrontWinding();
  }

  lemma BackFace()
    ensures FaceGeometry(FaceVertices[1], Faces[1])
  {
    BackPlane();
    BackWinding();
  }

  lemma LeftFace()
    ensures FaceGeometry(FaceVertices[2], Faces[2])
  {
    LeftPlane();
    LeftWinding();
  }

  lemma RightFace()
    ensures FaceGeometry(FaceVertices[3], Faces[3])
  {
    RightPlane();
    RightWinding();
  }

  lemma TopFace()
    ensures FaceGeometry(FaceVertices[4], Faces[4])
  {
    TopPlane();
    TopWinding();
  }

  lemma BottomFace()
    ensures FaceGeometry(FaceVertices[5], Faces[5])
  {
    BottomPlane();
    BottomWinding();
  }

  lemma FrontPlane()
    ensures OnPlane(FrontVertices, Front) && SharedDiagonal(FrontVertices)
  {
    var d := FrontVertices;
    assert d[0] == Vec3(-0.5, -0.5, 0.5) && d[1] == Vec3(0.5, -0.5, 0.5) && d[2] == Vec3(0.5, 0.5, 0.5);
    assert d[3] == Vec3(0.5, 0.5, 0.5) && d[4] == Vec3(-0.5, 0.5, 0.5) && d[5] == Vec3(-0.5, -0.5, 0.5);
  }

  lemma FrontWinding()
    ensures Outward(FrontVertices, Front)
  {
    var d := FrontVertices;
    assert d[0] == Vec3(-0.5, -0.5, 0.5) && d[1] == Vec3(0.5, -0.5, 0.5) && d[2] == Vec3(0.5, 0.5, 0.5);
    assert d[3] == Vec3(0.5, 0.5, 0.5) && d[4] == Vec3(-0.5, 0.5, 0.5) && d[5] == Vec3(-0.5, -0.5, 0.5);
    NormalAt(d[0], d[1], d[2], Vec3(1.0, 0.0, 0.0), Vec3(1.0, 1.0, 0.0), Vec3(0.0, 0.0, 1.0));
    NormalAt(d[3], d[4], d[5], Vec3(-1.0, 0.0, 0.0), Vec3(-1.0, -1.0, 0.0), Vec3(0.0, 0.0, 1.0));
  }

  lemma BackPlane()
    ensures OnPlane(BackVertices, Back) && SharedDiagonal(BackVertices)
  {
    var d := BackVertices;
    assert d[0] == Vec3(-0.5, -0.5, -0.5) && d[1] == Vec3(-0.5, 0.5, -0.5) && d[2] == Vec3(0.5, 0.5, -0.5);
    assert d[3] == Vec3(0.5, 0.5, -0.5) && d[4] == Vec3(0.5, -0.5, -0.5) && d[5] == Vec3(-0.5, -0.5, -0.5);
  }

  lemma BackWinding()
    ensures Outward(BackVertices, Back)
  {
    var d := BackVertices;
    assert d[0] == Vec3(-0.5, -0.5, -0.5) && d[1] == Vec3(-0.5, 0.5, -0.5) && d[2] == Vec3(0.5, 0.5, -0.5);
    assert d[3] == Vec3(0.5, 0.5, -0.5) && d[4] == Vec3(0.5, -0.5, -0.5) && d[5] == Vec3(-0.5, -0.5, -0.5);
    NormalAt(d[0], d[1], d[2], Vec3(0.0, 1.0, 0.0), Vec3(1.0, 1.0, 0.0), Vec3(0.0, 0.0, -1.0));
    NormalAt(d[3], d[4], d[5], Vec3(0.0, -1.0, 0.0), Vec3(-1.0, -1.0, 0.0), Vec3(0.0, 0.0, -1.0));
  }

  lemma LeftPlane()
    ensures OnPlane(LeftVertices, Left) && SharedDiagonal(LeftVertices)
  {
    var d := LeftVertices;
    assert d[0] == Vec3(-0.5, 0.5, 0.5) && d[1] == Vec3(-0.5, 0.5, -0.5) && d[2] == Vec3(-0.5, -0.5, -0.5);
    assert d[3] == Vec3(-0.5, -0.5, -0.5) && d[4] == Vec3(-0.5, -0.5, 0.5) && d[5] == Vec3(-0.5, 0.5, 0.5);
  }

  lemma LeftWinding()
    ensures Outward(LeftVertices, Left)
  {
    var d := LeftVertices;
    assert d[0] == Vec3(-0.5, 0.5, 0.5) && d[1] == Vec3(-0.5, 0.5, -0.5) && d[2] == Vec3(-0.5, -0.5, -0.5);
    assert d[3] == Vec3(-0.5, -0.5, -0.5) && d[4] == Vec3(-0.5, -0.5, 0.5) && d[5] == Vec3(-0.5, 0.5, 0.5);
    NormalAt(d[0], d[1], d[2], Vec3(0.0, 0.0, -1.0), Vec3(0.0, -1.0, -1.0), Vec3(-1.0, 0.0, 0.0));
    NormalAt(d[3], d[4], d[5], Vec3(0.0, 0.0, 1.0), Vec3(0.0, 1.0, 1.0), Vec3(-1.0, 0.0, 0.0));
  }

  lemma RightPlane()
    ensures OnPlane(RightVertices, Right) && SharedDiagonal(RightVertices)
  {
    var d := RightVertices;
    assert d[0] == Vec3(0.5, 0.5, 0.5) && d[1] == Vec3(0.5, -0.5, 0.5) && d[2] == Vec3(0.5, -0.5, -0.5);
    assert d[3] == Vec3(0.5, -0.5, -0.5) && d[4] == Vec3(0.5, 0.5, -0.5) && d[5] == Vec3(0.5, 0.5, 0.5);
  }

  lemma RightWinding()
    ensures Outward(RightVertices, Right)
  {
    var d := RightVertices;
    assert d[0] == Vec3(0.5, 0.5, 0.5) && d[1] == Vec3(0.5, -0.5, 0.5) && d[2] == Vec3(0.5, -0.5, -0.5);
    assert d[3] == Vec3(0.5, -0.5, -0.5) && d[4] == Vec3(0.5, 0.5, -0.5) && d[5] == Vec3(0.5, 0.5, 0.5);
    NormalAt(d[0], d[1], d[2], Vec3(0.0, -1.0, 0.0), Vec3(0.0, -1.0, -1.0), Vec3(1.0, 0.0, 0.0));
    NormalAt(d[3], d[4], d[5], Vec3(0.0, 1.0, 0.0), Vec3(0.0, 1.0, 1.0), Vec3(1.0, 0.0, 0.0));
  }

  lemma TopPlane()
    ensures OnPlane(TopVertices, Top) && SharedDiagonal(TopVertices)
  {
    var d := TopVertices;
    assert d[0] == Vec3(-0.5, 0.5, -0.5) && d[1] == Vec3(-0.5, 0.5, 0.5) && d[2] == Vec3(0.5, 0.5, 0.5);
    assert d[3] == Vec3(0.5, 0.5, 0.5) && d[4] == Vec3(0.5, 0.5, -0.5) && d[5] == Vec3(-0.5, 0.5, -0.5);
  }

  lemma TopWinding()
    ensures Outward(TopVertices, Top)
  {
    var d := TopVertices;
    assert d[0] == Vec3(-0.5, 0.5, -0.5) && d[1] == Vec3(-0.5, 0.5, 0.5) && d[2] == Vec3(0.5, 0.5, 0.5);
    assert d[3] == Vec3(0.5, 0.5, 0.5) && d[4] == Vec3(0.5, 0.5, -0.5) && d[5] == Vec3(-0.5, 0.5, -0.5);
    NormalAt(d[0], d[1], d[2], Vec3(0.0, 0.0, 1.0), Vec3(1.0, 0.0, 1.0), Vec3(0.0, 1.0, 0.0));
    NormalAt(d[3], d[4], d[5], Vec3(0.0, 0.0, -1.0), Vec3(-1.0, 0.0, -1.0), Vec3(0.0, 1.0, 0.0));
  }

  lemma BottomPlane()
    ensures OnPlane(BottomVertices, Bottom) && SharedDiagonal(BottomVertices)
  {
    var d := BottomVertices;
    assert d[0] == Vec3(-0.5, -0.5, -0.5) && d[1] == Vec3(0.5, -0.5, -0.5) && d[2] == Vec3(0.5, -0.5, 0.5);
    assert d[3] == Vec3(0.5, -0.5, 0.5) && d[4] == Vec3(-0.5, -0.5, 0.5) && d[5] == Vec3(-0.5, -0.5, -0.5);
  }

  lemma BottomWinding()
    ensures Outward(BottomVertices, Bottom)
  {
    var d := BottomVertices;
    assert d[0] == Vec3(-0.5, -0.5, -0.5) && d[1] == Vec3(0.5, -0.5, -0.5) && d[2] == Vec3(0.5, -0.5, 0.5);
    assert d[3] == Vec3(0.5, -0.5, 0.5) && d[4] == Vec3(-0.5, -0.5, 0.5) && d[5] == Vec3(-0.5, -0.5, -0.5);
    NormalAt(d[0], d[1], d[2], Vec3(1.0, 0.0, 0.0), Vec3(1.0, 0.0, 1.0), Vec3(0.0, -1.0, 0.0));
    NormalAt(d[3], d[4], d[5], Vec3(-1.0, 0.0, 0.0), Vec3(-1.0, 0.0, -1.0), Vec3(0.0, -1.0, 0.0));
  }

  /** Every vertex of face `f` is a corner of the cube. */
  lemma CornerFace(f: nat)
    requires f < FaceCount
    ensures forall v :: 0 <= v < 6 ==> IsCorner(FaceVertices[f][v])
  {
  }

  datatype Rgb = Rgb(r: real, g: real, b: real)

  /** Channel `c` of a colour: 0 red, 1 green, 2 blue. */
  function Channel(col: Rgb, c: nat): real {
    if c == 0 then col.r else if c == 1 then col.g else col.b
  }

  /** Front red, back green, left blue, right yellow, top magenta, bottom cyan. */
  const FaceColors: seq<Rgb> := [
    Rgb(1.0, 0.0, 0.0), Rgb(0.0, 1.0, 0.0), Rgb(0.0, 0.0, 1.0),
    Rgb(1.0, 1.0, 0.0), Rgb(1.0, 0.0, 1.0), Rgb(0.0, 1.0, 1.0)
  ]

  /** Where the fill loop writes channel `c` of vertex `v` of face `face`. */
  function ColorIndex(face: nat, v: nat, c: nat): nat {
    (face * VerticesPerFace + v) * Components + c
  }

  /** The colour-buffer layout is a bijection between (face, vertex, channel)
      triples in range and the indices 0..107: every triple lands in range,
      decodes back to itself, and every index is some triple's. */
  lemma ColorIndexBijection(face: nat, v: nat, c: nat, k: nat)
    requires face < FaceCount && v < VerticesPerFace && c < Components
    ensures ColorIndex(face, v, c) < Components * DrawCount
    ensures var i := ColorIndex(face, v, c);
            i / 18 == face && (i / 3) % 6 == v && i % 3 == c
    ensures k < Components * DrawCount ==> ColorIndex(k / 18, (k / 3) % 6, k % 3) == k
  {
    var i := ColorIndex(face, v, c);
    Pixelate.DivBetween(i, face * 6 + v, 3);
    Pixelate.DivBetween(i, face, 18);
    Pixelate.DivBetween(face * 6 + v, face, 6);
  }

  /** The fill loop: for each face and each of its six vertices, the three
      channels of the face's colour at `(face * 6 + v) * 3 + c`, written into
      a buffer of 108 floats whose previous contents are `init`. Afterwards
      every float of the buffer has been written: the one at `k` is channel
      `k mod 3` of the colour of face `k / 18`. */
  method FillColors(colors: seq<Rgb>, init: seq<real>) returns (buf: seq<real>)
    requires |colors| == FaceCount && |init| == Components * DrawCount
    ensures |buf| == Components * DrawCount
    ensures forall k :: 0 <= k < |buf| ==> buf[k] == Channel(colors[k / 18], k % 3)
  {
    buf := init;
    var face := 0;
    while face < 6
      invariant face <= 6 && |buf| == 108
      invariant forall k :: 0 <= k < face * 18 ==> buf[k] == Channel(colors[k / 18], k % 3)
    {
      var v := 0;
      while v < 6
        invariant v <= 6 && |buf| == 108
        invariant forall k :: 0 <= k < (face * 6 + v) * 3 ==> buf[k] == Channel(colors[k / 18], k % 3)
      {
        var idx := (face * 6 + v) * 3;
        ColorIndexBijection(face, v, 0, 0);
        ColorIndexBijection(face, v, 1, 0);
        ColorIndexBijection(face, v, 2, 0);
        buf := buf[idx := colors[face].r][idx + 1 := colors[face].g][idx + 2 := colors[face].b];
        v := v + 1;
      }
      face := face + 1;
    }
  }

  /** Every vertex of a face gets that face's colour: the triple the fill
      writes for vertex `v` of face `f` is `colors[f]`. */
  lemma VertexGetsFaceColor(colors: seq<Rgb>, buf: seq<real>, f: nat, v: nat)
    requires |colors| == FaceCount && |buf| == Components * DrawCount
    requires forall k :: 0 <= k < |buf| ==> buf[k] == Channel(colors[k / 18], k % 3)
    requires f < FaceCount && v < VerticesPerFace
    ensures Rgb(buf[ColorIndex(f, v, 0)], buf[ColorIndex(f, v, 1)], buf[ColorIndex(f, v, 2)]) == colors[f]
  {
    ColorIndexBijection(f, v, 0, 0);
    ColorIndexBijection(f, v, 1, 0);
    ColorIndexBijection(f, v, 2, 0);
  }
}
