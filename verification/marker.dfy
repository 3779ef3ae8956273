/** The checkerboard model the camera and AR programs hand to the pose
    solver: the inner corners of the board on the z = 0 plane, one square
    (2.5 cm) apart, in row-major order; and the three axis end points drawn
    from the board's origin. */
module Marker {
  import Pixelate

  datatype Point3 = Point3(x: real, y: real, z: real)

  /** Side of one board square, in metres. */
  const SquareSize: real := 0.025

  /** A pattern size as OpenCV's `Size(width, height)`: inner corners per row
      and per column. */
  datatype Pattern = Pattern(width: nat, height: nat)

  /** The camera program looks for `Size(6, 9)`, the AR program for
      `Size(9, 6)`. */
  const CameraPattern: Pattern := Pattern(6, 9)
  const ArPattern: Pattern := Pattern(9, 6)

  /** The `k`-th corner of a board with `cols` corners per row. */
  function GridPoint(k: nat, cols: nat): Point3
    requires cols > 0
  {
    Point3((k % cols) as real * SquareSize, (k / cols) as real * SquareSize, 0.0)
  }

  /** Row `i`, column `j` is the corner numbered `i * cols + j`. */
  lemma GridIndex(i: nat, j: nat, cols: nat)
    requires j < cols
    ensures (i * cols + j) / cols == i && (i * cols + j) % cols == j
  {
    Pixelate.DivBetween(i * cols + j, i, cols);
  }

  /** The nested loop of both programs: `rows` outer iterations, `cols` inner
      ones, pushing `(j * 0.025, i * 0.025, 0)`. */
  method ObjectPoints(rows: nat, cols: nat) returns (pts: seq<Point3>)
    requires cols > 0
    ensures |pts| == rows * cols
    ensures forall k :: 0 <= k < |pts| ==> pts[k] == GridPoint(k, cols)
  {
    pts := [];
    var i := 0;
    while i < rows
      invariant i <= rows
      invariant |pts| == i * cols
      invariant forall k :: 0 <= k < |pts| ==> pts[k] == GridPoint(k, cols)
    {
      var j := 0;
      while j < cols
        invariant j <= cols
        invariant |pts| == i * cols + j
        invariant forall k :: 0 <= k < |pts| ==> pts[k] == GridPoint(k, cols)
      {
        GridIndex(i, j, cols);
        pts := pts + [Point3(j as real * SquareSize, i as real * SquareSize, 0.0)];
        j := j + 1;
      }
      assert i * cols + cols == (i + 1) * cols;
      i := i + 1;
    }
  }

  /** The camera program's board: 9 rows of 6, matching the width of the
      pattern it detects, so corner `k` lies in column `k mod 6`. */
  method CameraObjectPoints() returns (pts: seq<Point3>)
    ensures |pts| == CameraPattern.width * CameraPattern.height == 54
    ensures forall k :: 0 <= k < |pts| ==> pts[k] == GridPoint(k, CameraPattern.width)
  {
    pts := ObjectPoints(9, 6);
  }

  /** The AR program's board: 6 rows of 9, matching the width of the pattern
      it detects, so corner `k` lies in column `k mod 9`. */
  method ArObjectPoints() returns (pts: seq<Point3>)
    ensures |pts| == ArPattern.width * ArPattern.height == 54
    ensures forall k :: 0 <= k < |pts| ==> pts[k] == GridPoint(k, ArPattern.width)
  {
    pts := ObjectPoints(6, 9);
  }

  /** The index of row `i`, column `j` in row-major order. */
  function RowMajor(i: nat, j: nat, cols: nat): nat {
    i * cols + j
  }

  /** Every corner index of a `rows` by `cols` board names a corner on the
      board, and every corner on the board has an index whose point is at
      (column, row) squares from the origin. */
  lemma GridCoversBoard(rows: nat, cols: nat)
    requires cols > 0
    ensures forall k: nat :: k < rows * cols ==> k % cols < cols && k / cols < rows
    ensures forall i: nat, j: nat :: i < rows && j < cols ==>
              RowMajor(i, j, cols) < rows * cols
              && GridPoint(RowMajor(i, j, cols), cols) == Point3(j as real * SquareSize, i as real * SquareSize, 0.0)
  {
    forall i: nat, j: nat | i < rows && j < cols
      ensures RowMajor(i, j, cols) < rows * cols
      ensures GridPoint(RowMajor(i, j, cols), cols) == Point3(j as real * SquareSize, i as real * SquareSize, 0.0)
    {
      GridIndex(i, j, cols);
      Pixelate.MulMonotone(i + 1, rows, cols);
      assert (i + 1) * cols == i * cols + cols;
    }
  }

  /** Length of the drawn axes: three squares. */
  const AxisLength: real := 0.075

  /** The axis end points projected for drawing: origin, then x, y and z,
      the z end point on the negative side of the board plane. */
  function AxisPoints(): (pts: seq<Point3>)
    ensures |pts| == 4 && pts[0] == Point3(0.0, 0.0, 0.0)
    ensures forall i :: 1 <= i < 4 ==> SqLen(pts[i]) == AxisLength * AxisLength
    ensures pts[1].y == pts[1].z == 0.0 && pts[1].x > 0.0
    ensures pts[2].x == pts[2].z == 0.0 && pts[2].y > 0.0
    ensures pts[3].x == pts[3].y == 0.0 && pts[3].z < 0.0
  {
    [Point3(0.0, 0.0, 0.0), Point3(AxisLength, 0.0, 0.0), Point3(0.0, AxisLength, 0.0),
     Point3(0.0, 0.0, -AxisLength)]
  }

  function SqLen(p: Point3): real {
    p.x * p.x + p.y * p.y + p.z * p.z
  }
}
