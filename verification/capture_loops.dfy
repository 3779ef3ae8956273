/** The per-frame control flow of the camera and AR programs, as the
    sequence of OpenCV and GL calls each frame makes. Images are terms that
    record how they were derived from the captured frame, so "the detector
    sees the flipped image" is a statement about the term passed to the
    detector. Whether the program started (the camera opened and the window
    and the GL loader came up), whether the camera delivered a frame, and
    whether the detector found the pattern, are inputs. */
module CaptureLoops {
  import opened Marker

  /** An image as the calls that produced it from a captured frame. */
  datatype Image =
    | Captured(frameNo: nat)
    | Flipped(src: Image, code: int)
    | BgrToRgb(src: Image)
    | GrayOf(src: Image)
    | WithAxes(src: Image)

  /** One call a frame makes. */
  datatype Call =
    | Detect(img: Image, pattern: Pattern)
    | RefineCorners(img: Image)
    | SolvePose(points: nat)
    | ProjectAxes
    | DrawAxes
    | ToRotationMatrix
    | Upload(img: Image)

  /** What the camera delivered and what the detector reported for one frame. */
  datatype FrameInput = FrameInput(empty: bool, found: bool)

  /** `cv::flip` codes: 0 flips around the x axis, -1 around both axes. */
  const FlipVertical: int := 0
  const FlipBoth: int := -1

  /** The calls made only when the pattern was found. */
  predicate IsRefine(c: Call) {
    c.RefineCorners? || c.SolvePose? || c.ProjectAxes? || c.DrawAxes? || c.ToRotationMatrix?
  }

  /** The detection-gated part shared by both programs: refine the corners on
      the gray image, solve the pose against the board's 54 corners, project
      and draw the axes. */
  function PoseCalls(gray: Image): (r: seq<Call>)
    ensures |r| == 4 && forall i :: 0 <= i < |r| ==> IsRefine(r[i])
  {
    [RefineCorners(gray), SolvePose(54), ProjectAxes, DrawAxes]
  }

  /** One frame past detection, common to both programs: detect `pattern` on
      the gray image of `img`; when found, the pose calls (plus `extra`) and
      the upload of `img` with the axes drawn; otherwise the upload of `img`
      as it is. */
  function DetectAndUpload(img: Image, pattern: Pattern, found: bool, extra: seq<Call>): (r: seq<Call>)
    requires forall i :: 0 <= i < |extra| ==> IsRefine(extra[i])
    ensures |r| >= 2 && r[0] == Detect(GrayOf(img), pattern)
    ensures r[|r| - 1] == Upload(if found then WithAxes(img) else img)
    ensures forall i :: 0 <= i < |r| - 1 ==> !r[i].Upload?
    ensures (exists i :: 0 <= i < |r| && IsRefine(r[i])) <==> found
    ensures found ==> r[1..|r| - 1] == PoseCalls(GrayOf(img)) + extra
  {
    var gray := GrayOf(img);
    if found then
      var r := [Detect(gray, pattern)] + PoseCalls(gray) + extra + [Upload(WithAxes(img))];
      assert IsRefine(r[1]);
      assert r[1..|r| - 1] == PoseCalls(gray) + extra;
      assert forall i :: 1 <= i < |r| - 1 ==> IsRefine(r[i]);
      r
    else
      var r := [Detect(gray, pattern), Upload(img)];
      assert forall i :: 0 <= i < |r| ==> !IsRefine(r[i]);
      r
  }

  /** One loop frame of the camera program: nothing for an empty frame;
      otherwise flip both axes, detect the 6x9 board on the gray image of the
      flipped frame, when found the pose calls and the Rodrigues conversion
      of the rotation, and the upload in every case. */
  function CameraFrame(n: nat, input: FrameInput): (r: seq<Call>)
    ensures input.empty <==> r == []
    ensures !input.empty ==> r == DetectAndUpload(Flipped(Captured(n), FlipBoth), CameraPattern, input.found, [ToRotationMatrix])
  {
    if input.empty then []
    else DetectAndUpload(Flipped(Captured(n), FlipBoth), CameraPattern, input.found, [ToRotationMatrix])
  }

  /** A program's result: its exit code and, per captured frame, the calls
      made for it. */
  datatype Run = Run(code: int, frames: seq<seq<Call>>)

  /** The camera program: when the camera does not open, or the window or the
      GL loader fails, it exits with -1 having made no call. Otherwise it captures one frame before the loop
      to size the texture; if that frame is empty it exits with -1 having
      made no call. Otherwise the flipped first frame is uploaded, and every
      loop frame is handled in turn (an empty one skips detection and upload
      and the loop goes on) until the window closes, after the last input,
      and it exits with 0. */
  function CameraProgram(started: bool, first: FrameInput, loop: seq<FrameInput>): (r: Run)
    ensures !started || first.empty ==> r == Run(-1, [])
    ensures started && !first.empty ==> r.code == 0 && |r.frames| == |loop| + 1
    ensures started && !first.empty ==> r.frames[0] == [Upload(Flipped(Captured(0), FlipBoth))]
    ensures started && !first.empty ==> forall i :: 0 <= i < |loop| ==> r.frames[i + 1] == CameraFrame(i + 1, loop[i])
  {
    if !started || first.empty then Run(-1, [])
    else
      Run(0, [[Upload(Flipped(Captured(0), FlipBoth))]]
             + seq(|loop|, i requires 0 <= i < |loop| => CameraFrame(i + 1, loop[i])))
  }

  /** Every non-empty camera frame is uploaded exactly once, found or not,
      carrying the drawn axes exactly when the board was found. */
  lemma CameraUploadsEveryFrame(n: nat, input: FrameInput)
    requires !input.empty
    ensures var r := CameraFrame(n, input);
            |set i | 0 <= i < |r| && r[i].Upload?| == 1
            && r[|r| - 1].img.WithAxes? == input.found
  {
    var r := CameraFrame(n, input);
    var ups := set i | 0 <= i < |r| && r[i].Upload?;
    assert ups == {|r| - 1};
  }

  /** An empty frame in the camera loop does not stop it: the frames after it
      are still processed. */
  lemma CameraSkipsEmptyFrame(first: FrameInput, loop: seq<FrameInput>, k: nat)
    requires !first.empty && k < |loop| && loop[k].empty
    ensures CameraProgram(true, first, loop).frames[k + 1] == []
    ensures forall i :: k < i < |loop| && !loop[i].empty ==> CameraProgram(true, first, loop).frames[i + 1] != []
  {
  }

  /** One AR frame: convert BGR to RGB, flip vertically, detect the 9x6 board
      on the gray image of that, the pose calls when found, and the upload of
      the converted frame, with the axes exactly when the board was found.
      Unlike the camera program there is no Rodrigues conversion. */
  function ArFrame(n: nat, found: bool): (r: seq<Call>)
    ensures var img := Flipped(BgrToRgb(Captured(n)), FlipVertical);
            && |r| >= 2 && r[0] == Detect(GrayOf(img), ArPattern)
            && r[|r| - 1] == Upload(if found then WithAxes(img) else img)
            && (found ==> r[1..|r| - 1] == PoseCalls(GrayOf(img)))
            && (!found ==> |r| == 2)
    ensures forall i :: 0 <= i < |r| - 1 ==> !r[i].Upload?
    ensures (exists i :: 0 <= i < |r| && IsRefine(r[i])) <==> found
    ensures forall i :: 0 <= i < |r| ==> !r[i].ToRotationMatrix?
  {
    DetectAndUpload(Flipped(BgrToRgb(Captured(n)), FlipVertical), ArPattern, found, [])
  }

  /** Every AR frame is uploaded exactly once, found or not, carrying the
      drawn axes exactly when the board was found. */
  lemma ArUploadsEveryFrame(n: nat, found: bool)
    ensures var r := ArFrame(n, found);
            |set i | 0 <= i < |r| && r[i].Upload?| == 1
            && r[|r| - 1].img.WithAxes? == found
  {
    var r := ArFrame(n, found);
    var ups := set i | 0 <= i < |r| && r[i].Upload?;
    assert ups == {|r| - 1};
  }

  /** Index of the first empty frame, or the number of frames. */
  function FirstEmpty(frames: seq<FrameInput>): (k: nat)
    ensures k <= |frames|
    ensures forall i :: 0 <= i < k ==> !frames[i].empty
    ensures k < |frames| ==> frames[k].empty
  {
    if |frames| == 0 || frames[0].empty then 0 else 1 + FirstEmpty(frames[1..])
  }

  /** The AR loop over frames numbered from `n`: it breaks at the first empty
      frame. */
  function ArLoop(frames: seq<FrameInput>, n: nat): (r: seq<seq<Call>>)
    ensures |r| == FirstEmpty(frames)
    ensures forall i :: 0 <= i < |r| ==> r[i] == ArFrame(n + i, frames[i].found)
    decreases |frames|
  {
    if |frames| == 0 || frames[0].empty then []
    else [ArFrame(n, frames[0].found)] + ArLoop(frames[1..], n + 1)
  }

  /** The AR program: exit code -1 and no call when the GL loader fails or
      the camera does not open; otherwise the loop, then exit code 0 whether it ended at an empty
      frame or at the window closing. */
  function ArProgram(started: bool, frames: seq<FrameInput>): (r: Run)
    ensures !started ==> r == Run(-1, [])
    ensures started ==> r.code == 0 && |r.frames| == FirstEmpty(frames)
    ensures started ==> forall i :: 0 <= i < |r.frames| ==> r.frames[i] == ArFrame(i, frames[i].found)
  {
    if !started then Run(-1, []) else Run(0, ArLoop(frames, 0))
  }

  /** Frames after the first empty one never reach the AR loop. */
  lemma {:induction false} ArIgnoresAfterEmpty(frames: seq<FrameInput>, more: seq<FrameInput>, n: nat)
    requires exists i :: 0 <= i < |frames| && frames[i].empty
    ensures ArLoop(frames + more, n) == ArLoop(frames, n)
    decreases |frames|
  {
    if !frames[0].empty {
      assert (frames + more)[1..] == frames[1..] + more;
      var i :| 0 <= i < |frames| && frames[i].empty;
      assert frames[1..][i - 1].empty;
      ArIgnoresAfterEmpty(frames[1..], more, n + 1);
    }
  }

  /** The two quad attributes of the AR program: clip-space position and
      texture coordinate. */
  datatype QuadVertex = QuadVertex(x: real, y: real, u: real, v: real)

  /** Top-left, bottom-left, bottom-right, top-right. */
  const QuadVertices: seq<QuadVertex> := [
    QuadVertex(-1.0, 1.0, 0.0, 1.0),
    QuadVertex(-1.0, -1.0, 0.0, 0.0),
    QuadVertex(1.0, -1.0, 1.0, 0.0),
    QuadVertex(1.0, 1.0, 1.0, 1.0)
  ]

  const QuadIndices: seq<nat> := [0, 1, 2, 0, 2, 3]

  /** The count passed to `glDrawElements`. */
  const QuadDrawCount: nat := 6

  /** Twice the signed area of a triangle; positive when counter-clockwise. */
  function Orientation(a: QuadVertex, b: QuadVertex, c: QuadVertex): real {
    (b.x - a.x) * (c.y - a.y) - (b.y - a.y) * (c.x - a.x)
  }

  /** The quad tables: texture coordinates are the positions mapped from
      [-1, 1] to [0, 1], so the texture fills the viewport; the draw reads
      every index, each names a vertex, every vertex is used, and both
      triangles wind counter-clockwise. */
  lemma QuadTables()
    ensures |QuadVertices| == 4 && |QuadIndices| == QuadDrawCount
    ensures forall i :: 0 <= i < 4 ==>
              QuadVertices[i].u == (QuadVertices[i].x + 1.0) / 2.0
              && QuadVertices[i].v == (QuadVertices[i].y + 1.0) / 2.0
    ensures forall i :: 0 <= i < |QuadIndices| ==> QuadIndices[i] < |QuadVertices|
    ensures forall v :: 0 <= v < |QuadVertices| ==> v in QuadIndices
    ensures Orientation(QuadVertices[QuadIndices[0]], QuadVertices[QuadIndices[1]], QuadVertices[QuadIndices[2]]) > 0.0
    ensures Orientation(QuadVertices[QuadIndices[3]], QuadVertices[QuadIndices[4]], QuadVertices[QuadIndices[5]]) > 0.0
  {
    assert QuadIndices[3] == 0;
  }
}
