# VisualComputingCheckerboard core, modelled in Dafny

This project models the sequential logic beneath the VisualComputingCheckerboard programs and proves properties of it.

The programs are:
- a webcam viewer that filters and transforms camera frames on the CPU or the GPU;
- a camera program that estimates the pose of a printed checkerboard, draws the pose axes on the live frame and renders a coloured cube beside it;
- an AR program that estimates the same pose on its own capture loop and draws the pose axes on the frame;
- three Python scripts that summarise the viewer's benchmark CSV files.

The OpenCV and OpenGL calls the programs make are not modelled as code. They appear as parameters, or as symbolic terms that record which call was made on which image.

Modules, one per file:

- `Wrappers`: `Option` and `Result`.
- `Text`: ASCII lower-casing, `strip`, `split`, `join` and `replace`.
- `Decimal`: printing naturals, C++ `std::stoi` with its 32-bit range check, and Python `int`.
- `Sorting`: `sorted` as an ordered permutation; Python's string order; tuple orders.
- `Report`: Python dictionaries as item sequences in insertion order, `defaultdict(list)` grouping, and numeric `WxH` resolution ordering.
- `Frames`: the frame shape and the gray and edge filters' channel and shape contracts.
- `Pixelate`: the block-mean pixelate filter, as a loop proved equal to a pixel-wise reference.
- `Transforms`: the translate, scale-about-pivot and rotate-about-centre affine builders and their warp calls.
- `UvTransform`: the 3x3 UV matrix the viewer uploads for GPU transforms.
- `WebcamView`: the scroll, mouse-button and cursor callbacks.
- `WebcamKeys`: edge-triggered key handling and one render-loop iteration.
- `WebcamFrame`: the per-frame CPU pipeline, as the sequence of calls it makes.
- `WebcamCli`: the command line, the benchmark configuration and the benchmark stop rule.
- `Projection`: the camera program's OpenGL projection matrix.
- `Marker`: the checkerboard object points and the axis points.
- `CaptureLoops`: the per-frame control flow of the camera and AR programs, and the AR quad tables.
- `Cube`: the 36-vertex cube table and its colour fill.
- `PlotBench`, `AnalyzeSummary`, `PlotAgg`: the three benchmark scripts.

Floating-point values are modelled as `real`. Foreign numeric functions become function parameters:

- `cos` and `sin` of degrees;
- `powf(1.1f, e)`;
- `std::stof` and Python `float`;
- `statistics.mean` and `statistics.stdev`;
- OpenCV's luminance and edge maps.

Python operations that raise are modelled as `None` or `Err`.

## Model

| member | source | states |
|---|---|---|
| WebcamView.InitialConsistent | Webcam/webcamQuad.cpp:43-54 | the viewer starts with scale 1, the zoom pivot at the centre (0.5, 0.5) and all three transform flags off, so "GPU transform shader installed iff transforms on and GPU path chosen" holds at start |
| WebcamView.Scroll | Webcam/webcamQuad.cpp:57-95 | a window without area changes nothing; otherwise the pivot becomes the cursor's UV point (mirrored while the GPU transform shader is active), the scale is multiplied by 1.1 to the (possibly negated) wheel offset, the translation is corrected so the zoom map sends the pivot where the old one did, and drag state and rotation are untouched |
| WebcamView.ScrollKeepsCursorFixed | Webcam/webcamQuad.cpp:86-94 | with no rotation, the UV matrix uploaded to the shader maps the cursor's UV point to the same place before and after a scroll, for any aspect ratio |
| WebcamView.MouseButtonEvent | Webcam/webcamQuad.cpp:97-106 | only the left button matters: press starts a drag at the cursor position, release ends it, anything else changes nothing; the transform is never touched |
| WebcamView.CursorMove | Webcam/webcamQuad.cpp:108-132 | nothing changes unless dragging in a window with area; then shift-drag adds dx times 0.35 degrees to the rotation only, a plain drag adds dx/w and dy/h to the translation only, and the last cursor position is updated in both cases |
| WebcamView.Drag | Webcam/webcamQuad.cpp:108-132 | without a drag in progress the view is unchanged; a shift-drag leaves the translation alone and a plain drag leaves the rotation alone, and neither touches scale, pivot or the drag flag |
| WebcamView.DragPans | Webcam/webcamQuad.cpp:113-131 | a plain drag made of any number of cursor events pans by the total motion divided by the window size, as if it were one event |
| WebcamView.DragRotates | Webcam/webcamQuad.cpp:118-123 | a shift-drag of any number of events rotates by the total horizontal motion times 0.35 and leaves translation and scale alone |
| WebcamView.NoDragNoChange | Webcam/webcamQuad.cpp:109 | without a pressed left button any sequence of cursor events leaves the view unchanged |
| WebcamKeys.ModeShader | Webcam/webcamQuad.cpp:442-479 | a filter key installs a fragment shader exactly when it selects a GPU filter mode; "none" and the CPU filters install the default shader |
| WebcamKeys.Resync | Webcam/webcamQuad.cpp:486-497 | after the T/C tail the transform shader is installed iff transforms are on and the GPU path is chosen; it is removed (default shader) only if it was installed, otherwise the shader is kept; the two toggles themselves are not changed |
| WebcamKeys.OnPress | Webcam/webcamQuad.cpp:441-524 | a filter key sets the mode and its shader, applies that mode's CPU filter to the captured frame and leaves flags and view alone; T flips "enabled" and C flips "use CPU", each then re-selecting the shader from the new flags (the transform shader when enabled and not on the CPU; else the default shader if the transform shader was active; else unchanged) and keeping mode and view; R resets translation to 0, scale to 1 and rotation to 0 and changes nothing else |
| WebcamKeys.OnPressConsistent | Webcam/webcamQuad.cpp:480-515 | every key handler keeps "GPU transform shader active iff transforms enabled and not on the CPU" |
| WebcamKeys.OnPressKeepsPivot | Webcam/webcamQuad.cpp:516-523 | no key moves the zoom pivot or changes the drag state, and every key other than R leaves the whole view unchanged |
| WebcamKeys.FilterKeyDropsTransformShader | Webcam/webcamQuad.cpp:465-479 | a GPU filter key pressed while the transform shader is active replaces that shader but leaves the "GPU transform active" flag set |
| WebcamKeys.Poll | Webcam/webcamQuad.cpp:435-527 | the remembered key states after a poll are exactly this frame's states, whatever fired |
| WebcamKeys.PollIdle | Webcam/webcamQuad.cpp:439 | when no key went from up to down, the poll changes no state and makes no filter call |
| WebcamKeys.HoldFiresOnce | Webcam/webcamQuad.cpp:438-439 | keys held down over two frames fire on the first one only: the second poll does nothing (see also line 526) |
| WebcamKeys.PollConsistent | Webcam/webcamQuad.cpp:435-527 | the whole poll keeps the GPU-flag invariant |
| WebcamKeys.Iteration | Webcam/webcamQuad.cpp:424-605 | one loop iteration leaves the state the key poll produced and remembers this frame's key states; its filter calls are exactly the handlers' calls followed by the frame pipeline run on the frame as the handlers left it, under the polled mode, flags and view |
| WebcamKeys.IterationConsistent | Webcam/webcamQuad.cpp:435-527 | every loop iteration keeps the GPU-flag invariant (see also lines 50-54) |
| WebcamKeys.PollSingle | Webcam/webcamQuad.cpp:435-527 | when exactly one key is freshly pressed the poll is that key's handler |
| WebcamKeys.PollOnlyDown | Webcam/webcamQuad.cpp:435-527 | when exactly one watched key is freshly down, the poll does what that key's handler does, state and filter calls alike |
| WebcamKeys.CpuPipelineFirst | Webcam/webcamQuad.cpp:534-545 | in a CPU filter mode the pipeline of a non-empty frame starts with that mode's CPU filter |
| WebcamKeys.CpuKeyFiltersTwice | Webcam/webcamQuad.cpp:447-464 | pressing 2, 3 or 4 on a non-empty frame runs that key's CPU filter twice in the same iteration, first in the handler and then in the pipeline, and leaves the matching CPU mode (see also lines 534-545) |
| WebcamKeys.CpuKeys | Webcam/webcamQuad.cpp:447-464 | keys 2, 3 and 4 are the watched keys that select the CPU gray, edge and pixelate modes |
| WebcamFrame.FilterOps | Webcam/webcamQuad.cpp:534-547 | the pipeline makes exactly one filter call in a CPU filter mode and none in "none" or a GPU mode |
| WebcamFrame.ScaleStep | Webcam/webcamQuad.cpp:565-574 | one scale warp exactly when the scale is more than 1e-6 away from 1, scaling both axes by it with the output the frame's size; with pivotU <= 1 and pivotV >= 0 it fixes the pixel pivot ((1 - pivotU) * cols, pivotV * rows), and with pivotU > 1 or pivotV < 0, where a pixel coordinate turns negative, it fixes the frame centre instead (see also transforms/Transforms.cpp lines 18-21) |
| WebcamFrame.PivotSign | Webcam/webcamQuad.cpp:565-574 | a pixel pivot coordinate is non-negative exactly when its unit coordinate is, which decides the centre fallback |
| WebcamFrame.RotateStep | Webcam/webcamQuad.cpp:576-578 | one rotation warp exactly when the angle is more than 1e-6 away from 0, about the frame centre at unit scale, keeping the frame's size |
| WebcamFrame.TranslateStep | Webcam/webcamQuad.cpp:560-581 | one translation warp exactly when the pixel shift (-U * cols, V * rows) is not zero, and it moves every point by that shift |
| WebcamFrame.TransformOps | Webcam/webcamQuad.cpp:556-582 | the CPU transforms are scale, then rotate, then translate, each at most once and present exactly when its guard passes, each keeping the frame size and the constant border |
| WebcamFrame.FilteredShape | Webcam/webcamQuad.cpp:534-547 | the CPU filter keeps the frame's rows and columns |
| WebcamFrame.Processing | Webcam/webcamQuad.cpp:531-582 | before the flip the calls include neither flip nor upload, warps only in CPU transform mode, and they start with a filter call exactly in a CPU filter mode |
| WebcamFrame.Pipeline | Webcam/webcamQuad.cpp:531-605 | an empty frame gets no call; any other frame ends with exactly one vertical flip followed by the upload, starts with the filter exactly in a CPU filter mode, and is warped only in CPU transform mode |
| WebcamFrame.ProcessingParts | Webcam/webcamQuad.cpp:531-594 | the calls of a non-empty frame are the mode's filter, then the transform steps (in CPU transform mode), then flip and upload |
| WebcamFrame.PipelineWarps | Webcam/webcamQuad.cpp:556-582 | the warps a non-empty frame goes through are exactly the transform steps in CPU transform mode and none otherwise |
| WebcamCli.ParseResolution | Webcam/webcamQuad.cpp:173-179 | a `--resolution` value without `x` changes nothing; a parsed one changes only the target width and height |
| WebcamCli.ParseSides | Webcam/webcamQuad.cpp:177-178 | the width and height are set exactly when `stoi` accepts both sides; a rejected left side raises with that side's error |
| WebcamCli.ParseFloat | Webcam/webcamQuad.cpp:165-172 | a float flag's value is accepted exactly when `stof` accepts it, and is that value |
| WebcamCli.Step | Webcam/webcamQuad.cpp:153-185 | one turn of the argument loop consumes the flag, plus its value for a value flag that has one; `--benchmark` is never cleared, and only `--benchmark`, `--detailed` and `--out` change those three options |
| WebcamCli.ParseFrom | Webcam/webcamQuad.cpp:153-185 | `--benchmark` once seen stays set; without `--benchmark`, `--detailed` or `--out` in the arguments the corresponding option keeps its value |
| WebcamCli.FloatFlagTakesNext | Webcam/webcamQuad.cpp:169-176 | a float flag followed by a value either fails with that value when `stof` rejects it or sets its option to the number and parses on from the argument after the value |
| WebcamCli.ResolutionFlagTakesNext | Webcam/webcamQuad.cpp:177-181 | `--resolution` followed by a value either fails with the resolution parser's error or parses on from the argument after the value with the resolution it set |
| WebcamCli.ParseArgs | Webcam/webcamQuad.cpp:150-185 | no arguments give the default options; without `--benchmark`, `--detailed` or `--out` benchmarking is off, detailed output is off and the output file is "benchmark.csv" |
| WebcamCli.ValueFlagTakesNext | Webcam/webcamQuad.cpp:157-164 | a string flag followed by a value sets that option and parsing resumes after the value |
| WebcamCli.DanglingFlagIgnored | Webcam/webcamQuad.cpp:157-181 | a value flag in last position (the `i + 1 < argc` test fails) is ignored |
| WebcamCli.UnknownSkipped | Webcam/webcamQuad.cpp:153-185 | an argument that is no flag is skipped without effect |
| WebcamCli.BadFramesFails | Webcam/webcamQuad.cpp:180-181 | a `--frames` value `stoi` rejects ends the program with that error |
| WebcamCli.FramesRoundTrip | Webcam/webcamQuad.cpp:180-181 | a frame count printed in decimal (within `int` range) is read back as itself |
| WebcamCli.ResolutionRoundTrip | Webcam/webcamQuad.cpp:173-179 | the `WxH` text the benchmark prints, given back to `--resolution`, sets exactly that width and height (see also lines 702-705) |
| WebcamCli.BenchmarkMode | Webcam/webcamQuad.cpp:327-364 | with both names lower-cased: a CPU mode iff gray/edge/pixelate with backend `cpu`, a GPU mode iff one of them with any other backend, no filter iff `none` or an unknown name, and each filter name selects its own pair of modes |
| WebcamCli.TransformsSetup | Webcam/webcamQuad.cpp:366-380 | `cpu` and `gpu` turn transforms on, only `cpu` chooses the CPU path, only `gpu` installs the transform shader, anything else turns all flags off; the GPU-flag invariant holds afterwards |
| WebcamCli.BenchmarkSetup | Webcam/webcamQuad.cpp:325-391 | without `--benchmark` the initial state is unchanged; otherwise the mode is the benchmark mode, transforms are on iff `--transforms` is cpu or gpu, presets replace the view only with transforms on, and the shader is the filter's unless the transform shader replaced it; the GPU-flag invariant holds (see also line 322) |
| WebcamCli.ModeKey | Webcam/webcamQuad.cpp:442-479 | every filter mode is selected by some watched key |
| WebcamCli.BenchmarkIsKeyPress | Webcam/webcamQuad.cpp:442-479 | without GPU transforms the benchmark's filter setup equals pressing that mode's key in the initial state (see also lines 332-364) |
| WebcamCli.GpuTransformsDropFilterShader | Webcam/webcamQuad.cpp:341-374 | with `--transforms gpu` the installed shader is the transform shader, never the GPU filter's |
| WebcamCli.BenchmarkRows | Webcam/webcamQuad.cpp:700-733 | one CSV row per captured iteration, numbered from 0, carrying the options' names and the printed resolution; the loop stops after min(frames captured, max(1, --frames)) rows |
| Decimal.Stoi | Webcam/webcamQuad.cpp:177-181 | `std::stoi` either throws or returns a value inside the 32-bit `int` range |
| Decimal.StoiPrinted | Webcam/webcamQuad.cpp:177-181 | `std::stoi` reads back any printed non-negative `int` followed by text that does not start with a digit (see also line 705) |
| Decimal.NatToStringValue | Webcam/webcamQuad.cpp:705 | the decimal text the benchmark prints for a number denotes that number |
| UvTransform.Aspect | Webcam/webcamQuad.cpp:647-650 | the aspect ratio is positive, and for a non-empty frame it is cols/rows |
| UvTransform.MulVecMul | Webcam/webcamQuad.cpp:658-659 | a glm product of two matrices acts on a vector as the right factor followed by the left one |
| UvTransform.UvMatrixFactors | Webcam/webcamQuad.cpp:617-659 | the uploaded matrix applies its seven factors right to left: T_neg, A, S, R, Ainv, T_back, T_translate |
| UvTransform.UvMatrix | Webcam/webcamQuad.cpp:617-659 | the uploaded matrix is affine: its last row is (0, 0, 1), so UV points stay points |
| UvTransform.MulAffine | Webcam/webcamQuad.cpp:658-659 | the product of two affine matrices is affine |
| UvTransform.UvMatrixApply | Webcam/webcamQuad.cpp:617-659 | the uploaded matrix maps the UV point (u, v) to the translation plus the centre plus the aspect-compensated rotation of the scaled offset (u - 0.5, v - 0.5), keeping w = 1 |
| UvTransform.UvCentre | Webcam/webcamQuad.cpp:617-659 | the UV centre (0.5, 0.5) goes to (0.5 + U, 0.5 + V) for every scale, rotation and non-zero aspect |
| UvTransform.UvNoRotation | Webcam/webcamQuad.cpp:617-659 | with no rotation the aspect compensation cancels and the matrix is the zoom map u -> t + c + s (u - c) the scroll callback assumes (see also lines 86-92) |
| Transforms.ThenApply | transforms/Transforms.cpp:24-25 | the product matrix of two affine maps applies the first, then the second |
| Transforms.TranslateInverse | transforms/Transforms.cpp:7 | translating by (dx, dy) and then by (-dx, -dy) is the identity |
| Transforms.TranslateCPU | transforms/Transforms.cpp:5-10 | nothing happens exactly for an empty frame; otherwise one warp that keeps the frame's size, fills with (51, 25.5, 25.5) and moves every point by (dx, dy) |
| Transforms.ScaleMatrix | transforms/Transforms.cpp:26-28 | the matrix [[sx, 0, (1 - sx) px], [0, sy, (1 - sy) py]] keeps its pivot fixed |
| Transforms.ScaleApply | transforms/Transforms.cpp:26-28 | every point's offset from the pivot is multiplied by sx and sy |
| Transforms.ScaleIsConjugation | transforms/Transforms.cpp:24-28 | the closed form equals the composition T(p) S T(-p) the comment derives it from |
| Transforms.ScaleUnit | transforms/Transforms.cpp:26-28 | unit scale gives the identity matrix whatever the pivot |
| Transforms.ScaleCPU | transforms/Transforms.cpp:12-31 | nothing happens exactly for an empty frame; otherwise a same-size warp with the constant border and diagonal (sx, sy), fixing the given pivot when both coordinates are non-negative and the frame centre when either is negative |
| Transforms.ScalePivotEitherNegative | transforms/Transforms.cpp:18-21 | one negative pivot coordinate is enough: the result is the same as passing the default (-1, -1) |
| Transforms.RotationMatrix2D | transforms/Transforms.cpp:36 | the rotation matrix fixes its centre |
| Transforms.RotationApply | transforms/Transforms.cpp:35-36 | offsets from the centre are rotated by the angle and multiplied by the scale |
| Transforms.RotationIsometry | transforms/Transforms.cpp:36 | at unit scale (with cos^2 + sin^2 = 1) the rotation preserves distances |
| Transforms.RotationZero | transforms/Transforms.cpp:36 | angle 0 gives the identity |
| Transforms.RotateCPU | transforms/Transforms.cpp:33-39 | nothing happens exactly for an empty frame; otherwise a same-size warp with the constant border rotating by the angle at unit scale about (cols/2, rows/2), which stays fixed |
| Frames.Grayscale | filters/Filters.cpp:5-20 | an empty frame and a frame with a channel count other than 1, 3 or 4 are left unchanged; any other frame becomes a same-size 3-channel frame whose channels are equal per pixel, a 1-channel frame keeping its values |
| Frames.GrayscaleIdempotent | filters/Filters.cpp:5-20 | converting to gray twice equals converting once, given a luminance weighting that fixes gray pixels |
| Frames.Canny | filters/Filters.cpp:22-41 | an empty frame is left unchanged; any other frame becomes a same-size 3-channel frame with equal channels per pixel, whatever its channel count |
| Frames.GrayscaleAfterCanny | filters/Filters.cpp:5-41 | converting an edge map to gray changes nothing |
| Frames.GrayscaleShapeAgrees | filters/Filters.cpp:5-20 | the shape after the gray conversion depends only on the shape before it: 3 channels for a non-empty 1-, 3- or 4-channel frame, unchanged otherwise |
| Frames.CannyShapeAgrees | filters/Filters.cpp:22-41 | the shape after edge detection is the input's size with 3 channels for a non-empty frame |
| Pixelate.BlockLen | filters/Filters.cpp:50-51 | a block's extent is between 1 and pixelSize and stays inside the frame: pixelSize when it fits, the rest of the dimension at the right or bottom edge |
| Pixelate.BlockTiling | filters/Filters.cpp:47-52 | block origins are multiples of pixelSize; a coordinate lies in the block at origin b exactly when b is its own block's origin, so blocks are disjoint and cover every pixel |
| Pixelate.BlockMean | filters/Filters.cpp:55 | the mean of a block has one value per channel of the frame |
| Pixelate.MeanOfUniform | filters/Filters.cpp:55 | the mean of a block whose pixels are all equal is that pixel |
| Pixelate.PixelateSpec | filters/Filters.cpp:43-61 | the pixel-wise reference (each pixel takes its block's mean in the input) keeps the frame's dimensions and channel count |
| Pixelate.Fill | filters/Filters.cpp:58 | `setTo` on a region changes exactly the pixels inside the region, to the given value |
| Pixelate.PaintBlock | filters/Filters.cpp:55-58 | painting the next block with the untouched copy's mean extends the finished region by one block |
| Pixelate.PixelateBand | filters/Filters.cpp:48-59 | the inner loop over one row of blocks finishes that band and leaves the rest of the frame as the input had it |
| Pixelate.PixelateCPU | filters/Filters.cpp:43-61 | the block loop returns the pixel-wise reference: an empty frame or pixelSize <= 1 gives the frame back, otherwise every pixel takes the mean of its block in the copy `temp`, so the visiting order of blocks does not matter |
| Pixelate.PixelateBlocksUniform | filters/Filters.cpp:55-58 | after pixelation every block is uniform and equals the mean of the same block of the input |
| Pixelate.PixelateKeepsUniformBlock | filters/Filters.cpp:47-58 | a block that is already uniform keeps its value |
| Pixelate.PixelateIdempotent | filters/Filters.cpp:43-61 | pixelating twice with the same block size equals pixelating once |
| Projection.ProjectionSparsity | Camera/cameraQuad.cpp:127-136 | only the entries [0][0], [1][1], [2][0], [2][1], [2][2], [2][3] and [3][2] can be non-zero; the focal entries are positive, [2][3] is -1 and [3][2] is negative |
| Projection.ProjectionMatrix | Camera/cameraQuad.cpp:124-136 | for positive focal lengths and a frame with area the focal entries are positive, and every point's clip-space w is minus its eye-space z |
| Projection.ClipW | Camera/cameraQuad.cpp:135 | the clip-space w of every point is minus its eye-space z |
| Projection.DepthRange | Camera/cameraQuad.cpp:124-136 | after the perspective divide the near plane is at depth -1 and the far plane at +1 |
| Projection.OpticalAxis | Camera/cameraQuad.cpp:130-135 | a point on the optical axis lands at NDC (1 - 2cx/w, 1 - 2cy/h) |
| Projection.OpticalAxisCentred | Camera/cameraQuad.cpp:130-135 | the optical axis hits the screen centre exactly when the principal point is the image centre |
| Projection.ProjectionIsFrustum | Camera/cameraQuad.cpp:127-136 | the matrix is the frustum matrix of section 2.11.2 of the OpenGL 2.1 specification whose near-plane window is the image rectangle seen through the pinhole |
| Projection.CalibratedAxisOffset | Camera/cameraQuad.cpp:118-136 | with the hard-coded calibration on a 1920x1080 frame the optical axis lands at NDC (1/1920, 1/1080), half a pixel off centre in each direction, because the pixel-centre principal point (959.5, 539.5) goes through the matrix's 2cx/w - 1 edge convention (see also lines 61-62) |
| Marker.GridIndex | Camera/cameraQuad.cpp:213-217 | row i, column j of the loop is point number i * cols + j |
| Marker.ObjectPoints | Camera/cameraQuad.cpp:212-218 | the nested loop pushes rows * cols points, point k being ((k mod cols) * 0.025, (k div cols) * 0.025, 0) |
| Marker.CameraObjectPoints | Camera/cameraQuad.cpp:196-218 | the camera program's board has 54 points in rows of 6, the width of the `Size(6, 9)` pattern it detects |
| Marker.ArObjectPoints | AR/AR.cpp:154-167 | the AR program's board has 54 points in rows of 9, the width of the `Size(9, 6)` pattern it detects |
| Marker.GridCoversBoard | Camera/cameraQuad.cpp:212-218 | every point index names a corner of the board, and every corner (row i, column j) has an index whose point is (j, i) squares from the origin |
| Marker.AxisPoints | Camera/cameraQuad.cpp:224-228 | four axis points: the origin, then end points 0.075 along +x, +y and -z |
| CaptureLoops.PoseCalls | Camera/cameraQuad.cpp:206-240 | the detection-gated part is four calls, all of them pose work: refine, solve against 54 points, project, draw |
| CaptureLoops.DetectAndUpload | Camera/cameraQuad.cpp:194-265 | detection runs on the gray image of the frame; pose work happens exactly when the pattern is found; the frame is uploaded once, last, with the axes drawn exactly when found |
| CaptureLoops.CameraFrame | Camera/cameraQuad.cpp:180-266 | an empty loop frame makes no call; any other frame is flipped on both axes before detection of the 6x9 board, and Rodrigues follows the pose calls when found |
| CaptureLoops.CameraProgram | Camera/cameraQuad.cpp:97-106 | a camera that did not open or an empty first frame exits with -1 having made no call; otherwise the flipped first frame is uploaded, every loop frame is processed in turn and the exit code is 0 (see also lines 68-71, 171-179, 285) |
| CaptureLoops.CameraUploadsEveryFrame | Camera/cameraQuad.cpp:190-266 | every non-empty camera frame is uploaded exactly once, carrying the axes exactly when the board was found |
| CaptureLoops.CameraSkipsEmptyFrame | Camera/cameraQuad.cpp:180-190 | an empty frame inside the camera loop makes no call and the loop still processes the frames after it |
| CaptureLoops.ArFrame | AR/AR.cpp:146-187 | an AR frame is converted BGR to RGB and flipped vertically; the first call detects the 9x6 board on its gray image; the pose calls run exactly when the board is found, with no Rodrigues conversion; the last call, and the only upload, is the converted frame with the axes exactly when found |
| CaptureLoops.ArUploadsEveryFrame | AR/AR.cpp:146-187 | every AR frame is uploaded exactly once, carrying the axes exactly when the board was found |
| CaptureLoops.FirstEmpty | AR/AR.cpp:141-142 | the index returned is the first empty frame, or the number of frames when none is empty |
| CaptureLoops.ArLoop | AR/AR.cpp:139-196 | the AR loop processes exactly the frames before the first empty one, numbered in order |
| CaptureLoops.ArProgram | AR/AR.cpp:139-204 | a camera that did not open exits with -1 having made no call; otherwise the AR program exits with 0 after processing the frames before the first empty one (see also line 82) |
| CaptureLoops.ArIgnoresAfterEmpty | AR/AR.cpp:142 | frames after an empty one never reach the AR loop |
| CaptureLoops.QuadTables | AR/AR.cpp:98-105 | each quad vertex's texture coordinate is ((x + 1)/2, (y + 1)/2); the draw reads 6 indices, each < 4, using every vertex; both triangles wind counter-clockwise (see also line 192) |
| Cube.FlattenAt | common/Cube.cpp:11-15 | float 3k + c of the flat table is coordinate c of vertex k |
| Cube.TableSize | common/Cube.hpp:32-35 | the table is 36 vertices, six per face in face order, that is 108 floats: the size of both member arrays and what the 36-vertex draw reads (see also common/Cube.cpp:11-12, common/Cube.cpp:104) |
| Cube.UnitCube | common/Cube.cpp:12-35 | every float of the table is 0.5 or -0.5 |
| Cube.CornerFace | common/Cube.cpp:12-35 | every vertex of every face is a corner of the unit cube |
| Cube.FacesAreSquares | common/Cube.cpp:13-35 | each face's six vertices lie on its plane (front z = 0.5, back z = -0.5, left x = -0.5, right x = 0.5, top y = 0.5, bottom y = -0.5); vertex 3 repeats vertex 2 and vertex 5 repeats vertex 0, over four distinct corners; both triangles wind counter-clockwise seen from outside |
| Cube.ColorIndexBijection | common/Cube.cpp:54-60 | the fill's index (face * 6 + v) * 3 + c is a bijection between in-range (face, vertex, channel) triples and 0..107 |
| Cube.FillColors | common/Cube.cpp:43-61 | after the fill loop all 108 floats have been written: float k is channel k mod 3 of the colour of face k / 18, whatever the buffer held before |
| Cube.VertexGetsFaceColor | common/Cube.cpp:52-60 | every vertex of face f reads back `faceColors[f]` |
| PlotBench.JoinAvoids | scripts/plot_bench.py:39-40 | a character absent from every part and different from the separator is absent from the joined name, so removing ".csv" cannot reach into the joined fields |
| PlotBench.NamePartsBack | scripts/plot_bench.py:39-40 | removing ".csv" from a name of plain fields joined by "_" and splitting it on "_" returns exactly those fields |
| PlotBench.NameRoundTrip | scripts/plot_bench.py:39-49 | the file name the run scripts write for a configuration reads back as that configuration, with fields reordered into (build, filter, backend, resolution, transforms) |
| PlotBench.ExtraPartsIgnored | scripts/plot_bench.py:43-49 | fields after the sixth do not change the configuration read from a name |
| PlotBench.ShortNameSkipped | scripts/plot_bench.py:43-45 | a name with fewer than six "_"-separated fields yields no configuration |
| PlotBench.CleanRows | scripts/plot_bench.py:54-60 | when every data row is non-empty with a number in its first cell, the file yields one value per row |
| PlotBench.DataValuesAppend | scripts/plot_bench.py:54-60 | the values of concatenated row lists are the concatenation of their values: rows without a value are skipped wherever they are |
| PlotBench.CollectLast | scripts/plot_bench.py:36-63 | the collected dictionary has distinct keys, maps each configuration to the values and path of the last file that recorded a non-empty value list for it, and holds no empty value list |
| PlotBench.ItemOrder | scripts/plot_bench.py:67 | ordering dictionary items by their configuration tuple is total and transitive |
| PlotBench.Summarize | scripts/plot_bench.py:66-74 | one summary row per configuration of the dictionary and no other, ordered by the (build, filter, backend, resolution, transforms) tuple, each with the configuration's frame count, path, mean, and sample deviation or 0.0 for a single value |
| PlotBench.SummaryRowsFacts | scripts/plot_bench.py:67-74 | rows made from a sorted copy of the dictionary's items keep the items' order and describe the original dictionary's values |
| PlotBench.RowsCover | scripts/plot_bench.py:67-74 | rows keyed by the items of a copy with the same keys cover exactly the dictionary's configurations |
| PlotBench.PlotResolutions | scripts/plot_bench.py:105-114 | the plot axis holds every resolution of the summary exactly once, no other, ordered by numeric width then height; it is absent exactly when some resolution lacks an "x" or a numeric side, where the script raises |
| PlotBench.Resolutions | scripts/plot_bench.py:107-110 | the resolutions gathered are the summary rows' resolutions, position by position |
| PlotBench.ResolutionsDistinct | scripts/plot_bench.py:105-114 | sorting the de-duplicated resolutions fails exactly when one of them is malformed, and otherwise yields each gathered resolution once |
| PlotBench.RowMeanFinds | scripts/plot_bench.py:107-127 | in a summary with distinct configurations, the bar lookup for a row's filter, build, combination and resolution finds that row's mean |
| PlotBench.RowMeanMissing | scripts/plot_bench.py:127-132 | the bar lookup finds nothing exactly when no summary row has that configuration |
| PlotBench.BarShowsRow | scripts/plot_bench.py:118-135 | every summary row appears as a bar: in the plot of its filter and build, its combination's bar over its resolution has the row's mean as its height |
| PlotBench.BarsTile | scripts/plot_bench.py:122-128 | the bars of one tick, of width 0.8 / max(1, n) and starting at -0.4 + width / 2, stay inside [-0.4, 0.4] and each begins where the previous one ends |
| PlotBench.PlotBenchRun | scripts/plot_bench.py:28-74 | the script exits with status 1 exactly when there are no benchmark files; otherwise it yields the summary of the collected recordings, one row per configuration whose last readable file had a frame time, each with a positive frame count |
| PlotBench.KeyOfName | scripts/plot_bench.py:39-49 | a file name splits into a configuration key whose fields hold no underscore, or is skipped |
| PlotBench.Collect | scripts/plot_bench.py:38-63 | the collected recordings have distinct keys and are no more than the files |
| PlotBench.RowMean | scripts/plot_bench.py:108-127 | the mean plotted for a configuration is that of the last summary row with its key, or missing when no row has that key |
| PlotBench.BarHeights | scripts/plot_bench.py:127-132 | each bar is the mean of some summary row for its resolution, or 0 when no row has that resolution |
| AnalyzeSummary.NormalizeTransforms | scripts/analyze_summary.py:14-23 | the normalised transforms value is lower case; "off", "cpu" and "gpu" are chosen by the first of them the lower-cased value contains, in that priority |
| AnalyzeSummary.NormalizeTransformsIdempotent | scripts/analyze_summary.py:14-23 | normalising an already normalised transforms value leaves it unchanged |
| AnalyzeSummary.Stats | scripts/analyze_summary.py:26-33 | the stats are absent exactly when some row's mean does not parse as a float; otherwise they have distinct (filter, build, resolution, backend) keys and map each key to the mean of the last row carrying it, and hold no key that no row carries |
| AnalyzeSummary.LastMeanPairs | scripts/analyze_summary.py:27-33 | the last row's mean for a key equals the last value stored for that key among the (key, mean) pairs written in row order |
| AnalyzeSummary.ChangeOf | scripts/analyze_summary.py:50-93 | a change keeps both means, its delta takes the base to the other mean, its percentage is the delta as a percentage of a non-zero base and 0 for a zero base, and for a positive base it is positive exactly when the other mean is larger |
| AnalyzeSummary.Cells | scripts/analyze_summary.py:40-45 | the (filter, build, resolution) cells are exactly those of the stats' keys, each once |
| AnalyzeSummary.CellOrder | scripts/analyze_summary.py:40-45 | ordering cells by filter, then build as strings, then resolution by numeric width and height is total and transitive |
| AnalyzeSummary.CellTransitive | scripts/analyze_summary.py:40-45 | the cell order is transitive |
| AnalyzeSummary.CpuGpuTable | scripts/analyze_summary.py:40-54 | the CPU/GPU table is absent exactly when some resolution of the stats does not parse; otherwise it has one line for each cell measured by both "cpu" and "gpu" and no other, in cell order, each comparing the GPU mean against the CPU mean |
| AnalyzeSummary.CpuGpuLines | scripts/analyze_summary.py:40-54 | when every resolution parses, the lines cover exactly the cells both backends measured, each once, in cell order, each with that cell's change |
| AnalyzeSummary.MeasuredCells | scripts/analyze_summary.py:40-49 | the sorted cells that survive the skip are exactly those both backends measured, each once, in cell order |
| AnalyzeSummary.CellsResolutions | scripts/analyze_summary.py:42-45 | some cell has an unparseable resolution exactly when some stats key does |
| AnalyzeSummary.CpuGpuCover | scripts/analyze_summary.py:46-49 | a cell measured by both backends is one of the stats' cells, so filtering the cells loses none of them |
| AnalyzeSummary.Groups | scripts/analyze_summary.py:61-62 | the (filter, build) groups are exactly those of the stats' keys, each once |
| AnalyzeSummary.GroupOrder | scripts/analyze_summary.py:61-62 | ordering groups by filter, then build, is total and transitive |
| AnalyzeSummary.ResolutionEffect | scripts/analyze_summary.py:61-72 | the resolution-effect table has a line for a group and backend exactly when the backend is "cpu" or "gpu" and both 1024x768 and 2048x1536 were measured; each line compares the larger size's mean against the smaller's, in group order with "cpu" before "gpu" |
| AnalyzeSummary.SizeLinesFacts | scripts/analyze_summary.py:61-72 | the lines for a sorted list of distinct groups are exactly the measured (group, backend) pairs, each line with its change, in table order |
| AnalyzeSummary.SizeLinesSound | scripts/analyze_summary.py:63-67 | every line belongs to a listed group, names "cpu" or "gpu", and has both sizes measured, with that group's change |
| AnalyzeSummary.SizeLinesComplete | scripts/analyze_summary.py:63-67 | every listed group and backend with both sizes measured gets a line |
| AnalyzeSummary.HeadLine | scripts/analyze_summary.py:63-67 | a group's own lines include each backend measured at both sizes |
| AnalyzeSummary.SizeLinesOrdered | scripts/analyze_summary.py:61-63 | the lines follow the group order, "cpu" before "gpu" within a group |
| AnalyzeSummary.SumBelow | scripts/analyze_summary.py:90-91 | a sum of values each at most m is at most the count times m |
| AnalyzeSummary.SumAbove | scripts/analyze_summary.py:90-91 | a sum of values each at least m is at least the count times m |
| AnalyzeSummary.MinIndex | scripts/analyze_summary.py:90-91 | the index of a value no larger than any other |
| AnalyzeSummary.MaxIndex | scripts/analyze_summary.py:90-91 | the index of a value no smaller than any other |
| AnalyzeSummary.MeanWithin | scripts/analyze_summary.py:90-91 | a build mean lies between the smallest and the largest of its values |
| AnalyzeSummary.BuildValues | scripts/analyze_summary.py:80-87 | a filter and build have values exactly when the stats hold a key for them at some resolution and backend |
| AnalyzeSummary.Filters | scripts/analyze_summary.py:79 | the filters are exactly those of the stats' keys, each once |
| AnalyzeSummary.BuildEffect | scripts/analyze_summary.py:79-94 | the build-effect table has one line per filter measured in both "build-debug" and "build-release" and no other, in string order, each comparing the release mean against the debug mean over all of the build's resolutions and backends |
| AnalyzeSummary.ComparedFilters | scripts/analyze_summary.py:79-89 | the filters kept are exactly those measured in both builds, each once, in string order |
| AnalyzeSummary.FilterSorted | scripts/analyze_summary.py:79-89 | skipping filters of a sorted list of distinct filters leaves the rest sorted |
| AnalyzeSummary.Analyze | scripts/analyze_summary.py:8-94 | the three tables are produced exactly when every row's mean parses as a float and every row's resolution parses as width "x" height, otherwise the script raises; the tables produced are the CPU/GPU, resolution-effect and build-effect tables of the stats the rows give |
| AnalyzeSummary.StatsResolutions | scripts/analyze_summary.py:27-45 | the stats hold an unparseable resolution exactly when some row does |
| AnalyzeSummary.LastMeanRow | scripts/analyze_summary.py:27-33 | a key with a mean comes from some row carrying that key |
| AnalyzeSummary.LastMeanFound | scripts/analyze_summary.py:27-33 | when every mean parses, every row's key has a mean in the stats |
| PlotAgg.Clean | scripts/plot_agg.py:32-34 | cleaning leaves filter and backend names that stripping no longer changes, and keeps the mean cell |
| PlotAgg.NormalizeBackend | scripts/plot_agg.py:73-80 | the backend group is a name that lower-casing and stripping leave unchanged |
| PlotAgg.FoldedPlain | scripts/plot_agg.py:73-80 | a name with no upper-case letter and no whitespace folds to itself, so the literal groups "cpu" and "gpu" are folded names |
| PlotAgg.FoldedFixed | scripts/plot_agg.py:73 | lower-casing and stripping a folded name changes nothing |
| PlotAgg.LowerStrip | scripts/plot_agg.py:73 | stripping a lower-case name leaves it lower-case |
| PlotAgg.NormalizeBackendIdempotent | scripts/plot_agg.py:73-80 | normalising the group of a backend name gives the same group |
| PlotAgg.BackendTokens | scripts/plot_agg.py:73-80 | a folded name mentioning "cpu" falls in group "cpu"; one mentioning "gpu" but not "cpu" falls in "gpu"; any other keeps its folded name |
| PlotAgg.Emit | scripts/plot_agg.py:113-137 | a level's lines name each group once and no other, in string order, each with the group's count, mean and sample deviation or 0.0 for a single value; the counts add up to the number of grouped values (see also lines 45-50, 150-159) |
| PlotAgg.EmitFacts | scripts/plot_agg.py:115-159 | lines made one per item of a sorted copy of the groups (same keys, same values, same total) are one per group, each describing its group, covering exactly the groups' keys, each once, in string order, with counts adding up to the number of grouped values |
| PlotAgg.CountSumSizes | scripts/plot_agg.py:123-157 | the counts column of a level adds up to the total number of values in its groups |
| PlotAgg.GroupedCount | scripts/plot_agg.py:71-85 | whatever the key, grouping keeps every row whose mean parses, exactly once, and no other row (see also lines 37-43, 140-149) |
| PlotAgg.Level | scripts/plot_agg.py:71-92 | one level's lines describe the groups of the rows by its key, in string order, with one line per key that has a parsed mean and distinct keys, and count every row whose mean parses exactly once (see also lines 37-50, 140-159) |
| PlotAgg.Aggregated | scripts/plot_agg.py:37-159 | the filter, backend and filter-backend levels each describe their own grouping of the rows, cover exactly the keys with a parsed mean without repeating one, and each counts the same rows: those whose mean parses |
| PlotAgg.GroupLines | scripts/plot_agg.py:71-85 | the values of a group are the parseable means of the rows with that key, in row order, and a key is a group exactly when some such row exists (see also lines 37-43, 140-149) |
| PlotAgg.PlotAgg | scripts/plot_agg.py:21-159 | the script exits with status 1 exactly when the summary is missing; otherwise its result is the three-level aggregation of the summary rows with their fields stripped |
| PlotAgg.Cleaned | scripts/plot_agg.py:32-34 | cleaning keeps one row per summary row, each the stripped row |
| Report.Get | scripts/plot_bench.py:127 | a lookup finds a value exactly when the key is present, the value is one stored under the key, and with distinct keys it is the one stored under it |
| Report.Put | scripts/plot_bench.py:62-63 | assigning a present key keeps the key order; assigning a new key appends it |
| Report.PutGet | scripts/plot_bench.py:62-63 | after an assignment the keys stay distinct, the key maps to the new value, and every other key keeps its value |
| Report.PutUnique | scripts/plot_bench.py:62 | assignment keeps keys distinct |
| Report.PutAt | scripts/plot_bench.py:62 | the item holding the assigned key holds the new value |
| Report.PutOther | scripts/plot_bench.py:62 | assignment leaves every other key's value unchanged |
| Report.LastValue | scripts/analyze_summary.py:27-33 | the last value of a key exists exactly when some pair carries the key, and is one of that key's pairs |
| Report.FromPairsLast | scripts/analyze_summary.py:27-33 | assigning pairs in turn keeps keys distinct and leaves each key with the value of its last pair |
| Report.Distinct | scripts/plot_bench.py:105-110 | de-duplicating keeps exactly the values of the input, each once |
| Report.Filter | scripts/analyze_summary.py:88-89 | filtering keeps exactly the elements that satisfy the test, and keeps distinct elements distinct |
| Report.GroupContents | scripts/plot_agg.py:37-43 | appending rows to a `defaultdict(list)` gives distinct keys, each group holding the values of its rows in row order, and a key exactly when some row with a value has it |
| Report.GroupBy | scripts/plot_agg.py:37-43 | grouping gives distinct keys, no more groups than rows and no empty group |
| Report.PutNonEmpty | scripts/plot_agg.py:43 | appending to a group keeps every group non-empty and adds at most one group |
| Report.PutSize | scripts/plot_agg.py:43 | replacing a group changes the total number of values by the difference in the group's size |
| Report.TotalSizeConcat | scripts/plot_agg.py:150 | the total of concatenated groups is the sum of the totals |
| Report.TotalSizeRemove | scripts/plot_agg.py:150 | removing one group takes its size off the total |
| Report.TotalSizeReordered | scripts/plot_agg.py:150 | reordering the groups keeps the total |
| Report.ReorderedUnique | scripts/plot_bench.py:67 | a reordering of a dictionary with distinct keys has distinct keys |
| Report.GroupCount | scripts/plot_agg.py:37-43 | every row with a value lands in exactly one group, so the total number of grouped values is the number of such rows |
| Report.ItemOrder | scripts/plot_agg.py:150 | ordering items by string key is total and transitive |
| Report.ReorderedItems | scripts/plot_agg.py:150 | a reordering of a dictionary with distinct keys holds the same keys, each item with the dictionary's value for its key |
| Report.SortedItems | scripts/plot_agg.py:150 | `sorted(d.items())` is a permutation of the items in string order of keys |
| Report.ResolutionKeyName | scripts/plot_bench.py:112-114 | a resolution name printed as width "x" height reads back as (width, height) |
| Report.ResolutionKey | scripts/plot_bench.py:112-114 | a resolution without an "x" has no sort key |
| Report.ResolutionOrder | scripts/plot_bench.py:112-114 | ordering resolutions by numeric (width, height) is total and transitive |
| Report.SortResolutions | scripts/plot_bench.py:112-114 | sorting resolutions fails exactly when one has no "x" or a non-integer side; otherwise it is a permutation in numeric (width, height) order |
| Report.SortedResolutions | scripts/plot_bench.py:112-114 | resolutions sorted by their keys with missing keys read as (0, 0) are sorted by their keys when every key exists |
| Sorting.Insert | scripts/plot_bench.py:67 | inserting into a sorted list keeps it sorted and adds exactly the new element |
| Sorting.Sort | scripts/plot_bench.py:67 | `sorted` returns a permutation of its input in order |
| Sorting.SortDistinct | scripts/analyze_summary.py:40 | sorting distinct values keeps them distinct and keeps the same values |
| Sorting.RepeatCount | scripts/analyze_summary.py:40 | a value at two positions occurs at least twice |
| Sorting.DistinctCount | scripts/analyze_summary.py:40 | a value occurs at most once in a list of distinct values |
| Sorting.StringLeTotal | scripts/analyze_summary.py:40 | any two strings are comparable |
| Sorting.StringLeTransitive | scripts/analyze_summary.py:40 | string order is transitive |
| Sorting.StringLeAntisymmetric | scripts/analyze_summary.py:40 | strings ordered both ways are equal |
| Sorting.StringOrder | scripts/analyze_summary.py:40-41 | Python string order is a total order |
| Sorting.PairOrder | scripts/plot_bench.py:112-114 | tuple order on (width, height) is total and transitive |
| Sorting.TupleLeTotal | scripts/plot_bench.py:67 | any two tuples of strings are comparable |
| Sorting.TupleLeTransitive | scripts/plot_bench.py:67 | tuple order on strings is transitive |
| Text.LowerChar | scripts/plot_agg.py:73 | lower-casing a character yields no upper-case letter, moves an upper-case ASCII letter by 32 and leaves every other character |
| Text.ToLower | scripts/analyze_summary.py:15 | lower-casing a string keeps its length and lower-cases each character |
| Text.ToLowerIdempotent | scripts/analyze_summary.py:15 | lower-casing twice is lower-casing once, and leaves no upper-case letter |
| Text.LeadingSpace | scripts/plot_agg.py:33-34 | the count of leading whitespace stops at the first non-whitespace character |
| Text.TrailingSpace | scripts/plot_agg.py:33-34 | the count of trailing whitespace stops at the last non-whitespace character |
| Text.Strip | scripts/plot_agg.py:33-34 | a stripped string is an infix of the input with whitespace only before and after it, and it neither starts nor ends with whitespace |
| Text.StripIdempotent | scripts/plot_agg.py:33-34 | stripping twice is stripping once |
| Text.FindChar | scripts/plot_bench.py:40 | the position found is the first occurrence of the separator, or the end when there is none |
| Text.Split | scripts/plot_bench.py:40 | splitting yields at least one part and no part holds the separator |
| Text.JoinSplit | scripts/plot_bench.py:40 | joining the parts of a split with the separator gives the original string |
| Text.SplitJoin | scripts/plot_bench.py:40 | splitting the join of separator-free parts gives the parts back |
| Text.FindCharPrefix | scripts/plot_bench.py:40 | the first separator in a separator-free prefix followed by a separator is at the prefix's end |
| Text.RemoveAll | scripts/plot_bench.py:39 | removing occurrences never lengthens the string |
| Text.RemoveAllSuffix | scripts/plot_bench.py:39 | appending ".csv" to a name that holds no "." and then removing every ".csv" gives the name back |
| Decimal.DigitChar | Webcam/webcamQuad.cpp:705 | a digit below ten prints as a decimal digit character |
| Decimal.NatToString | Webcam/webcamQuad.cpp:705 | the printed number is a non-empty run of digits without a leading zero |
| Decimal.DigitRun | Webcam/webcamQuad.cpp:177-181 | the digit run is the longest all-digit prefix |
| Decimal.DigitRunOfDigits | Webcam/webcamQuad.cpp:177-181 | the digit run of digits followed by a non-digit ends at the non-digit |
| Decimal.PyIntPrinted | scripts/plot_bench.py:113 | Python's `int` reads back a printed non-negative number |
| Decimal.PyInt | scripts/plot_bench.py:113 | Python's `int` gives a non-negative number unless the stripped text starts with '-' |
| Decimal.PyIntUnderscore | scripts/plot_bench.py:113 | an underscore between two digit runs is accepted and does not change the number |
| Decimal.PyIntDoubleUnderscore | scripts/plot_bench.py:113 | two underscores in a row make Python's `int` fail |
| Decimal.PyIntDigits | scripts/plot_bench.py:113 | a plain run of digits reads as its decimal value |

## Left out

- OpenCV algorithms are not modelled. This covers chessboard detection, corner refinement, `solvePnP`, `Rodrigues`, `projectPoints` and `cv::line`; `cvtColor` weights and `Canny` are function parameters. `warpAffine` resampling and `cv::mean` rounding are also out. The model records which call is made on which image and which matrix is passed, not the pixels that come out.
- The webcam viewer's start-up is not modelled: the camera-open check (Webcam/webcamQuad.cpp:186-190) and the window and GL loader checks that exit with -1 come before the render loop, and the model starts at the loop. For the camera and AR programs these failures are one `started` input.
- GL, GLFW and GLAD plumbing is not modelled: windows, contexts, shader compilation, texture and buffer uploads, and uniform uploads. An upload is a call in the trace; the UV matrix is modelled up to the value passed to the uniform.
- `Cube::render` is not modelled. `Cube::setTransform` is also out, because it depends on `Object::addTransform`, which is not part of this model.
- Float rounding, `powf` and the trigonometric functions are not modelled. Arithmetic is exact over `real`, and trigonometry enters as parameters; the only float behaviour kept is the 1e-6 guards of the frame pipeline. No claim is bit-exact.
- Timing, console output, CSV and PNG writing, and the benchmark's mean and deviation summary (Webcam/webcamQuad.cpp:736-750) are left out as observation and I/O. The `.2f` and `.6f` number formatting of the scripts is out for the same reason.
- matplotlib, `glob`, `os.path` and file reading are not modelled. A benchmark file is its path, base name and already-parsed CSV rows, and a missing `summary.csv` is `None`.
- AnalyzeSummary.Analyze: its rows carry every header column as a string. A `csv.DictReader` row shorter than the header has `None` cells, and a header without a column gives `KeyError`; either makes the script raise before any output (scripts/analyze_summary.py:9-15). Such malformed files are not modelled.
- PlotAgg.PlotAgg: likewise its rows carry the filter, backend and mean columns as strings, so a short row or a missing column, on which `strip()` or the lookup raises (scripts/plot_agg.py:27-34), is not modelled.
- The order in which `glob` lists files is not modelled: the scripts sort it, and the model takes the files in the given order.
- The values of `statistics.mean` and `statistics.stdev` are parameters. `AnalyzeSummary` computes its own build mean as sum over count, as the script does.
- scripts/plot_ar_metrics.py and scripts/analyze_detailed.py are not part of this model: they only average floats and plot. The imgui OpenGL loader header is not part of this model: it only selects a loader at compile time.
- Text.LowerChar: Python's `str.lower` acts on all of Unicode; the model lower-cases ASCII letters only. The benchmark file names and CSV cells are ASCII.
- Text.ToLower: lower-cases ASCII letters only, for the same reason as `Text.LowerChar`.
- Text.Strip: Python's `str.strip` removes all Unicode whitespace; the model strips ASCII whitespace only.
- Decimal.PyInt: Python's `int` also accepts non-ASCII Unicode decimal digits. The model accepts ASCII digits only, with single underscores between them; the resolution names are ASCII.
- AnalyzeSummary.Analyze: the script prints the table lines before the line that raises, and those lines are lost in the model. Any exception is modelled as `None`, with no partial output.
- AnalyzeSummary.BuildEffect: the order in which the nested dictionaries hand values to the build means is not stated. Each mean is a sum over a count, so only float rounding could depend on that order.
- AnalyzeSummary.NormalizeTransforms: the script stores the normalised value in `transforms_norm` and never reads it. The model states its value and leaves its use out.
- Report.SortResolutions: does not state Python's stable order among distinct resolution strings with the same numeric key (such as "0800x600" and "800x600"). It states only the numeric ordering and that the result is a permutation.
- AnalyzeSummary.MeasuredCells: does not state Python's stable order among cells of one filter and build whose distinct resolution strings have the same numeric key (such as "0800x600" and "800x600"); the script keeps those in dictionary order. It states the cell order, distinctness and the cover.
- AnalyzeSummary.CpuGpuTable: the CPU/GPU lines inherit the same gap, since they follow `AnalyzeSummary.MeasuredCells`.
- Sorting.Sort: does not state stability. It states the order and that the result is a permutation; ties under the orders used here are equal values, except for the numeric resolution order used by `Report.SortResolutions` and by `AnalyzeSummary.MeasuredCells` and `AnalyzeSummary.CpuGpuTable`.
- PlotBench.BarsTile: states the geometry of the bars of one tick. The assignment of bar positions to combination keys follows their sorted order; that assignment, legend labels and the iteration order of plots are out as presentation.
- WebcamCli.BenchmarkRows: the rows omit the measured frame time and the detailed per-stage timings, which are clock readings. The window closing is modelled by the number of iterations given as input.
