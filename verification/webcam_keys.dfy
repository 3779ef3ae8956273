/** The webcam viewer's keyboard handling and one iteration of its render
    loop. Ten keys are watched; a key's action runs on the frame where it is
    down and was up on the previous frame. Filter keys choose the filter mode
    and the quad's shader, T and C toggle the transform flags, R resets the
    view. The key poll runs after this iteration's capture, so a CPU filter
    key filters the captured frame at once and the pipeline then filters it
    again under the new mode. */
module WebcamKeys {
  import opened Wrappers
  import opened Frames
  import opened Transforms
  import opened WebcamView
  import opened WebcamFrame

  /** The watched keys, in the order the loop polls them. */
  datatype Key = Key1 | Key2 | Key3 | Key4 | KeyG | KeyE | KeyP | KeyT | KeyC | KeyR

  const WatchedKeys: seq<Key> := [Key1, Key2, Key3, Key4, KeyG, KeyE, KeyP, KeyT, KeyC, KeyR]

  /** The shader installed on the video quad: the plain texture shader or a
      fragment shader file. */
  datatype Shader = DefaultShader | FragShader(path: string)

  const GrayShaderPath: string := "gpu_grayscale.frag"
  const EdgeShaderPath: string := "gpu_edge.frag"
  const PixelateShaderPath: string := "gpu_pixelate.frag"

  /** The state the key handlers read and write. */
  datatype Viewer = Viewer(mode: FilterMode, shader: Shader, flags: Flags, view: View)

  /** The filter mode a key selects, if it is a filter key. */
  function KeyMode(k: Key): Option<FilterMode> {
    match k
    case Key1 => Some(NoFilter)
    case Key2 => Some(CpuGray)
    case Key3 => Some(CpuEdge)
    case Key4 => Some(CpuPixelate)
    case KeyG => Some(GpuGray)
    case KeyE => Some(GpuEdge)
    case KeyP => Some(GpuPixelate)
    case _ => None
  }

  /** The shader a filter key installs: the default one for no filter and for
      CPU filters, the mode's fragment shader for GPU filters. */
  function ModeShader(m: FilterMode): (sh: Shader)
    ensures sh.FragShader? <==> IsGpuMode(m)
  {
    match m
    case GpuGray => FragShader(GrayShaderPath)
    case GpuEdge => FragShader(EdgeShaderPath)
    case GpuPixelate => FragShader(PixelateShaderPath)
    case _ => DefaultShader
  }

  /** The common tail of the T and C handlers: install the transform shader
      when transforms are on in GPU mode, otherwise remove it if it was
      installed. */
  function Resync(f: Flags, sh: Shader): (r: (Flags, Shader))
    ensures GpuConsistent(r.0)
    ensures r.0.enabled == f.enabled && r.0.useCPU == f.useCPU
    ensures r.0.gpuActive ==> r.1 == FragShader(TransformShaderPath)
    ensures !r.0.gpuActive && f.gpuActive ==> r.1 == DefaultShader
    ensures !r.0.gpuActive && !f.gpuActive ==> r.1 == sh
  {
    if f.enabled && !f.useCPU then (f.(gpuActive := true), FragShader(TransformShaderPath))
    else if f.gpuActive then (f.(gpuActive := false), DefaultShader)
    else (f, sh)
  }

  /** The handler of a freshly pressed key: the new state and the filter
      calls it makes on the captured frame. */
  function OnPress(st: Viewer, k: Key): (r: (Viewer, seq<FrameOp>))
    ensures KeyMode(k).Some? ==>
              && r.0.mode == KeyMode(k).value && r.0.shader == ModeShader(r.0.mode)
              && r.0.flags == st.flags && r.0.view == st.view
              && r.1 == FilterOps(r.0.mode)
    ensures KeyMode(k).None? ==> r.0.mode == st.mode && r.1 == []
    ensures k == KeyT ==> r.0.flags.enabled == !st.flags.enabled && r.0.flags.useCPU == st.flags.useCPU
    ensures k == KeyC ==> r.0.flags.useCPU == !st.flags.useCPU && r.0.flags.enabled == st.flags.enabled
    ensures k == KeyT || k == KeyC ==> GpuConsistent(r.0.flags) && r.0.view == st.view && r.0.mode == st.mode
    ensures k == KeyT ==> (r.0.flags, r.0.shader) == Resync(st.flags.(enabled := !st.flags.enabled), st.shader)
    ensures k == KeyC ==> (r.0.flags, r.0.shader) == Resync(st.flags.(useCPU := !st.flags.useCPU), st.shader)
    ensures k == KeyR ==>
              && r.0.view == st.view.(translateU := 0.0, translateV := 0.0, scale := 1.0, rotation := 0.0)
              && r.0.flags == st.flags && r.0.shader == st.shader
  {
    match k
    case KeyT =>
      var f := st.flags.(enabled := !st.flags.enabled);
      var (f', sh) := Resync(f, st.shader);
      (st.(flags := f', shader := sh), [])
    case KeyC =>
      var f := st.flags.(useCPU := !st.flags.useCPU);
      var (f', sh) := Resync(f, st.shader);
      (st.(flags := f', shader := sh), [])
    case KeyR =>
      (st.(view := st.view.(translateU := 0.0, translateV := 0.0, scale := 1.0, rotation := 0.0)), [])
    case _ =>
      var m := KeyMode(k).value;
      (st.(mode := m, shader := ModeShader(m)), FilterOps(m))
  }

  /** Every handler keeps the GPU flag invariant: T and C re-establish it and
      the other keys do not touch the flags. */
  lemma OnPressConsistent(st: Viewer, k: Key)
    requires GpuConsistent(st.flags)
    ensures GpuConsistent(OnPress(st, k).0.flags)
  {
  }

  /** Only R changes the view, and only the translation, scale and rotation. */
  lemma OnPressKeepsPivot(st: Viewer, k: Key)
    ensures var v := OnPress(st, k).0.view;
            v.pivotU == st.view.pivotU && v.pivotV == st.view.pivotV && v.dragging == st.view.dragging
    ensures k != KeyR ==> OnPress(st, k).0.view == st.view
  {
  }

  /** A GPU filter key replaces the installed shader even while the GPU
      transform shader is active, and leaves the flag saying it is active:
      the flag and the quad's shader disagree until T or C is pressed. */
  lemma FilterKeyDropsTransformShader(st: Viewer, k: Key)
    requires st.flags.gpuActive && KeyMode(k).Some?
    ensures OnPress(st, k).0.flags.gpuActive
    ensures OnPress(st, k).0.shader != FragShader(TransformShaderPath)
  {
    assert TransformShaderPath != GrayShaderPath;
    assert TransformShaderPath != EdgeShaderPath;
    assert TransformShaderPath != PixelateShaderPath;
  }

  /** The key poll of one frame: each key whose state went from up to down
      runs its handler in turn; the result is the new state, the filter calls
      made on the frame and the key states to remember. */
  function Poll(st: Viewer, keys: seq<Key>, prev: seq<bool>, cur: seq<bool>): (r: (Viewer, seq<FrameOp>, seq<bool>))
    requires |keys| == |prev| == |cur|
    ensures r.2 == cur
    decreases |keys|
  {
    if |keys| == 0 then (st, [], [])
    else
      var (st1, ops1) := if cur[0] && !prev[0] then OnPress(st, keys[0]) else (st, []);
      var rest := Poll(st1, keys[1..], prev[1..], cur[1..]);
      assert cur == [cur[0]] + cur[1..];
      (rest.0, ops1 + rest.1, [cur[0]] + rest.2)
  }

  /** A key is freshly pressed at `i`. */
  predicate Fresh(prev: seq<bool>, cur: seq<bool>, i: int)
    requires |prev| == |cur| && 0 <= i < |cur|
  {
    cur[i] && !prev[i]
  }

  /** With no freshly pressed key the poll changes nothing and makes no call. */
  lemma {:induction false} PollIdle(st: Viewer, keys: seq<Key>, prev: seq<bool>, cur: seq<bool>)
    requires |keys| == |prev| == |cur|
    requires forall i :: 0 <= i < |cur| ==> !Fresh(prev, cur, i)
    ensures Poll(st, keys, prev, cur).0 == st
    ensures Poll(st, keys, prev, cur).1 == []
    decreases |keys|
  {
    if |keys| > 0 {
      assert !Fresh(prev, cur, 0);
      forall i | 0 <= i < |cur| - 1
        ensures !Fresh(prev[1..], cur[1..], i)
      {
        assert !Fresh(prev, cur, i + 1);
      }
      PollIdle(st, keys[1..], prev[1..], cur[1..]);
    }
  }

  /** Holding keys down fires each of them once: the poll of the next frame
      with the same key states does nothing. */
  lemma HoldFiresOnce(st: Viewer, st2: Viewer, keys: seq<Key>, prev: seq<bool>, cur: seq<bool>)
    requires |keys| == |prev| == |cur|
    ensures var remembered := Poll(st, keys, prev, cur).2;
            Poll(st2, keys, remembered, cur).0 == st2 && Poll(st2, keys, remembered, cur).1 == []
  {
    PollIdle(st2, keys, cur, cur);
  }

  /** The poll keeps the GPU flag invariant. */
  lemma {:induction false} PollConsistent(st: Viewer, keys: seq<Key>, prev: seq<bool>, cur: seq<bool>)
    requires |keys| == |prev| == |cur|
    requires GpuConsistent(st.flags)
    ensures GpuConsistent(Poll(st, keys, prev, cur).0.flags)
    decreases |keys|
  {
    if |keys| > 0 {
      var st1 := if cur[0] && !prev[0] then OnPress(st, keys[0]).0 else st;
      if cur[0] && !prev[0] {
        OnPressConsistent(st, keys[0]);
      }
      PollConsistent(st1, keys[1..], prev[1..], cur[1..]);
    }
  }

  /** One iteration of the render loop after the capture: the key poll, then
      the frame pipeline under the state the poll leaves, on the frame as the
      key handlers left it. */
  function Iteration(st: Viewer, prev: seq<bool>, cur: seq<bool>, s: Shape,
                     cosd: real -> real, sind: real -> real): (r: (Viewer, seq<FrameOp>, seq<bool>))
    requires |prev| == |cur| == |WatchedKeys|
    ensures var p := Poll(st, WatchedKeys, prev, cur);
            && r.0 == p.0
            && r.1 == p.1 + Pipeline(ShapeAfter(p.1, s), p.0.mode, p.0.flags, p.0.view, cosd, sind)
    ensures r.2 == cur
  {
    PollThenPipeline(st, WatchedKeys, prev, cur, s, cosd, sind)
  }

  /** The key poll over `keys`, then the pipeline of the frame the handlers
      left, under the state the poll leaves. */
  function PollThenPipeline(st: Viewer, keys: seq<Key>, prev: seq<bool>, cur: seq<bool>, s: Shape,
                            cosd: real -> real, sind: real -> real): (r: (Viewer, seq<FrameOp>, seq<bool>))
    requires |keys| == |prev| == |cur|
    ensures var p := Poll(st, keys, prev, cur);
            && r.0 == p.0
            && |r.1| >= |p.1| && r.1[..|p.1|] == p.1
            && r.1[|p.1|..] == Pipeline(ShapeAfter(p.1, s), p.0.mode, p.0.flags, p.0.view, cosd, sind)
    ensures r.2 == cur
  {
    var p := Poll(st, keys, prev, cur);
    var s1 := ShapeAfter(p.1, s);
    (p.0, p.1 + Pipeline(s1, p.0.mode, p.0.flags, p.0.view, cosd, sind), p.2)
  }

  /** Every loop iteration keeps the GPU flag invariant. */
  lemma IterationConsistent(st: Viewer, prev: seq<bool>, cur: seq<bool>, s: Shape,
                            cosd: real -> real, sind: real -> real)
    requires |prev| == |cur| == |WatchedKeys|
    requires GpuConsistent(st.flags)
    ensures GpuConsistent(Iteration(st, prev, cur, s, cosd, sind).0.flags)
  {
    PollConsistent(st, WatchedKeys, prev, cur);
  }

  /** Key states with only the key at position `i` down. */
  function OnlyDown(i: nat): (cur: seq<bool>)
    ensures |cur| == |WatchedKeys|
    ensures forall j :: 0 <= j < |cur| ==> (cur[j] <==> j == i)
  {
    seq(|WatchedKeys|, j => j == i)
  }

  /** When exactly one key is freshly pressed, the poll is that key's
      handler. */
  lemma {:induction false} PollSingle(st: Viewer, keys: seq<Key>, prev: seq<bool>, cur: seq<bool>, i: nat)
    requires |keys| == |prev| == |cur| && i < |keys|
    requires forall j :: 0 <= j < |cur| ==> (Fresh(prev, cur, j) <==> j == i)
    ensures Poll(st, keys, prev, cur).0 == OnPress(st, keys[i]).0
    ensures Poll(st, keys, prev, cur).1 == OnPress(st, keys[i]).1
    decreases |keys|
  {
    assert Fresh(prev, cur, i);
    forall j | 0 <= j < |cur| - 1
      ensures Fresh(prev[1..], cur[1..], j) <==> Fresh(prev, cur, j + 1)
    {
    }
    if i == 0 {
      var (st1, ops1) := OnPress(st, keys[0]);
      PollIdle(st1, keys[1..], prev[1..], cur[1..]);
      assert ops1 + [] == ops1;
    } else {
      assert !Fresh(prev, cur, 0);
      PollSingle(st, keys[1..], prev[1..], cur[1..], i - 1);
      assert [] + OnPress(st, keys[i]).1 == OnPress(st, keys[i]).1;
    }
  }

  /** A fresh press of the key at position `i` alone runs that key's
      handler, whatever the other keys' previous states. */
  lemma PollOnlyDown(st: Viewer, keys: seq<Key>, prev: seq<bool>, i: nat)
    requires |keys| == |prev| == |WatchedKeys| && i < |keys| && !prev[i]
    ensures Poll(st, keys, prev, OnlyDown(i)).0 == OnPress(st, keys[i]).0
    ensures Poll(st, keys, prev, OnlyDown(i)).1 == OnPress(st, keys[i]).1
  {
    var cur := OnlyDown(i);
    forall j | 0 <= j < |cur|
      ensures Fresh(prev, cur, j) <==> j == i
    {
    }
    PollSingle(st, keys, prev, cur, i);
  }

  /** Keys 2, 3 and 4 select the CPU filter modes. */
  lemma CpuKeys(i: nat)
    requires 1 <= i <= 3
    ensures i < |WatchedKeys| && KeyMode(WatchedKeys[i]).Some?
    ensures IsCpuMode(KeyMode(WatchedKeys[i]).value)
  {
  }

  /** In a CPU filter mode the pipeline of a non-empty frame starts with the
      mode's filter. */
  lemma CpuPipelineFirst(s: Shape, m: FilterMode, f: Flags, v: View, cosd: real -> real, sind: real -> real)
    requires !IsEmpty(s) && IsCpuMode(m)
    ensures var r := Pipeline(s, m, f, v, cosd, sind);
            |r| > 0 && r[0] == FilterOps(m)[0]
  {
    ProcessingParts(s, m, f, v, cosd, sind);
  }

  /** Pressing 2, 3 or 4 on a non-empty frame runs that CPU filter twice in
      the same iteration: once in the key handler and once in the pipeline. */
  lemma CpuKeyFiltersTwice(st: Viewer, prev: seq<bool>, i: nat, s: Shape, cosd: real -> real, sind: real -> real)
    requires |prev| == |WatchedKeys| && 1 <= i <= 3 && !prev[i]
    requires !IsEmpty(s)
    ensures var m := KeyMode(WatchedKeys[i]).value;
            var r := Iteration(st, prev, OnlyDown(i), s, cosd, sind);
            && IsCpuMode(m) && r.0.mode == m
            && |r.1| >= 2 && r.1[0] == FilterOps(m)[0] && r.1[1] == FilterOps(m)[0]
  {
    CpuKeys(i);
    var m := KeyMode(WatchedKeys[i]).value;
    PollOnlyDown(st, WatchedKeys, prev, i);
    var p := Poll(st, WatchedKeys, prev, OnlyDown(i));
    assert p.1 == FilterOps(m) && |p.1| == 1;
    var s1 := ShapeAfter(p.1, s);
    assert s1 == FilteredShape(m, s);
    CpuPipelineFirst(s1, p.0.mode, p.0.flags, p.0.view, cosd, sind);
    FilterThenPipeline(p.1, m, Pipeline(s1, p.0.mode, p.0.flags, p.0.view, cosd, sind));
  }

  lemma FilterThenPipeline(ops: seq<FrameOp>, m: FilterMode, pipe: seq<FrameOp>)
    requires IsCpuMode(m) && ops == FilterOps(m)
    requires |pipe| > 0 && pipe[0] == FilterOps(m)[0]
    ensures |ops + pipe| >= 2 && (ops + pipe)[0] == FilterOps(m)[0] && (ops + pipe)[1] == FilterOps(m)[0]
  {
  }
}
