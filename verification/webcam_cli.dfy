/** The webcam viewer's command line, its benchmark configuration and the
    benchmark's stop rule. Parsing walks the arguments after the program
    name; a flag that takes a value consumes the next argument only when
    there is one. `std::stof` is a parameter (`None` where it throws);
    `std::stoi` is `Decimal.Stoi`. An exception from either ends the program,
    modelled as an `Err`. */
module WebcamCli {
  import opened Wrappers
  import opened Text
  import opened Decimal
  import opened Frames
  import opened Transforms
  import opened WebcamView
  import opened WebcamFrame
  import opened WebcamKeys

  /** The values the command line sets. */
  datatype Options = Options(
    benchmark: bool, out: string, filter: string, backend: string, transforms: string,
    presetU: real, presetV: real, presetScale: real, presetRotation: real,
    targetWidth: int, targetHeight: int, frames: int, detailed: bool)

  const DefaultOptions: Options :=
    Options(false, "benchmark.csv", "none", "gpu", "off", 0.0, 0.0, 1.0, 0.0, 0, 0, 300, false)

  /** The exception that ends the program: a failed `stoi` or `stof`. */
  datatype ArgError = BadInt(arg: string, why: StoiError) | BadFloat(arg: string)

  /** The flags that take a value. */
  predicate IsValueFlag(a: string) {
    a in {"--out", "--filter", "--backend", "--transforms", "--translateU", "--translateV",
          "--scale", "--rotation", "--resolution", "--frames"}
  }

  predicate IsFlag(a: string) {
    IsValueFlag(a) || a == "--benchmark" || a == "--detailed"
  }

  /** `--resolution WxH`: nothing when there is no `x`; otherwise both sides
      go through `stoi`. */
  function ParseResolution(res: string, o: Options): (r: Result<Options, ArgError>)
    ensures 'x' !in res ==> r == Ok(o)
    ensures r.Ok? && 'x' in res ==>
              r.value == o.(targetWidth := r.value.targetWidth, targetHeight := r.value.targetHeight)
  {
    var x := FindChar(res, 'x');
    if x == |res| then
      assert 'x' !in res;
      Ok(o)
    else
      ParseSides(res[..x], res[x + 1..], o)
  }

  /** The two sides of `WxH` through `stoi`, width first. */
  function ParseSides(left: string, right: string, o: Options): (r: Result<Options, ArgError>)
    ensures r.Ok? <==> Stoi(left).Ok? && Stoi(right).Ok?
    ensures r.Ok? ==> r.value == o.(targetWidth := Stoi(left).value, targetHeight := Stoi(right).value)
    ensures Stoi(left).Err? ==> r == Err(BadInt(left, Stoi(left).error))
  {
    match Stoi(left)
    case Err(e) => Err(BadInt(left, e))
    case Ok(w) =>
      match Stoi(right)
      case Err(e) => Err(BadInt(right, e))
      case Ok(h) => Ok(o.(targetWidth := w, targetHeight := h))
  }

  /** A float-valued flag's argument through `stof`. */
  function ParseFloat(arg: string, stof: string -> Option<real>): (r: Result<real, ArgError>)
    ensures r.Ok? <==> stof(arg).Some?
    ensures r.Ok? ==> r.value == stof(arg).value
  {
    match stof(arg)
    case None => Err(BadFloat(arg))
    case Some(v) => Ok(v)
  }

  /** One turn of the argument loop at `args[0]`: the options after it and
      how many arguments it consumed (the flag, and its value for a value
      flag that has one). Only `--benchmark`, `--detailed` and `--out` touch
      their fields. */
  function Step(args: seq<string>, o: Options, stof: string -> Option<real>): (r: Result<(Options, nat), ArgError>)
    requires |args| > 0
    ensures r.Ok? ==> 1 <= r.value.1 <= |args|
    ensures r.Ok? && o.benchmark ==> r.value.0.benchmark
    ensures r.Ok? && args[0] != "--benchmark" ==> r.value.0.benchmark == o.benchmark
    ensures r.Ok? && args[0] != "--detailed" ==> r.value.0.detailed == o.detailed
    ensures r.Ok? && args[0] != "--out" ==> r.value.0.out == o.out
  {
    var a := args[0];
    var more := |args| >= 2;
    if a == "--benchmark" then Ok((o.(benchmark := true), 1))
    else if a == "--out" && more then Ok((o.(out := args[1]), 2))
    else if a == "--filter" && more then Ok((o.(filter := args[1]), 2))
    else if a == "--backend" && more then Ok((o.(backend := args[1]), 2))
    else if a == "--transforms" && more then Ok((o.(transforms := args[1]), 2))
    else if a == "--translateU" && more then
      var v :- ParseFloat(args[1], stof);
      Ok((o.(presetU := v), 2))
    else if a == "--translateV" && more then
      var v :- ParseFloat(args[1], stof);
      Ok((o.(presetV := v), 2))
    else if a == "--scale" && more then
      var v :- ParseFloat(args[1], stof);
      Ok((o.(presetScale := v), 2))
    else if a == "--rotation" && more then
      var v :- ParseFloat(args[1], stof);
      Ok((o.(presetRotation := v), 2))
    else if a == "--resolution" && more then
      var o' :- ParseResolution(args[1], o);
      Ok((o', 2))
    else if a == "--frames" && more then
      match Stoi(args[1])
      case Err(e) => Err(BadInt(args[1], e))
      case Ok(n) => Ok((o.(frames := n), 2))
    else if a == "--detailed" then Ok((o.(detailed := true), 1))
    else Ok((o, 1))
  }

  /** The argument loop from the current argument on. */
  function ParseFrom(args: seq<string>, o: Options, stof: string -> Option<real>): (r: Result<Options, ArgError>)
    ensures r.Ok? && o.benchmark ==> r.value.benchmark
    ensures r.Ok? && "--benchmark" !in args ==> r.value.benchmark == o.benchmark
    ensures r.Ok? && "--detailed" !in args ==> r.value.detailed == o.detailed
    ensures r.Ok? && "--out" !in args ==> r.value.out == o.out
    decreases |args|
  {
    if |args| == 0 then Ok(o)
    else
      match Step(args, o, stof)
      case Err(e) => Err(e)
      case Ok((o', n)) =>
        assert forall x :: x in args[n..] ==> x in args;
        ParseFrom(args[n..], o', stof)
  }

  /** The command line after the program name: no argument leaves the
      defaults, and a flag that never appears keeps its default. */
  function ParseArgs(args: seq<string>, stof: string -> Option<real>): (r: Result<Options, ArgError>)
    ensures args == [] ==> r == Ok(DefaultOptions)
    ensures r.Ok? && "--benchmark" !in args ==> !r.value.benchmark
    ensures r.Ok? && "--detailed" !in args ==> !r.value.detailed
    ensures r.Ok? && "--out" !in args ==> r.value.out == "benchmark.csv"
  {
    ParseFrom(args, DefaultOptions, stof)
  }

  /** A value flag followed by a value sets its field from that value and
      parsing goes on after it. */
  lemma ValueFlagTakesNext(flag: string, value: string, rest: seq<string>, o: Options,
                           stof: string -> Option<real>)
    requires flag in {"--out", "--filter", "--backend", "--transforms"}
    ensures ParseFrom([flag, value] + rest, o, stof)
            == ParseFrom(rest, if flag == "--out" then o.(out := value)
                               else if flag == "--filter" then o.(filter := value)
                               else if flag == "--backend" then o.(backend := value)
                               else o.(transforms := value), stof)
  {
    assert ([flag, value] + rest)[2..] == rest;
  }

  /** A float flag followed by a value ends the program when `stof` rejects
      the value; otherwise it sets its preset to the value read and parsing
      goes on after it. */
  lemma FloatFlagTakesNext(flag: string, value: string, rest: seq<string>, o: Options,
                           stof: string -> Option<real>)
    requires flag in {"--translateU", "--translateV", "--scale", "--rotation"}
    ensures stof(value).None? ==> ParseFrom([flag, value] + rest, o, stof) == Err(BadFloat(value))
    ensures stof(value).Some? ==>
              var v := stof(value).value;
              ParseFrom([flag, value] + rest, o, stof)
              == ParseFrom(rest, if flag == "--translateU" then o.(presetU := v)
                                 else if flag == "--translateV" then o.(presetV := v)
                                 else if flag == "--scale" then o.(presetScale := v)
                                 else o.(presetRotation := v), stof)
  {
    assert ([flag, value] + rest)[2..] == rest;
  }

  /** `--resolution` followed by a value ends the program when `stoi`
      rejects a side of it; otherwise it applies `ParseResolution` and
      parsing goes on after it. */
  lemma ResolutionFlagTakesNext(value: string, rest: seq<string>, o: Options, stof: string -> Option<real>)
    ensures ParseResolution(value, o).Err? ==>
              ParseFrom(["--resolution", value] + rest, o, stof) == Err(ParseResolution(value, o).error)
    ensures ParseResolution(value, o).Ok? ==>
              ParseFrom(["--resolution", value] + rest, o, stof) == ParseFrom(rest, ParseResolution(value, o).value, stof)
  {
    assert (["--resolution", value] + rest)[2..] == rest;
  }

  /** A value flag in last position has nothing to read and is ignored. */
  lemma DanglingFlagIgnored(flag: string, o: Options, stof: string -> Option<real>)
    requires IsValueFlag(flag)
    ensures ParseFrom([flag], o, stof) == Ok(o)
  {
  }

  /** Anything that is not a flag is skipped. */
  lemma UnknownSkipped(a: string, rest: seq<string>, o: Options, stof: string -> Option<real>)
    requires !IsFlag(a)
    ensures ParseFrom([a] + rest, o, stof) == ParseFrom(rest, o, stof)
  {
    assert ([a] + rest)[1..] == rest;
  }

  /** A `--frames` value that `stoi` rejects ends the program. */
  lemma BadFramesFails(value: string, rest: seq<string>, o: Options, stof: string -> Option<real>)
    requires Stoi(value).Err?
    ensures ParseFrom(["--frames", value] + rest, o, stof) == Err(BadInt(value, Stoi(value).error))
  {
    var args := ["--frames", value] + rest;
    assert args[0] == "--frames" && args[1] == value;
    assert Step(args, o, stof) == Err(BadInt(value, Stoi(value).error));
  }

  /** A printed frame count is read back. */
  lemma FramesRoundTrip(n: nat, rest: seq<string>, o: Options, stof: string -> Option<real>)
    requires n <= IntMax
    ensures ParseFrom(["--frames", NatToString(n)] + rest, o, stof) == ParseFrom(rest, o.(frames := n), stof)
  {
    StoiPrinted(n, "");
    assert NatToString(n) + "" == NatToString(n);
    assert (["--frames", NatToString(n)] + rest)[2..] == rest;
  }

  /** The `WxH` text the benchmark writes for a frame: `0x0` for an empty one. */
  function ResolutionString(s: Shape): string {
    var w := if IsEmpty(s) then 0 else s.cols;
    var h := if IsEmpty(s) then 0 else s.rows;
    NatToString(w) + "x" + NatToString(h)
  }

  /** Reading a printed resolution back with `--resolution` gives the numbers
      printed. */
  lemma ResolutionRoundTrip(w: nat, h: nat, o: Options)
    requires w <= IntMax && h <= IntMax
    ensures ParseResolution(NatToString(w) + "x" + NatToString(h), o)
            == Ok(o.(targetWidth := w, targetHeight := h))
  {
    var a := NatToString(w);
    var b := NatToString(h);
    var res := a + "x" + b;
    PrintedSplitsAtX(a, b);
    StoiPrinted(w, "");
    StoiPrinted(h, "");
    assert a + "" == a;
    assert b + "" == b;
    assert ParseResolution(res, o) == ParseSides(a, b, o);
  }

  /** Two digit strings joined by `x` split at the `x` into themselves. */
  lemma PrintedSplitsAtX(a: string, b: string)
    requires AllDigits(a)
    ensures var res := a + "x" + b;
            FindChar(res, 'x') == |a| && res[..|a|] == a && res[|a| + 1..] == b
  {
    var res := a + "x" + b;
    assert 'x' !in a by {
      forall i | 0 <= i < |a| ensures a[i] != 'x' {
        assert IsDigit(a[i]);
      }
    }
    assert res == a + ("x" + b);
    FindCharPrefix(a, "x" + b, 'x');
  }

  /** The viewer's state before the render loop: no filter, default shader,
      transforms off, identity view. */
  const InitialViewer: Viewer := Viewer(NoFilter, DefaultShader, InitialFlags, InitialView)

  predicate IsFilterName(fa: string) {
    fa == "gray" || fa == "edge" || fa == "pixelate"
  }

  /** `--filter`/`--backend` to a filter mode, both lower-cased: the CPU
      variant only for backend `cpu`, the GPU variant for any other backend,
      no filter for `none` or an unknown name. */
  function BenchmarkMode(filter: string, backend: string): (m: FilterMode)
    ensures IsCpuMode(m) <==> IsFilterName(ToLower(filter)) && ToLower(backend) == "cpu"
    ensures IsGpuMode(m) <==> IsFilterName(ToLower(filter)) && ToLower(backend) != "cpu"
    ensures m == NoFilter <==> !IsFilterName(ToLower(filter))
    ensures (m == CpuGray || m == GpuGray) <==> ToLower(filter) == "gray"
    ensures (m == CpuEdge || m == GpuEdge) <==> ToLower(filter) == "edge"
    ensures (m == CpuPixelate || m == GpuPixelate) <==> ToLower(filter) == "pixelate"
  {
    var fa := ToLower(filter);
    var cpu := ToLower(backend) == "cpu";
    if fa == "none" then NoFilter
    else if fa == "gray" then (if cpu then CpuGray else GpuGray)
    else if fa == "edge" then (if cpu then CpuEdge else GpuEdge)
    else if fa == "pixelate" then (if cpu then CpuPixelate else GpuPixelate)
    else NoFilter
  }

  /** `--transforms`: `cpu` and `gpu` (compared as given) turn transforms on
      in that mode, the GPU one installing the transform shader; anything
      else turns them off. */
  function TransformsSetup(arg: string, f: Flags, sh: Shader): (r: (Flags, Shader))
    ensures GpuConsistent(r.0)
    ensures r.0.enabled <==> arg == "cpu" || arg == "gpu"
    ensures r.0.useCPU <==> arg == "cpu"
    ensures r.1 == if arg == "gpu" then FragShader(TransformShaderPath) else sh
  {
    if arg == "cpu" then (Flags(true, true, false), sh)
    else if arg == "gpu" then (Flags(true, false, true), FragShader(TransformShaderPath))
    else (Flags(false, false, false), sh)
  }

  /** The benchmark configuration applied to the initial state: the filter
      mode and its shader, then the transform flags, then (only with
      transforms on) the preset view values. Without `--benchmark` nothing
      changes. */
  function BenchmarkSetup(o: Options): (st: Viewer)
    ensures !o.benchmark ==> st == InitialViewer
    ensures GpuConsistent(st.flags)
    ensures o.benchmark ==> st.mode == BenchmarkMode(o.filter, o.backend)
    ensures o.benchmark ==> (st.flags.enabled <==> o.transforms == "cpu" || o.transforms == "gpu")
    ensures st.flags.enabled ==>
              st.view == InitialView.(translateU := o.presetU, translateV := o.presetV,
                                      scale := o.presetScale, rotation := o.presetRotation)
    ensures !st.flags.enabled ==> st.view == InitialView
    ensures o.benchmark && o.transforms != "gpu" ==> st.shader == ModeShader(st.mode)
    ensures o.benchmark && o.transforms == "gpu" ==> st.shader == FragShader(TransformShaderPath)
  {
    if !o.benchmark then InitialViewer
    else
      var m := BenchmarkMode(o.filter, o.backend);
      var (f, sh) := TransformsSetup(o.transforms, InitialFlags, ModeShader(m));
      var v := if f.enabled then InitialView.(translateU := o.presetU, translateV := o.presetV,
                                               scale := o.presetScale, rotation := o.presetRotation)
               else InitialView;
      Viewer(m, sh, f, v)
  }

  /** The key that selects a filter mode interactively. */
  function ModeKey(m: FilterMode): (k: Key)
    ensures KeyMode(k) == Some(m)
  {
    match m
    case NoFilter => Key1
    case CpuGray => Key2
    case CpuEdge => Key3
    case CpuPixelate => Key4
    case GpuGray => KeyG
    case GpuEdge => KeyE
    case GpuPixelate => KeyP
  }

  /** Without GPU transforms the benchmark's filter setup is what pressing
      the mode's key in the initial state does. */
  lemma BenchmarkIsKeyPress(o: Options)
    requires o.benchmark && o.transforms != "gpu"
    ensures var st := BenchmarkSetup(o);
            var k := OnPress(InitialViewer, ModeKey(st.mode)).0;
            st.mode == k.mode && st.shader == k.shader
  {
  }

  /** With `--transforms gpu` the transform shader replaces a GPU filter's
      shader: the benchmark then measures the transform without the filter. */
  lemma GpuTransformsDropFilterShader(o: Options)
    requires o.benchmark && o.transforms == "gpu"
    ensures BenchmarkSetup(o).shader != ModeShader(BenchmarkSetup(o).mode)
  {
    var m := BenchmarkSetup(o).mode;
    assert TransformShaderPath != GrayShaderPath && TransformShaderPath != EdgeShaderPath
           && TransformShaderPath != PixelateShaderPath;
  }

  /** One line of the benchmark CSV, without its timing column. */
  datatype BenchRow = BenchRow(frameIndex: nat, filter: string, backend: string,
                               resolution: string, transforms: string, build: string)

  function RowFor(o: Options, s: Shape, i: nat, build: string): BenchRow {
    BenchRow(i, o.filter, o.backend, ResolutionString(s), o.transforms, build)
  }

  function MinInt(a: int, b: int): int {
    if a <= b then a else b
  }

  function MaxInt(a: int, b: int): int {
    if a >= b then a else b
  }

  /** The benchmark rows for the frames captured while the window stays open:
      one row per iteration, numbered from 0, stopping once the row count
      reaches `--frames` (at least one row is always written, since the test
      follows the write). */
  method BenchmarkRows(o: Options, shapes: seq<Shape>, build: string) returns (rows: seq<BenchRow>)
    ensures |rows| == MinInt(|shapes|, MaxInt(1, o.frames))
    ensures forall i :: 0 <= i < |rows| ==> rows[i] == RowFor(o, shapes[i], i, build)
  {
    rows := [];
    var i := 0;
    while i < |shapes|
      invariant i == |rows| <= |shapes|
      invariant i == 0 || i < o.frames
      invariant forall j :: 0 <= j < i ==> rows[j] == RowFor(o, shapes[j], j, build)
    {
      rows := rows + [RowFor(o, shapes[i], i, build)];
      i := i + 1;
      if |rows| >= o.frames {
        break;
      }
    }
  }
}
