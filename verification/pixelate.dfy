/** `Filters::applyPixelateCPU`: the frame is cut into `pixelSize` square
    blocks anchored at multiples of `pixelSize`, clipped at the right and
    bottom edges, and every block is painted with its mean colour, the means
    being read from an untouched copy of the input. */
module Pixelate {
  import opened Frames

  /** Default block size of `applyPixelateCPU`. */
  const PixelSizeDefault: int := 10

  function Min(a: int, b: int): int {
    if a < b then a else b
  }

  /** Origin of the block that holds coordinate `i`. */
  function BlockStart(i: nat, ps: nat): nat
    requires ps > 0
  {
    (i / ps) * ps
  }

  /** Extent of the block starting at `b` along a dimension of length `n`:
      `ps`, clipped at the edge. */
  function BlockLen(b: nat, n: nat, ps: nat): (len: nat)
    requires b < n && ps > 0
    ensures 1 <= len <= ps && b + len <= n
    ensures b + ps <= n ==> len == ps
    ensures b + ps > n ==> b + len == n
  {
    Min(ps, n - b)
  }

  lemma MulMonotone(a: int, b: int, k: nat)
    requires a <= b
    ensures a * k <= b * k
  {
  }

  lemma {:induction false} DivBetween(i: nat, q: nat, ps: nat)
    requires ps > 0 && q * ps <= i < q * ps + ps
    ensures i / ps == q
  {
    var d := i / ps;
    assert d * ps + i % ps == i;
    assert (q + 1) * ps == q * ps + ps;
    assert (d + 1) * ps == d * ps + ps;
    if d > q {
      MulMonotone(q + 1, d, ps);
    } else if d < q {
      MulMonotone(d + 1, q, ps);
    }
  }

  lemma NextMultiple(b: nat, ps: nat)
    requires ps > 0 && b % ps == 0
    ensures (b + ps) % ps == 0
  {
    var q := b / ps;
    assert b == q * ps;
    assert b + ps == (q + 1) * ps;
    DivBetween(b + ps, q + 1, ps);
  }

  /** Blocks tile each dimension: a block origin `b` (a multiple of `ps`
      inside the frame) covers coordinate `i` exactly when it is the origin
      of `i`'s block, so blocks are disjoint and every coordinate is covered. */
  lemma BlockTiling(i: nat, b: nat, n: nat, ps: nat)
    requires ps > 0 && i < n && b < n && b % ps == 0
    ensures b <= i < b + BlockLen(b, n, ps) <==> b == BlockStart(i, ps)
    ensures BlockStart(i, ps) % ps == 0 && BlockStart(i, ps) <= i < BlockStart(i, ps) + BlockLen(BlockStart(i, ps), n, ps)
  {
    var q := i / ps;
    assert q * ps <= i < q * ps + ps;
    var s := BlockStart(i, ps);
    assert s == q * ps;
    assert (q * ps) % ps == 0 by {
      DivBetween(q * ps, q, ps);
    }
    var bq := b / ps;
    assert b == bq * ps;
    if b <= i < b + BlockLen(b, n, ps) {
      DivBetween(i, bq, ps);
    }
  }

  /** Sum of channel `c` over columns `x0 .. x1-1` of row `y`. */
  function RowSum(f: Frame, c: nat, y: nat, x0: nat, x1: nat): real
    requires WellFormed(f) && c < f.channels && y < f.rows && x0 <= x1 <= f.cols
    decreases x1 - x0
  {
    if x1 == x0 then 0.0 else RowSum(f, c, y, x0, x1 - 1) + f.px[y][x1 - 1][c]
  }

  /** Sum of channel `c` over the rectangle `[y0, y1) x [x0, x1)`. */
  function RectSum(f: Frame, c: nat, y0: nat, y1: nat, x0: nat, x1: nat): real
    requires WellFormed(f) && c < f.channels && y0 <= y1 <= f.rows && x0 <= x1 <= f.cols
    decreases y1 - y0
  {
    if y1 == y0 then 0.0 else RectSum(f, c, y0, y1 - 1, x0, x1) + RowSum(f, c, y1 - 1, x0, x1)
  }

  /** The rectangle's pixels all equal `v`. */
  predicate UniformRect(f: Frame, y0: nat, y1: nat, x0: nat, x1: nat, v: Pixel)
    requires WellFormed(f) && y1 <= f.rows && x1 <= f.cols
  {
    forall y, x :: y0 <= y < y1 && x0 <= x < x1 ==> f.px[y][x] == v
  }

  /** `n` copies of `x` added up. */
  function Times(n: nat, x: real): real {
    if n == 0 then 0.0 else Times(n - 1, x) + x
  }

  lemma {:induction false} TimesProduct(n: nat, x: real)
    ensures Times(n, x) == n as real * x
  {
    if n > 0 {
      TimesProduct(n - 1, x);
    }
  }

  lemma {:induction false} RowSumUniform(f: Frame, c: nat, y: nat, x0: nat, x1: nat, v: real)
    requires WellFormed(f) && c < f.channels && y < f.rows && x0 <= x1 <= f.cols
    requires forall x :: x0 <= x < x1 ==> f.px[y][x][c] == v
    ensures RowSum(f, c, y, x0, x1) == Times(x1 - x0, v)
    decreases x1 - x0
  {
    if x1 > x0 {
      RowSumUniform(f, c, y, x0, x1 - 1, v);
    }
  }

  lemma {:induction false} RectSumUniform(f: Frame, c: nat, y0: nat, y1: nat, x0: nat, x1: nat, v: real)
    requires WellFormed(f) && c < f.channels && y0 <= y1 <= f.rows && x0 <= x1 <= f.cols
    requires forall y, x :: y0 <= y < y1 && x0 <= x < x1 ==> f.px[y][x][c] == v
    ensures RectSum(f, c, y0, y1, x0, x1) == Times(y1 - y0, Times(x1 - x0, v))
    decreases y1 - y0
  {
    if y1 > y0 {
      RectSumUniform(f, c, y0, y1 - 1, x0, x1, v);
      RowSumUniform(f, c, y1 - 1, x0, x1, v);
    }
  }

  lemma DivCancel(a: real, k: real)
    requires k != 0.0
    ensures (k * a) / k == a
  {
  }

  /** `cv::mean` of the block with origin `(oy, ox)`: the per-channel average
      over its clipped extent. */
  function BlockMean(f: Frame, oy: nat, ox: nat, ps: nat): (m: Pixel)
    requires WellFormed(f) && oy < f.rows && ox < f.cols && ps > 0
    ensures |m| == f.channels
  {
    var h := BlockLen(oy, f.rows, ps);
    var w := BlockLen(ox, f.cols, ps);
    seq(f.channels, c requires 0 <= c < f.channels =>
      RectSum(f, c, oy, oy + h, ox, ox + w) / (h * w) as real)
  }

  /** The mean of a uniform block is its common value. */
  lemma MeanOfUniform(f: Frame, oy: nat, ox: nat, ps: nat, v: Pixel)
    requires WellFormed(f) && oy < f.rows && ox < f.cols && ps > 0 && |v| == f.channels
    requires UniformRect(f, oy, oy + BlockLen(oy, f.rows, ps), ox, ox + BlockLen(ox, f.cols, ps), v)
    ensures BlockMean(f, oy, ox, ps) == v
  {
    var h := BlockLen(oy, f.rows, ps);
    var w := BlockLen(ox, f.cols, ps);
    var m := BlockMean(f, oy, ox, ps);
    forall c | 0 <= c < f.channels
      ensures m[c] == v[c]
    {
      assert forall y, x :: oy <= y < oy + h && ox <= x < ox + w ==> f.px[y][x][c] == v[c];
      MeanChannel(f, oy, ox, ps, c, v[c]);
    }
  }

  /** One channel of the mean of a block uniform in that channel. */
  lemma MeanChannel(f: Frame, oy: nat, ox: nat, ps: nat, c: nat, vc: real)
    requires WellFormed(f) && oy < f.rows && ox < f.cols && ps > 0 && c < f.channels
    requires forall y, x :: oy <= y < oy + BlockLen(oy, f.rows, ps) && ox <= x < ox + BlockLen(ox, f.cols, ps) ==> f.px[y][x][c] == vc
    ensures BlockMean(f, oy, ox, ps)[c] == vc
  {
    var h := BlockLen(oy, f.rows, ps);
    var w := BlockLen(ox, f.cols, ps);
    BlockSum(f, c, oy, h, ox, w, vc);
    UniformQuotient(RectSum(f, c, oy, oy + h, ox, ox + w), h, w, vc);
  }

  /** The sum over an `h` by `w` rectangle uniform in channel `c`. */
  lemma BlockSum(f: Frame, c: nat, oy: nat, h: nat, ox: nat, w: nat, vc: real)
    requires WellFormed(f) && c < f.channels && oy + h <= f.rows && ox + w <= f.cols
    requires forall y, x :: oy <= y < oy + h && ox <= x < ox + w ==> f.px[y][x][c] == vc
    ensures RectSum(f, c, oy, oy + h, ox, ox + w) == h as real * (w as real * vc)
  {
    RectSumUniform(f, c, oy, oy + h, ox, ox + w, vc);
    assert oy + h - oy == h && ox + w - ox == w;
    TimesProduct(w, vc);
    TimesProduct(h, Times(w, vc));
  }

  /** A sum of `h * w` equal terms divided by their number. */
  lemma UniformQuotient(sum: real, h: nat, w: nat, vc: real)
    requires h > 0 && w > 0 && sum == h as real * (w as real * vc)
    ensures sum / (h * w) as real == vc
  {
    assert (h * w) as real == h as real * w as real;
    DivCancel(vc, (h * w) as real);
  }

  /** The pixelated frame, pixel by pixel: each pixel takes the mean of the
      input block that holds it. This is the reference the block loop below
      is checked against. */
  function PixelateSpec(f: Frame, ps: int): (r: Frame)
    requires WellFormed(f)
    ensures WellFormed(r) && ShapeOf(r) == ShapeOf(f)
  {
    if IsEmpty(ShapeOf(f)) || ps <= 1 then f
    else
      var px := seq(f.rows, y requires 0 <= y < f.rows =>
        seq(f.cols, x requires 0 <= x < f.cols =>
          BlockMean(f, BlockStart(y, ps), BlockStart(x, ps), ps)));
      assert forall y, x :: 0 <= y < f.rows && 0 <= x < f.cols ==>
        px[y][x] == BlockMean(f, BlockStart(y, ps), BlockStart(x, ps), ps) by {
        forall y, x | 0 <= y < f.rows && 0 <= x < f.cols
          ensures BlockStart(y, ps) < f.rows && BlockStart(x, ps) < f.cols
        {
          BlockTiling(y, 0, f.rows, ps);
          BlockTiling(x, 0, f.cols, ps);
        }
      }
      Frame(f.rows, f.cols, f.channels, px)
  }

  /** `frame(roi).setTo(v)` on the rectangle `[y0, y0+h) x [x0, x0+w)`. */
  function Fill(g: Frame, y0: nat, x0: nat, h: nat, w: nat, v: Pixel): (r: Frame)
    requires WellFormed(g) && y0 + h <= g.rows && x0 + w <= g.cols && |v| == g.channels
    ensures WellFormed(r) && ShapeOf(r) == ShapeOf(g)
    ensures forall y, x :: 0 <= y < g.rows && 0 <= x < g.cols ==>
              r.px[y][x] == (if y0 <= y < y0 + h && x0 <= x < x0 + w then v else g.px[y][x])
  {
    var px := seq(g.rows, y requires 0 <= y < g.rows =>
      seq(g.cols, x requires 0 <= x < g.cols =>
        if y0 <= y < y0 + h && x0 <= x < x0 + w then v else g.px[y][x]));
    Frame(g.rows, g.cols, g.channels, px)
  }

  /** Progress of the block loop: rows above `y`, and the first `x` columns
      of the band `[y, y+h)`, hold their final value; the rest still holds
      the input. */
  ghost predicate Painted(r: Frame, f: Frame, goal: Frame, y: nat, h: nat, x: nat)
    requires WellFormed(r) && WellFormed(f) && WellFormed(goal)
    requires ShapeOf(r) == ShapeOf(f) && ShapeOf(goal) == ShapeOf(f)
  {
    forall yy, xx :: 0 <= yy < f.rows && 0 <= xx < f.cols ==>
      r.px[yy][xx] == (if yy < y || (yy < y + h && xx < x) then goal.px[yy][xx] else f.px[yy][xx])
  }

  /** Painting the block at `(y, x)` with the input's block mean extends the
      painted region by one block. */
  lemma PaintBlock(r: Frame, f: Frame, ps: nat, goal: Frame, y: nat, x: nat)
    requires WellFormed(f) && !IsEmpty(ShapeOf(f)) && ps > 1 && goal == PixelateSpec(f, ps)
    requires WellFormed(r) && ShapeOf(r) == ShapeOf(f)
    requires y < f.rows && x < f.cols && y % ps == 0 && x % ps == 0
    requires Painted(r, f, goal, y, BlockLen(y, f.rows, ps), x)
    ensures Painted(Fill(r, y, x, BlockLen(y, f.rows, ps), BlockLen(x, f.cols, ps), BlockMean(f, y, x, ps)),
                    f, goal, y, BlockLen(y, f.rows, ps), x + ps)
  {
    var h := BlockLen(y, f.rows, ps);
    var w := BlockLen(x, f.cols, ps);
    var avg := BlockMean(f, y, x, ps);
    forall yy, xx | y <= yy < y + h && x <= xx < x + w
      ensures goal.px[yy][xx] == avg
    {
      BlockTiling(yy, y, f.rows, ps);
      BlockTiling(xx, x, f.cols, ps);
    }
  }

  /** Starting a band, finishing a band, and finishing the frame, in terms of
      the painted region. */
  lemma BandStart(r: Frame, f: Frame, goal: Frame, y: nat, h: nat)
    requires WellFormed(r) && WellFormed(f) && WellFormed(goal)
    requires ShapeOf(r) == ShapeOf(f) && ShapeOf(goal) == ShapeOf(f)
    requires Painted(r, f, goal, y, 0, 0)
    ensures Painted(r, f, goal, y, h, 0)
  {
  }

  lemma BandDone(r: Frame, f: Frame, goal: Frame, y: nat, ps: nat, x: nat)
    requires WellFormed(r) && WellFormed(f) && WellFormed(goal)
    requires ShapeOf(r) == ShapeOf(f) && ShapeOf(goal) == ShapeOf(f)
    requires y < f.rows && ps > 0 && x >= f.cols
    requires Painted(r, f, goal, y, Min(ps, f.rows - y), x)
    ensures Painted(r, f, goal, y + ps, 0, 0)
  {
  }

  lemma FrameDone(r: Frame, f: Frame, goal: Frame, y: nat)
    requires WellFormed(r) && WellFormed(f) && WellFormed(goal)
    requires ShapeOf(r) == ShapeOf(f) && ShapeOf(goal) == ShapeOf(f)
    requires y >= f.rows && Painted(r, f, goal, y, 0, 0)
    ensures r == goal
  {
    forall yy | 0 <= yy < f.rows
      ensures r.px[yy] == goal.px[yy]
    {
      assert forall xx :: 0 <= xx < f.cols ==> r.px[yy][xx] == goal.px[yy][xx];
    }
  }

  /** One band of blocks, `[y, y+h)` high, visited left to right. */
  method PixelateBand(temp: Frame, r0: Frame, ps: nat, ghost goal: Frame, y: nat) returns (r: Frame)
    requires WellFormed(temp) && !IsEmpty(ShapeOf(temp)) && ps > 1 && goal == PixelateSpec(temp, ps)
    requires WellFormed(r0) && ShapeOf(r0) == ShapeOf(temp)
    requires y < temp.rows && y % ps == 0
    requires Painted(r0, temp, goal, y, 0, 0)
    ensures WellFormed(r) && ShapeOf(r) == ShapeOf(temp)
    ensures Painted(r, temp, goal, y + ps, 0, 0)
  {
    var h := Min(ps, temp.rows - y);
    r := r0;
    BandStart(r, temp, goal, y, h);
    var x: nat := 0;
    while x < temp.cols
      invariant x % ps == 0
      invariant WellFormed(r) && ShapeOf(r) == ShapeOf(temp)
      invariant Painted(r, temp, goal, y, h, x)
    {
      var w := Min(ps, temp.cols - x);
      var avg := BlockMean(temp, y, x, ps);
      PaintBlock(r, temp, ps, goal, y, x);
      r := Fill(r, y, x, h, w, avg);
      NextMultiple(x, ps);
      x := x + ps;
    }
    BandDone(r, temp, goal, y, ps, x);
  }

  /** `applyPixelateCPU(frame, pixelSize)`: nothing happens to an empty frame
      or when `pixelSize <= 1`; otherwise every block, visited row of blocks
      by row of blocks, is filled with the mean of the same block of the
      untouched copy `temp`. The result equals the pixel-wise reference, so
      it does not depend on the order the blocks are visited in. */
  method PixelateCPU(frame: Frame, pixelSize: int) returns (r: Frame)
    requires WellFormed(frame)
    ensures r == PixelateSpec(frame, pixelSize)
  {
    if IsEmpty(ShapeOf(frame)) || pixelSize <= 1 {
      return frame;
    }
    var ps: nat := pixelSize;
    ghost var goal := PixelateSpec(frame, ps);
    var temp := frame;
    r := frame;
    var y: nat := 0;
    while y < frame.rows
      invariant y % ps == 0
      invariant WellFormed(r) && ShapeOf(r) == ShapeOf(frame)
      invariant Painted(r, frame, goal, y, 0, 0)
    {
      r := PixelateBand(temp, r, ps, goal, y);
      NextMultiple(y, ps);
      y := y + ps;
    }
    FrameDone(r, frame, goal, y);
  }

  /** Every block of the result is uniform and equals the mean of the same
      block of the input. */
  lemma PixelateBlocksUniform(f: Frame, ps: int, oy: nat, ox: nat)
    requires WellFormed(f) && !IsEmpty(ShapeOf(f)) && ps > 1
    requires oy < f.rows && ox < f.cols && oy % ps == 0 && ox % ps == 0
    ensures var r := PixelateSpec(f, ps);
            UniformRect(r, oy, oy + BlockLen(oy, f.rows, ps), ox, ox + BlockLen(ox, f.cols, ps),
                        BlockMean(f, oy, ox, ps))
  {
    var r := PixelateSpec(f, ps);
    forall y, x | oy <= y < oy + BlockLen(oy, f.rows, ps) && ox <= x < ox + BlockLen(ox, f.cols, ps)
      ensures r.px[y][x] == BlockMean(f, oy, ox, ps)
    {
      BlockTiling(y, oy, f.rows, ps);
      BlockTiling(x, ox, f.cols, ps);
    }
  }

  /** A block that is already uniform is left as it is. */
  lemma PixelateKeepsUniformBlock(f: Frame, ps: int, oy: nat, ox: nat, v: Pixel)
    requires WellFormed(f) && !IsEmpty(ShapeOf(f)) && ps > 1 && |v| == f.channels
    requires oy < f.rows && ox < f.cols && oy % ps == 0 && ox % ps == 0
    requires UniformRect(f, oy, oy + BlockLen(oy, f.rows, ps), ox, ox + BlockLen(ox, f.cols, ps), v)
    ensures var r := PixelateSpec(f, ps);
            UniformRect(r, oy, oy + BlockLen(oy, f.rows, ps), ox, ox + BlockLen(ox, f.cols, ps), v)
  {
    MeanOfUniform(f, oy, ox, ps, v);
    PixelateBlocksUniform(f, ps, oy, ox);
  }

  /** Pixelating twice with the same block size is pixelating once. */
  lemma PixelateIdempotent(f: Frame, ps: int)
    requires WellFormed(f)
    ensures PixelateSpec(PixelateSpec(f, ps), ps) == PixelateSpec(f, ps)
  {
    var g := PixelateSpec(f, ps);
    if !IsEmpty(ShapeOf(f)) && ps > 1 {
      var h := PixelateSpec(g, ps);
      forall y, x | 0 <= y < f.rows && 0 <= x < f.cols
        ensures h.px[y][x] == g.px[y][x]
      {
        PixelFixed(f, ps, y, x);
      }
      assert forall y :: 0 <= y < f.rows ==> h.px[y] == g.px[y];
    }
  }

  /** One pixel of the pixelated frame survives a second pixelation. */
  lemma PixelFixed(f: Frame, ps: int, y: nat, x: nat)
    requires WellFormed(f) && !IsEmpty(ShapeOf(f)) && ps > 1 && y < f.rows && x < f.cols
    ensures PixelateSpec(PixelateSpec(f, ps), ps).px[y][x] == PixelateSpec(f, ps).px[y][x]
  {
    var g := PixelateSpec(f, ps);
    BlockTiling(y, 0, f.rows, ps);
    BlockTiling(x, 0, f.cols, ps);
    var oy := BlockStart(y, ps);
    var ox := BlockStart(x, ps);
    PixelateBlocksUniform(f, ps, oy, ox);
    MeanOfUniform(g, oy, ox, ps, BlockMean(f, oy, ox, ps));
  }
}
