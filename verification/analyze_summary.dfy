/** The comparison tables printed from `summary.csv`: CPU against GPU per
    filter, build and resolution; 1024x768 against 2048x1536 per filter,
    build and backend; the debug build against the release build per
    filter. Each table is the sequence of its lines; printing and number
    formatting are left out, and `float` is a parameter. */
module AnalyzeSummary {
  import opened Wrappers
  import Text
  import Sorting
  import Report

  /** The columns of a summary row that the analysis reads. */
  datatype Row = Row(filt: string, build: string, res: string, backend: string, transforms: string, meanMs: string)

  /** The transforms column reduced to one of "off", "cpu", "gpu" by the
      first of them it contains, in that priority, after lower-casing;
      otherwise the lower-cased value. Each token is the result exactly
      when the lower-cased value contains it and none before it. */
  function NormalizeTransforms(t: string): (r: string)
    ensures Text.ToLower(r) == r
    ensures r == "off" <==> Text.Contains(Text.ToLower(t), "off")
    ensures r == "cpu" <==> !Text.Contains(Text.ToLower(t), "off") && Text.Contains(Text.ToLower(t), "cpu")
    ensures r == "gpu" <==> !Text.Contains(Text.ToLower(t), "off") && !Text.Contains(Text.ToLower(t), "cpu")
                            && Text.Contains(Text.ToLower(t), "gpu")
    ensures r !in ["off", "cpu", "gpu"] ==> r == Text.ToLower(t)
  {
    var lower := Text.ToLower(t);
    Text.ToLowerIdempotent(t);
    TokensContain();
    if Text.Contains(lower, "off") then "off"
    else if Text.Contains(lower, "cpu") then "cpu"
    else if Text.Contains(lower, "gpu") then "gpu"
    else lower
  }

  /** Each token contains itself and none of the tokens before it. */
  lemma TokensContain()
    ensures Text.Contains("off", "off") && Text.Contains("cpu", "cpu") && Text.Contains("gpu", "gpu")
    ensures !Text.Contains("cpu", "off") && !Text.Contains("gpu", "off") && !Text.Contains("gpu", "cpu")
  {
    assert Text.OccursAt("off", "off", 0);
    assert Text.OccursAt("cpu", "cpu", 0);
    assert Text.OccursAt("gpu", "gpu", 0);
  }

  /** Normalising a normalised value changes nothing. */
  lemma NormalizeTransformsIdempotent(t: string)
    ensures NormalizeTransforms(NormalizeTransforms(t)) == NormalizeTransforms(t)
  {
    var r := NormalizeTransforms(t);
    Text.ToLowerIdempotent(t);
    if r == "off" {
      assert Text.OccursAt(r, "off", 0);
    } else if r == "cpu" {
      assert Text.OccursAt(r, "cpu", 0);
      assert !Text.Contains(r, "off");
    } else if r == "gpu" {
      assert Text.OccursAt(r, "gpu", 0);
      assert !Text.Contains(r, "off") && !Text.Contains(r, "cpu");
    }
  }

  /** A stats key: filter, build, resolution, backend. The transforms column
      is not part of it, so rows that differ only there overwrite each
      other. */
  type StatKey = (string, string, string, string)

  function KeyOf(row: Row): StatKey {
    (row.filt, row.build, row.res, row.backend)
  }

  /** `stats[filt][build][res][backend] = float(mean_ms)` over all rows, in
      order; `None` where `float` raises, which ends the script before any
      table. */
  function Stats(rows: seq<Row>, parseFloat: string -> Option<real>): (r: Option<Report.Dict<StatKey, real>>)
    ensures r.None? <==> exists i :: 0 <= i < |rows| && parseFloat(rows[i].meanMs).None?
    ensures r.Some? ==> Report.UniqueKeys(r.value)
    ensures r.Some? ==> forall k :: Report.Get(r.value, k) == LastMean(rows, parseFloat, k)
  {
    if exists i :: 0 <= i < |rows| && parseFloat(rows[i].meanMs).None? then None
    else
      var ps := seq(|rows|, i requires 0 <= i < |rows| => (KeyOf(rows[i]), parseFloat(rows[i].meanMs).value));
      Report.FromPairsLast(ps);
      LastMeanPairs(rows, parseFloat, ps);
      Some(Report.FromPairs(ps))
  }

  /** The mean of the last row with key `k`, if any. */
  function LastMean(rows: seq<Row>, parseFloat: string -> Option<real>, k: StatKey): Option<real> {
    if |rows| == 0 then None
    else if KeyOf(rows[|rows| - 1]) == k then parseFloat(rows[|rows| - 1].meanMs)
    else LastMean(rows[..|rows| - 1], parseFloat, k)
  }

  lemma {:induction false} LastMeanPairs(rows: seq<Row>, parseFloat: string -> Option<real>, ps: seq<(StatKey, real)>)
    requires |ps| == |rows|
    requires forall i :: 0 <= i < |rows| ==> parseFloat(rows[i].meanMs).Some? && ps[i] == (KeyOf(rows[i]), parseFloat(rows[i].meanMs).value)
    ensures forall k :: LastMean(rows, parseFloat, k) == Report.LastValue(ps, k)
  {
    if |rows| > 0 {
      LastMeanPairs(rows[..|rows| - 1], parseFloat, ps[..|ps| - 1]);
    }
  }

  /** A change from `base` to `other`: the difference, and the percentage
      of `base` it amounts to (0 when `base` is 0). */
  datatype Change = Change(base: real, other: real, delta: real, pct: real)

  function ChangeOf(base: real, other: real): (c: Change)
    ensures c.base == base && c.other == other
    ensures base + c.delta == other
    ensures base != 0.0 ==> base * c.pct / 100.0 == c.delta
    ensures base == 0.0 ==> c.pct == 0.0
    ensures base > 0.0 ==> (c.pct > 0.0 <==> other > base)
  {
    var delta := other - base;
    var pct := if base != 0.0 then delta / base * 100.0 else 0.0;
    Change(base, other, delta, pct)
  }

  // CPU against GPU

  /** A (filter, build, resolution) cell of the stats. */
  type Cell = (string, string, string)

  /** The cells, each once. */
  function Cells(stats: Report.Dict<StatKey, real>): (r: seq<Cell>)
    ensures forall c :: c in r <==> exists b :: (c.0, c.1, c.2, b) in Report.Keys(stats)
    ensures forall i, j :: 0 <= i < j < |r| ==> r[i] != r[j]
  {
    var all := seq(|stats|, i requires 0 <= i < |stats| => (stats[i].0.0, stats[i].0.1, stats[i].0.2));
    var r := Report.Distinct(all);
    assert forall c :: c in all <==> exists b :: (c.0, c.1, c.2, b) in Report.Keys(stats) by {
      forall c | c in all ensures exists b :: (c.0, c.1, c.2, b) in Report.Keys(stats) {
        var i :| 0 <= i < |all| && all[i] == c;
        assert Report.Keys(stats)[i] == (c.0, c.1, c.2, stats[i].0.3);
      }
      forall c: Cell | exists b :: (c.0, c.1, c.2, b) in Report.Keys(stats) ensures c in all {
        var b :| (c.0, c.1, c.2, b) in Report.Keys(stats);
        var i :| 0 <= i < |stats| && Report.Keys(stats)[i] == (c.0, c.1, c.2, b);
        assert all[i] == c;
      }
    }
    r
  }

  /** Filter, then build, in string order; then resolution numerically. */
  predicate CellLe(a: Cell, b: Cell) {
    if a.0 != b.0 then Sorting.StringLe(a.0, b.0)
    else if a.1 != b.1 then Sorting.StringLe(a.1, b.1)
    else Report.ResolutionLe(a.2, b.2)
  }

  lemma CellOrder()
    ensures Sorting.TotalPreorder(CellLe)
  {
    Report.ResolutionOrder();
    forall a, b ensures CellLe(a, b) || CellLe(b, a) {
      Sorting.StringLeTotal(a.0, b.0);
      Sorting.StringLeTotal(a.1, b.1);
    }
    forall a, b, c | CellLe(a, b) && CellLe(b, c) ensures CellLe(a, c) {
      CellTransitive(a, b, c);
    }
  }

  lemma CellTransitive(a: Cell, b: Cell, c: Cell)
    requires CellLe(a, b) && CellLe(b, c)
    ensures CellLe(a, c)
  {
    Report.ResolutionOrder();
    if a.0 != b.0 || b.0 != c.0 {
      LexStep(a.0, b.0, c.0);
    } else if a.1 != b.1 || b.1 != c.1 {
      LexStep(a.1, b.1, c.1);
    }
  }

  /** The first differing component of a lexicographic order decides. */
  lemma LexStep(a: string, b: string, c: string)
    requires a != b || b != c
    requires a != b ==> Sorting.StringLe(a, b)
    requires b != c ==> Sorting.StringLe(b, c)
    ensures a != c && Sorting.StringLe(a, c)
  {
    if a != b && b != c {
      Sorting.StringLeTransitive(a, b, c);
      if a == c {
        Sorting.StringLeAntisymmetric(a, b);
      }
    }
  }

  function Cpu(c: Cell): StatKey { (c.0, c.1, c.2, "cpu") }
  function Gpu(c: Cell): StatKey { (c.0, c.1, c.2, "gpu") }

  /** Both backends measured the cell. */
  predicate HasBoth(stats: Report.Dict<StatKey, real>, c: Cell) {
    Report.Get(stats, Cpu(c)).Some? && Report.Get(stats, Gpu(c)).Some?
  }

  datatype CellLine = CellLine(cell: Cell, change: Change)

  function CellLineOf(stats: Report.Dict<StatKey, real>, c: Cell): CellLine
    requires HasBoth(stats, c)
  {
    CellLine(c, ChangeOf(Report.Get(stats, Cpu(c)).value, Report.Get(stats, Gpu(c)).value))
  }

  /** The CPU/GPU table: `None` where a resolution does not parse (the
      numeric sort raises); otherwise one line per cell that both backends
      measured, no other, each cell once, ordered by filter, build and
      resolution, comparing the GPU time against the CPU time. */
  function CpuGpuTable(stats: Report.Dict<StatKey, real>): (r: Option<seq<CellLine>>)
    ensures r.None? <==> exists i :: 0 <= i < |stats| && Report.ResolutionKey(stats[i].0.2).None?
    ensures r.Some? ==> forall c :: (exists i :: 0 <= i < |r.value| && r.value[i].cell == c) <==> HasBoth(stats, c)
    ensures r.Some? ==> forall i :: 0 <= i < |r.value| ==> HasBoth(stats, r.value[i].cell)
    ensures r.Some? ==> forall i :: 0 <= i < |r.value| ==> r.value[i] == CellLineOf(stats, r.value[i].cell)
    ensures r.Some? ==> forall i, j :: 0 <= i < j < |r.value| ==> r.value[i].cell != r.value[j].cell
    ensures r.Some? ==> forall i, j :: 0 <= i < j < |r.value| ==> CellLe(r.value[i].cell, r.value[j].cell)
  {
    var cells := Cells(stats);
    CellsResolutions(stats, cells);
    if exists i :: 0 <= i < |cells| && Report.ResolutionKey(cells[i].2).None? then None
    else Some(CpuGpuLines(stats))
  }

  /** The lines of the CPU/GPU table once every resolution parses. */
  function CpuGpuLines(stats: Report.Dict<StatKey, real>): (r: seq<CellLine>)
    ensures forall c :: (exists i :: 0 <= i < |r| && r[i].cell == c) <==> HasBoth(stats, c)
    ensures forall i :: 0 <= i < |r| ==> HasBoth(stats, r[i].cell)
    ensures forall i :: 0 <= i < |r| ==> r[i] == CellLineOf(stats, r[i].cell)
    ensures forall i, j :: 0 <= i < j < |r| ==> r[i].cell != r[j].cell
    ensures forall i, j :: 0 <= i < j < |r| ==> CellLe(r[i].cell, r[j].cell)
  {
    var cs := MeasuredCells(stats);
    var r := LinesOf(stats, cs);
    LinesCover(stats, cs, r);
    r
  }

  /** Lines made one per cell, in order, inherit the cells' distinctness
      and order, and the cells with a line are exactly those both backends
      measured. */
  lemma LinesCover(stats: Report.Dict<StatKey, real>, cs: seq<Cell>, r: seq<CellLine>)
    requires forall c :: c in cs <==> HasBoth(stats, c)
    requires forall i, j :: 0 <= i < j < |cs| ==> cs[i] != cs[j]
    requires forall i, j :: 0 <= i < j < |cs| ==> CellLe(cs[i], cs[j])
    requires |r| == |cs| && forall i :: 0 <= i < |r| ==> r[i].cell == cs[i] && r[i] == CellLineOf(stats, cs[i])
    ensures forall c :: (exists i :: 0 <= i < |r| && r[i].cell == c) <==> HasBoth(stats, c)
    ensures forall i :: 0 <= i < |r| ==> HasBoth(stats, r[i].cell)
    ensures forall i :: 0 <= i < |r| ==> r[i] == CellLineOf(stats, r[i].cell)
    ensures forall i, j :: 0 <= i < j < |r| ==> r[i].cell != r[j].cell
    ensures forall i, j :: 0 <= i < j < |r| ==> CellLe(r[i].cell, r[j].cell)
  {
    forall c | c in cs
      ensures exists i :: 0 <= i < |r| && r[i].cell == c
    {
      var i :| 0 <= i < |cs| && cs[i] == c;
      assert r[i].cell == c;
    }
  }

  /** One line per cell, in the cells' order. */
  function LinesOf(stats: Report.Dict<StatKey, real>, cs: seq<Cell>): (r: seq<CellLine>)
    requires forall i :: 0 <= i < |cs| ==> HasBoth(stats, cs[i])
    ensures |r| == |cs|
    ensures forall i :: 0 <= i < |r| ==> r[i].cell == cs[i] && r[i] == CellLineOf(stats, cs[i])
  {
    seq(|cs|, i requires 0 <= i < |cs| => CellLineOf(stats, cs[i]))
  }

  /** The cells both backends measured, each once, in table order. */
  function MeasuredCells(stats: Report.Dict<StatKey, real>): (cs: seq<Cell>)
    ensures forall c :: c in cs <==> HasBoth(stats, c)
    ensures forall i, j :: 0 <= i < j < |cs| ==> cs[i] != cs[j]
    ensures forall i, j :: 0 <= i < j < |cs| ==> CellLe(cs[i], cs[j])
  {
    CellOrder();
    var both := Report.Filter(Cells(stats), c => HasBoth(stats, c));
    Sorting.SortDistinct(both, CellLe);
    var sorted := Sorting.Sort(both, CellLe);
    CpuGpuCover(stats, sorted);
    sorted
  }

  lemma {:induction false} CellsResolutions(stats: Report.Dict<StatKey, real>, cells: seq<Cell>)
    requires cells == Cells(stats)
    ensures (exists i :: 0 <= i < |cells| && Report.ResolutionKey(cells[i].2).None?)
            <==> exists i :: 0 <= i < |stats| && Report.ResolutionKey(stats[i].0.2).None?
  {
    if exists i :: 0 <= i < |stats| && Report.ResolutionKey(stats[i].0.2).None? {
      var i :| 0 <= i < |stats| && Report.ResolutionKey(stats[i].0.2).None?;
      assert Report.Keys(stats)[i] == stats[i].0;
      var c := (stats[i].0.0, stats[i].0.1, stats[i].0.2);
      assert c in cells;
    }
    if exists i :: 0 <= i < |cells| && Report.ResolutionKey(cells[i].2).None? {
      var i :| 0 <= i < |cells| && Report.ResolutionKey(cells[i].2).None?;
      var c := cells[i];
      var b :| (c.0, c.1, c.2, b) in Report.Keys(stats);
      var j :| 0 <= j < |stats| && Report.Keys(stats)[j] == (c.0, c.1, c.2, b);
      assert Report.ResolutionKey(stats[j].0.2).None?;
    }
  }

  lemma {:induction false} CpuGpuCover(stats: Report.Dict<StatKey, real>, sorted: seq<Cell>)
    requires forall c :: c in sorted <==> c in Cells(stats) && HasBoth(stats, c)
    ensures forall c :: c in sorted <==> HasBoth(stats, c)
  {
    forall c | HasBoth(stats, c)
      ensures c in Cells(stats)
    {
      assert Cpu(c) in Report.Keys(stats);
    }
  }

  // Resolution effect

  const SmallRes: string := "1024x768"
  const LargeRes: string := "2048x1536"
  const Backends: seq<string> := ["cpu", "gpu"]

  /** A (filter, build) group of the stats. */
  type Group = (string, string)

  function Groups(stats: Report.Dict<StatKey, real>): (r: seq<Group>)
    ensures forall g :: g in r <==> exists res, b :: (g.0, g.1, res, b) in Report.Keys(stats)
    ensures forall i, j :: 0 <= i < j < |r| ==> r[i] != r[j]
  {
    var all := seq(|stats|, i requires 0 <= i < |stats| => (stats[i].0.0, stats[i].0.1));
    assert forall g :: g in all <==> exists res, b :: (g.0, g.1, res, b) in Report.Keys(stats) by {
      forall g | g in all ensures exists res, b :: (g.0, g.1, res, b) in Report.Keys(stats) {
        var i :| 0 <= i < |all| && all[i] == g;
        assert Report.Keys(stats)[i] == (g.0, g.1, stats[i].0.2, stats[i].0.3);
      }
      forall g: Group | exists res, b :: (g.0, g.1, res, b) in Report.Keys(stats) ensures g in all {
        var res, b :| (g.0, g.1, res, b) in Report.Keys(stats);
        var i :| 0 <= i < |stats| && Report.Keys(stats)[i] == (g.0, g.1, res, b);
        assert all[i] == g;
      }
    }
    Report.Distinct(all)
  }

  predicate GroupLe(a: Group, b: Group) {
    if a.0 != b.0 then Sorting.StringLe(a.0, b.0) else Sorting.StringLe(a.1, b.1)
  }

  lemma GroupOrder()
    ensures Sorting.TotalPreorder(GroupLe)
  {
    forall a, b ensures GroupLe(a, b) || GroupLe(b, a) {
      Sorting.StringLeTotal(a.0, b.0);
      Sorting.StringLeTotal(a.1, b.1);
    }
    forall a, b, c | GroupLe(a, b) && GroupLe(b, c) ensures GroupLe(a, c) {
      if a.0 != b.0 || b.0 != c.0 {
        LexStep(a.0, b.0, c.0);
      } else {
        Sorting.StringLeTransitive(a.1, b.1, c.1);
      }
    }
  }

  function At(g: Group, res: string, backend: string): StatKey {
    (g.0, g.1, res, backend)
  }

  /** Both resolutions were measured for the group and backend. */
  predicate HasBothSizes(stats: Report.Dict<StatKey, real>, g: Group, backend: string) {
    Report.Get(stats, At(g, SmallRes, backend)).Some? && Report.Get(stats, At(g, LargeRes, backend)).Some?
  }

  datatype SizeLine = SizeLine(group: Group, backend: string, change: Change)

  function SizeLineOf(stats: Report.Dict<StatKey, real>, g: Group, backend: string): SizeLine
    requires HasBothSizes(stats, g, backend)
  {
    SizeLine(g, backend, ChangeOf(Report.Get(stats, At(g, SmallRes, backend)).value,
                                  Report.Get(stats, At(g, LargeRes, backend)).value))
  }

  /** One group's lines: "cpu", then "gpu", each when both sizes exist. */
  function GroupSizeLines(stats: Report.Dict<StatKey, real>, g: Group): seq<SizeLine> {
    (if HasBothSizes(stats, g, "cpu") then [SizeLineOf(stats, g, "cpu")] else [])
    + (if HasBothSizes(stats, g, "gpu") then [SizeLineOf(stats, g, "gpu")] else [])
  }

  function SizeLines(stats: Report.Dict<StatKey, real>, gs: seq<Group>): seq<SizeLine> {
    if |gs| == 0 then [] else GroupSizeLines(stats, gs[0]) + SizeLines(stats, gs[1..])
  }

  /** Some line of `r` is about group `g` and backend `backend`. */
  predicate HasLine(r: seq<SizeLine>, g: Group, backend: string) {
    exists i :: 0 <= i < |r| && r[i].group == g && r[i].backend == backend
  }

  /** The line order of the resolution-effect table: by group, and within
      a group "cpu" first. */
  predicate SizeLineLe(a: SizeLine, b: SizeLine) {
    if a.group != b.group then GroupLe(a.group, b.group) else a.backend == "cpu" && b.backend == "gpu"
  }

  /** The resolution-effect table: a line for a group and backend exactly
      when the backend is "cpu" or "gpu" and both 1024x768 and 2048x1536
      were measured, comparing the larger against the smaller; groups in
      order of filter then build, "cpu" before "gpu" within a group. */
  function ResolutionEffect(stats: Report.Dict<StatKey, real>): (r: seq<SizeLine>)
    ensures forall g, backend :: HasLine(r, g, backend) <==> backend in Backends && HasBothSizes(stats, g, backend)
    ensures forall i :: 0 <= i < |r| ==> HasBothSizes(stats, r[i].group, r[i].backend)
    ensures forall i :: 0 <= i < |r| ==> r[i] == SizeLineOf(stats, r[i].group, r[i].backend)
    ensures forall i, j :: 0 <= i < j < |r| ==> SizeLineLe(r[i], r[j])
  {
    GroupOrder();
    var gs := Sorting.Sort(Groups(stats), GroupLe);
    Sorting.SortDistinct(Groups(stats), GroupLe);
    SizeLinesFacts(stats, gs);
    forall g, backend | backend in Backends && HasBothSizes(stats, g, backend)
      ensures g in gs
    {
      assert At(g, SmallRes, backend) in Report.Keys(stats);
    }
    SizeLines(stats, gs)
  }

  lemma {:induction false} SizeLinesFacts(stats: Report.Dict<StatKey, real>, gs: seq<Group>)
    requires forall i, j :: 0 <= i < j < |gs| ==> gs[i] != gs[j]
    requires forall i, j :: 0 <= i < j < |gs| ==> GroupLe(gs[i], gs[j])
    ensures forall g, backend :: HasLine(SizeLines(stats, gs), g, backend)
              <==> g in gs && backend in Backends && HasBothSizes(stats, g, backend)
    ensures forall i :: 0 <= i < |SizeLines(stats, gs)| ==> HasBothSizes(stats, SizeLines(stats, gs)[i].group, SizeLines(stats, gs)[i].backend)
    ensures forall i :: 0 <= i < |SizeLines(stats, gs)| ==> SizeLines(stats, gs)[i] == SizeLineOf(stats, SizeLines(stats, gs)[i].group, SizeLines(stats, gs)[i].backend)
    ensures forall i, j :: 0 <= i < j < |SizeLines(stats, gs)| ==> SizeLineLe(SizeLines(stats, gs)[i], SizeLines(stats, gs)[j])
  {
    SizeLinesSound(stats, gs);
    SizeLinesComplete(stats, gs);
    SizeLinesOrdered(stats, gs);
  }

  /** Every line belongs to one of the groups, names a backend measured at
      both sizes, and compares those two measurements. */
  lemma {:induction false} SizeLinesSound(stats: Report.Dict<StatKey, real>, gs: seq<Group>)
    ensures forall i :: 0 <= i < |SizeLines(stats, gs)| ==> SizeLines(stats, gs)[i].group in gs
    ensures forall i :: 0 <= i < |SizeLines(stats, gs)| ==> SizeLines(stats, gs)[i].backend in Backends
    ensures forall i :: 0 <= i < |SizeLines(stats, gs)| ==> HasBothSizes(stats, SizeLines(stats, gs)[i].group, SizeLines(stats, gs)[i].backend)
    ensures forall i :: 0 <= i < |SizeLines(stats, gs)| ==> SizeLines(stats, gs)[i] == SizeLineOf(stats, SizeLines(stats, gs)[i].group, SizeLines(stats, gs)[i].backend)
  {
    if |gs| > 0 {
      SizeLinesSound(stats, gs[1..]);
      GroupLinesSound(stats, gs[0]);
      ConcatSound(stats, gs, GroupSizeLines(stats, gs[0]), SizeLines(stats, gs[1..]));
    }
  }

  /** Each line is about a group of `gs`, a listed backend measured at both
      sizes, and carries the comparison of those measurements. */
  predicate LinesSound(stats: Report.Dict<StatKey, real>, r: seq<SizeLine>, gs: seq<Group>) {
    forall i :: 0 <= i < |r| ==>
      r[i].group in gs && r[i].backend in Backends && HasBothSizes(stats, r[i].group, r[i].backend)
      && r[i] == SizeLineOf(stats, r[i].group, r[i].backend)
  }

  lemma GroupLinesSound(stats: Report.Dict<StatKey, real>, g: Group)
    ensures LinesSound(stats, GroupSizeLines(stats, g), [g])
    ensures forall i :: 0 <= i < |GroupSizeLines(stats, g)| ==> GroupSizeLines(stats, g)[i].group == g
    ensures |GroupSizeLines(stats, g)| <= 2
    ensures |GroupSizeLines(stats, g)| == 2 ==> GroupSizeLines(stats, g)[0].backend == "cpu" && GroupSizeLines(stats, g)[1].backend == "gpu"
  {
  }

  lemma ConcatSound(stats: Report.Dict<StatKey, real>, gs: seq<Group>, head: seq<SizeLine>, tail: seq<SizeLine>)
    requires |gs| > 0 && LinesSound(stats, head, [gs[0]]) && LinesSound(stats, tail, gs[1..])
    ensures LinesSound(stats, head + tail, gs)
  {
    var r := head + tail;
    forall i | 0 <= i < |r|
      ensures r[i].group in gs
    {
      if i < |head| {
        assert r[i] == head[i];
        assert head[i].group in [gs[0]];
      } else {
        assert r[i] == tail[i - |head|];
        assert tail[i - |head|].group in gs[1..];
      }
    }
  }

  /** Every measured group and backend gets its line. */
  lemma {:induction false} SizeLinesComplete(stats: Report.Dict<StatKey, real>, gs: seq<Group>)
    ensures forall g, backend :: g in gs && backend in Backends && HasBothSizes(stats, g, backend) ==>
              HasLine(SizeLines(stats, gs), g, backend)
  {
    if |gs| > 0 {
      SizeLinesComplete(stats, gs[1..]);
      var head := GroupSizeLines(stats, gs[0]);
      var tail := SizeLines(stats, gs[1..]);
      assert SizeLines(stats, gs) == head + tail;
      forall g, backend | g in gs && backend in Backends && HasBothSizes(stats, g, backend)
        ensures HasLine(head + tail, g, backend)
      {
        if g == gs[0] {
          HeadLine(stats, g, backend);
        } else {
          assert g in gs[1..];
        }
        ConcatHasLine(head, tail, g, backend);
      }
    }
  }

  /** A line of either part is a line of the concatenation. */
  lemma ConcatHasLine(head: seq<SizeLine>, tail: seq<SizeLine>, g: Group, backend: string)
    requires HasLine(head, g, backend) || HasLine(tail, g, backend)
    ensures HasLine(head + tail, g, backend)
  {
    var r := head + tail;
    if HasLine(head, g, backend) {
      var i :| 0 <= i < |head| && head[i].group == g && head[i].backend == backend;
      assert r[i] == head[i];
    } else {
      var i :| 0 <= i < |tail| && tail[i].group == g && tail[i].backend == backend;
      assert r[|head| + i] == tail[i];
    }
  }

  lemma HeadLine(stats: Report.Dict<StatKey, real>, g: Group, backend: string)
    requires backend in Backends && HasBothSizes(stats, g, backend)
    ensures HasLine(GroupSizeLines(stats, g), g, backend)
  {
    var head := GroupSizeLines(stats, g);
    if backend == "cpu" {
      assert head[0].group == g && head[0].backend == backend;
    } else {
      assert head[|head| - 1].group == g && head[|head| - 1].backend == backend;
    }
  }

  /** Lines follow the group order, "cpu" before "gpu" within a group. */
  lemma {:induction false} SizeLinesOrdered(stats: Report.Dict<StatKey, real>, gs: seq<Group>)
    requires forall i, j :: 0 <= i < j < |gs| ==> gs[i] != gs[j]
    requires forall i, j :: 0 <= i < j < |gs| ==> GroupLe(gs[i], gs[j])
    ensures forall i, j :: 0 <= i < j < |SizeLines(stats, gs)| ==> SizeLineLe(SizeLines(stats, gs)[i], SizeLines(stats, gs)[j])
  {
    if |gs| > 0 {
      SizeLinesOrdered(stats, gs[1..]);
      SizeLinesSound(stats, gs[1..]);
      GroupLinesSound(stats, gs[0]);
      var tail := SizeLines(stats, gs[1..]);
      assert forall x :: x in gs[1..] ==> x != gs[0] && GroupLe(gs[0], x);
      assert forall i :: 0 <= i < |tail| ==> tail[i].group in gs[1..];
      ConcatOrdered(GroupSizeLines(stats, gs[0]), tail, gs[0]);
    }
  }

  /** The lines of one group in the table's order, followed by lines of
      later groups, are in the table's order. */
  lemma ConcatOrdered(head: seq<SizeLine>, tail: seq<SizeLine>, g: Group)
    requires |head| <= 2 && (|head| == 2 ==> head[0].backend == "cpu" && head[1].backend == "gpu")
    requires forall i :: 0 <= i < |head| ==> head[i].group == g
    requires forall i :: 0 <= i < |tail| ==> tail[i].group != g && GroupLe(g, tail[i].group)
    requires forall i, j :: 0 <= i < j < |tail| ==> SizeLineLe(tail[i], tail[j])
    ensures forall i, j :: 0 <= i < j < |head + tail| ==> SizeLineLe((head + tail)[i], (head + tail)[j])
  {
    var r := head + tail;
    forall i, j | 0 <= i < j < |r|
      ensures SizeLineLe(r[i], r[j])
    {
      if j < |head| {
      } else if i < |head| {
        assert r[j] == tail[j - |head|];
      } else {
        assert r[i] == tail[i - |head|] && r[j] == tail[j - |head|];
      }
    }
  }

  // Build effect

  const DebugBuild: string := "build-debug"
  const ReleaseBuild: string := "build-release"

  function Sum(xs: seq<real>): real {
    if |xs| == 0 then 0.0 else Sum(xs[..|xs| - 1]) + xs[|xs| - 1]
  }

  function Mean(xs: seq<real>): real
    requires |xs| > 0
  {
    Sum(xs) / |xs| as real
  }

  /** A sum of values all below a bound is below that many bounds. */
  lemma {:induction false} SumBelow(xs: seq<real>, m: real)
    requires forall i :: 0 <= i < |xs| ==> xs[i] <= m
    ensures Sum(xs) <= |xs| as real * m
  {
    if |xs| > 0 {
      SumBelow(xs[..|xs| - 1], m);
    }
  }

  lemma {:induction false} SumAbove(xs: seq<real>, m: real)
    requires forall i :: 0 <= i < |xs| ==> m <= xs[i]
    ensures |xs| as real * m <= Sum(xs)
  {
    if |xs| > 0 {
      SumAbove(xs[..|xs| - 1], m);
    }
  }

  /** The index of a smallest value. */
  function MinIndex(xs: seq<real>): (i: nat)
    requires |xs| > 0
    ensures i < |xs| && forall j :: 0 <= j < |xs| ==> xs[i] <= xs[j]
  {
    if |xs| == 1 then 0
    else
      var i := MinIndex(xs[..|xs| - 1]);
      assert forall j :: 0 <= j < |xs| - 1 ==> xs[..|xs| - 1][j] == xs[j];
      if xs[|xs| - 1] < xs[i] then |xs| - 1 else i
  }

  /** The index of a largest value. */
  function MaxIndex(xs: seq<real>): (i: nat)
    requires |xs| > 0
    ensures i < |xs| && forall j :: 0 <= j < |xs| ==> xs[j] <= xs[i]
  {
    if |xs| == 1 then 0
    else
      var i := MaxIndex(xs[..|xs| - 1]);
      assert forall j :: 0 <= j < |xs| - 1 ==> xs[..|xs| - 1][j] == xs[j];
      if xs[i] < xs[|xs| - 1] then |xs| - 1 else i
  }

  /** Dividing by a positive count keeps a bound on a sum. */
  lemma DivBounds(lo: real, sum: real, hi: real, n: real)
    requires n > 0.0 && n * lo <= sum <= n * hi
    ensures lo <= sum / n <= hi
  {
    assert sum / n * n == sum;
  }

  /** The mean lies between the smallest and the largest value. */
  lemma {:induction false} MeanWithin(xs: seq<real>)
    requires |xs| > 0
    ensures xs[MinIndex(xs)] <= Mean(xs) <= xs[MaxIndex(xs)]
  {
    var lo, hi := xs[MinIndex(xs)], xs[MaxIndex(xs)];
    SumAbove(xs, lo);
    SumBelow(xs, hi);
    DivBounds(lo, Sum(xs), hi, |xs| as real);
  }

  /** The values of one filter and build, over every resolution and
      backend. */
  function BuildValues(stats: Report.Dict<StatKey, real>, f: string, build: string): (r: seq<real>)
    ensures |r| > 0 <==> exists res, b :: (f, build, res, b) in Report.Keys(stats)
  {
    if |stats| == 0 then []
    else
      var r := BuildValues(stats[..|stats| - 1], f, build);
      var k := stats[|stats| - 1].0;
      assert Report.Keys(stats) == Report.Keys(stats[..|stats| - 1]) + [k];
      if k.0 == f && k.1 == build then r + [stats[|stats| - 1].1] else r
  }

  function Filters(stats: Report.Dict<StatKey, real>): (r: seq<string>)
    ensures forall f :: f in r <==> exists b, res, be :: (f, b, res, be) in Report.Keys(stats)
    ensures forall i, j :: 0 <= i < j < |r| ==> r[i] != r[j]
  {
    var all := seq(|stats|, i requires 0 <= i < |stats| => stats[i].0.0);
    assert forall f :: f in all <==> exists b, res, be :: (f, b, res, be) in Report.Keys(stats) by {
      forall f | f in all ensures exists b, res, be :: (f, b, res, be) in Report.Keys(stats) {
        var i :| 0 <= i < |all| && all[i] == f;
        assert Report.Keys(stats)[i] == (f, stats[i].0.1, stats[i].0.2, stats[i].0.3);
      }
      forall f | exists b, res, be :: (f, b, res, be) in Report.Keys(stats) ensures f in all {
        var b, res, be :| (f, b, res, be) in Report.Keys(stats);
        var i :| 0 <= i < |stats| && Report.Keys(stats)[i] == (f, b, res, be);
        assert all[i] == f;
      }
    }
    Report.Distinct(all)
  }

  /** Both builds were measured for the filter. */
  predicate HasBothBuilds(stats: Report.Dict<StatKey, real>, f: string) {
    |BuildValues(stats, f, DebugBuild)| > 0 && |BuildValues(stats, f, ReleaseBuild)| > 0
  }

  datatype BuildLine = BuildLine(filt: string, change: Change)

  function BuildLineOf(stats: Report.Dict<StatKey, real>, f: string): BuildLine
    requires HasBothBuilds(stats, f)
  {
    BuildLine(f, ChangeOf(Mean(BuildValues(stats, f, DebugBuild)), Mean(BuildValues(stats, f, ReleaseBuild))))
  }

  /** The build-effect table: one line per filter measured in both builds,
      in string order, comparing the release mean against the debug mean,
      each mean taken over all of the build's resolutions and backends. */
  function BuildEffect(stats: Report.Dict<StatKey, real>): (r: seq<BuildLine>)
    ensures forall f :: (exists i :: 0 <= i < |r| && r[i].filt == f) <==> HasBothBuilds(stats, f)
    ensures forall i :: 0 <= i < |r| ==> HasBothBuilds(stats, r[i].filt)
    ensures forall i :: 0 <= i < |r| ==> r[i] == BuildLineOf(stats, r[i].filt)
    ensures forall i, j :: 0 <= i < j < |r| ==> r[i].filt != r[j].filt
    ensures forall i, j :: 0 <= i < j < |r| ==> Sorting.StringLe(r[i].filt, r[j].filt)
  {
    var kept := ComparedFilters(stats);
    var r := seq(|kept|, i requires 0 <= i < |kept| => BuildLineOf(stats, kept[i]));
    assert forall i :: 0 <= i < |r| ==> r[i].filt == kept[i];
    r
  }

  /** The filters measured in both builds, each once, in string order. */
  function ComparedFilters(stats: Report.Dict<StatKey, real>): (fs: seq<string>)
    ensures forall f :: f in fs <==> HasBothBuilds(stats, f)
    ensures forall i, j :: 0 <= i < j < |fs| ==> fs[i] != fs[j]
    ensures forall i, j :: 0 <= i < j < |fs| ==> Sorting.StringLe(fs[i], fs[j])
  {
    Sorting.StringOrder();
    Sorting.SortDistinct(Filters(stats), Sorting.StringLe);
    var sorted := Sorting.Sort(Filters(stats), Sorting.StringLe);
    assert forall i, j :: 0 <= i < j < |sorted| ==> Sorting.StringLe(sorted[i], sorted[j]);
    FilterSorted(sorted, f => HasBothBuilds(stats, f));
    forall f | HasBothBuilds(stats, f)
      ensures f in sorted
    {
      var res, b :| (f, DebugBuild, res, b) in Report.Keys(stats);
    }
    Report.Filter(sorted, f => HasBothBuilds(stats, f))
  }

  /** Keeping some elements of a sorted sequence leaves it sorted. */
  lemma {:induction false} FilterSorted(xs: seq<string>, p: string -> bool)
    requires forall i, j :: 0 <= i < j < |xs| ==> xs[i] != xs[j]
    requires forall i, j :: 0 <= i < j < |xs| ==> Sorting.StringLe(xs[i], xs[j])
    ensures forall i, j :: 0 <= i < j < |Report.Filter(xs, p)| ==>
              Sorting.StringLe(Report.Filter(xs, p)[i], Report.Filter(xs, p)[j])
  {
    if |xs| > 0 {
      FilterSorted(xs[1..], p);
      var t := Report.Filter(xs[1..], p);
      var r := Report.Filter(xs, p);
      assert forall x :: x in xs[1..] ==> Sorting.StringLe(xs[0], x);
      if p(xs[0]) {
        assert r == [xs[0]] + t;
        forall i, j | 0 <= i < j < |r|
          ensures Sorting.StringLe(r[i], r[j])
        {
          assert r[j] == t[j - 1] && t[j - 1] in t;
          if i > 0 {
            assert r[i] == t[i - 1];
          }
        }
      } else {
        assert r == t;
      }
    }
  }

  /** The three tables, or `None` where the script raises: an unparseable
      mean, or an unparseable resolution in the CPU/GPU sort. The tables are
      those of the stats the rows give. */
  datatype Tables = Tables(cpuGpu: seq<CellLine>, sizes: seq<SizeLine>, builds: seq<BuildLine>)

  function Analyze(rows: seq<Row>, parseFloat: string -> Option<real>): (r: Option<Tables>)
    ensures r.Some? <==> (forall i :: 0 <= i < |rows| ==> parseFloat(rows[i].meanMs).Some?)
                         && (forall i :: 0 <= i < |rows| ==> Report.ResolutionKey(rows[i].res).Some?)
    ensures r.Some? ==> && Stats(rows, parseFloat).Some?
                        && CpuGpuTable(Stats(rows, parseFloat).value).Some?
                        && r.value == Tables(CpuGpuTable(Stats(rows, parseFloat).value).value,
                                             ResolutionEffect(Stats(rows, parseFloat).value),
                                             BuildEffect(Stats(rows, parseFloat).value))
  {
    match Stats(rows, parseFloat)
    case None => None
    case Some(stats) =>
      StatsResolutions(rows, parseFloat, stats);
      match CpuGpuTable(stats)
      case None => None
      case Some(t) => Some(Tables(t, ResolutionEffect(stats), BuildEffect(stats)))
  }

  /** The stats hold a key for each row, and only those. */
  lemma {:induction false} StatsResolutions(rows: seq<Row>, parseFloat: string -> Option<real>, stats: Report.Dict<StatKey, real>)
    requires Stats(rows, parseFloat) == Some(stats)
    ensures (exists i :: 0 <= i < |stats| && Report.ResolutionKey(stats[i].0.2).None?)
            <==> exists i :: 0 <= i < |rows| && Report.ResolutionKey(rows[i].res).None?
  {
    if exists i :: 0 <= i < |stats| && Report.ResolutionKey(stats[i].0.2).None? {
      var i :| 0 <= i < |stats| && Report.ResolutionKey(stats[i].0.2).None?;
      var k := stats[i].0;
      assert Report.Keys(stats)[i] == k;
      assert LastMean(rows, parseFloat, k).Some?;
      var j := LastMeanRow(rows, parseFloat, k);
    }
    if exists i :: 0 <= i < |rows| && Report.ResolutionKey(rows[i].res).None? {
      var i :| 0 <= i < |rows| && Report.ResolutionKey(rows[i].res).None?;
      LastMeanFound(rows, parseFloat, i);
      var k := KeyOf(rows[i]);
      assert Report.Get(stats, k).Some?;
      var j :| 0 <= j < |stats| && Report.Keys(stats)[j] == k;
      assert Report.ResolutionKey(stats[j].0.2).None?;
    }
  }

  lemma {:induction false} LastMeanRow(rows: seq<Row>, parseFloat: string -> Option<real>, k: StatKey) returns (j: nat)
    requires LastMean(rows, parseFloat, k).Some?
    ensures j < |rows| && KeyOf(rows[j]) == k
  {
    if KeyOf(rows[|rows| - 1]) == k {
      j := |rows| - 1;
    } else {
      j := LastMeanRow(rows[..|rows| - 1], parseFloat, k);
    }
  }

  lemma {:induction false} LastMeanFound(rows: seq<Row>, parseFloat: string -> Option<real>, i: nat)
    requires i < |rows| && forall j :: 0 <= j < |rows| ==> parseFloat(rows[j].meanMs).Some?
    ensures LastMean(rows, parseFloat, KeyOf(rows[i])).Some?
  {
    if KeyOf(rows[|rows| - 1]) != KeyOf(rows[i]) {
      assert rows[..|rows| - 1][i] == rows[i];
      LastMeanFound(rows[..|rows| - 1], parseFloat, i);
    }
  }
}
