/** The bookkeeping of the per-configuration benchmark plotter: the
    configuration key encoded in each benchmark file name, the frame times
    read from each file, one summary row per configuration in key order, and
    the numeric order of the resolution axis. File I/O, `statistics.mean` and
    `statistics.stdev`, and the drawing are parameters or left out. */
module PlotBench {
  import opened Wrappers
  import Text
  import Sorting
  import Report

  /** A benchmark configuration, in the order the summary keys it. */
  datatype BenchKey = BenchKey(build: string, filt: string, backend: string, res: string, trans: string)

  /** The six underscore-separated fields of a benchmark file name. */
  function NameParts(k: BenchKey): seq<string> {
    ["bench", k.filt, k.backend, k.trans, k.res, k.build]
  }

  /** The file name the run scripts write for a configuration:
      `bench_<filter>_<backend>_<transforms>_<resolution>_<build>.csv`. */
  function FileName(k: BenchKey): string {
    Text.Join(NameParts(k), '_') + ".csv"
  }

  /** The base name with every ".csv" removed, split on "_"; a name with
      fewer than six parts is skipped, and parts after the sixth are
      ignored. */
  function KeyOfName(name: string): (r: Option<BenchKey>)
    ensures r.Some? ==> '_' !in r.value.build && '_' !in r.value.filt && '_' !in r.value.backend
                        && '_' !in r.value.res && '_' !in r.value.trans
  {
    var parts := Text.Split(Text.RemoveAll(name, ".csv"), '_');
    if |parts| < 6 then None
    else Some(BenchKey(parts[5], parts[1], parts[2], parts[4], parts[3]))
  }

  /** A field usable in a file name: no separator, no dot. */
  predicate PlainField(s: string) {
    '_' !in s && '.' !in s
  }

  predicate PlainKey(k: BenchKey) {
    PlainField(k.build) && PlainField(k.filt) && PlainField(k.backend) && PlainField(k.res) && PlainField(k.trans)
  }

  /** A character absent from every part and distinct from the separator is
      absent from the joined string. */
  lemma {:induction false} JoinAvoids(parts: seq<string>, d: char, c: char)
    requires |parts| >= 1 && c != d
    requires forall p :: p in parts ==> c !in p
    ensures c !in Text.Join(parts, d)
  {
    if |parts| > 1 {
      assert parts[1..][0] in parts;
      JoinAvoids(parts[1..], d, c);
    }
  }

  /** Joins plain parts with "_", appends ".csv", and reads the parts back. */
  lemma NamePartsBack(parts: seq<string>)
    requires |parts| >= 1 && forall p :: p in parts ==> PlainField(p)
    ensures Text.Split(Text.RemoveAll(Text.Join(parts, '_') + ".csv", ".csv"), '_') == parts
  {
    JoinAvoids(parts, '_', '.');
    Text.RemoveAllSuffix(Text.Join(parts, '_'), ".csv");
    Text.SplitJoin(parts, '_');
  }

  /** The key read from a file name is the configuration the name was
      written for. */
  lemma NameRoundTrip(k: BenchKey)
    requires PlainKey(k)
    ensures KeyOfName(FileName(k)) == Some(k)
  {
    NamePartsBack(NameParts(k));
  }

  /** Extra underscore-separated parts after the build do not change the
      key. */
  lemma ExtraPartsIgnored(k: BenchKey, extra: seq<string>)
    requires PlainKey(k) && forall p :: p in extra ==> PlainField(p)
    ensures KeyOfName(Text.Join(NameParts(k) + extra, '_') + ".csv") == Some(k)
  {
    NamePartsBack(NameParts(k) + extra);
  }

  /** A name of fewer than six plain parts is skipped. */
  lemma ShortNameSkipped(parts: seq<string>)
    requires 1 <= |parts| < 6 && forall p :: p in parts ==> PlainField(p)
    ensures KeyOfName(Text.Join(parts, '_') + ".csv") == None
  {
    NamePartsBack(parts);
  }

  /** The value of one data row: none for an empty row or a first cell that
      `float` rejects. */
  function RowValue(row: seq<string>, parseFloat: string -> Option<real>): Option<real> {
    if |row| == 0 then None else parseFloat(row[0])
  }

  /** The values of the data rows, in order. */
  function DataValues(rows: seq<seq<string>>, parseFloat: string -> Option<real>): seq<real> {
    if |rows| == 0 then []
    else
      (match RowValue(rows[0], parseFloat) case Some(v) => [v] case None => [])
        + DataValues(rows[1..], parseFloat)
  }

  /** The values of a file: the first row is the header and is skipped
      whatever it holds. */
  function FileValues(rows: seq<seq<string>>, parseFloat: string -> Option<real>): seq<real> {
    if |rows| == 0 then [] else DataValues(rows[1..], parseFloat)
  }

  /** A file whose data rows are all non-empty with a parseable first cell
      yields one value per data row, in order. */
  lemma {:induction false} CleanRows(rows: seq<seq<string>>, parseFloat: string -> Option<real>)
    requires forall i :: 0 <= i < |rows| ==> RowValue(rows[i], parseFloat).Some?
    ensures |DataValues(rows, parseFloat)| == |rows|
            && forall i :: 0 <= i < |rows| ==> DataValues(rows, parseFloat)[i] == RowValue(rows[i], parseFloat).value
  {
    if |rows| > 0 {
      CleanRows(rows[1..], parseFloat);
      assert forall i :: 1 <= i < |rows| ==> rows[1..][i - 1] == rows[i];
    }
  }

  /** Rows without a value contribute nothing, wherever they are. */
  lemma {:induction false} DataValuesAppend(a: seq<seq<string>>, b: seq<seq<string>>, parseFloat: string -> Option<real>)
    ensures DataValues(a + b, parseFloat) == DataValues(a, parseFloat) + DataValues(b, parseFloat)
  {
    if |a| > 0 {
      assert (a + b)[1..] == a[1..] + b;
      DataValuesAppend(a[1..], b, parseFloat);
    } else {
      assert a + b == b;
    }
  }

  datatype BenchFile = BenchFile(path: string, name: string, rows: seq<seq<string>>)

  /** What one file contributes: its key and values, when the name yields a
      key and at least one value was read. */
  function Recorded(f: BenchFile, parseFloat: string -> Option<real>): Option<(BenchKey, seq<real>)> {
    match KeyOfName(f.name)
    case None => None
    case Some(k) =>
      var vals := FileValues(f.rows, parseFloat);
      if |vals| == 0 then None else Some((k, vals))
  }

  /** The `data` dictionary after reading `files` in order: a file with
      values assigns its key, replacing what an earlier file with the same
      key stored. The file's path is kept with the values. */
  function Collect(files: seq<BenchFile>, parseFloat: string -> Option<real>): (r: Report.Dict<BenchKey, (seq<real>, string)>)
    ensures Report.UniqueKeys(r) && |r| <= |files|
  {
    if |files| == 0 then []
    else
      var d := Collect(files[..|files| - 1], parseFloat);
      var f := files[|files| - 1];
      match Recorded(f, parseFloat)
      case None => d
      case Some((k, vals)) =>
        Report.PutUnique(d, k, (vals, f.path));
        Report.Put(d, k, (vals, f.path))
  }

  /** What the last file recording `k` recorded, if any file did. */
  function LastRecording(files: seq<BenchFile>, parseFloat: string -> Option<real>, k: BenchKey): Option<(seq<real>, string)> {
    if |files| == 0 then None
    else
      var f := files[|files| - 1];
      var r := Recorded(f, parseFloat);
      if r.Some? && r.value.0 == k then Some((r.value.1, f.path))
      else LastRecording(files[..|files| - 1], parseFloat, k)
  }

  /** The collected dictionary has distinct keys; a configuration is in it
      exactly when some file recorded it, with the values and path of the
      last such file; and every stored value list is non-empty. */
  lemma {:induction false} CollectLast(files: seq<BenchFile>, parseFloat: string -> Option<real>)
    ensures Report.UniqueKeys(Collect(files, parseFloat))
    ensures forall k :: Report.Get(Collect(files, parseFloat), k) == LastRecording(files, parseFloat, k)
    ensures forall i :: 0 <= i < |Collect(files, parseFloat)| ==> |Collect(files, parseFloat)[i].1.0| > 0
  {
    if |files| > 0 {
      var init := files[..|files| - 1];
      CollectLast(init, parseFloat);
      var d := Collect(init, parseFloat);
      var f := files[|files| - 1];
      var r := Recorded(f, parseFloat);
      if r.Some? {
        var k0 := r.value.0;
        Report.PutGet(d, k0, (r.value.1, f.path));
        var d' := Collect(files, parseFloat);
        forall i | 0 <= i < |d'|
          ensures |d'[i].1.0| > 0
        {
          Report.PutAt(d, k0, (r.value.1, f.path));
          if d'[i].0 != k0 {
            assert Report.Get(d', d'[i].0) == Some(d'[i].1);
            assert Report.Get(d, d'[i].0) == Some(d'[i].1);
            assert (d'[i].0, d'[i].1) in d;
          }
        }
      }
    }
  }

  /** One line of `summary.csv`. */
  datatype SummaryRow = SummaryRow(key: BenchKey, frames: nat, mean: real, std: real, path: string)

  /** A configuration's fields as a tuple, for ordering. */
  function Fields(k: BenchKey): seq<string> {
    [k.build, k.filt, k.backend, k.res, k.trans]
  }

  predicate ItemLe(a: (BenchKey, (seq<real>, string)), b: (BenchKey, (seq<real>, string))) {
    Sorting.TupleLe(Fields(a.0), Fields(b.0))
  }

  lemma ItemOrder()
    ensures Sorting.TotalPreorder(ItemLe)
  {
    forall a, b ensures ItemLe(a, b) || ItemLe(b, a) {
      Sorting.TupleLeTotal(Fields(a.0), Fields(b.0));
    }
    forall a, b, c | ItemLe(a, b) && ItemLe(b, c) ensures ItemLe(a, c) {
      Sorting.TupleLeTransitive(Fields(a.0), Fields(b.0), Fields(c.0));
    }
  }

  function SummaryOf(item: (BenchKey, (seq<real>, string)), mean: seq<real> -> real, stdev: seq<real> -> real): SummaryRow {
    var vals := item.1.0;
    SummaryRow(item.0, |vals|, mean(vals), if |vals| > 1 then stdev(vals) else 0.0, item.1.1)
  }

  function SummaryRows(s: Report.Dict<BenchKey, (seq<real>, string)>, mean: seq<real> -> real, stdev: seq<real> -> real): seq<SummaryRow> {
    seq(|s|, i requires 0 <= i < |s| => SummaryOf(s[i], mean, stdev))
  }

  /** A summary row describes its configuration's values faithfully. */
  predicate Describes(d: Report.Dict<BenchKey, (seq<real>, string)>, row: SummaryRow, mean: seq<real> -> real, stdev: seq<real> -> real) {
    var e := Report.Get(d, row.key);
    && e.Some?
    && row.frames == |e.value.0| && row.path == e.value.1
    && row.mean == mean(e.value.0)
    && row.std == (if row.frames > 1 then stdev(e.value.0) else 0.0)
  }

  /** The summary: one row per configuration, in tuple order of
      `(build, filter, backend, resolution, transforms)`; each row's frame
      count is the number of values, its mean and deviation those of the
      values, except that a single value has deviation 0 (sample deviation
      is undefined there). */
  function Summarize(d: Report.Dict<BenchKey, (seq<real>, string)>, mean: seq<real> -> real, stdev: seq<real> -> real): (r: seq<SummaryRow>)
    requires Report.UniqueKeys(d)
    ensures |r| == |d|
    ensures forall i, j :: 0 <= i < j < |r| ==> Sorting.TupleLe(Fields(r[i].key), Fields(r[j].key))
    ensures forall k :: k in Report.Keys(d) <==> exists i :: 0 <= i < |r| && r[i].key == k
    ensures forall i :: 0 <= i < |r| ==> Describes(d, r[i], mean, stdev)
  {
    ItemOrder();
    var s := Sorting.Sort(d, ItemLe);
    Report.ReorderedItems(d, s);
    SummaryRowsFacts(d, s, mean, stdev);
    SummaryRows(s, mean, stdev)
  }

  lemma SummaryRowsFacts(d: Report.Dict<BenchKey, (seq<real>, string)>, s: Report.Dict<BenchKey, (seq<real>, string)>, mean: seq<real> -> real, stdev: seq<real> -> real)
    requires forall i :: 0 <= i < |s| ==> Report.Get(d, s[i].0) == Some(s[i].1)
    requires forall k :: k in Report.Keys(d) <==> k in Report.Keys(s)
    requires forall i, j :: 0 <= i < j < |s| ==> ItemLe(s[i], s[j])
    ensures var r := SummaryRows(s, mean, stdev);
            && (forall i, j :: 0 <= i < j < |r| ==> Sorting.TupleLe(Fields(r[i].key), Fields(r[j].key)))
            && (forall k :: k in Report.Keys(d) <==> exists i :: 0 <= i < |r| && r[i].key == k)
            && (forall i :: 0 <= i < |r| ==> Describes(d, r[i], mean, stdev))
  {
    var r := SummaryRows(s, mean, stdev);
    forall i | 0 <= i < |r|
      ensures r[i].key == Report.Keys(s)[i] && Describes(d, r[i], mean, stdev)
    {
      assert r[i] == SummaryOf(s[i], mean, stdev);
    }
    forall i, j | 0 <= i < j < |r|
      ensures Sorting.TupleLe(Fields(r[i].key), Fields(r[j].key))
    {
      assert ItemLe(s[i], s[j]);
    }
    RowsCover(d, s, r);
  }

  lemma RowsCover(d: Report.Dict<BenchKey, (seq<real>, string)>, s: Report.Dict<BenchKey, (seq<real>, string)>, r: seq<SummaryRow>)
    requires forall k :: k in Report.Keys(d) <==> k in Report.Keys(s)
    requires |r| == |s| && forall i :: 0 <= i < |r| ==> r[i].key == Report.Keys(s)[i]
    ensures forall k :: k in Report.Keys(d) <==> exists i :: 0 <= i < |r| && r[i].key == k
  {
    forall k | k in Report.Keys(d)
      ensures exists i :: 0 <= i < |r| && r[i].key == k
    {
      var i :| 0 <= i < |s| && Report.Keys(s)[i] == k;
      assert r[i].key == k;
    }
  }

  /** The resolution axis of every plot: each resolution of the summary
      once, ordered by numeric width and then height; `None` where Python
      raises because a resolution has no "x" or a non-numeric side. */
  function PlotResolutions(rows: seq<SummaryRow>): (r: Option<seq<string>>)
    ensures r.None? <==> exists i :: 0 <= i < |rows| && Report.ResolutionKey(rows[i].key.res).None?
    ensures r.Some? ==> forall x :: x in r.value <==> exists i :: 0 <= i < |rows| && rows[i].key.res == x
    ensures r.Some? ==> forall i, j :: 0 <= i < j < |r.value| ==> r.value[i] != r.value[j]
    ensures r.Some? ==> forall i :: 0 <= i < |r.value| ==> Report.ResolutionKey(r.value[i]).Some?
    ensures r.Some? ==> forall i, j :: 0 <= i < j < |r.value| ==>
              Sorting.PairLe(Report.ResolutionKey(r.value[i]).value, Report.ResolutionKey(r.value[j]).value)
  {
    var all := Resolutions(rows);
    var r := Report.SortResolutions(Report.Distinct(all));
    ResolutionsDistinct(all);
    r
  }

  function Resolutions(rows: seq<SummaryRow>): (all: seq<string>)
    ensures |all| == |rows| && forall i :: 0 <= i < |rows| ==> all[i] == rows[i].key.res
  {
    seq(|rows|, i requires 0 <= i < |rows| => rows[i].key.res)
  }

  lemma ResolutionsDistinct(all: seq<string>)
    ensures var r := Report.SortResolutions(Report.Distinct(all));
            (r.None? <==> exists x :: x in all && Report.ResolutionKey(x).None?)
            && (r.Some? ==> forall x :: x in r.value <==> x in all)
            && (r.Some? ==> forall i, j :: 0 <= i < j < |r.value| ==> r.value[i] != r.value[j])
  {
    var ds := Report.Distinct(all);
    var r := Report.SortResolutions(ds);
    if r.Some? {
      SortedDistinct(ds);
    } else {
      var i :| 0 <= i < |ds| && Report.ResolutionKey(ds[i]).None?;
      assert ds[i] in all;
    }
  }

  /** Sorting distinct resolutions keeps them distinct and keeps the same
      elements. */
  lemma SortedDistinct(ds: seq<string>)
    requires forall i, j :: 0 <= i < j < |ds| ==> ds[i] != ds[j]
    requires forall i :: 0 <= i < |ds| ==> Report.ResolutionKey(ds[i]).Some?
    ensures Report.SortResolutions(ds).Some?
    ensures var sorted := Report.SortResolutions(ds).value;
            (forall x :: x in sorted <==> x in ds)
            && (forall i, j :: 0 <= i < j < |sorted| ==> sorted[i] != sorted[j])
  {
    Report.ResolutionOrder();
    assert Report.SortResolutions(ds).value == Sorting.Sort(ds, Report.ResolutionLe);
    Sorting.SortDistinct(ds, Report.ResolutionLe);
  }

  /** The mean plotted for a bar: the mean of the summary row with this
      filter, build, backend, transforms and resolution (a later row
      overwrites an earlier one); none when there is no such row. */
  function RowMean(rows: seq<SummaryRow>, filt: string, build: string, combo: (string, string), res: string): (r: Option<real>)
    ensures r.Some? ==> exists i :: 0 <= i < |rows| && rows[i].key == BenchKey(build, filt, combo.0, res, combo.1)
                          && rows[i].mean == r.value
                          && forall j :: i < j < |rows| ==> rows[j].key != BenchKey(build, filt, combo.0, res, combo.1)
    ensures r.None? ==> forall i :: 0 <= i < |rows| ==> rows[i].key != BenchKey(build, filt, combo.0, res, combo.1)
  {
    if |rows| == 0 then None
    else
      var k := rows[|rows| - 1].key;
      if k.filt == filt && k.build == build && (k.backend, k.trans) == combo && k.res == res
      then Some(rows[|rows| - 1].mean)
      else
        var r := RowMean(rows[..|rows| - 1], filt, build, combo, res);
        LookupStep(rows, BenchKey(build, filt, combo.0, res, combo.1), r);
        r
  }

  /** A last row with another key leaves the lookup of the rows before it
      standing. */
  lemma LookupStep(rows: seq<SummaryRow>, key: BenchKey, r: Option<real>)
    requires |rows| > 0 && rows[|rows| - 1].key != key
    requires var init := rows[..|rows| - 1];
             && (r.Some? ==> exists i :: 0 <= i < |init| && init[i].key == key && init[i].mean == r.value
                                         && forall j :: i < j < |init| ==> init[j].key != key)
             && (r.None? ==> forall i :: 0 <= i < |init| ==> init[i].key != key)
    ensures r.Some? ==> exists i :: 0 <= i < |rows| && rows[i].key == key && rows[i].mean == r.value
                                    && forall j :: i < j < |rows| ==> rows[j].key != key
    ensures r.None? ==> forall i :: 0 <= i < |rows| ==> rows[i].key != key
  {
    var init := rows[..|rows| - 1];
    assert forall i :: 0 <= i < |init| ==> init[i] == rows[i];
  }

  /** The heights of one combination's bars in the plot of `(filt, build)`:
      one per resolution of the axis, 0 where no row exists. */
  function BarHeights(rows: seq<SummaryRow>, filt: string, build: string, combo: (string, string), axis: seq<string>): (r: seq<real>)
    ensures |r| == |axis|
    ensures forall j :: 0 <= j < |axis| ==>
              (exists i :: 0 <= i < |rows| && rows[i].key == BenchKey(build, filt, combo.0, axis[j], combo.1) && rows[i].mean == r[j])
              || (r[j] == 0.0 && forall i :: 0 <= i < |rows| ==> rows[i].key != BenchKey(build, filt, combo.0, axis[j], combo.1))
  {
    seq(|axis|, j requires 0 <= j < |axis| => RowMean(rows, filt, build, combo, axis[j]).GetOr(0.0))
  }

  /** A configuration's summary row in the key set of a summary with
      distinct keys is found by the bar lookup, with its own mean. */
  lemma {:induction false} RowMeanFinds(rows: seq<SummaryRow>, i: nat)
    requires i < |rows|
    requires forall a, b :: 0 <= a < b < |rows| ==> rows[a].key != rows[b].key
    ensures var k := rows[i].key;
            RowMean(rows, k.filt, k.build, (k.backend, k.trans), k.res) == Some(rows[i].mean)
  {
    if i < |rows| - 1 {
      assert rows[..|rows| - 1][i] == rows[i];
      RowMeanFinds(rows[..|rows| - 1], i);
    }
  }

  /** No row, no bar height: the lookup finds nothing exactly when no row
      carries that configuration. */
  lemma {:induction false} RowMeanMissing(rows: seq<SummaryRow>, filt: string, build: string, combo: (string, string), res: string)
    ensures RowMean(rows, filt, build, combo, res).None? <==>
            forall i :: 0 <= i < |rows| ==> rows[i].key != BenchKey(build, filt, combo.0, res, combo.1)
  {
    if |rows| > 0 {
      RowMeanMissing(rows[..|rows| - 1], filt, build, combo, res);
      assert forall i :: 0 <= i < |rows| - 1 ==> rows[..|rows| - 1][i] == rows[i];
    }
  }

  /** Every summary row shows up as a bar: in the plot of its filter and
      build, its combination's bar over its resolution has its mean. */
  lemma BarShowsRow(rows: seq<SummaryRow>, i: nat, axis: seq<string>, j: nat)
    requires i < |rows| && j < |axis| && axis[j] == rows[i].key.res
    requires forall a, b :: 0 <= a < b < |rows| ==> rows[a].key != rows[b].key
    ensures var k := rows[i].key;
            BarHeights(rows, k.filt, k.build, (k.backend, k.trans), axis)[j] == rows[i].mean
  {
    RowMeanFinds(rows, i);
  }

  /** The bar layout within one resolution tick: `n` bars of width
      `0.8 / max(1, n)`, the first centred at `-0.4 + width / 2`. */
  function BarWidth(n: nat): real {
    0.8 / (if n > 1 then n else 1) as real
  }

  function BarOffset(n: nat, i: nat): real {
    -0.4 + BarWidth(n) / 2.0 + i as real * BarWidth(n)
  }

  /** The bars of a tick tile the interval `[-0.4, 0.4]` around it: each bar
      lies inside it, and each one starts where the previous one ends. */
  lemma BarsTile(n: nat, i: nat)
    requires i < n
    ensures -0.4 <= BarOffset(n, i) - BarWidth(n) / 2.0
    ensures BarOffset(n, i) + BarWidth(n) / 2.0 <= 0.4
    ensures i + 1 < n ==> BarOffset(n, i + 1) - BarWidth(n) / 2.0 == BarOffset(n, i) + BarWidth(n) / 2.0
  {
    var w := BarWidth(n);
    var m := if n > 1 then n else 1;
    assert w * m as real == 0.8;
    assert (i + 1) as real * w <= m as real * w;
  }

  /** The script exits with status 1 when there is no benchmark file;
      otherwise it writes the summary of what the files hold: one row for
      each configuration some file recorded, and no other. */
  function PlotBenchRun(files: seq<BenchFile>, parseFloat: string -> Option<real>, mean: seq<real> -> real, stdev: seq<real> -> real): (r: Result<seq<SummaryRow>, int>)
    ensures r.Err? <==> |files| == 0
    ensures r.Err? ==> r.error == 1
    ensures r.Ok? ==> |r.value| == |Collect(files, parseFloat)|
    ensures r.Ok? ==> forall i :: 0 <= i < |r.value| ==> r.value[i].frames > 0
    ensures r.Ok? ==> r.value == Summarize(Collect(files, parseFloat), mean, stdev)
    ensures r.Ok? ==> forall k :: LastRecording(files, parseFloat, k).Some? <==> exists i :: 0 <= i < |r.value| && r.value[i].key == k
  {
    if |files| == 0 then Err(1)
    else
      CollectLast(files, parseFloat);
      Ok(Summarize(Collect(files, parseFloat), mean, stdev))
  }
}
