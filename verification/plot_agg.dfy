/** The aggregate report over `summary.csv`: the mean frame time per
    filter, per backend (CPU or GPU), and per filter and backend, each with
    its sample deviation and count, in string order of the group. The two
    bar charts plot the first two levels; drawing, `statistics.mean`,
    `statistics.stdev` and `float` are parameters or left out. */
module PlotAgg {
  import opened Wrappers
  import Text
  import Sorting
  import Report

  /** The columns of a summary row the aggregation reads. */
  datatype AggRow = AggRow(filt: string, backend: string, meanMs: string)

  /** Filter and backend names with surrounding whitespace removed. */
  function Clean(row: AggRow): (r: AggRow)
    ensures Text.Strip(r.filt) == r.filt && Text.Strip(r.backend) == r.backend
    ensures r.meanMs == row.meanMs
  {
    Text.StripIdempotent(row.filt);
    Text.StripIdempotent(row.backend);
    AggRow(Text.Strip(row.filt), Text.Strip(row.backend), row.meanMs)
  }

  /** `b.lower().strip()`. */
  function Folded(b: string): string {
    Text.Strip(Text.ToLower(b))
  }

  /** The backend group: "cpu" when the folded name mentions it, else "gpu"
      when it mentions that, else the folded name. */
  function NormalizeBackend(b: string): (r: string)
    ensures Folded(r) == r
  {
    var f := Folded(b);
    FoldedFixed(b);
    FoldedNames();
    if Text.Contains(f, "cpu") then "cpu"
    else if Text.Contains(f, "gpu") then "gpu"
    else f
  }

  /** A name without upper-case letters or whitespace folds to itself. */
  lemma FoldedPlain(s: string)
    requires forall k :: 0 <= k < |s| ==> !Text.IsUpper(s[k]) && !Text.IsSpace(s[k])
    ensures Folded(s) == s
  {
    assert Text.ToLower(s) == s;
    Text.StripNoSpace(s);
  }

  /** The two backend names are already folded. */
  lemma FoldedNames()
    ensures Folded("cpu") == "cpu" && Folded("gpu") == "gpu"
  {
    FoldedPlain("cpu");
    FoldedPlain("gpu");
  }

  /** Folding a folded name changes nothing. */
  lemma FoldedFixed(b: string)
    ensures Folded(Folded(b)) == Folded(b)
  {
    var l := Text.ToLower(b);
    Text.ToLowerIdempotent(b);
    LowerStrip(l);
    Text.StripIdempotent(l);
  }

  /** Stripping a lower-case string leaves it lower-case. */
  lemma LowerStrip(s: string)
    requires Text.ToLower(s) == s
    ensures Text.ToLower(Text.Strip(s)) == Text.Strip(s)
  {
    var r := Text.Strip(s);
    var i, j :| 0 <= i <= j <= |s| && r == s[i..j];
    forall k | 0 <= k < |r|
      ensures Text.ToLower(r)[k] == r[k]
    {
      assert r[k] == s[i + k] == Text.ToLower(s)[i + k];
    }
  }

  /** Normalising a normalised backend changes nothing. */
  lemma NormalizeBackendIdempotent(b: string)
    ensures NormalizeBackend(NormalizeBackend(b)) == NormalizeBackend(b)
  {
    var r := NormalizeBackend(b);
    FoldedNames();
    NameTokens();
    BackendTokens(r);
    if r != "cpu" && r != "gpu" {
      BackendTokens(b);
    }
  }

  /** Which backend names mention which token. */
  lemma NameTokens()
    ensures Text.Contains("cpu", "cpu") && Text.Contains("gpu", "gpu") && !Text.Contains("gpu", "cpu")
  {
    assert Text.OccursAt("cpu", "cpu", 0);
    assert Text.OccursAt("gpu", "gpu", 0);
    assert "gpu"[0] != "cpu"[0];
  }

  /** Names that mention a backend fall into exactly that backend's group. */
  lemma BackendTokens(b: string)
    ensures Text.Contains(Folded(b), "cpu") ==> NormalizeBackend(b) == "cpu"
    ensures !Text.Contains(Folded(b), "cpu") && Text.Contains(Folded(b), "gpu") ==> NormalizeBackend(b) == "gpu"
    ensures !Text.Contains(Folded(b), "cpu") && !Text.Contains(Folded(b), "gpu") ==> NormalizeBackend(b) == Folded(b)
  {
  }

  /** The mean of a row, where `float` accepts it; other rows are skipped. */
  function Value(parseFloat: string -> Option<real>): AggRow -> Option<real> {
    (row: AggRow) => parseFloat(row.meanMs)
  }

  function FilterKey(row: AggRow): string { row.filt }
  function BackendKey(row: AggRow): string { NormalizeBackend(row.backend) }

  /** The filter|backend key: the backend is folded but not normalised. */
  function PairKey(row: AggRow): string { row.filt + "|" + Folded(row.backend) }

  /** One line of `aggregated_stats.csv`. */
  datatype AggLine = AggLine(level: string, group: string, mean: real, std: real, count: nat)

  function LineOf(level: string, item: (string, seq<real>), mean: seq<real> -> real, stdev: seq<real> -> real): AggLine {
    var vals := item.1;
    AggLine(level, item.0, mean(vals), if |vals| > 1 then stdev(vals) else 0.0, |vals|)
  }

  /** The line describes group `line.group` of `g`: its count, mean and
      deviation (0 for a single value) are those of the group's values. */
  predicate Describes(g: Report.Dict<string, seq<real>>, line: AggLine, mean: seq<real> -> real, stdev: seq<real> -> real) {
    var e := Report.Get(g, line.group);
    && e.Some?
    && line.count == |e.value|
    && line.mean == mean(e.value)
    && line.std == (if |e.value| > 1 then stdev(e.value) else 0.0)
  }

  /** The lines of one level: every group once, in string order. */
  function Emit(level: string, g: Report.Dict<string, seq<real>>, mean: seq<real> -> real, stdev: seq<real> -> real): (r: seq<AggLine>)
    requires Report.UniqueKeys(g)
    ensures |r| == |g|
    ensures forall i :: 0 <= i < |r| ==> r[i].level == level
    ensures forall i :: 0 <= i < |r| ==> Describes(g, r[i], mean, stdev)
    ensures forall k :: k in Report.Keys(g) <==> exists i :: 0 <= i < |r| && r[i].group == k
    ensures forall i, j :: 0 <= i < j < |r| ==> r[i].group != r[j].group
    ensures forall i, j :: 0 <= i < j < |r| ==> Sorting.StringLe(r[i].group, r[j].group)
    ensures CountSum(r) == Report.TotalSize(g)
  {
    var s := Report.SortedItems(g);
    Report.ReorderedItems(g, s);
    Report.ReorderedUnique(g, s);
    Report.TotalSizeReordered(s, g);
    var r := seq(|s|, i requires 0 <= i < |s| => LineOf(level, s[i], mean, stdev));
    EmitFacts(g, s, r, level, mean, stdev);
    r
  }

  lemma EmitFacts(g: Report.Dict<string, seq<real>>, s: Report.Dict<string, seq<real>>, r: seq<AggLine>, level: string,
                  mean: seq<real> -> real, stdev: seq<real> -> real)
    requires |s| == |g| && Report.UniqueKeys(s) && Report.TotalSize(s) == Report.TotalSize(g)
    requires forall i, j :: 0 <= i < j < |s| ==> Sorting.StringLe(s[i].0, s[j].0)
    requires |r| == |s| && forall i :: 0 <= i < |s| ==> r[i] == LineOf(level, s[i], mean, stdev)
    requires forall i :: 0 <= i < |s| ==> Report.Get(g, s[i].0) == Some(s[i].1)
    requires forall k :: k in Report.Keys(g) <==> k in Report.Keys(s)
    ensures |r| == |g|
    ensures forall i :: 0 <= i < |r| ==> r[i].level == level
    ensures forall i :: 0 <= i < |r| ==> Describes(g, r[i], mean, stdev)
    ensures forall k :: k in Report.Keys(g) <==> exists i :: 0 <= i < |r| && r[i].group == k
    ensures forall i, j :: 0 <= i < j < |r| ==> r[i].group != r[j].group
    ensures forall i, j :: 0 <= i < j < |r| ==> Sorting.StringLe(r[i].group, r[j].group)
    ensures CountSum(r) == Report.TotalSize(g)
  {
    EmitCover(g, s, r, level, mean, stdev);
    EmitDescribes(g, s, r, level, mean, stdev);
    CountSumSizes(s, r, level, mean, stdev);
  }

  /** Lines made one per item cover exactly the keys of the items. */
  lemma EmitCover(g: Report.Dict<string, seq<real>>, s: Report.Dict<string, seq<real>>, r: seq<AggLine>, level: string,
                  mean: seq<real> -> real, stdev: seq<real> -> real)
    requires |r| == |s| && forall i :: 0 <= i < |s| ==> r[i] == LineOf(level, s[i], mean, stdev)
    requires forall k :: k in Report.Keys(g) <==> k in Report.Keys(s)
    ensures forall k :: k in Report.Keys(g) <==> exists i :: 0 <= i < |r| && r[i].group == k
  {
    forall k | k in Report.Keys(g)
      ensures exists i :: 0 <= i < |r| && r[i].group == k
    {
      var i :| 0 <= i < |s| && Report.Keys(s)[i] == k;
      assert r[i].group == k;
    }
    forall k | exists i :: 0 <= i < |r| && r[i].group == k
      ensures k in Report.Keys(g)
    {
      var i :| 0 <= i < |r| && r[i].group == k;
      assert Report.Keys(s)[i] == k;
    }
  }

  /** A line made from an item whose value the groups hold describes that
      group. */
  lemma EmitDescribes(g: Report.Dict<string, seq<real>>, s: Report.Dict<string, seq<real>>, r: seq<AggLine>, level: string,
                      mean: seq<real> -> real, stdev: seq<real> -> real)
    requires |r| == |s| && forall i :: 0 <= i < |s| ==> r[i] == LineOf(level, s[i], mean, stdev)
    requires forall i :: 0 <= i < |s| ==> Report.Get(g, s[i].0) == Some(s[i].1)
    ensures forall i :: 0 <= i < |r| ==> Describes(g, r[i], mean, stdev)
  {
    forall i | 0 <= i < |r|
      ensures Describes(g, r[i], mean, stdev)
    {
      assert r[i].group == s[i].0;
    }
  }

  /** The counts of a level's lines, added up. */
  function CountSum(lines: seq<AggLine>): nat {
    if |lines| == 0 then 0 else lines[0].count + CountSum(lines[1..])
  }

  lemma {:induction false} CountSumSizes(s: Report.Dict<string, seq<real>>, r: seq<AggLine>, level: string,
                                         mean: seq<real> -> real, stdev: seq<real> -> real)
    requires |r| == |s| && forall i :: 0 <= i < |s| ==> r[i] == LineOf(level, s[i], mean, stdev)
    ensures CountSum(r) == Report.TotalSize(s)
  {
    if |s| > 0 {
      CountSumSizes(s[1..], r[1..], level, mean, stdev);
    }
  }

  /** The three levels of the report. */
  datatype Aggregate = Aggregate(filters: seq<AggLine>, backends: seq<AggLine>, pairs: seq<AggLine>)

  /** The rows with a parseable mean: the rows every level counts. */
  function Counted(rows: seq<AggRow>, parseFloat: string -> Option<real>): set<nat> {
    set i | 0 <= i < |rows| && parseFloat(rows[i].meanMs).Some?
  }

  /** Grouping by any key keeps every row with a parseable mean, once. */
  lemma GroupedCount(rows: seq<AggRow>, key: AggRow -> string, parseFloat: string -> Option<real>)
    ensures Report.TotalSize(Report.GroupBy(rows, key, Value(parseFloat))) == |Counted(rows, parseFloat)|
  {
    var val := Value(parseFloat);
    Report.GroupCount(rows, key, val);
    assert Report.Valued(rows, val) == Counted(rows, parseFloat) by {
      forall i | 0 <= i < |rows|
        ensures val(rows[i]) == parseFloat(rows[i].meanMs)
      {
      }
    }
  }

  /** The lines of one level over `rows` grouped by `key`: each carries the
      level's name and describes its group; a group has a line exactly when
      some row with that key has a parseable mean, and then exactly one; the
      lines are in string order of their groups; and their counts add up to
      the number of rows with a parseable mean. */
  ghost predicate LevelLines(r: seq<AggLine>, level: string, rows: seq<AggRow>, key: AggRow -> string,
                             parseFloat: string -> Option<real>, mean: seq<real> -> real, stdev: seq<real> -> real)
  {
    && (forall i :: 0 <= i < |r| ==> r[i].level == level)
    && (forall i :: 0 <= i < |r| ==> Describes(Report.GroupBy(rows, key, Value(parseFloat)), r[i], mean, stdev))
    && (forall k :: (exists i :: 0 <= i < |r| && r[i].group == k) <==> Report.Selected(rows, key, Value(parseFloat), k) != [])
    && (forall i, j :: 0 <= i < j < |r| ==> r[i].group != r[j].group)
    && (forall i, j :: 0 <= i < j < |r| ==> Sorting.StringLe(r[i].group, r[j].group))
    && CountSum(r) == |Counted(rows, parseFloat)|
  }

  /** One level: group the rows by `key`, then emit. */
  function Level(level: string, rows: seq<AggRow>, key: AggRow -> string, parseFloat: string -> Option<real>,
                 mean: seq<real> -> real, stdev: seq<real> -> real): (r: seq<AggLine>)
    ensures LevelLines(r, level, rows, key, parseFloat, mean, stdev)
  {
    var val := Value(parseFloat);
    Report.GroupContents(rows, key, val);
    GroupedCount(rows, key, parseFloat);
    Emit(level, Report.GroupBy(rows, key, val), mean, stdev)
  }

  /** The whole report over cleaned rows: the filter, backend and
      filter|backend levels. */
  function Aggregated(rows: seq<AggRow>, parseFloat: string -> Option<real>, mean: seq<real> -> real, stdev: seq<real> -> real): (a: Aggregate)
    ensures LevelLines(a.filters, "filter", rows, FilterKey, parseFloat, mean, stdev)
    ensures LevelLines(a.backends, "backend", rows, BackendKey, parseFloat, mean, stdev)
    ensures LevelLines(a.pairs, "filter|backend", rows, PairKey, parseFloat, mean, stdev)
    ensures CountSum(a.filters) == CountSum(a.backends) == CountSum(a.pairs) == |Counted(rows, parseFloat)|
  {
    Aggregate(Level("filter", rows, FilterKey, parseFloat, mean, stdev),
              Level("backend", rows, BackendKey, parseFloat, mean, stdev),
              Level("filter|backend", rows, PairKey, parseFloat, mean, stdev))
  }

  /** The rows with surrounding whitespace stripped from their names. */
  function Cleaned(rows: seq<AggRow>): (r: seq<AggRow>)
    ensures |r| == |rows| && forall i :: 0 <= i < |rows| ==> r[i] == Clean(rows[i])
  {
    seq(|rows|, i requires 0 <= i < |rows| => Clean(rows[i]))
  }

  /** Each line's group holds exactly the parseable means of the rows with
      that key, in row order. */
  lemma GroupLines(rows: seq<AggRow>, parseFloat: string -> Option<real>, key: AggRow -> string, k: string)
    ensures Report.Get(Report.GroupBy(rows, key, Value(parseFloat)), k).GetOr([]) == Report.Selected(rows, key, Value(parseFloat), k)
    ensures k in Report.Keys(Report.GroupBy(rows, key, Value(parseFloat))) <==> Report.Selected(rows, key, Value(parseFloat), k) != []
  {
    Report.GroupContents(rows, key, Value(parseFloat));
  }

  /** The script: exit status 1 when `summary.csv` does not exist;
      otherwise the report over the rows with names stripped. */
  function PlotAgg(summary: Option<seq<AggRow>>, parseFloat: string -> Option<real>, mean: seq<real> -> real, stdev: seq<real> -> real): (r: Result<Aggregate, int>)
    ensures r.Err? <==> summary.None?
    ensures r.Err? ==> r.error == 1
    ensures r.Ok? ==> r.value == Aggregated(Cleaned(summary.value), parseFloat, mean, stdev)
    ensures r.Ok? ==> var a := r.value;
              CountSum(a.filters) == CountSum(a.backends) == CountSum(a.pairs)
              == |Counted(summary.value, parseFloat)|
  {
    match summary
    case None => Err(1)
    case Some(rows) =>
      var cleaned := Cleaned(rows);
      assert Counted(cleaned, parseFloat) == Counted(rows, parseFloat);
      Ok(Aggregated(cleaned, parseFloat, mean, stdev))
  }
}
