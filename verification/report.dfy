/** The data structures the benchmark report scripts build: Python
    dictionaries (insertion-ordered; assigning to a present key overwrites it
    in place), `defaultdict(list)` groups filled by appending, emission in
    sorted key order, and the numeric `(width, height)` order of "WxH"
    resolution strings. */
module Report {
  import opened Wrappers
  import Text
  import Decimal
  import Sorting

  /** A dictionary as its items in insertion order. */
  type Dict<K, V> = seq<(K, V)>

  function Keys<K, V>(d: Dict<K, V>): (ks: seq<K>)
    ensures |ks| == |d| && forall i :: 0 <= i < |d| ==> ks[i] == d[i].0
  {
    seq(|d|, i requires 0 <= i < |d| => d[i].0)
  }

  predicate UniqueKeys<K(==), V>(d: Dict<K, V>) {
    forall i, j :: 0 <= i < j < |d| ==> d[i].0 != d[j].0
  }

  /** `d.get(k)`. */
  function Get<K(==), V>(d: Dict<K, V>, k: K): (r: Option<V>)
    ensures r.Some? <==> k in Keys(d)
    ensures r.Some? ==> (k, r.value) in d
    ensures UniqueKeys(d) ==> forall i :: 0 <= i < |d| && d[i].0 == k ==> r == Some(d[i].1)
  {
    if |d| == 0 then None
    else if d[0].0 == k then Some(d[0].1)
    else
      var r := Get(d[1..], k);
      assert Keys(d) == [d[0].0] + Keys(d[1..]);
      assert forall i :: 1 <= i < |d| ==> d[i] == d[1..][i - 1];
      r
  }

  /** `d[k] = v`: overwrites in place when `k` is present, appends
      otherwise. */
  function Put<K(==), V>(d: Dict<K, V>, k: K, v: V): (r: Dict<K, V>)
    ensures k in Keys(d) ==> Keys(r) == Keys(d)
    ensures k !in Keys(d) ==> Keys(r) == Keys(d) + [k]
  {
    if |d| == 0 then [(k, v)]
    else if d[0].0 == k then [(k, v)] + d[1..]
    else
      var r := [d[0]] + Put(d[1..], k, v);
      assert Keys(d) == [d[0].0] + Keys(d[1..]);
      assert Keys(r) == [d[0].0] + Keys(Put(d[1..], k, v));
      r
  }

  /** After `d[k] = v` the dictionary still has distinct keys, `k` maps to
      `v`, and every other key maps to what it mapped to before. */
  lemma PutGet<K, V>(d: Dict<K, V>, k: K, v: V)
    requires UniqueKeys(d)
    ensures UniqueKeys(Put(d, k, v))
    ensures Get(Put(d, k, v), k) == Some(v)
    ensures forall k' :: k' != k ==> Get(Put(d, k, v), k') == Get(d, k')
  {
    PutUnique(d, k, v);
    PutOther(d, k, v);
    var r := Put(d, k, v);
    assert k in Keys(r);
    PutAt(d, k, v);
  }

  lemma PutUnique<K, V>(d: Dict<K, V>, k: K, v: V)
    requires UniqueKeys(d)
    ensures UniqueKeys(Put(d, k, v))
  {
    var r := Put(d, k, v);
    var kd, kr := Keys(d), Keys(r);
    forall i, j | 0 <= i < j < |r|
      ensures r[i].0 != r[j].0
    {
      assert r[i].0 == kr[i] && r[j].0 == kr[j];
      if k in kd {
        assert kr[i] == d[i].0 && kr[j] == d[j].0;
      } else if j < |d| {
        assert kr[i] == d[i].0 && kr[j] == d[j].0;
      } else {
        assert kr[j] == k && kr[i] == kd[i];
      }
    }
  }

  /** Where `k` sits after `d[k] = v`, the value is `v`. */
  lemma {:induction false} PutAt<K, V>(d: Dict<K, V>, k: K, v: V)
    requires UniqueKeys(d)
    ensures forall i :: 0 <= i < |Put(d, k, v)| && Put(d, k, v)[i].0 == k ==> Put(d, k, v)[i].1 == v
  {
    if |d| > 0 && d[0].0 != k {
      PutAt(d[1..], k, v);
      assert Put(d, k, v)[1..] == Put(d[1..], k, v);
    } else if |d| > 0 {
      assert Put(d, k, v)[1..] == d[1..];
    }
  }

  lemma {:induction false} PutOther<K, V>(d: Dict<K, V>, k: K, v: V)
    requires UniqueKeys(d)
    ensures forall k' :: k' != k ==> Get(Put(d, k, v), k') == Get(d, k')
  {
    if |d| > 0 && d[0].0 != k {
      PutOther(d[1..], k, v);
      assert Put(d, k, v)[1..] == Put(d[1..], k, v);
    } else if |d| > 0 {
      assert Put(d, k, v)[1..] == d[1..];
    }
  }

  /** The dictionary built by assigning each pair in turn. */
  function FromPairs<K(==), V>(ps: seq<(K, V)>): Dict<K, V> {
    if |ps| == 0 then []
    else Put(FromPairs(ps[..|ps| - 1]), ps[|ps| - 1].0, ps[|ps| - 1].1)
  }

  /** The value of the last pair with key `k`. */
  function LastValue<K(==), V>(ps: seq<(K, V)>, k: K): (r: Option<V>)
    ensures r.Some? <==> exists i :: 0 <= i < |ps| && ps[i].0 == k
    ensures r.Some? ==> exists i :: 0 <= i < |ps| && ps[i] == (k, r.value)
  {
    if |ps| == 0 then None
    else if ps[|ps| - 1].0 == k then Some(ps[|ps| - 1].1)
    else
      var r := LastValue(ps[..|ps| - 1], k);
      assert forall i :: 0 <= i < |ps| - 1 ==> ps[..|ps| - 1][i] == ps[i];
      r
  }

  /** Assigning pairs in turn keeps keys distinct, and each key ends up
      with the value of its last assignment. */
  lemma {:induction false} FromPairsLast<K, V>(ps: seq<(K, V)>)
    ensures UniqueKeys(FromPairs(ps))
    ensures forall k :: Get(FromPairs(ps), k) == LastValue(ps, k)
  {
    if |ps| > 0 {
      FromPairsLast(ps[..|ps| - 1]);
      PutGet(FromPairs(ps[..|ps| - 1]), ps[|ps| - 1].0, ps[|ps| - 1].1);
    }
  }

  /** The distinct values of `xs`, in order of first appearance. */
  function Distinct<T(==,!new)>(xs: seq<T>): (r: seq<T>)
    ensures forall x :: x in r <==> x in xs
    ensures forall i, j :: 0 <= i < j < |r| ==> r[i] != r[j]
  {
    if |xs| == 0 then []
    else
      var r := Distinct(xs[..|xs| - 1]);
      if xs[|xs| - 1] in r then r else r + [xs[|xs| - 1]]
  }

  /** The elements of `xs` that satisfy `p`, in order. */
  function Filter<T(!new)>(xs: seq<T>, p: T -> bool): (r: seq<T>)
    ensures forall x :: x in r <==> x in xs && p(x)
    ensures (forall i, j :: 0 <= i < j < |xs| ==> xs[i] != xs[j]) ==> forall i, j :: 0 <= i < j < |r| ==> r[i] != r[j]
  {
    if |xs| == 0 then []
    else
      var r := Filter(xs[1..], p);
      assert forall x :: x in xs[1..] ==> x in xs;
      assert forall x :: x in xs ==> x == xs[0] || x in xs[1..];
      if p(xs[0]) then
        assert (forall i, j :: 0 <= i < j < |xs| ==> xs[i] != xs[j]) ==> xs[0] !in xs[1..];
        [xs[0]] + r
      else r
  }

  /** `groups[k].append(v)` on a `defaultdict(list)`. */
  function AddTo<K(==), V>(g: Dict<K, seq<V>>, k: K, v: V): Dict<K, seq<V>> {
    Put(g, k, Get(g, k).GetOr([]) + [v])
  }

  /** The rows' values, in row order, of the rows that have key `k` and a
      value: the reference contents of group `k`. */
  function Selected<R, K(==), V>(rows: seq<R>, key: R -> K, val: R -> Option<V>, k: K): seq<V> {
    if |rows| == 0 then []
    else
      var last := rows[|rows| - 1];
      Selected(rows[..|rows| - 1], key, val, k)
        + (if key(last) == k && val(last).Some? then [val(last).value] else [])
  }

  /** Appending every row with a value to the group of its key, in row
      order, starting from an empty `defaultdict(list)`: the keys stay
      distinct, there are no more groups than rows and no group is empty. */
  function GroupBy<R, K(==), V>(rows: seq<R>, key: R -> K, val: R -> Option<V>): (r: Dict<K, seq<V>>)
    ensures UniqueKeys(r) && |r| <= |rows|
    ensures forall i :: 0 <= i < |r| ==> r[i].1 != []
  {
    if |rows| == 0 then []
    else
      var g := GroupBy(rows[..|rows| - 1], key, val);
      var last := rows[|rows| - 1];
      if val(last).Some? then
        var k := key(last);
        PutUnique(g, k, Get(g, k).GetOr([]) + [val(last).value]);
        PutNonEmpty(g, k, Get(g, k).GetOr([]) + [val(last).value]);
        AddTo(g, k, val(last).value)
      else g
  }

  /** Putting a non-empty group keeps every group non-empty and adds at
      most one entry. */
  lemma {:induction false} PutNonEmpty<K, V>(g: Dict<K, seq<V>>, k: K, v: seq<V>)
    requires v != [] && forall i :: 0 <= i < |g| ==> g[i].1 != []
    ensures |Put(g, k, v)| <= |g| + 1
    ensures forall i :: 0 <= i < |Put(g, k, v)| ==> Put(g, k, v)[i].1 != []
  {
    if |g| > 0 && g[0].0 != k {
      PutNonEmpty(g[1..], k, v);
    }
  }

  /** Grouping keeps the keys distinct, a key has a group exactly when some
      row with that key has a value, and each group holds exactly the values
      of its rows, in row order. */
  lemma {:induction false} GroupContents<R, K, V>(rows: seq<R>, key: R -> K, val: R -> Option<V>)
    ensures UniqueKeys(GroupBy(rows, key, val))
    ensures forall k :: Get(GroupBy(rows, key, val), k).GetOr([]) == Selected(rows, key, val, k)
    ensures forall k :: k in Keys(GroupBy(rows, key, val)) <==> Selected(rows, key, val, k) != []
  {
    if |rows| > 0 {
      var init := rows[..|rows| - 1];
      GroupContents(init, key, val);
      var g := GroupBy(init, key, val);
      var last := rows[|rows| - 1];
      if val(last).Some? {
        var k0 := key(last);
        PutGet(g, k0, Get(g, k0).GetOr([]) + [val(last).value]);
        var r := GroupBy(rows, key, val);
        forall k
          ensures k in Keys(r) <==> Selected(rows, key, val, k) != []
        {
          if k != k0 {
            assert Get(r, k) == Get(g, k);
          } else {
            assert Get(r, k).Some?;
          }
        }
      }
    }
  }

  /** Total number of values over all groups. */
  function TotalSize<K, V>(g: Dict<K, seq<V>>): nat {
    if |g| == 0 then 0 else |g[0].1| + TotalSize(g[1..])
  }

  /** Replacing group `k` changes the total by the difference in its size. */
  lemma {:induction false} PutSize<K, V>(g: Dict<K, seq<V>>, k: K, vs: seq<V>)
    requires UniqueKeys(g)
    ensures TotalSize(Put(g, k, vs)) + |Get(g, k).GetOr([])| == TotalSize(g) + |vs|
  {
    if |g| > 0 && g[0].0 != k {
      PutSize(g[1..], k, vs);
      assert Put(g, k, vs)[1..] == Put(g[1..], k, vs);
    } else if |g| > 0 {
      assert Put(g, k, vs)[1..] == g[1..];
    }
  }

  lemma {:induction false} TotalSizeConcat<K, V>(a: Dict<K, seq<V>>, b: Dict<K, seq<V>>)
    ensures TotalSize(a + b) == TotalSize(a) + TotalSize(b)
  {
    if |a| > 0 {
      assert (a + b)[1..] == a[1..] + b;
      TotalSizeConcat(a[1..], b);
    } else {
      assert a + b == b;
    }
  }

  /** Removing one group takes its size off the total. */
  lemma TotalSizeRemove<K, V>(b: Dict<K, seq<V>>, j: nat)
    requires j < |b|
    ensures TotalSize(b) == |b[j].1| + TotalSize(b[..j] + b[j + 1..])
  {
    var tail := [b[j]] + b[j + 1..];
    assert b == b[..j] + tail;
    TotalSizeConcat(b[..j], tail);
    TotalSizeConcat(b[..j], b[j + 1..]);
    assert tail[1..] == b[j + 1..];
  }

  /** Reordering the groups does not change the total. */
  lemma {:induction false} TotalSizeReordered<K, V>(a: Dict<K, seq<V>>, b: Dict<K, seq<V>>)
    requires multiset(a) == multiset(b)
    ensures TotalSize(a) == TotalSize(b)
    decreases |a|
  {
    if |a| == 0 {
      assert |b| == |multiset(b)| == 0;
    } else {
      var x := a[0];
      Sorting.ConsMultiset(a);
      assert x in multiset(b);
      var j :| 0 <= j < |b| && b[j] == x;
      RemoveAt(b, j);
      TotalSizeReordered(a[1..], b[..j] + b[j + 1..]);
      TotalSizeRemove(b, j);
    }
  }

  /** Removing the element at `j` removes one occurrence of it. */
  lemma RemoveAt<T>(b: seq<T>, j: nat)
    requires j < |b|
    ensures multiset(b[..j] + b[j + 1..]) == multiset(b) - multiset{b[j]}
  {
    assert b == b[..j] + [b[j]] + b[j + 1..];
  }

  /** A reordering of a dictionary with distinct keys has distinct keys. */
  lemma ReorderedUnique<K, V>(d: Dict<K, V>, s: Dict<K, V>)
    requires UniqueKeys(d) && multiset(s) == multiset(d)
    ensures UniqueKeys(s)
  {
    ReorderedItems(d, s);
    assert forall i, j :: 0 <= i < j < |d| ==> d[i] != d[j];
    forall i, j | 0 <= i < j < |s|
      ensures s[i].0 != s[j].0
    {
      Sorting.RepeatCount(s, i, j);
      Sorting.DistinctCount(d, s[i]);
    }
  }

  /** Indices of the rows that have a value. */
  function Valued<R, V>(rows: seq<R>, val: R -> Option<V>): set<nat> {
    set i | 0 <= i < |rows| && val(rows[i]).Some?
  }

  /** Every row that has a value lands in exactly one group: the group
      sizes add up to the number of such rows. */
  lemma {:induction false} GroupCount<R, K, V>(rows: seq<R>, key: R -> K, val: R -> Option<V>)
    ensures TotalSize(GroupBy(rows, key, val)) == |Valued(rows, val)|
  {
    if |rows| > 0 {
      var n := |rows| - 1;
      var init := rows[..n];
      GroupCount(init, key, val);
      GroupContents(init, key, val);
      ValuedLast(rows, val);
      var g := GroupBy(init, key, val);
      var last := rows[n];
      if val(last).Some? {
        PutSize(g, key(last), Get(g, key(last)).GetOr([]) + [val(last).value]);
      }
    }
  }

  /** The last row adds its index to the valued rows exactly when it has a
      value. */
  lemma ValuedLast<R, V>(rows: seq<R>, val: R -> Option<V>)
    requires |rows| > 0
    ensures |Valued(rows, val)| == |Valued(rows[..|rows| - 1], val)| + (if val(rows[|rows| - 1]).Some? then 1 else 0)
  {
    var n := |rows| - 1;
    var before := Valued(rows[..n], val);
    assert n !in before;
    if val(rows[n]).Some? {
      assert Valued(rows, val) == before + {n};
    } else {
      assert Valued(rows, val) == before;
    }
  }

  /** A `(key, value)` pair compared by key in string order. */
  predicate ItemLe<V>(a: (string, V), b: (string, V)) {
    Sorting.StringLe(a.0, b.0)
  }

  lemma ItemOrder<V(!new)>()
    ensures Sorting.TotalPreorder((a: (string, V), b: (string, V)) => ItemLe(a, b))
  {
    forall a: (string, V), b: (string, V)
      ensures ItemLe(a, b) || ItemLe(b, a)
    {
      Sorting.StringLeTotal(a.0, b.0);
    }
    forall a: (string, V), b: (string, V), c: (string, V) | ItemLe(a, b) && ItemLe(b, c)
      ensures ItemLe(a, c)
    {
      Sorting.StringLeTransitive(a.0, b.0, c.0);
    }
  }

  /** A reordering of a dictionary with distinct keys holds each key once,
      with the value the dictionary gives it. */
  lemma ReorderedItems<K, V>(d: Dict<K, V>, s: Dict<K, V>)
    requires UniqueKeys(d) && multiset(s) == multiset(d)
    ensures forall i :: 0 <= i < |s| ==> Get(d, s[i].0) == Some(s[i].1)
    ensures forall k :: k in Keys(d) <==> k in Keys(s)
  {
    forall i | 0 <= i < |s|
      ensures Get(d, s[i].0) == Some(s[i].1)
    {
      assert s[i] in multiset(d);
    }
    forall k | k in Keys(d)
      ensures k in Keys(s)
    {
      var j :| 0 <= j < |d| && d[j].0 == k;
      assert d[j] in multiset(s);
      var i :| 0 <= i < |s| && s[i] == d[j];
      assert Keys(s)[i] == k;
    }
    forall k | k in Keys(s)
      ensures k in Keys(d)
    {
      var i :| 0 <= i < |s| && s[i].0 == k;
      assert s[i] in multiset(d);
      var j :| 0 <= j < |d| && d[j] == s[i];
      assert Keys(d)[j] == k;
    }
  }

  /** `sorted(d.items())` on a dictionary with string keys: every item once,
      in string order of the keys. */
  function SortedItems<V(!new)>(d: Dict<string, V>): (r: Dict<string, V>)
    ensures |r| == |d| && multiset(r) == multiset(d)
    ensures forall i, j :: 0 <= i < j < |r| ==> Sorting.StringLe(r[i].0, r[j].0)
  {
    ItemOrder<V>();
    Sorting.Sort(d, (a: (string, V), b: (string, V)) => ItemLe(a, b))
  }

  /** `(int(s.split("x")[0]), int(s.split("x")[1]))`: `None` where Python
      raises (no "x", or a side that is not an integer). Parts after a
      second "x" are ignored. A text without an "x" has no key. */
  function ResolutionKey(s: string): (r: Option<(int, int)>)
    ensures r.Some? ==> 'x' in s
  {
    var parts := Text.Split(s, 'x');
    if |parts| < 2 then None
    else
      match (Decimal.PyInt(parts[0]), Decimal.PyInt(parts[1]))
      case (Some(w), Some(h)) => Some((w, h))
      case _ => None
  }

  /** A resolution string as the benchmark runs name it. */
  function ResolutionName(w: nat, h: nat): string {
    Decimal.NatToString(w) + "x" + Decimal.NatToString(h)
  }

  /** The key reads back the numbers a resolution name was printed from. */
  lemma ResolutionKeyName(w: nat, h: nat)
    ensures ResolutionKey(ResolutionName(w, h)) == Some((w, h))
  {
    var a := Decimal.NatToString(w);
    var b := Decimal.NatToString(h);
    assert 'x' !in a && 'x' !in b;
    assert Text.Join([a, b], 'x') == ResolutionName(w, h);
    Text.SplitJoin([a, b], 'x');
    Decimal.PyIntPrinted(w);
    Decimal.PyIntPrinted(h);
  }

  /** The sort key with failures mapped to `(0, 0)`; only consulted when
      every key succeeds. */
  function KeyOrZero(s: string): (int, int) {
    ResolutionKey(s).GetOr((0, 0))
  }

  predicate ResolutionLe(a: string, b: string) {
    Sorting.PairLe(KeyOrZero(a), KeyOrZero(b))
  }

  lemma ResolutionOrder()
    ensures Sorting.TotalPreorder(ResolutionLe)
  {
  }

  /** `sorted(rs, key=lambda s: (int(w), int(h)))`: `None` when any key
      raises; otherwise the strings reordered by numeric width, then
      height. */
  function SortResolutions(rs: seq<string>): (r: Option<seq<string>>)
    ensures r.None? <==> exists i :: 0 <= i < |rs| && ResolutionKey(rs[i]).None?
    ensures r.Some? ==> multiset(r.value) == multiset(rs)
    ensures r.Some? ==> forall i :: 0 <= i < |r.value| ==> ResolutionKey(r.value[i]).Some?
    ensures r.Some? ==> forall i, j :: 0 <= i < j < |r.value| ==>
              Sorting.PairLe(ResolutionKey(r.value[i]).value, ResolutionKey(r.value[j]).value)
  {
    if exists i :: 0 <= i < |rs| && ResolutionKey(rs[i]).None? then None
    else
      ResolutionOrder();
      var r := Sorting.Sort(rs, ResolutionLe);
      SortedResolutions(rs, r);
      Some(r)
  }

  /** A reordering of keyed resolutions sorted by `ResolutionLe` is sorted
      by the keys themselves. */
  lemma SortedResolutions(rs: seq<string>, r: seq<string>)
    requires forall i :: 0 <= i < |rs| ==> ResolutionKey(rs[i]).Some?
    requires multiset(r) == multiset(rs) && Sorting.SortedBy(r, ResolutionLe)
    ensures forall i :: 0 <= i < |r| ==> ResolutionKey(r[i]).Some?
    ensures forall i, j :: 0 <= i < j < |r| ==>
              Sorting.PairLe(ResolutionKey(r[i]).value, ResolutionKey(r[j]).value)
  {
    assert forall i :: 0 <= i < |r| ==> r[i] in multiset(rs);
  }
}
