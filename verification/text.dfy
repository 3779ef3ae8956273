/** String helpers with the semantics the repository relies on: ASCII case
    folding (`tolower`, `str.lower`), whitespace stripping (`str.strip`),
    substring search (`in`), single-character splitting (`str.split`) and
    removal of every occurrence of a pattern (`str.replace(p, "")`). */
module Text {

  predicate IsUpper(c: char) {
    'A' <= c <= 'Z'
  }

  /** Lower-cases one ASCII letter and leaves every other character alone. */
  function LowerChar(c: char): (r: char)
    ensures !IsUpper(r)
    ensures IsUpper(c) ==> r as int == c as int + 32
    ensures !IsUpper(c) ==> r == c
  {
    if IsUpper(c) then (c as int + 32) as char else c
  }

  function ToLower(s: string): (r: string)
    ensures |r| == |s|
    ensures forall i :: 0 <= i < |s| ==> r[i] == LowerChar(s[i])
  {
    if |s| == 0 then "" else [LowerChar(s[0])] + ToLower(s[1..])
  }

  /** Lower-casing twice is lower-casing once, and the result holds no
      upper-case letter. */
  lemma ToLowerIdempotent(s: string)
    ensures ToLower(ToLower(s)) == ToLower(s)
    ensures forall i :: 0 <= i < |s| ==> !IsUpper(ToLower(s)[i])
  {
  }

  /** Whitespace as `str.strip()` sees it, restricted to ASCII. */
  predicate IsSpace(c: char) {
    c == ' ' || c == '\t' || c == '\n' || c == '\r' || c == '\U{000B}' || c == '\U{000C}'
    || ('\U{001C}' <= c <= '\U{001F}')
  }

  /** Number of leading whitespace characters. */
  function LeadingSpace(s: string): (n: nat)
    ensures n <= |s|
    ensures forall i :: 0 <= i < n ==> IsSpace(s[i])
    ensures n < |s| ==> !IsSpace(s[n])
  {
    if |s| == 0 || !IsSpace(s[0]) then 0 else 1 + LeadingSpace(s[1..])
  }

  /** Number of trailing whitespace characters. */
  function TrailingSpace(s: string): (n: nat)
    ensures n <= |s|
    ensures forall i :: |s| - n <= i < |s| ==> IsSpace(s[i])
    ensures n < |s| ==> !IsSpace(s[|s| - n - 1])
  {
    if |s| == 0 || !IsSpace(s[|s| - 1]) then 0 else 1 + TrailingSpace(s[..|s| - 1])
  }

  /** `str.strip()`: the longest infix that neither starts nor ends with
      whitespace, everything cut off being whitespace. */
  function Strip(s: string): (r: string)
    ensures |r| == 0 || (!IsSpace(r[0]) && !IsSpace(r[|r| - 1]))
    ensures exists i, j :: 0 <= i <= j <= |s| && r == s[i..j]
                           && (forall k :: 0 <= k < i ==> IsSpace(s[k]))
                           && (forall k :: j <= k < |s| ==> IsSpace(s[k]))
  {
    var i := LeadingSpace(s);
    if i == |s| then
      assert s[i..i] == "";
      ""
    else
      var rest := s[i..];
      var t := TrailingSpace(rest);
      assert t < |rest| by {
        assert !IsSpace(rest[0]);
      }
      var r := rest[..|rest| - t];
      assert r == s[i..|s| - t];
      assert forall k :: |s| - t <= k < |s| ==> s[k] == rest[k - i];
      r
  }

  /** A string without whitespace strips to itself. */
  lemma StripNoSpace(s: string)
    requires forall k :: 0 <= k < |s| ==> !IsSpace(s[k])
    ensures Strip(s) == s
  {
    var r := Strip(s);
    var i, j :| 0 <= i <= j <= |s| && r == s[i..j]
                && (forall k :: 0 <= k < i ==> IsSpace(s[k]))
                && (forall k :: j <= k < |s| ==> IsSpace(s[k]));
    assert i == 0 && j == |s|;
  }

  /** Stripping is idempotent. */
  lemma StripIdempotent(s: string)
    ensures Strip(Strip(s)) == Strip(s)
  {
    var r := Strip(s);
    assert LeadingSpace(r) == 0;
    if |r| > 0 {
      assert TrailingSpace(r[0..]) == 0 by { assert r[0..] == r; }
      assert r[0..][..|r| - 0] == r;
    }
  }

  predicate OccursAt(s: string, sub: string, i: int) {
    0 <= i <= |s| - |sub| && s[i..i + |sub|] == sub
  }

  /** Python's `sub in s`. */
  predicate Contains(s: string, sub: string) {
    exists i | 0 <= i <= |s| :: OccursAt(s, sub, i)
  }

  /** Index of the first occurrence of `d`, or `|s|` when there is none. */
  function FindChar(s: string, d: char): (i: nat)
    ensures i <= |s|
    ensures forall k :: 0 <= k < i ==> s[k] != d
    ensures i < |s| ==> s[i] == d
  {
    if |s| == 0 || s[0] == d then 0 else 1 + FindChar(s[1..], d)
  }

  /** `s.split(d)` for a one-character separator: every maximal run between
      separators, empty runs included. */
  function Split(s: string, d: char): (parts: seq<string>)
    ensures |parts| >= 1
    ensures forall p :: p in parts ==> d !in p
    decreases |s|
  {
    var i := FindChar(s, d);
    if i == |s| then
      assert forall k :: 0 <= k < |s| ==> s[k] != d;
      [s]
    else
      assert forall k :: 0 <= k < i ==> s[..i][k] != d;
      [s[..i]] + Split(s[i + 1..], d)
  }

  /** `d.join(parts)`. */
  function Join(parts: seq<string>, d: char): string
    requires |parts| >= 1
  {
    if |parts| == 1 then parts[0] else parts[0] + [d] + Join(parts[1..], d)
  }

  /** Splitting then joining gives the original string back. */
  lemma {:induction false} JoinSplit(s: string, d: char)
    ensures Join(Split(s, d), d) == s
    decreases |s|
  {
    var i := FindChar(s, d);
    if i < |s| {
      JoinSplit(s[i + 1..], d);
      assert s == s[..i] + [d] + s[i + 1..];
    }
  }

  /** Joining separator-free parts then splitting gives the parts back. */
  lemma {:induction false} SplitJoin(parts: seq<string>, d: char)
    requires |parts| >= 1
    requires forall p :: p in parts ==> d !in p
    ensures Split(Join(parts, d), d) == parts
  {
    if |parts| == 1 {
      assert d !in parts[0];
      assert FindChar(parts[0], d) == |parts[0]|;
    } else {
      assert d !in parts[0];
      SplitCons(parts[0], Join(parts[1..], d), d);
      SplitJoin(parts[1..], d);
    }
  }

  /** A separator-free first part followed by the separator splits off. */
  lemma SplitCons(p0: string, rest: string, d: char)
    requires d !in p0
    ensures Split(p0 + [d] + rest, d) == [p0] + Split(rest, d)
  {
    var s := p0 + [d] + rest;
    assert s == p0 + ([d] + rest);
    FindCharPrefix(p0, [d] + rest, d);
    assert s[..|p0|] == p0;
    assert s[|p0| + 1..] == rest;
  }

  lemma {:induction false} FindCharPrefix(a: string, b: string, d: char)
    requires d !in a
    requires |b| > 0 && b[0] == d
    ensures FindChar(a + b, d) == |a|
  {
    if |a| > 0 {
      assert (a + b)[1..] == a[1..] + b;
      FindCharPrefix(a[1..], b, d);
    } else {
      assert a + b == b;
    }
  }

  /** `s.replace(pat, "")`: removes every non-overlapping occurrence of
      `pat`, scanning left to right. */
  function RemoveAll(s: string, pat: string): (r: string)
    requires |pat| > 0
    ensures |r| <= |s|
    decreases |s|
  {
    if |s| < |pat| then s
    else if s[..|pat|] == pat then RemoveAll(s[|pat|..], pat)
    else [s[0]] + RemoveAll(s[1..], pat)
  }

  /** Appending a pattern that starts with a character absent from `x`, and
      then removing every occurrence of it, gives `x` back. */
  lemma {:induction false} RemoveAllSuffix(x: string, pat: string)
    requires |pat| > 0 && pat[0] !in x
    ensures RemoveAll(x + pat, pat) == x
  {
    if |x| == 0 {
      assert x + pat == pat;
      assert pat[|pat|..] == "";
    } else {
      var s := x + pat;
      assert |s| >= |pat|;
      assert s[..|pat|] != pat by {
        assert s[..|pat|][0] == x[0] != pat[0];
      }
      assert RemoveAll(s, pat) == [s[0]] + RemoveAll(s[1..], pat);
      assert s[1..] == x[1..] + pat;
      assert pat[0] !in x[1..] by {
        assert forall c :: c in x[1..] ==> c in x;
      }
      RemoveAllSuffix(x[1..], pat);
      assert x == [x[0]] + x[1..];
    }
  }
}
