/** Decimal integers as text: printing a non-negative number the way
    `std::ostream <<` and Python's `str` do, parsing the way C++ `std::stoi`
    does (leading whitespace, optional sign, longest digit prefix, trailing
    text ignored) and the way Python's `int(str)` does (surrounding whitespace,
    optional sign, digits with single underscores between them). */
module Decimal {
  import opened Wrappers
  import Text

  const IntMax: int := 0x7FFF_FFFF
  const IntMin: int := -0x8000_0000

  predicate IsDigit(c: char) {
    '0' <= c <= '9'
  }

  predicate AllDigits(s: string) {
    forall i :: 0 <= i < |s| ==> IsDigit(s[i])
  }

  function DigitChar(d: nat): (c: char)
    requires d < 10
    ensures IsDigit(c)
  {
    ('0' as int + d) as char
  }

  /** The value of a run of decimal digits. */
  function DigitsValue(s: string): nat
    requires AllDigits(s)
  {
    if |s| == 0 then 0
    else DigitsValue(s[..|s| - 1]) * 10 + (s[|s| - 1] as int - '0' as int)
  }

  /** The decimal text of `n`, without leading zeros. */
  function NatToString(n: nat): (s: string)
    ensures |s| >= 1 && AllDigits(s)
    ensures |s| > 1 ==> s[0] != '0'
  {
    if n < 10 then [DigitChar(n)]
    else NatToString(n / 10) + [DigitChar(n % 10)]
  }

  /** Reading back what was printed gives the number. */
  lemma {:induction false} NatToStringValue(n: nat)
    ensures DigitsValue(NatToString(n)) == n
  {
    if n >= 10 {
      var s := NatToString(n);
      NatToStringValue(n / 10);
      assert s[..|s| - 1] == NatToString(n / 10);
    }
  }

  /** Length of the longest all-digit prefix. */
  function DigitRun(s: string): (n: nat)
    ensures n <= |s| && AllDigits(s[..n])
    ensures n < |s| ==> !IsDigit(s[n])
  {
    if |s| == 0 || !IsDigit(s[0]) then 0
    else
      var m := DigitRun(s[1..]);
      assert s[..1 + m] == [s[0]] + s[1..][..m];
      1 + m
  }

  lemma {:induction false} DigitRunOfDigits(a: string, b: string)
    requires AllDigits(a)
    requires |b| == 0 || !IsDigit(b[0])
    ensures DigitRun(a + b) == |a|
  {
    if |a| > 0 {
      assert (a + b)[1..] == a[1..] + b;
      DigitRunOfDigits(a[1..], b);
    } else {
      assert a + b == b;
    }
  }

  /** Why a C++ `std::stoi` call throws. */
  datatype StoiError = InvalidArgument | OutOfRange

  /** `std::stoi(s)` on a C `int` (32 bits): skips leading whitespace, reads
      an optional sign and the longest run of digits, and ignores the rest. */
  function Stoi(s: string): (r: Result<int, StoiError>)
    ensures r.Ok? ==> IntMin <= r.value <= IntMax
  {
    var i := CSpace(s);
    var t := s[i..];
    var neg := |t| > 0 && t[0] == '-';
    var signLen := if |t| > 0 && (t[0] == '-' || t[0] == '+') then 1 else 0;
    var u := t[signLen..];
    var n := DigitRun(u);
    if n == 0 then Err(InvalidArgument)
    else
      var v: int := if neg then 0 - DigitsValue(u[..n]) else DigitsValue(u[..n]);
      if v < IntMin || v > IntMax then Err(OutOfRange) else Ok(v)
  }

  /** Leading whitespace as C's `isspace` sees it. */
  function CSpace(s: string): (n: nat)
    ensures n <= |s|
  {
    if |s| > 0 && (s[0] == ' ' || s[0] == '\t' || s[0] == '\n' || s[0] == '\r'
                   || s[0] == '\U{000B}' || s[0] == '\U{000C}')
    then 1 + CSpace(s[1..])
    else 0
  }

  /** `std::stoi` reads back a printed number followed by any text that does
      not start with a digit. */
  lemma StoiPrinted(n: nat, rest: string)
    requires n <= IntMax
    requires |rest| == 0 || !IsDigit(rest[0])
    ensures Stoi(NatToString(n) + rest) == Ok(n)
  {
    var s := NatToString(n) + rest;
    assert CSpace(s) == 0;
    assert s[0..] == s;
    DigitRunOfDigits(NatToString(n), rest);
    assert s[..|NatToString(n)|] == NatToString(n);
    NatToStringValue(n);
  }

  /** The digit part Python's `int` accepts: digits, where an underscore
      may separate two digits (no leading, trailing or doubled underscore). */
  predicate Underscored(u: string)
    decreases |u|
  {
    && |u| > 0 && IsDigit(u[0])
    && (|u| == 1 || if u[1] == '_' then Underscored(u[2..]) else Underscored(u[1..]))
  }

  /** The digits of an underscored digit part, underscores dropped. */
  function DropUnderscores(u: string): (d: string)
    requires Underscored(u)
    ensures |d| > 0 && AllDigits(d) && |d| <= |u|
    decreases |u|
  {
    [u[0]] + (if |u| == 1 then [] else if u[1] == '_' then DropUnderscores(u[2..]) else DropUnderscores(u[1..]))
  }

  /** A plain run of digits is underscored and loses nothing. */
  lemma {:induction false} DigitsUnderscored(u: string)
    requires |u| > 0 && AllDigits(u)
    ensures Underscored(u) && DropUnderscores(u) == u
    decreases |u|
  {
    if |u| > 1 {
      assert IsDigit(u[1]);
      DigitsUnderscored(u[1..]);
    }
  }

  /** Python `int(s)` on a string: whitespace around an optional sign and a
      digit part with single underscores allowed between digits, the value
      being that of the digits alone; `None` where Python raises
      `ValueError`. A text without a leading minus sign gives a
      non-negative number. */
  function PyInt(s: string): (r: Option<int>)
    ensures r.Some? && !(|Text.Strip(s)| > 0 && Text.Strip(s)[0] == '-') ==> r.value >= 0
  {
    var t := Text.Strip(s);
    var neg := |t| > 0 && t[0] == '-';
    var signLen := if |t| > 0 && (t[0] == '-' || t[0] == '+') then 1 else 0;
    var u := t[signLen..];
    if !Underscored(u) then None
    else
      var d := DigitsValue(DropUnderscores(u));
      Some(if neg then 0 - d else d)
  }

  /** An underscore between two digit runs does not change the number. */
  lemma PyIntUnderscore(a: string, b: string)
    requires |a| > 0 && |b| > 0 && AllDigits(a) && AllDigits(b)
    ensures PyInt(a + "_" + b) == PyInt(a + b) == Some(DigitsValue(a + b))
  {
    var s := a + "_" + b;
    DropAround(a, b);
    assert s[0] == a[0];
    PyIntUnsigned(s);
    PyIntDigits(a + b);
  }

  /** Python's `int` on an underscored digit part with nothing around it. */
  lemma PyIntUnsigned(s: string)
    requires Underscored(s)
    ensures PyInt(s) == Some(DigitsValue(DropUnderscores(s)))
  {
    UnderscoredChars(s);
    forall k | 0 <= k < |s| ensures !Text.IsSpace(s[k]) {
      assert IsDigit(s[k]) || s[k] == '_';
    }
    Text.StripNoSpace(s);
    assert s[0..] == s;
  }

  /** An underscored part holds only digits and underscores. */
  lemma {:induction false} UnderscoredChars(s: string)
    requires Underscored(s)
    ensures forall k :: 0 <= k < |s| ==> IsDigit(s[k]) || s[k] == '_'
    decreases |s|
  {
    if |s| > 1 {
      if s[1] == '_' {
        UnderscoredChars(s[2..]);
        assert forall k :: 2 <= k < |s| ==> s[k] == s[2..][k - 2];
      } else {
        UnderscoredChars(s[1..]);
        assert forall k :: 1 <= k < |s| ==> s[k] == s[1..][k - 1];
      }
    }
  }

  lemma {:induction false} DropAround(a: string, b: string)
    requires |a| > 0 && |b| > 0 && AllDigits(a) && AllDigits(b)
    ensures Underscored(a + "_" + b) && DropUnderscores(a + "_" + b) == a + b
    decreases |a|
  {
    if |a| == 1 {
      DropAroundDigit(a[0], b);
      assert a == [a[0]];
    } else {
      var t := a[1..];
      assert AllDigits(t) by { assert forall k :: 0 <= k < |t| ==> t[k] == a[k + 1]; }
      DropAround(t, b);
      DropAroundStep(a[0], t, t + "_" + b, b);
      assert a == [a[0]] + t;
    }
  }

  lemma DropAroundStep(c: char, t: string, u: string, b: string)
    requires IsDigit(c) && u == t + "_" + b && Underscored(u) && DropUnderscores(u) == t + b
    ensures Underscored([c] + t + "_" + b) && DropUnderscores([c] + t + "_" + b) == [c] + t + b
  {
    UnderscoredCons(c, u);
    assert [c] + t + "_" + b == [c] + u;
    assert [c] + t + b == [c] + (t + b);
  }

  /** One digit, an underscore, then a run of digits. */
  lemma DropAroundDigit(c: char, b: string)
    requires IsDigit(c) && |b| > 0 && AllDigits(b)
    ensures Underscored([c] + "_" + b) && DropUnderscores([c] + "_" + b) == [c] + b
  {
    var s := [c] + "_" + b;
    DigitsUnderscored(b);
    assert s[0] == c && s[1] == '_' && s[2..] == b;
  }

  /** A digit in front of an underscored part that starts with a digit. */
  lemma UnderscoredCons(c: char, t: string)
    requires IsDigit(c) && Underscored(t)
    ensures Underscored([c] + t) && DropUnderscores([c] + t) == [c] + DropUnderscores(t)
  {
    var s := [c] + t;
    assert s[0] == c && s[1] == t[0] && s[1..] == t;
  }

  /** A doubled underscore is rejected. */
  lemma PyIntDoubleUnderscore(a: string, b: string)
    requires |a| > 0 && AllDigits(a) && AllDigits(b)
    ensures PyInt(a + "__" + b) == None
  {
    var s := a + "__" + b;
    forall k | 0 <= k < |s| ensures !Text.IsSpace(s[k]) {
      if k < |a| || k >= |a| + 2 { assert IsDigit(s[k]); }
    }
    Text.StripNoSpace(s);
    assert IsDigit(s[0]);
    assert s[0..] == s;
    DoubledRejected(a, b);
  }

  lemma {:induction false} DoubledRejected(a: string, b: string)
    requires |a| > 0 && AllDigits(a)
    ensures !Underscored(a + "__" + b)
    decreases |a|
  {
    var s := a + "__" + b;
    if |a| == 1 {
      assert s[1] == '_' && s[2..][0] == '_';
    } else {
      assert s[1..] == a[1..] + "__" + b;
      DoubledRejected(a[1..], b);
    }
  }

  /** Python's `int` reads back a printed number. */
  lemma PyIntPrinted(n: nat)
    ensures PyInt(NatToString(n)) == Some(n)
  {
    PyIntDigits(NatToString(n));
    NatToStringValue(n);
  }

  /** Python's `int` reads a run of digits as its decimal value. */
  lemma PyIntDigits(s: string)
    requires |s| > 0 && AllDigits(s)
    ensures PyInt(s) == Some(DigitsValue(s))
  {
    DigitsUnderscored(s);
    PyIntUnsigned(s);
  }
}
