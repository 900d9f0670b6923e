/**
 * Text helpers: Python's `str(int)` and `int(text)` on decimal integers,
 * `sep.join(parts)`, and a count of the occurrences of a pattern, used to
 * state how many separators a joined string holds.
 */
module Text {
  import opened Wrappers

  predicate IsDigit(c: char)
  {
    '0' <= c <= '9'
  }

  predicate AllDigits(s: string)
  {
    forall i :: 0 <= i < |s| ==> IsDigit(s[i])
  }

  function DigitChar(d: nat): (c: char)
    requires d < 10
    ensures IsDigit(c)
  {
    (48 + d) as char
  }

  function DigitValue(c: char): (d: nat)
    requires IsDigit(c)
    ensures d < 10 && DigitChar(d) == c
  {
    (c as int) - 48
  }

  /** Decimal text of `n`, most significant digit first, without leading zeros. */
  function NatToString(n: nat): (s: string)
    ensures |s| > 0 && AllDigits(s)
    ensures s[0] == '0' ==> n == 0
  {
    if n < 10 then [DigitChar(n)] else NatToString(n / 10) + [DigitChar(n % 10)]
  }

  /** Python `str(n)` for an integer `n`. */
  function IntToString(n: int): (s: string)
    ensures |s| > 0
    ensures forall i :: 0 <= i < |s| ==> IsDigit(s[i]) || (i == 0 && s[i] == '-')
    ensures s[0] == '-' <==> n < 0
    ensures s[0] == '0' ==> s == "0"
    ensures s[0] == '-' ==> |s| > 1 && s[1] != '0'
  {
    if n < 0 then "-" + NatToString(-n) else NatToString(n)
  }

  /** Value of a run (possibly empty) of decimal digits, most significant first; 0 for "". */
  function DigitsValue(s: string): nat
    requires AllDigits(s)
  {
    if s == [] then 0 else DigitsValue(s[..|s| - 1]) * 10 + DigitValue(s[|s| - 1])
  }

  /**
   * Python `int(text)` on an optionally signed run of decimal digits; any
   * other text is a ValueError, given as None.
   */
  function ParseInt(s: string): (r: Option<int>)
    ensures r.Some? ==> s != [] && AllDigits(if s[0] == '-' || s[0] == '+' then s[1..] else s)
    ensures r.Some? && r.value < 0 ==> s[0] == '-'
    ensures r.Some? <==>
      (s != [] && if s[0] == '-' || s[0] == '+' then |s| > 1 && AllDigits(s[1..]) else AllDigits(s))
    ensures r.Some? ==>
      (r.value == if s[0] == '-' then -(DigitsValue(s[1..]) as int)
                  else if s[0] == '+' then DigitsValue(s[1..]) else DigitsValue(s))
  {
    if s == [] then None
    else if s[0] == '-' || s[0] == '+' then
      if |s| > 1 && AllDigits(s[1..]) then
        var v: int := DigitsValue(s[1..]);
        Some(if s[0] == '-' then -v else v)
      else None
    else if AllDigits(s) then Some(DigitsValue(s))
    else None
  }

  lemma {:induction false} NatToStringValue(n: nat)
    ensures DigitsValue(NatToString(n)) == n
  {
    if n >= 10 {
      var s := NatToString(n);
      NatToStringValue(n / 10);
      assert s[..|s| - 1] == NatToString(n / 10);
    }
  }

  /** Reading back the decimal text of any integer gives the integer. */
  lemma IntToStringRoundTrip(n: int)
    ensures ParseInt(IntToString(n)) == Some(n)
  {
    if n < 0 {
      NatToStringValue(-n);
      assert IntToString(n)[1..] == NatToString(-n);
    } else {
      NatToStringValue(n);
    }
  }

  /** Total length of the parts. */
  function TotalLength(parts: seq<string>): nat
  {
    if parts == [] then 0 else |parts[0]| + TotalLength(parts[1..])
  }

  /** Python `sep.join(parts)`: the parts, in order, with one separator between neighbours. */
  function Join(parts: seq<string>, sep: string): string
  {
    if |parts| == 0 then []
    else if |parts| == 1 then parts[0]
    else parts[0] + sep + Join(parts[1..], sep)
  }

  /** The joined text is as long as the parts plus one separator between each two neighbours. */
  lemma {:induction false} JoinLength(parts: seq<string>, sep: string)
    ensures |Join(parts, sep)| == TotalLength(parts) + if parts == [] then 0 else (|parts| - 1) * |sep|
  {
    if |parts| > 1 {
      JoinLength(parts[1..], sep);
    }
  }

  /** Number of (possibly overlapping) occurrences of `pat` in `s`. */
  function Count(s: string, pat: string): nat
    decreases |s|
  {
    if |pat| == 0 || |s| < |pat| then 0
    else (if s[..|pat|] == pat then 1 else 0) + Count(s[1..], pat)
  }

  function SumCounts(parts: seq<string>, pat: string): nat
  {
    if parts == [] then 0 else Count(parts[0], pat) + SumCounts(parts[1..], pat)
  }

  /**
   * Gluing two strings creates no new occurrence when a character at the
   * seam is foreign to the pattern.
   */
  lemma {:induction false} CountAppend(x: string, y: string, pat: string)
    requires |pat| > 0
    requires x == [] || y == [] || x[|x| - 1] !in pat || y[0] !in pat
    ensures Count(x + y, pat) == Count(x, pat) + Count(y, pat)
  {
    if x == [] {
      assert x + y == y;
    } else {
      assert (x + y)[1..] == x[1..] + y;
      CountAppend(x[1..], y, pat);
      if |x| < |pat| {
        if |x + y| >= |pat| {
          var w := (x + y)[..|pat|];
          assert w[|x| - 1] == x[|x| - 1];
          assert w[|x|] == y[0];
          assert w != pat;
        }
      } else {
        assert (x + y)[..|pat|] == x[..|pat|];
      }
    }
  }

  /** A string none of whose characters starts the pattern holds no occurrence. */
  lemma {:induction false} CountNone(s: string, pat: string)
    requires |pat| > 0
    requires forall i :: 0 <= i < |s| ==> s[i] != pat[0]
    ensures Count(s, pat) == 0
  {
    if |s| >= |pat| {
      assert s[..|pat|][0] == s[0];
      CountNone(s[1..], pat);
    }
  }

  /**
   * Joining n parts that begin and end with characters foreign to the
   * separator adds exactly n - 1 occurrences of it.
   */
  lemma {:induction false} JoinCount(parts: seq<string>, sep: string)
    requires |sep| > 0 && |parts| > 0
    requires forall i :: 0 <= i < |parts| ==>
      |parts[i]| > 0 && parts[i][0] !in sep && parts[i][|parts[i]| - 1] !in sep
    ensures Count(Join(parts, sep), sep) == SumCounts(parts, sep) + |parts| - 1
  {
    if |parts| > 1 {
      var rest := Join(parts[1..], sep);
      JoinCount(parts[1..], sep);
      JoinFirst(parts[1..], sep);
      CountAppend(sep, rest, sep);
      CountAppend(parts[0], sep + rest, sep);
      assert parts[0] + sep + rest == parts[0] + (sep + rest);
      assert Count(sep, sep) == 1 by {
        assert sep[..|sep|] == sep;
      }
    }
  }

  lemma {:induction false} JoinFirst(parts: seq<string>, sep: string)
    requires |parts| > 0 && |parts[0]| > 0
    ensures |Join(parts, sep)| > 0 && Join(parts, sep)[0] == parts[0][0]
  {
  }
}
