/** Character-level helpers shared by the server code: Python's str.strip and
    str.isdigit, int() on a decimal string, str() of a natural number, and the
    byte order SQLite uses to sort TEXT. */
module Text {
  import opened Wrappers

  /** The characters Python's str.isspace accepts (and str.strip removes). */
  predicate IsSpace(c: char) {
    var n := c as int;
    (9 <= n <= 13) || (28 <= n <= 32) || n == 0x85 || n == 0xA0 || n == 0x1680
    || (0x2000 <= n <= 0x200A) || n == 0x2028 || n == 0x2029 || n == 0x202F
    || n == 0x205F || n == 0x3000
  }

  function StripLeft(s: string): (r: string)
    ensures |r| <= |s|
    ensures r == [] || !IsSpace(r[0])
  {
    if |s| > 0 && IsSpace(s[0]) then StripLeft(s[1..]) else s
  }

  function StripRight(s: string): (r: string)
    ensures |r| <= |s|
    ensures r == [] || !IsSpace(r[|r| - 1])
  {
    if |s| > 0 && IsSpace(s[|s| - 1]) then StripRight(s[..|s| - 1]) else s
  }

  /** Python's str.strip() with no argument. */
  function Strip(s: string): string {
    StripRight(StripLeft(s))
  }

  /** A string holding no whitespace is its own strip. */
  lemma StripPlain(s: string)
    requires forall i :: 0 <= i < |s| ==> !IsSpace(s[i])
    ensures Strip(s) == s
  {
  }

  predicate IsDigit(c: char) {
    '0' <= c <= '9'
  }

  /** Python's str.isdigit() restricted to ASCII digits: false on the empty string. */
  predicate IsDigits(s: string) {
    |s| > 0 && forall i :: 0 <= i < |s| ==> IsDigit(s[i])
  }

  function DigitValue(c: char): nat
    requires IsDigit(c)
  {
    c as int - '0' as int
  }

  /** The value int() gives a string of decimal digits (leading zeros allowed). */
  function DigitsValue(s: string): nat
    requires forall i :: 0 <= i < |s| ==> IsDigit(s[i])
  {
    if s == [] then 0 else DigitsValue(s[..|s| - 1]) * 10 + DigitValue(s[|s| - 1])
  }

  function DigitChar(d: nat): (c: char)
    requires d < 10
    ensures IsDigit(c) && DigitValue(c) == d
  {
    ('0' as int + d) as char
  }

  /** str(n) for a natural number: its decimal digits, without leading zeros. */
  function NatToString(n: nat): (s: string)
    ensures IsDigits(s)
  {
    if n < 10 then [DigitChar(n)] else NatToString(n / 10) + [DigitChar(n % 10)]
  }

  lemma {:induction false} NatToStringRoundTrip(n: nat)
    ensures DigitsValue(NatToString(n)) == n
  {
    if n >= 10 {
      var s := NatToString(n);
      assert s[..|s| - 1] == NatToString(n / 10);
      NatToStringRoundTrip(n / 10);
    }
  }

  /** Python's int() on an already stripped string: an optional sign followed by
      at least one ASCII digit; anything else raises ValueError (None here). */
  function ParseInt(s: string): (r: Option<int>)
    ensures r.Some? <==> (IsDigits(s) || (|s| > 1 && (s[0] == '+' || s[0] == '-') && IsDigits(s[1..])))
    ensures IsDigits(s) ==> r == Some(DigitsValue(s))
    ensures r.Some? && r.value < 0 ==> s[0] == '-'
    ensures |s| > 1 && (s[0] == '+' || s[0] == '-') && IsDigits(s[1..]) ==>
      r == Some(if s[0] == '-' then 0 - DigitsValue(s[1..]) as int else DigitsValue(s[1..]))
  {
    if IsDigits(s) then Some(DigitsValue(s))
    else if |s| > 1 && s[0] == '+' && IsDigits(s[1..]) then Some(DigitsValue(s[1..]))
    else if |s| > 1 && s[0] == '-' && IsDigits(s[1..]) then Some(0 - DigitsValue(s[1..]) as int)
    else None
  }

  /** SQLite's TRIM(x) with one argument: removes spaces (only) at both ends. */
  function SqlTrim(s: string): (r: string)
    ensures r == [] || (r[0] != ' ' && r[|r| - 1] != ' ')
    ensures r == [] <==> forall k :: 0 <= k < |s| ==> s[k] == ' '
    decreases |s|
  {
    if |s| > 0 && s[0] == ' ' then SqlTrim(s[1..])
    else if |s| > 0 && s[|s| - 1] == ' ' then SqlTrim(s[..|s| - 1])
    else s
  }

  /** A run of spaces at the ends of s, and s[i..j] between them. */
  predicate SpacesAround(s: string, i: int, j: int)
    requires 0 <= i <= j <= |s|
  {
    (forall k :: 0 <= k < i ==> s[k] == ' ') && (forall k :: j <= k < |s| ==> s[k] == ' ')
  }

  /** TRIM removes the spaces at both ends and nothing else: its result is a
      slice of s with only spaces outside it. */
  lemma {:induction false} SqlTrimSlice(s: string) returns (i: nat, j: nat)
    ensures i <= j <= |s| && SqlTrim(s) == s[i..j] && SpacesAround(s, i, j)
    decreases |s|
  {
    if |s| > 0 && s[0] == ' ' {
      var i', j' := SqlTrimSlice(s[1..]);
      i, j := i' + 1, j' + 1;
      ShiftFront(s, i', j');
    } else if |s| > 0 && s[|s| - 1] == ' ' {
      i, j := SqlTrimSlice(s[..|s| - 1]);
      DropBack(s, i, j);
    } else {
      i, j := 0, |s|;
    }
  }

  lemma ShiftFront(s: string, i: int, j: int)
    requires |s| > 0 && s[0] == ' ' && 0 <= i <= j <= |s| - 1 && SpacesAround(s[1..], i, j)
    ensures s[1..][i..j] == s[i + 1..j + 1] && SpacesAround(s, i + 1, j + 1)
  {
  }

  lemma DropBack(s: string, i: int, j: int)
    requires |s| > 0 && s[|s| - 1] == ' ' && 0 <= i <= j <= |s| - 1 && SpacesAround(s[..|s| - 1], i, j)
    ensures s[..|s| - 1][i..j] == s[i..j] && SpacesAround(s, i, j)
  {
  }

  /** The order SQLite's BINARY collation gives TEXT values: code point by code
      point, a proper prefix first. */
  predicate LexLess(a: string, b: string)
    decreases |a|
  {
    if |a| == 0 then |b| > 0
    else if |b| == 0 then false
    else a[0] < b[0] || (a[0] == b[0] && LexLess(a[1..], b[1..]))
  }

  lemma {:induction false} LexIrreflexive(a: string)
    ensures !LexLess(a, a)
  {
    if |a| > 0 {
      LexIrreflexive(a[1..]);
    }
  }

  lemma {:induction false} LexTransitive(a: string, b: string, c: string)
    requires LexLess(a, b) && LexLess(b, c)
    ensures LexLess(a, c)
    decreases |a|
  {
    if |a| > 0 && a[0] == b[0] && b[0] == c[0] {
      LexTransitive(a[1..], b[1..], c[1..]);
    }
  }

  lemma {:induction false} LexTotal(a: string, b: string)
    requires a != b
    ensures LexLess(a, b) || LexLess(b, a)
    decreases |a|
  {
    if |a| > 0 && |b| > 0 && a[0] == b[0] {
      assert a == [a[0]] + a[1..] && b == [b[0]] + b[1..];
      LexTotal(a[1..], b[1..]);
    }
  }
}
