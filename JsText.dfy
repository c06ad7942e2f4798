/** The small pieces of JavaScript string and number semantics the HUD relies on:
    `String.prototype.trim`, `parseInt(s, 16)` and the decimal text of an integer
    in a template string. */
module JsText {

  datatype Option<T> = None | Some(value: T)

  /** `Math.max` and `Math.min` on integers. */
  function Max(a: int, b: int): int {
    if a < b then b else a
  }

  function Min(a: int, b: int): int {
    if a < b then a else b
  }

  /** The characters `trim` removes and `parseInt` skips: ECMAScript WhiteSpace
      (tab, vertical tab, form feed, space, no-break space, BOM and the Zs
      category) and LineTerminator (line feed, carriage return, U+2028, U+2029). */
  predicate IsWhitespace(c: char) {
    || (c <= ' ' && (c == ' ' || ('\t' <= c <= '\r')))
    || ('\U{00A0}' <= c
        && (c == '\U{00A0}' || c == '\U{1680}' || ('\U{2000}' <= c <= '\U{200A}')
            || c == '\U{2028}' || c == '\U{2029}' || c == '\U{202F}' || c == '\U{205F}'
            || c == '\U{3000}' || c == '\U{FEFF}'))
  }


  /** The index of the first character at or after `i` that is not whitespace
      (or `|s|`). */
  function SkipWhitespace(s: string, i: nat): (j: nat)
    requires i <= |s|
    ensures i <= j <= |s|
    ensures forall k :: i <= k < j ==> IsWhitespace(s[k])
    ensures j < |s| ==> !IsWhitespace(s[j])
    decreases |s| - i
  {
    if i < |s| && IsWhitespace(s[i]) then SkipWhitespace(s, i + 1) else i
  }

  /** The index just past the last character before `j` that is not
      whitespace (or 0). */
  function BackWhitespace(s: string, j: nat): (i: nat)
    requires j <= |s|
    ensures i <= j
    ensures forall k :: i <= k < j ==> IsWhitespace(s[k])
    ensures i > 0 ==> !IsWhitespace(s[i - 1])
  {
    if j > 0 && IsWhitespace(s[j - 1]) then BackWhitespace(s, j - 1) else j
  }

  /** How much leading whitespace `trim` drops from `s`. */
  function LeadingWhitespace(s: string): nat
    ensures LeadingWhitespace(s) <= |s|
  {
    SkipWhitespace(s, 0)
  }

  /** `s.trim()`: leading and trailing whitespace removed. */
  function Trim(s: string): (t: string)
    ensures |t| <= |s|
    ensures t != [] ==> !IsWhitespace(t[0]) && !IsWhitespace(t[|t| - 1])
  {
    var i := LeadingWhitespace(s);
    s[i..BackWhitespace(s[i..], |s| - i) + i]
  }

  /** What `trim` promises: the result is the part of `s` between a run of
      leading and a run of trailing whitespace, and it neither starts nor ends
      with whitespace. */
  lemma TrimSpec(s: string)
    ensures LeadingWhitespace(s) + |Trim(s)| <= |s|
    ensures s[LeadingWhitespace(s)..LeadingWhitespace(s) + |Trim(s)|] == Trim(s)
    ensures forall k :: 0 <= k < LeadingWhitespace(s) ==> IsWhitespace(s[k])
    ensures forall k :: LeadingWhitespace(s) + |Trim(s)| <= k < |s| ==> IsWhitespace(s[k])
    ensures Trim(s) != [] ==> !IsWhitespace(Trim(s)[0]) && !IsWhitespace(Trim(s)[|Trim(s)| - 1])
  {
    var i := LeadingWhitespace(s);
    var t := s[i..];
    var e := BackWhitespace(t, |t|);
    assert Trim(s) == s[i..i + e];
    forall k | i + e <= k < |s|
      ensures IsWhitespace(s[k])
    {
      assert s[k] == t[k - i];
    }
    if e > 0 {
      assert Trim(s)[0] == s[i];
      assert Trim(s)[e - 1] == t[e - 1];
    }
  }

  /** Trimming twice is trimming once. */
  /** A string that neither starts nor ends with whitespace is its own trim. */
  lemma TrimOfTrimmed(t: string)
    requires t != [] ==> !IsWhitespace(t[0]) && !IsWhitespace(t[|t| - 1])
    ensures Trim(t) == t
  {
    assert LeadingWhitespace(t) == 0;
    assert t[0..] == t;
  }

  /** Trimming twice is trimming once. */
  lemma TrimIdempotent(s: string)
    ensures Trim(Trim(s)) == Trim(s)
  {
    TrimSpec(s);
    TrimOfTrimmed(Trim(s));
  }

  // ---------------------------------------------------------------------------
  // Hexadecimal digits and parseInt(s, 16)

  predicate IsHexDigit(c: char) {
    ('0' <= c <= '9') || ('a' <= c <= 'f') || ('A' <= c <= 'F')
  }

  function HexDigitValue(c: char): (v: nat)
    requires IsHexDigit(c)
    ensures v < 16
  {
    if '0' <= c <= '9' then c as int - '0' as int
    else if 'a' <= c <= 'f' then c as int - 'a' as int + 10
    else c as int - 'A' as int + 10
  }

  /** The index of the first character at or after `i` that is not a hex
      digit (or `|s|`). */
  function HexRun(s: string, i: nat): (j: nat)
    requires i <= |s|
    ensures i <= j <= |s|
    ensures forall k :: i <= k < j ==> IsHexDigit(s[k])
    ensures j < |s| ==> !IsHexDigit(s[j])
    decreases |s| - i
  {
    if i < |s| && IsHexDigit(s[i]) then HexRun(s, i + 1) else i
  }

  /** The value of the hex digits `s[lo..hi]`, most significant first. */
  function HexValue(s: string, lo: nat, hi: nat): nat
    requires lo <= hi <= |s|
    requires forall k :: lo <= k < hi ==> IsHexDigit(s[k])
    decreases hi
  {
    if hi == lo then 0 else HexValue(s, lo, hi - 1) * 16 + HexDigitValue(s[hi - 1])
  }

  /** `parseInt(s, 16)`, with `None` for NaN: leading whitespace is skipped, one
      sign is taken, a `0x`/`0X` prefix is dropped, and the longest run of hex
      digits is read; no digits at all gives NaN. A negative zero reads as 0. */
  function ParseIntHex(s: string): (r: Option<int>)
    ensures s == [] ==> r.None?
    ensures s != [] && (forall m :: 0 <= m < |s| ==> IsHexDigit(s[m])) ==> r == Some(HexValue(s, 0, |s|))
    ensures |s| <= 2 && r.Some? ==> -15 <= r.value <= 255
  {
    var i := SkipWhitespace(s, 0);
    var negative := i < |s| && s[i] == '-';
    var j := if i < |s| && (s[i] == '-' || s[i] == '+') then i + 1 else i;
    var k := if j + 1 < |s| && s[j] == '0' && (s[j + 1] == 'x' || s[j + 1] == 'X') then j + 2 else j;
    var e := HexRun(s, k);
    if e == k then None
    else
      var n: int := HexValue(s, k, e);
      HexRunToEnd(s, k);
      HexValueBound(s, k, e);
      Some(if negative then -n else n)
  }

  /** A run of hex digits that reaches the end of the string is read whole. */
  lemma {:induction false} HexRunToEnd(s: string, i: nat)
    requires i <= |s|
    ensures (forall m :: i <= m < |s| ==> IsHexDigit(s[m])) ==> HexRun(s, i) == |s|
    decreases |s| - i
  {
    if i < |s| {
      HexRunToEnd(s, i + 1);
    }
  }

  /** One hex digit is at most 15, two are at most 255. */
  lemma {:induction false} HexValueBound(s: string, lo: nat, hi: nat)
    requires lo <= hi <= |s|
    requires forall k :: lo <= k < hi ==> IsHexDigit(s[k])
    ensures hi - lo == 1 ==> HexValue(s, lo, hi) <= 15
    ensures hi - lo == 2 ==> HexValue(s, lo, hi) <= 255
  {
    if hi - lo == 1 {
      assert HexValue(s, lo, hi - 1) == 0;
    } else if hi - lo == 2 {
      HexValueBound(s, lo, hi - 1);
      var v := HexValue(s, lo, hi - 1);
      assert v * 16 <= 15 * 16;
    }
  }

  /** Two hex digits read as one byte, high digit first. */
  lemma ParseTwoHexDigits(a: char, b: char)
    requires IsHexDigit(a) && IsHexDigit(b)
    ensures ParseIntHex([a, b]) == Some(16 * HexDigitValue(a) + HexDigitValue(b))
    ensures 0 <= 16 * HexDigitValue(a) + HexDigitValue(b) <= 255
  {
    var d := [a, b];
    assert SkipWhitespace(d, 0) == 0;
    assert HexRun(d, 0) == 2;
  }

  // ---------------------------------------------------------------------------
  // Decimal text of integers, as a template string writes them

  predicate IsDecimalDigit(c: char) {
    '0' <= c <= '9'
  }

  function DigitChar(d: nat): (c: char)
    requires d < 10
    ensures IsDecimalDigit(c) && c as int - '0' as int == d
  {
    ('0' as int + d) as char
  }

  /** The decimal digits of `n`, most significant first, without leading zeros. */
  function NatToDecimal(n: nat): (s: string)
    ensures |s| >= 1
    ensures forall k :: 0 <= k < |s| ==> IsDecimalDigit(s[k])
    ensures |s| > 1 ==> s[0] != '0'
  {
    if n < 10 then [DigitChar(n)] else NatToDecimal(n / 10) + [DigitChar(n % 10)]
  }

  function DigitValue(c: char): (d: nat)
    requires IsDecimalDigit(c)
    ensures d < 10
  {
    c as int - '0' as int
  }

  function IntToDecimal(i: int): string {
    if i < 0 then "-" + NatToDecimal(-i) else NatToDecimal(i)
  }

  /** The number a string of decimal digits denotes. */
  function DecimalValue(s: string): nat
    requires forall k :: 0 <= k < |s| ==> IsDecimalDigit(s[k])
  {
    if s == [] then 0 else DecimalValue(s[..|s| - 1]) * 10 + DigitValue(s[|s| - 1])
  }

  /** Reading back the decimal text of `n` gives `n`. */
  lemma {:induction false} DecimalRoundTrip(n: nat)
    ensures DecimalValue(NatToDecimal(n)) == n
  {
    if n >= 10 {
      DecimalRoundTrip(n / 10);
      var s := NatToDecimal(n);
      assert s[..|s| - 1] == NatToDecimal(n / 10);
    }
  }

  /** Different numbers have different decimal texts. */
  lemma DecimalInjective(m: nat, n: nat)
    requires NatToDecimal(m) == NatToDecimal(n)
    ensures m == n
  {
    DecimalRoundTrip(m);
    DecimalRoundTrip(n);
  }

  /** The decimal text of a natural number holds no character `c` that is not a digit. */
  lemma DecimalHasNo(n: nat, c: char)
    requires !IsDecimalDigit(c)
    ensures c !in NatToDecimal(n)
  {
  }

  /** The position of the first `c` in `s`. */
  function IndexOf(s: string, c: char): (i: nat)
    requires c in s
    ensures i < |s| && s[i] == c && c !in s[..i]
  {
    if s[0] == c then 0 else 1 + IndexOf(s[1..], c)
  }

  /** The first `c` of `a + [c] + b` is right after `a` when `a` holds none. */
  lemma {:induction false} IndexOfSeparator(a: string, c: char, b: string)
    requires c !in a
    ensures IndexOf(a + [c] + b, c) == |a|
  {
    var x := a + [c] + b;
    if a != [] {
      assert x[0] == a[0];
      assert x[1..] == a[1..] + [c] + b;
      IndexOfSeparator(a[1..], c, b);
    }
  }

  /** When a separator `c` occurs in neither left part, splitting at its first
      occurrence recovers both parts. */
  lemma SplitAtSeparator(a: string, b: string, a': string, b': string, c: char)
    requires c !in a && c !in a'
    requires a + [c] + b == a' + [c] + b'
    ensures a == a' && b == b'
  {
    var x := a + [c] + b;
    IndexOfSeparator(a, c, b);
    IndexOfSeparator(a', c, b');
    assert a == x[..|a|] && a' == x[..|a'|];
    assert b == x[|a| + 1..] && b' == x[|a'| + 1..];
  }
}
