/**
 * The pieces of the .NET base library the program leans on: Guid, DateTime
 * ticks, char.IsWhiteSpace, string.ToLower, integer rendering and int.TryParse.
 */
module Dotnet {
  import opened Wrappers

  /** System.Guid is a 128-bit value; Guid.Empty is all zeros. */
  type Guid = bv128
  const EmptyGuid: Guid := 0

  /** DateTime and TimeSpan values as counts of 100-nanosecond ticks. */
  type Ticks = int
  const MinValue: Ticks := 0
  const TicksPerSecond: int := 10_000_000
  const TicksPerMinute: int := 60 * TicksPerSecond
  const TicksPerHour: int := 60 * TicksPerMinute
  const TicksPerDay: int := 24 * TicksPerHour

  /** char.IsWhiteSpace: the Unicode separators plus the C0/C1 whitespace controls. */
  predicate IsWhiteSpace(c: char) {
    || c == ' '
    || ('\t' <= c <= '\r')
    || c == '\U{85}'
    || c == '\U{A0}'
    || c == '\U{1680}'
    || ('\U{2000}' <= c <= '\U{200A}')
    || c == '\U{2028}'
    || c == '\U{2029}'
    || c == '\U{202F}'
    || c == '\U{205F}'
    || c == '\U{3000}'
  }

  /** string.IsNullOrWhiteSpace on a non-null string: empty or whitespace only. */
  predicate IsNullOrWhiteSpace(s: string) {
    forall i :: 0 <= i < |s| ==> IsWhiteSpace(s[i])
  }

  function ToLowerChar(c: char): (r: char)
    ensures 'a' <= r <= 'z' <==> ('a' <= c <= 'z' || 'A' <= c <= 'Z')
    ensures !('A' <= c <= 'Z') ==> r == c
  {
    if 'A' <= c <= 'Z' then (c as int + 32) as char else c
  }

  /**
   * string.ToLower, on the ASCII letters: no upper-case letter is left, each
   * upper-case letter becomes its lower-case partner 32 code points up, and
   * every other character stays.
   */
  function ToLower(s: string): (r: string)
    ensures |r| == |s|
    ensures forall i :: 0 <= i < |r| ==> !('A' <= r[i] <= 'Z')
    ensures forall i :: 0 <= i < |s| && 'A' <= s[i] <= 'Z' ==> r[i] as int == s[i] as int + 32
    ensures forall i :: 0 <= i < |s| && !('A' <= s[i] <= 'Z') ==> r[i] == s[i]
  {
    seq(|s|, i requires 0 <= i < |s| => ToLowerChar(s[i]))
  }

  /** Lower-casing twice is lower-casing once. */
  lemma ToLowerIdempotent(s: string)
    ensures ToLower(ToLower(s)) == ToLower(s)
  {
    var once := ToLower(s);
    forall i | 0 <= i < |once|
      ensures ToLower(once)[i] == once[i]
    {
      assert !('A' <= once[i] <= 'Z');
    }
  }

  predicate IsDigit(c: char) {
    '0' <= c <= '9'
  }

  function Digit(d: nat): (c: char)
    requires d < 10
    ensures IsDigit(c) && c as int - '0' as int == d
  {
    ('0' as int + d) as char
  }

  /** The invariant-culture decimal rendering of a non-negative integer (int.ToString, "D", "F0"). */
  function DecimalString(n: nat): (s: string)
    ensures |s| >= 1
    ensures forall i :: 0 <= i < |s| ==> IsDigit(s[i])
  {
    if n < 10 then [Digit(n)] else DecimalString(n / 10) + [Digit(n % 10)]
  }

  /** int.ToString() in the invariant culture. */
  function IntString(n: int): string {
    if n < 0 then "-" + DecimalString(-n) else DecimalString(n)
  }

  /** The value of a string of decimal digits, read most significant digit first. */
  function DigitsValue(s: string): nat
    requires forall i :: 0 <= i < |s| ==> IsDigit(s[i])
  {
    if s == [] then 0
    else
      assert IsDigit(s[|s| - 1]);
      DigitsValue(s[..|s| - 1]) * 10 + (s[|s| - 1] as int - '0' as int)
  }

  lemma {:induction false} DigitsValueOfDecimal(n: nat)
    ensures DigitsValue(DecimalString(n)) == n
  {
    if n >= 10 {
      var s := DecimalString(n);
      assert s[..|s| - 1] == DecimalString(n / 10);
      DigitsValueOfDecimal(n / 10);
    }
  }

  const Int32Min: int := -0x8000_0000
  const Int32Max: int := 0x7FFF_FFFF

  /** The white space NumberStyles.Integer lets int.TryParse skip at either end. */
  predicate IsNumberWhite(c: char) {
    c == ' ' || ('\t' <= c <= '\r')
  }

  function TrimStart(s: string): (r: string)
    ensures |r| <= |s|
    ensures r == s[|s| - |r|..]
    ensures |r| > 0 ==> !IsNumberWhite(r[0])
  {
    if |s| > 0 && IsNumberWhite(s[0]) then TrimStart(s[1..]) else s
  }

  function TrimEnd(s: string): (r: string)
    ensures |r| <= |s|
    ensures r == s[..|r|]
    ensures |r| > 0 ==> !IsNumberWhite(r[|r| - 1])
  {
    if |s| > 0 && IsNumberWhite(s[|s| - 1]) then TrimEnd(s[..|s| - 1]) else s
  }

  /**
   * int.TryParse(s, out v) with NumberStyles.Integer in the invariant culture:
   * surrounding white space, one optional sign, at least one decimal digit,
   * and a value that fits in 32 bits.
   */
  function ParseInt32(s: string): (r: Option<int>)
    ensures r.Some? ==> Int32Min <= r.value <= Int32Max
  {
    var t := TrimEnd(TrimStart(s));
    var signed := |t| > 0 && (t[0] == '-' || t[0] == '+');
    var body := if signed then t[1..] else t;
    if |body| == 0 || exists i :: 0 <= i < |body| && !IsDigit(body[i]) then None
    else
      var magnitude: int := DigitsValue(body);
      var v: int := if signed && t[0] == '-' then -magnitude else magnitude;
      if Int32Min <= v <= Int32Max then Some(v) else None
  }

  /** Rendering a non-negative 32-bit value and parsing it back gives the value. */
  lemma ParseRendered(n: nat)
    requires n <= Int32Max
    ensures ParseInt32(DecimalString(n)) == Some(n)
  {
    var s := DecimalString(n);
    assert !IsNumberWhite(s[0]);
    assert TrimStart(s) == s;
    assert !IsNumberWhite(s[|s| - 1]);
    assert TrimEnd(s) == s;
    assert IsDigit(s[0]);
    DigitsValueOfDecimal(n);
  }
}
