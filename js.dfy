/** The part of JavaScript's built-in behaviour that the BrainBox core relies on:
    truthiness of optional values, the 32-bit integer conversion used by the bitwise
    operators, truncating division, number-to-string conversion, String.replace with a
    one-character pattern, toLowerCase and Array.prototype.splice with a delete count of one. */
module Js {

  /** A value that may be undefined or null (None). */
  datatype Option<+T> = None | Some(value: T) {
    /** `v || d` for a value whose only falsy form is None, and `v ?? d` in general. */
    function GetOr(default: T): T {
      match this
      case Some(v) => v
      case None => default
    }
  }

  /** Truthiness of a string that may be undefined: undefined, null and "" are falsy. */
  predicate TruthyString(v: Option<string>) {
    v.Some? && v.value != ""
  }

  /** Truthiness of a number that may be undefined: undefined, null and 0 are falsy. */
  predicate TruthyNumber(v: Option<int>) {
    v.Some? && v.value != 0
  }

  /** Truthiness of a boolean that may be undefined. */
  predicate TruthyBool(v: Option<bool>) {
    v == Some(true)
  }

  /** `x || 0` on a number that may be undefined: the default only replaces falsy values,
      and the one falsy number is 0 itself, so this is GetOr(0). */
  lemma OrZeroIsGetOr(v: Option<int>)
    ensures (if TruthyNumber(v) then v.value else 0) == v.GetOr(0)
  {
  }

  const TwoTo32: int := 0x1_0000_0000

  predicate IsInt32(x: int) {
    -0x8000_0000 <= x < 0x8000_0000
  }

  /** ToInt32 (section 7.1.6 of ECMA-262) of an integral number: the unique signed 32-bit
      value congruent to x modulo 2^32. */
  function ToInt32(x: int): (r: int)
    ensures IsInt32(r)
    ensures (x - r) % TwoTo32 == 0
  {
    var m := x % TwoTo32;
    if m < 0x8000_0000 then m else m - TwoTo32
  }

  /** Congruent numbers convert to the same 32-bit value. */
  lemma ToInt32Congruent(x: int, y: int)
    requires (x - y) % TwoTo32 == 0
    ensures ToInt32(x) == ToInt32(y)
  {
    var q := (x - y) / TwoTo32;
    assert x == y + q * TwoTo32;
    ModShift(y, q);
  }

  lemma ModShift(y: int, q: int)
    ensures (y + q * TwoTo32) % TwoTo32 == y % TwoTo32
  {
  }

  /** ToInt32 leaves a signed 32-bit value as it is. */
  lemma ToInt32OfInt32(x: int)
    requires IsInt32(x)
    ensures ToInt32(x) == x
  {
  }

  /** Multiplying and adding preserve congruence modulo 2^32. */
  lemma CongruentAffine(x: int, y: int, a: int, b: int)
    requires (x - y) % TwoTo32 == 0
    ensures ((a * x + b) - (a * y + b)) % TwoTo32 == 0
  {
    var q := (x - y) / TwoTo32;
    assert x - y == q * TwoTo32;
    calc {
      (a * x + b) - (a * y + b);
      a * (x - y);
      a * (q * TwoTo32);
      (a * q) * TwoTo32;
    }
    ModShift(0, a * q);
  }

  function Abs(x: int): nat {
    if x < 0 then -x else x
  }

  /** parseInt(a / b) for an integral a and a positive integral b: the quotient truncated
      toward zero. (For a signed 32-bit a the quotient is never printed in exponent form,
      so parseInt reads its integral part.) */
  function TruncDiv(a: int, b: int): int
    requires b > 0
  {
    if a >= 0 then a / b else -((-a) / b)
  }

  /** The remainder left by truncating division has the sign of the dividend and a
      magnitude below the divisor. */
  lemma TruncDivRemainder(a: int, b: int)
    requires b > 0
    ensures a >= 0 ==> 0 <= a - TruncDiv(a, b) * b < b
    ensures a < 0 ==> -b < a - TruncDiv(a, b) * b <= 0
  {
    if a >= 0 {
      assert a == (a / b) * b + a % b;
    } else {
      var n := -a;
      assert n == (n / b) * b + n % b;
      assert a - TruncDiv(a, b) * b == -(n % b);
    }
  }

  function DigitChar(d: nat): char
    requires d < 10
  {
    ('0' as int + d) as char
  }

  /** Number::toString (section 6.1.6.1.20 of ECMA-262) of a non-negative integer below
      10^21; from 10^21 up JavaScript writes an exponent form, which is not modelled. */
  function NatToString(n: nat): (s: string)
    ensures |s| > 0
    ensures forall k :: 0 <= k < |s| ==> '0' <= s[k] <= '9'
  {
    if n < 10 then [DigitChar(n)] else NatToString(n / 10) + [DigitChar(n % 10)]
  }

  /** Number::toString of an integer: a minus sign before the digits of a negative one. */
  function IntToString(n: int): (s: string)
    ensures |s| > 0
    ensures n < 0 <==> s[0] == '-'
  {
    if n < 0 then "-" + NatToString(-n) else NatToString(n)
  }

  /** The value of a string of decimal digits, most significant first. */
  function DecimalValue(s: string): int {
    if s == [] then 0 else 10 * DecimalValue(s[..|s| - 1]) + (s[|s| - 1] as int - '0' as int)
  }

  /** Reads back a number written by IntToString: a leading `-` negates the digits. */
  function ReadInt(s: string): int {
    if |s| > 0 && s[0] == '-' then -DecimalValue(s[1..]) else DecimalValue(s)
  }

  /** The digits NatToString writes spell n. */
  lemma {:induction false} NatToStringReadsBack(n: nat)
    ensures DecimalValue(NatToString(n)) == n
  {
    if n >= 10 {
      var s := NatToString(n / 10) + [DigitChar(n % 10)];
      NatToStringReadsBack(n / 10);
      assert s[..|s| - 1] == NatToString(n / 10);
    }
  }

  /** Reading back what IntToString writes gives the number. */
  lemma IntToStringReadsBack(n: int)
    ensures ReadInt(IntToString(n)) == n
  {
    if n < 0 {
      NatToStringReadsBack(-n);
      assert IntToString(n)[1..] == NatToString(-n);
    } else {
      NatToStringReadsBack(n);
    }
  }

  /** Distinct numbers are written as distinct strings. */
  lemma IntToStringInjective(m: int, n: int)
    ensures IntToString(m) == IntToString(n) <==> m == n
  {
    if IntToString(m) == IntToString(n) {
      IntToStringReadsBack(m);
      IntToStringReadsBack(n);
    }
  }

  /** String.prototype.replace with a one-character string pattern: only the first
      occurrence of the pattern is replaced; without one the string is returned as it is. */
  function ReplaceFirst(s: string, pattern: char, replacement: string): (r: string)
  {
    if s == [] then []
    else if s[0] == pattern then replacement + s[1..]
    else [s[0]] + ReplaceFirst(s[1..], pattern, replacement)
  }

  /** Without the pattern, ReplaceFirst returns the string as it is. */
  lemma {:induction false} ReplaceFirstAbsent(s: string, pattern: char, replacement: string)
    requires forall j :: 0 <= j < |s| ==> s[j] != pattern
    ensures ReplaceFirst(s, pattern, replacement) == s
  {
    if s != [] {
      ReplaceFirstAbsent(s[1..], pattern, replacement);
      assert s == [s[0]] + s[1..];
    }
  }

  /** ReplaceFirst splices the replacement in at the first occurrence k, and nowhere else. */
  lemma {:induction false} ReplaceFirstAt(s: string, pattern: char, replacement: string, k: nat)
    requires k < |s| && s[k] == pattern
    requires forall j :: 0 <= j < k ==> s[j] != pattern
    ensures ReplaceFirst(s, pattern, replacement) == s[..k] + replacement + s[k + 1..]
  {
    if k > 0 {
      var tail := s[1..];
      ReplaceFirstAt(tail, pattern, replacement, k - 1);
      assert s[..k] == [s[0]] + tail[..k - 1];
      assert s[k + 1..] == tail[k..];
    }
  }

  /** When the pattern occurs, different replacements give different results. */
  lemma {:induction false} ReplaceFirstInjective(s: string, pattern: char, x: string, y: string)
    requires pattern in s
    requires ReplaceFirst(s, pattern, x) == ReplaceFirst(s, pattern, y)
    ensures x == y
  {
    if s[0] == pattern {
      var rx, ry := ReplaceFirst(s, pattern, x), ReplaceFirst(s, pattern, y);
      assert |x| == |y|;
      assert x == rx[..|x|] && y == ry[..|y|];
    } else {
      assert pattern in s[1..];
      var rx, ry := ReplaceFirst(s, pattern, x), ReplaceFirst(s, pattern, y);
      assert rx[1..] == ReplaceFirst(s[1..], pattern, x);
      assert ry[1..] == ReplaceFirst(s[1..], pattern, y);
      ReplaceFirstInjective(s[1..], pattern, x, y);
    }
  }

  /** String.prototype.toLowerCase on one character, for the ASCII letters. */
  function LowerChar(c: char): char {
    if 'A' <= c <= 'Z' then (c as int - 'A' as int + 'a' as int) as char else c
  }

  predicate HasNoUpper(s: string) {
    forall k :: 0 <= k < |s| ==> !('A' <= s[k] <= 'Z')
  }

  /** String.prototype.toLowerCase, for the ASCII letters. */
  function ToLowerCase(s: string): (r: string)
    ensures |r| == |s|
    ensures HasNoUpper(r)
    ensures forall k :: 0 <= k < |s| && !('A' <= s[k] <= 'Z') ==> r[k] == s[k]
    ensures forall k :: 0 <= k < |s| && 'A' <= s[k] <= 'Z' ==> r[k] as int == s[k] as int + 32
  {
    seq(|s|, k requires 0 <= k < |s| => LowerChar(s[k]))
  }

  /** Lower-casing a string that has no upper-case letter changes nothing, so
      ToLowerCase is idempotent. */
  lemma ToLowerCaseIdempotent(s: string)
    ensures ToLowerCase(ToLowerCase(s)) == ToLowerCase(s)
  {
    var t := ToLowerCase(s);
    assert forall k :: 0 <= k < |t| ==> ToLowerCase(t)[k] == t[k];
  }

  /** The position Array.prototype.splice starts at: a negative start counts from the end
      (clamped at 0), a start beyond the end is clamped to the length. */
  function SpliceStart(start: int, len: nat): (k: nat)
    ensures k <= len
  {
    if start < 0 then (if len + start < 0 then 0 else len + start)
    else if start < len then start
    else len
  }

  /** `a.splice(start, 1)`: the array after removing at most one element. */
  function SpliceOne<T>(s: seq<T>, start: int): seq<T> {
    var k := SpliceStart(start, |s|);
    if k < |s| then s[..k] + s[k + 1..] else s
  }

  /** Removing at a position inside the array: exactly that element goes, the others keep
      their order. */
  lemma SpliceOneInside<T>(s: seq<T>, i: int)
    requires 0 <= i < |s|
    ensures |SpliceOne(s, i)| == |s| - 1
    ensures forall j :: 0 <= j < i ==> SpliceOne(s, i)[j] == s[j]
    ensures forall j :: i <= j < |s| - 1 ==> SpliceOne(s, i)[j] == s[j + 1]
  {
  }

  /** `splice(-1, 1)` removes the last element of a non-empty array, and nothing from an
      empty one. */
  lemma SpliceOneMinusOne<T>(s: seq<T>)
    ensures |s| > 0 ==> SpliceOne(s, -1) == s[..|s| - 1]
    ensures |s| == 0 ==> SpliceOne(s, -1) == s
  {
  }

  /** A negative start that stays inside the array counts from the end: `splice(i, 1)`
      removes the element at |s| + i. */
  lemma SpliceOneFromEnd<T>(s: seq<T>, i: int)
    requires -|s| <= i < 0
    ensures SpliceOne(s, i) == s[..|s| + i] + s[|s| + i + 1..]
  {
  }

  /** A negative start before the beginning is clamped to 0: the first element goes. */
  lemma SpliceOneBeforeStart<T>(s: seq<T>, i: int)
    requires i < -|s| && |s| > 0
    ensures SpliceOne(s, i) == s[1..]
  {
  }

  /** A start at or beyond the length removes nothing. */
  lemma SpliceOneBeyond<T>(s: seq<T>, i: int)
    requires i >= |s|
    ensures SpliceOne(s, i) == s
  {
  }

  /** Exactly one element is removed precisely when the array is non-empty and the start
      is below its length; otherwise the array is unchanged. */
  lemma SpliceOneLength<T>(s: seq<T>, i: int)
    ensures |SpliceOne(s, i)| == if |s| > 0 && i < |s| then |s| - 1 else |s|
    ensures |SpliceOne(s, i)| == |s| ==> SpliceOne(s, i) == s
  {
  }
}
