/**
 * The JavaScript string operations the stores and lookups rely on: writing a
 * non-negative integer in decimal (`String(n)`, template literals), taking the
 * second piece of `s.split(sep)`, and `parseInt(s)` without a radix.
 */
module JsText {
  datatype Option<T> = None | Some(value: T)

  // ---------------------------------------------------------------------------
  // String(n)
  // ---------------------------------------------------------------------------

  function Digit(d: nat): (c: char)
    requires d < 10
    ensures '0' <= c <= '9'
    ensures DigitValue(c) == d
  {
    (('0' as int) + d) as char
  }

  function DigitValue(c: char): (d: int)
    ensures IsDigit(c) ==> 0 <= d < 10
  {
    c as int - '0' as int
  }

  predicate IsDigit(c: char)
  {
    '0' <= c <= '9'
  }

  /** Decimal digits of a non-negative integer, without leading zeros. */
  function NatToString(n: nat): (s: string)
    ensures |s| >= 1
    ensures forall i :: 0 <= i < |s| ==> IsDigit(s[i])
    ensures |s| == 1 <==> n < 10
    ensures |s| > 1 ==> s[0] != '0'
  {
    if n < 10 then [Digit(n)] else NatToString(n / 10) + [Digit(n % 10)]
  }

  /** Different numbers are written differently. */
  lemma {:induction false} NatToStringInjective(a: nat, b: nat)
    requires NatToString(a) == NatToString(b)
    ensures a == b
  {
    var s := NatToString(a);
    if a >= 10 {
      assert b >= 10;
      assert s[..|s| - 1] == NatToString(a / 10) && s[..|s| - 1] == NatToString(b / 10);
      NatToStringInjective(a / 10, b / 10);
      assert Digit(a % 10) == s[|s| - 1] == Digit(b % 10);
    }
  }

  // ---------------------------------------------------------------------------
  // s.split(sep)[1]
  // ---------------------------------------------------------------------------

  predicate OccursAt(s: string, sep: string, i: nat)
  {
    i + |sep| <= |s| && s[i..i + |sep|] == sep
  }

  /** The first position at or after `from` where `sep` occurs, if any. */
  function FindFrom(s: string, sep: string, from: nat): (r: Option<nat>)
    ensures r.Some? ==> from <= r.value && OccursAt(s, sep, r.value)
    ensures r.Some? ==> forall i :: from <= i < r.value ==> !OccursAt(s, sep, i)
    ensures r.None? ==> forall i :: from <= i <= |s| ==> !OccursAt(s, sep, i)
    decreases |s| - from
  {
    if from + |sep| > |s| then None
    else if s[from..from + |sep|] == sep then Some(from)
    else FindFrom(s, sep, from + 1)
  }

  /**
   * The second piece of `s.split(sep)` for a non-empty separator: the text
   * after its first occurrence, up to the next occurrence or the end; None
   * (`undefined`) when `sep` does not occur.
   */
  function SplitSecond(s: string, sep: string): (r: Option<string>)
    requires |sep| > 0
    ensures r.None? <==> FindFrom(s, sep, 0).None?
  {
    match FindFrom(s, sep, 0)
    case None => None
    case Some(i) =>
      var start := i + |sep|;
      match FindFrom(s, sep, start)
      case None => Some(s[start..])
      case Some(j) => Some(s[start..j])
  }

  /** The piece after a prefix that is the separator is the rest, when the separator does not occur in it. */
  lemma SplitSecondAfterPrefix(sep: string, rest: string)
    requires |sep| > 0
    requires forall i :: |sep| <= i <= |sep| + |rest| ==> !OccursAt(sep + rest, sep, i)
    ensures SplitSecond(sep + rest, sep) == Some(rest)
  {
    var s := sep + rest;
    assert s[0..|sep|] == sep;
    assert FindFrom(s, sep, 0) == Some(0);
    assert s[|sep|..] == rest;
  }

  // ---------------------------------------------------------------------------
  // parseInt(s)
  // ---------------------------------------------------------------------------

  predicate IsSpace(c: char)
  {
    c == ' ' || c == '\t' || c == '\n' || c == '\r' || c == '\U{000B}' || c == '\U{000C}' ||
    c == '\U{00A0}' || c == '\U{FEFF}' || c == '\U{2028}' || c == '\U{2029}'
  }

  function TrimStart(s: string): (r: string)
    ensures |r| <= |s| && r == s[|s| - |r|..]
    ensures r != [] ==> !IsSpace(r[0])
  {
    if s != [] && IsSpace(s[0]) then TrimStart(s[1..]) else s
  }

  function HexValue(c: char): int
  {
    if '0' <= c <= '9' then c as int - '0' as int
    else if 'a' <= c <= 'f' then c as int - 'a' as int + 10
    else if 'A' <= c <= 'F' then c as int - 'A' as int + 10
    else -1
  }

  function DigitValueIn(c: char, base: nat): int
  {
    if base == 10 && !IsDigit(c) then -1 else HexValue(c)
  }

  function DigitsFrom(s: string, base: nat, i: nat, acc: nat): (r: (nat, nat))
    requires i <= |s|
    ensures i <= r.1 <= |s|
    ensures r.1 == i <==> i == |s| || !(0 <= DigitValueIn(s[i], base) < base)
    ensures r.1 == i ==> r.0 == acc
    decreases |s| - i
  {
    if i < |s| && 0 <= DigitValueIn(s[i], base) < base then DigitsFrom(s, base, i + 1, acc * base + DigitValueIn(s[i], base))
    else (acc, i)
  }

  /**
   * parseInt(s) without a radix: leading white space is skipped, one sign
   * is read, a `0x` or `0X` prefix selects hexadecimal, and the longest run
   * of digits that follows is the value. None (NaN) when there are no digits.
   */
  function ParseInt(s: string): (r: Option<int>)
    ensures r.Some? ==> exists k :: 0 <= k < |s| && DigitValueIn(s[k], 16) >= 0
  {
    var t := TrimStart(s);
    var negative := t != [] && t[0] == '-';
    var unsigned := if t != [] && (t[0] == '-' || t[0] == '+') then t[1..] else t;
    var hex := |unsigned| >= 2 && unsigned[0] == '0' && (unsigned[1] == 'x' || unsigned[1] == 'X');
    var digits := if hex then unsigned[2..] else unsigned;
    var base := if hex then 16 else 10;
    var parsed := DigitsFrom(digits, base, 0, 0);
    if parsed.1 == 0 then None
    else
      var k := |s| - |digits|;
      assert digits == s[k..];
      assert s[k] == digits[0];
      Some(if negative then 0 - parsed.0 as int else parsed.0 as int)
  }

  /** Reading the digits of a number written in decimal gives the number back. */
  lemma {:induction false} DecimalDigitsOfNatToString(n: nat, suffix: string)
    requires suffix == [] || !IsDigit(suffix[0])
    ensures DigitsFrom(NatToString(n) + suffix, 10, 0, 0) == (n, |NatToString(n)|)
  {
    var s := NatToString(n);
    DigitsAccumulate(s, suffix, 0);
    DecimalValueOfNatToString(n);
  }

  /** Reading all of a string's decimal digits, starting from an accumulator. */
  lemma {:induction false} DigitsAccumulate(s: string, suffix: string, acc: nat)
    requires forall i :: 0 <= i < |s| ==> IsDigit(s[i])
    requires suffix == [] || !IsDigit(suffix[0])
    ensures DigitsFrom(s + suffix, 10, 0, acc) == (DecimalValue(s, acc), |s|)
    decreases |s|
  {
    if s != [] {
      var t := s + suffix;
      assert t[1..] == s[1..] + suffix;
      var next := acc * 10 + DigitValueIn(s[0], 10);
      DigitsAccumulate(s[1..], suffix, next);
      DigitsShift(t, 10, 1, next);
    }
  }

  /** Reading digits from position i of s is reading s[i..] from its start. */
  lemma {:induction false} DigitsShift(s: string, base: nat, i: nat, acc: nat)
    requires i <= |s|
    ensures DigitsFrom(s, base, i, acc) == (DigitsFrom(s[i..], base, 0, acc).0, DigitsFrom(s[i..], base, 0, acc).1 + i)
    decreases |s| - i
  {
    if i < |s| && 0 <= DigitValueIn(s[i], base) < base {
      DigitsShift(s, base, i + 1, acc * base + DigitValueIn(s[i], base));
      DigitsShift(s[i..], base, 1, acc * base + DigitValueIn(s[i], base));
      assert s[i..][1..] == s[i + 1..];
    }
  }

  /** The decimal value of a digit string, read after `acc`. */
  function DecimalValue(s: string, acc: nat): nat
    requires forall i :: 0 <= i < |s| ==> IsDigit(s[i])
  {
    if s == [] then acc else DecimalValue(s[1..], acc * 10 + DigitValue(s[0]))
  }

  /** Reading leading digits onto an accumulator equals the accumulator scaled past them plus their own value. */
  lemma {:induction false} DecimalValueShift(s: string, acc: nat)
    requires forall i :: 0 <= i < |s| ==> IsDigit(s[i])
    ensures DecimalValue(s, acc) == acc * Pow10(|s|) + DecimalValue(s, 0)
  {
    if s != [] {
      DecimalValueShift(s[1..], acc * 10 + DigitValue(s[0]));
      DecimalValueShift(s[1..], DigitValue(s[0]));
    }
  }

  function Pow10(k: nat): (r: nat)
    ensures r >= 1
  {
    if k == 0 then 1 else 10 * Pow10(k - 1)
  }

  /** The decimal value of what NatToString writes is the number. */
  lemma {:induction false} DecimalValueOfNatToString(n: nat)
    ensures DecimalValue(NatToString(n), 0) == n
  {
    if n >= 10 {
      var init := NatToString(n / 10);
      var s := NatToString(n);
      DecimalValueOfNatToString(n / 10);
      DecimalValueAppend(init, Digit(n % 10), 0);
    }
  }

  /** Appending a digit multiplies the value read so far by ten and adds the digit. */
  lemma {:induction false} DecimalValueAppend(s: string, c: char, acc: nat)
    requires forall i :: 0 <= i < |s| ==> IsDigit(s[i])
    requires IsDigit(c)
    ensures DecimalValue(s + [c], acc) == DecimalValue(s, acc) * 10 + DigitValue(c)
    decreases |s|
  {
    if s != [] {
      assert (s + [c])[1..] == s[1..] + [c];
      DecimalValueAppend(s[1..], c, acc * 10 + DigitValue(s[0]));
    }
  }

  /** Round trip: parseInt reads back what String(n) writes. */
  lemma ParseIntOfNatToString(n: nat)
    ensures ParseInt(NatToString(n)) == Some(n)
  {
    var s := NatToString(n);
    assert TrimStart(s) == s;
    assert !(|s| >= 2 && s[0] == '0');
    assert s + [] == s;
    DigitsAccumulate(s, [], 0);
    DecimalValueOfNatToString(n);
  }
}
