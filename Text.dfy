/**
 * String helpers shared by the modules: ASCII decimal digits and the
 * JavaScript conversions between numbers and strings that the code relies on
 * (`Number(s)` on digit strings, `String(n)`, `padStart(2, '0')`), and the
 * string methods `trim`, `join`, `includes` and `indexOf`.
 */
module Text {
  import opened Wrappers

  /** The class `\d` of a JavaScript regular expression without the `u` flag. */
  predicate IsDigit(c: char) {
    '0' <= c <= '9'
  }

  predicate AllDigits(s: string) {
    forall i :: 0 <= i < |s| ==> IsDigit(s[i])
  }

  function DigitValue(c: char): (v: nat)
    requires IsDigit(c)
    ensures v < 10
  {
    (c as int) - ('0' as int)
  }

  function DigitChar(v: nat): (c: char)
    requires v < 10
    ensures IsDigit(c) && DigitValue(c) == v
  {
    ('0' as int + v) as char
  }

  /** `Number(s)` for a non-empty string of decimal digits (leading zeros allowed). */
  function DigitsValue(s: string): nat
    requires AllDigits(s)
  {
    if s == [] then 0 else DigitsValue(s[..|s| - 1]) * 10 + DigitValue(s[|s| - 1])
  }

  /** `String(n)` for a natural number: its decimal digits without leading zeros. */
  function NatString(n: nat): (s: string)
    ensures 1 <= |s| && AllDigits(s)
    ensures DigitsValue(s) == n
    ensures |s| == 1 <==> n < 10
    decreases n
  {
    if n < 10 then [DigitChar(n)]
    else
      var s := NatString(n / 10) + [DigitChar(n % 10)];
      assert s[..|s| - 1] == NatString(n / 10);
      s
  }

  /** `String(n)` for any integer: a minus sign before the digits of a negative number. */
  function IntString(n: int): string {
    if n < 0 then "-" + NatString(-n) else NatString(n)
  }

  /** Exactly two decimal digits, the first one possibly `0`. */
  function Digits2(n: nat): (s: string)
    requires n < 100
    ensures |s| == 2 && AllDigits(s)
  {
    [DigitChar(n / 10), DigitChar(n % 10)]
  }

  /** Exactly four decimal digits, with leading zeros. */
  function Digits4(n: nat): (s: string)
    requires n < 10000
    ensures |s| == 4 && AllDigits(s)
  {
    [DigitChar(n / 1000), DigitChar(n / 100 % 10), DigitChar(n / 10 % 10), DigitChar(n % 10)]
  }

  lemma Digits2Value(n: nat)
    requires n < 100
    ensures DigitsValue(Digits2(n)) == n
  {
    var s := Digits2(n);
    var hi := [DigitChar(n / 10)];
    assert s[..1] == hi;
    assert hi[..0] == [];
    assert DigitsValue(hi) == n / 10;
    assert DigitsValue(s) == (n / 10) * 10 + n % 10;
  }

  lemma Digits4Value(n: nat)
    requires n < 10000
    ensures DigitsValue(Digits4(n)) == n
  {
    var s := Digits4(n);
    var s1 := [DigitChar(n / 1000)];
    var s2 := s1 + [DigitChar(n / 100 % 10)];
    var s3 := s2 + [DigitChar(n / 10 % 10)];
    assert s[..3] == s3 && s3[..2] == s2 && s2[..1] == s1 && s1[..0] == [];
    DecimalShifts(n);
    assert DigitsValue(s1) == n / 1000;
    assert DigitsValue(s2) == n / 100;
    assert DigitsValue(s3) == n / 10;
  }

  /** Dropping one more decimal digit of `n`. */
  lemma DecimalShifts(n: nat)
    ensures n / 100 == (n / 1000) * 10 + n / 100 % 10
    ensures n / 10 == (n / 100) * 10 + n / 10 % 10
  {
    assert n / 100 / 10 == n / 1000;
    assert n / 10 / 10 == n / 100;
  }

  /** `String(n).padStart(2, '0')`: zeros in front of a string shorter than two characters. */
  function PadStart2(s: string): (r: string)
    ensures |s| >= 2 ==> r == s
    ensures |s| < 2 ==> |r| == 2 && r[2 - |s|..] == s
  {
    if |s| >= 2 then s else seq(2 - |s|, _ => '0') + s
  }

  /** For the numbers a calendar date has as month and day, padding gives exactly two digits. */
  lemma {:induction false} PaddedIsTwoDigits(n: nat)
    requires 1 <= n < 100
    ensures PadStart2(NatString(n)) == Digits2(n)
  {
    if n < 10 {
      assert NatString(n) == [DigitChar(n)];
      assert PadStart2([DigitChar(n)]) == ['0', DigitChar(n)];
    } else {
      assert NatString(n / 10) == [DigitChar(n / 10)];
      assert NatString(n) == [DigitChar(n / 10), DigitChar(n % 10)];
    }
  }

  /** A four-digit year prints as exactly its four digits. */
  lemma {:induction false} FourDigitNatString(n: nat)
    requires 1000 <= n < 10000
    ensures NatString(n) == Digits4(n)
  {
    var a, b, c := n / 10, n / 100, n / 1000;
    DecimalShifts(n);
    assert a / 10 == b && b / 10 == c && a % 10 == n / 10 % 10 && b % 10 == n / 100 % 10;
    assert NatString(c) == [DigitChar(c)];
    assert NatString(b) == [DigitChar(c), DigitChar(b % 10)];
    assert NatString(a) == [DigitChar(c), DigitChar(b % 10), DigitChar(a % 10)];
  }

  /** Whitespace and line terminators removed by JavaScript's `String.prototype.trim`. */
  predicate IsJsWhitespace(c: char) {
    || c == '\t' || c == '\n' || c == '\U{B}' || c == '\U{C}' || c == '\r' || c == ' '
    || c == '\U{A0}' || c == '\U{1680}' || ('\U{2000}' <= c <= '\U{200A}')
    || c == '\U{2028}' || c == '\U{2029}' || c == '\U{202F}' || c == '\U{205F}'
    || c == '\U{3000}' || c == '\U{FEFF}'
  }

  /** True when `s` neither starts nor ends with whitespace. */
  predicate IsTrimmed(s: string) {
    s == [] || (!IsJsWhitespace(s[0]) && !IsJsWhitespace(s[|s| - 1]))
  }

  function TrimStart(s: string): (r: string)
    ensures |r| <= |s|
    ensures r == [] || !IsJsWhitespace(r[0])
  {
    if s != [] && IsJsWhitespace(s[0]) then TrimStart(s[1..]) else s
  }

  function TrimEnd(s: string): (r: string)
    ensures |r| <= |s|
    ensures r == [] || (r[0] == s[0] && !IsJsWhitespace(r[|r| - 1]))
  {
    if s != [] && IsJsWhitespace(s[|s| - 1]) then TrimEnd(s[..|s| - 1]) else s
  }

  /** `s.trim()`: the result has no whitespace at either end. */
  function Trim(s: string): (r: string)
    ensures IsTrimmed(r)
    ensures |r| <= |s|
  {
    TrimEnd(TrimStart(s))
  }

  /**
   * What `trim()` removes is a run of leading and a run of trailing
   * whitespace: the result is the text between them.
   */
  lemma TrimSlice(s: string)
    ensures exists i, j ::
      && 0 <= i <= j <= |s| && Trim(s) == s[i..j]
      && (forall k :: 0 <= k < i ==> IsJsWhitespace(s[k]))
      && (forall k :: j <= k < |s| ==> IsJsWhitespace(s[k]))
  {
    var a := TrimStart(s);
    TrimStartDrops(s);
    TrimEndDrops(a);
    var i := |s| - |a|;
    var j := i + |TrimEnd(a)|;
    assert a == s[i..];
    assert Trim(s) == a[..j - i] == s[i..j];
    forall k | j <= k < |s|
      ensures IsJsWhitespace(s[k])
    {
      assert s[k] == a[k - i];
    }
    assert 0 <= i <= j <= |s| && Trim(s) == s[i..j]
      && (forall k :: 0 <= k < i ==> IsJsWhitespace(s[k]))
      && (forall k :: j <= k < |s| ==> IsJsWhitespace(s[k]));
  }

  /** `trimStart` drops a run of leading whitespace and keeps the rest. */
  lemma {:induction false} TrimStartDrops(s: string)
    ensures TrimStart(s) == s[|s| - |TrimStart(s)|..]
    ensures forall k :: 0 <= k < |s| - |TrimStart(s)| ==> IsJsWhitespace(s[k])
  {
    if s != [] && IsJsWhitespace(s[0]) {
      TrimStartDrops(s[1..]);
    }
  }

  /** `trimEnd` drops a run of trailing whitespace and keeps the rest. */
  lemma {:induction false} TrimEndDrops(s: string)
    ensures TrimEnd(s) == s[..|TrimEnd(s)|]
    ensures forall k :: |TrimEnd(s)| <= k < |s| ==> IsJsWhitespace(s[k])
  {
    if s != [] && IsJsWhitespace(s[|s| - 1]) {
      TrimEndDrops(s[..|s| - 1]);
    }
  }

  lemma TrimOfTrimmed(s: string)
    requires IsTrimmed(s)
    ensures Trim(s) == s
  {
  }

  /** `parts.join(sep)`. */
  function Join(parts: seq<string>, sep: string): string {
    if |parts| == 0 then ""
    else if |parts| == 1 then parts[0]
    else parts[0] + sep + Join(parts[1..], sep)
  }

  predicate OccursAt(s: string, part: string, i: nat) {
    i + |part| <= |s| && s[i..i + |part|] == part
  }

  /** `s.includes(part)`. */
  predicate Contains(s: string, part: string) {
    exists i: nat | i <= |s| :: OccursAt(s, part, i)
  }

  /** `s.indexOf(c)`, with `None` for -1. */
  function IndexOf(s: string, c: char): (r: Option<nat>)
    ensures r.Some? ==> r.value < |s| && s[r.value] == c
  {
    if s == [] then None
    else if s[0] == c then Some(0)
    else match IndexOf(s[1..], c)
      case None => None
      case Some(i) => Some(i + 1)
  }

  /** `indexOf` finds the first occurrence, and reports -1 only when there is none. */
  lemma {:induction false} IndexOfFirst(s: string, c: char)
    ensures IndexOf(s, c).None? <==> c !in s
    ensures IndexOf(s, c).Some? ==> c !in s[..IndexOf(s, c).value]
  {
    if s != [] && s[0] != c {
      IndexOfFirst(s[1..], c);
      assert s == [s[0]] + s[1..];
      match IndexOf(s[1..], c)
      case None =>
      case Some(i) =>
        assert s[..i + 1] == [s[0]] + s[1..][..i];
    }
  }
}
