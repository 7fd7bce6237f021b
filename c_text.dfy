/**
 * The C string and integer primitives both agents rely on: `starts_with`,
 * `strrchr(name, '/')`, `snprintf` truncation and `%d` formatting.
 * A C string is modelled by its characters up to (not including) the
 * terminating NUL.
 */
module CText {
  import opened Wrappers

  newtype byte = x: int | 0 <= x < 256
  newtype int32 = x: int | -0x8000_0000 <= x < 0x8000_0000

  /** strncmp(a, b, n) == 0 for strings that are at least n long. */
  function StrNEqual(a: string, b: string, n: nat): (r: bool)
    requires n <= |a| && n <= |b|
    ensures r <==> a[..n] == b[..n]
    decreases n
  {
    if n == 0 then true
    else a[0] == b[0] && StrNEqual(a[1..], b[1..], n - 1)
  }

  /** starts_with(pre, str): a shorter str gives false, otherwise strncmp on |pre| characters. */
  function StartsWith(pre: string, str: string): (r: bool)
    ensures r <==> pre <= str
  {
    if |str| < |pre| then false else StrNEqual(pre, str, |pre|)
  }

  /** strrchr(s, c): the index of the last occurrence of c, if any. */
  function LastIndexOf(s: string, c: char): (r: Option<nat>)
    ensures r.None? <==> c !in s
    ensures r.Some? ==> r.value < |s| && s[r.value] == c && c !in s[r.value + 1..]
  {
    if |s| == 0 then None
    else if s[|s| - 1] == c then Some(|s| - 1)
    else LastIndexOf(s[..|s| - 1], c)
  }

  /** The text snprintf(buf, size, ...) leaves in a buffer of `size` bytes (size >= 1). */
  function Snprintf(s: string, size: nat): string
    requires size >= 1
  {
    if |s| < size then s else s[..size - 1]
  }

  function DigitChar(d: nat): char
    requires d < 10
  {
    "0123456789"[d]
  }

  predicate IsDigit(c: char) {
    '0' <= c <= '9'
  }

  predicate AllDigits(s: string) {
    forall i :: 0 <= i < |s| ==> IsDigit(s[i])
  }

  function DigitValue(c: char): nat
    requires IsDigit(c)
  {
    (c - '0') as nat
  }

  /** The decimal digits `%d` prints for a non-negative value. */
  function NatToDecimal(n: nat): string
    decreases n
  {
    if n < 10 then [DigitChar(n)] else NatToDecimal(n / 10) + [DigitChar(n % 10)]
  }

  /** `%d` of an int: a minus sign before the digits of the magnitude. */
  function IntToDecimal(i: int): string {
    if i < 0 then "-" + NatToDecimal(-i) else NatToDecimal(i)
  }

  /** The value of a string of decimal digits (the inverse of NatToDecimal). */
  function DecimalValue(s: string): nat
    requires AllDigits(s)
  {
    if |s| == 0 then 0 else DecimalValue(s[..|s| - 1]) * 10 + DigitValue(s[|s| - 1])
  }

  /** The value of `%d` output: an optional minus sign, then digits. */
  function SignedDecimalValue(s: string): int
    requires |s| >= 1
    requires if s[0] == '-' then AllDigits(s[1..]) else AllDigits(s)
  {
    if s[0] == '-' then -(DecimalValue(s[1..]) as int) else DecimalValue(s)
  }

  function Pow10(k: nat): nat {
    if k == 0 then 1 else 10 * Pow10(k - 1)
  }

  lemma {:induction false} DecimalRoundTrip(n: nat)
    ensures |NatToDecimal(n)| >= 1 && AllDigits(NatToDecimal(n))
    ensures DecimalValue(NatToDecimal(n)) == n
    decreases n
  {
    if n < 10 {
      assert NatToDecimal(n) == [DigitChar(n)];
      assert "0123456789"[n] as int - '0' as int == n;
    } else {
      var s := NatToDecimal(n / 10);
      DecimalRoundTrip(n / 10);
      var t := s + [DigitChar(n % 10)];
      assert NatToDecimal(n) == t;
      assert "0123456789"[n % 10] as int - '0' as int == n % 10;
      assert t[..|t| - 1] == s;
      assert forall i :: 0 <= i < |t| ==> IsDigit(t[i]) by {
        forall i | 0 <= i < |t| ensures IsDigit(t[i]) {
          if i < |s| { assert t[i] == s[i]; }
        }
      }
    }
  }

  lemma {:induction false} SignedDecimalRoundTrip(i: int)
    ensures |IntToDecimal(i)| >= 1
    ensures var s := IntToDecimal(i); if s[0] == '-' then AllDigits(s[1..]) else AllDigits(s)
    ensures SignedDecimalValue(IntToDecimal(i)) == i
  {
    if i < 0 {
      DecimalRoundTrip(-i);
      assert IntToDecimal(i)[1..] == NatToDecimal(-i);
    } else {
      DecimalRoundTrip(i);
      assert IsDigit(NatToDecimal(i)[0]);
    }
  }

  /** Different values print differently, so `%d` names never collide. */
  lemma IntToDecimalInjective(i: int, j: int)
    ensures IntToDecimal(i) == IntToDecimal(j) ==> i == j
  {
    SignedDecimalRoundTrip(i);
    SignedDecimalRoundTrip(j);
  }

  lemma NatToDecimalInjective(i: nat, j: nat)
    ensures NatToDecimal(i) == NatToDecimal(j) ==> i == j
  {
    DecimalRoundTrip(i);
    DecimalRoundTrip(j);
  }

  lemma {:induction false} DecimalWidth(n: nat, k: nat)
    requires k >= 1 && n < Pow10(k)
    ensures |NatToDecimal(n)| <= k
    decreases k
  {
    if n >= 10 {
      assert k >= 2;
      assert n / 10 < Pow10(k - 1);
      DecimalWidth(n / 10, k - 1);
    }
  }

  /** Any 32-bit value prints in at most 11 characters ("-2147483648"). */
  lemma Int32DecimalWidth(i: int32)
    ensures |IntToDecimal(i as int)| <= 11
  {
    assert Pow10(10) == 10_000_000_000 by {
      assert Pow10(1) == 10;
      assert Pow10(2) == 100;
      assert Pow10(3) == 1000;
      assert Pow10(4) == 10000;
      assert Pow10(5) == 100000;
      assert Pow10(6) == 1000000;
      assert Pow10(7) == 10000000;
      assert Pow10(8) == 100000000;
      assert Pow10(9) == 1000000000;
    }
    if i < 0 {
      DecimalWidth(-(i as int), 10);
    } else {
      DecimalWidth(i as int, 10);
    }
  }
}
