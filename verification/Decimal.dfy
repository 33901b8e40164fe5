/** Printing and parsing integers: `operator<<`, `Serial.print`, `atoi`. */
module Decimal {

  predicate IsDigit(c: char) { '0' <= c <= '9' }

  function DigitChar(d: int): char
    requires 0 <= d < 10
  {
    '0' + d as char
  }

  function DigitValue(c: char): int
    requires IsDigit(c)
  {
    c as int - '0' as int
  }

  /** The decimal digits of a natural number. */
  function Digits(n: nat): string {
    if n < 10 then [DigitChar(n)] else Digits(n / 10) + [DigitChar(n % 10)]
  }

  /** What printing an integer writes. */
  function ToString(n: int): string { if n < 0 then "-" + Digits(-n) else Digits(n) }

  predicate IsSpace(c: char) { c in {' ', '\t', '\n', '\r', '\U{000B}', '\U{000C}'} }

  function SkipSpace(s: string): string {
    if s != "" && IsSpace(s[0]) then SkipSpace(s[1..]) else s
  }

  /** The value of the leading digits, continuing from `acc`. */
  function ScanDigits(s: string, acc: int): int {
    if s != "" && IsDigit(s[0]) then ScanDigits(s[1..], acc * 10 + DigitValue(s[0])) else acc
  }

  /** `atoi`: leading white space, an optional sign, digits; the rest is ignored. */
  function AtoI(s: string): int {
    var t := SkipSpace(s);
    if t != "" && t[0] == '-' then -ScanDigits(t[1..], 0)
    else if t != "" && t[0] == '+' then ScanDigits(t[1..], 0)
    else ScanDigits(t, 0)
  }

  lemma {:induction false} DigitsAreDigits(n: nat)
    ensures Digits(n) != "" && forall c :: c in Digits(n) ==> IsDigit(c)
  {
    if n >= 10 {
      DigitsAreDigits(n / 10);
    }
  }

  lemma ToStringShape(n: int)
    ensures ToString(n) != "" && forall c :: c in ToString(n) ==> IsDigit(c) || c == '-'
  {
    DigitsAreDigits(if n < 0 then -n else n);
    hide Digits;
  }

  lemma {:induction false} ScanUndoesDigits(n: nat, rest: string)
    ensures ScanDigits(Digits(n) + rest, 0) == ScanDigits(rest, n)
  {
    if n < 10 {
      assert ([DigitChar(n)] + rest)[1..] == rest;
    } else {
      var last := [DigitChar(n % 10)];
      ScanUndoesDigits(n / 10, last + rest);
      assert Digits(n / 10) + (last + rest) == Digits(n) + rest;
      assert (last + rest)[1..] == rest;
    }
  }

  /** Parsing undoes printing, whatever follows, as long as it is not a digit. */
  lemma AtoIUndoesToString(n: int, rest: string)
    requires rest != "" ==> !IsDigit(rest[0])
    ensures AtoI(ToString(n) + rest) == n
  {
    var s := ToString(n) + rest;
    DigitsAreDigits(if n < 0 then -n else n);
    ScanUndoesDigits(if n < 0 then -n else n, rest);
    hide Digits;
    if n < 0 {
      assert s[1..] == Digits(-n) + rest;
    } else {
      assert IsDigit(s[0]);
    }
  }

  // ----- the firmware's `int` ----------------------------------------------------

  /** The boards are AVRs, whose `int` has 16 bits: what is left of a number there. */
  function Int16(n: int): (r: int)
    ensures -0x8000 <= r < 0x8000
  {
    (n + 0x8000) % 0x1_0000 - 0x8000
  }

  /** Numbers that differ by a multiple of the range are the same there. */
  lemma Int16Same(n: int, k: int)
    ensures Int16(n + k * 0x1_0000) == Int16(n)
  {
    assert (n + k * 0x1_0000 + 0x8000) % 0x1_0000 == (n + 0x8000) % 0x1_0000;
  }

  lemma Int16Drops(n: int) returns (k: int)
    ensures Int16(n) == n + k * 0x1_0000
  {
    k := -((n + 0x8000) / 0x1_0000);
  }

  /** A number is kept if and only if it fits. */
  lemma Int16Exactly(n: int)
    ensures Int16(n) == n <==> -0x8000 <= n < 0x8000
  {
  }

  function ScanDigits16(s: string, acc: int): int {
    if s != "" && IsDigit(s[0]) then ScanDigits16(s[1..], Int16(acc * 10 + DigitValue(s[0]))) else acc
  }

  /** `atoi` on the boards, which accumulates in an `int`. */
  function AtoI16(s: string): int {
    var t := SkipSpace(s);
    if t != "" && t[0] == '-' then Int16(-ScanDigits16(t[1..], 0))
    else if t != "" && t[0] == '+' then ScanDigits16(t[1..], 0)
    else ScanDigits16(t, 0)
  }

  lemma {:induction false} Scan16(s: string, acc: int)
    ensures ScanDigits16(s, Int16(acc)) == Int16(ScanDigits(s, acc))
  {
    hide Int16;
    if s != "" && IsDigit(s[0]) {
      var d := DigitValue(s[0]);
      var k := Int16Drops(acc);
      Int16Same(acc * 10 + d, k * 10);
      assert Int16(acc) * 10 + d == acc * 10 + d + (k * 10) * 0x1_0000;
      Scan16(s[1..], acc * 10 + d);
    }
  }

  /** Wrapping at every digit is wrapping once at the end. */
  lemma AtoI16Wraps(s: string)
    ensures AtoI16(s) == Int16(AtoI(s))
  {
    var t := SkipSpace(s);
    Int16Exactly(0);
    hide Int16, ScanDigits, ScanDigits16;
    if t != "" && t[0] == '-' {
      Scan16(t[1..], 0);
      var n := ScanDigits(t[1..], 0);
      var k := Int16Drops(n);
      Int16Same(-n, -k);
      assert -Int16(n) == -n + -k * 0x1_0000;
    } else if t != "" && t[0] == '+' {
      Scan16(t[1..], 0);
    } else {
      Scan16(t, 0);
    }
  }

  /** What the boards make of a printed number. */
  lemma AtoI16Printed(n: int)
    ensures AtoI16(ToString(n)) == Int16(n)
  {
    AtoIUndoesToString(n, "");
    assert ToString(n) + "" == ToString(n);
    AtoI16Wraps(ToString(n));
    hide AtoI16, AtoI, Int16, ToString;
  }

  function Pow10(k: nat): nat { if k == 0 then 1 else 10 * Pow10(k - 1) }

  lemma {:induction false} DigitsLength(n: nat, k: nat)
    requires n < Pow10(k) && k > 0
    ensures |Digits(n)| <= k
  {
    if n >= 10 {
      DigitsLength(n / 10, k - 1);
    }
  }

  /** A 32-bit integer prints in at most eleven characters. */
  lemma Int32Length(n: int)
    requires -0x8000_0000 <= n < 0x8000_0000
    ensures |ToString(n)| <= 11
  {
    TenDigits();
    DigitsLength(if n < 0 then -n else n, 10);
    hide Digits, Pow10;
  }

  lemma TenDigits()
    ensures Pow10(10) == 10_000_000_000
  {
    assert Pow10(5) == 100_000 by {
      assert Pow10(2) == 100;
    }
  }
}
