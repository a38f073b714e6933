/** Printing and parsing of natural numbers in base 10 and base 16, as `str`, `int` and `format` do. */
module Numerals {
  import opened Wrappers

  predicate IsDecimal(c: char) { '0' <= c <= '9' }

  predicate IsBase(b: nat) { b == 10 || b == 16 }

  predicate IsDigit(c: char, b: nat) { DigitValue(c) < b }

  function DigitChar(d: nat): char
    requires d < 16
  {
    if d < 10 then '0' + d as char else 'a' + (d - 10) as char
  }

  /** The value of a digit of either letter case; 16 for a character that is no digit. */
  function DigitValue(c: char): nat {
    if '0' <= c <= '9' then (c - '0') as nat
    else if 'a' <= c <= 'f' then (c - 'a') as nat + 10
    else if 'A' <= c <= 'F' then (c - 'A') as nat + 10
    else 16
  }

  lemma DivMod(n: nat, b: nat)
    requires IsBase(b)
    ensures n / b * b + n % b == n && 0 <= n % b < b
    ensures 0 < n ==> 0 <= n / b < n
  {
    if b == 10 {
      assert n / 10 * 10 + n % 10 == n;
    } else {
      assert n / 16 * 16 + n % 16 == n;
    }
  }

  function Print(n: nat, b: nat): (s: string)
    requires IsBase(b)
    ensures |s| >= 1
    ensures forall c <- s :: IsDigit(c, b) && !('A' <= c <= 'F')
  {
    if n < b then [DigitChar(n)] else
    DivMod(n, b);
    Print(n / b, b) + [DigitChar(n % b)]
  }

  /** The number a non-empty string of digits stands for; None for every other string. */
  function Parse(s: string, b: nat): Option<nat>
    requires IsBase(b)
  {
    if s == "" || !IsDigit(s[|s| - 1], b) then None
    else if |s| == 1 then Some(DigitValue(s[0]))
    else match Parse(s[..|s| - 1], b)
      case None => None
      case Some(v) => Some(v * b + DigitValue(s[|s| - 1]))
  }

  /** Zero-padding to two digits, as the format specs `0=2` (base 10) and `#04x` (base 16) do. */
  function Print2(n: nat, b: nat): string
    requires IsBase(b)
  {
    if n < b then "0" + Print(n, b) else Print(n, b)
  }

  /** Reading a numeral one digit longer appends that digit. */
  lemma ParseAppend(s: string, d: nat, b: nat)
    requires IsBase(b) && d < b && s != ""
    ensures Parse(s + [DigitChar(d)], b) == match Parse(s, b) case None => None case Some(v) => Some(v * b + d)
  {
    var t := s + [DigitChar(d)];
    assert t[..|t| - 1] == s;
    assert DigitValue(t[|t| - 1]) == d;
  }

  /** `str(n)` */
  function PrintInt(n: int): string {
    if n < 0 then "-" + Print(-n, 10) else Print(n, 10)
  }

  lemma {:induction false} ParsePrint(n: nat, b: nat)
    requires IsBase(b)
    ensures Parse(Print(n, b), b) == Some(n)
  {
    if n >= b {
      DivMod(n, b);
      ParsePrint(n / b, b);
      ParseAppend(Print(n / b, b), n % b, b);
    } else {
      assert DigitValue(DigitChar(n)) == n;
    }
  }

  /** Exactly the non-empty strings of digits are numerals. */
  lemma {:induction false} ParseIff(s: string, b: nat)
    requires IsBase(b)
    ensures Parse(s, b).Some? <==> s != "" && forall c <- s :: IsDigit(c, b)
  {
    if |s| > 1 {
      var front, last := s[..|s| - 1], s[|s| - 1];
      ParseIff(front, b);
      assert s == front + [last];
    }
  }

  lemma ParsePrint2(n: nat, b: nat)
    requires IsBase(b)
    ensures Parse(Print2(n, b), b) == Some(n)
  {
    ParsePrint(n, b);
    if n < b {
      assert Print2(n, b)[..1] == "0";
    }
  }
}
