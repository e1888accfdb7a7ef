/** Decimal numerals: printing a natural number, reading one back, and padding. */
module Decimals {

  predicate IsDigit(c: char) {
    '0' <= c <= '9'
  }

  predicate AllDigits(s: string) {
    forall i :: 0 <= i < |s| ==> IsDigit(s[i])
  }

  function DigitValue(c: char): nat
    requires IsDigit(c)
  {
    c as int - '0' as int
  }

  function DigitChar(d: nat): (c: char)
    requires d < 10
    ensures IsDigit(c) && DigitValue(c) == d
  {
    ('0' as int + d) as char
  }

  /** The number a string of digits stands for; the empty string stands for zero. */
  function Value(s: string): nat
    requires AllDigits(s)
  {
    if s == [] then 0 else 10 * Value(s[..|s| - 1]) + DigitValue(s[|s| - 1])
  }

  /** The numeral of `n`, without leading zeros. */
  function Print(n: nat): (s: string)
    ensures AllDigits(s) && |s| > 0
  {
    if n < 10 then [DigitChar(n)] else Print(n / 10) + [DigitChar(n % 10)]
  }

  /** `String(n)` for any integer. */
  function PrintInt(n: int): string {
    if n < 0 then "-" + Print(-n) else Print(n)
  }

  lemma ValueOfAppended(s: string, d: nat)
    requires AllDigits(s) && d < 10
    ensures AllDigits(s + [DigitChar(d)]) && Value(s + [DigitChar(d)]) == 10 * Value(s) + d
  {
  }

  lemma {:induction false} ValueOfPrinted(n: nat)
    ensures Value(Print(n)) == n
  {
    if n < 10 {
      assert [DigitChar(n)][..0] == [];
    } else {
      ValueOfPrinted(n / 10);
      ValueOfAppended(Print(n / 10), n % 10);
    }
  }

  /** A numeral has no leading zero. */
  lemma {:induction false} NoLeadingZero(n: nat)
    ensures n > 0 ==> Print(n)[0] != '0'
    ensures n < 10 ==> Print(n) == ["0123456789"[n]]
  {
    if n >= 10 {
      NoLeadingZero(n / 10);
      assert Print(n)[0] == Print(n / 10)[0];
    }
  }

  function Zeros(k: nat): (s: string)
    ensures AllDigits(s) && |s| == k
  {
    if k == 0 then [] else Zeros(k - 1) + ['0']
  }

  /** `padStart(width, '0')`: a numeral already as wide is left alone. */
  function PadStart(s: string, width: nat): (p: string)
    ensures |p| == if |s| < width then width else |s|
    ensures AllDigits(s) ==> AllDigits(p)
  {
    if |s| < width then Zeros(width - |s|) + s else s
  }

  lemma {:induction false} ValueOfZerosAnd(k: nat, s: string)
    requires AllDigits(s)
    ensures AllDigits(Zeros(k) + s) && Value(Zeros(k) + s) == Value(s)
    decreases |s| + k
  {
    if s != [] {
      var t := Zeros(k) + s;
      assert t[..|t| - 1] == Zeros(k) + s[..|s| - 1];
      ValueOfZerosAnd(k, s[..|s| - 1]);
    } else if k > 0 {
      assert Zeros(k) + s == Zeros(k);
      assert Zeros(k)[..k - 1] == Zeros(k - 1);
      ValueOfZerosAnd(k - 1, []);
      assert Zeros(k - 1) + [] == Zeros(k - 1);
    }
  }

  /** Padding keeps the value, for every number and width. */
  lemma ValueOfPadded(n: nat, width: nat)
    ensures Value(PadStart(Print(n), width)) == n
  {
    ValueOfPrinted(n);
    if |Print(n)| < width {
      ValueOfZerosAnd(width - |Print(n)|, Print(n));
    }
  }

  /** Padding adds zeros only up to the width. */
  lemma PaddedHasNoExtraZero(n: nat, width: nat)
    requires width > 0
    ensures |PadStart(Print(n), width)| > width ==> PadStart(Print(n), width)[0] != '0'
  {
    NoLeadingZero(n);
  }

  function PowerOfTen(k: nat): nat {
    if k == 0 then 1 else 10 * PowerOfTen(k - 1)
  }
}
