/**
 Decimal numbers in text: printing them, and reading them digit by digit.
 */
module Decimal {

  predicate IsDigit(c: char) {
    '0' <= c <= '9'
  }

  predicate AllDigits(s: string) {
    forall i :: 0 <= i < |s| ==> IsDigit(s[i])
  }

  function DigitValue(c: char): nat
    requires IsDigit(c)
  {
    c as int - '0' as int
  }

  /** The number a string of digits stands for. */
  function Value(s: string): nat
    requires AllDigits(s)
  {
    if s == "" then 0 else 10 * Value(s[..|s| - 1]) + DigitValue(s[|s| - 1])
  }

  function Digit(n: nat): char
    requires n < 10
  {
    "0123456789"[n]
  }

  /** What %d prints for a number that is not negative. */
  function Num(n: nat): string {
    if n < 10 then [Digit(n)] else Num(n / 10) + [Digit(n % 10)]
  }

  function Dec(n: int): string {
    if n < 0 then "-" + Num(-n) else Num(n)
  }

  lemma DigitBack(n: nat)
    requires n < 10
    ensures IsDigit(Digit(n)) && DigitValue(Digit(n)) == n
  {
  }

  lemma ValueMore(s: string, c: char)
    requires AllDigits(s) && IsDigit(c)
    ensures AllDigits(s + [c]) && Value(s + [c]) == 10 * Value(s) + DigitValue(c)
  {
    hide IsDigit, DigitValue;
    assert (s + [c])[..|s|] == s;
  }

  lemma ValueOfDigit(n: nat)
    requires n < 10
    ensures AllDigits([Digit(n)]) && Value([Digit(n)]) == n
  {
    DigitBack(n);
    assert [Digit(n)][..0] == "";
  }

  /** Reading what was printed. */
  lemma {:induction false} ValueOfNum(n: nat)
    ensures Num(n) != "" && AllDigits(Num(n)) && Value(Num(n)) == n
  {
    hide Value, Digit, DigitValue, IsDigit, AllDigits;
    DigitBack(n % 10);
    if n >= 10 {
      ValueOfNum(n / 10);
      ValueMore(Num(n / 10), Digit(n % 10));
    } else {
      ValueOfDigit(n);
    }
  }

  /** A printed number has no zeros in front. */
  lemma {:induction false} NumShort(n: nat)
    ensures Num(0) == "0" && (n > 0 ==> Num(n) != "" && Num(n)[0] != '0')
  {
    if n >= 10 { NumShort(n / 10); }
  }

  /** The digits s starts with. */
  function Lead(s: string): (r: string)
    ensures r <= s && AllDigits(r) && (|r| < |s| ==> !IsDigit(s[|r|]))
  {
    if s == "" || !IsDigit(s[0]) then "" else [s[0]] + Lead(s[1..])
  }

  lemma {:induction false} LeadOf(d: string, rest: string)
    requires AllDigits(d) && (rest != "" ==> !IsDigit(rest[0]))
    ensures Lead(d + rest) == d && (d + rest)[|d|..] == rest
  {
    if d == "" {
      assert d + rest == rest;
    } else {
      LeadOf(d[1..], rest);
      assert (d + rest)[1..] == d[1..] + rest;
    }
  }

  /** A printed number at the start of a text is read back. */
  lemma LeadOfNum(n: nat, rest: string)
    requires rest != "" ==> !IsDigit(rest[0])
    ensures Lead(Num(n) + rest) == Num(n) && Value(Lead(Num(n) + rest)) == n && (Num(n) + rest)[|Num(n)|..] == rest
    ensures Num(n) != "" && IsDigit((Num(n) + rest)[0])
  {
    ValueOfNum(n);
    LeadOf(Num(n), rest);
  }
}
