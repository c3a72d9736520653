/**
  Decimal text of machine integers: what `operator<<`, `sprintf("%ld")`, `atoi` and `strtol`
  do with it.  Both wire formats of the system (NUL-terminated fields and fixed-width fields)
  are built on these functions.
*/
module Decimal {

  const INT_MIN: int := -0x8000_0000
  const INT_MAX: int := 0x7fff_ffff
  const LONG_MIN: int := -0x8000_0000_0000_0000
  const LONG_MAX: int := 0x7fff_ffff_ffff_ffff

  predicate IsInt32(n: int) {
    INT_MIN <= n <= INT_MAX
  }

  predicate IsInt64(n: int) {
    LONG_MIN <= n <= LONG_MAX
  }

  predicate IsDigit(c: char) {
    '0' <= c <= '9'
  }

  /** C's isspace in the default locale. */
  predicate IsSpace(c: char) {
    c == ' ' || '\t' <= c <= '\r'
  }

  function Digit(d: nat): (c: char)
    requires d < 10
    ensures IsDigit(c) && DigitValue(c) == d
  {
    ('0' as int + d) as char
  }

  function DigitValue(c: char): nat
    requires IsDigit(c)
  {
    c as int - '0' as int
  }

  function NatText(n: nat): (s: string)
    ensures s != "" && AllDigits(s)
  {
    if n < 10 then [Digit(n)] else NatText(n / 10) + [Digit(n % 10)]
  }

  function IntText(n: int): string {
    if n < 0 then "-" + NatText(-n) else NatText(n)
  }

  predicate AllDigits(s: string) {
    forall k :: 0 <= k < |s| ==> IsDigit(s[k])
  }

  /** The longest prefix of digits, read on top of what has been accumulated. */
  function ReadDigits(s: string, acc: nat): nat {
    if s == "" || !IsDigit(s[0]) then acc else ReadDigits(s[1..], acc * 10 + DigitValue(s[0]))
  }

  /** What is left after the longest prefix of digits. */
  function AfterDigits(s: string): string {
    if s == "" || !IsDigit(s[0]) then s else AfterDigits(s[1..])
  }

  function SkipSpace(s: string): string {
    if s == "" || !IsSpace(s[0]) then s else SkipSpace(s[1..])
  }

  predicate Signed(s: string) {
    s != "" && (s[0] == '-' || s[0] == '+')
  }

  /** The mathematical value that strtol recognises, before any clamping. */
  function ExactValue(text: string): int {
    var s := SkipSpace(text);
    var magnitude: int := ReadDigits(if Signed(s) then s[1..] else s, 0);
    if Signed(s) && s[0] == '-' then -magnitude else magnitude
  }

  /** strtol's end pointer; without any digit the whole text is left unread. */
  function Unread(text: string): string {
    var s := SkipSpace(text);
    var t := if Signed(s) then s[1..] else s;
    if t == "" || !IsDigit(t[0]) then text else AfterDigits(t)
  }

  /** atoi: strtol clamps to a long, and the conversion to int keeps the low 32 bits. */
  function Atoi(text: string): (n: int)
    ensures IsInt32(n)
  {
    var v := ExactValue(text);
    var long := if v < LONG_MIN then LONG_MIN else if v > LONG_MAX then LONG_MAX else v;
    var low := long % 0x1_0000_0000;
    if low > INT_MAX then low - 0x1_0000_0000 else low
  }

  lemma {:induction false} ReadDigitsAppend(s: string, t: string, acc: nat)
    requires AllDigits(s)
    ensures ReadDigits(s + t, acc) == ReadDigits(t, ReadDigits(s, acc))
    ensures AfterDigits(s + t) == AfterDigits(t)
  {
    if s == "" {
      assert s + t == t;
    } else {
      assert (s + t)[1..] == s[1..] + t;
      assert AllDigits(s[1..]);
      ReadDigitsAppend(s[1..], t, acc * 10 + DigitValue(s[0]));
    }
  }

  lemma {:induction false} NatTextValue(n: nat)
    ensures ReadDigits(NatText(n), 0) == n
    ensures AfterDigits(NatText(n)) == ""
  {
    if n < 10 {
      assert NatText(n)[1..] == "";
    } else {
      NatTextValue(n / 10);
      ReadDigitsAppend(NatText(n / 10), [Digit(n % 10)], 0);
      assert [Digit(n % 10)][1..] == "";
    }
  }

  /** Reading back the text of any integer gives the integer and leaves nothing unread. */
  lemma IntTextValue(n: int)
    ensures ExactValue(IntText(n)) == n
    ensures Unread(IntText(n)) == ""
  {
    NatTextValue(if n < 0 then -n else n);
    if n < 0 {
      assert IntText(n)[1..] == NatText(-n);
    }
  }

  /** One more digit on the right is ten times the value and the digit. */
  lemma DigitsValue(s: string, c: char)
    requires AllDigits(s) && '0' <= c <= '9'
    ensures ReadDigits(s + [c], 0) == 10 * ReadDigits(s, 0) + (c as int - '0' as int)
  {
    ReadDigitsAppend(s, [c], 0);
    assert [c][1..] == "";
  }

  lemma AtoiIntText(n: int)
    requires -0x8000_0000 <= n <= 0x7fff_ffff
    ensures Atoi(IntText(n)) == n
  {
    IntTextValue(n);
  }

  /** Of the other integers that a long holds atoi keeps the low 32 bits; above them it gives -1, and below them 0. */
  lemma AtoiWraps(n: int)
    ensures -0x8000_0000 <= Atoi(IntText(n)) <= 0x7fff_ffff
    ensures -0x8000_0000_0000_0000 <= n <= 0x7fff_ffff_ffff_ffff ==> (n - Atoi(IntText(n))) % 0x1_0000_0000 == 0
    ensures n > 0x7fff_ffff_ffff_ffff ==> Atoi(IntText(n)) == -1
    ensures n < -0x8000_0000_0000_0000 ==> Atoi(IntText(n)) == 0
  {
    IntTextValue(n);
  }

  /** The text of an integer holds nothing but digits and possibly a leading sign. */
  lemma IntTextChars(n: int)
    ensures IntText(n) != ""
    ensures forall k :: 0 <= k < |IntText(n)| ==> IsDigit(IntText(n)[k]) || (k == 0 && IntText(n)[k] == '-')
  {
  }
}
