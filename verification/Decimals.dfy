/** Decimal numbers: writing them, and reading them back within the range of a machine integer. */
module Decimals {
  import opened Wrappers

  const U32_MAX := 0xFFFF_FFFF
  const U64_MAX := 0xFFFF_FFFF_FFFF_FFFF
  const I64_MAX := 0x7FFF_FFFF_FFFF_FFFF

  predicate IsDigit(c: char) {
    '0' <= c <= '9'
  }

  predicate AllDigits(s: string) {
    forall i | 0 <= i < |s| :: IsDigit(s[i])
  }

  function Value(s: string): nat
    requires AllDigits(s)
  {
    if s == "" then 0 else 10 * Value(s[..|s| - 1]) + (s[|s| - 1] as int - '0' as int)
  }

  // Reading an unsigned integer; a plus sign may come first.
  function ParseUnsigned(s: string, max: nat): Option<nat> {
    var digits := if s != "" && s[0] == '+' then s[1..] else s;
    if digits == "" || !AllDigits(digits) || Value(digits) > max then None else Some(Value(digits))
  }

  // Reading an integer between -max - 1 and max.
  function ParseSigned(s: string, max: nat): Option<int> {
    if s != "" && s[0] == '-' then
      var digits := s[1..];
      if digits == "" || !AllDigits(digits) || Value(digits) > max + 1 then None
      else Some(0 - Value(digits))
    else
      match ParseUnsigned(s, max)
      case None => None
      case Some(n) => Some(n)
  }

  function DigitOf(n: nat): char
    requires n < 10
  {
    '0' + n as char
  }

  function Digits(n: nat): (s: string)
    ensures s != "" && AllDigits(s)
  {
    if n < 10 then [DigitOf(n)] else Digits(n / 10) + [DigitOf(n % 10)]
  }

  function Signed(n: int): (s: string)
    ensures s != ""
  {
    if n < 0 then "-" + Digits(-n) else Digits(n)
  }

  lemma {:induction false} ValueOfDigits(n: nat)
    ensures Value(Digits(n)) == n
  {
    if n < 10 {
      assert Digits(n)[..0] == "";
    } else {
      ValueOfDigits(n / 10);
      assert Digits(n)[..|Digits(n)| - 1] == Digits(n / 10);
    }
  }

  // What was written is read back exactly if it is in range.
  lemma ReadUnsigned(n: nat, max: nat)
    ensures ParseUnsigned(Digits(n), max) == if n <= max then Some(n) else None
  {
    hide Digits, Value;
    ValueOfDigits(n);
  }

  lemma ReadSigned(n: int, max: nat)
    ensures ParseSigned(Signed(n), max).Some? <==> -1 - max <= n <= max
    ensures -1 - max <= n <= max ==> ParseSigned(Signed(n), max) == Some(n)
  {
    hide Digits, Value;
    if n < 0 {
      ValueOfDigits(-n);
      assert Signed(n)[1..] == Digits(-n);
    } else {
      ReadUnsigned(n, max);
    }
  }
}
