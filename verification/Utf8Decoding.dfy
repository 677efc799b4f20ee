/** Reading UTF-8 (RFC 3629, section 3) back: the encoding loses nothing. */
module Utf8Decoding {
  import opened Wrappers
  import opened Utf8

  // Six more bits.
  function Shifted(high: int, next: int): int {
    high * 64 + (next - 0x80)
  }

  // The code point that a text starts with, and how many bytes it takes.
  function DecodeFirst(bs: seq<byte>): Option<(int, nat)> {
    if bs == [] then None
    else
      var lead: int := bs[0];
      if lead < 0x80 then Some((lead, 1))
      else if 0xC0 <= lead < 0xE0 && |bs| >= 2 then Some((Shifted(lead - 0xC0, bs[1]), 2))
      else if 0xE0 <= lead < 0xF0 && |bs| >= 3 then Some((Shifted(Shifted(lead - 0xE0, bs[1]), bs[2]), 3))
      else if 0xF0 <= lead && |bs| >= 4 then Some((Shifted(Shifted(Shifted(lead - 0xF0, bs[1]), bs[2]), bs[3]), 4))
      else None
  }

  lemma OneContinuation(n: nat)
    ensures Continuation(n, 1) == [0x80 + n % 64]
  {
    assert Continuation(n / 64, 0) == [];
  }

  lemma TwoContinuations(n: nat)
    ensures Continuation(n, 2) == [0x80 + n / 64 % 64, 0x80 + n % 64]
  {
    OneContinuation(n / 64);
  }

  lemma ThreeContinuations(n: nat)
    ensures Continuation(n, 3) == [0x80 + n / 64 / 64 % 64, 0x80 + n / 64 % 64, 0x80 + n % 64]
  {
    TwoContinuations(n / 64);
  }

  lemma LastSixBits(n: nat)
    ensures Shifted(n / 64, 0x80 + n % 64) == n
  {
  }

  lemma DividedTwice(n: nat)
    ensures n / 0x1000 == n / 64 / 64 && n / 0x4_0000 == n / 64 / 64 / 64
  {
  }

  // Every character is read back, and takes as many bytes as its code point needs.
  lemma CharIsDecoded(c: char, rest: seq<byte>)
    ensures DecodeFirst(EncodeChar(c) + rest) == Some((c as int, |EncodeChar(c)|))
    ensures |EncodeChar(c)| == if c as int < 0x80 then 1 else if c as int < 0x800 then 2 else if c as int < 0x10000 then 3 else 4
  {
    var n: nat := c as int;
    LastSixBits(n);
    LastSixBits(n / 64);
    LastSixBits(n / 64 / 64);
    DividedTwice(n);
    OneContinuation(n);
    TwoContinuations(n);
    ThreeContinuations(n);
    hide Shifted, Continuation;
  }

  // Different strings have different encodings.
  lemma {:induction false} EncodingIsInjective(a: string, b: string)
    requires Encode(a) == Encode(b)
    ensures a == b
  {
    hide EncodeChar, DecodeFirst;
    if a == "" || b == "" {
    } else {
      CharIsDecoded(a[0], Encode(a[1..]));
      CharIsDecoded(b[0], Encode(b[1..]));
      assert a[0] == b[0];
      var n := |EncodeChar(a[0])|;
      assert Encode(a)[n..] == Encode(a[1..]) && Encode(b)[n..] == Encode(b[1..]);
      EncodingIsInjective(a[1..], b[1..]);
      assert a == [a[0]] + a[1..] && b == [b[0]] + b[1..];
    }
  }
}
