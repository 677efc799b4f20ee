/**
 Bytes, and the UTF-8 encoding (RFC 3629) through which a glob, a string of Unicode scalar
 values, meets a path, a sequence of arbitrary bytes.
 */
module Utf8 {

  type byte = b: int | 0 <= b < 0x100

  const SLASH: byte := 0x2F
  const DOT: byte := 0x2E
  const BACKSLASH: byte := 0x5C

  // The last k bytes of a multi-byte sequence, which carry six bits each.
  function Continuation(n: nat, k: nat): (bs: seq<byte>)
    ensures |bs| == k && forall i | 0 <= i < k :: bs[i] >= 0x80
  {
    if k == 0 then [] else Continuation(n / 0x40, k - 1) + [0x80 + n % 0x40]
  }

  function EncodeChar(c: char): (bs: seq<byte>)
    ensures bs != []
    ensures c as int < 0x80 ==> bs == [c as int]
    ensures c as int >= 0x80 ==> forall i | 0 <= i < |bs| :: bs[i] >= 0x80
  {
    var n := c as int;
    if n < 0x80 then [n]
    else if n < 0x800 then [0xC0 + n / 0x40] + Continuation(n, 1)
    else if n < 0x1_0000 then [0xE0 + n / 0x1000] + Continuation(n, 2)
    else [0xF0 + n / 0x4_0000] + Continuation(n, 3)
  }

  function Encode(s: string): seq<byte> {
    if s == [] then [] else EncodeChar(s[0]) + Encode(s[1..])
  }

  lemma EncodeNothing()
    ensures Encode("") == []
  {
  }

  lemma EncodeFirst(s: string)
    requires s != ""
    ensures Encode(s) == EncodeChar(s[0]) + Encode(s[1..])
  {
  }

  lemma Regroup(a: seq<byte>, b: seq<byte>, c: seq<byte>)
    ensures (a + b) + c == a + (b + c)
  {
  }

  lemma {:induction false} EncodeConcat(a: string, b: string)
    ensures Encode(a + b) == Encode(a) + Encode(b)
  {
    hide Encode, EncodeChar;
    if a == [] {
      assert a + b == b;
      EncodeNothing();
      assert Encode(a) + Encode(b) == Encode(b);
    } else {
      EncodeConcat(a[1..], b);
      assert (a + b)[0] == a[0] && (a + b)[1..] == a[1..] + b;
      EncodeFirst(a + b);
      EncodeFirst(a);
      Regroup(EncodeChar(a[0]), Encode(a[1..]), Encode(b));
    }
  }

  // An ASCII byte occurs in the encoding exactly when the ASCII character occurs in the string:
  // no multi-byte sequence contains a `/` or a `.`.
  lemma {:induction false} AsciiOccurrence(s: string, c: char)
    requires c as int < 0x80
    ensures c as int in Encode(s) <==> c in s
  {
    if s == [] {
    } else {
      AsciiOccurrence(s[1..], c);
      assert s == [s[0]] + s[1..];
      assert c in s <==> c == s[0] || c in s[1..];
      assert c as int in EncodeChar(s[0]) <==> c == s[0];
    }
  }
}
