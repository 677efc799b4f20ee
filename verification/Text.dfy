/** Operations of the standard string and slice types that the modelled code relies on. */
module Text {
  predicate StartsWith(s: string, p: string) {
    p <= s
  }

  predicate EndsWith<T(==)>(s: seq<T>, e: seq<T>) {
    |e| <= |s| && s[|s| - |e|..] == e
  }

  // The Unicode property White_Space.
  predicate IsWhitespace(c: char) {
    var n := c as int;
    || 0x9 <= n <= 0xD || n == 0x20 || n == 0x85 || n == 0xA0 || n == 0x1680 || 0x2000 <= n <= 0x200A
    || n == 0x2028 || n == 0x2029 || n == 0x202F || n == 0x205F || n == 0x3000
  }

  // These are its 25 characters.
  lemma WhitespaceCharacters(c: char)
    ensures IsWhitespace(c) <==>
            c as int in {9, 10, 11, 12, 13, 32, 133, 160, 5760, 8192, 8193, 8194, 8195, 8196, 8197, 8198, 8199, 8200, 8201, 8202,
                         8232, 8233, 8239, 8287, 12288}
  {
  }

  function TrimRight(s: string): (r: string)
    ensures r <= s
    ensures r != "" ==> !IsWhitespace(r[|r| - 1])
  {
    if s == "" then ""
    else if IsWhitespace(s[|s| - 1]) then TrimRight(s[..|s| - 1])
    else s
  }

  // ----- laws -----

  lemma FirstOf<T>(x: T, rest: seq<T>)
    ensures ([x] + rest)[0] == x && ([x] + rest)[1..] == rest
  {
  }

  lemma DropFirst<T>(s: seq<T>, t: seq<T>)
    requires s != []
    ensures (s + t)[0] == s[0] && (s + t)[1..] == s[1..] + t
  {
  }

  // The end of a sequence is still its end when the first elements are dropped.
  lemma StillEnds<T>(s: seq<T>, e: seq<T>, n: nat)
    requires EndsWith(s, e) && n + |e| <= |s|
    ensures EndsWith(s[n..], e)
  {
    var k := |s| - |e|;
    forall i | 0 <= i < |e|
      ensures s[n..][k - n..][i] == e[i]
    {
      assert s[k..][i] == e[i];
    }
  }

  lemma WholeEnd<T>(s: seq<T>, e: seq<T>)
    requires EndsWith(s, e) && |s| == |e|
    ensures s == e
  {
  }

  // Cutting twice at the same places.
  lemma CutTwice<T>(s: seq<T>, i: int, k: int)
    requires 0 <= i <= k <= |s|
    ensures s[..k][..i] == s[..i] && s[..k][i..] == s[i..][..k - i] && s[i..][k - i..] == s[k..]
  {
  }
}
