/** What single references in a template insert, byte by byte, and what is no reference. */
module References {
  import opened Utf8
  import opened Decimals
  import opened Interpolate
  import opened Templates

  // 0-9, A-Z, a-z and the underscore.
  predicate IsLetter(b: byte) {
    0x30 <= b <= 0x39 || 0x41 <= b <= 0x5A || 0x61 <= b <= 0x7A || b == 0x5F
  }

  predicate AreLetters(name: seq<byte>) {
    forall i | 0 <= i < |name| :: IsLetter(name[i])
  }

  predicate AreDigits(name: seq<byte>) {
    forall i | 0 <= i < |name| :: 0x30 <= name[i] <= 0x39
  }

  function ValueOf(digits: seq<byte>): nat
    requires AreDigits(digits)
  {
    if digits == [] then 0 else 10 * ValueOf(digits[..|digits| - 1]) + (digits[|digits| - 1] - 0x30)
  }

  // The text of the group with that number, leading zeros or not, if it fits 32 bits; otherwise that of
  // the group with that name, if there is one.
  function TextOf(name: seq<byte>, groups: Groups): seq<byte> {
    if AreDigits(name) && ValueOf(name) <= 4294967295 then groups.text(ValueOf(name))
    else
      match groups.nameToIndex(AsText(name))
      case None => []
      case Some(i) => groups.text(i)
  }

  lemma LettersAre(b: byte)
    ensures IsValidCapLetter(b) <==> IsLetter(b)
  {
  }

  lemma NamesAre(name: seq<byte>)
    ensures IsName(name) <==> name != [] && AreLetters(name)
  {
    forall i | 0 <= i < |name| {
      LettersAre(name[i]);
    }
  }

  lemma DigitsAre(name: seq<byte>)
    ensures AllDigits(AsText(name)) <==> AreDigits(name)
  {
    if AreDigits(name) {
      forall i | 0 <= i < |name|
        ensures IsDigit(AsText(name)[i])
      {
      }
    }
    if AllDigits(AsText(name)) {
      forall i | 0 <= i < |name|
        ensures 0x30 <= name[i] <= 0x39
      {
        assert IsDigit(AsText(name)[i]);
      }
    }
  }

  lemma {:induction false} ValuesAre(name: seq<byte>)
    requires AreDigits(name) && AllDigits(AsText(name))
    ensures Value(AsText(name)) == ValueOf(name)
  {
    if name != [] {
      var front := name[..|name| - 1];
      assert AsText(name)[..|name| - 1] == AsText(front);
      DigitsAre(front);
      ValuesAre(front);
    }
  }

  lemma ReferenceInserts(name: seq<byte>, groups: Groups)
    requires name != [] && AreLetters(name)
    ensures Resolved(RefOf(AsText(name)), groups) == TextOf(name, groups)
  {
    hide Value, ValueOf;
    assert AsText(name)[0] == name[0] as char && IsLetter(name[0]);
    DigitsAre(name);
    if AreDigits(name) {
      ValuesAre(name);
    }
  }

  // `${name}` inserts the group, whatever follows.
  lemma BracedInserts(name: seq<byte>, rest: seq<byte>, groups: Groups)
    requires name != [] && AreLetters(name)
    ensures Interpolated([0x24, 0x7B] + name + [0x7D] + rest, groups) == TextOf(name, groups) + Interpolated(rest, groups)
  {
    hide Interpolated, CapRefAt, RefOf, Resolved, TextOf;
    NamesAre(name);
    BracedIsFound(name, rest);
    ReferenceIsResolved(Braced(name), name, rest, groups);
    ReferenceInserts(name, groups);
    assert [0x24, 0x7B] + name + [0x7D] + rest == RenderPart(Braced(name)) + rest;
  }

  // `$name` takes all the letters that follow.
  lemma BareInserts(name: seq<byte>, rest: seq<byte>, groups: Groups)
    requires name != [] && AreLetters(name) && (rest == [] || !IsLetter(rest[0]))
    ensures Interpolated([0x24] + name + rest, groups) == TextOf(name, groups) + Interpolated(rest, groups)
  {
    hide Interpolated, CapRefAt, RefOf, Resolved, TextOf;
    NamesAre(name);
    BareIsFound(name, rest);
    ReferenceIsResolved(Bare(name), name, rest, groups);
    ReferenceInserts(name, groups);
    assert [0x24] + name + rest == RenderPart(Bare(name)) + rest;
  }

  // Two dollar signs are one.
  lemma TwoDollarsInsertOne(rest: seq<byte>, groups: Groups)
    ensures Interpolated([0x24, 0x24] + rest, groups) == [0x24] + Interpolated(rest, groups)
  {
    DoubleDollar(rest, groups);
  }

  // A dollar sign without a name behind it is copied.
  lemma LoneDollarIsCopied(rest: seq<byte>, groups: Groups)
    requires rest == [] || (rest[0] != 0x24 && rest[0] != 0x7B && !IsLetter(rest[0]))
    ensures Interpolated([0x24] + rest, groups) == [0x24] + Interpolated(rest, groups)
  {
    hide Interpolated;
    var s := [0x24] + rest;
    assert s[1..] == rest;
    OneRound(s, groups);
  }

  // So it is if a brace is not closed right behind the name, or encloses none.
  lemma {:induction false} OpenBraceIsCopied(name: seq<byte>, rest: seq<byte>, groups: Groups)
    requires AreLetters(name) && (rest == [] || (!IsLetter(rest[0]) && (rest[0] == 0x7D ==> name == [])))
    ensures Interpolated([0x24, 0x7B] + name + rest, groups) == [0x24] + Interpolated([0x7B] + name + rest, groups)
  {
    hide Interpolated, RefOf, AsText;
    var s := [0x24, 0x7B] + name + rest;
    assert s[1..] == [0x7B] + name + rest;
    assert s[2..] == name + rest;
    forall i | 0 <= i < |name| {
      LettersAre(name[i]);
    }
    LettersOfName(name, rest);
    hide LetterCount;
    assert rest != [] ==> s[2 + |name|] == rest[0];
    OneRound(s, groups);
  }

  // ----- numbers as they are written -----

  lemma {:induction false} LeadingZero(digits: seq<byte>)
    requires AreDigits(digits)
    ensures AreDigits([0x30] + digits) && ValueOf([0x30] + digits) == ValueOf(digits)
  {
    var s := [0x30] + digits;
    if digits == [] {
      assert s[..0] == [];
    } else {
      LeadingZero(digits[..|digits| - 1]);
      assert s[..|s| - 1] == [0x30] + digits[..|digits| - 1];
    }
  }

  // Decimal digits, from the highest on.
  lemma DigitsOneByOne(n: nat, d: nat)
    requires d < 10
    ensures Digits(d) == [('0' as int + d) as char]
    ensures n > 0 ==> Digits(10 * n + d) == Digits(n) + [('0' as int + d) as char]
  {
  }
}
