/** Writing templates: whatever is to be inserted, a template says it, and interpolation does it. */
module Templates {
  import opened Wrappers
  import opened Utf8
  import opened Decimals
  import opened Interpolate

  // `$name` may be written without braces where no letter of a name follows.
  datatype Part = Literal(text: seq<byte>) | Braced(name: seq<byte>) | Bare(name: seq<byte>)

  predicate IsName(name: seq<byte>) {
    name != [] && forall i | 0 <= i < |name| :: IsValidCapLetter(name[i])
  }

  // A text with each dollar sign doubled.
  function Doubled(text: seq<byte>): seq<byte> {
    if text == [] then []
    else (if text[0] == DOLLAR then [DOLLAR, DOLLAR] else [text[0]]) + Doubled(text[1..])
  }

  function RenderPart(p: Part): seq<byte> {
    match p
    case Literal(text) => Doubled(text)
    case Braced(name) => [DOLLAR, OPEN] + name + [CLOSE]
    case Bare(name) => [DOLLAR] + name
  }

  function Render(parts: seq<Part>): seq<byte> {
    if parts == [] then [] else RenderPart(parts[0]) + Render(parts[1..])
  }

  predicate NoLetterFirst(s: seq<byte>) {
    s == [] || !IsValidCapLetter(s[0])
  }

  predicate WellFormed(parts: seq<Part>) {
    parts != [] ==>
      && WellFormed(parts[1..])
      && match parts[0]
         case Literal(_) => true
         case Braced(name) => IsName(name)
         case Bare(name) => IsName(name) && NoLetterFirst(Render(parts[1..]))
  }

  // What the parts stand for, in order.
  function Inserted(parts: seq<Part>, groups: Groups): seq<byte> {
    if parts == [] then []
    else
      (match parts[0]
       case Literal(text) => text
       case Braced(name) => Resolved(RefOf(AsText(name)), groups)
       case Bare(name) => Resolved(RefOf(AsText(name)), groups)) + Inserted(parts[1..], groups)
  }

  lemma {:induction false} DoubledIsLiteral(text: seq<byte>, rest: seq<byte>, groups: Groups)
    ensures Interpolated(Doubled(text) + rest, groups) == text + Interpolated(rest, groups)
  {
    hide Interpolated;
    if text == [] {
      assert Doubled(text) + rest == rest;
    } else {
      DoubledIsLiteral(text[1..], rest, groups);
      var more := Doubled(text[1..]) + rest;
      if text[0] == DOLLAR {
        Regroup([DOLLAR, DOLLAR], Doubled(text[1..]), rest);
        DoubleDollar(more, groups);
      } else {
        Regroup([text[0]], Doubled(text[1..]), rest);
        OneByte(text[0], more, groups);
      }
      Regroup([text[0]], text[1..], Interpolated(rest, groups));
      assert text == [text[0]] + text[1..];
    }
  }

  lemma DoubleDollar(rest: seq<byte>, groups: Groups)
    ensures Interpolated([DOLLAR, DOLLAR] + rest, groups) == [DOLLAR] + Interpolated(rest, groups)
  {
    hide Interpolated, CapRefAt;
    var all := [DOLLAR, DOLLAR] + rest;
    assert all[2..] == rest;
    OneRound(all, groups);
  }

  lemma {:induction false} LettersOfName(name: seq<byte>, rest: seq<byte>)
    requires (forall i | 0 <= i < |name| :: IsValidCapLetter(name[i])) && NoLetterFirst(rest)
    ensures LetterCount(name + rest) == |name|
  {
    if name == [] {
      assert name + rest == rest;
    } else {
      LettersOfName(name[1..], rest);
      assert (name + rest)[1..] == name[1..] + rest;
    }
  }

  lemma BracedIsFound(name: seq<byte>, rest: seq<byte>)
    requires IsName(name)
    ensures CapRefAt(RenderPart(Braced(name)) + rest) == Some(CaptureRef(RefOf(AsText(name)), |name| + 3))
  {
    hide RefOf, LetterCount;
    var s := RenderPart(Braced(name)) + rest;
    LettersOfName(name, [CLOSE] + rest);
    assert s[2..] == name + ([CLOSE] + rest);
    assert s[2..2 + |name|] == name;
    assert s[1] == OPEN && s[2 + |name|] == CLOSE;
  }

  lemma BareIsFound(name: seq<byte>, rest: seq<byte>)
    requires IsName(name) && NoLetterFirst(rest)
    ensures CapRefAt(RenderPart(Bare(name)) + rest) == Some(CaptureRef(RefOf(AsText(name)), |name| + 1))
  {
    hide RefOf, LetterCount;
    var s := RenderPart(Bare(name)) + rest;
    LettersOfName(name, rest);
    assert s[1..] == name + rest;
    assert s[1..1 + |name|] == name;
    assert s[1] == name[0];
  }

  // Interpolating what was written inserts what was meant.
  lemma {:induction false} TemplateRoundTrip(parts: seq<Part>, groups: Groups)
    requires WellFormed(parts)
    ensures Interpolated(Render(parts), groups) == Inserted(parts, groups)
  {
    hide CapRefAt, RefOf, Resolved, Interpolated;
    if parts == [] {
      NothingToDo(groups);
    } else {
      var rest := Render(parts[1..]);
      TemplateRoundTrip(parts[1..], groups);
      match parts[0] {
        case Literal(text) =>
          DoubledIsLiteral(text, rest, groups);
        case Braced(name) =>
          BracedIsFound(name, rest);
          ReferenceIsResolved(parts[0], name, rest, groups);
        case Bare(name) =>
          BareIsFound(name, rest);
          ReferenceIsResolved(parts[0], name, rest, groups);
      }
    }
  }

  lemma ReferenceIsResolved(p: Part, name: seq<byte>, rest: seq<byte>, groups: Groups)
    requires !p.Literal? && p.name == name && IsName(name)
    requires CapRefAt(RenderPart(p) + rest) == Some(CaptureRef(RefOf(AsText(name)), |RenderPart(p)|))
    ensures Interpolated(RenderPart(p) + rest, groups) == Resolved(RefOf(AsText(name)), groups) + Interpolated(rest, groups)
  {
    hide CapRefAt, RefOf, Resolved, Interpolated;
    var s := RenderPart(p) + rest;
    OneRound(s, groups);
    assert s[1] == if p.Braced? then OPEN else name[0];
    assert s[|RenderPart(p)|..] == rest;
  }

  // ----- numbers and names -----

  function DigitBytes(n: nat): seq<byte> {
    var s := Digits(n);
    seq(|s|, i requires 0 <= i < |s| => s[i] as int)
  }

  // A group number in range refers to that group; one out of range is a name like any other.
  lemma {:induction false} NumbersReferByIndex(n: nat)
    ensures IsName(DigitBytes(n))
    ensures RefOf(AsText(DigitBytes(n))) == if n <= U32_MAX then Number(n) else Named(Digits(n))
  {
    hide Digits, Value;
    var s := Digits(n);
    assert AsText(DigitBytes(n)) == s;
    ReadUnsigned(n, U32_MAX);
  }

  // A name with any other letter refers by name.
  lemma LettersReferByName(name: seq<byte>, i: nat)
    requires IsName(name) && i < |name| && !IsDigit(name[i] as char)
    ensures RefOf(AsText(name)) == Named(AsText(name))
  {
    assert AsText(name)[i] == name[i] as char && AsText(name)[0] != '+';
  }
}
