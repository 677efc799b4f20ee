/** Replacement templates: text in which `$N`, `$name` and `${name}` refer to capture groups. */
module Interpolate {
  import opened Wrappers
  import opened Utf8
  import opened Decimals

  datatype Ref = Named(name: string) | Number(index: nat)

  // A reference and the position that follows it.
  datatype CaptureRef = CaptureRef(cap: Ref, end: nat)

  // What a search knows of its groups: the text of a group, empty if it has none, and the index
  // that a name stands for.
  datatype Groups = Groups(text: nat -> seq<byte>, nameToIndex: string -> Option<nat>)

  const DOLLAR: byte := 0x24
  const OPEN: byte := 0x7B
  const CLOSE: byte := 0x7D

  predicate IsValidCapLetter(b: byte) {
    '0' as int <= b <= '9' as int || 'a' as int <= b <= 'z' as int || 'A' as int <= b <= 'Z' as int || b == '_' as int
  }

  function AsText(name: seq<byte>): string {
    seq(|name|, i requires 0 <= i < |name| => name[i] as char)
  }

  // A name of digits that fits 32 bits is a number.
  function RefOf(name: string): Ref {
    match ParseUnsigned(name, U32_MAX)
    case Some(n) => Number(n)
    case None => Named(name)
  }

  // ----- the specification -----

  function LetterCount(s: seq<byte>): (n: nat)
    ensures n <= |s| && forall i | 0 <= i < n :: IsValidCapLetter(s[i])
    ensures n < |s| ==> !IsValidCapLetter(s[n])
  {
    if s == [] || !IsValidCapLetter(s[0]) then 0 else 1 + LetterCount(s[1..])
  }

  // The reference at the start of a text that starts with a dollar sign.
  function CapRefAt(s: seq<byte>): (r: Option<CaptureRef>)
    ensures r.Some? ==> 1 < r.value.end <= |s|
  {
    if |s| <= 1 || s[0] != DOLLAR then None
    else
      var brace := s[1] == OPEN;
      var start := if brace then 2 else 1;
      var n := LetterCount(s[start..]);
      if n == 0 then None
      else
        var end := start + n;
        if brace && (end == |s| || s[end] != CLOSE) then None
        else Some(CaptureRef(RefOf(AsText(s[start..end])), if brace then end + 1 else end))
  }

  function Resolved(r: Ref, groups: Groups): seq<byte> {
    match r
    case Number(i) => groups.text(i)
    case Named(name) =>
      match groups.nameToIndex(name)
      case None => []
      case Some(i) => groups.text(i)
  }

  // The template with its references resolved.
  function Interpolated(s: seq<byte>, groups: Groups): seq<byte>
    decreases |s|
  {
    if s == [] then []
    else if s[0] != DOLLAR then [s[0]] + Interpolated(s[1..], groups)
    else if |s| > 1 && s[1] == DOLLAR then [DOLLAR] + Interpolated(s[2..], groups)
    else
      match CapRefAt(s)
      case None => [DOLLAR] + Interpolated(s[1..], groups)
      case Some(c) => Resolved(c.cap, groups) + Interpolated(s[c.end..], groups)
  }

  // ----- the loops -----

  lemma CountFrom(s: seq<byte>, i: nat)
    requires i < |s| && IsValidCapLetter(s[i])
    ensures LetterCount(s[i..]) == 1 + LetterCount(s[i + 1..])
  {
    assert s[i..][0] == s[i] && s[i..][1..] == s[i + 1..];
  }

  lemma NoMoreLetters(s: seq<byte>, i: nat)
    requires i <= |s| && (i < |s| ==> !IsValidCapLetter(s[i]))
    ensures LetterCount(s[i..]) == 0
  {
  }

  // The reference, given where its name starts and ends.
  lemma CapRefIs(s: seq<byte>, brace: bool, i: nat, end: nat)
    requires |s| > 1 && s[0] == DOLLAR && (brace <==> s[1] == OPEN) && i == (if brace then 2 else 1)
    requires i <= end <= |s| && LetterCount(s[i..]) == end - i
    ensures CapRefAt(s) == if end == i || (brace && (end == |s| || s[end] != CLOSE)) then None
                           else Some(CaptureRef(RefOf(AsText(s[i..end])), if brace then end + 1 else end))
  {
    hide LetterCount, RefOf, AsText;
  }

  method FindCapRef(s: seq<byte>) returns (r: Option<CaptureRef>)
    ensures r == CapRefAt(s)
  {
    hide LetterCount, RefOf, AsText;
    var i := 0;
    if |s| <= 1 || s[0] != DOLLAR {
      return None;
    }
    var brace := false;
    i := i + 1;
    if s[i] == OPEN {
      brace := true;
      i := i + 1;
    }
    var capEnd := i;
    while capEnd < |s| && IsValidCapLetter(s[capEnd])
      invariant i <= capEnd <= |s|
      invariant LetterCount(s[i..]) == capEnd - i + LetterCount(s[capEnd..])
    {
      CountFrom(s, capEnd);
      capEnd := capEnd + 1;
    }
    NoMoreLetters(s, capEnd);
    CapRefIs(s, brace, i, capEnd);
    if capEnd == i {
      return None;
    }
    var cap := AsText(s[i..capEnd]);
    if brace {
      if capEnd == |s| || s[capEnd] != CLOSE {
        return None;
      }
      capEnd := capEnd + 1;
    }
    return Some(CaptureRef(RefOf(cap), capEnd));
  }

  method Find(s: seq<byte>, b: byte) returns (r: Option<nat>)
    ensures r.None? ==> b !in s
    ensures r.Some? ==> r.value < |s| && s[r.value] == b && b !in s[..r.value]
  {
    for i := 0 to |s|
      invariant b !in s[..i]
    {
      if s[i] == b {
        return Some(i);
      }
    }
    return None;
  }

  class Buffer {
    var bytes: seq<byte>

    // The interpolated template is appended; every round of the loop shortens what is left of it.
    method Interpolate(template: seq<byte>, groups: Groups)
      modifies this
      ensures bytes == old(bytes) + Interpolated(template, groups)
    {
      hide Interpolated, CapRefAt, Resolved;
      var replacement := template;
      NothingToDo(groups);
      while replacement != []
        invariant bytes + Interpolated(replacement, groups) == old(bytes) + Interpolated(template, groups)
        decreases |replacement|
      {
        var dollar := Find(replacement, DOLLAR);
        if dollar.None? {
          OnlyPlainText(replacement, groups);
          break;
        }
        PlainText(replacement, dollar.value, groups);
        Regroup(bytes, replacement[..dollar.value], Interpolated(replacement[dollar.value..], groups));
        bytes := bytes + replacement[..dollar.value];
        replacement := replacement[dollar.value..];
        OneRound(replacement, groups);
        if |replacement| > 1 && replacement[1] == DOLLAR {
          Regroup(bytes, [DOLLAR], Interpolated(replacement[2..], groups));
          bytes := bytes + [DOLLAR];
          replacement := replacement[2..];
          continue;
        }
        var found := FindCapRef(replacement);
        if found.None? {
          Regroup(bytes, [DOLLAR], Interpolated(replacement[1..], groups));
          bytes := bytes + [DOLLAR];
          replacement := replacement[1..];
          continue;
        }
        var capRef := found.value;
        Regroup(bytes, Resolved(capRef.cap, groups), Interpolated(replacement[capRef.end..], groups));
        replacement := replacement[capRef.end..];
        AppendResolved(capRef.cap, groups);
      }
      if replacement != [] {
        bytes := bytes + replacement;
      }
    }

    method AppendResolved(cap: Ref, groups: Groups)
      modifies this
      ensures bytes == old(bytes) + Resolved(cap, groups)
    {
      match cap {
        case Number(i) =>
          bytes := bytes + groups.text(i);
        case Named(name) =>
          var index := groups.nameToIndex(name);
          if index.Some? {
            bytes := bytes + groups.text(index.value);
          }
      }
    }
  }

  lemma OnlyPlainText(s: seq<byte>, groups: Groups)
    requires DOLLAR !in s
    ensures Interpolated(s, groups) == s
  {
    hide Interpolated;
    NothingToDo(groups);
    assert s[..|s|] == s && s[|s|..] == [];
    PlainText(s, |s|, groups);
  }

  lemma NothingToDo(groups: Groups)
    ensures Interpolated([], groups) == []
  {
  }

  lemma {:induction false} PlainText(s: seq<byte>, n: nat, groups: Groups)
    requires n <= |s| && DOLLAR !in s[..n]
    ensures Interpolated(s, groups) == s[..n] + Interpolated(s[n..], groups)
  {
    hide Interpolated;
    if n > 0 {
      assert s[0] in s[..n];
      assert s[1..][..n - 1] == s[..n][1..];
      PlainText(s[1..], n - 1, groups);
      assert s[1..][n - 1..] == s[n..];
      OneByte(s[0], s[1..], groups);
      assert [s[0]] + s[1..] == s;
      assert [s[0]] + s[1..n] == s[..n] && s[1..][..n - 1] == s[1..n];
    } else {
      assert s[0..] == s && s[..0] == [];
    }
  }

  lemma OneByte(b: byte, rest: seq<byte>, groups: Groups)
    requires b != DOLLAR
    ensures Interpolated([b] + rest, groups) == [b] + Interpolated(rest, groups)
  {
    hide CapRefAt;
    assert ([b] + rest)[1..] == rest;
  }

  lemma OneRound(s: seq<byte>, groups: Groups)
    requires s != [] && s[0] == DOLLAR
    ensures Interpolated(s, groups)
         == if |s| > 1 && s[1] == DOLLAR then [DOLLAR] + Interpolated(s[2..], groups)
            else
              match CapRefAt(s)
              case None => [DOLLAR] + Interpolated(s[1..], groups)
              case Some(c) => Resolved(c.cap, groups) + Interpolated(s[c.end..], groups)
  {
  }
}
