/**
 Escaping a string so that, as a glob, it matches itself only. This works exactly for the strings
 without a backslash, or for all strings where a backslash does not escape.
 */
module Escape {
  import opened Utf8
  import opened Text
  import opened Regexes
  import opened Tokens
  import opened Compiler
  import opened Languages
  import opened StrategyProofs
  import opened GlobParser

  predicate IsMeta(c: char) {
    c in ['?', '*', '[', ']', '{', '}']
  }

  function EscapeChar(c: char): string {
    if IsMeta(c) then "[" + [c] + "]" else [c]
  }

  function Escaped(s: string): string {
    if s == "" then "" else EscapeChar(s[0]) + Escaped(s[1..])
  }

  // Six characters are put into brackets, and every other is left as it is.
  lemma {:induction false} EscapedPiecewise(a: string, c: char, b: string)
    ensures var escaped := if c in {'?', '*', '[', ']', '{', '}'} then ['[', c, ']'] else [c];
            Escaped(a + [c] + b) == Escaped(a) + escaped + Escaped(b)
    decreases |a|
  {
    hide Escaped;
    var all := a + [c] + b;
    if a == "" {
      EscapedFirst(all);
      assert all[1..] == b;
      EscapedEmpty();
    } else {
      assert all[1..] == a[1..] + [c] + b;
      EscapedPiecewise(a[1..], c, b);
      EscapedFirst(all);
      EscapedFirst(a);
    }
  }

  lemma EscapedFirst(s: string)
    requires s != ""
    ensures Escaped(s) == EscapeChar(s[0]) + Escaped(s[1..])
  {
  }

  lemma EscapedEmpty()
    ensures Escaped("") == ""
  {
  }

  lemma EscapedStep(s: string, i: nat)
    requires i < |s|
    ensures Escaped(s[i..]) == EscapeChar(s[i]) + Escaped(s[i + 1..])
  {
    assert s[i..][0] == s[i] && s[i..][1..] == s[i + 1..];
  }

  lemma EscapedNothing(s: string)
    ensures Escaped(s[|s|..]) == ""
  {
    assert s[|s|..] == "";
  }

  method EscapeString(s: string) returns (escaped: string)
    ensures escaped == Escaped(s)
  {
    hide Escaped;
    escaped := "";
    assert s[0..] == s;
    for i := 0 to |s|
      invariant escaped + Escaped(s[i..]) == Escaped(s)
    {
      var c := s[i];
      ghost var before := escaped;
      EscapedStep(s, i);
      if c in ['?', '*', '[', ']', '{', '}'] {
        escaped := escaped + ['['];
        escaped := escaped + [c];
        escaped := escaped + [']'];
      } else {
        escaped := escaped + [c];
      }
      assert escaped == before + EscapeChar(c);
      assert escaped + Escaped(s[i + 1..]) == before + (EscapeChar(c) + Escaped(s[i + 1..]));
    }
    EscapedNothing(s);
  }

  // ----- parsing an escaped string -----

  function EscapedToken(c: char): Token {
    if IsMeta(c) then Class(false, [(c, c)]) else Literal(c)
  }

  function EscapedTokens(s: string): (toks: seq<Token>)
    ensures |toks| == |s|
  {
    if s == "" then [] else [EscapedToken(s[0])] + EscapedTokens(s[1..])
  }

  // The parser stands outside braces and classes with only escaped text before it.
  predicate Flat(st: State) {
    |st.branches| == 1 && st.stack == [] && !st.foundUnclosedClass
  }

  // The state after a round that pushes t and leaves rest to be read.
  predicate Pushed(st: State, r: Step, t: Token, rest: string)
    requires Flat(st)
  {
    r.Ok? && Flat(r.value) && r.value.chars == rest && LastBranch(r.value) == LastBranch(st) + [t]
  }

  // Reading a metacharacter in its brackets.
  lemma ReadMeta(c: char, st: State, rest: string, opts: GlobOptions)
    requires Flat(st) && IsMeta(c) && st.chars == "[" + ([c] + ("]" + rest))
    ensures st.chars[0] == '[' && Pushed(st, ParseChar('[', Bump(st), opts), Class(false, [(c, c)]), rest)
  {
    var next := Bump(st);
    FirstOf('[', [c] + ("]" + rest));
    FirstOf(c, "]" + rest);
    FirstOf(']', rest);
    var inside := Bump(next);
    assert ScanMove(c, [], true, false) == Go([(c, c)], false);
    assert ScanClass(inside, [(c, c)], false, false) == Closed(Bump(inside), [(c, c)]);
    assert ScanClass(next, [], true, false) == Closed(Bump(inside), [(c, c)]);
    hide ScanClass, ScanMove;
    assert ParseClass(next, opts) == PushToken(Bump(inside), Class(false, [(c, c)]));
  }

  lemma ReadPlain(c: char, st: State, rest: string, opts: GlobOptions)
    requires Flat(st) && !IsMeta(c) && st.chars == [c] + rest && (opts.backslashEscape ==> c != '\\')
    ensures st.chars[0] == c && Pushed(st, ParseChar(c, Bump(st), opts), Literal(c), rest)
  {
    FirstOf(c, rest);
  }

  // One round on an escaped character.
  lemma ReadEscapedChar(c: char, st: State, rest: string, opts: GlobOptions)
    requires Flat(st) && st.chars == EscapeChar(c) + rest && (opts.backslashEscape ==> c != '\\')
    ensures var r := ParseChar(st.chars[0], Bump(st), opts);
            && r.Ok? && Flat(r.value) && r.value.chars == rest
            && LastBranch(r.value) == LastBranch(st) + [EscapedToken(c)]
  {
    hide ParseChar, IsMeta;
    if IsMeta(c) {
      assert EscapeChar(c) + rest == "[" + ([c] + ("]" + rest));
      ReadMeta(c, st, rest, opts);
    } else {
      ReadPlain(c, st, rest, opts);
    }
  }

  lemma {:induction false} EscapedRound(s: string, st: State, opts: GlobOptions) returns (next: State)
    requires Flat(st) && s != "" && st.chars == Escaped(s) && (opts.backslashEscape ==> s[0] != '\\')
    ensures StackShape(st) && StackShape(next) && ParseLoop(st, opts) == ParseLoop(next, opts)
    ensures Flat(next) && next.chars == Escaped(s[1..])
    ensures LastBranch(next) == LastBranch(st) + [EscapedToken(s[0])]
  {
    hide ParseChar, ParseLoop, EscapedToken;
    ReadEscapedChar(s[0], st, Escaped(s[1..]), opts);
    next := ParseChar(st.chars[0], Bump(st), opts).value;
    LoopRound(st, next, opts);
  }

  lemma {:induction false} EscapedParses(s: string, st: State, opts: GlobOptions)
    requires Flat(st) && st.chars == Escaped(s) && (opts.backslashEscape ==> '\\' !in s)
    ensures ParseLoop(st, opts).Ok?
    ensures var end := ParseLoop(st, opts).value;
            |end.branches| == 1 && end.branches[0].list == LastBranch(st) + EscapedTokens(s)
    decreases |s|
  {
    hide ParseLoop, EscapedToken, EscapedTokens, Escaped, StackShape;
    if s == "" {
      NothingToParse(st, opts);
    } else {
      var next := EscapedRound(s, st, opts);
      EscapedParses(s[1..], next, opts);
      FirstEscapedToken(s);
      assert LastBranch(st) + [EscapedToken(s[0])] + EscapedTokens(s[1..]) == LastBranch(st) + ([EscapedToken(s[0])] + EscapedTokens(s[1..]));
    }
  }

  lemma NothingToParse(st: State, opts: GlobOptions)
    requires Flat(st) && st.chars == Escaped("")
    ensures ParseLoop(st, opts).Ok?
    ensures var end := ParseLoop(st, opts).value;
            |end.branches| == 1 && end.branches[0].list == LastBranch(st) + EscapedTokens("")
  {
    assert LastBranch(st) + [] == LastBranch(st);
  }

  lemma FirstEscapedToken(s: string)
    requires s != ""
    ensures EscapedTokens(s) == [EscapedToken(s[0])] + EscapedTokens(s[1..])
  {
  }

  // ----- matching with the tokens of an escaped string -----

  lemma EscapedTokenDenotes(c: char, opts: GlobOptions, w: seq<byte>)
    ensures Denotes(EscapedToken(c), opts, w) <==> SameBytes(opts, w, EncodeChar(c))
  {
    if IsMeta(c) {
      var spans := RangeSpans(c, c);
      assert ClassSpans([(c, c)]) == spans + ClassSpans([(c, c)][1..]) == spans;
      assert spans == [Span(c as int, c as int)];
      assert spans[0] == Span(c as int, c as int);
      assert EncodeChar(c) == [c as int];
    }
  }

  lemma {:induction false} EscapedLang(s: string, opts: GlobOptions, path: seq<byte>)
    ensures Lang(EscapedTokens(s), opts, path) <==> SameBytes(opts, path, Encode(s))
  {
    hide EncodeChar, Denotes, EscapedToken, SameBytes, Lang, Encode;
    if s == "" {
      NothingEscaped(opts, path);
    } else {
      var first, rest := EncodeChar(s[0]), EscapedTokens(s[1..]);
      LangCons(EscapedToken(s[0]), rest, opts, path);
      EncodeFirst(s);
      SameBytesConcat(opts, path, first, Encode(s[1..]));
      if SameBytes(opts, path, Encode(s)) {
        EscapedTokenDenotes(s[0], opts, path[..|first|]);
        EscapedLang(s[1..], opts, path[|first|..]);
      }
      if Lang(EscapedTokens(s), opts, path) {
        var k :| 0 <= k <= |path| && Denotes(EscapedToken(s[0]), opts, path[..k]) && Lang(rest, opts, path[k..]);
        EscapedTokenDenotes(s[0], opts, path[..k]);
        SameLength(opts, path[..k], first);
        EscapedLang(s[1..], opts, path[k..]);
      }
    }
  }

  lemma NothingEscaped(opts: GlobOptions, path: seq<byte>)
    ensures Lang(EscapedTokens(""), opts, path) <==> SameBytes(opts, path, Encode(""))
  {
  }

  // The glob made of the escaped string parses and matches exactly the string's own bytes, up to
  // case if that does not matter.
  ghost predicate RoundTrips(s: string, opts: GlobOptions) {
    && Build(Escaped(s), opts).Ok?
    && forall path :: GlobMatches(Build(Escaped(s), opts).value, path) <==> SameBytes(opts, path, Encode(s))
  }

  lemma EscapeRoundTrip(s: string, opts: GlobOptions)
    requires opts.backslashEscape ==> '\\' !in s
    ensures RoundTrips(s, opts)
  {
    hide ParseLoop, GlobMatches, Lang, SameBytes, Encode;
    EscapedParses(s, Initial(Escaped(s)), opts);
    var g := Build(Escaped(s), opts).value;
    assert g.tokens == [] + EscapedTokens(s) == EscapedTokens(s);
    assert s != "" ==> g.tokens[0] == EscapedToken(s[0]);
    assert g.tokens != [RecursivePrefix];
    forall path
      ensures GlobMatches(g, path) <==> SameBytes(opts, path, Encode(s))
    {
      GlobLang(g, path);
      EscapedLang(s, opts, path);
    }
  }
}
