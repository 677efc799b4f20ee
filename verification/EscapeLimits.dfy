/** Where escaping does not work: a backslash that escapes is itself not escaped. */
module EscapeLimits {
  import opened Wrappers
  import opened Utf8
  import opened Text
  import opened Tokens
  import opened Regexes
  import opened Compiler
  import opened Languages
  import opened StrategyProofs
  import opened GlobParser
  import opened Escape

  // No two stars in a row, and no star at the end: nothing is read as `**`.
  predicate SingleStars(s: string) {
    forall i | 0 <= i < |s| && s[i] == '*' :: i + 1 < |s| && s[i + 1] != '*'
  }

  lemma {:induction false} EscapedHasSingleStars(s: string)
    ensures SingleStars(Escaped(s))
  {
    if s == "" {
    } else {
      EscapedHasSingleStars(s[1..]);
      var head, rest := EscapeChar(s[0]), Escaped(s[1..]);
      var all := head + rest;
      forall i | 0 <= i < |all| && all[i] == '*'
        ensures i + 1 < |all| && all[i + 1] != '*'
      {
        if i >= |head| {
          assert all[i] == rest[i - |head|];
        } else {
          assert head == "[*]" && i == 1;
        }
      }
    }
  }

  lemma TailTrans(a: string, b: string, c: string)
    requires EndsWith(b, a) && EndsWith(c, b)
    ensures EndsWith(c, a)
  {
    StillEnds(b, a, |b| - |a|);
    forall i | 0 <= i < |a|
      ensures c[|c| - |a|..][i] == a[i]
    {
      assert c[|c| - |b|..][|b| - |a| + i] == b[|b| - |a| + i] == b[|b| - |a|..][i];
    }
  }

  lemma TailSingleStars(t: string, s: string)
    requires EndsWith(s, t) && SingleStars(s)
    ensures SingleStars(t)
  {
    var n := |s| - |t|;
    assert forall i | 0 <= i < |t| :: t[i] == s[n + i];
  }

  // r keeps the first branch's tokens and has only characters of st left.
  predicate KeepsFront(st: State, r: Step)
    requires st.branches != []
  {
    r.Ok? ==>
      && r.value.branches != []
      && st.branches[0].list <= r.value.branches[0].list
      && EndsWith(st.chars, r.value.chars)
  }

  lemma PushFront(st: State, tok: Token)
    requires st.branches != []
    ensures KeepsFront(st, PushToken(st, tok))
  {
  }

  lemma {:induction false} ScanTail(st: State, ranges: seq<(char, char)>, first: bool, inRange: bool)
    requires (!first || inRange) ==> ranges != []
    ensures var r := ScanClass(st, ranges, first, inRange);
            r.Closed? ==> EndsWith(st.chars, r.st.chars) && r.st.branches == st.branches
    decreases |st.chars|
  {
    hide ScanMove, EndsWith;
    BumpTail(st);
    if st.chars == "" {
    } else {
      var m := ScanMove(st.chars[0], ranges, first, inRange);
      if m.Go? {
        ScanTail(Bump(st), m.ranges, false, m.inRange);
        var r := ScanClass(Bump(st), m.ranges, false, m.inRange);
        if r.Closed? {
          TailTrans(r.st.chars, Bump(st).chars, st.chars);
        }
      }
    }
  }

  lemma ClassFront(st: State, opts: GlobOptions)
    requires st.branches != []
    ensures KeepsFront(st, ParseClass(st, opts))
  {
    hide EndsWith, PushToken, ScanClass;
    var from := if IsNegation(Peek(st)) then Bump(st) else st;
    ScanTail(from, [], true, false);
    PushFront(st.(foundUnclosedClass := true), Literal('['));
    BumpTail(st);
    match ScanClass(from, [], true, false)
    case Closed(end, ranges) =>
      PushFront(end, Class(IsNegation(Peek(st)), ranges));
      TailTrans(end.chars, from.chars, st.chars);
      if PushToken(end, Class(IsNegation(Peek(st)), ranges)).Ok? {
        TailTrans(PushToken(end, Class(IsNegation(Peek(st)), ranges)).value.chars, end.chars, st.chars);
      }
    case _ =>
  }

  lemma BumpTail(st: State)
    ensures EndsWith(st.chars, Bump(st).chars) && EndsWith(st.chars, st.chars)
  {
    assert st.chars[0..] == st.chars;
  }

  lemma CloseFront(st: State)
    requires StackShape(st)
    ensures st.branches != [] && KeepsFront(st, PopAlternate(st))
  {
    if st.stack != [] {
      var n := |st.stack| - 1;
      assert st.stack[0] <= st.stack[n];
      var before := st.(stack := st.stack[..n], branches := st.branches[..st.stack[n]]);
      PushFront(before, Alternates(st.branches[st.stack[n]..]));
      assert before.branches[0] == st.branches[0];
    }
  }

  lemma OtherFront(c: char, st: State, opts: GlobOptions)
    requires st.branches != []
    ensures KeepsFront(st, Ok(PushAlternate(st))) && KeepsFront(st, ParseComma(st)) && KeepsFront(st, ParseBackslash(st, opts))
  {
    hide EndsWith, PushToken, ParseBackslash;
    BumpTail(st);
    PushFront(st, Literal(','));
    BackslashFront(st, opts);
  }

  lemma BackslashFront(st: State, opts: GlobOptions)
    requires st.branches != []
    ensures KeepsFront(st, ParseBackslash(st, opts))
  {
    hide EndsWith, PushToken;
    PushFront(st, Literal('\\'));
    BumpTail(st);
    if Bump(st).cur.Some? {
      var tok := Literal(Bump(st).cur.value);
      PushFront(Bump(st), tok);
      if PushToken(Bump(st), tok).Ok? {
        TailTrans(PushToken(Bump(st), tok).value.chars, Bump(st).chars, st.chars);
      }
    }
  }

  lemma RoundFront(st: State, opts: GlobOptions)
    requires StackShape(st) && st.chars != "" && SingleStars(st.chars)
    ensures st.branches != [] && KeepsFront(Bump(st), ParseChar(st.chars[0], Bump(st), opts))
  {
    var c, next := st.chars[0], Bump(st);
    assert c == '*' ==> Peek(next) != Some('*');
    CloseFront(next);
    hide EndsWith, StackShape, PushToken, ParseClass, PopAlternate, ParseComma, ParseBackslash, PushAlternate, SingleStars;
    OtherFront(c, next, opts);
    match c
    case '?' => PushFront(next, Any);
    case '*' => PushFront(next, ZeroOrMore);
    case '[' => if next.foundUnclosedClass { PushFront(next, Literal(c)); } else { ClassFront(next, opts); }
    case '{' =>
    case '}' =>
    case ',' =>
    case '\\' =>
    case _ => PushFront(next, Literal(c));
  }

  lemma {:induction false} LoopFront(st: State, opts: GlobOptions)
    requires StackShape(st) && SingleStars(st.chars) && ParseLoop(st, opts).Ok?
    ensures st.branches != [] && ParseLoop(st, opts).value.branches != []
    ensures st.branches[0].list <= ParseLoop(st, opts).value.branches[0].list
    decreases |st.chars|
  {
    if st.chars == "" {
    } else {
      RoundFront(st, opts);
      ParseCharShape(st.chars[0], Bump(st), opts);
      hide ParseChar, StackShape;
      var next := ParseChar(st.chars[0], Bump(st), opts).value;
      BumpTail(st);
      TailTrans(next.chars, Bump(st).chars, st.chars);
      TailSingleStars(next.chars, st.chars);
      hide EndsWith, SingleStars;
      LoopFront(next, opts);
    }
  }

  function Backslashes(k: nat): seq<byte> {
    seq(k, i => BACKSLASH)
  }

  // t stands for the character x and nothing else.
  ghost predicate StandsFor(t: Token, x: char, opts: GlobOptions) {
    forall w :: Denotes(t, opts, w) <==> SameBytes(opts, w, EncodeChar(x))
  }

  lemma EscapedStandsFor(c: char, opts: GlobOptions)
    ensures StandsFor(EscapedToken(c), c, opts) && StandsFor(Literal(c), c, opts)
  {
    hide SameBytes, EncodeChar;
    forall w
      ensures Denotes(EscapedToken(c), opts, w) <==> SameBytes(opts, w, EncodeChar(c))
    {
      EscapedTokenDenotes(c, opts, w);
    }
  }

  lemma OtherFirstByte(t: Token, x: char, toks: seq<Token>, opts: GlobOptions, path: seq<byte>)
    requires StandsFor(t, x, opts) && x != '\\' && path != [] && path[0] == BACKSLASH
    ensures !Lang([t] + toks, opts, path)
  {
    hide Denotes, Lang;
    LangCons(t, toks, opts, path);
    assert EncodeChar(x)[0] != BACKSLASH;
    forall k | 0 <= k <= |path|
      ensures !SameBytes(opts, path[..k], EncodeChar(x))
    {
      if k > 0 {
        assert path[..k][0] == path[0];
        assert !SameByte(opts, path[..k][0], EncodeChar(x)[0]);
      }
    }
  }

  lemma SameFirstChar(t: Token, x: char, toks: seq<Token>, opts: GlobOptions, rest: seq<byte>)
    requires StandsFor(t, x, opts) && !Lang(toks, opts, rest)
    ensures !Lang([t] + toks, opts, EncodeChar(x) + rest)
  {
    hide Denotes, EncodeChar, SameBytes, Lang;
    var path := EncodeChar(x) + rest;
    LangCons(t, toks, opts, path);
    forall k | 0 <= k <= |path| && SameBytes(opts, path[..k], EncodeChar(x))
      ensures path[k..] == rest
    {
      SameLength(opts, path[..k], EncodeChar(x));
    }
  }

  // The parse of an escaped string, begun in the state st, ended with these tokens after those of st.
  predicate EndsWithTokens(st: State, opts: GlobOptions, toks: seq<Token>) {
    && StackShape(st) && st.branches != [] && ParseLoop(st, opts).Ok?
    && ParseLoop(st, opts).value.branches != []
    && ParseLoop(st, opts).value.branches[0].list == LastBranch(st) + toks
  }

  // From the next round on the tokens are t and whatever follows.
  lemma {:induction false} AfterOneToken(st: State, next: State, t: Token, opts: GlobOptions) returns (toks: seq<Token>)
    requires StackShape(st) && Flat(next) && st.branches != [] && StackShape(next)
    requires ParseLoop(st, opts).Ok? && ParseLoop(st, opts) == ParseLoop(next, opts)
    requires LastBranch(next) == LastBranch(st) + [t] && SingleStars(next.chars)
    ensures EndsWithTokens(next, opts, toks) && EndsWithTokens(st, opts, [t] + toks)
  {
    hide ParseLoop, SingleStars;
    LoopFront(next, opts);
    var all := ParseLoop(st, opts).value.branches[0].list;
    toks := all[|LastBranch(next)|..];
    assert all == LastBranch(st) + [t] + toks == LastBranch(st) + ([t] + toks);
  }

  // Reading a backslash, which hides from the parser what escaping put after it.
  lemma {:induction false} BackslashRound(w: string, st: State, opts: GlobOptions) returns (x: char, next: State)
    requires Flat(st) && opts.backslashEscape && w != "" && w[0] == '\\' && st.chars == Escaped(w)
    requires ParseLoop(st, opts).Ok?
    ensures |w| > 1 && x == EscapeChar(w[1])[0]
    ensures StackShape(st) && StackShape(next) && ParseLoop(st, opts) == ParseLoop(next, opts)
    ensures Flat(next) && LastBranch(next) == LastBranch(st) + [Literal(x)] && SingleStars(next.chars)
    ensures w[1] == '\\' ==> next.chars == Escaped(w[2..])
  {
    hide ParseLoop, SingleStars;
    EscapedHasSingleStars(w);
    assert EscapeChar('\\') == ['\\'];
    assert Escaped(w) == ['\\'] + Escaped(w[1..]);
    var read := Bump(st);
    if |w| == 1 {
      DanglingBackslash(st, opts);
      assert false;
    }
    assert w[1..][0] == w[1] && w[1..][1..] == w[2..];
    x := EscapeChar(w[1])[0];
    assert read.chars == EscapeChar(w[1]) + Escaped(w[2..]);
    var after := Bump(read);
    next := WithLast(after, LastBranch(after) + [Literal(x)]);
    assert ParseChar('\\', read, opts) == Ok(next);
    LoopRound(st, next, opts);
    assert EndsWith(st.chars, next.chars);
    TailSingleStars(next.chars, st.chars);
  }

  lemma DanglingBackslash(st: State, opts: GlobOptions)
    requires Flat(st) && opts.backslashEscape && st.chars == "\\"
    ensures ParseLoop(st, opts) == Err(DanglingEscape)
  {
    assert Bump(st).chars == "";
  }

  // Put k backslashes in front of w, and the tokens for w do not match, whenever there is a
  // backslash at all.
  lemma {:induction false} Mismatch(w: string, st: State, opts: GlobOptions, k: nat) returns (toks: seq<Token>)
    requires opts.backslashEscape && (k >= 1 || '\\' in w)
    requires Flat(st) && st.chars == Escaped(w) && ParseLoop(st, opts).Ok?
    ensures EndsWithTokens(st, opts, toks)
    ensures !Lang(toks, opts, Backslashes(k) + Encode(w))
    ensures w != "" ==> toks != [] && toks[0] != RecursivePrefix
    decreases |w|
  {
    hide ParseLoop, EndsWithTokens, StandsFor, Denotes, StackShape, Lang;
    var path := Backslashes(k) + Encode(w);
    if w == "" {
      toks := [];
      NothingLeft(st, opts);
      assert path != [];
      LangEmpty(opts, path);
    } else if w[0] == '\\' {
      var x, next := BackslashRound(w, st, opts);
      EscapedStandsFor(x, opts);
      if w[1] == '\\' {
        var rest := Mismatch(w[2..], next, opts, k + 1);
        toks := AfterOneToken(st, next, Literal(x), opts);
        TokensUnique(next, opts, rest, toks);
        MovesOver(k, w);
        SameFirstChar(Literal(x), x, toks, opts, Backslashes(k + 1) + Encode(w[2..]));
        toks := [Literal(x)] + toks;
      } else {
        toks := AfterOneToken(st, next, Literal(x), opts);
        StartsWithBackslash(k, w);
        OtherFirstByte(Literal(x), x, toks, opts, path);
        toks := [Literal(x)] + toks;
      }
    } else {
      var next := EscapedRound(w, st, opts);
      EscapedStandsFor(w[0], opts);
      EscapedHasSingleStars(w[1..]);
      toks := AfterOneToken(st, next, EscapedToken(w[0]), opts);
      if k >= 1 {
        assert path[0] == BACKSLASH;
        OtherFirstByte(EscapedToken(w[0]), w[0], toks, opts, path);
      } else {
        assert w == [w[0]] + w[1..];
        var rest := Mismatch(w[1..], next, opts, 0);
        TokensUnique(next, opts, rest, toks);
        assert Backslashes(0) + Encode(w[1..]) == Encode(w[1..]) && path == Encode(w);
        SameFirstChar(EscapedToken(w[0]), w[0], toks, opts, Encode(w[1..]));
      }
      toks := [EscapedToken(w[0])] + toks;
    }
  }

  lemma NothingLeft(st: State, opts: GlobOptions)
    requires Flat(st) && st.chars == ""
    ensures EndsWithTokens(st, opts, [])
  {
  }

  lemma LangEmpty(opts: GlobOptions, path: seq<byte>)
    ensures Lang([], opts, path) <==> path == []
  {
  }

  lemma TokensUnique(st: State, opts: GlobOptions, a: seq<Token>, b: seq<Token>)
    requires EndsWithTokens(st, opts, a) && EndsWithTokens(st, opts, b)
    ensures a == b
  {
    hide ParseLoop;
    var all, n := ParseLoop(st, opts).value.branches[0].list, |LastBranch(st)|;
    assert all[n..] == a && all[n..] == b;
  }

  lemma MovesOver(k: nat, w: string)
    requires |w| > 1 && w[0] == '\\' && w[1] == '\\'
    ensures Backslashes(k) + Encode(w) == EncodeChar('\\') + (Backslashes(k + 1) + Encode(w[2..]))
  {
    hide Encode;
    var rest := Encode(w[2..]);
    assert Encode(w) == [BACKSLASH] + ([BACKSLASH] + rest) by {
      TwoBackslashes(w);
    }
    assert Backslashes(k + 1) == [BACKSLASH] + Backslashes(k) == Backslashes(k) + [BACKSLASH];
    assert Backslashes(k) + ([BACKSLASH] + ([BACKSLASH] + rest)) == (Backslashes(k) + [BACKSLASH]) + ([BACKSLASH] + rest);
    assert [BACKSLASH] + ((Backslashes(k) + [BACKSLASH]) + rest) == ([BACKSLASH] + Backslashes(k)) + ([BACKSLASH] + rest);
  }

  lemma TwoBackslashes(w: string)
    requires |w| > 1 && w[0] == '\\' && w[1] == '\\'
    ensures Encode(w) == [BACKSLASH] + ([BACKSLASH] + Encode(w[2..]))
  {
    assert w[1..][0] == w[1] && w[1..][1..] == w[2..];
  }

  lemma StartsWithBackslash(k: nat, w: string)
    requires w != "" && w[0] == '\\'
    ensures var path := Backslashes(k) + Encode(w); path != [] && path[0] == BACKSLASH
  {
    assert Encode(w)[0] == BACKSLASH;
  }

  // Where escaping fails it is the string itself that is not matched.
  lemma BackslashIsNotMatched(s: string, opts: GlobOptions)
    requires opts.backslashEscape && '\\' in s && Build(Escaped(s), opts).Ok?
    ensures !GlobMatches(Build(Escaped(s), opts).value, Encode(s))
  {
    hide ParseLoop, GlobMatches, Lang, StackShape, Encode;
    var g := Build(Escaped(s), opts).value;
    var toks := Mismatch(s, Initial(Escaped(s)), opts, 0);
    assert g.tokens == [] + toks == toks;
    assert Backslashes(0) + Encode(s) == Encode(s);
    GlobLang(g, Encode(s));
  }

  lemma AlikeToItself(opts: GlobOptions, bs: seq<byte>)
    ensures SameBytes(opts, bs, bs)
  {
  }

  // Escaping works for exactly the strings without a backslash, or for all strings where a
  // backslash does not escape.
  lemma EscapeWorksExactlyWithoutBackslash(s: string, opts: GlobOptions)
    ensures RoundTrips(s, opts) <==> !opts.backslashEscape || '\\' !in s
  {
    hide ParseLoop, GlobMatches, SameBytes, Encode;
    if !opts.backslashEscape || '\\' !in s {
      EscapeRoundTrip(s, opts);
    } else if Build(Escaped(s), opts).Ok? {
      BackslashIsNotMatched(s, opts);
      AlikeToItself(opts, Encode(s));
    }
  }

  // ----- the string and nothing else -----

  predicate IsAsciiLetter(c: char) {
    'a' <= c <= 'z' || 'A' <= c <= 'Z'
  }

  ghost predicate MatchesOnlyItself(s: string, opts: GlobOptions) {
    && Build(Escaped(s), opts).Ok?
    && forall path :: GlobMatches(Build(Escaped(s), opts).value, path) <==> path == Encode(s)
  }

  // Without letters there is just one way of writing the bytes.
  lemma NoLettersNoCase(s: string, opts: GlobOptions, path: seq<byte>)
    requires SameBytes(opts, path, Encode(s)) && forall c | c in s :: !IsAsciiLetter(c)
    ensures path == Encode(s)
  {
    hide Encode;
    var e := Encode(s);
    forall i | 0 <= i < |e|
      ensures path[i] == e[i]
    {
      if e[i] < 0x80 {
        var c := e[i] as char;
        assert c as int in e;
        AsciiOccurrence(s, c);
      }
    }
  }

  // With a letter there is another.
  lemma LetterHasCase(s: string, opts: GlobOptions, c: char) returns (path: seq<byte>)
    requires opts.caseInsensitive && c in s && IsAsciiLetter(c)
    ensures SameBytes(opts, path, Encode(s)) && path != Encode(s)
  {
    hide Encode;
    var e := Encode(s);
    AsciiOccurrence(s, c);
    var i :| 0 <= i < |e| && e[i] == c as int;
    path := e[i := SwapCase(e[i])];
    assert path[i] != e[i];
  }

  // The string and nothing else is matched if, further, case matters or there are no letters.
  lemma EscapeMatchesOnlyItself(s: string, opts: GlobOptions)
    ensures MatchesOnlyItself(s, opts) <==>
              && (!opts.backslashEscape || '\\' !in s)
              && (!opts.caseInsensitive || forall c | c in s :: !IsAsciiLetter(c))
  {
    hide ParseLoop, Build, GlobMatches, SameBytes, Encode, IsAsciiLetter;
    if opts.backslashEscape && '\\' in s {
      if Build(Escaped(s), opts).Ok? {
        BackslashIsNotMatched(s, opts);
      }
    } else {
      EscapeRoundTrip(s, opts);
      AlikeToItself(opts, Encode(s));
      if opts.caseInsensitive && exists c :: c in s && IsAsciiLetter(c) {
        var c :| c in s && IsAsciiLetter(c);
        var path := LetterHasCase(s, opts, c);
        assert GlobMatches(Build(Escaped(s), opts).value, path);
      } else {
        forall path
          ensures SameBytes(opts, path, Encode(s)) <==> path == Encode(s)
        {
          if !opts.caseInsensitive {
            SameBytesAreEqual(opts, path, Encode(s));
          } else if SameBytes(opts, path, Encode(s)) {
            NoLettersNoCase(s, opts, path);
          }
        }
      }
    }
  }
}
