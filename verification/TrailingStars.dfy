/**
 A trailing recursive `**` component means everything inside a directory, and so does the form with
 a further `*` component that gitignore lines are rewritten to.
 */
module TrailingStars {
  import opened Wrappers
  import opened Utf8
  import opened Tokens
  import opened Compiler
  import opened Languages
  import opened Paths
  import opened Text
  import opened StrategyProofs
  import opened GlobParser
  import opened ParserInvariants
  import RepeatedStars

  // ----- the meaning of the two forms -----

  predicate StartsWithSlash(s: seq<byte>) {
    s != [] && s[0] == SLASH
  }

  lemma SuffixForms(opts: GlobOptions, s: seq<byte>)
    ensures Lang([RecursiveSuffix], opts, s) <==> StartsWithSlash(s)
    ensures Lang([RecursiveZeroOrMore, ZeroOrMore], opts, s) <==> StartsWithSlash(s)
    ensures Lang([RecursiveSuffix, ZeroOrMore], opts, s) <==> StartsWithSlash(s)
  {
    LangOne(RecursiveSuffix, opts, s);
    SlashFormThenStar(RecursiveZeroOrMore, opts, s);
    SlashFormThenStar(RecursiveSuffix, opts, s);
  }

  lemma SlashFormThenStar(t: Token, opts: GlobOptions, s: seq<byte>)
    requires t.RecursiveSuffix? || t.RecursiveZeroOrMore?
    ensures Lang([t, ZeroOrMore], opts, s) <==> StartsWithSlash(s)
  {
    hide LastComponent, Lang;
    assert [t, ZeroOrMore] == [t] + [ZeroOrMore];
    LangCons(t, [ZeroOrMore], opts, s);
    if StartsWithSlash(s) {
      var n := |s| - |LastComponent(s)|;
      SlashBeforeLast(s);
      LastComponentCut(s, n);
      LangOne(ZeroOrMore, opts, s[n..]);
      assert Denotes(t, opts, s[..n]);
    }
  }

  lemma SlashBeforeLast(s: seq<byte>)
    requires StartsWithSlash(s)
    ensures var n := |s| - |LastComponent(s)|; n > 0 && s[n..] == LastComponent(s) && s[n - 1] == SLASH
  {
    assert SLASH in s;
  }

  // Whatever the tokens in front, a trailing `/**` and a trailing `/**/*` match the same paths.
  lemma TrailingFormsAgree(pre: seq<Token>, opts: GlobOptions, s: seq<byte>)
    ensures Lang(pre + [RecursiveSuffix], opts, s) <==> Lang(pre + [RecursiveZeroOrMore, ZeroOrMore], opts, s)
    ensures Lang(pre + [RecursiveSuffix], opts, s) <==> Lang(pre + [RecursiveSuffix, ZeroOrMore], opts, s)
  {
    forall t
      ensures Lang([RecursiveSuffix], opts, t) <==> Lang([RecursiveZeroOrMore, ZeroOrMore], opts, t)
      ensures Lang([RecursiveSuffix], opts, t) <==> Lang([RecursiveSuffix, ZeroOrMore], opts, t)
    {
      SuffixForms(opts, t);
    }
    LangPrepend([RecursiveSuffix], [RecursiveZeroOrMore, ZeroOrMore], pre, opts, s);
    LangPrepend([RecursiveSuffix], [RecursiveSuffix, ZeroOrMore], pre, opts, s);
  }

  // The path starts with these bytes, up to case if that does not matter, and a slash.
  predicate LiesInside(dir: seq<byte>, opts: GlobOptions, path: seq<byte>) {
    |dir| < |path| && SameBytes(opts, path[..|dir|], dir) && path[|dir|] == SLASH
  }

  // After a plain string: everything inside that directory, and never the directory itself, however
  // its case.
  lemma InsideDirectory(dir: string, opts: GlobOptions, path: seq<byte>)
    ensures Lang(Literals(dir) + [RecursiveSuffix], opts, path) <==> LiesInside(Encode(dir), opts, path)
    ensures SameBytes(opts, path, Encode(dir)) ==> !Lang(Literals(dir) + [RecursiveSuffix], opts, path)
    ensures !opts.caseInsensitive ==> (LiesInside(Encode(dir), opts, path) <==> Encode(dir) + [SLASH] <= path)
  {
    hide Encode, SameBytes, Lang;
    var e := Encode(dir);
    LangLiteralsThen(dir, [RecursiveSuffix], opts, path);
    if |e| <= |path| {
      SuffixForms(opts, path[|e|..]);
      if !opts.caseInsensitive {
        SameBytesAreEqual(opts, path[..|e|], e);
        SlashAfter(path, e);
      }
    }
    if SameBytes(opts, path, e) {
      SameLength(opts, path, e);
    }
  }

  // ----- parsing the two forms side by side -----

  // The tail is still to be read, slash included ...
  predicate Ahead(a: State) {
    EndsWith(a.chars, "/**")
  }

  // ... or its slash has just been read.
  predicate AtStars(a: State) {
    a.chars == "**" && a.cur == Some('/')
  }

  predicate BeforeStars(a: State) {
    Ahead(a) || (AtStars(a) && a.branches != [] && LastBranch(a) != [])
  }

  // b differs in having a slash and a star more to read.
  predicate Twins(a: State, b: State) {
    b == a.(chars := a.chars + "/*")
  }

  predicate TwinSteps(a: Step, b: Step) {
    if a.Ok? then b.Ok? && Twins(a.value, b.value) && BeforeStars(a.value) else a == b
  }

  lemma TwinBump(a: State, b: State)
    requires Twins(a, b) && Ahead(a)
    ensures Twins(Bump(a), Bump(b)) && Peek(a) == Peek(b) && Peek(a).Some?
    ensures Ahead(Bump(a)) || AtStars(Bump(a))
    ensures Peek(a) != Some('/') ==> Ahead(Bump(a))
  {
    AheadIsNotEmpty(a);
    hide EndsWith;
    DropFirst(a.chars, "/*");
    TailAfterFirst(a.chars);
  }

  lemma AheadIsNotEmpty(a: State)
    requires Ahead(a)
    ensures a.chars != ""
  {
  }

  lemma TailAfterFirst(s: string)
    requires EndsWith(s, "/**")
    ensures |s| > 3 ==> EndsWith(s[1..], "/**")
    ensures |s| == 3 ==> s[0] == '/' && s[1..] == "**"
    ensures |s| >= 3
  {
    if |s| > 3 {
      StillEnds(s, "/**", 1);
    } else {
      WholeEnd(s, "/**");
    }
  }

  lemma TwinPush(a: State, b: State, tok: Token)
    requires Twins(a, b) && (Ahead(a) || AtStars(a))
    ensures TwinSteps(PushToken(a, tok), PushToken(b, tok))
  {
  }

  // Reading a class: what ends a class is not in the tail.
  lemma {:induction false} NoClosing(st: State, ranges: seq<(char, char)>, first: bool)
    requires (!first ==> ranges != []) && ']' !in st.chars && '-' !in st.chars
    ensures ScanClass(st, ranges, first, false) == Unclosed
    decreases |st.chars|
  {
    if st.chars == "" {
    } else {
      assert st.chars[0] in st.chars && forall c | c in st.chars[1..] :: c in st.chars;
      NoClosing(Bump(st), ranges + [(st.chars[0], st.chars[0])], false);
    }
  }

  predicate TwinScans(a: ClassScan, b: ClassScan) {
    if a.Closed? then
      && b.Closed? && a.ranges == b.ranges && Twins(a.st, b.st)
      && Ahead(a.st)
    else a == b
  }

  lemma {:induction false} TwinScan(a: State, b: State, ranges: seq<(char, char)>, first: bool, inRange: bool)
    requires Twins(a, b) && Ahead(a)
    requires (!first || inRange) ==> ranges != []
    ensures TwinScans(ScanClass(a, ranges, first, inRange), ScanClass(b, ranges, first, inRange))
    decreases |a.chars|
  {
    AheadHasChars(a, b);
    var c := a.chars[0];
    hide ScanMove, Twins, Ahead, TwinScans, Bump;
    TwinBump(a, b);
    MoveFacts(c, ranges, first, inRange);
    var m := ScanMove(c, ranges, first, inRange);
    var x, y := ScanClass(a, ranges, first, inRange), ScanClass(b, ranges, first, inRange);
    if m.Go? {
      if Ahead(Bump(a)) {
        TwinScan(Bump(a), Bump(b), m.ranges, false, m.inRange);
      } else {
        TailScan(Bump(a), Bump(b), m.ranges);
      }
    } else if m.Close? {
      TwinsClose(Bump(a), Bump(b), m.ranges);
    } else {
      SameScans(x);
    }
  }

  lemma AheadHasChars(a: State, b: State)
    requires Twins(a, b) && Ahead(a)
    ensures a.chars != "" && b.chars != "" && b.chars[0] == a.chars[0] && |Bump(a).chars| < |a.chars|
  {
    AheadIsNotEmpty(a);
    hide EndsWith;
    DropFirst(a.chars, "/*");
  }

  lemma MoveFacts(c: char, ranges: seq<(char, char)>, first: bool, inRange: bool)
    requires (!first || inRange) ==> ranges != []
    ensures var m := ScanMove(c, ranges, first, inRange);
            (m.Close? ==> c == ']') && (m.Go? && c == '/' ==> !m.inRange)
  {
  }

  lemma TwinsClose(a: State, b: State, ranges: seq<(char, char)>)
    requires Twins(a, b) && Ahead(a)
    ensures TwinScans(Closed(a, ranges), Closed(b, ranges))
  {
  }

  lemma SameScans(x: ClassScan)
    ensures !x.Closed? ==> TwinScans(x, x)
  {
  }

  // The slash of the tail has been read inside a class.
  lemma TailScan(a: State, b: State, ranges: seq<(char, char)>)
    requires Twins(a, b) && AtStars(a) && ranges != []
    ensures TwinScans(ScanClass(a, ranges, false, false), ScanClass(b, ranges, false, false))
  {
    assert b.chars == "**/*";
    NoClosing(a, ranges, false);
    NoClosing(b, ranges, false);
  }

  lemma TwinClass(a: State, b: State, opts: GlobOptions)
    requires Twins(a, b) && Ahead(a)
    ensures TwinSteps(ParseClass(a, opts), ParseClass(b, opts))
  {
    TwinBump(a, b);
    SameErrors();
    hide ScanClass, PushToken, TwinSteps, Ahead, AtStars;
    var negated := IsNegation(Peek(a));
    var a', b' := if negated then Bump(a) else a, if negated then Bump(b) else b;
    TwinScan(a', b', [], true, false);
    var scan := ScanClass(a', [], true, false);
    if scan.Closed? {
      TwinPush(scan.st, ScanClass(b', [], true, false).st, Class(negated, scan.ranges));
    }
    var a2, b2 := a.(foundUnclosedClass := true), b.(foundUnclosedClass := true);
    AheadAlike(a, a2);
    TwinPush(a2, b2, Literal('['));
  }

  lemma AheadAlike(a: State, b: State)
    requires Ahead(a) && b.chars == a.chars
    ensures Ahead(b)
  {
  }

  lemma SameErrors()
    ensures forall e: Step | e.Err? :: TwinSteps(e, e)
  {
  }

  lemma TwinBackslash(a: State, b: State, opts: GlobOptions)
    requires Twins(a, b) && Ahead(a)
    ensures TwinSteps(ParseBackslash(a, opts), ParseBackslash(b, opts))
  {
    TwinBump(a, b);
    hide PushToken, TwinSteps, Ahead, AtStars;
    TwinPush(Bump(a), Bump(b), Literal(a.chars[0]));
    TwinPush(a, b, Literal('\\'));
  }

  // Twins where the last branch is not empty are what a round may end in.
  lemma TwinReady(a: State, b: State)
    requires Twins(a, b) && (Ahead(a) || AtStars(a)) && a.branches != [] && LastBranch(a) != []
    ensures TwinSteps(Ok(a), Ok(b))
  {
    hide Ahead, AtStars;
  }

  lemma SameTokens(a: State, b: State)
    requires Twins(a, b)
    ensures a.branches == b.branches && a.stack == b.stack && a.prev == b.prev && a.foundUnclosedClass == b.foundUnclosedClass
    ensures Bump(a).branches == a.branches && Bump(a).stack == a.stack && Bump(a).foundUnclosedClass == a.foundUnclosedClass
  {
  }

  lemma TwinWithLast(a: State, b: State, toks: seq<Token>)
    requires Twins(a, b) && a.branches != []
    ensures b.branches != [] && Twins(WithLast(a, toks), WithLast(b, toks))
    ensures LastBranch(WithLast(a, toks)) == toks
    ensures WithLast(a, toks).chars == a.chars && WithLast(a, toks).cur == a.cur
  {
  }

  lemma TailAlike(a: State, b: State)
    requires b.chars == a.chars && b.cur == a.cur
    ensures Ahead(a) <==> Ahead(b)
    ensures AtStars(a) <==> AtStars(b)
  {
  }

  lemma TwinReplace(a: State, b: State, isSuffix: bool)
    requires Twins(a, b) && (Ahead(a) || AtStars(a)) && a.branches != [] && LastBranch(a) != []
    ensures b.branches != [] && LastBranch(b) == LastBranch(a)
    ensures TwinSteps(Ok(ReplaceLast(a, isSuffix)), Ok(ReplaceLast(b, isSuffix)))
  {
    SameTokens(a, b);
    hide Twins, Ahead, AtStars, TwinSteps, WithLast, Recursive;
    var toks := LastBranch(a);
    var replaced := toks[..|toks| - 1] + [Recursive(toks[|toks| - 1], isSuffix)];
    TwinWithLast(a, b, replaced);
    TailAlike(a, WithLast(a, replaced));
    TwinReady(WithLast(a, replaced), WithLast(b, replaced));
  }

  lemma TwinTwoStars(a: State, b: State)
    requires Twins(a, b) && Ahead(a)
    ensures TwinSteps(PushTwoStars(a), PushTwoStars(b))
  {
  }

  lemma TwinPrefixStars(a: State, b: State)
    requires Twins(a, b) && Ahead(a) && a.branches != [] && LastBranch(a) == []
    ensures TwinSteps(ParsePrefixStars(a), ParsePrefixStars(b))
  {
    SameTokens(a, b);
    TwinBump(a, b);
    hide Twins, Ahead, AtStars, TwinSteps, WithLast, PushTwoStars, Bump;
    TwinTwoStars(a, b);
    var toks := LastBranch(a) + [RecursivePrefix];
    TwinWithLast(a, b, toks);
    var x, y := WithLast(a, toks), WithLast(b, toks);
    TailAlike(a, x);
    TwinBump(x, y);
    SameTokens(x, y);
    TwinReady(Bump(x), Bump(y));
  }

  lemma {:induction false} TwinInnerStars(a: State, b: State)
    requires Twins(a, b) && Ahead(a) && a.branches != [] && LastBranch(a) != []
    ensures b.branches != [] && LastBranch(b) == LastBranch(a)
    ensures TwinSteps(ParseInnerStars(a), ParseInnerStars(b))
  {
    SameTokens(a, b);
    TwinBump(a, b);
    hide Twins, Ahead, AtStars, TwinSteps, PushTwoStars, Bump, ReplaceLast;
    TwinTwoStars(a, b);
    TwinReplace(a, b, true);
    TwinReplace(Bump(a), Bump(b), false);
  }

  lemma {:induction false} TwinStar(a: State, b: State)
    requires Twins(a, b) && Ahead(a)
    ensures TwinSteps(ParseStar(a), ParseStar(b))
  {
    SameTokens(a, b);
    TwinBump(a, b);
    hide Twins, Ahead, AtStars, TwinSteps, PushToken, Bump;
    TwinPush(a, b, ZeroOrMore);
    if Peek(a) == Some('*') {
      TwinSecondStar(Bump(a), Bump(b), a.prev);
    }
  }

  lemma {:induction false} TwinSecondStar(a: State, b: State, prev: Option<char>)
    requires Twins(a, b) && Ahead(a)
    ensures TwinSteps(ParseSecondStar(a, prev), ParseSecondStar(b, prev))
  {
    SameTokens(a, b);
    SameErrors();
    hide Twins, Ahead, AtStars, TwinSteps, PushTwoStars, ParsePrefixStars, ParseInnerStars;
    TwinTwoStars(a, b);
    if a.branches != [] {
      if LastBranch(a) == [] {
        TwinPrefixStars(a, b);
      } else {
        TwinInnerStars(a, b);
      }
    }
  }

  lemma TwinBraces(a: State, b: State)
    requires StackShape(a) && Twins(a, b) && (Ahead(a) || AtStars(a))
    ensures StackShape(b) && TwinSteps(PopAlternate(a), PopAlternate(b))
    ensures Ahead(a) ==> TwinSteps(Ok(PushAlternate(a)), Ok(PushAlternate(b))) && TwinSteps(ParseComma(a), ParseComma(b))
  {
  }

  lemma TwinRound(a: State, b: State, opts: GlobOptions)
    requires StackShape(a) && Twins(a, b) && Ahead(a)
    ensures StackShape(b) && a.chars[0] == b.chars[0]
    ensures TwinSteps(ParseChar(a.chars[0], Bump(a), opts), ParseChar(b.chars[0], Bump(b), opts))
  {
    AheadHasChars(a, b);
    TwinBump(a, b);
    SameTokens(a, b);
    SameTokens(Bump(a), Bump(b));
    TwinBraces(a, b);
    TwinBraces(Bump(a), Bump(b));
    TwinChars(a.chars[0], Bump(a), Bump(b), opts);
  }

  lemma TwinChars(c: char, a: State, b: State, opts: GlobOptions)
    requires StackShape(a) && StackShape(b) && Twins(a, b) && (Ahead(a) || (AtStars(a) && c == '/'))
    ensures TwinSteps(ParseChar(c, a, opts), ParseChar(c, b, opts))
  {
    SameTokens(a, b);
    TwinBraces(a, b);
    hide Twins, StackShape, Ahead, AtStars, TwinSteps, PushToken, ParseStar, ParseClass, PopAlternate, ParseComma,
         ParseBackslash, PushAlternate;
    match c
    case '?' => TwinPush(a, b, Any);
    case '*' => TwinStar(a, b);
    case '[' => if a.foundUnclosedClass { TwinPush(a, b, Literal(c)); } else { TwinClass(a, b, opts); }
    case '{' =>
    case '}' =>
    case ',' =>
    case '\\' => TwinBackslash(a, b, opts);
    case _ => TwinPush(a, b, Literal(c));
  }

  // What the last branches of the two parses end in.
  predicate TailPair(a: seq<Token>, b: seq<Token>) {
    a != [] &&
    var front, last := a[..|a| - 1], a[|a| - 1];
    || (last.RecursiveSuffix? && (b == front + [RecursiveZeroOrMore, ZeroOrMore] || b == front + [RecursiveSuffix, ZeroOrMore]))
    || (last.RecursivePrefix? && b == front + [RecursivePrefix, ZeroOrMore])
  }

  predicate TwinEnds(a: Step, b: Step) {
    if a.Ok? then
      && b.Ok? && |a.value.branches| == |b.value.branches| >= 1
      && TailPair(LastBranch(a.value), LastBranch(b.value))
    else a == b
  }

  lemma ReadStars(a: State, opts: GlobOptions)
    requires StackShape(a) && AtStars(a) && LastBranch(a) != []
    ensures var toks := LastBranch(a);
            && ParseLoop(a, opts).Ok? && |ParseLoop(a, opts).value.branches| == |a.branches|
            && LastBranch(ParseLoop(a, opts).value) == toks[..|toks| - 1] + [Recursive(toks[|toks| - 1], true)]
  {
    var st := Bump(a);
    var st2 := Bump(st);
    assert a.chars[1..] == "*" && st.chars[1..] == "";
    assert ParseStar(st).Ok? && ParseStar(st).value.chars == "";
    LoopRound(a, ParseStar(st).value, opts);
  }

  lemma ReadStarsSlashStar(b: State, opts: GlobOptions)
    requires StackShape(b) && b.chars == "**/*" && b.cur == Some('/') && LastBranch(b) != []
    ensures var toks := LastBranch(b);
            && ParseLoop(b, opts).Ok? && |ParseLoop(b, opts).value.branches| == |b.branches|
            && LastBranch(ParseLoop(b, opts).value) == toks[..|toks| - 1] + [Recursive(toks[|toks| - 1], false), ZeroOrMore]
  {
    hide ParseLoop, ParseChar;
    var next := ReadStarsSlash(b, opts);
    ReadLastStar(next, opts);
    var toks := LastBranch(b);
    var front, last := toks[..|toks| - 1], Recursive(toks[|toks| - 1], false);
    assert front + [last] + [ZeroOrMore] == front + [last, ZeroOrMore];
  }

  lemma {:induction false} ReadStarsSlash(b: State, opts: GlobOptions) returns (next: State)
    requires StackShape(b) && b.chars == "**/*" && b.cur == Some('/') && LastBranch(b) != []
    ensures StackShape(next) && ParseLoop(b, opts) == ParseLoop(next, opts)
    ensures next.chars == "*" && |next.branches| == |b.branches|
    ensures var toks := LastBranch(b);
            LastBranch(next) == toks[..|toks| - 1] + [Recursive(toks[|toks| - 1], false)]
  {
    hide ParseLoop;
    assert b.chars[..3] == "**/" && b.chars[3..] == "*";
    RepeatedStars.ReadCopy(b, opts);
    next := RepeatedStars.AfterCopy(b);
  }

  lemma ReadLastStar(st: State, opts: GlobOptions)
    requires StackShape(st) && st.chars == "*"
    ensures ParseLoop(st, opts).Ok? && |ParseLoop(st, opts).value.branches| == |st.branches|
    ensures LastBranch(ParseLoop(st, opts).value) == LastBranch(st) + [ZeroOrMore]
  {
    assert Bump(st).chars == "";
    var last := ParseStar(Bump(st)).value;
    LoopRound(st, last, opts);
    hide ParseStar, StackShape;
    assert ParseLoop(last, opts) == Ok(Bump(last));
  }

  // A round of both parses.
  lemma {:induction false} TwinAdvance(a: State, b: State, opts: GlobOptions) returns (next: Option<(State, State)>)
    requires StackShape(a) && StackShape(b) && Twins(a, b) && Ahead(a)
    ensures next.None? ==> TwinEnds(ParseLoop(a, opts), ParseLoop(b, opts))
    ensures next.Some? ==>
              var (a', b') := next.value;
              && StackShape(a') && StackShape(b') && Twins(a', b') && BeforeStars(a') && |a'.chars| < |a.chars|
              && ParseLoop(a, opts) == ParseLoop(a', opts) && ParseLoop(b, opts) == ParseLoop(b', opts)
  {
    TwinRound(a, b, opts);
    assert b.chars != "";
    hide ParseChar, ParseLoop, BeforeStars, Twins;
    var r, q := ParseChar(a.chars[0], Bump(a), opts), ParseChar(b.chars[0], Bump(b), opts);
    if r.Ok? {
      LoopRound(a, r.value, opts);
      LoopRound(b, q.value, opts);
      next := Some((r.value, q.value));
    } else {
      LoopError(a, opts);
      LoopError(b, opts);
      next := None;
    }
  }

  lemma TwinFinish(a: State, b: State, opts: GlobOptions)
    requires StackShape(a) && StackShape(b) && Twins(a, b) && BeforeStars(a) && !Ahead(a)
    ensures TwinEnds(ParseLoop(a, opts), ParseLoop(b, opts))
  {
    hide ParseLoop, StackShape;
    ReadStars(a, opts);
    assert a.chars + "/*" == "**/*";
    ReadStarsSlashStar(b, opts);
  }

  lemma {:induction false} TwinLoops(a: State, b: State, opts: GlobOptions)
    requires StackShape(a) && StackShape(b) && Twins(a, b) && BeforeStars(a)
    ensures TwinEnds(ParseLoop(a, opts), ParseLoop(b, opts))
    decreases |a.chars|
  {
    hide ParseLoop, TwinEnds, BeforeStars, Twins, StackShape, Ahead;
    if Ahead(a) {
      var next := TwinAdvance(a, b, opts);
      if next.Some? {
        TwinLoops(next.value.0, next.value.1, opts);
      }
    } else {
      TwinFinish(a, b, opts);
    }
  }

  // ----- the rewriting of gitignore lines -----

  lemma TailPairsAgree(a: Glob, b: Glob, path: seq<byte>)
    requires a.opts == b.opts && WellFormed(a.tokens) && TailPair(a.tokens, b.tokens)
    ensures GlobMatches(a, path) <==> GlobMatches(b, path)
  {
    hide GlobMatches, Lang;
    var n := |a.tokens| - 1;
    var front := a.tokens[..n];
    GlobLang(a, path);
    GlobLang(b, path);
    if a.tokens[n].RecursiveSuffix? {
      assert a.tokens == front + [RecursiveSuffix];
      assert |b.tokens| > 1;
      TrailingFormsAgree(front, a.opts, path);
    } else {
      assert n == 0 && front == [] && a.tokens == [RecursivePrefix];
      assert b.tokens == [RecursivePrefix, ZeroOrMore];
      GobblesAll(b.opts, path);
    }
  }

  // A glob that ends in a slash and two stars parses exactly when the form with a further slash and
  // star does, with the same error otherwise, and the two match the same paths.
  lemma RewriteKeepsMeaning(glob: string, opts: GlobOptions)
    ensures var a, b := Build(glob + "/**", opts), Build(glob + "/**/*", opts);
            if a.Err? then b == a
            else b.Ok? && forall path :: GlobMatches(a.value, path) <==> GlobMatches(b.value, path)
  {
    hide ParseLoop, GlobMatches, WellFormed;
    var s, t := Initial(glob + "/**"), Initial(glob + "/**/*");
    assert t.chars == s.chars + "/*" && EndsWith(s.chars, "/**");
    TwinLoops(s, t, opts);
    var a, b := Build(glob + "/**", opts), Build(glob + "/**/*", opts);
    if a.Ok? {
      ParsedGlobsAreWellFormed(glob + "/**", opts);
      forall path
        ensures GlobMatches(a.value, path) <==> GlobMatches(b.value, path)
      {
        TailPairsAgree(a.value, b.value, path);
      }
    }
  }
}
