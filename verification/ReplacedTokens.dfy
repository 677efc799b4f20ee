/**
 Which token a recursive `**` replaces. It is meant to be the slash in front of the stars; inside
 braces an escaped comma or brace in front of them is taken for one.
 */
module ReplacedTokens {
  import opened Wrappers
  import opened Tokens
  import opened GlobParser
  import opened ParserInvariants

  // A slash, or a recursive form that ends in one.
  predicate SlashLike(t: Token) {
    t == Literal('/') || t.RecursivePrefix? || t.RecursiveZeroOrMore?
  }

  // The character just read was `,` or `{`, escaped by a backslash.
  predicate AfterEscape(st: State) {
    st.prev == Some('\\') && (st.cur == Some(',') || st.cur == Some('{'))
  }

  function LastToken(st: State): Token
    requires st.branches != [] && LastBranch(st) != []
  {
    LastBranch(st)[|LastBranch(st)| - 1]
  }

  // What the last token says of the character just read.
  predicate Recent(st: State) {
    st.branches != [] && LastBranch(st) != [] ==>
      && (st.cur == Some('/') ==> SlashLike(LastToken(st)))
      && (|st.branches| > 1 && (st.cur == Some(',') || st.cur == Some('{')) ==>
            AfterEscape(st) && LastToken(st) == Literal(st.cur.value))
  }

  predicate KeepsRecent(r: Step) {
    r.Ok? ==> Recent(r.value)
  }

  lemma PushedLast(st: State, t: Token)
    requires st.branches != []
    ensures var r := PushToken(st, t);
            r.Ok? && LastBranch(r.value) != [] && LastToken(r.value) == t && r.value.cur == st.cur && r.value.prev == st.prev
    ensures |PushToken(st, t).value.branches| == |st.branches|
  {
  }

  // Pushing a token for a character that is neither a slash nor looks as if it started a branch.
  lemma PushRecent(st: State, t: Token)
    requires st.cur == Some('/') ==> SlashLike(t)
    requires (st.cur == Some(',') || st.cur == Some('{')) && |st.branches| > 1 ==> AfterEscape(st) && t == Literal(st.cur.value)
    ensures KeepsRecent(PushToken(st, t))
  {
    hide SlashLike, LastBranch, LastToken;
    if st.branches != [] {
      PushedLast(st, t);
    }
  }

  lemma {:induction false} ScanEndsAtBracket(st: State, ranges: seq<(char, char)>, first: bool, inRange: bool)
    requires (!first || inRange) ==> ranges != []
    ensures var r := ScanClass(st, ranges, first, inRange); r.Closed? ==> r.st.cur == Some(']')
    decreases |st.chars|
  {
    if st.chars == "" {
    } else {
      var m := ScanMove(st.chars[0], ranges, first, inRange);
      if m.Go? {
        ScanEndsAtBracket(Bump(st), m.ranges, false, m.inRange);
      }
    }
  }

  lemma ClassRecent(st: State, opts: GlobOptions)
    requires st.cur == Some('[')
    ensures KeepsRecent(ParseClass(st, opts))
  {
    hide ScanClass, PushToken, KeepsRecent, SlashLike;
    var negated := IsNegation(Peek(st));
    var from := if negated then Bump(st) else st;
    ScanEndsAtBracket(from, [], true, false);
    match ScanClass(from, [], true, false)
    case Closed(end, ranges) => PushRecent(end, Class(negated, ranges));
    case BadRange(lo, hi) => ErrorRecent(InvalidRange(lo, hi));
    case Unclosed =>
      ErrorRecent(UnclosedClass);
      PushRecent(st.(foundUnclosedClass := true), Literal('['));
  }

  lemma ErrorRecent(e: ErrorKind)
    ensures KeepsRecent(Err(e))
  {
  }

  lemma BackslashRecent(st: State, opts: GlobOptions)
    requires st.cur == Some('\\')
    ensures KeepsRecent(ParseBackslash(st, opts))
  {
    hide PushToken, KeepsRecent;
    ErrorRecent(DanglingEscape);
    PushRecent(st, Literal('\\'));
    if Bump(st).cur.Some? {
      PushRecent(Bump(st), Literal(Bump(st).cur.value));
    }
  }

  lemma BranchesRecent(st: State)
    requires StackShape(st)
    ensures st.cur == Some('{') ==> Recent(PushAlternate(st))
    ensures st.cur == Some(',') ==> KeepsRecent(ParseComma(st))
    ensures st.cur == Some('}') ==> KeepsRecent(PopAlternate(st))
  {
  }

  lemma PrefixStarsRecent(st: State)
    requires st.cur == Some('*') && st.branches != []
    ensures KeepsRecent(ParsePrefixStars(st))
  {
    TwoStarsRecent(st);
    hide PushTwoStars;
    PushedLast(st, RecursivePrefix);
  }

  lemma TwoStarsRecent(st: State)
    requires st.cur == Some('*')
    ensures KeepsRecent(PushTwoStars(st))
  {
  }

  lemma InnerStarsRecent(st: State)
    requires st.cur == Some('*') && st.branches != [] && LastBranch(st) != [] && !EndsInSuffix(LastBranch(st))
    ensures KeepsRecent(ParseInnerStars(st))
  {
    TwoStarsRecent(st);
    hide PushTwoStars;
    ReplacedLast(st, true);
    ReplacedLast(Bump(st), true);
    ReplacedLast(Bump(st), false);
  }

  lemma ReplacedLast(st: State, isSuffix: bool)
    requires st.branches != [] && LastBranch(st) != [] && !EndsInSuffix(LastBranch(st))
    ensures var after := ReplaceLast(st, isSuffix);
            && after.branches != [] && LastBranch(after) != [] && after.cur == st.cur && after.prev == st.prev
            && (!isSuffix ==> SlashLike(LastToken(after)))
  {
  }

  lemma StarRecent(st: State)
    requires st.cur == Some('*') && (st.branches != [] ==> !EndsInSuffix(LastBranch(st)))
    ensures KeepsRecent(ParseStar(st))
  {
    hide PushToken, PushTwoStars, ParsePrefixStars, ParseInnerStars, KeepsRecent, EndsInSuffix;
    PushRecent(st, ZeroOrMore);
    ErrorRecent(UnopenedAlternates);
    var st2 := Bump(st);
    if Peek(st) == Some('*') && st2.branches != [] {
      TwoStarsRecent(st2);
      PrefixStarsRecent(st2);
      if LastBranch(st2) != [] {
        InnerStarsRecent(st2);
      }
    }
  }

  lemma RoundKeepsRecent(st: State, opts: GlobOptions)
    requires Inv(st) && st.chars != ""
    ensures KeepsRecent(ParseChar(st.chars[0], Bump(st), opts))
  {
    ShapeOf(st);
    NoSuffixYet(st);
    hide StackShape, Sound, Inv, PushToken, ParseStar, ParseClass, PopAlternate, ParseComma, ParseBackslash, PushAlternate, Recent,
         KeepsRecent, EndsInSuffix;
    var c, next := st.chars[0], Bump(st);
    BranchesRecent(next);
    Opened(next);
    match c
    case '?' => PushRecent(next, Any);
    case '*' => StarRecent(next);
    case '[' => if next.foundUnclosedClass { PushRecent(next, Literal(c)); } else { ClassRecent(next, opts); }
    case '{' =>
    case '}' =>
    case ',' =>
    case '\\' => BackslashRecent(next, opts);
    case _ => PushRecent(next, Literal(c));
  }

  lemma Opened(st: State)
    ensures Recent(PushAlternate(st)) ==> KeepsRecent(Ok(PushAlternate(st)))
  {
  }

  lemma NoSuffixYet(st: State)
    requires Inv(st) && st.chars != ""
    ensures st.chars[0] == '*' ==> Bump(st).branches != [] && !EndsInSuffix(LastBranch(Bump(st)))
  {
    hide WellFormed;
    StackEntries(st);
  }

  lemma InitialRecent(glob: string)
    ensures Recent(Initial(glob))
  {
  }

  lemma {:induction false} ReachableRecent(a: State, st: State, opts: GlobOptions, n: nat)
    requires Inv(a) && Recent(a) && Reaches(a, st, opts, n)
    ensures Recent(st)
    decreases n
  {
    hide WellFormed, ParseChar, Recent;
    if n == 0 {
    } else {
      hide Sound;
      RoundKeeps(a, opts);
      RoundKeepsRecent(a, opts);
      RecentValue(ParseChar(a.chars[0], Bump(a), opts));
      ReachableRecent(ParseChar(a.chars[0], Bump(a), opts).value, st, opts, n - 1);
    }
  }

  lemma RecentValue(r: Step)
    requires r.Ok? && KeepsRecent(r)
    ensures Recent(r.value)
  {
  }

  // The parser is about to read two stars of which it thinks that they start a component.
  predicate AboutToReplace(st: State) {
    && |st.chars| >= 2 && st.chars[0] == '*' && st.chars[1] == '*'
    && st.branches != [] && LastBranch(st) != []
    && StartsComponent(st, st.cur)
  }

  // While any glob is parsed, the token in front of such stars is a slash or a recursive form,
  // unless inside braces they follow an escaped comma or brace; then it is that character.
  lemma ReplacedTokenIsSlash(glob: string, st: State, opts: GlobOptions, n: nat)
    requires Reaches(Initial(glob), st, opts, n) && AboutToReplace(st)
    ensures SlashLike(LastToken(st)) || (|st.branches| > 1 && AfterEscape(st) && LastToken(st) == Literal(st.cur.value))
    ensures |st.branches| > 1 && AfterEscape(st) ==> LastToken(st) == Literal(st.cur.value)
  {
    hide Inv;
    InitialInv(glob);
    InitialRecent(glob);
    ReachableRecent(Initial(glob), st, opts, n);
  }

  // ----- a glob that loses its comma -----

  const LOSES_COMMA := "{\\,**/x}"

  lemma ReadOpenBrace(st: State, opts: GlobOptions)
    requires st == Initial(LOSES_COMMA)
    ensures var next := State("\\,**/x}", None, Some('{'), [Tokens([]), Tokens([])], [1], false);
            StackShape(st) && StackShape(next) && ParseLoop(st, opts) == ParseLoop(next, opts)
  {
    hide ParseLoop;
    var next := State("\\,**/x}", None, Some('{'), [Tokens([]), Tokens([])], [1], false);
    var none: seq<nat> := [];
    assert st.chars[0] == '{' && st.chars[1..] == next.chars;
    assert [Tokens([])] + [Tokens([])] == next.branches && none + [1] == [1];
    assert ParseChar('{', Bump(st), opts) == Ok(next);
    LoopRound(st, next, opts);
  }

  lemma ReadEscapedComma(st: State, opts: GlobOptions)
    requires st == State("\\,**/x}", None, Some('{'), [Tokens([]), Tokens([])], [1], false) && opts.backslashEscape
    ensures var next := State("**/x}", Some('\\'), Some(','), [Tokens([]), Tokens([Literal(',')])], [1], false);
            StackShape(st) && StackShape(next) && ParseLoop(st, opts) == ParseLoop(next, opts)
  {
    hide ParseLoop;
    var next := State("**/x}", Some('\\'), Some(','), [Tokens([]), Tokens([Literal(',')])], [1], false);
    assert st.chars[0] == '\\' && st.chars[1..] == ",**/x}" && ",**/x}"[1..] == next.chars;
    assert [] + [Literal(',')] == [Literal(',')];
    assert st.branches[1 := Tokens([Literal(',')])] == next.branches;
    assert ParseChar('\\', Bump(st), opts) == Ok(next);
    LoopRound(st, next, opts);
  }

  lemma ReadStarsAsPath(st: State, opts: GlobOptions)
    requires st == State("**/x}", Some('\\'), Some(','), [Tokens([]), Tokens([Literal(',')])], [1], false)
    ensures var next := State("x}", Some('*'), Some('/'), [Tokens([]), Tokens([RecursiveZeroOrMore])], [1], false);
            StackShape(st) && StackShape(next) && ParseLoop(st, opts) == ParseLoop(next, opts)
  {
    hide ParseLoop;
    var next := State("x}", Some('*'), Some('/'), [Tokens([]), Tokens([RecursiveZeroOrMore])], [1], false);
    assert st.chars[0] == '*' && st.chars[1..] == "*/x}" && "*/x}"[1..] == "/x}" && "/x}"[1..] == next.chars;
    var stars := Bump(Bump(st));
    assert [Literal(',')][..0] + [RecursiveZeroOrMore] == [RecursiveZeroOrMore];
    assert st.branches[1 := Tokens([RecursiveZeroOrMore])] == next.branches;
    assert ParseInnerStars(stars) == Ok(next);
    assert ParseChar('*', Bump(st), opts) == Ok(next);
    LoopRound(st, next, opts);
  }

  lemma ReadLastLetter(st: State, opts: GlobOptions)
    requires st == State("x}", Some('*'), Some('/'), [Tokens([]), Tokens([RecursiveZeroOrMore])], [1], false)
    ensures var next := State("}", Some('/'), Some('x'), [Tokens([]), Tokens([RecursiveZeroOrMore, Literal('x')])], [1], false);
            StackShape(st) && StackShape(next) && ParseLoop(st, opts) == ParseLoop(next, opts)
  {
    hide ParseLoop;
    var next := State("}", Some('/'), Some('x'), [Tokens([]), Tokens([RecursiveZeroOrMore, Literal('x')])], [1], false);
    assert st.chars[0] == 'x' && st.chars[1..] == next.chars;
    assert [RecursiveZeroOrMore] + [Literal('x')] == [RecursiveZeroOrMore, Literal('x')];
    assert st.branches[1 := Tokens([RecursiveZeroOrMore, Literal('x')])] == next.branches;
    assert ParseChar('x', Bump(st), opts) == Ok(next);
    LoopRound(st, next, opts);
  }

  lemma ReadCloseBrace(st: State, opts: GlobOptions)
    requires st == State("}", Some('/'), Some('x'), [Tokens([]), Tokens([RecursiveZeroOrMore, Literal('x')])], [1], false)
    ensures StackShape(st) && ParseLoop(st, opts).Ok?
    ensures ParseLoop(st, opts).value.branches == [Tokens([Alternates([Tokens([RecursiveZeroOrMore, Literal('x')])])])]
  {
    var group := [Tokens([RecursiveZeroOrMore, Literal('x')])];
    var next := State("", Some('x'), Some('}'), [Tokens([Alternates(group)])], [], false);
    assert st.chars[0] == '}' && st.chars[1..] == "" && st.branches[1..] == group && st.branches[..1] == [Tokens([])];
    assert [] + [Alternates(group)] == [Alternates(group)] && st.stack[..0] == [];
    assert [Tokens([])][0 := Tokens([Alternates(group)])] == next.branches;
    assert ParseChar('}', Bump(st), opts) == Ok(next);
    LoopRound(st, next, opts);
    assert ParseLoop(next, opts) == Ok(Bump(next));
  }

  // `{\,**/x}` loses its comma: it is parsed as `{/**/x}`.
  lemma EscapedCommaIsLost(opts: GlobOptions)
    requires opts.backslashEscape
    ensures Build(LOSES_COMMA, opts) == Ok(Glob(LOSES_COMMA, opts, [Alternates([Tokens([RecursiveZeroOrMore, Literal('x')])])]))
  {
    hide ParseLoop;
    ReadOpenBrace(Initial(LOSES_COMMA), opts);
    ReadEscapedComma(State("\\,**/x}", None, Some('{'), [Tokens([]), Tokens([])], [1], false), opts);
    ReadStarsAsPath(State("**/x}", Some('\\'), Some(','), [Tokens([]), Tokens([Literal(',')])], [1], false), opts);
    ReadLastLetter(State("x}", Some('*'), Some('/'), [Tokens([]), Tokens([RecursiveZeroOrMore])], [1], false), opts);
    ReadCloseBrace(State("}", Some('/'), Some('x'), [Tokens([]), Tokens([RecursiveZeroOrMore, Literal('x')])], [1], false), opts);
  }
}
