/** Writing a token tree as a glob: whatever tree in canonical form, parsing what is printed gives it back. */
module PrintedGlobs {
  import opened Wrappers
  import opened Text
  import opened Tokens
  import opened GlobParser
  import opened RepeatedStars

  // ----- printing -----

  // A character that means something else by itself; a comma does so inside braces only.
  predicate IsSpecial(c: char, inside: bool, opts: GlobOptions) {
    c in ['?', '*', '[', '{', '}'] || (c == ',' && inside) || (c == '\\' && opts.backslashEscape)
  }

  function PrintRange(r: (char, char)): string {
    if r.0 == r.1 then [r.0] else [r.0, '-', r.1]
  }

  function PrintRanges(ranges: seq<(char, char)>): string {
    if ranges == [] then "" else PrintRange(ranges[0]) + PrintRanges(ranges[1..])
  }

  function PrintClass(negated: bool, ranges: seq<(char, char)>): string {
    (if negated then "[!" else "[") + (PrintRanges(ranges) + "]")
  }

  // ----- two stars -----

  // Stars behind this token would be taken for a component if they also ended one. Inside braces an
  // escaped comma or brace is taken for the start of a branch.
  predicate Opens(t: Token, inside: bool) {
    t == Literal('/') || t.RecursivePrefix? || t.RecursiveZeroOrMore? || (inside && (t == Literal(',') || t == Literal('{')))
  }

  predicate AtStart(before: seq<Token>, inside: bool) {
    before == [] || Opens(before[|before| - 1], inside)
  }

  // The tokens end in two stars that start a component.
  predicate EndsInTwoStars(toks: seq<Token>, inside: bool) {
    var n := |toks| - 2;
    n >= 0 && toks[n].ZeroOrMore? && toks[n + 1].ZeroOrMore? && AtStart(toks[..n], inside)
  }

  predicate StartsWithSlash(t: Token) {
    t == Literal('/') || t.RecursiveSuffix? || t.RecursiveZeroOrMore?
  }

  // A slash behind such stars must not end the component.
  predicate HidesSlash(before: seq<Token>, t: Token, inside: bool) {
    StartsWithSlash(t) && EndsInTwoStars(before, inside)
  }

  // ----- tokens -----

  function PrintToken(t: Token, inside: bool, opts: GlobOptions): string
    decreases t, 0
  {
    match t
    case Literal(c) => if IsSpecial(c, inside, opts) then ['\\', c] else [c]
    case Any => "?"
    case ZeroOrMore => "*"
    case RecursivePrefix => "**/"
    case RecursiveSuffix => "/**"
    case RecursiveZeroOrMore => "/**/"
    case Class(negated, ranges) => PrintClass(negated, ranges)
    case Alternates(branches) => "{" + (PrintBranches(branches, opts) + "}")
  }

  // A token behind those already printed.
  function PrintNext(before: seq<Token>, t: Token, inside: bool, opts: GlobOptions): string
    decreases t, 1
  {
    (if HidesSlash(before, t, inside) then "\\" else "") + PrintToken(t, inside, opts)
  }

  function PrintTokens(before: seq<Token>, toks: seq<Token>, inside: bool, opts: GlobOptions): string
    decreases toks
  {
    if toks == [] then ""
    else PrintNext(before, toks[0], inside, opts) + PrintTokens(before + [toks[0]], toks[1..], inside, opts)
  }

  function PrintBranches(branches: seq<Tokens>, opts: GlobOptions): string
    decreases branches
  {
    if branches == [] then ""
    else
      PrintTokens([], branches[0].list, true, opts) + (if |branches| == 1 then "" else "," + PrintBranches(branches[1..], opts))
  }

  function PrintGlob(toks: seq<Token>, opts: GlobOptions): string {
    PrintTokens([], toks, false, opts)
  }

  // ----- canonical form -----

  // What the text of a class can say: a bracket is only the first character, a dash only the first
  // or the last, or an upper bound; a mark of negation cannot come first in a class that is not
  // negated.
  predicate CanonicalRange(ranges: seq<(char, char)>, i: nat)
    requires i < |ranges|
  {
    var (lo, hi) := ranges[i];
    && lo <= hi
    && (lo == ']' ==> i == 0)
    && (hi == ']' ==> lo == ']')
    && (lo == '-' && i > 0 ==> hi == '-' && i == |ranges| - 1)
  }

  predicate CanonicalRanges(negated: bool, ranges: seq<(char, char)>) {
    && ranges != []
    && (forall i: nat | i < |ranges| :: CanonicalRange(ranges, i))
    && (!negated ==> ranges[0].0 != '!' && ranges[0].0 != '^')
  }

  // A special character can be written if backslashes escape; a group has a branch.
  predicate CanonicalToken(t: Token, inside: bool, opts: GlobOptions)
    decreases t
  {
    match t
    case Literal(c) => IsSpecial(c, inside, opts) ==> opts.backslashEscape
    case Class(negated, ranges) => CanonicalRanges(negated, ranges)
    case Alternates(branches) => branches != [] && forall b | b in branches :: Canonical(b.list, true, opts)
    case _ => true
  }

  // A recursive prefix comes first and a recursive suffix last. Two stars that start a component do
  // not end one: no branch ends there, and a slash behind them can be escaped.
  predicate Canonical(toks: seq<Token>, inside: bool, opts: GlobOptions)
    decreases toks
  {
    && (forall i | 0 <= i < |toks| ::
          && CanonicalToken(toks[i], inside, opts)
          && (toks[i].RecursivePrefix? ==> i == 0)
          && (toks[i].RecursiveSuffix? ==> i == |toks| - 1)
          && (HidesSlash(toks[..i], toks[i], inside) ==> opts.backslashEscape))
    && !EndsOpen(toks, inside)
  }

  // Where a branch ends, only two stars that are all of a branch inside braces are no component.
  predicate EndsOpen(toks: seq<Token>, inside: bool) {
    EndsInTwoStars(toks, inside) && !(inside && |toks| == 2)
  }

  // ----- reading -----

  // next is st after reading a text that stands for toks, with rest to come.
  predicate ReadAs(st: State, next: State, toks: seq<Token>, rest: string)
    requires st.branches != []
  {
    && next.chars == rest
    && next.stack == st.stack && next.foundUnclosedClass == st.foundUnclosedClass
    && next.branches == st.branches[|st.branches| - 1 := Tokens(LastBranch(st) + toks)]
  }

  // The character read last when t has been read.
  function LastChar(t: Token): char {
    match t
    case Literal(c) => c
    case Any => '?'
    case ZeroOrMore => '*'
    case RecursivePrefix => '/'
    case RecursiveSuffix => '*'
    case RecursiveZeroOrMore => '/'
    case Class(_, _) => ']'
    case Alternates(_) => '}'
  }

  // What follows a branch: the end, or inside braces a comma or a closing brace.
  predicate EndsBranch(rest: string, inside: bool) {
    if inside then rest != "" && rest[0] in [',', '}'] else rest == ""
  }

  predicate Ready(st: State, inside: bool) {
    StackShape(st) && st.branches != [] && (inside <==> st.stack != []) && !st.foundUnclosedClass
  }

  lemma ReadyNext(st: State, next: State, toks: seq<Token>, rest: string, inside: bool)
    requires Ready(st, inside) && ReadAs(st, next, toks, rest)
    ensures Ready(next, inside) && LastBranch(next) == LastBranch(st) + toks && next.chars == rest
  {
  }

  lemma ReadAsTwice(a: State, b: State, c: State, toks: seq<Token>, more: seq<Token>, mid: string, rest: string)
    requires a.branches != [] && ReadAs(a, b, toks, mid) && ReadAs(b, c, more, rest)
    ensures ReadAs(a, c, toks + more, rest)
  {
    var n := |a.branches| - 1;
    assert LastBranch(a) + toks + more == LastBranch(a) + (toks + more);
  }

  lemma ReadNothing(st: State)
    requires st.branches != []
    ensures ReadAs(st, st, [], st.chars)
  {
    assert LastBranch(st) + [] == LastBranch(st);
  }

  lemma PushIsRead(st: State, from: State, t: Token)
    requires st.branches != [] && from.branches == st.branches && from.stack == st.stack
    requires from.foundUnclosedClass == st.foundUnclosedClass
    ensures PushToken(from, t).Ok? && ReadAs(st, PushToken(from, t).value, [t], from.chars)
  {
  }

  // ----- single characters -----

  lemma PlainCharRound(c: char, st: State, rest: string, inside: bool, opts: GlobOptions)
    requires Ready(st, inside) && st.chars == [c] + rest && !IsSpecial(c, inside, opts)
    ensures ParseChar(c, Bump(st), opts) == PushToken(Bump(st), Literal(c)) && Bump(st).chars == rest && st.chars[0] == c
  {
  }

  lemma EscapedCharRound(c: char, st: State, rest: string, opts: GlobOptions)
    requires StackShape(st) && st.chars == ['\\', c] + rest && opts.backslashEscape
    ensures st.chars[0] == '\\' && Bump(Bump(st)).chars == rest && Bump(Bump(st)).cur == Some(c)
    ensures ParseChar('\\', Bump(st), opts) == PushToken(Bump(Bump(st)), Literal(c))
  {
    assert st.chars == ['\\'] + ([c] + rest);
    FirstOf('\\', [c] + rest);
    FirstOf(c, rest);
    BumpedChars(st, '\\', [c] + rest);
    BumpedChars(Bump(st), c, rest);
    ShapeAfter(st);
    hide PushToken, Bump, StackShape;
  }

  lemma ShapeAfter(st: State)
    requires StackShape(st)
    ensures StackShape(Bump(st))
  {
  }

  lemma BumpedChars(st: State, c: char, rest: string)
    requires st.chars == [c] + rest
    ensures Bump(st).chars == rest && Bump(st).cur == Some(c)
  {
  }

  lemma WildcardRound(t: Token, st: State, rest: string, opts: GlobOptions)
    requires StackShape(st) && (t.Any? || t.ZeroOrMore?) && st.chars == (if t.Any? then "?" else "*") + rest
    requires t.ZeroOrMore? ==> rest == "" || rest[0] != '*'
    ensures st.chars != "" && ParseChar(st.chars[0], Bump(st), opts) == PushToken(Bump(st), t) && Bump(st).chars == rest
    ensures Bump(st).cur == Some(LastChar(t))
  {
    assert st.chars[1..] == rest;
  }

  // One round that pushes one token.
  lemma PushRound(st: State, from: State, t: Token, inside: bool, opts: GlobOptions) returns (next: State)
    requires Ready(st, inside) && st.chars != "" && ParseChar(st.chars[0], Bump(st), opts) == PushToken(from, t)
    requires from.branches == st.branches && from.stack == st.stack && from.foundUnclosedClass == st.foundUnclosedClass
    ensures StackShape(next) && ParseLoop(st, opts) == ParseLoop(next, opts) && ReadAs(st, next, [t], from.chars)
    ensures next.cur == from.cur
  {
    hide ParseLoop, ParseChar, ReadAs;
    PushIsRead(st, from, t);
    next := PushToken(from, t).value;
    LoopRound(st, next, opts);
  }

  lemma ReadLiteral(c: char, st: State, rest: string, inside: bool, opts: GlobOptions) returns (next: State)
    requires Ready(st, inside) && st.chars == PrintToken(Literal(c), inside, opts) + rest
    requires CanonicalToken(Literal(c), inside, opts)
    ensures StackShape(next) && ParseLoop(st, opts) == ParseLoop(next, opts) && ReadAs(st, next, [Literal(c)], rest)
    ensures next.cur == Some(c)
  {
    hide ParseLoop, ParseChar, ReadAs, IsSpecial;
    if IsSpecial(c, inside, opts) {
      EscapedCharRound(c, st, rest, opts);
      assert Bump(Bump(st)).cur == Some(c) by {
        assert st.chars[1..][0] == c;
      }
      next := PushRound(st, Bump(Bump(st)), Literal(c), inside, opts);
    } else {
      PlainCharRound(c, st, rest, inside, opts);
      next := PushRound(st, Bump(st), Literal(c), inside, opts);
    }
  }

  lemma ReadWildcard(t: Token, st: State, rest: string, inside: bool, opts: GlobOptions) returns (next: State)
    requires Ready(st, inside) && (t.Any? || t.ZeroOrMore?) && st.chars == PrintToken(t, inside, opts) + rest
    requires t.ZeroOrMore? ==> rest == "" || rest[0] != '*'
    ensures StackShape(next) && ParseLoop(st, opts) == ParseLoop(next, opts) && ReadAs(st, next, [t], rest)
    ensures next.cur == Some(LastChar(t))
  {
    hide ParseLoop, ParseChar, ReadAs;
    WildcardRound(t, st, rest, opts);
    next := PushRound(st, Bump(st), t, inside, opts);
  }

  // ----- recursive forms -----

  lemma ReadPrefix(st: State, rest: string, inside: bool, opts: GlobOptions) returns (next: State)
    requires Ready(st, inside) && st.chars == PrintToken(RecursivePrefix, inside, opts) + rest && LastBranch(st) == []
    ensures StackShape(next) && ParseLoop(st, opts) == ParseLoop(next, opts) && ReadAs(st, next, [RecursivePrefix], rest)
    ensures next.cur == Some('/')
  {
    hide ParseLoop;
    assert st.chars[..3] == "**/" && st.chars[3..] == rest;
    ReadCopy(st, opts);
    next := AfterCopy(st);
    assert [] + [RecursivePrefix] == [RecursivePrefix];
  }

  // A slash, which may be escaped.
  lemma ReadSlash(st: State, hidden: bool, text: string, inside: bool, opts: GlobOptions) returns (next: State)
    requires Ready(st, inside) && st.chars == (if hidden then "\\" else "") + ("/" + text) && (hidden ==> opts.backslashEscape)
    ensures StackShape(next) && ParseLoop(st, opts) == ParseLoop(next, opts) && ReadAs(st, next, [Literal('/')], text)
    ensures next.cur == Some('/')
  {
    hide ParseLoop, ParseChar, ReadAs;
    if hidden {
      assert st.chars == ['\\', '/'] + text;
      EscapedCharRound('/', st, text, opts);
      assert Bump(Bump(st)).cur == Some('/') by {
        assert st.chars[1..][0] == '/';
      }
      next := PushRound(st, Bump(Bump(st)), Literal('/'), inside, opts);
    } else {
      assert st.chars == ['/'] + text;
      PlainCharRound('/', st, text, inside, opts);
      next := PushRound(st, Bump(st), Literal('/'), inside, opts);
    }
  }

  // The slash just read makes way for a recursive form.
  lemma SlashReplaced(st: State, mid: State, next: State, t: Token, rest: string)
    requires st.branches != [] && ReadAs(st, mid, [Literal('/')], mid.chars)
    requires next.chars == rest && next.stack == mid.stack && next.foundUnclosedClass == mid.foundUnclosedClass
    requires var toks := LastBranch(mid); next.branches == mid.branches[|mid.branches| - 1 := Tokens(toks[..|toks| - 1] + [t])]
    ensures ReadAs(st, next, [t], rest)
  {
    var toks := LastBranch(mid);
    assert toks == LastBranch(st) + [Literal('/')];
    assert toks[..|toks| - 1] == LastBranch(st);
  }

  lemma ReadInner(st: State, hidden: bool, rest: string, inside: bool, opts: GlobOptions) returns (next: State)
    requires Ready(st, inside) && (hidden ==> opts.backslashEscape)
    requires st.chars == (if hidden then "\\" else "") + ("/" + ("**/" + rest))
    ensures StackShape(next) && ParseLoop(st, opts) == ParseLoop(next, opts) && ReadAs(st, next, [RecursiveZeroOrMore], rest)
    ensures next.cur == Some('/')
  {
    hide ParseLoop, ReadAs, Ready;
    var mid := ReadSlash(st, hidden, "**/" + rest, inside, opts);
    SlashRead(st, mid, "**/" + rest, inside);
    assert mid.chars[..3] == "**/" && mid.chars[3..] == rest;
    ReadCopy(mid, opts);
    next := AfterCopy(mid);
    SlashReplaced(st, mid, next, RecursiveZeroOrMore, rest);
  }

  lemma SlashRead(st: State, mid: State, text: string, inside: bool)
    requires Ready(st, inside) && ReadAs(st, mid, [Literal('/')], text)
    ensures Ready(mid, inside) && st.branches != [] && LastBranch(mid) == LastBranch(st) + [Literal('/')] && mid.chars == text
  {
  }

  lemma StarsAtEnd(mid: State, rest: string, inside: bool, opts: GlobOptions)
    requires Ready(mid, inside) && mid.chars == "**" + rest && mid.cur == Some('/') && EndsBranch(rest, inside)
    requires LastBranch(mid) != [] && LastBranch(mid)[|LastBranch(mid)| - 1] == Literal('/')
    ensures var r, toks := ParseChar('*', Bump(mid), opts), LastBranch(mid);
            && mid.chars[0] == '*' && r.Ok? && r.value.chars == rest && r.value.stack == mid.stack
            && r.value.foundUnclosedClass == mid.foundUnclosedClass
            && r.value.branches == mid.branches[|mid.branches| - 1 := Tokens(toks[..|toks| - 1] + [RecursiveSuffix])]
  {
    hide ParseChar, ParseInnerStars, Bump, StackShape, EndsBranch;
    var one := Bump(mid);
    var two := Bump(one);
    TwoStars(mid, rest);
    StarsAreInner(one, opts);
    ReadyBranches(mid, inside);
    InnerStarsEnd(two, inside);
  }

  lemma ReadyBranches(st: State, inside: bool)
    requires Ready(st, inside)
    ensures st.branches != [] && (inside ==> |st.branches| >= 2)
  {
  }

  // After a slash, two stars are taken for a component.
  lemma StarsAreInner(one: State, opts: GlobOptions)
    requires StackShape(one) && Peek(one) == Some('*') && one.prev == Some('/')
    requires Bump(one).branches != [] && LastBranch(Bump(one)) != []
    ensures ParseChar('*', one, opts) == ParseInnerStars(Bump(one))
  {
    hide ParseInnerStars, Bump;
    assert ParseChar('*', one, opts) == ParseStar(one) == ParseSecondStar(Bump(one), one.prev);
  }

  // Where the branch ends, they are a recursive suffix.
  lemma InnerStarsEnd(two: State, inside: bool)
    requires EndsBranch(two.chars, inside) && two.branches != [] && (inside ==> |two.branches| >= 2)
    requires LastBranch(two) != [] && LastBranch(two)[|LastBranch(two)| - 1] == Literal('/')
    ensures var r, toks := ParseInnerStars(two), LastBranch(two);
            && r.Ok? && r.value.chars == two.chars && r.value.stack == two.stack
            && r.value.foundUnclosedClass == two.foundUnclosedClass
            && r.value.branches == two.branches[|two.branches| - 1 := Tokens(toks[..|toks| - 1] + [RecursiveSuffix])]
  {
    hide Bump;
    if two.chars == "" {
      AtTheEnd(two);
    }
  }

  lemma TwoStars(mid: State, rest: string)
    requires StackShape(mid) && mid.chars == "**" + rest
    ensures mid.chars[0] == '*' && StackShape(Bump(mid)) && Peek(Bump(mid)) == Some('*') && Bump(mid).prev == mid.cur
    ensures var two := Bump(Bump(mid));
            && two.chars == rest && two.branches == mid.branches && two.stack == mid.stack
            && two.foundUnclosedClass == mid.foundUnclosedClass
  {
    assert mid.chars == ['*'] + (['*'] + rest);
    FirstOf('*', ['*'] + rest);
    FirstOf('*', rest);
  }

  lemma AtTheEnd(st: State)
    requires st.chars == ""
    ensures Peek(st).None? && Bump(st).chars == "" && Bump(st).branches == st.branches && Bump(st).stack == st.stack
    ensures Bump(st).foundUnclosedClass == st.foundUnclosedClass
  {
  }

  lemma ReadSuffix(st: State, hidden: bool, rest: string, inside: bool, opts: GlobOptions) returns (next: State)
    requires Ready(st, inside) && (hidden ==> opts.backslashEscape) && EndsBranch(rest, inside)
    requires st.chars == (if hidden then "\\" else "") + ("/" + ("**" + rest))
    ensures StackShape(next) && ParseLoop(st, opts) == ParseLoop(next, opts) && ReadAs(st, next, [RecursiveSuffix], rest)
  {
    hide ParseLoop, ParseChar, ReadAs, Ready, EndsBranch;
    var mid := ReadSlash(st, hidden, "**" + rest, inside, opts);
    SlashRead(st, mid, "**" + rest, inside);
    StarsAtEnd(mid, rest, inside, opts);
    next := ParseChar('*', Bump(mid), opts).value;
    LoopRound(mid, next, opts);
    SlashReplaced(st, mid, next, RecursiveSuffix, rest);
  }

  // ----- two stars -----

  // Two stars are no component where they do not start one or something else follows.
  predicate NoComponent(st: State, rest: string, inside: bool)
    requires st.branches != []
  {
    if LastBranch(st) == [] then rest != "" && rest[0] != '/'
    else Opens(LastToken(st), inside) ==> rest != "" && rest[0] != '/' && !(inside && rest[0] in [',', '}'])
  }

  function LastToken(st: State): Token
    requires st.branches != [] && LastBranch(st) != []
  {
    LastBranch(st)[|LastBranch(st)| - 1]
  }

  // The character read last is that of the last token.
  predicate Tells(st: State)
    requires st.branches != []
  {
    LastBranch(st) != [] ==> st.cur == Some(LastChar(LastToken(st)))
  }

  lemma OpensComponent(st: State, inside: bool)
    requires Ready(st, inside) && LastBranch(st) != [] && Tells(st)
    ensures StartsComponent(st, st.cur) <==> Opens(LastToken(st), inside)
  {
  }

  lemma PairRound(st: State, rest: string, inside: bool, opts: GlobOptions)
    requires Ready(st, inside) && Tells(st) && st.chars == "**" + rest && NoComponent(st, rest, inside)
    ensures st.chars[0] == '*' && StackShape(Bump(st)) && ParseChar('*', Bump(st), opts) == PushTwoStars(Bump(Bump(st)))
  {
    TwoStars(st, rest);
    ReadyBranches(st, inside);
    if LastBranch(st) != [] {
      OpensComponent(st, inside);
    }
    hide StackShape, PushToken, PushTwoStars, Opens, Tells, LastToken;
    var two := Bump(Bump(st));
    assert ParseChar('*', Bump(st), opts) == ParseStar(Bump(st)) == ParseSecondStar(two, st.cur);
  }

  lemma ReadPair(st: State, rest: string, inside: bool, opts: GlobOptions) returns (next: State)
    requires Ready(st, inside) && Tells(st) && st.chars == "**" + rest && NoComponent(st, rest, inside)
    ensures StackShape(next) && ParseLoop(st, opts) == ParseLoop(next, opts) && ReadAs(st, next, [ZeroOrMore, ZeroOrMore], rest)
    ensures next.cur == Some('*')
  {
    hide ParseLoop, ParseChar, Tells, NoComponent;
    PairRound(st, rest, inside, opts);
    TwoStars(st, rest);
    var two := Bump(Bump(st));
    SecondIsStar(st, rest);
    PairPushed(st, two);
    hide Bump, ReadAs, PushTwoStars;
    next := PushTwoStars(two).value;
    ReadyShape(st, inside);
    LoopRound(st, next, opts);
  }

  lemma SecondIsStar(st: State, rest: string)
    requires st.chars == "**" + rest
    ensures Bump(Bump(st)).cur == Some('*')
  {
    assert st.chars[1] == '*';
  }

  lemma PairPushed(st: State, two: State)
    requires st.branches != [] && two.branches == st.branches && two.stack == st.stack && two.foundUnclosedClass == st.foundUnclosedClass
    ensures PushTwoStars(two).Ok? && ReadAs(st, PushTwoStars(two).value, [ZeroOrMore, ZeroOrMore], two.chars)
    ensures PushTwoStars(two).value.cur == two.cur
  {
    assert LastBranch(st) + [ZeroOrMore] + [ZeroOrMore] == LastBranch(st) + [ZeroOrMore, ZeroOrMore];
  }

  // ----- classes -----

  // The state has only moved on.
  predicate MovedOn(st: State, end: State, rest: string) {
    end.chars == rest && end.branches == st.branches && end.stack == st.stack && end.foundUnclosedClass == st.foundUnclosedClass
  }

  lemma SingleMove(lo: char, ranges: seq<(char, char)>, first: bool)
    requires !first ==> ranges != [] && lo != ']' && lo != '-'
    ensures ScanMove(lo, ranges, first, false) == Go(ranges + [(lo, lo)], false)
  {
  }

  lemma RangeMoves(lo: char, hi: char, ranges: seq<(char, char)>)
    requires lo <= hi && hi != ']'
    ensures ScanMove('-', ranges + [(lo, lo)], false, false) == Go(ranges + [(lo, lo)], true)
    ensures ScanMove(hi, ranges + [(lo, lo)], false, true) == Go(ranges + [(lo, hi)], false)
  {
    var all := ranges + [(lo, lo)];
    assert all[|all| - 1 := (lo, hi)] == ranges + [(lo, hi)];
  }

  lemma OneMove(st: State, c: char, rest: string, ranges: seq<(char, char)>, first: bool, inRange: bool)
    requires st.chars == [c] + rest && ((!first || inRange) ==> ranges != [])
    ensures Bump(st).chars == rest && MovedOn(st, Bump(st), rest) && Bump(st).cur == Some(c)
    ensures match ScanMove(c, ranges, first, inRange)
            case Close(closed) => ScanClass(st, ranges, first, inRange) == Closed(Bump(st), closed)
            case Bad(_, _) => true
            case Go(more, joining) => ScanClass(st, ranges, first, inRange) == ScanClass(Bump(st), more, false, joining)
  {
    assert st.chars[0] == c && st.chars[1..] == rest;
  }

  // Reading one range that is not a dash at the end.
  lemma ReadRange(st: State, done: seq<(char, char)>, r: (char, char), rest: string) returns (end: State)
    requires st.chars == PrintRange(r) + rest && r.0 <= r.1 && (r.1 == ']' ==> r.0 == ']')
    requires done != [] ==> r.0 != ']' && r.0 != '-'
    ensures MovedOn(st, end, rest)
    ensures ScanClass(st, done, done == [], false) == ScanClass(end, done + [r], false, false)
  {
    hide ScanMove, ScanClass, Bump;
    var (lo, hi) := r;
    SingleMove(lo, done, done == []);
    if lo == hi {
      OneMove(st, lo, rest, done, done == [], false);
      end := Bump(st);
    } else {
      assert st.chars == [lo] + (['-'] + ([hi] + rest));
      RangeMoves(lo, hi, done);
      var one := Bump(st);
      OneMove(st, lo, ['-'] + ([hi] + rest), done, done == [], false);
      var two := Bump(one);
      OneMove(one, '-', [hi] + rest, done + [(lo, lo)], false, false);
      OneMove(two, hi, rest, done + [(lo, lo)], false, true);
      end := Bump(two);
    }
  }

  lemma ReadClosing(st: State, ranges: seq<(char, char)>, rest: string)
    requires ranges != [] && st.chars == "]" + rest
    ensures MovedOn(st, Bump(st), rest) && Bump(st).cur == Some(']')
    ensures ScanClass(st, ranges, false, false) == Closed(Bump(st), ranges)
  {
    assert st.chars[1..] == rest;
  }

  lemma ReadLastDash(st: State, ranges: seq<(char, char)>, rest: string) returns (end: State)
    requires ranges != [] && st.chars == "-" + ("]" + rest)
    ensures MovedOn(st, end, rest) && end.cur == Some(']')
    ensures ScanClass(st, ranges, false, false) == Closed(end, ranges + [('-', '-')])
  {
    hide ScanClass, Bump;
    OneMove(st, '-', "]" + rest, ranges, false, false);
    OneMove(Bump(st), ']', rest, ranges, false, true);
    end := Bump(Bump(st));
  }

  // Reading the ranges from the i-th on, and the closing bracket.
  lemma {:induction false} ReadRanges(st: State, ranges: seq<(char, char)>, i: nat, rest: string) returns (end: State)
    requires i <= |ranges| && ranges != [] && forall k: nat | k < |ranges| :: CanonicalRange(ranges, k)
    requires st.chars == PrintRanges(ranges[i..]) + ("]" + rest)
    ensures MovedOn(st, end, rest) && end.cur == Some(']')
    ensures ScanClass(st, ranges[..i], i == 0, false) == Closed(end, ranges)
    decreases |ranges| - i
  {
    hide ScanClass, PrintRange, Bump;
    if i == |ranges| {
      assert ranges[..i] == ranges && PrintRanges(ranges[i..]) + ("]" + rest) == "]" + rest;
      ReadClosing(st, ranges, rest);
      end := Bump(st);
    } else {
      assert CanonicalRange(ranges, i);
      assert ranges[i..][0] == ranges[i] && ranges[i..][1..] == ranges[i + 1..];
      assert ranges[..i + 1] == ranges[..i] + [ranges[i]];
      if i > 0 && ranges[i].0 == '-' {
        LastDash(ranges, i);
        assert st.chars == "-" + ("]" + rest);
        end := ReadLastDash(st, ranges[..i], rest);
        assert ranges[..i + 1] == ranges;
      } else {
        var more := PrintRanges(ranges[i + 1..]) + ("]" + rest);
        assert st.chars == PrintRange(ranges[i]) + more;
        var mid := ReadRange(st, ranges[..i], ranges[i], more);
        end := ReadRanges(mid, ranges, i + 1, rest);
      }
    }
  }

  lemma LastDash(ranges: seq<(char, char)>, i: nat)
    requires 0 < i < |ranges| && CanonicalRange(ranges, i) && ranges[i].0 == '-'
    ensures i == |ranges| - 1 && ranges[i] == ('-', '-') && PrintRanges(ranges[i..]) == "-"
  {
    assert ranges[i..] == [('-', '-')];
  }

  lemma FirstOfRanges(ranges: seq<(char, char)>, rest: string)
    requires ranges != []
    ensures var text := PrintRanges(ranges) + rest; text != "" && text[0] == ranges[0].0
  {
  }

  lemma ReadClass(negated: bool, ranges: seq<(char, char)>, st: State, rest: string, inside: bool, opts: GlobOptions)
    returns (next: State)
    requires Ready(st, inside) && CanonicalToken(Class(negated, ranges), inside, opts)
    requires st.chars == PrintToken(Class(negated, ranges), inside, opts) + rest
    ensures StackShape(next) && ParseLoop(st, opts) == ParseLoop(next, opts)
    ensures ReadAs(st, next, [Class(negated, ranges)], rest) && next.cur == Some(']')
  {
    ClassText(negated, ranges, st, rest, inside, opts);
    hide ParseLoop, ParseChar, ReadAs, ScanClass, Ready, CanonicalToken, PrintToken, CanonicalRange, PrintRanges, Bump;
    var from := if negated then Bump(Bump(st)) else Bump(st);
    var end := ReadRanges(from, ranges, 0, rest);
    ReadyShape(st, inside);
    ClassRound(st, from, end, negated, ranges, opts);
    next := PushRound(st, end, Class(negated, ranges), inside, opts);
  }

  // Where the ranges of a class start.
  lemma ClassText(negated: bool, ranges: seq<(char, char)>, st: State, rest: string, inside: bool, opts: GlobOptions)
    requires Ready(st, inside) && CanonicalToken(Class(negated, ranges), inside, opts)
    requires st.chars == PrintToken(Class(negated, ranges), inside, opts) + rest
    ensures ranges != [] && forall k: nat | k < |ranges| :: CanonicalRange(ranges, k)
    ensures st.chars != "" && st.chars[0] == '[' && !st.foundUnclosedClass
    ensures IsNegation(Peek(Bump(st))) == negated
    ensures var from := if negated then Bump(Bump(st)) else Bump(st);
            && from.chars == PrintRanges(ranges[0..]) + ("]" + rest) && ranges[..0] == []
            && from.branches == st.branches && from.stack == st.stack && !from.foundUnclosedClass
  {
    hide CanonicalRange, PrintRanges, StackShape;
    var text := PrintRanges(ranges) + ("]" + rest);
    assert ranges[0..] == ranges;
    FirstOfRanges(ranges, "]" + rest);
    if negated {
      assert st.chars == ['['] + (['!'] + text);
      FirstOf('[', ['!'] + text);
      FirstOf('!', text);
    } else {
      assert st.chars == ['['] + text;
      FirstOf('[', text);
    }
  }

  lemma ClassRound(st: State, from: State, end: State, negated: bool, ranges: seq<(char, char)>, opts: GlobOptions)
    requires StackShape(st) && st.chars != "" && st.chars[0] == '[' && !st.foundUnclosedClass
    requires IsNegation(Peek(Bump(st))) == negated && from == (if negated then Bump(Bump(st)) else Bump(st))
    requires ScanClass(from, [], true, false) == Closed(end, ranges)
    ensures ParseChar('[', Bump(st), opts) == PushToken(end, Class(negated, ranges))
  {
    hide ScanClass;
  }

  // ----- groups, tokens and branches -----

  // What the first printed character is not.
  lemma FirstPrinted(before: seq<Token>, t: Token, inside: bool, opts: GlobOptions)
    requires CanonicalToken(t, inside, opts) && !t.RecursivePrefix?
    ensures var text := PrintNext(before, t, inside, opts);
            && text != "" && (text[0] == '*' ==> t.ZeroOrMore?)
            && (EndsInTwoStars(before, inside) ==> text[0] != '/' && !(inside && text[0] in [',', '}']))
  {
    hide EndsInTwoStars, PrintBranches, PrintRanges, CanonicalRanges, Canonical;
    TokenText(t, inside, opts);
  }

  lemma TokenText(t: Token, inside: bool, opts: GlobOptions)
    requires CanonicalToken(t, inside, opts) && !t.RecursivePrefix?
    ensures var text := PrintToken(t, inside, opts);
            && text != "" && (text[0] == '*' ==> t.ZeroOrMore?) && (text[0] == '/' ==> StartsWithSlash(t))
            && !(inside && text[0] in [',', '}'])
  {
    hide PrintBranches, PrintRanges, CanonicalRanges, Canonical;
  }

  lemma {:induction false} ReadToken(t: Token, st: State, hidden: bool, rest: string, inside: bool, opts: GlobOptions)
    returns (next: State)
    requires Ready(st, inside) && st.chars == (if hidden then "\\" else "") + (PrintToken(t, inside, opts) + rest)
    requires CanonicalToken(t, inside, opts) && (hidden ==> StartsWithSlash(t) && opts.backslashEscape)
    requires t.RecursivePrefix? ==> LastBranch(st) == []
    requires t.RecursiveSuffix? ==> EndsBranch(rest, inside)
    requires t.ZeroOrMore? ==> rest == "" || rest[0] != '*'
    ensures StackShape(next) && ParseLoop(st, opts) == ParseLoop(next, opts) && ReadAs(st, next, [t], rest)
    ensures !t.RecursiveSuffix? ==> next.cur == Some(LastChar(t))
    decreases t, 0
  {
    hide ParseLoop, ReadAs, Ready, EndsBranch, LastBranch, CanonicalToken;
    TextOf(t, hidden, rest, inside, opts);
    hide PrintToken;
    match t {
      case Literal(c) =>
        if hidden {
          next := ReadSlash(st, true, rest, inside, opts);
        } else {
          next := ReadLiteral(c, st, rest, inside, opts);
        }
      case Any => next := ReadWildcard(t, st, rest, inside, opts);
      case ZeroOrMore => next := ReadWildcard(t, st, rest, inside, opts);
      case RecursivePrefix => next := ReadPrefix(st, rest, inside, opts);
      case RecursiveSuffix => next := ReadSuffix(st, hidden, rest, inside, opts);
      case RecursiveZeroOrMore => next := ReadInner(st, hidden, rest, inside, opts);
      case Class(negated, ranges) => next := ReadClass(negated, ranges, st, rest, inside, opts);
      case Alternates(branches) =>
        GroupText(branches, rest, inside, opts);
        var inner := ReadOpening(st, PrintBranches(branches, opts) + ("}" + rest), inside, opts);
        var closing := ReadBranches(branches, [], st.branches, inner, "}" + rest, opts);
        next := ReadClosingBrace(st, closing, branches, rest, inside, opts);
    }
  }

  lemma TextOf(t: Token, hidden: bool, rest: string, inside: bool, opts: GlobOptions)
    requires hidden ==> StartsWithSlash(t)
    ensures var text := (if hidden then "\\" else "") + (PrintToken(t, inside, opts) + rest);
            && (!hidden ==> text == PrintToken(t, inside, opts) + rest)
            && (t == Literal('/') ==> text == (if hidden then "\\" else "") + ("/" + rest))
            && (t.RecursiveSuffix? ==> text == (if hidden then "\\" else "") + ("/" + ("**" + rest)))
            && (t.RecursiveZeroOrMore? ==> text == (if hidden then "\\" else "") + ("/" + ("**/" + rest)))
  {
    hide PrintBranches, PrintClass;
    assert "/**" + rest == "/" + ("**" + rest) && "/**/" + rest == "/" + ("**/" + rest);
  }

  lemma GroupText(branches: seq<Tokens>, rest: string, inside: bool, opts: GlobOptions)
    requires CanonicalToken(Alternates(branches), inside, opts)
    ensures PrintToken(Alternates(branches), inside, opts) + rest == "{" + (PrintBranches(branches, opts) + ("}" + rest))
    ensures branches != [] && forall b | b in branches :: Canonical(b.list, true, opts)
  {
    hide PrintBranches, Canonical;
  }

  // Inside the braces opened at outer, with these branches read.
  predicate Within(outer: seq<Tokens>, done: seq<Tokens>, st: State) {
    && Ready(st, true)
    && st.stack[|st.stack| - 1] == |outer|
    && st.branches == outer + done
  }

  lemma ReadOpening(st: State, text: string, inside: bool, opts: GlobOptions) returns (next: State)
    requires Ready(st, inside) && st.chars == "{" + text
    ensures StackShape(next) && ParseLoop(st, opts) == ParseLoop(next, opts)
    ensures next.chars == text && Within(st.branches, [Tokens([])], next) && next.stack == st.stack + [|st.branches|]
  {
    hide ParseLoop;
    assert st.chars[1..] == text;
    next := PushAlternate(Bump(st));
    LoopRound(st, next, opts);
  }

  lemma ReadClosingBrace(st: State, closing: State, branches: seq<Tokens>, rest: string, inside: bool, opts: GlobOptions)
    returns (next: State)
    requires Ready(st, inside) && Within(st.branches, branches, closing) && closing.chars == "}" + rest
    requires closing.stack == st.stack + [|st.branches|]
    ensures StackShape(next) && ParseLoop(closing, opts) == ParseLoop(next, opts)
    ensures ReadAs(st, next, [Alternates(branches)], rest) && next.cur == Some('}')
  {
    hide ParseLoop;
    Popped(st, closing, branches, rest, inside);
    var from := st.(chars := rest, prev := closing.cur, cur := Some('}'));
    ReadyShape(st, inside);
    hide StackShape, PopAlternate, Ready, Within, Bump, ReadAs, ParseChar;
    ClosingPops(Bump(closing), opts);
    PushIsRead(st, from, Alternates(branches));
    next := PushToken(from, Alternates(branches)).value;
    LoopRound(closing, next, opts);
  }

  lemma ClosingPops(st: State, opts: GlobOptions)
    requires StackShape(st)
    ensures ParseChar('}', st, opts) == PopAlternate(st)
  {
    hide StackShape, PopAlternate, PushToken, ParseStar, ParseClass;
  }

  // Closing the group pushes it to the branch in which it was opened.
  lemma Popped(st: State, closing: State, branches: seq<Tokens>, rest: string, inside: bool)
    requires Ready(st, inside) && Within(st.branches, branches, closing) && closing.chars == "}" + rest
    requires closing.stack == st.stack + [|st.branches|]
    ensures closing.chars[0] == '}' && StackShape(closing) && StackShape(Bump(closing))
    ensures PopAlternate(Bump(closing)) == PushToken(st.(chars := rest, prev := closing.cur, cur := Some('}')), Alternates(branches))
  {
    FirstOf('}', rest);
    assert closing.chars[1..] == rest;
    assert closing.branches[|st.branches|..] == branches && closing.branches[..|st.branches|] == st.branches;
    assert closing.stack[..|closing.stack| - 1] == st.stack;
  }

  lemma ReadComma(st: State, outer: seq<Tokens>, done: seq<Tokens>, text: string, opts: GlobOptions) returns (next: State)
    requires Within(outer, done, st) && st.chars == "," + text
    ensures StackShape(next) && ParseLoop(st, opts) == ParseLoop(next, opts)
    ensures next.chars == text && Within(outer, done + [Tokens([])], next) && next.stack == st.stack
  {
    hide ParseLoop;
    assert st.chars[1..] == text;
    next := Bump(st).(branches := st.branches + [Tokens([])]);
    assert (outer + done) + [Tokens([])] == outer + (done + [Tokens([])]);
    LoopRound(st, next, opts);
  }

  lemma BranchRead(outer: seq<Tokens>, done: seq<Tokens>, st: State, next: State, b: Tokens, rest: string)
    requires Within(outer, done + [Tokens([])], st) && st.branches != [] && ReadAs(st, next, b.list, rest) && StackShape(next)
    ensures Within(outer, done + [b], next) && next.stack == st.stack && next.chars == rest
  {
    var n := |st.branches| - 1;
    assert st.branches[n] == Tokens([]) && [] + b.list == b.list;
    assert st.branches[n := b] == outer + (done + [b]);
  }

  // All the branches of a group, one after another.
  lemma {:induction false} ReadBranches(branches: seq<Tokens>, done: seq<Tokens>, outer: seq<Tokens>, st: State, rest: string,
                                        opts: GlobOptions)
    returns (next: State)
    requires branches != [] && forall b | b in branches :: Canonical(b.list, true, opts)
    requires Within(outer, done + [Tokens([])], st) && st.chars == PrintBranches(branches, opts) + rest
    requires rest != "" && rest[0] == '}'
    ensures StackShape(next) && ParseLoop(st, opts) == ParseLoop(next, opts)
    ensures Within(outer, done + branches, next) && next.chars == rest && next.stack == st.stack
    decreases branches, 3
  {
    hide ParseLoop, ReadAs, PrintTokens, PrintBranches, Canonical, Ready, Within, LastBranch, StackShape, Tells;
    var b := branches[0];
    var after := if |branches| == 1 then rest else "," + (PrintBranches(branches[1..], opts) + rest);
    assert b in branches;
    BranchText(branches, rest, opts);
    AfterBranch(branches, rest, opts);
    WithinIsReady(outer, done + [Tokens([])], st);
    NewBranchIsEmpty(outer, done, st);
    assert [] + b.list == b.list;
    var read := ReadTokens(b.list, st, after, true, opts);
    BranchRead(outer, done, st, read, b, after);
    if |branches| == 1 {
      assert branches == [b];
      next := read;
    } else {
      var comma := ReadComma(read, outer, done + [b], PrintBranches(branches[1..], opts) + rest, opts);
      next := ReadBranches(branches[1..], done + [b], outer, comma, rest, opts);
      OneBranchMore(done, branches);
    }
  }

  lemma OneBranchMore(done: seq<Tokens>, branches: seq<Tokens>)
    requires branches != []
    ensures (done + [branches[0]]) + branches[1..] == done + branches
  {
  }

  lemma BranchText(branches: seq<Tokens>, rest: string, opts: GlobOptions)
    requires branches != []
    ensures PrintBranches(branches, opts) + rest
         == PrintTokens([], branches[0].list, true, opts)
            + (if |branches| == 1 then rest else "," + (PrintBranches(branches[1..], opts) + rest))
  {
    hide PrintTokens;
  }

  lemma AfterBranch(branches: seq<Tokens>, rest: string, opts: GlobOptions)
    requires branches != [] && rest != "" && rest[0] == '}'
    ensures EndsBranch(if |branches| == 1 then rest else "," + (PrintBranches(branches[1..], opts) + rest), true)
  {
  }

  lemma WithinIsReady(outer: seq<Tokens>, done: seq<Tokens>, st: State)
    requires Within(outer, done, st)
    ensures Ready(st, true)
  {
  }

  lemma NewBranchIsEmpty(outer: seq<Tokens>, done: seq<Tokens>, st: State)
    requires Within(outer, done + [Tokens([])], st)
    ensures st.branches != [] && LastBranch(st) == [] && Tells(st)
  {
  }

  // The next token, or the next two if they are stars.
  lemma {:induction false} ReadSome(toks: seq<Token>, st: State, rest: string, inside: bool, opts: GlobOptions)
    returns (mid: State, k: nat)
    requires toks != []
    requires Ready(st, inside) && Tells(st) && Canonical(LastBranch(st) + toks, inside, opts) && EndsBranch(rest, inside)
    requires st.chars == PrintTokens(LastBranch(st), toks, inside, opts) + rest
    ensures 1 <= k <= |toks| && StackShape(mid) && ParseLoop(st, opts) == ParseLoop(mid, opts) && st.branches != []
    ensures ReadAs(st, mid, toks[..k], PrintTokens(LastBranch(st) + toks[..k], toks[k..], inside, opts) + rest)
    ensures k < |toks| ==> mid.cur == Some(LastChar(toks[k - 1]))
    decreases toks, 1
  {
    hide ParseLoop, ReadAs, EndsBranch, PrintTokens, Canonical, CanonicalToken, Ready, Tells, StackShape, LastBranch;
    ReadyShape(st, inside);
    var before := LastBranch(st);
    if |toks| > 1 && toks[0].ZeroOrMore? && toks[1].ZeroOrMore? {
      k := 2;
      assert toks[..k] == [ZeroOrMore, ZeroOrMore];
      PairText(before, toks, rest, inside, opts);
      PairIsNoComponent(st, toks, rest, inside, opts);
      mid := ReadPair(st, PrintTokens(before + toks[..k], toks[k..], inside, opts) + rest, inside, opts);
    } else {
      k := 1;
      assert toks[..k] == [toks[0]];
      NextText(before, toks, rest, inside, opts);
      NextIsCanonical(before, toks, rest, inside, opts);
      NextIsNotStar(before, toks, rest, inside, opts);
      mid := ReadToken(toks[0], st, HidesSlash(before, toks[0], inside),
                       PrintTokens(before + toks[..k], toks[k..], inside, opts) + rest, inside, opts);
    }
  }

  // The rest of a branch, of which the tokens of st have been read.
  lemma {:induction false} ReadTokens(toks: seq<Token>, st: State, rest: string, inside: bool, opts: GlobOptions) returns (next: State)
    requires Ready(st, inside) && Tells(st) && Canonical(LastBranch(st) + toks, inside, opts) && EndsBranch(rest, inside)
    requires st.chars == PrintTokens(LastBranch(st), toks, inside, opts) + rest
    ensures StackShape(next) && ParseLoop(st, opts) == ParseLoop(next, opts) && ReadAs(st, next, toks, rest)
    decreases toks, 2
  {
    hide ParseLoop, ReadAs, EndsBranch, PrintTokens, Canonical, CanonicalToken, Ready, Tells, StackShape, LastBranch;
    ReadyShape(st, inside);
    var before := LastBranch(st);
    if toks == [] {
      NoMoreText(before, rest, inside, opts);
      ReadNothing(st);
      next := st;
    } else {
      var mid, k := ReadSome(toks, st, rest, inside, opts);
      var read, more := toks[..k], toks[k..];
      var text := PrintTokens(before + read, more, inside, opts) + rest;
      ReadyNext(st, mid, read, text, inside);
      ReadyShape(mid, inside);
      assert read + more == toks;
      if more == [] {
        NoMoreText(before + read, rest, inside, opts);
        assert read == toks && text == rest;
        next := mid;
      } else {
        MidTells(mid, before, read);
        assert before + read + more == before + toks;
        next := ReadTokens(more, mid, rest, inside, opts);
        ReadAsTwice(st, mid, next, read, more, text, rest);
      }
    }
  }

  lemma NoMoreText(before: seq<Token>, rest: string, inside: bool, opts: GlobOptions)
    ensures PrintTokens(before, [], inside, opts) + rest == rest
  {
  }

  lemma MidTells(mid: State, before: seq<Token>, toks: seq<Token>)
    requires mid.branches != [] && toks != [] && LastBranch(mid) == before + toks && mid.cur == Some(LastChar(toks[|toks| - 1]))
    ensures Tells(mid)
  {
  }

  // The text of one token more.
  lemma NextText(before: seq<Token>, toks: seq<Token>, rest: string, inside: bool, opts: GlobOptions)
    requires toks != []
    ensures PrintTokens(before, toks, inside, opts) + rest
         == (if HidesSlash(before, toks[0], inside) then "\\" else "")
            + (PrintToken(toks[0], inside, opts) + (PrintTokens(before + [toks[0]], toks[1..], inside, opts) + rest))
  {
    hide PrintToken, HidesSlash;
  }

  lemma PairText(before: seq<Token>, toks: seq<Token>, rest: string, inside: bool, opts: GlobOptions)
    requires |toks| > 1 && toks[0].ZeroOrMore? && toks[1].ZeroOrMore?
    ensures PrintTokens(before, toks, inside, opts) + rest
         == "**" + (PrintTokens(before + [ZeroOrMore, ZeroOrMore], toks[2..], inside, opts) + rest)
  {
    hide EndsInTwoStars, PrintTokens;
    NextText(before, toks, rest, inside, opts);
    NextText(before + [ZeroOrMore], toks[1..], rest, inside, opts);
    assert before + [ZeroOrMore] + [ZeroOrMore] == before + [ZeroOrMore, ZeroOrMore] && toks[1..][1..] == toks[2..];
  }

  // What canonical form says of the token that comes next.
  lemma NextIsCanonical(before: seq<Token>, toks: seq<Token>, rest: string, inside: bool, opts: GlobOptions)
    requires toks != [] && Canonical(before + toks, inside, opts) && EndsBranch(rest, inside)
    ensures CanonicalToken(toks[0], inside, opts) && (HidesSlash(before, toks[0], inside) ==> opts.backslashEscape)
    ensures toks[0].RecursivePrefix? ==> before == []
    ensures toks[0].RecursiveSuffix? ==> |toks| == 1 && EndsBranch(PrintTokens(before + [toks[0]], toks[1..], inside, opts) + rest, inside)
  {
    hide CanonicalToken, HidesSlash, EndsOpen, EndsBranch;
    var all := before + toks;
    assert all[|before|] == toks[0] && all[..|before|] == before;
    NoMoreText(before + [toks[0]], rest, inside, opts);
  }

  // Behind a single star no other star follows.
  lemma NextIsNotStar(before: seq<Token>, toks: seq<Token>, rest: string, inside: bool, opts: GlobOptions)
    requires toks != [] && Canonical(before + toks, inside, opts) && EndsBranch(rest, inside)
    requires toks[0].ZeroOrMore? && |toks| > 1 ==> !toks[1].ZeroOrMore?
    ensures var more := PrintTokens(before + [toks[0]], toks[1..], inside, opts) + rest;
            toks[0].ZeroOrMore? ==> more == "" || more[0] != '*'
  {
    hide CanonicalToken, HidesSlash, EndsOpen, PrintTokens;
    if |toks| == 1 {
      assert toks[1..] == [];
      NoMoreText(before + [toks[0]], rest, inside, opts);
    } else {
      var all := before + toks;
      assert all[|before| + 1] == toks[1];
      FirstPrinted(before + [toks[0]], toks[1], inside, opts);
      FirstOfNext(before + [toks[0]], toks[1..], rest, inside, opts);
    }
  }

  lemma FirstOfNext(before: seq<Token>, toks: seq<Token>, rest: string, inside: bool, opts: GlobOptions)
    requires toks != [] && PrintNext(before, toks[0], inside, opts) != ""
    ensures var text := PrintTokens(before, toks, inside, opts) + rest;
            text != "" && text[0] == PrintNext(before, toks[0], inside, opts)[0]
  {
    hide PrintNext;
  }

  lemma PairEnds(before: seq<Token>, inside: bool)
    ensures EndsInTwoStars(before + [ZeroOrMore, ZeroOrMore], inside) <==> AtStart(before, inside)
    ensures EndsOpen(before + [ZeroOrMore, ZeroOrMore], inside) <==> AtStart(before, inside) && !(inside && before == [])
  {
    assert (before + [ZeroOrMore, ZeroOrMore])[..|before|] == before;
  }

  // Two stars where a branch ends.
  lemma PairAtEnd(st: State, rest: string, inside: bool)
    requires st.branches != [] && EndsBranch(rest, inside) && !EndsOpen(LastBranch(st) + [ZeroOrMore, ZeroOrMore], inside)
    ensures NoComponent(st, rest, inside)
  {
    PairEnds(LastBranch(st), inside);
  }

  // Two stars in front of a character that does not end a component.
  lemma PairInFront(st: State, rest: string, inside: bool)
    requires st.branches != []
    requires EndsInTwoStars(LastBranch(st) + [ZeroOrMore, ZeroOrMore], inside) ==>
               rest != "" && rest[0] != '/' && !(inside && rest[0] in [',', '}'])
    ensures NoComponent(st, rest, inside)
  {
    PairEnds(LastBranch(st), inside);
  }

  lemma CanonicalAt(all: seq<Token>, i: nat, inside: bool, opts: GlobOptions)
    requires Canonical(all, inside, opts) && 0 < i
    ensures i < |all| ==> CanonicalToken(all[i], inside, opts) && !all[i].RecursivePrefix?
    ensures !EndsOpen(all, inside)
  {
  }

  // Two stars of a tree in canonical form are printed where they are no component.
  lemma PairIsNoComponent(st: State, toks: seq<Token>, rest: string, inside: bool, opts: GlobOptions)
    requires st.branches != [] && |toks| > 1 && toks[0].ZeroOrMore? && toks[1].ZeroOrMore?
    requires Canonical(LastBranch(st) + toks, inside, opts) && EndsBranch(rest, inside)
    ensures NoComponent(st, PrintTokens(LastBranch(st) + [ZeroOrMore, ZeroOrMore], toks[2..], inside, opts) + rest, inside)
  {
    hide Canonical, CanonicalToken, PrintTokens, PrintNext, NoComponent, EndsBranch, EndsOpen, EndsInTwoStars;
    var before, pair, more := LastBranch(st), [ZeroOrMore, ZeroOrMore], toks[2..];
    var all := before + toks;
    CanonicalAt(all, |before| + 2, inside, opts);
    if |toks| == 2 {
      assert all == before + pair && more == [];
      NoMoreText(before + pair, rest, inside, opts);
      PairAtEnd(st, rest, inside);
    } else {
      assert all[|before| + 2] == toks[2] == more[0];
      FirstPrinted(before + pair, toks[2], inside, opts);
      FirstOfNext(before + pair, more, rest, inside, opts);
      PairInFront(st, PrintTokens(before + pair, more, inside, opts) + rest, inside);
    }
  }

  lemma ReadyShape(st: State, inside: bool)
    requires Ready(st, inside)
    ensures StackShape(st) && st.branches != []
  {
  }

  // Parsing what is printed gives back the tokens.
  lemma PrintedGlobsParse(toks: seq<Token>, opts: GlobOptions)
    requires Canonical(toks, false, opts)
    ensures var text := PrintGlob(toks, opts); Build(text, opts) == Ok(Glob(text, opts, toks))
  {
    hide ParseLoop, PrintTokens, Canonical;
    var text := PrintGlob(toks, opts);
    assert text + "" == text;
    assert [] + toks == toks;
    var end := ReadTokens(toks, Initial(text), "", false, opts);
    EndOfGlob(end, opts);
  }

  // Different trees are printed differently.
  lemma PrintingIsInjective(a: seq<Token>, b: seq<Token>, opts: GlobOptions)
    requires Canonical(a, false, opts) && Canonical(b, false, opts)
    requires PrintGlob(a, opts) == PrintGlob(b, opts)
    ensures a == b
  {
    hide Build, PrintGlob, Canonical;
    PrintedGlobsParse(a, opts);
    PrintedGlobsParse(b, opts);
  }

  lemma EndOfGlob(st: State, opts: GlobOptions)
    requires StackShape(st) && st.chars == ""
    ensures ParseLoop(st, opts) == Ok(Bump(st)) && Bump(st).branches == st.branches
  {
  }
}
