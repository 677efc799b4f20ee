/**
 The glob parser as a function on its state. Parser.Parser is the same parser as an object that is
 updated in place, proved against these functions.
 */
module GlobParser {
  import opened Wrappers
  import opened Tokens

  // chars is what is left of the glob; the tokens seen so far go to the end of the last branch, and
  // stack holds, for every open brace, the number of branches that were there when it opened.
  datatype State = State(
    chars: string,
    prev: Option<char>,
    cur: Option<char>,
    branches: seq<Tokens>,
    stack: seq<nat>,
    foundUnclosedClass: bool
  )

  type Step = Result<State, ErrorKind>

  // How braces and branches belong together: outside braces there is one branch, and each open
  // brace accounts for at least one branch after those that were there before.
  predicate StackShape(st: State) {
    && (st.stack == [] ==> |st.branches| == 1)
    && (st.stack != [] ==> st.stack[0] == 1 && st.stack[|st.stack| - 1] < |st.branches|)
    && forall i, j | 0 <= i < j < |st.stack| :: st.stack[i] < st.stack[j]
  }

  function Initial(glob: string): State {
    State(glob, None, None, [Tokens([])], [], false)
  }

  function Bump(st: State): State {
    st.(prev := st.cur,
        cur := if st.chars == "" then None else Some(st.chars[0]),
        chars := if st.chars == "" then "" else st.chars[1..])
  }

  function Peek(st: State): Option<char> {
    if st.chars == "" then None else Some(st.chars[0])
  }

  function LastBranch(st: State): seq<Token>
    requires st.branches != []
  {
    st.branches[|st.branches| - 1].list
  }

  function WithLast(st: State, toks: seq<Token>): State
    requires st.branches != []
  {
    st.(branches := st.branches[|st.branches| - 1 := Tokens(toks)])
  }

  function PushToken(st: State, tok: Token): Step {
    if st.branches == [] then Err(UnopenedAlternates) else Ok(WithLast(st, LastBranch(st) + [tok]))
  }

  function PushAlternate(st: State): State {
    st.(stack := st.stack + [|st.branches|], branches := st.branches + [Tokens([])])
  }

  function PopAlternate(st: State): Step
    requires StackShape(st)
  {
    if st.stack == [] then Err(UnopenedAlternates)
    else
      var start := st.stack[|st.stack| - 1];
      var alts := Alternates(st.branches[start..]);
      PushToken(st.(stack := st.stack[..|st.stack| - 1], branches := st.branches[..start]), alts)
  }

  function ParseComma(st: State): Step {
    if st.stack == [] then PushToken(st, Literal(',')) else Ok(st.(branches := st.branches + [Tokens([])]))
  }

  function ParseBackslash(st: State, opts: GlobOptions): Step {
    if opts.backslashEscape then
      var next := Bump(st);
      match next.cur
      case None => Err(DanglingEscape)
      case Some(c) => PushToken(next, Literal(c))
    else
      PushToken(st, Literal('\\'))
  }

  function PushTwoStars(st: State): Step {
    var one :- PushToken(st, ZeroOrMore);
    PushToken(one, ZeroOrMore)
  }

  predicate PeekIsSeparator(st: State) {
    Peek(st).Some? && IsSeparator(Peek(st).value)
  }

  // What the second star of a `**` that is not at the start of a branch turns the last token into.
  function Recursive(last: Token, isSuffix: bool): Token {
    match last
    case RecursivePrefix => RecursivePrefix
    case RecursiveSuffix => RecursiveSuffix
    case _ => if isSuffix then RecursiveSuffix else RecursiveZeroOrMore
  }

  // `**` may be recursive after a slash, or right after the `,` or `{` that starts a branch.
  predicate StartsComponent(st: State, prev: Option<char>) {
    || (prev.Some? && IsSeparator(prev.value))
    || (|st.branches| > 1 && (prev == Some(',') || prev == Some('{')))
  }

  // `**` at the start of a branch.
  function ParsePrefixStars(st: State): Step {
    if Peek(st).Some? && !PeekIsSeparator(st) then PushTwoStars(st)
    else
      var pushed :- PushToken(st, RecursivePrefix);
      Ok(Bump(pushed))
  }

  function ReplaceLast(st: State, isSuffix: bool): State
    requires st.branches != [] && LastBranch(st) != []
  {
    var toks := LastBranch(st);
    WithLast(st, toks[..|toks| - 1] + [Recursive(toks[|toks| - 1], isSuffix)])
  }

  // `**` that starts a component elsewhere: recursive if it also ends one.
  function ParseInnerStars(st: State): Step
    requires st.branches != [] && LastBranch(st) != []
  {
    if Peek(st).None? then Ok(ReplaceLast(Bump(st), true))
    else if |st.branches| >= 2 && (Peek(st) == Some(',') || Peek(st) == Some('}')) then Ok(ReplaceLast(st, true))
    else if PeekIsSeparator(st) then Ok(ReplaceLast(Bump(st), false))
    else PushTwoStars(st)
  }

  // The second star has been read; prev is what came before the first.
  function ParseSecondStar(st: State, prev: Option<char>): Step {
    if st.branches == [] then Err(UnopenedAlternates)
    else if LastBranch(st) == [] then ParsePrefixStars(st)
    else if !StartsComponent(st, prev) then PushTwoStars(st)
    else ParseInnerStars(st)
  }

  function ParseStar(st: State): Step {
    if Peek(st) == Some('*') then ParseSecondStar(Bump(st), st.prev) else PushToken(st, ZeroOrMore)
  }

  // ----- character classes -----

  datatype ClassScan =
    | Closed(st: State, ranges: seq<(char, char)>)
    | Unclosed
    | BadRange(lo: char, hi: char)

  // What one character inside a class does. inRange is set after a `-` that may join the last range
  // and the next character.
  datatype Move =
    | Close(ranges: seq<(char, char)>)
    | Bad(lo: char, hi: char)
    | Go(ranges: seq<(char, char)>, inRange: bool)

  function ScanMove(c: char, ranges: seq<(char, char)>, first: bool, inRange: bool): (m: Move)
    requires (!first || inRange) ==> ranges != []
    ensures m.Go? ==> m.ranges != []
  {
    if c == ']' && !first then Close(if inRange then ranges + [('-', '-')] else ranges)
    else if c == '-' && !first && !inRange then Go(ranges, true)
    else if inRange then
      var lo := ranges[|ranges| - 1].0;
      if c < lo then Bad(lo, c) else Go(ranges[|ranges| - 1 := (lo, c)], false)
    else Go(ranges + [(c, c)], false)
  }

  // Reading the inside of a class up to its `]`.
  function ScanClass(st: State, ranges: seq<(char, char)>, first: bool, inRange: bool): (r: ClassScan)
    requires (!first || inRange) ==> ranges != []
    ensures r.Closed? ==> |r.st.chars| < |st.chars|
    decreases |st.chars|
  {
    if st.chars == "" then Unclosed
    else
      match ScanMove(st.chars[0], ranges, first, inRange)
      case Close(closed) => Closed(Bump(st), closed)
      case Bad(lo, hi) => BadRange(lo, hi)
      case Go(more, joining) => ScanClass(Bump(st), more, false, joining)
  }

  predicate IsNegation(c: Option<char>) {
    c == Some('!') || c == Some('^')
  }

  function ParseClass(st: State, opts: GlobOptions): Step {
    var negated := IsNegation(Peek(st));
    match ScanClass(if negated then Bump(st) else st, [], true, false)
    case Closed(end, ranges) => PushToken(end, Class(negated, ranges))
    case BadRange(lo, hi) => Err(InvalidRange(lo, hi))
    case Unclosed =>
      if opts.allowUnclosedClass then PushToken(st.(foundUnclosedClass := true), Literal('['))
      else Err(UnclosedClass)
  }

  // ----- the parser -----

  // One round of the loop, for the character c just read.
  function ParseChar(c: char, st: State, opts: GlobOptions): Step
    requires StackShape(st)
  {
    if c == '?' then PushToken(st, Any)
    else if c == '*' then ParseStar(st)
    else if c == '[' && !st.foundUnclosedClass then ParseClass(st, opts)
    else if c == '{' then Ok(PushAlternate(st))
    else if c == '}' then PopAlternate(st)
    else if c == ',' then ParseComma(st)
    else if c == '\\' then ParseBackslash(st, opts)
    else PushToken(st, Literal(c))
  }

  // r is an error, or has as many branches and open braces as st, and no more characters left.
  predicate KeepsShape(st: State, r: Step) {
    r.Ok? ==> |r.value.branches| == |st.branches| && r.value.stack == st.stack && |r.value.chars| <= |st.chars|
  }

  lemma PushTokenShape(st: State, tok: Token)
    ensures KeepsShape(st, PushToken(st, tok))
  {
  }

  lemma ParseStarShape(st: State)
    ensures KeepsShape(st, ParseStar(st))
  {
    hide StartsComponent, ParsePrefixStars, ParseInnerStars, PushToken, PushTwoStars;
    PushTokenShape(st, ZeroOrMore);
    var st2 := Bump(st);
    TwoStarsShape(st2);
    if st2.branches != [] {
      PrefixStarsShape(st2);
      if LastBranch(st2) != [] {
        InnerStarsShape(st2);
      }
    }
  }

  lemma TwoStarsShape(st: State)
    ensures KeepsShape(st, PushTwoStars(st))
  {
  }

  lemma PrefixStarsShape(st: State)
    ensures KeepsShape(st, ParsePrefixStars(st))
  {
    hide PushTwoStars;
    TwoStarsShape(st);
  }

  lemma InnerStarsShape(st: State)
    requires st.branches != [] && LastBranch(st) != []
    ensures KeepsShape(st, ParseInnerStars(st))
  {
    hide PushTwoStars, Recursive;
    TwoStarsShape(st);
  }

  lemma {:induction false} ScanKeepsRest(st: State, ranges: seq<(char, char)>, first: bool, inRange: bool)
    requires (!first || inRange) ==> ranges != []
    ensures var r := ScanClass(st, ranges, first, inRange);
            r.Closed? ==> r.st.branches == st.branches && r.st.stack == st.stack
    decreases |st.chars|
  {
    if st.chars == "" {
    } else {
      hide ScanMove;
      var m := ScanMove(st.chars[0], ranges, first, inRange);
      if m.Go? {
        ScanKeepsRest(Bump(st), m.ranges, false, m.inRange);
      }
    }
  }

  lemma ParseClassShape(st: State, opts: GlobOptions)
    ensures KeepsShape(st, ParseClass(st, opts))
  {
    ScanKeepsRest(if IsNegation(Peek(st)) then Bump(st) else st, [], true, false);
    hide ScanClass;
  }

  lemma PopAlternateShape(st: State)
    requires StackShape(st)
    ensures PopAlternate(st).Ok? ==> StackShape(PopAlternate(st).value) && PopAlternate(st).value.chars == st.chars
  {
  }

  predicate GoodStep(st: State, r: Step) {
    r.Ok? ==> StackShape(r.value) && |r.value.chars| <= |st.chars|
  }

  lemma KeptShapeIsGood(st: State, r: Step)
    requires StackShape(st) && KeepsShape(st, r)
    ensures GoodStep(st, r)
  {
  }

  lemma BranchShape(st: State, opts: GlobOptions)
    requires StackShape(st)
    ensures GoodStep(st, Ok(PushAlternate(st))) && GoodStep(st, ParseComma(st)) && GoodStep(st, ParseBackslash(st, opts))
  {
    hide StackShape, ParseComma, ParseBackslash;
    NewBranchShape(st);
    CommaShape(st);
    BackslashShape(st, opts);
  }

  lemma NewBranchShape(st: State)
    requires StackShape(st)
    ensures GoodStep(st, Ok(PushAlternate(st)))
  {
  }

  lemma CommaShape(st: State)
    requires StackShape(st)
    ensures GoodStep(st, ParseComma(st))
  {
  }

  lemma BackslashShape(st: State, opts: GlobOptions)
    requires StackShape(st)
    ensures GoodStep(st, ParseBackslash(st, opts))
  {
  }

  // Every round keeps the shape and never gives characters back.
  lemma ParseCharShape(c: char, st: State, opts: GlobOptions)
    requires StackShape(st)
    ensures ParseChar(c, st, opts).Ok? ==>
              StackShape(ParseChar(c, st, opts).value) && |ParseChar(c, st, opts).value.chars| <= |st.chars|
  {
    hide StackShape, ParseStar, ParseClass, PopAlternate, ParseComma, ParseBackslash, PushAlternate, PushToken;
    ParseStarShape(st);
    KeptShapeIsGood(st, ParseStar(st));
    ParseClassShape(st, opts);
    KeptShapeIsGood(st, ParseClass(st, opts));
    PushTokenShape(st, Any);
    KeptShapeIsGood(st, PushToken(st, Any));
    PushTokenShape(st, Literal(c));
    KeptShapeIsGood(st, PushToken(st, Literal(c)));
    PopAlternateShape(st);
    BranchShape(st, opts);
  }

  function ParseLoop(st: State, opts: GlobOptions): (r: Step)
    requires StackShape(st)
    ensures r.Ok? ==> StackShape(r.value) && r.value.chars == ""
    decreases |st.chars|
  {
    var next := Bump(st);
    if st.chars == "" then Ok(next)
    else
      ParseCharShape(st.chars[0], next, opts);
      var done :- ParseChar(st.chars[0], next, opts);
      ParseLoop(done, opts)
  }

  // The rest of the parse once the character c has been read.
  function Continue(c: char, st: State, opts: GlobOptions): Step
    requires StackShape(st)
  {
    ParseCharShape(c, st, opts);
    var done :- ParseChar(c, st, opts);
    ParseLoop(done, opts)
  }

  lemma LoopRound(st: State, next: State, opts: GlobOptions)
    requires StackShape(st) && st.chars != "" && ParseChar(st.chars[0], Bump(st), opts) == Ok(next)
    ensures StackShape(next) && |next.chars| < |st.chars| && ParseLoop(st, opts) == ParseLoop(next, opts)
  {
    ParseCharShape(st.chars[0], Bump(st), opts);
  }

  lemma LoopError(st: State, opts: GlobOptions)
    requires StackShape(st) && st.chars != "" && ParseChar(st.chars[0], Bump(st), opts).Err?
    ensures ParseLoop(st, opts) == ParseChar(st.chars[0], Bump(st), opts)
  {
    hide ParseChar;
  }

  function Build(glob: string, opts: GlobOptions): Result<Glob, ErrorKind> {
    var st :- ParseLoop(Initial(glob), opts);
    if |st.branches| > 1 then Err(UnclosedAlternates)
    else Ok(Glob(glob, opts, st.branches[0].list))
  }
}
