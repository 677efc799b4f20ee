/**
 Reading a glob up to a slash does not depend on what follows the slash, unless a class is left open.
 So the copies of a recursive component collapse after any such beginning, and after a class that is
 never closed, which is read again as plain text.
 */
module InnerStars {
  import opened Wrappers
  import opened Tokens
  import opened GlobParser
  import opened RepeatedStars

  // There is more to read, and it ends in a slash.
  predicate SlashAhead(st: State) {
    st.chars != "" && st.chars[|st.chars| - 1] == '/'
  }

  // The slash has just been read.
  predicate AtSlash(st: State) {
    st.chars == "" && st.cur == Some('/')
  }

  // The same state with more to come.
  function Extend(st: State, tail: string): State {
    st.(chars := st.chars + tail)
  }

  // r and q are the same but for what is still to come.
  predicate Extended(r: Step, q: Step, tail: string) {
    if r.Err? then q == r else q == Ok(Extend(r.value, tail)) && (SlashAhead(r.value) || AtSlash(r.value))
  }

  function Strict(opts: GlobOptions): GlobOptions {
    opts.(allowUnclosedClass := false)
  }

  // ----- one round -----

  lemma ExtendBump(st: State, tail: string)
    requires SlashAhead(st)
    ensures Bump(Extend(st, tail)) == Extend(Bump(st), tail)
    ensures Peek(Extend(st, tail)) == Peek(st) && Peek(st).Some?
    ensures SlashAhead(Bump(st)) || AtSlash(Bump(st))
    ensures Peek(st) != Some('/') ==> SlashAhead(Bump(st))
    ensures |Bump(st).chars| < |st.chars|
  {
    assert (st.chars + tail)[1..] == st.chars[1..] + tail;
  }

  lemma ExtendPush(st: State, tok: Token, tail: string)
    requires SlashAhead(st) || AtSlash(st)
    ensures Extended(PushToken(st, tok), PushToken(Extend(st, tail), tok), tail)
  {
  }

  lemma SameBranches(st: State, tail: string)
    ensures Extend(st, tail).branches == st.branches && Extend(st, tail).stack == st.stack && Extend(st, tail).prev == st.prev
    ensures Bump(st).branches == st.branches
  {
  }

  lemma ExtendBraces(st: State, tail: string)
    requires StackShape(st) && (SlashAhead(st) || AtSlash(st))
    ensures StackShape(Extend(st, tail))
    ensures Extended(Ok(PushAlternate(st)), Ok(PushAlternate(Extend(st, tail))), tail)
    ensures Extended(ParseComma(st), ParseComma(Extend(st, tail)), tail)
    ensures Extended(PopAlternate(st), PopAlternate(Extend(st, tail)), tail)
  {
  }

  lemma ExtendBackslash(st: State, opts: GlobOptions, tail: string)
    requires SlashAhead(st)
    ensures Extended(ParseBackslash(st, opts), ParseBackslash(Extend(st, tail), opts), tail)
  {
    hide PushToken, Extended, SlashAhead, AtSlash;
    ExtendBump(st, tail);
    ExtendPush(Bump(st), Literal(Peek(st).value), tail);
    ExtendPush(st, Literal('\\'), tail);
  }

  lemma ExtendWithLast(st: State, toks: seq<Token>, tail: string)
    requires st.branches != [] && (SlashAhead(st) || AtSlash(st))
    ensures Extended(Ok(WithLast(st, toks)), Ok(WithLast(Extend(st, tail), toks)), tail)
  {
  }

  lemma ExtendTwoStars(st: State, tail: string)
    requires SlashAhead(st)
    ensures Extended(PushTwoStars(st), PushTwoStars(Extend(st, tail)), tail)
  {
  }

  lemma ExtendReplace(st: State, isSuffix: bool, tail: string)
    requires (SlashAhead(st) || AtSlash(st)) && st.branches != [] && LastBranch(st) != []
    ensures Extended(Ok(ReplaceLast(st, isSuffix)), Ok(ReplaceLast(Extend(st, tail), isSuffix)), tail)
  {
    hide Extended, WithLast, Recursive, SlashAhead, AtSlash;
    var toks := LastBranch(st);
    ExtendWithLast(st, toks[..|toks| - 1] + [Recursive(toks[|toks| - 1], isSuffix)], tail);
  }

  lemma ExtendPrefixStars(st: State, tail: string)
    requires SlashAhead(st) && st.branches != []
    ensures Extended(ParsePrefixStars(st), ParsePrefixStars(Extend(st, tail)), tail)
  {
    hide Extended, PushTwoStars, WithLast;
    ExtendBump(st, tail);
    ExtendTwoStars(st, tail);
    PrefixPushed(st, tail);
  }

  lemma PrefixPushed(st: State, tail: string)
    requires SlashAhead(st) && st.branches != []
    ensures PushToken(st, RecursivePrefix).Ok? && PushToken(Extend(st, tail), RecursivePrefix).Ok?
    ensures Extended(Ok(Bump(PushToken(st, RecursivePrefix).value)), Ok(Bump(PushToken(Extend(st, tail), RecursivePrefix).value)), tail)
  {
    var pushed := PushToken(st, RecursivePrefix).value;
    ExtendPush(st, RecursivePrefix, tail);
    ExtendBump(pushed, tail);
  }

  lemma ExtendInnerStars(st: State, tail: string)
    requires SlashAhead(st) && st.branches != [] && LastBranch(st) != []
    ensures Extended(ParseInnerStars(st), ParseInnerStars(Extend(st, tail)), tail)
  {
    hide Extended, PushTwoStars, ReplaceLast, Bump, SlashAhead, AtSlash;
    SameBranches(st, tail);
    ExtendBump(st, tail);
    ExtendTwoStars(st, tail);
    ExtendReplace(st, true, tail);
    ExtendReplace(Bump(st), false, tail);
  }

  lemma SameError(e: ErrorKind, tail: string)
    ensures Extended(Err(e), Err(e), tail)
  {
  }

  lemma ExtendSecondStar(st: State, prev: Option<char>, tail: string)
    requires SlashAhead(st)
    ensures Extended(ParseSecondStar(st, prev), ParseSecondStar(Extend(st, tail), prev), tail)
  {
    hide Extended, PushTwoStars, ParsePrefixStars, ParseInnerStars, SlashAhead;
    SameBranches(st, tail);
    SameError(UnopenedAlternates, tail);
    ExtendTwoStars(st, tail);
    if st.branches != [] {
      ExtendPrefixStars(st, tail);
      if LastBranch(st) != [] {
        ExtendInnerStars(st, tail);
      }
    }
  }

  lemma ExtendStar(st: State, tail: string)
    requires SlashAhead(st)
    ensures Extended(ParseStar(st), ParseStar(Extend(st, tail)), tail)
  {
    hide Extended, PushToken, ParseSecondStar, Bump, SlashAhead, AtSlash;
    SameBranches(st, tail);
    ExtendBump(st, tail);
    ExtendPush(st, ZeroOrMore, tail);
    if Peek(st) == Some('*') {
      ExtendSecondStar(Bump(st), st.prev, tail);
    }
  }

  predicate ExtendedScan(r: ClassScan, q: ClassScan, tail: string) {
    match r
    case Closed(st, ranges) => q == Closed(Extend(st, tail), ranges) && SlashAhead(st)
    case BadRange(_, _) => q == r
    case Unclosed => true
  }

  lemma {:induction false} ExtendScan(st: State, ranges: seq<(char, char)>, first: bool, inRange: bool, tail: string)
    requires SlashAhead(st) && ((!first || inRange) ==> ranges != [])
    ensures ExtendedScan(ScanClass(st, ranges, first, inRange), ScanClass(Extend(st, tail), ranges, first, inRange), tail)
    decreases |st.chars|
  {
    hide ScanMove, Bump, ExtendedScan;
    ExtendBump(st, tail);
    CloseIsBracket(st.chars[0], ranges, first, inRange);
    var m := ScanMove(st.chars[0], ranges, first, inRange);
    ScanRound(st, ranges, first, inRange, tail);
    if !m.Go? {
    } else {
      if SlashAhead(Bump(st)) {
        ExtendScan(Bump(st), m.ranges, false, m.inRange, tail);
      } else {
        ScanEnds(Bump(st), m.ranges, m.inRange);
        UnclosedScan(ScanClass(Extend(st, tail), ranges, first, inRange), tail);
      }
    }
  }

  lemma CloseIsBracket(c: char, ranges: seq<(char, char)>, first: bool, inRange: bool)
    requires (!first || inRange) ==> ranges != []
    ensures ScanMove(c, ranges, first, inRange).Close? ==> c == ']'
  {
  }

  lemma ScanRound(st: State, ranges: seq<(char, char)>, first: bool, inRange: bool, tail: string)
    requires SlashAhead(st) && ((!first || inRange) ==> ranges != [])
    ensures var m, r, q := ScanMove(st.chars[0], ranges, first, inRange), ScanClass(st, ranges, first, inRange),
                           ScanClass(Extend(st, tail), ranges, first, inRange);
            && (m.Go? ==> r == ScanClass(Bump(st), m.ranges, false, m.inRange))
            && (m.Go? ==> q == ScanClass(Extend(Bump(st), tail), m.ranges, false, m.inRange))
            && (!m.Go? ==> ExtendedScan(r, q, tail))
  {
    hide ScanMove;
    CloseIsBracket(st.chars[0], ranges, first, inRange);
    ExtendBump(st, tail);
    assert Extend(st, tail).chars[0] == st.chars[0];
  }

  lemma ScanEnds(st: State, ranges: seq<(char, char)>, inRange: bool)
    requires st.chars == "" && ranges != []
    ensures ScanClass(st, ranges, false, inRange) == Unclosed
  {
  }

  lemma UnclosedScan(q: ClassScan, tail: string)
    ensures ExtendedScan(Unclosed, q, tail)
  {
  }

  lemma ExtendClass(st: State, opts: GlobOptions, tail: string)
    requires SlashAhead(st) && ParseClass(st, Strict(opts)) != Err(UnclosedClass)
    ensures Extended(ParseClass(st, Strict(opts)), ParseClass(Extend(st, tail), opts), tail)
  {
    hide Extended, PushToken, ScanClass, Bump, SlashAhead, AtSlash;
    ExtendBump(st, tail);
    var negated := IsNegation(Peek(st));
    var from := if negated then Bump(st) else st;
    ExtendScan(from, [], true, false, tail);
    match ScanClass(from, [], true, false)
    case Closed(end, ranges) => ExtendPush(end, Class(negated, ranges), tail);
    case BadRange(lo, hi) => SameError(InvalidRange(lo, hi), tail);
    case Unclosed =>
  }

  lemma ExtendChar(c: char, st: State, opts: GlobOptions, tail: string)
    requires StackShape(st) && (SlashAhead(st) || (AtSlash(st) && c == '/'))
    requires ParseChar(c, st, Strict(opts)) != Err(UnclosedClass)
    ensures StackShape(Extend(st, tail))
    ensures Extended(ParseChar(c, st, Strict(opts)), ParseChar(c, Extend(st, tail), opts), tail)
  {
    ExtendBraces(st, tail);
    SameBranches(st, tail);
    hide StackShape, SlashAhead, AtSlash, Extended, PushToken, ParseStar, ParseClass, PopAlternate, ParseComma, ParseBackslash,
         PushAlternate;
    match c
    case '?' => ExtendPush(st, Any, tail);
    case '*' => ExtendStar(st, tail);
    case '[' => if st.foundUnclosedClass { ExtendPush(st, Literal(c), tail); } else { ExtendClass(st, opts, tail); }
    case '{' =>
    case '}' =>
    case ',' =>
    case '\\' => StrictBackslash(st, opts, tail);
    case _ => ExtendPush(st, Literal(c), tail);
  }

  lemma StrictBackslash(st: State, opts: GlobOptions, tail: string)
    requires SlashAhead(st)
    ensures Extended(ParseBackslash(st, Strict(opts)), ParseBackslash(Extend(st, tail), opts), tail)
  {
    hide Extended;
    ExtendBackslash(st, opts, tail);
  }

  // ----- up to the slash -----

  // Reading all there is, without an attempt to read on.
  function ReadUp(st: State, opts: GlobOptions): (r: Step)
    requires StackShape(st)
    ensures r.Ok? ==> StackShape(r.value) && r.value.chars == ""
    decreases |st.chars|
  {
    if st.chars == "" then Ok(st)
    else
      ParseCharShape(st.chars[0], Bump(st), opts);
      var next :- ParseChar(st.chars[0], Bump(st), opts);
      ReadUp(next, opts)
  }

  lemma {:induction false} ReadUpFails(st: State, opts: GlobOptions)
    requires StackShape(st)
    ensures ReadUp(st, opts).Err? ==> ParseLoop(st, opts) == ReadUp(st, opts)
    decreases |st.chars|
  {
    hide ParseChar, StackShape;
    if st.chars == "" {
    } else {
      BumpedShape(st);
      ParseCharShape(st.chars[0], Bump(st), opts);
      var r := ParseChar(st.chars[0], Bump(st), opts);
      if r.Ok? {
        ReadUpFails(r.value, opts);
      }
    }
  }

  lemma ExtendRound(st: State, opts: GlobOptions, tail: string)
    requires StackShape(st) && SlashAhead(st)
    requires ParseChar(st.chars[0], Bump(st), Strict(opts)) != Err(UnclosedClass)
    ensures StackShape(Extend(st, tail)) && Extend(st, tail).chars != "" && Extend(st, tail).chars[0] == st.chars[0]
    ensures Extended(ParseChar(st.chars[0], Bump(st), Strict(opts)),
                     ParseChar(st.chars[0], Bump(Extend(st, tail)), opts), tail)
  {
    hide ParseChar, Extended;
    ExtendBump(st, tail);
    ExtendChar(st.chars[0], Bump(st), opts, tail);
  }

  // Whatever follows the slash, the parse goes on from the same state, or has failed alike.
  lemma {:induction false} TailDoesNotMatter(st: State, opts: GlobOptions, tail: string)
    requires StackShape(st) && (SlashAhead(st) || AtSlash(st)) && ReadUp(st, Strict(opts)) != Err(UnclosedClass)
    ensures StackShape(Extend(st, tail))
    ensures match ReadUp(st, Strict(opts))
            case Err(e) => ParseLoop(Extend(st, tail), opts) == Err(e)
            case Ok(end) => AtSlash(end) && StackShape(Extend(end, tail)) && ParseLoop(Extend(st, tail), opts) == ParseLoop(Extend(end, tail), opts)
    decreases |st.chars|
  {
    hide ParseChar, ParseLoop;
    if st.chars == "" {
    } else {
      ParseCharShape(st.chars[0], Bump(st), Strict(opts));
      ExtendRound(st, opts, tail);
      hide StackShape;
      var r := ParseChar(st.chars[0], Bump(st), Strict(opts));
      if r.Err? {
        LoopError(Extend(st, tail), opts);
      } else {
        LoopRound(Extend(st, tail), Extend(r.value, tail), opts);
        TailDoesNotMatter(r.value, opts, tail);
      }
    }
  }

  // From a state with no class left open before the slash.
  lemma CollapseFrom(st: State, n: nat, rest: string, opts: GlobOptions)
    requires StackShape(st) && (SlashAhead(st) || AtSlash(st)) && ReadUp(st, Strict(opts)) != Err(UnclosedClass) && n >= 1
    ensures StackShape(Extend(st, Copies(n) + rest)) && StackShape(Extend(st, "**/" + rest))
    ensures ParseLoop(Extend(st, Copies(n) + rest), opts) == ParseLoop(Extend(st, "**/" + rest), opts)
  {
    hide ParseLoop, ReadUp, Copies, StackShape, Extend;
    var copies, copy := Copies(n) + rest, "**/" + rest;
    TailDoesNotMatter(st, opts, copies);
    TailDoesNotMatter(st, opts, copy);
    var r := ReadUp(st, Strict(opts));
    if r.Ok? {
      CopiesCollapse(r.value, n, rest, opts);
      Continues(r.value, copies);
      Continues(r.value, copy);
    }
  }

  // ----- a class left open -----

  // What such a class reads depends only on the last range, while nothing closes it.
  lemma {:induction false} SameOpenScan(a: State, b: State, r: seq<(char, char)>, q: seq<(char, char)>, inRange: bool)
    requires a.chars == b.chars && ']' !in a.chars && r != [] && q != [] && r[|r| - 1] == q[|q| - 1]
    ensures ScanClass(a, r, false, inRange) == ScanClass(b, q, false, inRange)
    ensures !ScanClass(a, r, false, inRange).Closed?
    decreases |a.chars|
  {
    if a.chars == "" {
    } else {
      var m, k := ScanMove(a.chars[0], r, false, inRange), ScanMove(b.chars[0], q, false, inRange);
      assert a.chars[0] in a.chars && forall c | c in a.chars[1..] :: c in a.chars;
      if m.Go? {
        assert k.Go? && m.inRange == k.inRange && m.ranges[|m.ranges| - 1] == k.ranges[|k.ranges| - 1];
        SameOpenScan(Bump(a), Bump(b), m.ranges, k.ranges, m.inRange);
      }
    }
  }

  lemma PlainScan(st: State, c: char, r: seq<(char, char)>, rest: string)
    requires st.chars == [c] + rest && c != ']' && c != '-' && r != []
    ensures Bump(st).chars == rest && ScanClass(st, r, false, false) == ScanClass(Bump(st), r + [(c, c)], false, false)
  {
    assert st.chars[1..] == rest;
  }

  // Copies of `**/` inside a class are stars and slashes.
  lemma {:induction false} ScanCopies(st: State, r: seq<(char, char)>, n: nat, rest: string) returns (next: State, q: seq<(char, char)>)
    requires n >= 1 && st.chars == Copies(n) + rest && r != []
    ensures next.chars == rest && q != [] && q[|q| - 1] == ('/', '/')
    ensures ScanClass(st, r, false, false) == ScanClass(next, q, false, false)
    decreases n
  {
    hide ScanClass, Bump;
    var more := Copies(n - 1) + rest;
    assert st.chars == ['*'] + (['*'] + (['/'] + more));
    PlainScan(st, '*', r, ['*'] + (['/'] + more));
    PlainScan(Bump(st), '*', r + [('*', '*')], ['/'] + more);
    PlainScan(Bump(Bump(st)), '/', r + [('*', '*')] + [('*', '*')], more);
    next, q := Bump(Bump(Bump(st))), r + [('*', '*')] + [('*', '*')] + [('/', '/')];
    if n == 1 {
      assert more == rest;
    } else {
      next, q := ScanCopies(next, q, n - 1, rest);
    }
  }

  // A class that is open at the slash goes on behind it.
  lemma {:induction false} ScanPastSlash(st: State, r: seq<(char, char)>, first: bool, inRange: bool, tail: string)
    returns (next: State, q: seq<(char, char)>)
    requires SlashAhead(st) && ((!first || inRange) ==> r != []) && ScanClass(st, r, first, inRange) == Unclosed
    ensures next.chars == tail && q != []
    ensures ScanClass(Extend(st, tail), r, first, inRange) == ScanClass(next, q, false, false)
    decreases |st.chars|
  {
    hide ScanClass, ScanMove, Bump, Extend;
    ScanGoes(st, r, first, inRange, tail);
    var m := ScanMove(st.chars[0], r, first, inRange);
    if |st.chars| == 1 {
      SlashEndsRange(r, first, inRange);
      next, q := Extend(Bump(st), tail), m.ranges;
    } else {
      next, q := ScanPastSlash(Bump(st), m.ranges, false, m.inRange, tail);
    }
  }

  lemma SlashEndsRange(r: seq<(char, char)>, first: bool, inRange: bool)
    requires (!first || inRange) ==> r != []
    ensures ScanMove('/', r, first, inRange).Go? ==> !ScanMove('/', r, first, inRange).inRange
  {
  }

  lemma ScanGoes(st: State, r: seq<(char, char)>, first: bool, inRange: bool, tail: string)
    requires SlashAhead(st) && ((!first || inRange) ==> r != []) && ScanClass(st, r, first, inRange) == Unclosed
    ensures var m := ScanMove(st.chars[0], r, first, inRange);
            && m.Go? && ScanClass(Bump(st), m.ranges, false, m.inRange) == Unclosed
            && ScanClass(Extend(st, tail), r, first, inRange) == ScanClass(Extend(Bump(st), tail), m.ranges, false, m.inRange)
    ensures |st.chars| == 1 ==> st.chars[0] == '/' && Extend(Bump(st), tail).chars == tail
    ensures |st.chars| > 1 ==> SlashAhead(Bump(st)) && |Bump(st).chars| < |st.chars|
  {
    hide ScanMove;
    ExtendBump(st, tail);
    assert Extend(st, tail).chars[0] == st.chars[0];
  }

  // Whether one copy follows or many, it stays open, or has the same bad range.
  lemma OpenClassAlike(st: State, n: nat, rest: string)
    requires SlashAhead(st) && ScanClass(st, [], true, false) == Unclosed && n >= 1 && ']' !in rest
    ensures var a := ScanClass(Extend(st, Copies(n) + rest), [], true, false);
            a == ScanClass(Extend(st, "**/" + rest), [], true, false) && !a.Closed?
  {
    hide ScanClass, Copies, Extend, SlashAhead;
    OneCopy();
    var many, r := ScanPastSlash(st, [], true, false, Copies(n) + rest);
    var one, q := ScanPastSlash(st, [], true, false, Copies(1) + rest);
    many, r := ScanCopies(many, r, n, rest);
    one, q := ScanCopies(one, q, 1, rest);
    SameOpenScan(many, one, r, q, false);
  }

  lemma OneCopy()
    ensures Copies(1) == "**/"
  {
    assert Copies(0) == "";
  }

  // The bracket at which reading up to the slash fails.
  predicate OpensClass(st: State, opts: GlobOptions) {
    && StackShape(st) && SlashAhead(st) && |st.chars| > 1 && st.chars[0] == '[' && !st.foundUnclosedClass
    && ParseClass(Bump(st), Strict(opts)) == Err(UnclosedClass)
  }

  lemma {:induction false} ReadsToBracket(st: State, opts: GlobOptions, a: string, b: string) returns (open: State)
    requires StackShape(st) && (SlashAhead(st) || AtSlash(st)) && ReadUp(st, Strict(opts)) == Err(UnclosedClass)
    ensures OpensClass(open, opts)
    ensures StackShape(Extend(st, a)) && StackShape(Extend(open, a)) && StackShape(Extend(st, b)) && StackShape(Extend(open, b))
    ensures ParseLoop(Extend(st, a), opts) == ParseLoop(Extend(open, a), opts)
    ensures ParseLoop(Extend(st, b), opts) == ParseLoop(Extend(open, b), opts)
    decreases |st.chars|
  {
    hide ParseChar, ParseLoop;
    ParseCharShape(st.chars[0], Bump(st), Strict(opts));
    var r := ParseChar(st.chars[0], Bump(st), Strict(opts));
    if r == Err(UnclosedClass) {
      OnlyClassesStayOpen(st, opts);
      open := st;
    } else {
      ExtendRound(st, opts, a);
      ExtendRound(st, opts, b);
      hide StackShape, OpensClass;
      LoopRound(Extend(st, a), Extend(r.value, a), opts);
      LoopRound(Extend(st, b), Extend(r.value, b), opts);
      open := ReadsToBracket(r.value, opts, a, b);
    }
  }

  lemma OnlyClassesStayOpen(st: State, opts: GlobOptions)
    requires StackShape(st) && SlashAhead(st) && ParseChar(st.chars[0], Bump(st), Strict(opts)) == Err(UnclosedClass)
    ensures OpensClass(st, opts)
  {
    hide ScanClass, StackShape;
  }

  // Once a class was left open, brackets are read as they are.
  lemma {:induction false} NoMoreClasses(st: State, opts: GlobOptions)
    requires StackShape(st) && st.foundUnclosedClass
    ensures ReadUp(st, opts) != Err(UnclosedClass)
    decreases |st.chars|
  {
    hide ParseChar;
    if st.chars == "" {
    } else {
      ParseCharShape(st.chars[0], Bump(st), opts);
      BumpedShape(st);
      LiteralBracket(st.chars[0], Bump(st), opts);
      var r := ParseChar(st.chars[0], Bump(st), opts);
      if r.Ok? {
        NoMoreClasses(r.value, opts);
      }
    }
  }

  lemma LiteralBracket(c: char, st: State, opts: GlobOptions)
    requires StackShape(st) && st.foundUnclosedClass
    ensures ParseChar(c, st, opts) != Err(UnclosedClass)
    ensures ParseChar(c, st, opts).Ok? ==> ParseChar(c, st, opts).value.foundUnclosedClass
  {
    hide StackShape;
  }

  // The state in which reading goes on behind the bracket, if classes may be left open.
  function RolledBack(open: State): Step {
    PushToken(Bump(open).(foundUnclosedClass := true), Literal('['))
  }

  // Where the ranges of a class start.
  function RangesOf(st: State): State {
    if IsNegation(Peek(st)) then Bump(st) else st
  }

  lemma ExtendRanges(st: State, tail: string)
    requires SlashAhead(st)
    ensures RangesOf(Extend(st, tail)) == Extend(RangesOf(st), tail) && SlashAhead(RangesOf(st))
  {
    ExtendBump(st, tail);
  }

  // What becomes of a class that is not closed.
  function NotClosed(open: State, scan: ClassScan, opts: GlobOptions): Step
    requires !scan.Closed?
  {
    match scan
    case BadRange(lo, hi) => Err(InvalidRange(lo, hi))
    case Unclosed => if opts.allowUnclosedClass then RolledBack(open) else Err(UnclosedClass)
  }

  lemma OpenClassStep(open: State, opts: GlobOptions, tail: string)
    requires OpensClass(open, opts) && !ScanClass(Extend(RangesOf(Bump(open)), tail), [], true, false).Closed?
    ensures var st, scan := Extend(open, tail), ScanClass(Extend(RangesOf(Bump(open)), tail), [], true, false);
            && StackShape(st) && st.chars != "" && st.chars[0] == '['
            && Extended(NotClosed(open, scan, opts), ParseChar('[', Bump(st), opts), tail)
  {
    hide ScanClass;
    ExtendBump(open, tail);
    ExtendRanges(Bump(open), tail);
    hide StackShape, Bump;
  }

  lemma OpenScan(open: State, opts: GlobOptions)
    requires OpensClass(open, opts)
    ensures ScanClass(RangesOf(Bump(open)), [], true, false) == Unclosed && SlashAhead(RangesOf(Bump(open)))
  {
    hide ScanClass, StackShape;
    ExtendBump(open, "");
    ExtendRanges(Bump(open), "");
  }

  // A class that stays open is read again as plain text, and so are the stars behind the slash.
  lemma CollapseInOpenClass(open: State, n: nat, rest: string, opts: GlobOptions)
    requires OpensClass(open, opts) && n >= 1 && ']' !in rest
    ensures StackShape(Extend(open, Copies(n) + rest)) && StackShape(Extend(open, "**/" + rest))
    ensures ParseLoop(Extend(open, Copies(n) + rest), opts) == ParseLoop(Extend(open, "**/" + rest), opts)
  {
    hide ParseLoop, ReadUp, Copies, ParseChar;
    hide ScanClass, StackShape, OpensClass, RolledBack;
    var a, b := Extend(open, Copies(n) + rest), Extend(open, "**/" + rest);
    OpenScan(open, opts);
    OpenClassAlike(RangesOf(Bump(open)), n, rest);
    OpenClassStep(open, opts, Copies(n) + rest);
    OpenClassStep(open, opts, "**/" + rest);
    var next := NotClosed(open, ScanClass(Extend(RangesOf(Bump(open)), Copies(n) + rest), [], true, false), opts);
    if next.Err? {
      LoopError(a, opts);
      LoopError(b, opts);
    } else {
      var back := next.value;
      LoopRound(a, Extend(back, Copies(n) + rest), opts);
      LoopRound(b, Extend(back, "**/" + rest), opts);
      RolledBackShape(open, opts);
      NoMoreClasses(back, Strict(opts));
      CollapseFrom(back, n, rest, opts);
    }
  }

  lemma RolledBackShape(open: State, opts: GlobOptions)
    requires OpensClass(open, opts) && RolledBack(open).Ok?
    ensures var back := RolledBack(open).value; StackShape(back) && SlashAhead(back) && back.foundUnclosedClass
  {
  }

  // After any beginning, n copies of `**/` behind a slash give the same tokens as one, or the same
  // error, unless they are inside a class.
  lemma InnerCopiesCollapse(front: string, n: nat, rest: string, opts: GlobOptions)
    requires n >= 1 && (Build(front + "/", Strict(opts)) != Err(UnclosedClass) || ']' !in rest)
    ensures Tokenize(front + "/" + Copies(n) + rest, opts) == Tokenize(front + "/" + "**/" + rest, opts)
  {
    hide ParseLoop, ReadUp, Copies, StackShape, Extend;
    var st := Initial(front + "/");
    var copies, copy := Copies(n) + rest, "**/" + rest;
    ReadsToSlash(front, opts);
    if ReadUp(st, Strict(opts)) == Err(UnclosedClass) {
      var open := ReadsToBracket(st, opts, copies, copy);
      CollapseInOpenClass(open, n, rest, opts);
    } else {
      CollapseFrom(st, n, rest, opts);
    }
    ExtendInitial(front, copies);
    ExtendInitial(front, copy);
    Tokenized(Initial(front + "/" + copies).chars, Initial(front + "/" + copy).chars, opts);
    assert front + "/" + Copies(n) + rest == front + "/" + copies;
    assert front + "/" + "**/" + rest == front + "/" + copy;
  }

  lemma ReadsToSlash(front: string, opts: GlobOptions)
    ensures var st := Initial(front + "/");
            && StackShape(st) && SlashAhead(st)
            && (ReadUp(st, Strict(opts)) == Err(UnclosedClass) ==> Build(front + "/", Strict(opts)) == Err(UnclosedClass))
  {
    hide ParseLoop, ReadUp;
    ReadUpFails(Initial(front + "/"), Strict(opts));
  }

  lemma ExtendInitial(front: string, tail: string)
    ensures Extend(Initial(front + "/"), tail) == Initial(front + "/" + tail)
  {
  }

  // The tokens depend only on how the parse ends.
  lemma Tokenized(a: string, b: string, opts: GlobOptions)
    requires ParseLoop(Initial(a), opts) == ParseLoop(Initial(b), opts)
    ensures Tokenize(a, opts) == Tokenize(b, opts)
  {
    hide ParseLoop;
  }

  lemma Continues(st: State, tail: string)
    requires AtSlash(st)
    ensures Extend(st, tail) == st.(chars := tail)
  {
  }
}
