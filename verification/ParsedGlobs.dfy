/**
 Which token trees the parser gives: where backslashes escape, exactly those in canonical form. So
 every glob that parses has a normal form that is written from its tokens.
 */
module ParsedGlobs {
  import opened Wrappers
  import opened Tokens
  import opened GlobParser
  import opened ParserInvariants
  import opened PrintedGlobs

  // ----- classes -----

  // A range that has been read while a class is still open.
  predicate OpenRange(ranges: seq<(char, char)>, i: nat)
    requires i < |ranges|
  {
    var (lo, hi) := ranges[i];
    lo <= hi && (lo == ']' ==> i == 0) && (hi == ']' ==> lo == ']') && (lo == '-' ==> i == 0)
  }

  predicate OpenRanges(negated: bool, ranges: seq<(char, char)>) {
    && (forall i: nat | i < |ranges| :: OpenRange(ranges, i))
    && (!negated && ranges != [] ==> !IsNegation(Some(ranges[0].0)))
  }

  lemma FirstRange(negated: bool, c: char)
    requires !negated ==> !IsNegation(Some(c))
    ensures OpenRanges(negated, [(c, c)])
  {
  }

  lemma OneRangeMore(negated: bool, ranges: seq<(char, char)>, c: char)
    requires OpenRanges(negated, ranges) && ranges != [] && c != ']' && c != '-'
    ensures OpenRanges(negated, ranges + [(c, c)])
  {
    var all := ranges + [(c, c)];
    forall i: nat | i < |all|
      ensures OpenRange(all, i)
    {
      assert i < |ranges| ==> OpenRange(ranges, i);
    }
  }

  lemma RangeEnds(negated: bool, ranges: seq<(char, char)>, c: char)
    requires OpenRanges(negated, ranges) && ranges != [] && c != ']' && ranges[|ranges| - 1].0 <= c
    ensures OpenRanges(negated, ranges[|ranges| - 1 := (ranges[|ranges| - 1].0, c)])
  {
    var all := ranges[|ranges| - 1 := (ranges[|ranges| - 1].0, c)];
    forall i: nat | i < |all|
      ensures OpenRange(all, i)
    {
      assert OpenRange(ranges, i);
    }
  }

  lemma ClosedRanges(negated: bool, ranges: seq<(char, char)>, dash: bool)
    requires OpenRanges(negated, ranges) && ranges != []
    ensures CanonicalRanges(negated, if dash then ranges + [('-', '-')] else ranges)
  {
    var all := if dash then ranges + [('-', '-')] else ranges;
    forall i: nat | i < |all|
      ensures CanonicalRange(all, i)
    {
      assert i < |ranges| ==> OpenRange(ranges, i);
    }
  }

  lemma MoveKeepsRanges(negated: bool, c: char, ranges: seq<(char, char)>, first: bool, inRange: bool)
    requires OpenRanges(negated, ranges) && (first <==> ranges == []) && (inRange ==> ranges != [])
    requires first && !negated ==> !IsNegation(Some(c))
    ensures match ScanMove(c, ranges, first, inRange)
            case Close(closed) => CanonicalRanges(negated, closed)
            case Bad(_, _) => true
            case Go(more, _) => OpenRanges(negated, more) && more != []
  {
    hide OpenRanges, CanonicalRanges, IsNegation;
    if first {
      assert [] + [(c, c)] == [(c, c)];
      FirstRange(negated, c);
    } else if c == ']' {
      ClosedRanges(negated, ranges, inRange);
    } else if inRange {
      if ranges[|ranges| - 1].0 <= c {
        RangeEnds(negated, ranges, c);
      }
    } else if c != '-' {
      OneRangeMore(negated, ranges, c);
    }
  }

  // The ranges of a class that is closed can be written.
  lemma {:induction false} ScanIsCanonical(negated: bool, st: State, ranges: seq<(char, char)>, first: bool, inRange: bool)
    requires OpenRanges(negated, ranges) && (first <==> ranges == []) && (inRange ==> ranges != [])
    requires first && !negated ==> !IsNegation(Peek(st))
    ensures var r := ScanClass(st, ranges, first, inRange); r.Closed? ==> CanonicalRanges(negated, r.ranges)
    decreases |st.chars|
  {
    hide OpenRanges, CanonicalRanges, ScanMove, IsNegation;
    if st.chars == "" {
    } else {
      MoveKeepsRanges(negated, st.chars[0], ranges, first, inRange);
      var m := ScanMove(st.chars[0], ranges, first, inRange);
      if m.Go? {
        ScanIsCanonical(negated, Bump(st), m.ranges, false, m.inRange);
      }
    }
  }

  lemma ClassIsCanonical(st: State, inside: bool, opts: GlobOptions)
    ensures var negated := IsNegation(Peek(st));
            var r := ScanClass(if negated then Bump(st) else st, [], true, false);
            r.Closed? ==> CanonicalToken(Class(negated, r.ranges), inside, opts)
  {
    hide ScanClass, CanonicalRanges;
    NoRanges(IsNegation(Peek(st)));
    ScanIsCanonical(IsNegation(Peek(st)), if IsNegation(Peek(st)) then Bump(st) else st, [], true, false);
  }

  lemma NoRanges(negated: bool)
    ensures OpenRanges(negated, [])
  {
  }

  // ----- branches -----

  predicate AllCanonical(toks: seq<Token>, inside: bool, opts: GlobOptions) {
    forall i | 0 <= i < |toks| :: CanonicalToken(toks[i], inside, opts)
  }

  lemma FinishedIsCanonical(toks: seq<Token>, inside: bool, opts: GlobOptions)
    requires WellFormed(toks) && AllCanonical(toks, inside, opts) && !EndsOpen(toks, inside) && opts.backslashEscape
    ensures Canonical(toks, inside, opts)
  {
    hide CanonicalToken, EndsOpen, HidesSlash, GoodToken;
  }

  predicate BranchesCanonical(branches: seq<Tokens>, opts: GlobOptions) {
    forall i | 0 <= i < |branches| :: AllCanonical(branches[i].list, i > 0, opts)
  }

  // A brace was opened in this branch.
  predicate IsOpener(st: State, b: nat) {
    exists k | 0 <= k < |st.stack| :: st.stack[k] == b + 1
  }

  // The branches that have ended do not end in stars that would be a component.
  predicate EndedWell(st: State) {
    forall b: nat | b < |st.branches| - 1 && !IsOpener(st, b) :: !EndsOpen(st.branches[b].list, true)
  }

  // The tokens end in one star that starts a component.
  predicate EndsInOneStar(toks: seq<Token>, inside: bool) {
    var n := |toks| - 1;
    n >= 0 && toks[n].ZeroOrMore? && AtStart(toks[..n], inside)
  }

  predicate ClosingNext(st: State, inside: bool) {
    st.chars == "" || (inside && st.chars[0] in [',', '}'])
  }

  // What the tokens of a branch say of the characters around.
  predicate Around(st: State, toks: seq<Token>, inside: bool) {
    && (EndsOpen(toks, inside) ==> !ClosingNext(st, inside))
    && (EndsInOneStar(toks, inside) ==> Peek(st) != Some('*'))
    && (toks != [] && Opens(toks[|toks| - 1], inside) && Peek(st) == Some('*') ==> st.cur == Some(LastChar(toks[|toks| - 1])))
  }

  predicate IsInside(st: State) {
    |st.branches| > 1
  }

  predicate Tree(st: State, opts: GlobOptions) {
    st.branches != [] && BranchesCanonical(st.branches, opts) && EndedWell(st)
  }

  predicate Fits(st: State, opts: GlobOptions) {
    Tree(st, opts) && Around(st, LastBranch(st), IsInside(st))
  }

  predicate FitsIfOk(r: Step, opts: GlobOptions) {
    r.Ok? ==> Fits(r.value, opts)
  }

  // ----- pushing -----

  lemma AppendCanonical(toks: seq<Token>, t: Token, inside: bool, opts: GlobOptions)
    requires AllCanonical(toks, inside, opts) && CanonicalToken(t, inside, opts)
    ensures AllCanonical(toks + [t], inside, opts)
  {
    hide CanonicalToken;
  }

  lemma WithLastFits(st: State, toks: seq<Token>, opts: GlobOptions)
    requires Tree(st, opts) && AllCanonical(toks, IsInside(st), opts)
    ensures Tree(WithLast(st, toks), opts) && LastBranch(WithLast(st, toks)) == toks && IsInside(WithLast(st, toks)) == IsInside(st)
  {
    hide AllCanonical, EndsOpen;
    var after := WithLast(st, toks);
    assert forall b: nat :: IsOpener(after, b) <==> IsOpener(st, b);
  }

  lemma PushFits(st: State, t: Token, opts: GlobOptions)
    requires Tree(st, opts) && CanonicalToken(t, IsInside(st), opts)
    ensures var after := WithLast(st, LastBranch(st) + [t]);
            && PushToken(st, t) == Ok(after) && Tree(after, opts) && IsInside(after) == IsInside(st)
            && LastBranch(after) == LastBranch(st) + [t] && after.chars == st.chars && after.cur == st.cur
  {
    hide EndedWell, CanonicalToken, AllCanonical;
    AppendCanonical(LastBranch(st), t, IsInside(st), opts);
    WithLastFits(st, LastBranch(st) + [t], opts);
  }

  // Any token but a star.
  lemma PushOther(st: State, t: Token, opts: GlobOptions)
    requires Tree(st, opts) && CanonicalToken(t, IsInside(st), opts) && !t.ZeroOrMore?
    requires Opens(t, IsInside(st)) ==> st.cur == Some(LastChar(t))
    ensures FitsIfOk(PushToken(st, t), opts)
  {
    hide Tree, CanonicalToken, Opens;
    PushFits(st, t, opts);
    OtherAround(WithLast(st, LastBranch(st) + [t]), LastBranch(st), t, IsInside(st));
  }

  lemma OtherAround(st: State, toks: seq<Token>, t: Token, inside: bool)
    requires !t.ZeroOrMore? && (Opens(t, inside) && Peek(st) == Some('*') ==> st.cur == Some(LastChar(t)))
    ensures Around(st, toks + [t], inside)
  {
    hide Opens;
  }

  // A single star.
  lemma PushStar(st: State, opts: GlobOptions)
    requires Tree(st, opts) && Peek(st) != Some('*') && !EndsInOneStar(LastBranch(st), IsInside(st))
    ensures FitsIfOk(PushToken(st, ZeroOrMore), opts)
  {
    hide Tree;
    PushFits(st, ZeroOrMore, opts);
    StarAround(WithLast(st, LastBranch(st) + [ZeroOrMore]), LastBranch(st), IsInside(st));
  }

  lemma StarAround(st: State, toks: seq<Token>, inside: bool)
    requires Peek(st) != Some('*') && !EndsInOneStar(toks, inside)
    ensures Around(st, toks + [ZeroOrMore], inside)
  {
    var all := toks + [ZeroOrMore];
    if toks != [] {
      assert all[..|all| - 2] == toks[..|toks| - 1];
    }
  }

  // Two stars, where they are no component.
  lemma PushPair(st: State, opts: GlobOptions)
    requires Tree(st, opts)
    requires AtStart(LastBranch(st), IsInside(st)) && !(IsInside(st) && LastBranch(st) == []) ==> !ClosingNext(st, IsInside(st))
    ensures FitsIfOk(PushTwoStars(st), opts)
  {
    hide Tree, AtStart, ClosingNext;
    PushFits(st, ZeroOrMore, opts);
    var one := WithLast(st, LastBranch(st) + [ZeroOrMore]);
    PushFits(one, ZeroOrMore, opts);
    var two := WithLast(one, LastBranch(one) + [ZeroOrMore]);
    assert LastBranch(st) + [ZeroOrMore] + [ZeroOrMore] == LastBranch(st) + [ZeroOrMore, ZeroOrMore];
    SameClosing(st, two, IsInside(st));
    PairAround(two, LastBranch(st), IsInside(st));
  }

  lemma SameClosing(st: State, after: State, inside: bool)
    requires after.chars == st.chars
    ensures ClosingNext(after, inside) == ClosingNext(st, inside)
  {
  }

  lemma PairAround(st: State, toks: seq<Token>, inside: bool)
    requires AtStart(toks, inside) && !(inside && toks == []) ==> !ClosingNext(st, inside)
    ensures Around(st, toks + [ZeroOrMore, ZeroOrMore], inside)
  {
    hide ClosingNext;
    PairEnds(toks, inside);
    var all := toks + [ZeroOrMore, ZeroOrMore];
    assert all[..|all| - 1] == toks + [ZeroOrMore];
  }

  // ----- stars -----

  lemma BumpedTree(st: State, opts: GlobOptions)
    requires Tree(st, opts)
    ensures Tree(Bump(st), opts) && LastBranch(Bump(st)) == LastBranch(st) && IsInside(Bump(st)) == IsInside(st)
  {
    hide BranchesCanonical, EndsOpen;
    assert forall b: nat :: IsOpener(Bump(st), b) <==> IsOpener(st, b);
  }

  lemma PrefixFits(st: State, opts: GlobOptions)
    requires Tree(st, opts) && LastBranch(st) == []
    ensures FitsIfOk(ParsePrefixStars(st), opts)
  {
    hide Tree, PushTwoStars, Around;
    if Peek(st).Some? && !PeekIsSeparator(st) {
      NotClosing(st);
      PushPair(st, opts);
    } else {
      PushFits(st, RecursivePrefix, opts);
      var pushed := WithLast(st, LastBranch(st) + [RecursivePrefix]);
      BumpedTree(pushed, opts);
      PrefixAround(st, pushed);
    }
  }

  lemma NotClosing(st: State)
    requires Peek(st).Some?
    ensures !IsInside(st) ==> !ClosingNext(st, IsInside(st))
  {
  }

  lemma PrefixAround(st: State, pushed: State)
    requires st.branches != [] && pushed == WithLast(st, LastBranch(st) + [RecursivePrefix])
    requires Peek(st).None? || PeekIsSeparator(st)
    ensures Around(Bump(pushed), LastBranch(Bump(pushed)), IsInside(st))
  {
    OtherAround(Bump(pushed), LastBranch(st), RecursivePrefix, IsInside(st));
  }

  // A recursive form in place of the last token.
  lemma ReplaceFits(st: State, isSuffix: bool, opts: GlobOptions)
    requires Tree(st, opts) && LastBranch(st) != []
    requires Peek(st) == Some('*') ==> st.cur == Some('/')
    ensures Fits(ReplaceLast(st, isSuffix), opts)
  {
    hide EndedWell;
    var toks := LastBranch(st);
    var t := Recursive(toks[|toks| - 1], isSuffix);
    ReplacedCanonical(toks, t, IsInside(st), opts);
    hide AllCanonical;
    WithLastFits(st, toks[..|toks| - 1] + [t], opts);
    OtherAround(WithLast(st, toks[..|toks| - 1] + [t]), toks[..|toks| - 1], t, IsInside(st));
  }

  lemma ReplacedCanonical(toks: seq<Token>, t: Token, inside: bool, opts: GlobOptions)
    requires toks != [] && AllCanonical(toks, inside, opts) && (t.RecursivePrefix? || t.RecursiveSuffix? || t.RecursiveZeroOrMore?)
    ensures AllCanonical(toks[..|toks| - 1] + [t], inside, opts)
  {
    assert AllCanonical(toks[..|toks| - 1], inside, opts);
    AppendCanonical(toks[..|toks| - 1], t, inside, opts);
  }

  lemma InnerFits(st: State, opts: GlobOptions)
    requires Tree(st, opts) && LastBranch(st) != []
    ensures FitsIfOk(ParseInnerStars(st), opts)
  {
    hide Tree, PushTwoStars, ReplaceLast, Fits, AtStart;
    BumpedTree(st, opts);
    if Peek(st).None? {
      ReplaceFits(Bump(st), true, opts);
    } else if |st.branches| >= 2 && (Peek(st) == Some(',') || Peek(st) == Some('}')) {
      ReplaceFits(st, true, opts);
    } else if PeekIsSeparator(st) {
      ReplaceFits(Bump(st), false, opts);
    } else {
      PushPair(st, opts);
    }
  }

  // The parser takes stars for the start of a component where the tokens say so.
  lemma StartIsSeen(st: State, prev: Option<char>, opts: GlobOptions)
    requires Tree(st, opts) && LastBranch(st) != [] && Opens(LastBranch(st)[|LastBranch(st)| - 1], IsInside(st))
    requires prev == Some(LastChar(LastBranch(st)[|LastBranch(st)| - 1]))
    ensures StartsComponent(st, prev)
  {
  }

  lemma SecondStarFits(st: State, prev: Option<char>, opts: GlobOptions)
    requires Tree(st, opts)
    requires var toks := LastBranch(st);
             toks != [] && Opens(toks[|toks| - 1], IsInside(st)) ==> prev == Some(LastChar(toks[|toks| - 1]))
    ensures FitsIfOk(ParseSecondStar(st, prev), opts)
  {
    hide Tree, PushTwoStars, ParsePrefixStars, ParseInnerStars, Opens, StartsComponent, Fits;
    HasBranch(st, opts);
    if LastBranch(st) == [] {
      PrefixFits(st, opts);
    } else if !StartsComponent(st, prev) {
      if AtStart(LastBranch(st), IsInside(st)) {
        StartIsSeen(st, prev, opts);
      }
      PushPair(st, opts);
    } else {
      InnerFits(st, opts);
    }
  }

  lemma HasBranch(st: State, opts: GlobOptions)
    requires Tree(st, opts)
    ensures st.branches != []
  {
  }

  // A star has been read.
  lemma StarFits(before: State, opts: GlobOptions)
    requires Fits(before, opts) && Peek(before) == Some('*')
    ensures FitsIfOk(ParseStar(Bump(before)), opts)
  {
    var st := Bump(before);
    BumpedTree(before, opts);
    AroundStar(before);
    hide Tree, Around, Fits, ParseSecondStar, PushToken;
    HasBranch(st, opts);
    if Peek(st) == Some('*') {
      BumpedTree(st, opts);
      SecondStarFits(Bump(st), st.prev, opts);
    } else {
      PushStar(st, opts);
    }
  }

  lemma AroundStar(before: State)
    requires before.branches != [] && Around(before, LastBranch(before), IsInside(before)) && Peek(before) == Some('*')
    ensures !EndsInOneStar(LastBranch(before), IsInside(before)) && Bump(before).prev == before.cur
    ensures var toks := LastBranch(before);
            toks != [] && Opens(toks[|toks| - 1], IsInside(before)) ==> before.cur == Some(LastChar(toks[|toks| - 1]))
  {
  }

  // ----- classes, braces and escapes -----

  lemma SameTree(a: State, b: State, opts: GlobOptions)
    requires Tree(a, opts) && b.branches == a.branches && b.stack == a.stack
    ensures Tree(b, opts) && LastBranch(b) == LastBranch(a) && IsInside(b) == IsInside(a)
  {
    hide BranchesCanonical, EndsOpen;
    assert forall x: nat :: IsOpener(b, x) <==> IsOpener(a, x);
  }

  lemma ClassFits(st: State, opts: GlobOptions)
    requires Tree(st, opts) && opts.backslashEscape && !EndsInSuffix(LastBranch(st)) && Sound(st)
    ensures FitsIfOk(ParseClass(st, opts), opts)
  {
    hide Tree, CanonicalToken, PushToken, ScanClass, WellFormed;
    var negated := IsNegation(Peek(st));
    var from := if negated then Bump(st) else st;
    ClassIsCanonical(st, IsInside(st), opts);
    ScanIsGood(from, [], true, false);
    hide Sound, Fits;
    match ScanClass(from, [], true, false)
    case Closed(end, ranges) =>
      SameTree(st, end, opts);
      PushOther(end, Class(negated, ranges), opts);
    case BadRange(_, _) =>
    case Unclosed =>
      BracketIsCanonical(IsInside(st), opts);
      SameTree(st, st.(foundUnclosedClass := true), opts);
      PushOther(st.(foundUnclosedClass := true), Literal('['), opts);
  }

  lemma BracketIsCanonical(inside: bool, opts: GlobOptions)
    requires opts.backslashEscape
    ensures CanonicalToken(Literal('['), inside, opts)
  {
  }

  lemma NothingAround(st: State, inside: bool)
    ensures Around(st, [], inside)
  {
  }

  lemma OpenFits(st: State, opts: GlobOptions)
    requires Tree(st, opts) && Sound(st)
    ensures Fits(PushAlternate(st), opts)
  {
    hide EndsOpen, AllCanonical, WellFormed;
    StackEntries(st);
    NothingAround(PushAlternate(st), true);
    NoTokens(opts);
    var after := PushAlternate(st);
    assert after.stack[|st.stack|] == |st.branches|;
    forall b: nat | b < |after.branches| - 1 && !IsOpener(after, b)
      ensures !EndsOpen(after.branches[b].list, true)
    {
      StillOpener(st, after, b);
      assert b != |st.branches| - 1;
    }
  }

  lemma NoTokens(opts: GlobOptions)
    ensures AllCanonical([], true, opts)
  {
  }

  lemma StillOpener(st: State, after: State, b: nat)
    requires st.stack <= after.stack
    ensures IsOpener(st, b) ==> IsOpener(after, b)
  {
    if k :| 0 <= k < |st.stack| && st.stack[k] == b + 1 {
      assert after.stack[k] == b + 1;
    }
  }

  // The last branch ends well.
  lemma CommaFits(st: State, opts: GlobOptions)
    requires Tree(st, opts) && Sound(st) && opts.backslashEscape && st.cur == Some(',')
    requires IsInside(st) ==> !EndsOpen(LastBranch(st), true)
    ensures FitsIfOk(ParseComma(st), opts)
  {
    hide EndsOpen, AllCanonical, WellFormed, CanonicalToken;
    StackEntries(st);
    NoTokens(opts);
    if st.stack == [] {
      CommaIsCanonical(opts);
      PushOther(st, Literal(','), opts);
    } else {
      var after := st.(branches := st.branches + [Tokens([])]);
      NothingAround(after, true);
      forall b: nat | b < |after.branches| - 1 && !IsOpener(after, b)
        ensures !EndsOpen(after.branches[b].list, true)
      {
        StillOpener(st, after, b);
      }
    }
  }

  lemma CommaIsCanonical(opts: GlobOptions)
    ensures CanonicalToken(Literal(','), false, opts)
  {
  }

  // The branches of a group that is closed.
  lemma GroupIsCanonical(st: State, opts: GlobOptions, inside: bool)
    requires Tree(st, opts) && Sound(st) && opts.backslashEscape && st.stack != [] && !EndsOpen(LastBranch(st), true)
    ensures CanonicalToken(Alternates(st.branches[st.stack[|st.stack| - 1]..]), inside, opts)
  {
    hide EndsOpen, AllCanonical, WellFormed, Canonical;
    StackEntries(st);
    var start := st.stack[|st.stack| - 1];
    assert StackEntry(st, |st.stack| - 1);
    forall i | start <= i < |st.branches|
      ensures Canonical(st.branches[i].list, true, opts)
    {
      NoOpenerInGroup(st, i);
      FinishedIsCanonical(st.branches[i].list, true, opts);
    }
    GroupOf(st.branches[start..], inside, opts);
  }

  lemma GroupOf(branches: seq<Tokens>, inside: bool, opts: GlobOptions)
    requires branches != [] && forall i | 0 <= i < |branches| :: Canonical(branches[i].list, true, opts)
    ensures CanonicalToken(Alternates(branches), inside, opts)
  {
    hide Canonical;
  }

  lemma NoOpenerInGroup(st: State, b: nat)
    requires StackShape(st) && st.stack != [] && b >= st.stack[|st.stack| - 1]
    ensures !IsOpener(st, b)
  {
    assert forall k | 0 <= k < |st.stack| :: st.stack[k] <= st.stack[|st.stack| - 1];
  }

  lemma CloseFits(st: State, opts: GlobOptions)
    requires Tree(st, opts) && Sound(st) && opts.backslashEscape && (IsInside(st) ==> !EndsOpen(LastBranch(st), true))
    ensures StackShape(st) && FitsIfOk(PopAlternate(st), opts)
  {
    StackEntries(st);
    if st.stack != [] {
      var n := |st.stack| - 1;
      var start := st.stack[n];
      var before := st.(stack := st.stack[..n], branches := st.branches[..start]);
      assert StackEntry(st, n);
      GroupIsCanonical(st, opts, start > 1);
      GroupClosed(st, before, opts);
      hide CanonicalToken, Tree, EndsOpen, WellFormed, Sound, StackShape, Fits;
      PushOther(before, Alternates(st.branches[start..]), opts);
    }
  }

  lemma GroupClosed(st: State, before: State, opts: GlobOptions)
    requires Tree(st, opts) && Sound(st) && st.stack != []
    requires var n := |st.stack| - 1; 1 <= st.stack[n] < |st.branches| && before.stack == st.stack[..n] && before.branches == st.branches[..st.stack[n]]
    ensures Tree(before, opts) && (IsInside(before) <==> st.stack[|st.stack| - 1] > 1)
  {
    hide EndsOpen, AllCanonical, WellFormed;
    var n := |st.stack| - 1;
    forall b: nat | b < |before.branches| - 1 && !IsOpener(before, b)
      ensures !EndsOpen(before.branches[b].list, true)
    {
      OpenerBefore(st, before, b);
    }
  }

  lemma OpenerBefore(st: State, before: State, b: nat)
    requires st.stack != [] && before.stack == st.stack[..|st.stack| - 1] && b + 1 < st.stack[|st.stack| - 1]
    ensures IsOpener(st, b) ==> IsOpener(before, b)
  {
    if k :| 0 <= k < |st.stack| && st.stack[k] == b + 1 {
      assert before.stack[k] == b + 1;
    }
  }

  lemma BackslashFits(st: State, opts: GlobOptions)
    requires Tree(st, opts) && opts.backslashEscape
    ensures FitsIfOk(ParseBackslash(st, opts), opts)
  {
    hide Tree, PushToken, CanonicalToken, Fits;
    BumpedTree(st, opts);
    match Bump(st).cur
    case None =>
    case Some(c) =>
      EscapedIsCanonical(c, IsInside(st), opts);
      PushOther(Bump(st), Literal(c), opts);
  }

  lemma EscapedIsCanonical(c: char, inside: bool, opts: GlobOptions)
    requires opts.backslashEscape
    ensures CanonicalToken(Literal(c), inside, opts)
  {
  }

  // ----- rounds and runs -----

  predicate Good(st: State, opts: GlobOptions) {
    Inv(st) && Fits(st, opts)
  }

  // A branch that is about to end does not end in stars that would be a component.
  lemma EndsWell(before: State)
    requires before.branches != [] && Around(before, LastBranch(before), IsInside(before))
    ensures ClosingNext(before, IsInside(before)) ==> !EndsOpen(LastBranch(before), IsInside(before))
  {
  }

  lemma RoundFits(before: State, opts: GlobOptions)
    requires Good(before, opts) && before.chars != "" && opts.backslashEscape
    ensures FitsIfOk(ParseChar(before.chars[0], Bump(before), opts), opts)
  {
    var c, st := before.chars[0], Bump(before);
    BumpKeeps(before);
    BumpedTree(before, opts);
    EndsWell(before);
    ShapeOf(before);
    hide Tree, WellFormed, PushToken, ParseStar, ParseClass, PopAlternate, ParseComma, ParseBackslash, PushAlternate, Around, CanonicalToken,
         Sound, EndsOpen, StackShape;
    match c {
      case '?' => AnyIsCanonical(IsInside(st), opts); PushOther(st, Any, opts);
      case '*' => StarFits(before, opts);
      case '[' =>
        if st.foundUnclosedClass {
          EscapedIsCanonical(c, IsInside(st), opts);
          PushOther(st, Literal(c), opts);
        } else {
          ClassFits(st, opts);
        }
      case '{' => OpenFits(st, opts);
      case '}' => CloseFits(st, opts);
      case ',' => CommaFits(st, opts);
      case '\\' => BackslashFits(st, opts);
      case _ => EscapedIsCanonical(c, IsInside(st), opts); PushOther(st, Literal(c), opts);
    }
  }

  lemma AnyIsCanonical(inside: bool, opts: GlobOptions)
    ensures CanonicalToken(Any, inside, opts)
  {
  }

  lemma {:induction false} LoopGood(st: State, opts: GlobOptions)
    requires Good(st, opts) && opts.backslashEscape && ParseLoop(st, opts).Ok?
    ensures var end := ParseLoop(st, opts).value;
            |end.branches| == 1 ==> WellFormed(end.branches[0].list) && Canonical(end.branches[0].list, false, opts)
    decreases |st.chars|
  {
    hide Inv, Fits, ParseChar, WellFormed, Canonical;
    GoodShape(st, opts);
    if st.chars == "" {
      GoodEnd(st, opts);
    } else {
      var next := Bump(st);
      ParseCharShape(st.chars[0], next, opts);
      RoundKeeps(st, opts);
      RoundFits(st, opts);
      LoopGood(ParseChar(st.chars[0], next, opts).value, opts);
    }
  }

  lemma GoodShape(st: State, opts: GlobOptions)
    requires Good(st, opts)
    ensures StackShape(st) && StackShape(Bump(st))
  {
    hide WellFormed, Fits;
    ShapeOf(st);
  }

  lemma GoodEnd(st: State, opts: GlobOptions)
    requires Good(st, opts) && opts.backslashEscape && st.chars == ""
    ensures |st.branches| == 1 ==> WellFormed(st.branches[0].list) && Canonical(st.branches[0].list, false, opts)
  {
    hide WellFormed, AllCanonical, EndsOpen, Canonical;
    if |st.branches| == 1 {
      FinishedIsCanonical(st.branches[0].list, false, opts);
    }
  }

  lemma InitialGood(glob: string, opts: GlobOptions)
    ensures Good(Initial(glob), opts)
  {
    InitialInv(glob);
  }

  // ----- the trees of globs -----

  // The tokens of every glob that parses are in canonical form.
  lemma ParsedIsCanonical(glob: string, opts: GlobOptions)
    requires opts.backslashEscape && Build(glob, opts).Ok?
    ensures Canonical(Build(glob, opts).value.tokens, false, opts)
  {
    hide ParseLoop, Canonical, Good;
    InitialGood(glob, opts);
    LoopGood(Initial(glob), opts);
  }

  predicate Parses(glob: string, opts: GlobOptions, toks: seq<Token>) {
    Build(glob, opts) == Ok(Glob(glob, opts, toks))
  }

  // The canonical trees are exactly those that the parser gives.
  lemma ParserTreesExactly(toks: seq<Token>, opts: GlobOptions)
    requires opts.backslashEscape
    ensures Canonical(toks, false, opts) <==> exists glob :: Parses(glob, opts, toks)
  {
    hide Build, Canonical, PrintGlob;
    if Canonical(toks, false, opts) {
      PrintedGlobsParse(toks, opts);
      assert Parses(PrintGlob(toks, opts), opts, toks);
    }
    if glob :| Parses(glob, opts, toks) {
      ParsedIsCanonical(glob, opts);
    }
  }

  // Every glob has a normal form with the same tokens, which is its own normal form.
  lemma NormalForm(glob: string, opts: GlobOptions)
    requires opts.backslashEscape && Build(glob, opts).Ok?
    ensures var toks := Build(glob, opts).value.tokens;
            var normal := PrintGlob(toks, opts);
            Parses(normal, opts, toks) && PrintGlob(Build(normal, opts).value.tokens, opts) == normal
  {
    hide Build, Canonical, PrintGlob;
    ParsedIsCanonical(glob, opts);
    PrintedGlobsParse(Build(glob, opts).value.tokens, opts);
  }
}
