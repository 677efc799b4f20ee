/** What every round of the parser keeps, and what that says of the tokens of a parsed glob. */
module ParserInvariants {
  import opened Tokens
  import opened GlobParser

  predicate GoodRanges(ranges: seq<(char, char)>) {
    forall r | r in ranges :: r.0 <= r.1
  }

  // A `**/` is only found first and a `/**` only last, at every depth; classes are not empty and
  // their ranges are not reversed; a brace group has a branch.
  predicate WellFormed(toks: seq<Token>)
    decreases toks
  {
    forall i | 0 <= i < |toks| ::
      && GoodToken(toks[i])
      && (toks[i].RecursivePrefix? ==> i == 0)
      && (toks[i].RecursiveSuffix? ==> i == |toks| - 1)
  }

  predicate GoodToken(t: Token)
    decreases t
  {
    && (t.Class? ==> t.ranges != [] && GoodRanges(t.ranges))
    && (t.Alternates? ==> t.branches != [] && forall b | b in t.branches :: WellFormed(b.list))
  }

  predicate EndsInSuffix(toks: seq<Token>) {
    toks != [] && toks[|toks| - 1].RecursiveSuffix?
  }

  predicate AllWellFormed(branches: seq<Tokens>) {
    forall i | 0 <= i < |branches| :: WellFormed(branches[i].list)
  }

  // The branch inside which a brace was opened did not end in `/**`.
  predicate OpenersClean(st: State)
    requires StackShape(st)
  {
    forall k | 0 <= k < |st.stack| :: StackEntry(st, k) && !EndsInSuffix(st.branches[st.stack[k] - 1].list)
  }

  predicate StackEntry(st: State, k: nat)
    requires k < |st.stack|
  {
    1 <= st.stack[k] < |st.branches|
  }

  lemma StackEntries(st: State)
    requires StackShape(st)
    ensures forall k | 0 <= k < |st.stack| :: StackEntry(st, k)
    ensures st.branches != []
    ensures |st.branches| >= 2 <==> st.stack != []
  {
    forall k | 0 <= k < |st.stack|
      ensures StackEntry(st, k)
    {
      assert st.stack[0] <= st.stack[k] <= st.stack[|st.stack| - 1];
    }
    assert st.stack != [] ==> StackEntry(st, 0);
  }

  // Once a branch ends in `/**`, the next character ends the branch.
  predicate ClosingAhead(st: State) {
    st.chars == "" || (st.stack != [] && (st.chars[0] == ',' || st.chars[0] == '}'))
  }

  predicate Sound(st: State) {
    StackShape(st) && AllWellFormed(st.branches) && OpenersClean(st)
  }

  predicate Inv(st: State) {
    Sound(st) && (EndsInSuffix(LastBranch(st)) ==> ClosingAhead(st))
  }

  lemma AppendWellFormed(toks: seq<Token>, tok: Token)
    requires WellFormed(toks) && !EndsInSuffix(toks) && GoodToken(tok) && (tok.RecursivePrefix? ==> toks == [])
    ensures WellFormed(toks + [tok])
  {
    var all := toks + [tok];
    forall i | 0 <= i < |all|
      ensures GoodToken(all[i]) && (all[i].RecursivePrefix? ==> i == 0) && (all[i].RecursiveSuffix? ==> i == |all| - 1)
    {
      assert i < |toks| ==> all[i] == toks[i];
    }
  }

  lemma WithLastKeeps(st: State, toks: seq<Token>)
    requires Sound(st) && WellFormed(toks)
    ensures Sound(WithLast(st, toks)) && LastBranch(WithLast(st, toks)) == toks
  {
    hide WellFormed, OpenersClean, StackShape;
    StackEntries(st);
    ShapeAlike(st, WithLast(st, toks));
    OpenersAlike(st, WithLast(st, toks));
  }

  lemma OpenersAlike(st: State, after: State)
    requires StackShape(st) && OpenersClean(st) && after.stack == st.stack && |after.branches| == |st.branches|
    requires forall i | 0 <= i < |st.branches| - 1 :: after.branches[i] == st.branches[i]
    ensures StackShape(after) && OpenersClean(after)
  {
    StackEntries(st);
    ShapeAlike(st, after);
    hide StackShape;
    forall k | 0 <= k < |after.stack|
      ensures StackEntry(after, k) && !EndsInSuffix(after.branches[after.stack[k] - 1].list)
    {
      assert StackEntry(st, k);
      assert !EndsInSuffix(st.branches[st.stack[k] - 1].list);
    }
  }

  lemma ShapeAlike(st: State, after: State)
    requires StackShape(st) && after.stack == st.stack && |after.branches| == |st.branches|
    ensures StackShape(after)
  {
  }

  lemma PushKeeps(st: State, tok: Token)
    requires Sound(st) && !EndsInSuffix(LastBranch(st)) && GoodToken(tok)
    requires tok.RecursivePrefix? ==> LastBranch(st) == []
    ensures PushToken(st, tok).Ok?
    ensures var after := PushToken(st, tok).value;
            && Sound(after) && LastBranch(after) == LastBranch(st) + [tok]
            && after.chars == st.chars && after.stack == st.stack
  {
    hide WellFormed;
    AppendWellFormed(LastBranch(st), tok);
    WithLastKeeps(st, LastBranch(st) + [tok]);
  }

  // r is an error or again fulfils the invariant.
  predicate KeepsInv(r: Step) {
    r.Ok? ==> Inv(r.value)
  }

  lemma PushSimpleKeeps(st: State, tok: Token)
    requires Sound(st) && !EndsInSuffix(LastBranch(st)) && GoodToken(tok)
    requires !tok.RecursivePrefix? && !tok.RecursiveSuffix?
    ensures KeepsInv(PushToken(st, tok)) && PushToken(st, tok).Ok?
    ensures !EndsInSuffix(LastBranch(PushToken(st, tok).value))
  {
    hide Sound, GoodToken;
    PushKeeps(st, tok);
  }

  lemma BumpKeeps(st: State)
    requires Sound(st)
    ensures Sound(Bump(st)) && LastBranch(Bump(st)) == LastBranch(st)
  {
    hide WellFormed;
    assert Bump(st).branches == st.branches && Bump(st).stack == st.stack;
    StackEntries(st);
  }

  lemma PushTwoStarsKeeps(st: State)
    requires Sound(st) && !EndsInSuffix(LastBranch(st))
    ensures KeepsInv(PushTwoStars(st))
  {
    hide Sound, PushToken;
    PushSimpleKeeps(st, ZeroOrMore);
    PushSimpleKeeps(PushToken(st, ZeroOrMore).value, ZeroOrMore);
  }

  // Exchanging the last token for its recursive form.
  lemma RecursiveKeeps(st: State, isSuffix: bool)
    requires Sound(st) && LastBranch(st) != [] && !EndsInSuffix(LastBranch(st))
    ensures var toks := LastBranch(st);
            var after := WithLast(st, toks[..|toks| - 1] + [Recursive(toks[|toks| - 1], isSuffix)]);
            Sound(after) && (EndsInSuffix(LastBranch(after)) ==> isSuffix)
  {
    var toks := LastBranch(st);
    var n := |toks| - 1;
    var front, tok := toks[..n], Recursive(toks[n], isSuffix);
    LastIsWellFormed(st);
    FrontIsWellFormed(toks);
    AppendWellFormed(front, tok);
    hide Sound, WellFormed;
    WithLastKeeps(st, front + [tok]);
  }

  lemma LastIsWellFormed(st: State)
    requires Sound(st) && st.branches != []
    ensures WellFormed(LastBranch(st))
  {
    hide WellFormed;
  }

  lemma FrontIsWellFormed(toks: seq<Token>)
    requires WellFormed(toks) && toks != []
    ensures var n := |toks| - 1;
            && WellFormed(toks[..n]) && !EndsInSuffix(toks[..n])
            && (toks[n].RecursivePrefix? ==> toks[..n] == [])
            && (forall isSuffix :: GoodToken(Recursive(toks[n], isSuffix)))
            && (!toks[n].RecursivePrefix? ==> forall isSuffix :: !Recursive(toks[n], isSuffix).RecursivePrefix?)
  {
  }

  lemma {:induction false} ParseStarKeeps(st: State)
    requires Sound(st) && !EndsInSuffix(LastBranch(st))
    ensures KeepsInv(ParseStar(st))
  {
    hide Inv, Sound, PushToken, PushTwoStars, ParsePrefixStars, ParseInnerStars, EndsInSuffix;
    BumpKeeps(st);
    PushSimpleKeeps(st, ZeroOrMore);
    var st2 := Bump(st);
    StackOf(st2);
    PushTwoStarsKeeps(st2);
    if LastBranch(st2) == [] {
      PrefixStarsKeep(st2);
    } else {
      InnerStarsKeep(st2);
    }
  }

  lemma PrefixStarsKeep(st: State)
    requires Sound(st) && LastBranch(st) == []
    ensures KeepsInv(ParsePrefixStars(st))
  {
    hide Sound, PushToken, PushTwoStars;
    PushTwoStarsKeeps(st);
    PushKeeps(st, RecursivePrefix);
    BumpKeeps(PushToken(st, RecursivePrefix).value);
  }

  lemma InnerStarsKeep(st: State)
    requires Sound(st) && LastBranch(st) != [] && !EndsInSuffix(LastBranch(st))
    ensures st.branches != [] && KeepsInv(ParseInnerStars(st))
  {
    hide Sound, WellFormed, PushToken, PushTwoStars, Recursive;
    StackOf(st);
    PushTwoStarsKeeps(st);
    BumpKeeps(st);
    RecursiveKeeps(st, true);
    RecursiveKeeps(Bump(st), true);
    RecursiveKeeps(Bump(st), false);
  }

  lemma StackOf(st: State)
    requires Sound(st)
    ensures st.branches != [] && (|st.branches| >= 2 <==> st.stack != [])
  {
    hide WellFormed;
    StackEntries(st);
  }

  lemma {:induction false} ScanIsGood(st: State, ranges: seq<(char, char)>, first: bool, inRange: bool)
    requires ((!first || inRange) ==> ranges != []) && GoodRanges(ranges)
    ensures var r := ScanClass(st, ranges, first, inRange);
            && (r.Closed? ==> r.ranges != [] && GoodRanges(r.ranges) && r.st.branches == st.branches && r.st.stack == st.stack)
            && (r.BadRange? ==> r.hi < r.lo)
    decreases |st.chars|
  {
    if st.chars == "" {
    } else {
      MoveIsGood(st.chars[0], ranges, first, inRange);
      hide ScanMove, GoodRanges;
      var m := ScanMove(st.chars[0], ranges, first, inRange);
      if m.Go? {
        ScanIsGood(Bump(st), m.ranges, false, m.inRange);
      }
    }
  }

  lemma MoveIsGood(c: char, ranges: seq<(char, char)>, first: bool, inRange: bool)
    requires ((!first || inRange) ==> ranges != []) && GoodRanges(ranges)
    ensures match ScanMove(c, ranges, first, inRange)
            case Close(closed) => closed != [] && GoodRanges(closed)
            case Bad(lo, hi) => hi < lo
            case Go(more, _) => GoodRanges(more)
  {
  }

  lemma ParseClassKeeps(st: State, opts: GlobOptions)
    requires Sound(st) && !EndsInSuffix(LastBranch(st))
    ensures KeepsInv(ParseClass(st, opts))
  {
    hide Sound, WellFormed, PushToken;
    var negated := IsNegation(Peek(st));
    var from := if negated then Bump(st) else st;
    BumpKeeps(st);
    ScanIsGood(from, [], true, false);
    match ScanClass(from, [], true, false)
    case Closed(end, ranges) =>
      SameBranches(st, end);
      PushSimpleKeeps(end, Class(negated, ranges));
    case BadRange(_, _) =>
    case Unclosed =>
      SameBranches(st, st.(foundUnclosedClass := true));
      PushSimpleKeeps(st.(foundUnclosedClass := true), Literal('['));
  }

  lemma SameBranches(a: State, b: State)
    requires Sound(a) && b.branches == a.branches && b.stack == a.stack
    ensures Sound(b) && LastBranch(b) == LastBranch(a)
  {
    hide WellFormed;
    StackEntries(b);
  }

  lemma OpenBraceKeeps(st: State)
    requires Sound(st) && !EndsInSuffix(LastBranch(st))
    ensures Inv(PushAlternate(st))
  {
    hide WellFormed;
    NewBranchIsWellFormed();
    StackEntries(st);
    var after := PushAlternate(st);
    assert after.stack[|st.stack|] == |st.branches|;
    forall k | 0 <= k < |after.stack|
      ensures StackEntry(after, k) && !EndsInSuffix(after.branches[after.stack[k] - 1].list)
    {
      assert k < |st.stack| ==> StackEntry(st, k);
    }
  }

  lemma NewBranchIsWellFormed()
    ensures WellFormed([])
  {
  }

  lemma CommaKeeps(st: State)
    requires Sound(st) && (st.stack == [] ==> !EndsInSuffix(LastBranch(st)))
    ensures KeepsInv(ParseComma(st))
  {
    hide WellFormed;
    NewBranchIsWellFormed();
    StackEntries(st);
    if st.stack == [] {
      PushSimpleKeeps(st, Literal(','));
    } else {
      var after := st.(branches := st.branches + [Tokens([])]);
      forall k | 0 <= k < |after.stack|
        ensures StackEntry(after, k) && !EndsInSuffix(after.branches[after.stack[k] - 1].list)
      {
        assert StackEntry(st, k);
      }
    }
  }

  lemma CloseBraceKeeps(st: State)
    requires Sound(st)
    ensures KeepsInv(PopAlternate(st))
  {
    hide WellFormed;
    StackEntries(st);
    if st.stack != [] {
      var n := |st.stack| - 1;
      var start := st.stack[n];
      var before := st.(stack := st.stack[..n], branches := st.branches[..start]);
      assert StackEntry(st, n);
      forall k | 0 <= k < n
        ensures StackEntry(before, k) && !EndsInSuffix(before.branches[before.stack[k] - 1].list)
      {
        assert StackEntry(st, k) && st.stack[k] < st.stack[n];
      }
      assert before.branches[start - 1] == st.branches[start - 1];
      PushSimpleKeeps(before, Alternates(st.branches[start..]));
    }
  }

  lemma {:induction false} BackslashKeeps(st: State, opts: GlobOptions)
    requires Sound(st) && !EndsInSuffix(LastBranch(st))
    ensures KeepsInv(ParseBackslash(st, opts))
  {
    hide Sound, WellFormed, PushToken;
    PushSimpleKeeps(st, Literal('\\'));
    BumpKeeps(st);
    if Bump(st).cur.Some? {
      PushSimpleKeeps(Bump(st), Literal(Bump(st).cur.value));
    }
  }

  lemma RoundKeeps(st: State, opts: GlobOptions)
    requires Inv(st) && st.chars != ""
    ensures KeepsInv(ParseChar(st.chars[0], Bump(st), opts))
  {
    hide Sound, WellFormed, PushToken, ParseStar, ParseClass, PopAlternate, ParseComma, ParseBackslash, PushAlternate;
    var c, next := st.chars[0], Bump(st);
    BumpKeeps(st);
    if c == '}' {
      CloseBraceKeeps(next);
    } else if c == ',' {
      CommaKeeps(next);
    } else {
      ParseStarKeeps(next);
      ParseClassKeeps(next, opts);
      OpenBraceKeeps(next);
      BackslashKeeps(next, opts);
      PushSimpleKeeps(next, Any);
      PushSimpleKeeps(next, Literal(c));
    }
  }

  lemma ShapeOf(st: State)
    requires Sound(st)
    ensures StackShape(st) && StackShape(Bump(st))
  {
  }

  // ----- whole runs -----

  // b is the state of the parser n rounds after it was in state a.
  predicate Reaches(a: State, b: State, opts: GlobOptions, n: nat)
    requires StackShape(a)
    decreases n
  {
    if n == 0 then a == b
    else
      && a.chars != ""
      && var next := Bump(a);
      && (ParseCharShape(a.chars[0], next, opts); ParseChar(a.chars[0], next, opts).Ok?)
      && Reaches(ParseChar(a.chars[0], next, opts).value, b, opts, n - 1)
  }

  lemma InitialInv(glob: string)
    ensures Inv(Initial(glob))
  {
  }

  // In every state that parsing any glob passes through: there is more than one branch exactly
  // while a brace is open, and the tokens so far are well formed.
  lemma {:induction false} ReachableStates(a: State, st: State, opts: GlobOptions, n: nat)
    requires Inv(a) && Reaches(a, st, opts, n)
    ensures Inv(st) && (|st.branches| >= 2 <==> st.stack != []) && st.branches != []
    decreases n
  {
    hide WellFormed, ParseChar;
    if n == 0 {
      StackEntries(st);
    } else {
      hide Sound;
      RoundKeeps(a, opts);
      ReachableStates(ParseChar(a.chars[0], Bump(a), opts).value, st, opts, n - 1);
    }
  }

  lemma {:induction false} LoopKeeps(st: State, opts: GlobOptions)
    requires Inv(st) && ParseLoop(st, opts).Ok?
    ensures Inv(ParseLoop(st, opts).value)
    decreases |st.chars|
  {
    hide Sound, ParseChar;
    ShapeOf(st);
    if st.chars == "" {
      assert EndsInSuffix(LastBranch(st)) ==> ClosingAhead(Bump(st));
      BumpKeeps(st);
    } else {
      var next := Bump(st);
      ParseCharShape(st.chars[0], next, opts);
      RoundKeeps(st, opts);
      LoopKeeps(ParseChar(st.chars[0], next, opts).value, opts);
    }
  }

  // The tokens of every glob that parses are well formed.
  lemma ParsedGlobsAreWellFormed(glob: string, opts: GlobOptions)
    requires Build(glob, opts).Ok?
    ensures WellFormed(Build(glob, opts).value.tokens)
  {
    hide ParseLoop, WellFormed;
    InitialInv(glob);
    LoopKeeps(Initial(glob), opts);
    var st := ParseLoop(Initial(glob), opts).value;
  }
}
