/** The compiler is correct: the expression emitted for a token tree has the tree's meaning. */
module CompilerProofs {
  import opened Utf8
  import opened Regexes
  import opened Tokens
  import opened Compiler

  lemma {:induction false} MatchBytes(bs: seq<byte>, opts: GlobOptions, w: seq<byte>)
    ensures Matches(ByteItems(bs), opts.caseInsensitive, w) <==> SameBytes(opts, w, bs)
  {
    var re, ci := ByteItems(bs), opts.caseInsensitive;
    if bs == [] {
    } else {
      assert re[1..] == ByteItems(bs[1..]);
      MatchSplits(re, ci, w);
      if Matches(re, ci, w) {
        var k :| Splits(re, ci, w, k);
        MatchBytes(bs[1..], opts, w[1..]);
        assert forall i | 1 <= i < |w| :: w[i] == w[1..][i - 1] && bs[i] == bs[1..][i - 1];
      }
      if SameBytes(opts, w, bs) {
        MatchBytes(bs[1..], opts, w[1..]);
        assert Splits(re, ci, w, 1);
      }
    }
  }

  // A starred set followed by one more byte set.
  lemma MatchStarOne(c: ByteSet, d: ByteSet, ci: bool, w: seq<byte>)
    ensures Matches([Star(c), One(d)], ci, w) <==>
            w != [] && AllHold(c, ci, w[..|w| - 1]) && Holds(d, ci, w[|w| - 1])
  {
    hide Matches, Holds;
    var re := [Star(c), One(d)];
    assert re[1..] == [One(d)];
    MatchSplits(re, ci, w);
    forall k | 0 <= k <= |w| {
      SingleItem(One(d), ci, w[k..]);
    }
    if w != [] && AllHold(c, ci, w[..|w| - 1]) && Holds(d, ci, w[|w| - 1]) {
      assert Splits(re, ci, w, |w| - 1);
    }
  }

  // One byte followed by an expression.
  lemma MatchOneThen(c: ByteSet, rest: Regex, ci: bool, w: seq<byte>)
    ensures Matches([One(c)] + rest, ci, w) <==> w != [] && Holds(c, ci, w[0]) && Matches(rest, ci, w[1..])
  {
    hide Matches, Holds;
    var re := [One(c)] + rest;
    assert re[1..] == rest;
    MatchSplits(re, ci, w);
    if w != [] && Holds(c, ci, w[0]) && Matches(rest, ci, w[1..]) {
      assert Splits(re, ci, w, 1);
    }
  }

  lemma MatchTwoBranches(a: Regex, b: Regex, ci: bool, w: seq<byte>)
    ensures Matches([Group([Branch(a), Branch(b)])], ci, w) <==> Matches(a, ci, w) || Matches(b, ci, w)
  {
    hide Matches;
    var branches := [Branch(a), Branch(b)];
    SingleItem(Group(branches), ci, w);
    assert branches[0].re == a && branches[1].re == b;
  }

  lemma MatchRecursivePrefix(opts: GlobOptions, w: seq<byte>)
    ensures Matches(CompileToken(RecursivePrefix, opts), opts.caseInsensitive, w) <==> Denotes(RecursivePrefix, opts, w)
  {
    hide Matches;
    var ci := opts.caseInsensitive;
    MatchTwoBranches([Maybe(Exactly(SLASH))], [Star(AnyByte), ONE_SLASH], ci, w);
    SingleItem(Maybe(Exactly(SLASH)), ci, w);
    MatchStarOne(AnyByte, Exactly(SLASH), ci, w);
  }

  lemma MatchRecursiveSuffix(opts: GlobOptions, w: seq<byte>)
    ensures Matches(CompileToken(RecursiveSuffix, opts), opts.caseInsensitive, w) <==> Denotes(RecursiveSuffix, opts, w)
  {
    hide Matches;
    var ci := opts.caseInsensitive;
    assert [ONE_SLASH, Star(AnyByte)] == [ONE_SLASH] + [Star(AnyByte)];
    MatchOneThen(Exactly(SLASH), [Star(AnyByte)], ci, w);
    if w != [] {
      SingleItem(Star(AnyByte), ci, w[1..]);
    }
  }

  lemma MatchRecursiveZeroOrMore(opts: GlobOptions, w: seq<byte>)
    ensures Matches(CompileToken(RecursiveZeroOrMore, opts), opts.caseInsensitive, w) <==>
            Denotes(RecursiveZeroOrMore, opts, w)
  {
    hide Matches;
    var ci := opts.caseInsensitive;
    MatchTwoBranches([ONE_SLASH], [ONE_SLASH, Star(AnyByte), ONE_SLASH], ci, w);
    SingleItem(ONE_SLASH, ci, w);
    assert [ONE_SLASH, Star(AnyByte), ONE_SLASH] == [ONE_SLASH] + [Star(AnyByte), ONE_SLASH];
    MatchOneThen(Exactly(SLASH), [Star(AnyByte), ONE_SLASH], ci, w);
    if w != [] {
      MatchStarOne(AnyByte, Exactly(SLASH), ci, w[1..]);
    }
  }

  // A branch is dropped by the compiler exactly when nothing is emitted for it.
  lemma {:induction false} EmptyExpression(toks: seq<Token>, opts: GlobOptions)
    ensures Compile(toks, opts) == [] <==> EmitsNothing(toks, opts)
    decreases toks
  {
    if toks == [] {
    } else {
      EmptyExpression(toks[1..], opts);
      assert toks == [toks[0]] + toks[1..];
      if toks[0].Alternates? {
        EmptyGroup(toks[0].branches, opts);
      }
    }
  }

  lemma {:induction false} EmptyGroup(branches: seq<Tokens>, opts: GlobOptions)
    ensures CompileBranches(branches, opts) == [] <==> DropsAll(branches, opts)
    decreases branches
  {
    if branches == [] {
    } else {
      EmptyExpression(branches[0].list, opts);
      EmptyGroup(branches[1..], opts);
      assert branches == [branches[0]] + branches[1..];
    }
  }

  ghost predicate SomeBranchMatches(parts: seq<Branch>, ci: bool, w: seq<byte>) {
    exists j | 0 <= j < |parts| :: Matches(parts[j].re, ci, w)
  }

  ghost predicate SomeLiveBranch(branches: seq<Tokens>, opts: GlobOptions, w: seq<byte>) {
    exists b | b in branches :: IsLive(b, opts) && Lang(b.list, opts, w)
  }

  lemma {:induction false} BranchesCorrect(branches: seq<Tokens>, opts: GlobOptions, w: seq<byte>)
    ensures SomeBranchMatches(CompileBranches(branches, opts), opts.caseInsensitive, w) <==>
            SomeLiveBranch(branches, opts, w)
    decreases branches
  {
    if branches != [] {
      hide SomeBranchMatches, SomeLiveBranch, EmitsNothing, Lang, Matches;
      var ci, head, rest := opts.caseInsensitive, branches[0], CompileBranches(branches[1..], opts);
      CompileCorrect(head.list, opts, w);
      EmptyExpression(head.list, opts);
      BranchesCorrect(branches[1..], opts, w);
      OneMoreBranch(Compile(head.list, opts), rest, ci, w);
      OneMoreLive(head, branches[1..], opts, w);
      assert branches == [head] + branches[1..];
      assert CompileBranches(branches, opts) == if IsLive(head, opts) then [Branch(Compile(head.list, opts))] + rest else rest;
    } else {
      assert CompileBranches(branches, opts) == [];
    }
  }

  lemma OneMoreBranch(re: Regex, rest: seq<Branch>, ci: bool, w: seq<byte>)
    ensures SomeBranchMatches([Branch(re)] + rest, ci, w) <==> Matches(re, ci, w) || SomeBranchMatches(rest, ci, w)
  {
    hide Matches;
    var parts := [Branch(re)] + rest;
    assert parts[0].re == re;
    assert forall j | 0 <= j < |rest| :: parts[j + 1] == rest[j];
  }

  lemma OneMoreLive(b: Tokens, rest: seq<Tokens>, opts: GlobOptions, w: seq<byte>)
    ensures SomeLiveBranch([b] + rest, opts, w) <==> (IsLive(b, opts) && Lang(b.list, opts, w)) || SomeLiveBranch(rest, opts, w)
  {
    hide Lang, IsLive;
  }

  lemma {:induction false} TokenCorrect(t: Token, opts: GlobOptions, w: seq<byte>)
    ensures Matches(CompileToken(t, opts), opts.caseInsensitive, w) <==> Denotes(t, opts, w)
    decreases t
  {
    hide Matches, EncodeChar, SameBytes, ClassSpans, InSpans, EmitsNothing, CompileBranches, Compile;
    var ci := opts.caseInsensitive;
    match t
    case Literal(c) => MatchBytes(EncodeChar(c), opts, w);
    case Any => SingleItem(One(Wildcard(opts)), ci, w); AllWild(opts, w);
    case ZeroOrMore => SingleItem(Star(Wildcard(opts)), ci, w); AllWild(opts, w);
    case RecursivePrefix => MatchRecursivePrefix(opts, w);
    case RecursiveSuffix => MatchRecursiveSuffix(opts, w);
    case RecursiveZeroOrMore => MatchRecursiveZeroOrMore(opts, w);
    case Class(negated, ranges) => SingleItem(One(Bracket(negated, ClassSpans(ranges))), ci, w);
    case Alternates(branches) =>
      BranchesCorrect(branches, opts, w);
      AlternatesCorrect(branches, opts, w);
  }

  lemma AlternatesCorrect(branches: seq<Tokens>, opts: GlobOptions, w: seq<byte>)
    requires SomeBranchMatches(CompileBranches(branches, opts), opts.caseInsensitive, w) <==> SomeLiveBranch(branches, opts, w)
    ensures Matches(CompileToken(Alternates(branches), opts), opts.caseInsensitive, w) <==> Denotes(Alternates(branches), opts, w)
  {
    var parts := CompileBranches(branches, opts);
    EmptyGroup(branches, opts);
    if parts != [] {
      SingleItem(Group(parts), opts.caseInsensitive, w);
    }
  }

  lemma AllWild(opts: GlobOptions, w: seq<byte>)
    ensures AllHold(Wildcard(opts), opts.caseInsensitive, w) <==> (opts.literalSeparator ==> SLASH !in w)
  {
    if AllHold(Wildcard(opts), opts.caseInsensitive, w) && opts.literalSeparator {
      forall i | 0 <= i < |w| ensures w[i] != SLASH {
        assert Holds(NOT_SLASH, opts.caseInsensitive, w[i]);
        assert NOT_SLASH.spans[0] == Span(SLASH, SLASH);
      }
    }
  }

  // The emitted expression matches s if and only if the tokens stand for s.
  lemma {:induction false} CompileCorrect(toks: seq<Token>, opts: GlobOptions, s: seq<byte>)
    ensures Matches(Compile(toks, opts), opts.caseInsensitive, s) <==> Lang(toks, opts, s)
    decreases toks
  {
    if toks == [] {
    } else {
      var ci, a, b := opts.caseInsensitive, CompileToken(toks[0], opts), Compile(toks[1..], opts);
      MatchConcat(a, b, ci, s);
      LangTakes(toks, opts, s);
      forall k | 0 <= k <= |s|
        ensures Cuts(a, b, ci, s, k) <==> Takes(toks, opts, s, k)
      {
        TokenCorrect(toks[0], opts, s[..k]);
        CompileCorrect(toks[1..], opts, s[k..]);
      }
    }
  }
}
