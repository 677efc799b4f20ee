/** Alternatives in braces as they are written, and braces that nothing closes. */
module BraceTexts {
  import opened Wrappers
  import opened Utf8
  import opened Text
  import opened Tokens
  import opened Compiler
  import opened Languages
  import opened StrategyProofs
  import opened GlobParser
  import opened RepeatedStars

  // A text that stands for itself inside braces too.
  predicate IsPlainBranch(s: string) {
    IsPlain(s) && ',' !in s
  }

  // The parser is behind front, which was pushed to the last branch of st.
  predicate Behind(st: State, end: State, front: seq<Token>, rest: string)
    requires st.branches != []
  {
    && end.chars == rest && end.stack == st.stack && !end.foundUnclosedClass
    && end.branches == st.branches[|st.branches| - 1 := Tokens(LastBranch(st) + front)]
  }

  lemma BranchRound(st: State, c: char, rest: string, opts: GlobOptions) returns (next: State)
    requires StackShape(st) && !st.foundUnclosedClass && st.chars == [c] + rest && IsPlainChar(c) && c != ','
    ensures StackShape(next) && ParseLoop(st, opts) == ParseLoop(next, opts) && Behind(st, next, [Literal(c)], rest)
  {
    hide ParseLoop;
    FirstOf(c, rest);
    next := ParseChar(c, Bump(st), opts).value;
    LoopRound(st, next, opts);
    hide StackShape;
  }

  lemma {:induction false} ReadBranch(st: State, text: string, rest: string, opts: GlobOptions) returns (end: State)
    requires StackShape(st) && !st.foundUnclosedClass && st.chars == text + rest && IsPlainBranch(text)
    ensures StackShape(end) && ParseLoop(st, opts) == ParseLoop(end, opts) && Behind(st, end, Literals(text), rest)
    decreases |text|
  {
    hide ParseLoop, StackShape, Literals, Behind;
    if text == "" {
      assert text + rest == rest;
      ReadNothing(st, rest);
      end := st;
    } else {
      var c, more := text[0], text[1..];
      assert text + rest == [c] + (more + rest) && text == [c] + more;
      assert c in text && forall x | x in more :: x in text;
      var mid := BranchRound(st, c, more + rest, opts);
      KeepsBranches(st, mid, [Literal(c)], more + rest);
      end := ReadBranch(mid, more, rest, opts);
      LiteralsFirst(c, more);
      TwoPieces(st, mid, end, c, more, rest);
    }
  }

  lemma ReadNothing(st: State, rest: string)
    requires StackShape(st) && !st.foundUnclosedClass && st.chars == rest
    ensures st.branches != [] && Behind(st, st, Literals(""), rest)
  {
    assert LastBranch(st) + Literals("") == LastBranch(st);
  }

  lemma KeepsBranches(st: State, mid: State, toks: seq<Token>, rest: string)
    requires StackShape(st) && Behind(st, mid, toks, rest)
    ensures st.branches != [] && mid.branches != [] && mid.chars == rest && !mid.foundUnclosedClass
  {
  }

  lemma TwoPieces(st: State, mid: State, end: State, c: char, more: string, rest: string)
    requires st.branches != [] && Behind(st, mid, [Literal(c)], more + rest)
    requires mid.branches != [] && Behind(mid, end, Literals(more), rest)
    ensures Behind(st, end, [Literal(c)] + Literals(more), rest)
  {
    assert LastBranch(st) + [Literal(c)] + Literals(more) == LastBranch(st) + ([Literal(c)] + Literals(more));
  }

  // ----- one group -----

  // The states in front of the brace, behind it, behind the comma and at the end.
  lemma OpenRound(st: State, front: seq<Token>, rest: string, opts: GlobOptions) returns (next: State)
    requires st.branches == [Tokens(front)] && st.stack == [] && !st.foundUnclosedClass && st.chars == "{" + rest
    ensures StackShape(st) && StackShape(next) && ParseLoop(st, opts) == ParseLoop(next, opts)
    ensures next.branches == [Tokens(front), Tokens([])] && next.stack == [1] && !next.foundUnclosedClass && next.chars == rest
  {
    FirstOf('{', rest);
    next := ParseChar('{', Bump(st), opts).value;
    LoopRound(st, next, opts);
    hide ParseLoop;
  }

  lemma CommaRound(st: State, front: seq<Token>, a: seq<Token>, rest: string, opts: GlobOptions) returns (next: State)
    requires st.branches == [Tokens(front), Tokens(a)] && st.stack == [1] && !st.foundUnclosedClass && st.chars == "," + rest
    ensures StackShape(st) && StackShape(next) && ParseLoop(st, opts) == ParseLoop(next, opts)
    ensures next.branches == [Tokens(front), Tokens(a), Tokens([])] && next.stack == [1] && !next.foundUnclosedClass && next.chars == rest
  {
    FirstOf(',', rest);
    next := ParseChar(',', Bump(st), opts).value;
    LoopRound(st, next, opts);
    hide ParseLoop;
  }

  lemma CloseRound(st: State, front: seq<Token>, a: seq<Token>, b: seq<Token>, opts: GlobOptions) returns (next: State)
    requires st.branches == [Tokens(front), Tokens(a), Tokens(b)] && st.stack == [1] && st.chars == "}"
    ensures StackShape(st) && StackShape(next) && ParseLoop(st, opts) == ParseLoop(next, opts)
    ensures next.branches == [Tokens(front + [Alternates([Tokens(a), Tokens(b)])])] && next.chars == ""
  {
    next := ParseChar('}', Bump(st), opts).value;
    assert st.branches[1..] == [Tokens(a), Tokens(b)] && st.branches[..1] == [Tokens(front)];
    LoopRound(st, next, opts);
    hide ParseLoop;
  }

  function GroupText(front: string, a: string, b: string): string {
    front + ("{" + (a + ("," + (b + "}"))))
  }

  lemma GroupIsRead(front: string, a: string, b: string, opts: GlobOptions)
    requires IsPlainBranch(front) && IsPlainBranch(a) && IsPlainBranch(b)
    ensures var text := GroupText(front, a, b);
            Build(text, opts) == Ok(Glob(text, opts, Literals(front) + [Alternates([Tokens(Literals(a)), Tokens(Literals(b))])]))
  {
    hide ParseLoop, Literals, IsPlainBranch;
    var text, f := GroupText(front, a, b), Literals(front);
    var st := Initial(text);
    var s1 := ReadBranch(st, front, "{" + (a + ("," + (b + "}"))), opts);
    assert [] + Literals(front) == Literals(front);
    var s2 := OpenRound(s1, f, a + ("," + (b + "}")), opts);
    var s3 := ReadBranch(s2, a, "," + (b + "}"), opts);
    assert [] + Literals(a) == Literals(a);
    var s4 := CommaRound(s3, f, Literals(a), b + "}", opts);
    var s5 := ReadBranch(s4, b, "}", opts);
    assert [] + Literals(b) == Literals(b);
    var s6 := CloseRound(s5, f, Literals(a), Literals(b), opts);
    AtTheEnd(s6, opts);
  }

  lemma AtTheEnd(st: State, opts: GlobOptions)
    requires StackShape(st) && st.chars == ""
    ensures ParseLoop(st, opts).Ok? && ParseLoop(st, opts).value.branches == st.branches
  {
  }

  lemma GroupDenotes(a: string, b: string, opts: GlobOptions, w: seq<byte>)
    requires !opts.caseInsensitive
    ensures Denotes(Alternates([Tokens(Literals(a)), Tokens(Literals(b))]), opts, w) <==>
            || ((a != "" || opts.emptyAlternates) && w == Encode(a))
            || ((b != "" || opts.emptyAlternates) && w == Encode(b))
            || (a == "" && b == "" && w == [])
  {
    hide Encode, Literals, EmitsNothing;
    var branches := [Tokens(Literals(a)), Tokens(Literals(b))];
    assert branches[0] in branches && branches[1] in branches;
    LangLiterals(a, opts, w);
    LangLiterals(b, opts, w);
    EmittedText(a, opts);
    EmittedText(b, opts);
    hide Lang;
    EncodeNothing();
  }

  lemma EmittedText(s: string, opts: GlobOptions)
    ensures EmitsNothing(Literals(s), opts) <==> s == ""
  {
    if s != "" {
      assert Literals(s)[0] in Literals(s);
    }
  }

  // A text with two alternatives behind it matches the text with one of them. An empty one counts
  // only if that is asked for, or if the other is empty too.
  lemma GroupTextMatches(front: string, a: string, b: string, opts: GlobOptions, path: seq<byte>)
    requires IsPlainBranch(front) && IsPlainBranch(a) && IsPlainBranch(b) && !opts.caseInsensitive
    ensures var glob := Build(GroupText(front, a, b), opts);
            && glob.Ok?
            && (GlobMatches(glob.value, path) <==>
                || ((a != "" || opts.emptyAlternates) && path == Encode(front + a))
                || ((b != "" || opts.emptyAlternates) && path == Encode(front + b))
                || (a == "" && b == "" && path == Encode(front)))
  {
    hide Build, GlobMatches, Encode, Lang, Denotes, GroupText, Literals;
    var group, e := Alternates([Tokens(Literals(a)), Tokens(Literals(b))]), Encode(front);
    GroupIsRead(front, a, b, opts);
    var g := Build(GroupText(front, a, b), opts).value;
    assert g.tokens[|Literals(front)|] == group;
    GlobLang(g, path);
    LangLiteralsThen(front, [group], opts, path);
    EncodeConcat(front, a);
    EncodeConcat(front, b);
    if |e| <= |path| {
      var w := path[|e|..];
      SameBytesAreEqual(opts, path[..|e|], e);
      LangOne(group, opts, w);
      GroupDenotes(a, b, opts, w);
      assert path == path[..|e|] + w;
      assert forall x: seq<byte> :: (e + x)[..|e|] == e && (e + x)[|e|..] == x;
      assert e + [] == e;
    }
  }

  // A brace that nothing closes.
  lemma OpenBraceText(s: string, opts: GlobOptions)
    requires IsPlain(s)
    ensures Build("{" + s, opts) == Err(UnclosedAlternates)
  {
    hide ParseLoop, Literals, Behind;
    var st := OpenRound(Initial("{" + s), [], s, opts);
    var end := ReadOpen(st, s, opts);
    AtTheEnd(end, opts);
  }

  lemma {:induction false} ReadOpen(st: State, text: string, opts: GlobOptions) returns (end: State)
    requires StackShape(st) && !st.foundUnclosedClass && st.stack != [] && st.chars == text && IsPlain(text)
    ensures StackShape(end) && ParseLoop(st, opts) == ParseLoop(end, opts)
    ensures end.chars == "" && |end.branches| > 1
    decreases |text|
  {
    if text == "" {
      end := st;
    } else {
      assert text[0] in text && forall x | x in text[1..] :: x in text;
      var next := ParseChar(text[0], Bump(st), opts).value;
      LoopRound(st, next, opts);
      hide ParseLoop;
      end := ReadOpen(next, text[1..], opts);
    }
  }
}
