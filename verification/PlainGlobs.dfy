/** Globs that read from left to right: literal characters, escaped ones, `?` and single `*`. */
module PlainGlobs {
  import opened Wrappers
  import opened Tokens
  import opened GlobParser
  import opened RepeatedStars

  // The tokens of such a text, unless it holds something else.
  function SimpleTokens(s: string, escapes: bool): (r: Option<seq<Token>>)
    ensures r.Some? ==> IsSimple(r.value)
  {
    if s == "" then Some([])
    else if s[0] == '\\' && escapes then
      if |s| == 1 then None else Then(Literal(s[1]), SimpleTokens(s[2..], escapes))
    else if s[0] in ['[', '{', '}'] then None
    else if s[0] == '*' then
      if |s| > 1 && s[1] == '*' then None else Then(ZeroOrMore, SimpleTokens(s[1..], escapes))
    else Then(if s[0] == '?' then Any else Literal(s[0]), SimpleTokens(s[1..], escapes))
  }

  function Then(t: Token, rest: Option<seq<Token>>): Option<seq<Token>> {
    match rest
    case None => None
    case Some(toks) => Some([t] + toks)
  }

  predicate Outside(st: State) {
    |st.branches| == 1 && st.stack == []
  }

  // The state after a round that pushes t and leaves rest to be read.
  predicate Pushed(st: State, next: State, t: Token, rest: string)
    requires Outside(st)
  {
    Outside(next) && next.chars == rest && LastBranch(next) == LastBranch(st) + [t]
  }

  lemma EscapedChar(s: string, st: State, opts: GlobOptions)
    requires Outside(st) && st.chars == s && |s| > 1 && s[0] == '\\' && opts.backslashEscape
    ensures var r := ParseChar(s[0], Bump(st), opts); r.Ok? && Pushed(st, r.value, Literal(s[1]), s[2..])
  {
    assert s[1..][0] == s[1] && s[1..][1..] == s[2..];
  }

  lemma SingleStar(s: string, st: State, opts: GlobOptions)
    requires Outside(st) && st.chars == s && s != "" && s[0] == '*' && (|s| > 1 ==> s[1] != '*')
    ensures var r := ParseChar(s[0], Bump(st), opts); r.Ok? && Pushed(st, r.value, ZeroOrMore, s[1..])
  {
    assert |s| > 1 ==> s[1..][0] == s[1];
  }

  lemma OtherChar(s: string, st: State, opts: GlobOptions)
    requires Outside(st) && st.chars == s && s != "" && s[0] !in ['*', '[', '{', '}']
    requires s[0] != '\\' || !opts.backslashEscape
    ensures var r := ParseChar(s[0], Bump(st), opts);
            r.Ok? && Pushed(st, r.value, if s[0] == '?' then Any else Literal(s[0]), s[1..])
  {
  }

  // One round on a simple text.
  lemma SimpleRound(s: string, st: State, opts: GlobOptions) returns (next: State, t: Token, rest: string)
    requires Outside(st) && st.chars == s && s != "" && SimpleTokens(s, opts.backslashEscape).Some?
    ensures StackShape(st) && StackShape(next) && ParseLoop(st, opts) == ParseLoop(next, opts)
    ensures Pushed(st, next, t, rest) && |rest| < |s|
    ensures SimpleTokens(s, opts.backslashEscape) == Then(t, SimpleTokens(rest, opts.backslashEscape))
  {
    hide ParseLoop, ParseChar, Pushed;
    if s[0] == '\\' && opts.backslashEscape {
      EscapedChar(s, st, opts);
      t, rest := Literal(s[1]), s[2..];
    } else if s[0] == '*' {
      SingleStar(s, st, opts);
      t, rest := ZeroOrMore, s[1..];
    } else {
      OtherChar(s, st, opts);
      t, rest := if s[0] == '?' then Any else Literal(s[0]), s[1..];
    }
    next := ParseChar(s[0], Bump(st), opts).value;
    LoopRound(st, next, opts);
  }

  lemma {:induction false} SimpleParses(s: string, toks: seq<Token>, st: State, opts: GlobOptions)
    requires Outside(st) && st.chars == s && SimpleTokens(s, opts.backslashEscape) == Some(toks)
    ensures ParseLoop(st, opts).Ok?
    ensures var end := ParseLoop(st, opts).value;
            |end.branches| == 1 && end.branches[0].list == LastBranch(st) + toks
    decreases |s|
  {
    hide ParseLoop, StackShape, SimpleTokens, IsSimple;
    if s == "" {
      NothingLeft(st, toks, opts);
    } else {
      var next, t, rest := SimpleRound(s, st, opts);
      SimpleParses(rest, toks[1..], next, opts);
      Regroup(LastBranch(st), t, toks);
    }
  }

  lemma NothingLeft(st: State, toks: seq<Token>, opts: GlobOptions)
    requires Outside(st) && st.chars == "" && SimpleTokens("", opts.backslashEscape) == Some(toks)
    ensures toks == [] && ParseLoop(st, opts).Ok? && ParseLoop(st, opts).value.branches == st.branches
    ensures LastBranch(st) + toks == LastBranch(st)
  {
  }

  lemma Regroup(front: seq<Token>, t: Token, toks: seq<Token>)
    requires toks != [] && toks[0] == t
    ensures front + [t] + toks[1..] == front + toks
  {
  }

  lemma SimpleGlob(s: string, toks: seq<Token>, opts: GlobOptions)
    requires SimpleTokens(s, opts.backslashEscape) == Some(toks)
    ensures Build(s, opts) == Ok(Glob(s, opts, toks))
  {
    hide ParseLoop, SimpleTokens;
    SimpleParses(s, toks, Initial(s), opts);
    assert [] + toks == toks;
  }

  // The same after a recursive prefix.
  lemma AnywhereGlob(s: string, toks: seq<Token>, opts: GlobOptions)
    requires SimpleTokens(s, opts.backslashEscape) == Some(toks)
    ensures Build("**/" + s, opts) == Ok(Glob("**/" + s, opts, [RecursivePrefix] + toks))
  {
    hide ParseLoop, SimpleTokens;
    var st := Initial("**/" + s);
    assert st.chars[..3] == "**/" && st.chars[3..] == s;
    ReadCopy(st, opts);
    SimpleParses(s, toks, AfterCopy(st), opts);
  }

  lemma {:induction false} PlainIsSimple(s: string, escapes: bool)
    requires IsPlain(s)
    ensures SimpleTokens(s, escapes) == Some(Literals(s))
  {
    hide Literals;
    if s == "" {
    } else {
      assert s[0] in s && IsPlainChar(s[0]);
      assert forall c | c in s[1..] :: c in s;
      PlainIsSimple(s[1..], escapes);
      LiteralsFirst(s[0], s[1..]);
      assert s == [s[0]] + s[1..];
    }
  }
}
