/** Globs as they are written: stars at the end, wildcards in plain text, escapes, and what is no glob. */
module GlobTexts {
  import opened Wrappers
  import opened Utf8
  import opened Text
  import opened Regexes
  import opened Tokens
  import opened Compiler
  import opened Languages
  import opened StrategyProofs
  import opened ClassMeanings
  import opened GlobParser
  import opened RepeatedStars
  import opened PlainGlobs

  // ----- reading plain text -----

  // The state at rest, with the text read so far pushed as literals.
  predicate At(st: State, toks: seq<Token>, rest: string) {
    Outside(st) && st.chars == rest && LastBranch(st) == toks && !st.foundUnclosedClass
  }

  lemma StartAt(text: string)
    ensures At(Initial(text), [], text) && StackShape(Initial(text))
  {
  }

  lemma PlainRound(st: State, toks: seq<Token>, c: char, rest: string, opts: GlobOptions) returns (next: State)
    requires At(st, toks, [c] + rest) && IsPlainChar(c)
    ensures At(next, toks + [Literal(c)], rest) && next.cur == Some(c) && next.prev == st.cur
    ensures StackShape(st) && StackShape(next) && ParseLoop(st, opts) == ParseLoop(next, opts)
  {
    hide ParseLoop;
    FirstOf(c, rest);
    next := ParseChar(c, Bump(st), opts).value;
    LoopRound(st, next, opts);
  }

  lemma {:induction false} ReadPlain(st: State, toks: seq<Token>, front: string, rest: string, opts: GlobOptions) returns (end: State)
    requires At(st, toks, front + rest) && IsPlain(front)
    ensures At(end, toks + Literals(front), rest) && StackShape(st) && StackShape(end)
    ensures ParseLoop(st, opts) == ParseLoop(end, opts)
    ensures end.cur == if front == "" then st.cur else Some(front[|front| - 1])
    decreases |front|
  {
    hide ParseLoop, Literals, At;
    if front == "" {
      assert front + rest == rest && toks + Literals(front) == toks;
      AtShape(st, toks, rest);
      end := st;
    } else {
      var c, more := front[0], front[1..];
      assert front + rest == [c] + (more + rest);
      assert c in front && forall x | x in more :: x in front;
      var mid := PlainRound(st, toks, c, more + rest, opts);
      end := ReadPlain(mid, toks + [Literal(c)], more, rest, opts);
      LiteralsFirst(c, more);
      assert front == [c] + more;
      assert toks + [Literal(c)] + Literals(more) == toks + Literals(front);
    }
  }

  lemma AtShape(st: State, toks: seq<Token>, rest: string)
    requires At(st, toks, rest)
    ensures StackShape(st)
  {
  }

  lemma Finished(st: State, toks: seq<Token>, opts: GlobOptions)
    requires At(st, toks, "")
    ensures StackShape(st) && ParseLoop(st, opts).Ok? && ParseLoop(st, opts).value.branches == [Tokens(toks)]
  {
  }

  // How a parse of a whole text ends.
  lemma Built(text: string, end: State, toks: seq<Token>, opts: GlobOptions)
    requires At(end, toks, "") && StackShape(Initial(text)) && StackShape(end)
    requires ParseLoop(Initial(text), opts) == ParseLoop(end, opts)
    ensures Build(text, opts) == Ok(Glob(text, opts, toks))
  {
    Finished(end, toks, opts);
  }

  lemma Refused(text: string, st: State, opts: GlobOptions, e: ErrorKind)
    requires StackShape(st) && StackShape(Initial(text)) && ParseLoop(Initial(text), opts) == ParseLoop(st, opts)
    requires st.chars != "" && ParseChar(st.chars[0], Bump(st), opts) == Err(e)
    ensures Build(text, opts) == Err(e)
  {
    LoopError(st, opts);
    hide ParseLoop;
  }

  // ----- stars at the end -----

  // The second star is the last character.
  lemma StarsStartAndEnd(st: State)
    requires At(st, [], "*")
    ensures ParseStar(st).Ok? && At(ParseStar(st).value, [RecursivePrefix], "")
  {
    hide PushTwoStars, ParseInnerStars;
    var two := Bump(st);
    assert two.chars == "" && [] + [RecursivePrefix] == [RecursivePrefix];
    assert ParseStar(st) == Ok(Bump(WithLast(two, [RecursivePrefix])));
  }

  lemma StarsEnd(st: State, front: seq<Token>, last: Token)
    requires At(st, front + [last], "*") && st.prev == Some('/')
    ensures ParseStar(st).Ok? && At(ParseStar(st).value, front + [Recursive(last, true)], "")
  {
    hide PushTwoStars, ParsePrefixStars, Recursive;
    var two, toks := Bump(st), front + [last];
    assert two.chars == "" && toks[..|toks| - 1] == front;
    assert ParseStar(st) == Ok(ReplaceLast(Bump(two), true));
  }

  lemma StarRound(st: State, toks: seq<Token>, more: seq<Token>, opts: GlobOptions) returns (end: State)
    requires At(st, toks, "**") && ParseStar(Bump(st)).Ok? && At(ParseStar(Bump(st)).value, more, "")
    ensures At(end, more, "") && StackShape(st) && StackShape(end) && ParseLoop(st, opts) == ParseLoop(end, opts)
  {
    end := ParseChar('*', Bump(st), opts).value;
    LoopRound(st, end, opts);
    hide ParseStar, ParseLoop;
  }

  // Two stars at the very start and end.
  lemma TwoStarsOnly(st: State, opts: GlobOptions) returns (end: State)
    requires At(st, [], "**") || (At(st, [RecursivePrefix], "**") && st.cur == Some('/'))
    ensures At(end, [RecursivePrefix], "") && StackShape(st) && StackShape(end) && ParseLoop(st, opts) == ParseLoop(end, opts)
  {
    hide ParseStar, ParseLoop;
    assert st.chars[1..] == "*";
    if LastBranch(st) == [] {
      StarsStartAndEnd(Bump(st));
      end := StarRound(st, [], [RecursivePrefix], opts);
    } else {
      assert [] + [RecursivePrefix] == [RecursivePrefix];
      StarsEnd(Bump(st), [], RecursivePrefix);
      end := StarRound(st, [RecursivePrefix], [RecursivePrefix], opts);
    }
  }

  lemma StarsMatchAll(glob: string, opts: GlobOptions, path: seq<byte>)
    ensures GlobMatches(Glob(glob, opts, [RecursivePrefix]), path)
  {
    SingleItem(Star(AnyByte), opts.caseInsensitive, path);
  }

  // Any number of recursive components before two stars, or none: everything is matched.
  lemma StarsAtEndMatchAll(n: nat, opts: GlobOptions, path: seq<byte>)
    ensures Build(Copies(n) + "**", opts).Ok? && GlobMatches(Build(Copies(n) + "**", opts).value, path)
  {
    hide ParseLoop, GlobMatches, At;
    if n == 0 {
      NoCopies();
      StartAt("**");
      var end := TwoStarsOnly(Initial("**"), opts);
      Built("**", end, [RecursivePrefix], opts);
      StarsMatchAll("**", opts, path);
    } else {
      var end := CopyThenStars(opts);
      Built("**/**", end, [RecursivePrefix], opts);
      LeadingCopiesCollapse(n, "**", opts);
      StarsMatchAll(Copies(n) + "**", opts, path);
      OfTokens(Copies(n) + "**", [RecursivePrefix], opts);
    }
  }

  lemma NoCopies()
    ensures Copies(0) + "**" == "**"
  {
  }

  lemma CopyThenStars(opts: GlobOptions) returns (end: State)
    ensures "**/" + "**" == "**/**" && StackShape(Initial("**/**")) && StackShape(end) && At(end, [RecursivePrefix], "")
    ensures ParseLoop(Initial("**/**"), opts) == ParseLoop(end, opts)
  {
    hide ParseLoop;
    var st := Initial("**/**");
    assert st.chars[..3] == "**/" && st.chars[3..] == "**";
    ReadCopy(st, opts);
    end := TwoStarsOnly(AfterCopy(st), opts);
  }

  lemma OfTokens(text: string, toks: seq<Token>, opts: GlobOptions)
    requires Tokenize(text, opts) == Ok(toks)
    ensures Build(text, opts) == Ok(Glob(text, opts, toks))
  {
    hide ParseLoop;
  }

  // Behind a slash two stars at the end are a recursive suffix.
  lemma SuffixStars(st: State, front: seq<Token>, last: Token, opts: GlobOptions) returns (end: State)
    requires At(st, front + [last], "**") && st.cur == Some('/') && (last == Literal('/') || last == RecursiveZeroOrMore)
    ensures At(end, front + [RecursiveSuffix], "") && StackShape(st) && StackShape(end)
    ensures ParseLoop(st, opts) == ParseLoop(end, opts)
  {
    hide ParseStar, ParseLoop;
    assert st.chars[1..] == "*";
    StarsEnd(Bump(st), front, last);
    end := StarRound(st, front + [last], front + [RecursiveSuffix], opts);
  }

  // Recursive components between a plain text and two stars at the end mean nothing: what lies inside
  // is matched.
  lemma InnerStarsAtEnd(front: string, opts: GlobOptions)
    requires IsPlain(front)
    ensures Build(front + "/**", opts) == Ok(Glob(front + "/**", opts, Literals(front) + [RecursiveSuffix]))
    ensures Build(front + "/**/**", opts) == Ok(Glob(front + "/**/**", opts, Literals(front) + [RecursiveSuffix]))
  {
    hide ParseLoop, Literals, At;
    var one, two := front + "/**", front + "/**/**";
    StartAt(one);
    StartAt(two);
    assert one == front + ("/" + "**") && two == front + ("/" + "**/**");
    assert [] + Literals(front) == Literals(front);
    var a := ReadPlain(Initial(one), [], front, "/" + "**", opts);
    a := PlainRound(a, Literals(front), '/', "**", opts);
    a := SuffixStars(a, Literals(front), Literal('/'), opts);
    Built(one, a, Literals(front) + [RecursiveSuffix], opts);
    var b := ReadPlain(Initial(two), [], front, "/" + "**/**", opts);
    b := PlainRound(b, Literals(front), '/', "**/**", opts);
    assert "**/**" == "**/" + "**";
    b := InnerCopy(b, Literals(front), "**", opts);
    b := SuffixStars(b, Literals(front), RecursiveZeroOrMore, opts);
    Built(two, b, Literals(front) + [RecursiveSuffix], opts);
  }

  lemma InnerCopy(st: State, front: seq<Token>, back: string, opts: GlobOptions) returns (end: State)
    requires At(st, front + [Literal('/')], "**/" + back) && st.cur == Some('/')
    ensures At(end, front + [RecursiveZeroOrMore], back) && end.cur == Some('/') && StackShape(st) && StackShape(end)
    ensures ParseLoop(st, opts) == ParseLoop(end, opts)
  {
    hide ParseLoop;
    assert st.chars[..3] == "**/" && st.chars[3..] == back;
    assert (front + [Literal('/')])[..|front|] == front;
    ReadCopy(st, opts);
    end := AfterCopy(st);
  }

  // ----- plain text and wildcards -----

  // A plain text matches its own bytes, or, where case does not matter, the same letters in any case.
  lemma PlainTextMatches(s: string, opts: GlobOptions, path: seq<byte>)
    requires IsPlain(s)
    ensures Build(s, opts).Ok?
    ensures GlobMatches(Build(s, opts).value, path) <==>
            && |path| == |Encode(s)|
            && forall i | 0 <= i < |path| ::
                 path[i] == Encode(s)[i]
                 || (opts.caseInsensitive && (CasePair(path[i], Encode(s)[i]) || CasePair(Encode(s)[i], path[i])))
  {
    hide ParseLoop, GlobMatches, SimpleTokens;
    PlainIsSimple(s, opts.backslashEscape);
    SimpleGlob(s, Literals(s), opts);
    GlobLang(Glob(s, opts, Literals(s)), path);
    LangLiteralsAlike(s, opts, path);
    if |path| == |Encode(s)| {
      forall i | 0 <= i < |path| {
        FoldingRelatesLetters(path[i], Encode(s)[i]);
      }
    }
  }

  // A path is a first text, something in between and a last text.
  ghost predicate Around(front: string, middle: seq<byte>, back: string, path: seq<byte>) {
    path == Encode(front) + middle + Encode(back)
  }

  // What a token between two plain texts matches.
  lemma TokenBetween(front: string, t: Token, back: string, opts: GlobOptions, path: seq<byte>)
    requires !opts.caseInsensitive
    ensures Lang(Literals(front) + [t] + Literals(back), opts, path) <==>
            exists middle :: Around(front, middle, back, path) && Denotes(t, opts, middle)
  {
    hide Lang, Denotes, Literals, Around, Encode;
    var toks := Literals(front) + [t] + Literals(back);
    if Lang(toks, opts, path) {
      LangThenLiterals(Literals(front) + [t], back, opts, path);
      var head := path[..|path| - |Encode(back)|];
      LangLiteralsThen(front, [t], opts, head);
      SameBytesAreEqual(opts, head[..|Encode(front)|], Encode(front));
      LangOne(t, opts, head[|Encode(front)|..]);
      Reassembled(front, head, back, path);
    }
    if middle :| Around(front, middle, back, path) && Denotes(t, opts, middle) {
      Taken(front, middle, back, path);
      LangLiterals(front, opts, Encode(front));
      LangLiterals(back, opts, Encode(back));
      LangOne(t, opts, middle);
      LangJoin(Literals(front), [t], opts, Encode(front), middle);
      LangJoin(Literals(front) + [t], Literals(back), opts, Encode(front) + middle, Encode(back));
    }
  }

  lemma Reassembled(front: string, head: seq<byte>, back: string, path: seq<byte>)
    requires head <= path && path[|head|..] == Encode(back) && |Encode(front)| <= |head| && head[..|Encode(front)|] == Encode(front)
    ensures Around(front, head[|Encode(front)|..], back, path)
  {
    hide Encode;
    assert head == head[..|Encode(front)|] + head[|Encode(front)|..] && path == head + path[|head|..];
  }

  lemma Taken(front: string, middle: seq<byte>, back: string, path: seq<byte>)
    requires Around(front, middle, back, path)
    ensures path == Encode(front) + middle + Encode(back)
  {
  }

  lemma ReadBetween(front: string, mark: char, back: string, opts: GlobOptions)
    requires IsPlain(front) && IsPlain(back) && (mark == '*' || mark == '?')
    ensures var text := front + [mark] + back;
            Build(text, opts) == Ok(Glob(text, opts, Literals(front) + [if mark == '*' then ZeroOrMore else Any] + Literals(back)))
  {
    hide ParseLoop, SimpleTokens, Literals, At, ParseChar;
    var text := front + [mark] + back;
    assert text == front + ([mark] + back);
    StartAt(text);
    var st := ReadPlain(Initial(text), [], front, [mark] + back, opts);
    assert [] + Literals(front) == Literals(front);
    var next := MarkRound(st, Literals(front), mark, back, opts);
    var end := ReadPlain(next, Literals(front) + [if mark == '*' then ZeroOrMore else Any], back, "", opts) by {
      assert back + "" == back;
    }
    Built(text, end, Literals(front) + [if mark == '*' then ZeroOrMore else Any] + Literals(back), opts);
  }

  lemma MarkRound(st: State, toks: seq<Token>, mark: char, back: string, opts: GlobOptions) returns (next: State)
    requires At(st, toks, [mark] + back) && (mark == '*' || mark == '?') && IsPlain(back)
    ensures At(next, toks + [if mark == '*' then ZeroOrMore else Any], back) && StackShape(st) && StackShape(next)
    ensures ParseLoop(st, opts) == ParseLoop(next, opts)
  {
    hide ParseLoop;
    FirstOf(mark, back);
    assert back != "" ==> back[0] in back;
    next := ParseChar(mark, Bump(st), opts).value;
    LoopRound(st, next, opts);
  }

  // `*` between two texts matches any number of bytes, `?` a single one, where asked for without slashes.
  lemma WildcardMatches(front: string, mark: char, back: string, opts: GlobOptions, path: seq<byte>)
    requires IsPlain(front) && IsPlain(back) && (mark == '*' || mark == '?') && !opts.caseInsensitive
    ensures var glob := Build(front + [mark] + back, opts);
            && glob.Ok?
            && (GlobMatches(glob.value, path) <==>
                exists middle: seq<byte> ::
                  && Around(front, middle, back, path)
                  && (opts.literalSeparator ==> SLASH !in middle)
                  && (mark == '?' ==> |middle| == 1))
  {
    hide GlobMatches, Build, Lang, Literals, Around;
    var t := if mark == '*' then ZeroOrMore else Any;
    ReadBetween(front, mark, back, opts);
    var g := Build(front + [mark] + back, opts).value;
    assert g.tokens[|Literals(front)|] == t;
    GlobLang(g, path);
    TokenBetween(front, t, back, opts, path);
    assert forall middle: seq<byte> :: |middle| == 1 ==> (SLASH in middle <==> middle[0] == SLASH);
  }

  // ----- two stars and plain text -----

  // Two stars with plain text around them that do not make up a component are two single stars.
  lemma StarsThatAreNoComponent(front: string, back: string, opts: GlobOptions)
    requires IsPlain(front) && IsPlain(back)
    requires !((front == "" || front[|front| - 1] == '/') && (back == "" || back[0] == '/'))
    ensures var text := front + "**" + back;
            Build(text, opts) == Ok(Glob(text, opts, Literals(front) + [ZeroOrMore, ZeroOrMore] + Literals(back)))
  {
    hide ParseLoop, SimpleTokens, Literals, At, ParseChar;
    var text, stars := front + "**" + back, [ZeroOrMore, ZeroOrMore];
    assert text == front + ("**" + back);
    StartAt(text);
    var st := ReadPlain(Initial(text), [], front, "**" + back, opts);
    assert [] + Literals(front) == Literals(front);
    var next := TwoSingleStars(st, Literals(front), back, opts);
    assert back + "" == back;
    var end := ReadPlain(next, Literals(front) + stars, back, "", opts);
    Built(text, end, Literals(front) + stars + Literals(back), opts);
  }

  lemma TwoSingleStars(st: State, toks: seq<Token>, back: string, opts: GlobOptions) returns (next: State)
    requires At(st, toks, "**" + back) && IsPlain(back)
    requires !((toks == [] || st.cur == Some('/')) && (back == "" || back[0] == '/'))
    ensures At(next, toks + [ZeroOrMore, ZeroOrMore], back) && StackShape(st) && StackShape(next)
    ensures ParseLoop(st, opts) == ParseLoop(next, opts)
  {
    hide ParseLoop, ParseChar, At, StackShape;
    StarsStep(st, toks, back, opts);
    next := ParseChar('*', Bump(st), opts).value;
    LoopRound(st, next, opts);
  }

  lemma StarsStep(st: State, toks: seq<Token>, back: string, opts: GlobOptions)
    requires At(st, toks, "**" + back) && IsPlain(back)
    requires !((toks == [] || st.cur == Some('/')) && (back == "" || back[0] == '/'))
    ensures StackShape(st) && StackShape(Bump(st)) && st.chars != "" && st.chars[0] == '*'
    ensures var r := ParseChar('*', Bump(st), opts); r.Ok? && At(r.value, toks + [ZeroOrMore, ZeroOrMore], back)
  {
    hide ParseStar, ParseClass, PopAlternate, ParseComma, PushAlternate, ParseBackslash;
    assert "**" + back == "*" + ("*" + back);
    FirstOf('*', "*" + back);
    FirstOf('*', back);
    assert toks + [ZeroOrMore] + [ZeroOrMore] == toks + [ZeroOrMore, ZeroOrMore];
    StarsArePushed(Bump(st), back);
  }

  lemma StarsArePushed(st: State, back: string)
    requires Outside(st) && st.chars == "*" + back && IsPlain(back)
    requires !((LastBranch(st) == [] || st.prev == Some('/')) && (back == "" || back[0] == '/'))
    ensures ParseStar(st) == PushTwoStars(Bump(st))
  {
    hide PushTwoStars, ReplaceLast, PushToken;
    FirstOf('*', back);
    assert back != "" ==> back[0] in back;
  }

  // In front: any directories, or none.
  lemma StarsInFrontMatch(back: string, opts: GlobOptions, path: seq<byte>)
    requires IsPlain(back) && back != "" && !opts.caseInsensitive
    ensures var glob := Build("**/" + back, opts);
            && glob.Ok?
            && (GlobMatches(glob.value, path) <==>
                exists above: seq<byte> :: Around("", above, back, path) && (above == [] || above[|above| - 1] == SLASH))
  {
    hide GlobMatches, Build, Lang, Literals, Around, SimpleTokens;
    PlainIsSimple(back, opts.backslashEscape);
    AnywhereGlob(back, Literals(back), opts);
    var g := Build("**/" + back, opts).value;
    assert |Literals(back)| == |back|;
    GlobLang(g, path);
    assert Literals("") + [RecursivePrefix] + Literals(back) == [RecursivePrefix] + Literals(back);
    TokenBetween("", RecursivePrefix, back, opts, path);
  }

  lemma StarsInsideAreRead(front: string, back: string, opts: GlobOptions)
    requires IsPlain(front) && IsPlain(back)
    ensures var text := front + "/**/" + back;
            Build(text, opts) == Ok(Glob(text, opts, Literals(front) + [RecursiveZeroOrMore] + Literals(back)))
  {
    hide ParseLoop, Literals, At, IsPlain, StackShape;
    var text := front + "/**/" + back;
    assert text == front + ("/" + ("**/" + back));
    StartAt(text);
    var st := ReadPlain(Initial(text), [], front, "/" + ("**/" + back), opts);
    assert [] + Literals(front) == Literals(front);
    st := PlainRound(st, Literals(front), '/', "**/" + back, opts);
    st := InnerCopy(st, Literals(front), back, opts);
    assert back + "" == back;
    st := ReadPlain(st, Literals(front) + [RecursiveZeroOrMore], back, "", opts);
    Built(text, st, Literals(front) + [RecursiveZeroOrMore] + Literals(back), opts);
  }

  // In between: a slash, or directories with a slash before and behind them.
  lemma StarsInsideMatch(front: string, back: string, opts: GlobOptions, path: seq<byte>)
    requires IsPlain(front) && IsPlain(back) && !opts.caseInsensitive
    ensures var glob := Build(front + "/**/" + back, opts);
            && glob.Ok?
            && (GlobMatches(glob.value, path) <==>
                exists between: seq<byte> ::
                  && Around(front, between, back, path)
                  && between != [] && between[0] == SLASH && between[|between| - 1] == SLASH)
  {
    hide GlobMatches, Build, Lang, Literals, Around;
    StarsInsideAreRead(front, back, opts);
    var g := Build(front + "/**/" + back, opts).value;
    assert g.tokens[|Literals(front)|] == RecursiveZeroOrMore;
    GlobLang(g, path);
    TokenBetween(front, RecursiveZeroOrMore, back, opts, path);
  }

  // Behind: what lies inside, at any depth.
  lemma StarsBehindMatch(front: string, opts: GlobOptions, path: seq<byte>)
    requires IsPlain(front) && !opts.caseInsensitive
    ensures var glob := Build(front + "/**", opts);
            && glob.Ok?
            && (GlobMatches(glob.value, path) <==>
                exists below: seq<byte> :: Around(front, below, "", path) && below != [] && below[0] == SLASH)
  {
    hide GlobMatches, Build, Lang, Literals, Around;
    InnerStarsAtEnd(front, opts);
    var g := Build(front + "/**", opts).value;
    assert g.tokens[|Literals(front)|] == RecursiveSuffix;
    GlobLang(g, path);
    NoTokens(Literals(front) + [RecursiveSuffix]);
    TokenBetween(front, RecursiveSuffix, "", opts, path);
  }

  lemma NoTokens(toks: seq<Token>)
    ensures toks + Literals("") == toks
  {
  }

  // ----- escapes and misplaced characters -----

  // Behind a backslash that escapes every character stands for itself.
  lemma EscapedText(front: string, c: char, back: string, opts: GlobOptions)
    requires IsPlain(front) && IsPlain(back) && opts.backslashEscape
    ensures var text := front + ['\\', c] + back; Build(text, opts) == Ok(Glob(text, opts, Literals(front + [c] + back)))
  {
    hide ParseLoop, SimpleTokens, Literals, At, ParseChar;
    var text := front + ['\\', c] + back;
    assert text == front + (['\\', c] + back);
    StartAt(text);
    var st := ReadPlain(Initial(text), [], front, ['\\', c] + back, opts);
    assert [] + Literals(front) == Literals(front);
    var next := EscapeRound(st, Literals(front), c, back, opts);
    var end := ReadPlain(next, Literals(front) + [Literal(c)], back, "", opts) by {
      assert back + "" == back;
    }
    Built(text, end, Literals(front) + [Literal(c)] + Literals(back), opts);
    LiteralsAround(front, c, back);
  }

  lemma LiteralsAround(front: string, c: char, back: string)
    ensures Literals(front + [c] + back) == Literals(front) + [Literal(c)] + Literals(back)
  {
  }

  lemma EscapeRound(st: State, toks: seq<Token>, c: char, back: string, opts: GlobOptions) returns (next: State)
    requires At(st, toks, ['\\', c] + back) && opts.backslashEscape
    ensures At(next, toks + [Literal(c)], back) && StackShape(st) && StackShape(next)
    ensures ParseLoop(st, opts) == ParseLoop(next, opts)
  {
    hide ParseLoop, ParseChar, At, StackShape;
    EscapeStep(st, toks, c, back, opts);
    next := ParseChar('\\', Bump(st), opts).value;
    LoopRound(st, next, opts);
  }

  lemma EscapeStep(st: State, toks: seq<Token>, c: char, back: string, opts: GlobOptions)
    requires At(st, toks, ['\\', c] + back) && opts.backslashEscape
    ensures StackShape(st) && StackShape(Bump(st)) && st.chars != "" && st.chars[0] == '\\'
    ensures var r := ParseChar('\\', Bump(st), opts); r.Ok? && At(r.value, toks + [Literal(c)], back)
  {
    hide ParseStar, ParseClass, PopAlternate, ParseComma, PushAlternate;
    assert ['\\', c] + back == ['\\'] + ([c] + back);
    FirstOf('\\', [c] + back);
    FirstOf(c, back);
    assert ParseChar('\\', Bump(st), opts) == ParseBackslash(Bump(st), opts);
  }

  // Where it does not escape, a backslash is like any other character.
  lemma BackslashText(s: string, opts: GlobOptions)
    requires !opts.backslashEscape && forall c | c in s :: IsPlainChar(c) || c == '\\'
    ensures Build(s, opts) == Ok(Glob(s, opts, Literals(s)))
  {
    hide ParseLoop, SimpleTokens;
    BackslashesAreSimple(s);
    SimpleGlob(s, Literals(s), opts);
  }

  lemma {:induction false} BackslashesAreSimple(s: string)
    requires forall c | c in s :: IsPlainChar(c) || c == '\\'
    ensures SimpleTokens(s, false) == Some(Literals(s))
  {
    hide Literals;
    if s == "" {
    } else {
      assert s[0] in s && forall c | c in s[1..] :: c in s;
      BackslashesAreSimple(s[1..]);
      LiteralsFirst(s[0], s[1..]);
      assert s == [s[0]] + s[1..];
    }
  }

  // A backslash with nothing to escape, and a brace that closes nothing.
  lemma MisplacedCharacters(s: string, opts: GlobOptions)
    requires IsPlain(s)
    ensures opts.backslashEscape ==> Build(s + "\\", opts) == Err(DanglingEscape)
    ensures Build(s + "}", opts) == Err(UnopenedAlternates)
  {
    hide ParseLoop, At, Literals;
    StartAt(s + "\\");
    StartAt(s + "}");
    assert [] + Literals(s) == Literals(s);
    var a := ReadPlain(Initial(s + "\\"), [], s, "\\", opts);
    var b := ReadPlain(Initial(s + "}"), [], s, "}", opts);
    DeadEnds(a, b, Literals(s), opts);
    if opts.backslashEscape {
      LoopError(a, opts);
    }
    LoopError(b, opts);
  }

  lemma DeadEnds(a: State, b: State, toks: seq<Token>, opts: GlobOptions)
    requires At(a, toks, "\\") && At(b, toks, "}")
    ensures StackShape(a) && StackShape(b) && a.chars == "\\" && b.chars == "}"
    ensures opts.backslashEscape ==> ParseChar('\\', Bump(a), opts) == Err(DanglingEscape)
    ensures ParseChar('}', Bump(b), opts) == Err(UnopenedAlternates)
  {
  }
}
