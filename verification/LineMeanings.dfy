/** What the plain lines of a gitignore file mean, as gitignore(5), section PATTERN FORMAT, has it. */
module LineMeanings {
  import opened Wrappers
  import opened Utf8
  import opened Tokens
  import opened Compiler
  import opened Languages
  import opened Components
  import opened Paths
  import opened Strategies
  import opened StrategyProofs
  import opened GlobSetMatching
  import opened Text
  import opened Gitignore
  import opened GitignoreBuilding
  import opened GlobParser
  import opened RepeatedStars
  import opened PlainGlobs

  // ----- lines of simple text -----

  // What is left of a line without its markers and its directory slash.
  function OpenText(line: string): string {
    StripDirSlash(StripMarkers(Trimmed(line)).line)
  }

  // What such a text asks of a path: with a slash at the start or in the middle, all components in
  // order; otherwise the last one. No text at all asks for nothing.
  ghost predicate TextMatches(isAbsolute: bool, open: string, toks: seq<Token>, opts: GlobOptions, path: seq<byte>) {
    if isAbsolute || '/' in open then PartsMatch(Split(toks, Token.Literal('/')), Split(path, SLASH), opts)
    else open == "" || Lang(toks, opts, LastComponent(path))
  }

  lemma StarsAreNotSimple()
    ensures SimpleTokens("**", true).None? && SimpleTokens("/**", true).None?
  {
    assert "/**"[1..] == "**";
  }

  lemma {:induction false} NoStarsAtEnd(s: string)
    requires EndsWith(s, "/**")
    ensures SimpleTokens(s, true).None?
  {
    StarsAreNotSimple();
    if |s| == 3 {
      assert s == s[0..] == "/**";
    } else if s[0] != '\\' {
      StillEnds(s, "/**", 1);
      NoStarsAtEnd(s[1..]);
    } else if |s| == 4 {
      assert s[1..] == "/**" && s[2..] == s[1..][1..];
    } else {
      StillEnds(s, "/**", 2);
      NoStarsAtEnd(s[2..]);
    }
  }

  lemma NoTwoStarsFirst(s: string)
    requires SimpleTokens(s, true).Some?
    ensures !StartsWith(s, "**/") && s != "**"
  {
    if |s| >= 2 && s[0] == '*' {
      assert s[1] != '*';
    }
  }

  lemma StarsInFront(open: string)
    ensures EndsWith("**/" + open, "/**") ==> EndsWith(open, "/**") || open == "**"
  {
    var actual, n := "**/" + open, |open|;
    if EndsWith(actual, "/**") {
      assert actual[n] == actual[n..][0] && actual[n + 1] == actual[n..][1] && actual[n + 2] == actual[n..][2];
      if n >= 3 {
        assert open[n - 3..] == actual[n..];
      } else if n == 2 {
        assert open == [actual[3], actual[4]];
      }
    }
  }

  lemma SimpleAnchor(open: string, isAbsolute: bool)
    requires SimpleTokens(open, true).Some?
    ensures AnchorGlob(open, isAbsolute) == if isAbsolute || '/' in open then open else "**/" + open
  {
    hide SimpleTokens;
    if EndsWith(open, "/**") {
      NoStarsAtEnd(open);
    }
    NoTwoStarsFirst(open);
    StarsInFront(open);
  }

  lemma {:induction false} TextWithoutSlash(s: string, toks: seq<Token>, opts: GlobOptions)
    requires SimpleTokens(s, true) == Some(toks) && '/' !in s && opts.literalSeparator
    ensures forall t | t in toks :: StaysInside(t, opts)
    decreases |s|
  {
    if s == "" {
    } else {
      var n := if s[0] == '\\' then 2 else 1;
      assert forall c | c in s[n..] :: c in s;
      assert s[n - 1] in s;
      TextWithoutSlash(s[n..], toks[1..], opts);
      assert toks == [toks[0]] + toks[1..];
    }
  }

  lemma AnchoredText(open: string, toks: seq<Token>, opts: GlobOptions, path: seq<byte>)
    requires SimpleTokens(open, true) == Some(toks) && opts.backslashEscape && opts.literalSeparator
    ensures Build(open, opts) == Ok(Glob(open, opts, toks))
    ensures GlobMatches(Glob(open, opts, toks), path) <==> PartsMatch(Split(toks, Token.Literal('/')), Split(path, SLASH), opts)
  {
    hide GlobMatches, SimpleTokens, Build;
    SimpleGlob(open, toks, opts);
    SimpleGlobsMatchByComponent(Glob(open, opts, toks), path);
  }

  lemma NameText(open: string, toks: seq<Token>, opts: GlobOptions, path: seq<byte>)
    requires SimpleTokens(open, true) == Some(toks) && opts.backslashEscape && opts.literalSeparator && '/' !in open
    ensures Build("**/" + open, opts) == Ok(Glob("**/" + open, opts, [RecursivePrefix] + toks))
    ensures GlobMatches(Glob("**/" + open, opts, [RecursivePrefix] + toks), path) <==>
            open == "" || Lang(toks, opts, LastComponent(path))
  {
    hide GlobMatches, SimpleTokens, Build, Lang, LastComponent, StaysInside;
    AnywhereGlob(open, toks, opts);
    TextWithoutSlash(open, toks, opts);
    EmptyText(open, toks);
    var g := Glob("**/" + open, opts, [RecursivePrefix] + toks);
    assert toks != [] ==> |g.tokens| > 1;
    GlobLang(g, path);
    RecursivePrefixThenInside(toks, opts, path);
  }

  lemma EmptyText(open: string, toks: seq<Token>)
    requires SimpleTokens(open, true) == Some(toks)
    ensures open == "" <==> toks == []
  {
  }

  // A line of literal, escaped and wildcard characters is a rule. It applies to the paths that its
  // text asks for, by component or by last component, and to directories only if it ends in a slash.
  lemma {:induction false} SimpleLineMeans(from: Option<string>, line: string, toks: seq<Token>, opts: GlobOptions,
                                           path: seq<byte>, isDir: bool)
    requires opts.literalSeparator && opts.backslashEscape
    requires !StartsWith(line, "#") && Trimmed(line) != "" && SimpleTokens(OpenText(line), true) == Some(toks)
    ensures var rule, marked := RuleOf(from, line, opts), StripMarkers(Trimmed(line));
            && rule.Some? && rule.value.0.isWhitelist == marked.isWhitelist
            && rule.value.1.tokens == (if marked.isAbsolute || '/' in OpenText(line) then toks else [RecursivePrefix] + toks)
            && (Applies(rule.value.1, rule.value.0, path, isDir) <==>
                && TextMatches(marked.isAbsolute, OpenText(line), toks, opts, path)
                && (EndsWith(marked.line, "/") ==> isDir)
                && (LastComponent(path) == DOT_DOT ==> !LooksUpName(StrategyOf(rule.value.1))))
  {
    hide Build, GlobMatches, StripMarkers, StripDirSlash, AnchorGlob, Trimmed, LastComponent, Lang, PartsMatch, SimpleTokens,
         LooksUpName, StrategyOf;
    var marked, open := StripMarkers(Trimmed(line)), OpenText(line);
    SimpleAnchor(open, marked.isAbsolute);
    if marked.isAbsolute || '/' in open {
      AnchoredText(open, toks, opts, path);
    } else {
      NameText(open, toks, opts, path);
    }
  }

  // ----- plain lines -----

  // A file name or relative path without special characters: not empty, no leading or trailing
  // slash, and nothing in front that is a marker.
  predicate IsPlainPath(s: string) {
    && s != "" && IsPlain(s) && (forall c | c in s :: !IsWhitespace(c))
    && s[0] != '#' && s[0] != '!' && s[0] != '/' && s[|s| - 1] != '/'
  }

  // The line that names s.
  function PlainLine(negated: bool, anchored: bool, s: string, dirOnly: bool): string {
    var rest := AnchorLine(anchored, DirLine(s, dirOnly));
    if negated then "!" + rest else rest
  }

  function AnchorLine(anchored: bool, open: string): string {
    if anchored then "/" + open else open
  }

  function DirLine(s: string, dirOnly: bool): string {
    if dirOnly then s + "/" else s
  }

  lemma EndsLast(s: string, e: string)
    requires e != ""
    ensures EndsWith(s, e) ==> s != "" && s[|s| - 1] == e[|e| - 1]
  {
  }

  lemma StartsFirst(s: string, p: string)
    requires p != ""
    ensures StartsWith(s, p) ==> s != "" && s[0] == p[0]
  {
  }

  lemma NotTrimmed(line: string)
    requires line != "" && !IsWhitespace(line[|line| - 1])
    ensures Trimmed(line) == line
  {
    EndsLast(line, "\\ ");
  }

  // A line that starts with none of the markers.
  lemma NoMarkers(open: string)
    requires open != "" && open[0] !in ['!', '/', '\\']
    ensures StripMarkers(open) == Marked(false, false, open)
  {
    StartsFirst(open, "\\!");
    StartsFirst(open, "\\#");
    StartsFirst(open, "!");
    StartsFirst(open, "/");
  }

  lemma SlashMarker(open: string)
    ensures StripMarkers("/" + open) == Marked(false, true, open)
  {
    var line := "/" + open;
    StartsFirst(line, "\\!");
    StartsFirst(line, "\\#");
    StartsFirst(line, "!");
    assert line[1..] == open;
  }

  lemma BangMarker(rest: string, isAbsolute: bool, open: string)
    requires rest != "" && rest[0] != '!' && rest[0] != '\\' && StripMarkers(rest) == Marked(false, isAbsolute, open)
    ensures StripMarkers("!" + rest) == Marked(true, isAbsolute, open)
  {
    var line := "!" + rest;
    StartsFirst(line, "\\!");
    StartsFirst(line, "\\#");
    StartsFirst(rest, "\\!");
    StartsFirst(rest, "\\#");
    StartsFirst(rest, "!");
    assert line[1..] == rest;
  }

  lemma PlainEnds(s: string)
    requires IsPlainPath(s)
    ensures s[0] !in ['#', '!', '/', '\\'] && !IsWhitespace(s[|s| - 1])
  {
    assert s[0] in s && s[|s| - 1] in s;
  }

  lemma PlainMarkers(negated: bool, anchored: bool, s: string, dirOnly: bool)
    requires IsPlainPath(s)
    ensures var line := PlainLine(negated, anchored, s, dirOnly);
            && line != "" && !StartsWith(line, "#") && Trimmed(line) == line
            && StripMarkers(line) == Marked(negated, anchored, DirLine(s, dirOnly))
  {
    PlainEnds(s);
    hide IsPlainPath, StripMarkers, Trimmed;
    var open := DirLine(s, dirOnly);
    var rest := AnchorLine(anchored, open);
    var line := PlainLine(negated, anchored, s, dirOnly);
    if anchored {
      SlashMarker(open);
    } else {
      NoMarkers(open);
    }
    if negated {
      BangMarker(rest, anchored, open);
    }
    StartsFirst(line, "#");
    assert open[|open| - 1] == (if dirOnly then '/' else s[|s| - 1]);
    assert line[|line| - 1] == rest[|rest| - 1] == open[|open| - 1];
    NotTrimmed(line);
  }

  lemma PlainDirSlash(s: string, dirOnly: bool)
    requires IsPlainPath(s)
    ensures var open := DirLine(s, dirOnly);
            StripDirSlash(open) == s && EndsWith(open, "/") == dirOnly
  {
    var open := DirLine(s, dirOnly);
    LastChar(open, '/');
    LastChar(s, '\\');
    assert s[|s| - 1] in s;
    assert dirOnly ==> open[..|open| - 1] == s;
  }

  lemma LiteralTokens(s: string, opts: GlobOptions, path: seq<byte>)
    requires s != "" && !opts.caseInsensitive && opts.literalSeparator
    ensures PartsMatch(Split(Literals(s), Token.Literal('/')), Split(path, SLASH), opts) <==> path == Encode(s)
    ensures Lang(Literals(s), opts, LastComponent(path)) <==> LastComponent(path) == Encode(s)
  {
    hide Lang, PartsMatch, Encode, LastComponent;
    LangLiterals(s, opts, path);
    LangLiterals(s, opts, LastComponent(path));
    ComponentWise(Literals(s), opts, path);
  }

  lemma LiteralStrategy(s: string, glob: string, opts: GlobOptions)
    requires s != "" && !opts.caseInsensitive
    ensures !LooksUpName(StrategyOf(Glob(glob, opts, Literals(s))))
  {
    hide ExtOf, PrefixOf, SuffixOf, RequiredExtOf;
    var g := Glob(glob, opts, Literals(s));
    LiteralTextIs(s);
    assert g.tokens[0] == Token.Literal(s[0]);
    assert BasenameLiteralOf(g).None? && LiteralOf(g).Some?;
  }

  lemma NameStrategy(s: string, glob: string, opts: GlobOptions)
    requires s != "" && !opts.caseInsensitive && '/' !in s
    ensures LooksUpName(StrategyOf(Glob(glob, opts, [RecursivePrefix] + Literals(s))))
  {
    hide LiteralOf, ExtOf, PrefixOf, SuffixOf, RequiredExtOf;
    var g := Glob(glob, opts, [RecursivePrefix] + Literals(s));
    LiteralTextIs(s);
    assert g.tokens[1..] == Literals(s);
    forall t | t in Literals(s)
      ensures IsBasenameToken(t, opts)
    {
      var i :| 0 <= i < |s| && Literals(s)[i] == t;
      assert s[i] in s;
    }
    assert BasenameTokensOf(g) == Some(Literals(s));
  }

  // A plain line is a rule, a negated one a whitelist rule. Anchored by a slash at the start or in
  // the middle it applies to that one path; otherwise to every path with that last component, which
  // `..` never counts as. With a slash at the end it applies to directories only.
  lemma {:induction false} PlainLineMeans(from: Option<string>, negated: bool, anchored: bool, s: string, dirOnly: bool, unclosed: bool,
                                          path: seq<byte>, isDir: bool)
    requires IsPlainPath(s)
    ensures var rule := RuleOf(from, PlainLine(negated, anchored, s, dirOnly), LineOptions(false, unclosed));
            && rule.Some? && rule.value.0.isWhitelist == negated
            && (Applies(rule.value.1, rule.value.0, path, isDir) <==>
                && (if anchored || '/' in s then path == Encode(s) else LastComponent(path) == Encode(s) && Encode(s) != DOT_DOT)
                && (dirOnly ==> isDir))
  {
    hide RuleOf, Applies, StripMarkers, StripDirSlash, Trimmed, PlainLine, DirLine, IsPlainPath, LastComponent, Encode, Lang,
         PartsMatch, SimpleTokens, LooksUpName, StrategyOf;
    var line, opts := PlainLine(negated, anchored, s, dirOnly), LineOptions(false, unclosed);
    PlainMarkers(negated, anchored, s, dirOnly);
    PlainDirSlash(s, dirOnly);
    PlainIsPlain(s);
    PlainIsSimple(s, true);
    SimpleLineMeans(from, line, Literals(s), opts, path, isDir);
    LiteralTokens(s, opts, path);
    var g := RuleOf(from, line, opts).value.1;
    RuleOptions(from, line, opts);
    if anchored || '/' in s {
      LiteralStrategy(s, g.glob, opts);
    } else {
      NameStrategy(s, g.glob, opts);
    }
  }

  lemma RuleOptions(from: Option<string>, line: string, opts: GlobOptions)
    requires RuleOf(from, line, opts).Some?
    ensures RuleOf(from, line, opts).value.1.opts == opts
  {
    hide LineGlob, ParseLoop;
  }

  lemma PlainIsPlain(s: string)
    requires IsPlainPath(s)
    ensures IsPlain(s) && s != ""
  {
  }

  // The glob at which sets and expressions differ is one that the parser gives.
  lemma DotDotGlobIsParsed()
    ensures Build("**/..", DOT_DOT_GLOB.opts) == Ok(DOT_DOT_GLOB)
  {
    hide Build;
    assert IsPlain("..") && "**/" + ".." == "**/..";
    PlainIsSimple("..", true);
    AnywhereGlob("..", Literals(".."), DOT_DOT_GLOB.opts);
    assert [RecursivePrefix] + Literals("..") == [RecursivePrefix, Token.Literal('.'), Token.Literal('.')];
  }
}
