/** Every strategy answers what the glob's own regular expression answers. */
module StrategyProofs {
  import opened Wrappers
  import opened Utf8
  import opened Regexes
  import opened Tokens
  import opened Compiler
  import opened Languages
  import opened Components
  import opened Paths
  import opened Text
  import opened Strategies

  // Outside the special case of a lone `**`, a glob's expression has the meaning of its tokens.
  lemma GlobLang(g: Glob, path: seq<byte>)
    ensures g.tokens != [RecursivePrefix] ==> (GlobMatches(g, path) <==> Lang(g.tokens, g.opts, path))
    ensures g.tokens == [RecursivePrefix] ==> GlobMatches(g, path)
  {
    CompilerProofs.CompileCorrect(g.tokens, g.opts, path);
    SingleItem(Star(AnyByte), g.opts.caseInsensitive, path);
  }

  // `**/` in front of tokens that stay inside one component: only the last component matters.
  lemma RecursivePrefixThenInside(toks: seq<Token>, opts: GlobOptions, path: seq<byte>)
    requires forall t | t in toks :: StaysInside(t, opts)
    ensures Lang([RecursivePrefix] + toks, opts, path) <==> Lang(toks, opts, LastComponent(path))
  {
    var n := |path| - |LastComponent(path)|;
    LangCons(RecursivePrefix, toks, opts, path);
    LastComponentCut(path, n);
    assert path[n..] == LastComponent(path);
    if Lang([RecursivePrefix] + toks, opts, path) {
      var k :| 0 <= k <= |path| && Denotes(RecursivePrefix, opts, path[..k]) && Lang(toks, opts, path[k..]);
      AllInsideHasNoSlash(toks, opts, path[k..]);
      LastComponentCut(path, k);
    }
  }

  // Whenever the glob looks at the last component only, as basename_tokens says, matching the whole
  // glob against the path is matching those tokens against what follows the path's last slash.
  lemma BasenameTokensSound(g: Glob, path: seq<byte>)
    requires BasenameTokensOf(g).Some?
    ensures GlobMatches(g, path) <==> Lang(BasenameTokensOf(g).value, g.opts, LastComponent(path))
  {
    var toks := g.tokens[1..];
    assert g.tokens == [RecursivePrefix] + toks;
    GlobLang(g, path);
    RecursivePrefixThenInside(toks, g.opts, path);
  }

  lemma LiteralSound(g: Glob, path: seq<byte>)
    requires LiteralOf(g).Some?
    ensures GlobMatches(g, path) <==> path == Encode(LiteralOf(g).value)
  {
    assert g.tokens[0].Literal?;
    GlobLang(g, path);
    LangLiterals(LiteralOf(g).value, g.opts, path);
  }

  lemma BasenameLiteralSound(g: Glob, path: seq<byte>)
    requires BasenameLiteralOf(g).Some?
    ensures GlobMatches(g, path) <==> LastComponent(path) == Encode(BasenameLiteralOf(g).value)
    ensures BasenameLiteralOf(g).value != ""
  {
    BasenameTokensSound(g, path);
    LangLiterals(BasenameLiteralOf(g).value, g.opts, LastComponent(path));
  }

  // `**/*` matches everything, and so does `*` where it may cross slashes.
  lemma GobblesAll(opts: GlobOptions, s: seq<byte>)
    ensures Lang([RecursivePrefix, ZeroOrMore], opts, s)
    ensures !opts.literalSeparator ==> Lang([ZeroOrMore], opts, s)
  {
    hide Lang, LastComponent;
    var n := LastComponentStart(s);
    LastComponentCut(s, n);
    LangOne(ZeroOrMore, opts, s[n..]);
    LangOne(ZeroOrMore, opts, s);
    assert [RecursivePrefix, ZeroOrMore] == [RecursivePrefix] + [ZeroOrMore];
    LangCons(RecursivePrefix, [ZeroOrMore], opts, s);
  }

  ghost predicate Gobbles(pre: seq<Token>, opts: GlobOptions) {
    forall s :: Lang(pre, opts, s)
  }

  lemma WildcardsGobble(pre: seq<Token>, opts: GlobOptions)
    requires pre == [RecursivePrefix, ZeroOrMore] || (pre == [ZeroOrMore] && !opts.literalSeparator)
    ensures Gobbles(pre, opts)
  {
    forall s
      ensures Lang(pre, opts, s)
    {
      GobblesAll(opts, s);
    }
  }

  // Tokens that match everything, then a plain string: the path ends with the string.
  lemma GobbleThenLiterals(g: Glob, pre: seq<Token>, lit: string, path: seq<byte>)
    requires !g.opts.caseInsensitive && g.tokens == pre + Literals(lit)
    requires Gobbles(pre, g.opts) && g.tokens != [RecursivePrefix]
    ensures GlobMatches(g, path) <==> EndsWith(path, Encode(lit))
  {
    GlobLang(g, path);
    LangThenLiterals(pre, lit, g.opts, path);
  }

  lemma DotEncodes(rest: string)
    requires '.' !in rest && '/' !in rest
    ensures Encode("." + rest) == [DOT] + Encode(rest) && DOT !in Encode(rest) && SLASH !in Encode(rest)
  {
    AsciiOccurrence(rest, '.');
    AsciiOccurrence(rest, '/');
    assert ("." + rest)[1..] == rest;
  }

  // `**/*` or a crossing `*`, then the extension.
  lemma ExtShape(g: Glob) returns (pre: seq<Token>)
    requires ExtOf(g).Some?
    ensures var ext := ExtOf(g).value;
            && GobblePrefix(g, pre, ext) && IsExtension(ext)
  {
    hide GlobMatches, Lang, Literals, LiteralText, ExtText;
    var start := if g.tokens[0].RecursivePrefix? then 1 else 0;
    var ext := ExtOf(g).value;
    ExtTextShape(g.tokens[start + 2..], ext);
    pre := if start == 1 then [RecursivePrefix, ZeroOrMore] else [ZeroOrMore];
    assert g.tokens == pre + ([Token.Literal('.')] + g.tokens[start + 2..]);
  }

  lemma ExtTextShape(toks: seq<Token>, ext: string)
    requires ExtText(toks) == Some(ext)
    ensures IsExtension(ext) && Literals(ext) == [Token.Literal('.')] + toks
  {
    hide Literals, LiteralText;
    var rest := LiteralText(toks).value;
    DotLiterals(rest);
  }

  lemma DotLiterals(rest: string)
    ensures Literals("." + rest) == [Token.Literal('.')] + Literals(rest)
    ensures ("." + rest)[1..] == rest
  {
    hide Literals;
    LiteralsFirst('.', rest);
    assert "." + rest == ['.'] + rest;
  }

  predicate IsExtension(ext: string) {
    ext != "" && ext[0] == '.' && '.' !in ext[1..] && '/' !in ext[1..]
  }

  lemma {:induction false} EndsWithExtension(path: seq<byte>, ext: string)
    requires LastComponent(path) != DOT_DOT && IsExtension(ext)
    ensures NewCandidate(path).ext == Encode(ext) <==> EndsWith(path, Encode(ext))
  {
    hide NewCandidate, EndsWith, EncodeChar;
    assert ext == "." + ext[1..];
    DotEncodes(ext[1..]);
    ExtensionCut(path, Encode(ext[1..]));
  }

  lemma {:induction false} ExtSound(g: Glob, path: seq<byte>)
    requires ExtOf(g).Some? && LastComponent(path) != DOT_DOT
    ensures GlobMatches(g, path) <==> NewCandidate(path).ext == Encode(ExtOf(g).value)
  {
    hide GlobMatches, Lang, Encode, NewCandidate, Gobbles;
    var pre := ExtShape(g);
    WildcardsGobble(pre, g.opts);
    assert ZeroOrMore in g.tokens;
    GobbleThenLiterals(g, pre, ExtOf(g).value, path);
    EndsWithExtension(path, ExtOf(g).value);
  }

  // A plain string, then `*` that may cross slashes or a trailing `/**`.
  predicate IsPrefixShape(g: Glob, l: string, t: Token, prefix: string) {
    && g.tokens == Literals(l) + [t] && !g.opts.caseInsensitive
    && ((t.ZeroOrMore? && !g.opts.literalSeparator && prefix == l) || (t.RecursiveSuffix? && prefix == l + "/"))
  }

  lemma PrefixShape(g: Glob) returns (l: string, t: Token)
    requires PrefixOf(g).Some? && LiteralOf(g).None?
    ensures IsPrefixShape(g, l, t, PrefixOf(g).value)
  {
    var last := |g.tokens| - 1;
    t := g.tokens[last];
    assert g.tokens[..last + 1] == g.tokens;
    assert g.tokens == g.tokens[..last] + [t];
    l := LiteralText(g.tokens[..last]).value;
  }

  lemma SlashAfter(path: seq<byte>, e: seq<byte>)
    ensures e <= path && path[|e|..] != [] && path[|e|..][0] == SLASH <==> e + [SLASH] <= path
  {
    if e <= path && path[|e|..] != [] && path[|e|..][0] == SLASH {
      assert path[..|e| + 1] == e + [SLASH];
    }
  }

  lemma PrefixShapeSound(g: Glob, l: string, t: Token, prefix: string, path: seq<byte>)
    requires IsPrefixShape(g, l, t, prefix)
    ensures GlobMatches(g, path) <==> Encode(prefix) <= path
  {
    hide GlobMatches, Lang, SameBytes, Encode;
    GlobLang(g, path);
    assert g.tokens[|l|] == t;
    LangLiteralsThen(l, [t], g.opts, path);
    if |Encode(l)| <= |path| {
      SameBytesAreEqual(g.opts, path[..|Encode(l)|], Encode(l));
    }
    EncodeConcat(l, "/");
    SlashAfter(path, Encode(l));
    if Encode(l) <= path {
      LangOne(t, g.opts, path[|Encode(l)|..]);
    }
    EncodeSlash();
  }

  lemma EncodeSlash()
    ensures Encode("/") == [SLASH]
  {
  }

  lemma PrefixSound(g: Glob, path: seq<byte>)
    requires PrefixOf(g).Some? && LiteralOf(g).None?
    ensures GlobMatches(g, path) <==> Encode(PrefixOf(g).value) <= path
  {
    var l, t := PrefixShape(g);
    PrefixShapeSound(g, l, t, PrefixOf(g).value, path);
  }

  // `**/` and a plain string: the path is the string, or ends with it after a slash.
  lemma ComponentSuffixSound(g: Glob, lit: string, path: seq<byte>)
    requires !g.opts.caseInsensitive && g.tokens == [RecursivePrefix] + Literals(lit) && lit != ""
    ensures GlobMatches(g, path) <==> path == Encode(lit) || EndsWith(path, Encode("/" + lit))
  {
    hide GlobMatches, Lang, Encode, Literals;
    var e := Encode(lit);
    ComponentSuffixLang(g, lit, path);
    LangThenLiterals([RecursivePrefix], lit, g.opts, path);
    EncodeAfterSlash(lit);
    if EndsWith(path, e) {
      LangOne(RecursivePrefix, g.opts, path[..|path| - |e|]);
    }
    SlashBefore(path, e);
  }

  lemma ComponentSuffixLang(g: Glob, lit: string, path: seq<byte>)
    requires !g.opts.caseInsensitive && g.tokens == [RecursivePrefix] + Literals(lit) && lit != ""
    ensures GlobMatches(g, path) <==> Lang(g.tokens, g.opts, path)
  {
    hide GlobMatches, Lang;
    GlobLang(g, path);
    assert |g.tokens| > 1;
  }

  lemma EncodeAfterSlash(lit: string)
    ensures Encode("/" + lit) == [SLASH] + Encode(lit)
  {
    assert ("/" + lit)[1..] == lit;
  }

  lemma SlashBefore(path: seq<byte>, e: seq<byte>)
    ensures EndsWith(path, e) && IsParentPart(path[..|path| - |e|]) <==> path == e || EndsWith(path, [SLASH] + e)
  {
    var n := |path| - |e|;
    if n > 0 {
      assert path[n - 1..] == [path[n - 1]] + path[n..];
      assert path[..n][n - 1] == path[n - 1];
      FirstOf(path[n - 1], path[n..]);
      FirstOf(SLASH, e);
    } else if n == 0 {
      assert path[0..] == path && path[..0] == [];
    }
  }

  lemma SuffixShape(g: Glob)
    requires SuffixOf(g).Some? && LiteralOf(g).None?
    ensures var (suffix, entire) := SuffixOf(g).value;
            if entire then suffix != "" && g.tokens == [RecursivePrefix] + Literals(AfterSlash(suffix)) && suffix == "/" + AfterSlash(suffix)
            else exists pre :: GobblePrefix(g, pre, suffix)
  {
    hide Literals;
    var (suffix, entire) := SuffixOf(g).value;
    if entire {
      assert g.tokens == [RecursivePrefix] + g.tokens[1..];
      assert suffix[1..] == LiteralText(g.tokens[1..]).value;
    } else {
      var start := if g.tokens[0].RecursivePrefix? then 1 else 0;
      StarsFirst(g, start);
      assert GobblePrefix(g, g.tokens[..start + 1], suffix);
    }
  }

  lemma StarsFirst(g: Glob, start: nat)
    requires g.tokens != [] && start == (if g.tokens[0].RecursivePrefix? then 1 else 0) && start < |g.tokens|
    requires !g.opts.caseInsensitive && LiteralOf(g).None?
    requires g.tokens[start].ZeroOrMore? || LiteralText(g.tokens[start..]).Some?
    requires start == 1 ==> !g.tokens[1].Literal?
    ensures g.tokens[start].ZeroOrMore?
    ensures g.tokens[..start + 1] == if start == 1 then [RecursivePrefix, ZeroOrMore] else [ZeroOrMore]
    ensures g.tokens == g.tokens[..start + 1] + g.tokens[start + 1..]
  {
    assert g.tokens[0..] == g.tokens;
    if start == 1 {
      assert g.tokens[1..][0] == g.tokens[1];
    }
  }

  ghost predicate GobblePrefix(g: Glob, pre: seq<Token>, suffix: string) {
    && (pre == [RecursivePrefix, ZeroOrMore] || (pre == [ZeroOrMore] && !g.opts.literalSeparator))
    && g.tokens == pre + Literals(suffix)
  }

  predicate SuffixAnswers(suffix: (string, bool), path: seq<byte>) {
    (suffix.1 && path == Encode(AfterSlash(suffix.0))) || EndsWith(path, Encode(suffix.0))
  }

  lemma SuffixSound(g: Glob, path: seq<byte>)
    requires SuffixOf(g).Some? && LiteralOf(g).None?
    ensures GlobMatches(g, path) <==> SuffixAnswers(SuffixOf(g).value, path)
  {
    var (suffix, entire) := SuffixOf(g).value;
    SuffixShape(g);
    if entire {
      ComponentSuffixSound(g, AfterSlash(suffix), path);
    } else {
      var pre :| GobblePrefix(g, pre, suffix);
      WildcardsGobble(pre, g.opts);
      assert ZeroOrMore in g.tokens;
      GobbleThenLiterals(g, pre, suffix, path);
    }
  }

  lemma {:induction false} TrailingExtShape(toks: seq<Token>, acc: string)
    requires TrailingExt(toks, acc).Some? && '.' !in acc && '/' !in acc
    ensures exists k :: IsTrailingExt(toks, acc, k, TrailingExt(toks, acc).value)
  {
    hide Literals, IsExtension;
    var n := |toks| - 1;
    var c := toks[n].c;
    LastIntoText(toks, acc);
    if c == '.' {
      DotStartsExtension(acc);
      assert IsTrailingExt(toks, acc, n, "." + acc);
    } else {
      TrailingExtShape(toks[..n], [c] + acc);
      var ext := TrailingExt(toks, acc).value;
      var k :| IsTrailingExt(toks[..n], [c] + acc, k, ext);
      assert toks[..n][..k] == toks[..k];
      assert IsTrailingExt(toks, acc, k, ext);
    }
  }

  // Moving the last literal over to the text.
  lemma LastIntoText(toks: seq<Token>, acc: string)
    requires toks != [] && toks[|toks| - 1].Literal?
    ensures var n := |toks| - 1; toks + Literals(acc) == toks[..n] + Literals([toks[n].c] + acc)
  {
    var n := |toks| - 1;
    LiteralsFirst(toks[n].c, acc);
    assert toks == toks[..n] + [toks[n]];
  }

  lemma DotStartsExtension(acc: string)
    requires '.' !in acc && '/' !in acc
    ensures IsExtension("." + acc)
  {
    assert ("." + acc)[1..] == acc;
  }

  predicate IsTrailingExt(toks: seq<Token>, acc: string, k: int, ext: string) {
    && 0 <= k <= |toks| && toks + Literals(acc) == toks[..k] + Literals(ext)
    && IsExtension(ext)
  }

  lemma RequiredExtShape(g: Glob) returns (k: nat)
    requires RequiredExtOf(g).Some?
    ensures k <= |g.tokens| && IsExtension(RequiredExtOf(g).value)
    ensures g.tokens == g.tokens[..k] + Literals(RequiredExtOf(g).value) && g.tokens != [RecursivePrefix]
    ensures !g.opts.caseInsensitive
  {
    hide TrailingExt;
    TrailingExtShape(g.tokens, "");
    var ext := RequiredExtOf(g).value;
    var j :| IsTrailingExt(g.tokens, "", j, ext);
    assert g.tokens + Literals("") == g.tokens;
    assert g.tokens[|g.tokens| - 1] == Literals(ext)[|ext| - 1];
    k := j;
  }

  // A required extension is necessary for a match.
  lemma {:induction false} RequiredExtSound(g: Glob, path: seq<byte>)
    requires RequiredExtOf(g).Some? && LastComponent(path) != DOT_DOT && GlobMatches(g, path)
    ensures NewCandidate(path).ext == Encode(RequiredExtOf(g).value)
  {
    hide GlobMatches, Lang, Encode, NewCandidate, RequiredExtOf, Literals, IsExtension, LastComponent;
    var ext := RequiredExtOf(g).value;
    var k := RequiredExtShape(g);
    GlobLang(g, path);
    LangThenLiterals(g.tokens[..k], ext, g.opts, path);
    EndsWithExtension(path, ext);
  }

  // If each extractor is right, the prefix and suffix extractors only where the literal one
  // declines, then so is the choice among them.
  lemma ChoiceSound(
    c: Candidate, m: bool,
    basename: Option<string>, lit: Option<string>, ext: Option<string>, prefix: Option<string>,
    suffix: Option<(string, bool)>, required: Option<string>
  )
    requires basename.Some? ==> (m <==> c.basename == Encode(basename.value))
    requires lit.Some? ==> (m <==> c.path == Encode(lit.value))
    requires ext.Some? ==> (m <==> c.ext == Encode(ext.value))
    requires prefix.Some? && lit.None? ==> (m <==> Encode(prefix.value) <= c.path)
    requires suffix.Some? && lit.None? ==> (m <==> SuffixAnswers(suffix.value, c.path))
    requires required.Some? && m ==> c.ext == Encode(required.value)
    ensures Answers(Choose(basename, lit, ext, prefix, suffix, required), c, m) <==> m
  {
  }

  // The strategy chosen for a glob answers exactly what the glob's regular expression answers.
  lemma {:induction false} StrategySound(g: Glob, path: seq<byte>)
    requires LastComponent(path) != DOT_DOT
    ensures StrategyMatches(g, NewCandidate(path)) <==> GlobMatches(g, path)
  {
    hide BasenameLiteralOf, LiteralOf, ExtOf, PrefixOf, SuffixOf, RequiredExtOf, GlobMatches, Encode, Choose, Answers, SuffixAnswers,
         EndsWith;
    var basename, lit, ext := BasenameLiteralOf(g), LiteralOf(g), ExtOf(g);
    var prefix, suffix, required := PrefixOf(g), SuffixOf(g), RequiredExtOf(g);
    if basename.Some? {
      BasenameLiteralSound(g, path);
      assert LastComponent(path) == NewCandidate(path).basename;
    }
    if lit.Some? {
      LiteralSound(g, path);
    }
    if ext.Some? {
      ExtSound(g, path);
    }
    if prefix.Some? && lit.None? {
      PrefixSound(g, path);
    }
    if suffix.Some? && lit.None? {
      SuffixSound(g, path);
    }
    if required.Some? && GlobMatches(g, path) {
      RequiredExtSound(g, path);
    }
    ChoiceSound(NewCandidate(path), GlobMatches(g, path), basename, lit, ext, prefix, suffix, required);
  }

  // ----- what the order of the cases in StrategyOf is for -----

  ghost predicate PrefixIsRight(g: Glob, prefix: string) {
    forall path :: GlobMatches(g, path) <==> Encode(prefix) <= path
  }

  // Asked on its own, prefix() is right about exactly the globs for which literal() declines.
  lemma PrefixNeedsItsShield(g: Glob)
    requires PrefixOf(g).Some?
    ensures PrefixIsRight(g, PrefixOf(g).value) <==> LiteralOf(g).None?
  {
    hide PrefixOf, LiteralOf, GlobMatches, Encode;
    var prefix := PrefixOf(g).value;
    if LiteralOf(g).None? {
      forall path
        ensures GlobMatches(g, path) <==> Encode(prefix) <= path
      {
        PrefixSound(g, path);
      }
    } else {
      LiteralPrefix(g);
      var path := Encode(prefix) + [0];
      LiteralSound(g, path);
      assert !GlobMatches(g, path) && Encode(prefix) <= path;
    }
  }

  lemma LiteralPrefix(g: Glob)
    requires PrefixOf(g).Some? && LiteralOf(g).Some?
    ensures PrefixOf(g).value == LiteralOf(g).value
  {
    hide Literals;
    assert g.tokens[..|g.tokens|] == g.tokens;
    AllLiterals(g.tokens);
  }

  lemma AllLiterals(toks: seq<Token>)
    requires LiteralText(toks).Some?
    ensures forall i | 0 <= i < |toks| :: toks[i].Literal?
  {
  }

  ghost predicate SuffixIsRight(g: Glob, suffix: (string, bool)) {
    forall path :: GlobMatches(g, path) <==> SuffixAnswers(suffix, path)
  }

  // The same for suffix().
  lemma SuffixNeedsItsShield(g: Glob)
    requires SuffixOf(g).Some?
    ensures SuffixIsRight(g, SuffixOf(g).value) <==> LiteralOf(g).None?
  {
    hide SuffixOf, LiteralOf, GlobMatches, Encode;
    var suffix := SuffixOf(g).value;
    if LiteralOf(g).None? {
      forall path
        ensures GlobMatches(g, path) <==> SuffixAnswers(suffix, path)
      {
        SuffixSound(g, path);
      }
    } else {
      LiteralSuffix(g);
      var path := [0] + Encode(suffix.0);
      LiteralSound(g, path);
      assert path[1..] == Encode(suffix.0);
      assert !GlobMatches(g, path) && SuffixAnswers(suffix, path);
    }
  }

  lemma LiteralSuffix(g: Glob)
    requires SuffixOf(g).Some? && LiteralOf(g).Some?
    ensures SuffixOf(g).value.0 == LiteralOf(g).value
  {
    hide Literals;
    AllLiterals(g.tokens);
    assert g.tokens[0..] == g.tokens;
  }
}
