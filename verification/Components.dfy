/** What `literal_separator` promises: wildcards stay inside one component of a path. */
module Components {
  import opened Utf8
  import opened Tokens
  import opened Compiler
  import CompilerProofs
  import opened Languages
  import opened Paths

  // A token that cannot reach across a slash.
  predicate StaysInside(t: Token, opts: GlobOptions) {
    (t.Literal? && t.c != '/') || ((t.Any? || t.ZeroOrMore?) && opts.literalSeparator)
  }

  lemma InsideHasNoSlash(t: Token, opts: GlobOptions, w: seq<byte>)
    requires StaysInside(t, opts) && Denotes(t, opts, w)
    ensures SLASH !in w
  {
    if t.Literal? {
      assert forall i | 0 <= i < |w| :: w[i] != SLASH;
    }
  }

  lemma {:induction false} AllInsideHasNoSlash(toks: seq<Token>, opts: GlobOptions, w: seq<byte>)
    requires (forall t | t in toks :: StaysInside(t, opts)) && Lang(toks, opts, w)
    ensures SLASH !in w
  {
    if toks == [] {
    } else {
      LangTakes(toks, opts, w);
      var k :| Takes(toks, opts, w, k);
      InsideHasNoSlash(toks[0], opts, w[..k]);
      AllInsideHasNoSlash(toks[1..], opts, w[k..]);
      assert w == w[..k] + w[k..];
    }
  }

  lemma SlashDenotes(opts: GlobOptions, w: seq<byte>)
    ensures Denotes(Literal('/'), opts, w) <==> w == [SLASH]
  {
    assert EncodeChar('/') == [SLASH];
  }

  ghost predicate PartsMatch(parts: seq<seq<Token>>, pieces: seq<seq<byte>>, opts: GlobOptions) {
    |parts| == |pieces| && forall i | 0 <= i < |parts| :: Lang(parts[i], opts, pieces[i])
  }

  lemma PartsMatchCons(a: seq<Token>, parts: seq<seq<Token>>, p: seq<byte>, pieces: seq<seq<byte>>, opts: GlobOptions)
    ensures PartsMatch([a] + parts, [p] + pieces, opts) <==> Lang(a, opts, p) && PartsMatch(parts, pieces, opts)
  {
    assert ([a] + parts)[1..] == parts && ([p] + pieces)[1..] == pieces;
    if PartsMatch([a] + parts, [p] + pieces, opts) {
      assert ([a] + parts)[0] == a && ([p] + pieces)[0] == p;
      forall i | 0 <= i < |parts|
        ensures Lang(parts[i], opts, pieces[i])
      {
        assert ([a] + parts)[i + 1] == parts[i] && ([p] + pieces)[i + 1] == pieces[i];
      }
    }
  }

  lemma {:induction false} ComponentWise(toks: seq<Token>, opts: GlobOptions, s: seq<byte>)
    requires opts.literalSeparator && IsSimple(toks)
    ensures Lang(toks, opts, s) <==> PartsMatch(Split(toks, Literal('/')), Split(s, SLASH), opts)
    decreases toks, 1
  {
    if toks == [] {
      if s != [] && s[0] != SLASH {
        assert Split(s, SLASH)[0] != [];
      }
    } else if toks[0] == Literal('/') {
      ComponentWiseSlash(toks, opts, s);
    } else {
      assert toks[0] in toks;
      if Lang(toks, opts, s) {
        SplitMatch(toks, opts, s);
      }
      if PartsMatch(Split(toks, Literal('/')), Split(s, SLASH), opts) {
        JoinParts(toks, opts, s);
      }
    }
  }

  lemma {:induction false} SplitMatch(toks: seq<Token>, opts: GlobOptions, s: seq<byte>)
    requires opts.literalSeparator && IsSimple(toks) && toks != [] && toks[0] != Literal('/') && Lang(toks, opts, s)
    ensures PartsMatch(Split(toks, Literal('/')), Split(s, SLASH), opts)
    decreases toks, 0
  {
    hide PartsMatch, Lang, Denotes;
    var t, rest := toks[0], toks[1..];
    assert t in toks && StaysInside(t, opts);
    LangTakes(toks, opts, s);
    var k :| Takes(toks, opts, s, k);
    var w, parts, pieces := s[..k], Split(rest, Literal('/')), Split(s[k..], SLASH);
    InsideHasNoSlash(t, opts, w);
    ComponentWise(rest, opts, s[k..]);
    assert parts == [parts[0]] + parts[1..] && pieces == [pieces[0]] + pieces[1..];
    PartsMatchCons(parts[0], parts[1..], pieces[0], pieces[1..], opts);
    LangOne(t, opts, w);
    LangJoin([t], parts[0], opts, w, pieces[0]);
    PartsMatchCons([t] + parts[0], parts[1..], w + pieces[0], pieces[1..], opts);
    SplitPrefix(w, s[k..], SLASH);
    assert s == w + s[k..];
  }

  lemma {:induction false} JoinParts(toks: seq<Token>, opts: GlobOptions, s: seq<byte>)
    requires opts.literalSeparator && IsSimple(toks) && toks != [] && toks[0] != Literal('/')
    requires PartsMatch(Split(toks, Literal('/')), Split(s, SLASH), opts)
    ensures Lang(toks, opts, s)
    decreases toks, 0
  {
    hide PartsMatch, Denotes;
    var t, rest := toks[0], toks[1..];
    var parts, pieces := Split(rest, Literal('/')), Split(s, SLASH);
    assert pieces == [pieces[0]] + pieces[1..] && parts == [parts[0]] + parts[1..];
    PartsMatchCons([t] + parts[0], parts[1..], pieces[0], pieces[1..], opts);
    LangCons(t, parts[0], opts, pieces[0]);
    var k :| 0 <= k <= |pieces[0]| && Denotes(t, opts, pieces[0][..k]) && Lang(parts[0], opts, pieces[0][k..]);
    SplitDrop(s, SLASH, k);
    PartsMatchCons(parts[0], parts[1..], pieces[0][k..], pieces[1..], opts);
    ComponentWise(rest, opts, s[k..]);
    LangTakes(toks, opts, s);
    assert Takes(toks, opts, s, k);
  }

  lemma {:induction false} ComponentWiseSlash(toks: seq<Token>, opts: GlobOptions, s: seq<byte>)
    requires opts.literalSeparator && IsSimple(toks) && toks != [] && toks[0] == Literal('/')
    ensures Lang(toks, opts, s) <==> PartsMatch(Split(toks, Literal('/')), Split(s, SLASH), opts)
    decreases toks, 0
  {
    var rest, pieces := toks[1..], Split(s, SLASH);
    var restParts := Split(rest, Literal('/'));
    LangTakes(toks, opts, s);
    if s != [] && s[0] == SLASH {
      SlashDenotes(opts, s[..1]);
      ComponentWise(rest, opts, s[1..]);
      PartsMatchCons([], restParts, [], Split(s[1..], SLASH), opts);
      if Lang(rest, opts, s[1..]) {
        assert Takes(toks, opts, s, 1);
      }
      if Lang(toks, opts, s) {
        var k :| Takes(toks, opts, s, k);
        SlashDenotes(opts, s[..k]);
      }
    } else {
      if Lang(toks, opts, s) {
        var k :| Takes(toks, opts, s, k);
        SlashDenotes(opts, s[..k]);
      }
      if s != [] {
        PartsMatchCons([], restParts, pieces[0], pieces[1..], opts);
      }
    }
  }

  // A simple glob matches a path exactly when they have the same number of components and each
  // component of the glob matches its counterpart.
  lemma SimpleGlobsMatchByComponent(g: Glob, path: seq<byte>)
    requires g.opts.literalSeparator && IsSimple(g.tokens)
    ensures GlobMatches(g, path) <==> PartsMatch(Split(g.tokens, Literal('/')), Split(path, SLASH), g.opts)
  {
    assert forall t | t in g.tokens :: t != RecursivePrefix;
    CompilerProofs.CompileCorrect(g.tokens, g.opts, path);
    ComponentWise(g.tokens, g.opts, path);
  }

  // `?` takes one byte: of the single characters it matches exactly those of ASCII, the separator
  // aside.
  lemma QuestionMarkTakesOneByte(c: char, opts: GlobOptions)
    ensures Lang([Any], opts, EncodeChar(c)) <==> c as int < 0x80 && (opts.literalSeparator ==> c != '/')
  {
    LangOne(Any, opts, EncodeChar(c));
    if c as int >= 0x80 {
      assert |EncodeChar(c)| >= 2;
    }
  }
}
