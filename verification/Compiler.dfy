/**
 From tokens to regular expressions, as `tokens_to_regex` emits them, and the meaning of a token
 tree stated without regular expressions. CompileCorrect connects the two.
 */
module Compiler {
  import opened Utf8
  import opened Regexes
  import opened Tokens

  // ----- the expressions emitted -----

  // Each byte of a string as an escaped literal.
  function ByteItems(bs: seq<byte>): (re: Regex)
    ensures |re| == |bs|
  {
    seq(|bs|, i requires 0 <= i < |bs| => One(Exactly(bs[i])))
  }

  function Singletons(bs: seq<byte>): (spans: seq<Span>)
  {
    seq(|bs|, i requires 0 <= i < |bs| => Span(bs[i], bs[i]))
  }

  // What the text emitted for one range denotes between brackets. Each end is emitted byte by byte,
  // so in `lo-hi` the dash joins the last byte of lo and the first byte of hi.
  function RangeSpans(lo: char, hi: char): seq<Span> {
    var l, h := EncodeChar(lo), EncodeChar(hi);
    if lo == hi then Singletons(l)
    else Singletons(l[..|l| - 1]) + [Span(l[|l| - 1], h[0])] + Singletons(h[1..])
  }

  function ClassSpans(ranges: seq<(char, char)>): seq<Span> {
    if ranges == [] then [] else RangeSpans(ranges[0].0, ranges[0].1) + ClassSpans(ranges[1..])
  }

  // `[^/]` or `.`
  function Wildcard(opts: GlobOptions): ByteSet {
    if opts.literalSeparator then NOT_SLASH else AnyByte
  }

  const ONE_SLASH := One(Exactly(SLASH))

  function CompileToken(t: Token, opts: GlobOptions): Regex
    decreases t
  {
    match t
    case Literal(c) => ByteItems(EncodeChar(c))
    case Any => [One(Wildcard(opts))]
    case ZeroOrMore => [Star(Wildcard(opts))]
    case RecursivePrefix => [Group([Branch([Maybe(Exactly(SLASH))]), Branch([Star(AnyByte), ONE_SLASH])])]
    case RecursiveSuffix => [ONE_SLASH, Star(AnyByte)]
    case RecursiveZeroOrMore => [Group([Branch([ONE_SLASH]), Branch([ONE_SLASH, Star(AnyByte), ONE_SLASH])])]
    case Class(negated, ranges) => [One(Bracket(negated, ClassSpans(ranges)))]
    case Alternates(branches) =>
      var parts := CompileBranches(branches, opts);
      if parts == [] then [] else [Group(parts)]
  }

  function CompileBranches(branches: seq<Tokens>, opts: GlobOptions): seq<Branch>
    decreases branches
  {
    if branches == [] then [] else
    var re := Compile(branches[0].list, opts);
    (if re != [] || opts.emptyAlternates then [Branch(re)] else []) + CompileBranches(branches[1..], opts)
  }

  function Compile(toks: seq<Token>, opts: GlobOptions): Regex
    decreases toks
  {
    if toks == [] then [] else CompileToken(toks[0], opts) + Compile(toks[1..], opts)
  }

  // The expression of a whole glob: `**` alone matches everything.
  function GlobRegex(g: Glob): Regex {
    if g.tokens == [RecursivePrefix] then [Star(AnyByte)] else Compile(g.tokens, g.opts)
  }

  function PatternOf(g: Glob): Pattern {
    Pattern(GlobRegex(g), g.opts.caseInsensitive)
  }

  // What running the glob's own regular expression on a path answers.
  predicate GlobMatches(g: Glob, path: seq<byte>) {
    PatternMatches(PatternOf(g), path)
  }

  // ----- the meaning of tokens -----

  predicate SameByte(opts: GlobOptions, a: byte, b: byte) {
    a == b || (opts.caseInsensitive && SwapCase(a) == b)
  }

  predicate SameBytes(opts: GlobOptions, w: seq<byte>, bs: seq<byte>) {
    |w| == |bs| && forall i | 0 <= i < |w| :: SameByte(opts, w[i], bs[i])
  }

  predicate ByteInClass(t: Token, opts: GlobOptions, b: byte)
    requires t.Class?
  {
    var spans := ClassSpans(t.ranges);
    (InSpans(spans, b) || (opts.caseInsensitive && InSpans(spans, SwapCase(b)))) != t.negated
  }

  // The tokens of a branch that cause nothing to be emitted: groups all of whose branches are dropped.
  predicate EmitsNothing(toks: seq<Token>, opts: GlobOptions)
    decreases toks
  {
    forall t | t in toks :: t.Alternates? && DropsAll(t.branches, opts)
  }

  predicate DropsAll(branches: seq<Tokens>, opts: GlobOptions)
    decreases branches
  {
    forall b | b in branches :: !opts.emptyAlternates && EmitsNothing(b.list, opts)
  }

  predicate IsLive(b: Tokens, opts: GlobOptions) {
    opts.emptyAlternates || !EmitsNothing(b.list, opts)
  }

  // The paths (or pieces of a path) that one token stands for.
  ghost predicate Denotes(t: Token, opts: GlobOptions, w: seq<byte>)
    decreases t
  {
    match t
    case Literal(c) => SameBytes(opts, w, EncodeChar(c))
    case Any => |w| == 1 && (opts.literalSeparator ==> w[0] != SLASH)
    case ZeroOrMore => opts.literalSeparator ==> SLASH !in w
    case RecursivePrefix => w == [] || w[|w| - 1] == SLASH
    case RecursiveSuffix => w != [] && w[0] == SLASH
    case RecursiveZeroOrMore => w != [] && w[0] == SLASH && w[|w| - 1] == SLASH
    case Class(_, _) => |w| == 1 && ByteInClass(t, opts, w[0])
    case Alternates(branches) =>
      if forall b | b in branches :: !IsLive(b, opts) then w == []
      else exists b | b in branches :: IsLive(b, opts) && Lang(b.list, opts, w)
  }

  // The strings that a sequence of tokens stands for.
  ghost predicate Lang(toks: seq<Token>, opts: GlobOptions, s: seq<byte>)
    decreases toks
  {
    if toks == [] then s == []
    else exists k | 0 <= k <= |s| :: Denotes(toks[0], opts, s[..k]) && Lang(toks[1..], opts, s[k..])
  }

  // The first token takes the first k bytes of s.
  ghost predicate Takes(toks: seq<Token>, opts: GlobOptions, s: seq<byte>, k: int)
    requires toks != []
  {
    0 <= k <= |s| && Denotes(toks[0], opts, s[..k]) && Lang(toks[1..], opts, s[k..])
  }

  lemma LangTakes(toks: seq<Token>, opts: GlobOptions, s: seq<byte>)
    requires toks != []
    ensures Lang(toks, opts, s) <==> exists k :: Takes(toks, opts, s, k)
  {
    if Lang(toks, opts, s) {
      var k :| 0 <= k <= |s| && Denotes(toks[0], opts, s[..k]) && Lang(toks[1..], opts, s[k..]);
      assert Takes(toks, opts, s, k);
    }
  }
}
