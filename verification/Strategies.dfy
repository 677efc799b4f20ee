/**
 The strategy by which a glob set answers for a glob without running its regular expression.

 Each extractor appears twice: as a function, by which everything else speaks about it, and as the
 loop over the tokens that computes it.
 */
module Strategies {
  import opened Wrappers
  import opened Utf8
  import opened Tokens
  import opened Compiler
  import opened Paths
  import opened Text

  datatype MatchStrategy =
    | Literal(lit: string)
    | BasenameLiteral(lit: string)
    | Extension(ext: string)
    | Prefix(prefix: string)
    | Suffix(suffix: string, component: bool)
    | RequiredExtension(ext: string)
    | Regex

  predicate IsLiteralToken(t: Token) {
    t.Literal?
  }

  lemma LiteralsInjective(a: string, b: string)
    requires Literals(a) == Literals(b)
    ensures a == b
  {
    assert |a| == |b|;
    forall i | 0 <= i < |a|
      ensures a[i] == b[i]
    {
      assert Literals(a)[i] == Literals(b)[i];
    }
  }

  // The string that the tokens spell, if they are all literals.
  function LiteralText(toks: seq<Token>): (r: Option<string>)
    ensures r.Some? ==> toks == Literals(r.value)
    ensures r.None? ==> exists t :: t in toks && !IsLiteralToken(t)
  {
    if toks == [] then Some("")
    else if !IsLiteralToken(toks[0]) then None
    else
      var rest := LiteralText(toks[1..]);
      assert toks == [toks[0]] + toks[1..];
      assert rest.Some? ==> toks == Literals([toks[0].c] + rest.value);
      if rest.None? then None else Some([toks[0].c] + rest.value)
  }

  lemma NotLiteralText(toks: seq<Token>, i: nat)
    requires i < |toks| && !toks[i].Literal?
    ensures LiteralText(toks).None?
  {
  }

  lemma BadExtText(toks: seq<Token>, i: nat)
    requires i < |toks| && (!toks[i].Literal? || toks[i].c == '.' || toks[i].c == '/')
    ensures ExtText(toks).None?
  {
    if LiteralText(toks).Some? {
      assert toks[i] == Literals(LiteralText(toks).value)[i];
      assert LiteralText(toks).value[i] in LiteralText(toks).value;
    }
  }

  lemma LiteralTextIs(lit: string)
    ensures LiteralText(Literals(lit)) == Some(lit)
  {
    LiteralsInjective(lit, LiteralText(Literals(lit)).value);
  }

  function LiteralOf(g: Glob): Option<string> {
    if g.opts.caseInsensitive then None else
    match LiteralText(g.tokens)
    case None => None
    case Some(lit) => if lit == "" then None else Some(lit)
  }

  // A dot and the text of the tokens, if that holds no dot and no slash.
  function ExtText(toks: seq<Token>): Option<string> {
    match LiteralText(toks)
    case None => None
    case Some(rest) => if '.' in rest || '/' in rest then None else Some("." + rest)
  }

  function ExtOf(g: Glob): Option<string> {
    if g.opts.caseInsensitive || g.tokens == [] then None else
    var start := if g.tokens[0].RecursivePrefix? then 1 else 0;
    if start + 1 >= |g.tokens| || !g.tokens[start].ZeroOrMore? then None
    else if start == 0 && g.opts.literalSeparator then None
    else if g.tokens[start + 1] != Token.Literal('.') then None
    else ExtText(g.tokens[start + 2..])
  }

  // The literal that ends the tokens, from its last dot on, if no slash intervenes.
  function TrailingExt(toks: seq<Token>, acc: string): Option<string> {
    if toks == [] || !IsLiteralToken(toks[|toks| - 1]) then None else
    var c := toks[|toks| - 1].c;
    if c == '/' then None
    else if c == '.' then Some("." + acc)
    else TrailingExt(toks[..|toks| - 1], [c] + acc)
  }

  function RequiredExtOf(g: Glob): Option<string> {
    if g.opts.caseInsensitive then None else TrailingExt(g.tokens, "")
  }

  function PrefixOf(g: Glob): Option<string> {
    if g.opts.caseInsensitive || g.tokens == [] then None else
    var last := |g.tokens| - 1;
    if g.tokens[last].ZeroOrMore? && g.opts.literalSeparator then None else
    var (end, needSep) :=
      if g.tokens[last].ZeroOrMore? then (last, false)
      else if g.tokens[last].RecursiveSuffix? then (last, true)
      else (last + 1, false);
    match LiteralText(g.tokens[..end])
    case None => None
    case Some(l) =>
      var lit := if needSep then l + "/" else l;
      if lit == "" then None else Some(lit)
  }

  function SuffixOf(g: Glob): Option<(string, bool)> {
    if g.opts.caseInsensitive || g.tokens == [] then None else
    var entire := g.tokens[0].RecursivePrefix? && |g.tokens| > 1 && g.tokens[1].Literal?;
    var start := if g.tokens[0].RecursivePrefix? then 1 else 0;
    if start >= |g.tokens| then None
    else if g.tokens[start].ZeroOrMore? && g.opts.literalSeparator then None
    else
      match LiteralText(g.tokens[if g.tokens[start].ZeroOrMore? then start + 1 else start..])
      case None => None
      case Some(l) =>
        var lit := if entire then "/" + l else l;
        if lit == "" || lit == "/" then None else Some((lit, entire))
  }

  predicate IsBasenameToken(t: Token, opts: GlobOptions) {
    match t
    case Literal(c) => c != '/'
    case Any => opts.literalSeparator
    case ZeroOrMore => opts.literalSeparator
    case _ => false
  }

  function BasenameTokensOf(g: Glob): Option<seq<Token>> {
    if g.opts.caseInsensitive || |g.tokens| < 2 || !g.tokens[0].RecursivePrefix? then None
    else if forall t | t in g.tokens[1..] :: IsBasenameToken(t, g.opts) then Some(g.tokens[1..])
    else None
  }

  function BasenameLiteralOf(g: Glob): Option<string> {
    match BasenameTokensOf(g)
    case None => None
    case Some(toks) => LiteralText(toks)
  }

  // The order of the cases matters: PrefixOf and SuffixOf also answer for plain literals, wrongly,
  // and LiteralOf is asked before them.
  function Choose(
    basename: Option<string>, lit: Option<string>, ext: Option<string>, prefix: Option<string>,
    suffix: Option<(string, bool)>, required: Option<string>
  ): MatchStrategy {
    if basename.Some? then BasenameLiteral(basename.value)
    else if lit.Some? then MatchStrategy.Literal(lit.value)
    else if ext.Some? then Extension(ext.value)
    else if prefix.Some? then Prefix(prefix.value)
    else if suffix.Some? then Suffix(suffix.value.0, suffix.value.1)
    else if required.Some? then RequiredExtension(required.value)
    else Regex
  }

  function StrategyOf(g: Glob): MatchStrategy {
    Choose(BasenameLiteralOf(g), LiteralOf(g), ExtOf(g), PrefixOf(g), SuffixOf(g), RequiredExtOf(g))
  }

  // A component suffix without its leading slash.
  function AfterSlash(suffix: string): string {
    if suffix == "" then "" else suffix[1..]
  }

  // What a strategy answers about a candidate path, given what the glob's expression would answer.
  predicate Answers(st: MatchStrategy, c: Candidate, byRegex: bool) {
    match st
    case Literal(lit) => c.path == Encode(lit)
    case BasenameLiteral(lit) => c.basename == Encode(lit)
    case Extension(ext) => c.ext == Encode(ext)
    case Prefix(prefix) => Encode(prefix) <= c.path
    case Suffix(suffix, component) =>
      (component && c.path == Encode(AfterSlash(suffix))) || EndsWith(c.path, Encode(suffix))
    case RequiredExtension(ext) => c.ext == Encode(ext) && byRegex
    case Regex => byRegex
  }

  predicate StrategyMatches(g: Glob, c: Candidate) {
    Answers(StrategyOf(g), c, GlobMatches(g, c.path))
  }

  // ----- the extractors as loops over the tokens -----

  method SpellLiterals(toks: seq<Token>, init: string) returns (r: Option<string>)
    ensures r == match LiteralText(toks) case None => None case Some(l) => Some(init + l)
    ensures init == "" ==> r == LiteralText(toks)
  {
    var lit := init;
    for i := 0 to |toks|
      invariant |lit| == |init| + i && lit[..|init|] == init && toks[..i] == Literals(lit[|init|..])
    {
      if !toks[i].Literal? {
        NotLiteralText(toks, i);
        return None;
      }
      lit := lit + [toks[i].c];
    }
    LiteralTextIs(lit[|init|..]);
    assert toks == Literals(lit[|init|..]) && lit == init + lit[|init|..];
    return Some(lit);
  }

  method ExtractLiteral(g: Glob) returns (r: Option<string>)
    ensures r == LiteralOf(g)
  {
    if g.opts.caseInsensitive {
      return None;
    }
    r := SpellLiterals(g.tokens, "");
    if r == Some("") {
      r := None;
    }
  }

  method SpellExt(toks: seq<Token>) returns (r: Option<string>)
    ensures r == ExtText(toks)
  {
    var lit := ".";
    for i := 0 to |toks|
      invariant |lit| == i + 1 && lit[0] == '.' && toks[..i] == Literals(lit[1..])
      invariant '.' !in lit[1..] && '/' !in lit[1..]
    {
      if !toks[i].Literal? || toks[i].c == '.' || toks[i].c == '/' {
        BadExtText(toks, i);
        return None;
      }
      assert (lit + [toks[i].c])[1..] == lit[1..] + [toks[i].c];
      lit := lit + [toks[i].c];
    }
    LiteralTextIs(lit[1..]);
    assert toks == Literals(lit[1..]) && lit == "." + lit[1..];
    return Some(lit);
  }

  method ExtractExt(g: Glob) returns (r: Option<string>)
    ensures r == ExtOf(g)
  {
    if g.opts.caseInsensitive || |g.tokens| == 0 {
      return None;
    }
    var start := if g.tokens[0].RecursivePrefix? then 1 else 0;
    if |g.tokens| <= start || !g.tokens[start].ZeroOrMore? {
      return None;
    }
    if start == 0 && g.opts.literalSeparator {
      return None;
    }
    if |g.tokens| <= start + 1 || g.tokens[start + 1] != Token.Literal('.') {
      return None;
    }
    r := SpellExt(g.tokens[start + 2..]);
  }

  method ExtractRequiredExt(g: Glob) returns (r: Option<string>)
    ensures r == RequiredExtOf(g)
  {
    if g.opts.caseInsensitive {
      return None;
    }
    var ext := "";
    var i := |g.tokens|;
    assert g.tokens[..i] == g.tokens;
    while i > 0
      invariant 0 <= i <= |g.tokens|
      invariant TrailingExt(g.tokens, "") == TrailingExt(g.tokens[..i], ext)
    {
      i := i - 1;
      assert g.tokens[..i + 1][..i] == g.tokens[..i];
      if !g.tokens[i].Literal? || g.tokens[i].c == '/' {
        return None;
      }
      ext := [g.tokens[i].c] + ext;
      if g.tokens[i].c == '.' {
        return Some(ext);
      }
    }
    return None;
  }

  method ExtractPrefix(g: Glob) returns (r: Option<string>)
    ensures r == PrefixOf(g)
  {
    hide LiteralText, Literals;
    if g.opts.caseInsensitive || |g.tokens| == 0 {
      return None;
    }
    var end, needSep := |g.tokens|, false;
    match g.tokens[|g.tokens| - 1] {
      case ZeroOrMore =>
        if g.opts.literalSeparator {
          return None;
        }
        end := |g.tokens| - 1;
      case RecursiveSuffix =>
        end, needSep := |g.tokens| - 1, true;
      case _ =>
    }
    r := SpellLiterals(g.tokens[..end], "");
    if r.Some? && needSep {
      r := Some(r.value + "/");
    }
    if r == Some("") {
      r := None;
    }
  }

  method ExtractSuffix(g: Glob) returns (r: Option<(string, bool)>)
    ensures r == SuffixOf(g)
  {
    if g.opts.caseInsensitive || |g.tokens| == 0 {
      return None;
    }
    var lit, start, entire := "", 0, false;
    if g.tokens[0].RecursivePrefix? {
      start := 1;
      if |g.tokens| > 1 && g.tokens[1].Literal? {
        lit, entire := "/", true;
      }
    }
    if |g.tokens| <= start {
      return None;
    }
    if g.tokens[start].ZeroOrMore? {
      if g.opts.literalSeparator {
        return None;
      }
      start := start + 1;
    }
    var text := SpellLiterals(g.tokens[start..], lit);
    if text.None? || text.value == "" || text.value == "/" {
      return None;
    }
    return Some((text.value, entire));
  }

  method ExtractBasenameTokens(g: Glob) returns (r: Option<seq<Token>>)
    ensures r == BasenameTokensOf(g)
  {
    if g.opts.caseInsensitive || |g.tokens| == 0 || !g.tokens[0].RecursivePrefix? {
      return None;
    }
    var toks := g.tokens[1..];
    if toks == [] {
      return None;
    }
    for i := 0 to |toks|
      invariant forall j | 0 <= j < i :: IsBasenameToken(toks[j], g.opts)
    {
      if !IsBasenameToken(toks[i], g.opts) {
        assert toks[i] in g.tokens[1..];
        return None;
      }
    }
    return Some(toks);
  }

  method ExtractBasenameLiteral(g: Glob) returns (r: Option<string>)
    ensures r == BasenameLiteralOf(g)
  {
    var toks := ExtractBasenameTokens(g);
    if toks.None? {
      return None;
    }
    r := SpellLiterals(toks.value, "");
  }

  method NewStrategy(g: Glob) returns (st: MatchStrategy)
    ensures st == StrategyOf(g)
  {
    var lit := ExtractBasenameLiteral(g);
    if lit.Some? {
      return BasenameLiteral(lit.value);
    }
    lit := ExtractLiteral(g);
    if lit.Some? {
      return MatchStrategy.Literal(lit.value);
    }
    lit := ExtractExt(g);
    if lit.Some? {
      return Extension(lit.value);
    }
    lit := ExtractPrefix(g);
    if lit.Some? {
      return Prefix(lit.value);
    }
    var suffix := ExtractSuffix(g);
    if suffix.Some? {
      return Suffix(suffix.value.0, suffix.value.1);
    }
    lit := ExtractRequiredExt(g);
    if lit.Some? {
      return RequiredExtension(lit.value);
    }
    return Regex;
  }
}
