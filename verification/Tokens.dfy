/** Globs as token trees: what the parser produces and the compiler consumes. */
module Tokens {

  datatype Token =
    | Literal(c: char)
    | Any
    | ZeroOrMore
    | RecursivePrefix
    | RecursiveSuffix
    | RecursiveZeroOrMore
    | Class(negated: bool, ranges: seq<(char, char)>)
    | Alternates(branches: seq<Tokens>)

  datatype Tokens = Tokens(list: seq<Token>)

  datatype GlobOptions = GlobOptions(
    caseInsensitive: bool,
    literalSeparator: bool,
    backslashEscape: bool,
    emptyAlternates: bool,
    allowUnclosedClass: bool
  )

  // A successfully parsed glob. Its regular expression is Compiler.GlobRegex.
  datatype Glob = Glob(glob: string, opts: GlobOptions, tokens: seq<Token>)

  datatype ErrorKind =
    | UnclosedClass
    | InvalidRange(lo: char, hi: char)
    | UnopenedAlternates
    | UnclosedAlternates
    | DanglingEscape

  // The configuration modelled is Unix: `/` is the only separator.
  predicate IsSeparator(c: char) {
    c == '/'
  }

  // The tokens of a plain string.
  function Literals(s: string): (toks: seq<Token>)
    ensures |toks| == |s|
    ensures forall i | 0 <= i < |s| :: toks[i] == Literal(s[i])
  {
    seq(|s|, i requires 0 <= i < |s| => Literal(s[i]))
  }

  lemma LiteralsFirst(c: char, rest: string)
    ensures Literals([c] + rest) == [Literal(c)] + Literals(rest)
  {
    hide Literals;
    var s := [c] + rest;
    assert s[1..] == rest;
    assert Literals(s)[0] == Literal(c);
    assert Literals(s)[1..] == Literals(rest);
  }

  // No `**` form and no brace group: every token matches on its own.
  predicate IsSimple(toks: seq<Token>) {
    forall t | t in toks :: t.Literal? || t.Any? || t.ZeroOrMore?
  }
}
