/**
 Alternation by brace expansion: a glob with (nested) groups stands for the union of what its
 expansions stand for, where an expansion picks one branch of every group it meets.
 */
module BraceExpansion {
  import opened Utf8
  import opened Regexes
  import opened Tokens
  import opened Compiler
  import CompilerProofs
  import opened Languages

  ghost function Expansions(toks: seq<Token>, opts: GlobOptions): set<seq<Token>>
    decreases toks
  {
    if toks == [] then {[]}
    else set a, b | a in TokenExpansions(toks[0], opts) && b in Expansions(toks[1..], opts) :: a + b
  }

  // A group all of whose branches are dropped expands to nothing at all, as if it were not there.
  ghost function TokenExpansions(t: Token, opts: GlobOptions): set<seq<Token>>
    decreases t
  {
    if !t.Alternates? then {[t]}
    else if forall b | b in t.branches :: !IsLive(b, opts) then {[]}
    else BranchExpansions(t.branches, opts)
  }

  ghost function BranchExpansions(branches: seq<Tokens>, opts: GlobOptions): set<seq<Token>>
    decreases branches
  {
    if branches == [] then {}
    else (if IsLive(branches[0], opts) then Expansions(branches[0].list, opts) else {})
         + BranchExpansions(branches[1..], opts)
  }

  ghost predicate SomeExpansion(es: set<seq<Token>>, opts: GlobOptions, s: seq<byte>) {
    exists e :: e in es && Lang(e, opts, s)
  }

  lemma {:induction false} ExpansionLang(toks: seq<Token>, opts: GlobOptions, s: seq<byte>)
    ensures Lang(toks, opts, s) <==> SomeExpansion(Expansions(toks, opts), opts, s)
    decreases toks, 1
  {
    if toks == [] {
      assert [] in Expansions([], opts);
    } else {
      if Lang(toks, opts, s) {
        FindExpansion(toks, opts, s);
      }
      if e :| e in Expansions(toks, opts) && Lang(e, opts, s) {
        ApplyExpansion(toks, opts, e, s);
      }
    }
  }

  lemma {:induction false} FindExpansion(toks: seq<Token>, opts: GlobOptions, s: seq<byte>)
    requires toks != [] && Lang(toks, opts, s)
    ensures SomeExpansion(Expansions(toks, opts), opts, s)
    decreases toks, 0
  {
    hide Lang, Denotes, TokenExpansions;
    var head, rest := toks[0], toks[1..];
    LangTakes(toks, opts, s);
    var k :| Takes(toks, opts, s, k);
    TokenExpansionLang(head, opts, s[..k]);
    ExpansionLang(rest, opts, s[k..]);
    var a :| a in TokenExpansions(head, opts) && Lang(a, opts, s[..k]);
    var b :| b in Expansions(rest, opts) && Lang(b, opts, s[k..]);
    LangJoin(a, b, opts, s[..k], s[k..]);
    assert s == s[..k] + s[k..];
    assert a + b in Expansions(toks, opts);
  }

  lemma {:induction false} ApplyExpansion(toks: seq<Token>, opts: GlobOptions, e: seq<Token>, s: seq<byte>)
    requires toks != [] && e in Expansions(toks, opts) && Lang(e, opts, s)
    ensures Lang(toks, opts, s)
    decreases toks, 0
  {
    var head, rest := toks[0], toks[1..];
    var a, b :| a in TokenExpansions(head, opts) && b in Expansions(rest, opts) && e == a + b;
    LangConcat(a, b, opts, s);
    var k :| LangCuts(a, b, opts, s, k);
    TokenExpansionLang(head, opts, s[..k]);
    ExpansionLang(rest, opts, s[k..]);
    LangTakes(toks, opts, s);
    assert Takes(toks, opts, s, k);
  }

  lemma {:induction false} TokenExpansionLang(t: Token, opts: GlobOptions, w: seq<byte>)
    ensures Denotes(t, opts, w) <==> SomeExpansion(TokenExpansions(t, opts), opts, w)
    decreases t
  {
    if !t.Alternates? {
      LangOne(t, opts, w);
    } else {
      BranchExpansionLang(t.branches, opts, w);
    }
  }

  lemma {:induction false} BranchExpansionLang(branches: seq<Tokens>, opts: GlobOptions, w: seq<byte>)
    ensures CompilerProofs.SomeLiveBranch(branches, opts, w) <==> SomeExpansion(BranchExpansions(branches, opts), opts, w)
    decreases branches
  {
    if branches == [] {
    } else {
      ExpansionLang(branches[0].list, opts, w);
      BranchExpansionLang(branches[1..], opts, w);
      assert branches == [branches[0]] + branches[1..];
    }
  }

  lemma {:induction false} ExpansionsAreFlat(toks: seq<Token>, opts: GlobOptions, e: seq<Token>, t: Token)
    requires e in Expansions(toks, opts) && t in e
    ensures !t.Alternates?
    decreases toks
  {
    if toks == [] {
    } else {
      var a, b :| a in TokenExpansions(toks[0], opts) && b in Expansions(toks[1..], opts) && e == a + b;
      if t in b {
        ExpansionsAreFlat(toks[1..], opts, b, t);
      } else if toks[0].Alternates? {
        BranchExpansionsAreFlat(toks[0].branches, opts, a, t);
      }
    }
  }

  lemma {:induction false} BranchExpansionsAreFlat(branches: seq<Tokens>, opts: GlobOptions, e: seq<Token>, t: Token)
    requires e in BranchExpansions(branches, opts) && t in e
    ensures !t.Alternates?
    decreases branches
  {
    if e in BranchExpansions(branches[1..], opts) {
      BranchExpansionsAreFlat(branches[1..], opts, e, t);
    } else {
      ExpansionsAreFlat(branches[0].list, opts, e, t);
    }
  }

  // The expression emitted for a token tree matches exactly the union of what the expressions
  // emitted for its brace expansions match; the expansions contain no group.
  lemma BracesAreUnions(toks: seq<Token>, opts: GlobOptions, s: seq<byte>)
    ensures Matches(Compile(toks, opts), opts.caseInsensitive, s) <==>
            exists e :: e in Expansions(toks, opts) && Matches(Compile(e, opts), opts.caseInsensitive, s)
    ensures forall e, t | e in Expansions(toks, opts) && t in e :: !t.Alternates?
  {
    CompilerProofs.CompileCorrect(toks, opts, s);
    ExpansionLang(toks, opts, s);
    forall e | e in Expansions(toks, opts)
      ensures Matches(Compile(e, opts), opts.caseInsensitive, s) <==> Lang(e, opts, s)
    {
      CompilerProofs.CompileCorrect(e, opts, s);
    }
    forall e, t | e in Expansions(toks, opts) && t in e
      ensures !t.Alternates?
    {
      ExpansionsAreFlat(toks, opts, e, t);
    }
  }
}
