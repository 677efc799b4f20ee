/** Repeating a recursive `**` component changes nothing. */
module RepeatedStars {
  import opened Wrappers
  import opened Tokens
  import opened GlobParser

  // n copies of `**` and a slash.
  function Copies(n: nat): string {
    if n == 0 then "" else "**/" + Copies(n - 1)
  }

  // Where `**/` is recursive: at the start of a branch or just after a slash.
  predicate AtComponentStart(st: State)
    requires st.branches != []
  {
    LastBranch(st) == [] || st.cur == Some('/')
  }

  function RecursiveTokens(toks: seq<Token>): seq<Token> {
    if toks == [] then [RecursivePrefix]
    else toks[..|toks| - 1] + [Recursive(toks[|toks| - 1], false)]
  }

  // The state after reading `**/` there.
  function AfterCopy(st: State): State
    requires |st.chars| >= 3 && st.branches != []
  {
    WithLast(st.(chars := st.chars[3..], prev := Some('*'), cur := Some('/')), RecursiveTokens(LastBranch(st)))
  }

  lemma {:induction false} ReadCopy(st: State, opts: GlobOptions)
    requires StackShape(st) && |st.chars| >= 3 && st.chars[..3] == "**/" && AtComponentStart(st)
    ensures StackShape(AfterCopy(st)) && ParseLoop(st, opts) == ParseLoop(AfterCopy(st), opts)
  {
    hide StackShape, AfterCopy;
    BumpedShape(st);
    TwoStarsAndSlash(st);
    ParseCharShape('*', Bump(st), opts);
    StarsOfCopy(st);
  }

  lemma TwoStarsAndSlash(st: State)
    requires |st.chars| >= 3 && st.chars[..3] == "**/"
    ensures st.chars[0] == '*' && Peek(Bump(st)) == Some('*') && Peek(Bump(Bump(st))) == Some('/')
    ensures Bump(Bump(Bump(st))) == st.(chars := st.chars[3..], prev := Some('*'), cur := Some('/'))
  {
    assert st.chars[0] == st.chars[..3][0] && st.chars[1] == st.chars[..3][1] && st.chars[2] == st.chars[..3][2];
    assert st.chars[1..][1..] == st.chars[2..] && st.chars[2..][1..] == st.chars[3..];
  }

  lemma StarsOfCopy(st: State)
    requires st.branches != [] && |st.chars| >= 3 && st.chars[..3] == "**/" && AtComponentStart(st)
    ensures ParseStar(Bump(st)) == Ok(AfterCopy(st))
  {
    TwoStarsAndSlash(st);
    var st2 := Bump(Bump(st));
    if LastBranch(st) == [] {
      assert LastBranch(st2) + [RecursivePrefix] == [RecursivePrefix];
      assert PushToken(st2, RecursivePrefix) == Ok(WithLast(st2, [RecursivePrefix]));
    } else {
      assert StartsComponent(st2, Bump(st).prev);
    }
  }

  lemma BumpedShape(st: State)
    requires StackShape(st)
    ensures StackShape(Bump(st)) && st.branches != []
  {
  }

  lemma RecursiveTokensIdempotent(toks: seq<Token>)
    ensures RecursiveTokens(toks) != [] && RecursiveTokens(RecursiveTokens(toks)) == RecursiveTokens(toks)
  {
  }

  // One copy more or less, whatever follows.
  lemma {:induction false} OneCopyIsEnough(st: State, rest: string, opts: GlobOptions)
    requires StackShape(st) && AtComponentStart(st)
    ensures ParseLoop(st.(chars := "**/" + ("**/" + rest)), opts) == ParseLoop(st.(chars := "**/" + rest), opts)
  {
    hide StackShape, ParseLoop, AfterCopy;
    var two, one := st.(chars := "**/" + ("**/" + rest)), st.(chars := "**/" + rest);
    CharsShape(st, two.chars);
    CharsShape(st, one.chars);
    StartsWithCopy(rest);
    StartsWithCopy("**/" + rest);
    CopyTwice(st, rest);
    ReadCopy(one, opts);
    ReadCopy(two, opts);
    ReadCopy(AfterCopy(two), opts);
  }

  lemma StartsWithCopy(rest: string)
    ensures ("**/" + rest)[..3] == "**/"
  {
  }

  lemma CopyTwice(st: State, rest: string)
    requires st.branches != []
    ensures var two, one := st.(chars := "**/" + ("**/" + rest)), st.(chars := "**/" + rest);
            && AfterCopy(two).chars == "**/" + rest && AfterCopy(two).cur == Some('/') && AfterCopy(two).branches != []
            && AfterCopy(AfterCopy(two)) == AfterCopy(one)
  {
    hide RecursiveTokens;
    var two, one := st.(chars := "**/" + ("**/" + rest)), st.(chars := "**/" + rest);
    assert two.chars[3..] == one.chars && one.chars[3..] == rest;
    RecursiveTokensIdempotent(LastBranch(st));
    WithLastTwice(one, RecursiveTokens(LastBranch(st)), RecursiveTokens(RecursiveTokens(LastBranch(st))));
  }

  lemma WithLastTwice(st: State, a: seq<Token>, b: seq<Token>)
    requires st.branches != []
    ensures LastBranch(WithLast(st, a)) == a && WithLast(WithLast(st, a), b) == WithLast(st, b)
  {
  }

  lemma CharsShape(st: State, chars: string)
    requires StackShape(st)
    ensures StackShape(st.(chars := chars))
  {
  }

  // In whatever state the parser is at the start of a branch or just after a slash, inside braces
  // or not, n copies of `**/` lead to the same outcome as one.
  lemma {:induction false} CopiesCollapse(st: State, n: nat, rest: string, opts: GlobOptions)
    requires StackShape(st) && AtComponentStart(st) && n >= 1
    ensures ParseLoop(st.(chars := Copies(n) + rest), opts) == ParseLoop(st.(chars := "**/" + rest), opts)
  {
    hide ParseLoop, StackShape, Copies;
    CharsShape(st, Copies(n) + rest);
    CharsShape(st, "**/" + rest);
    if n == 1 {
      CopiesStart(0, rest);
      assert Copies(0) + rest == rest by {
        NoCopies();
      }
    } else {
      var fewer := Copies(n - 2) + rest;
      CopiesStart(n - 1, rest);
      CopiesStart(n - 2, rest);
      CharsShape(st, "**/" + ("**/" + fewer));
      OneCopyIsEnough(st, fewer, opts);
      CopiesCollapse(st, n - 1, rest, opts);
    }
  }

  lemma NoCopies()
    ensures Copies(0) == ""
  {
  }

  lemma CopiesStart(n: nat, rest: string)
    ensures Copies(n + 1) + rest == "**/" + (Copies(n) + rest)
  {
    assert Copies(n + 1) == "**/" + Copies(n);
  }

  function Tokenize(glob: string, opts: GlobOptions): Result<seq<Token>, ErrorKind> {
    var g :- Build(glob, opts);
    Ok(g.tokens)
  }

  // At the start of a glob.
  lemma LeadingCopiesCollapse(n: nat, rest: string, opts: GlobOptions)
    requires n >= 1
    ensures Tokenize(Copies(n) + rest, opts) == Tokenize("**/" + rest, opts)
  {
    CopiesCollapse(Initial(rest), n, rest, opts);
    assert Initial(rest).(chars := Copies(n) + rest) == Initial(Copies(n) + rest);
    assert Initial(rest).(chars := "**/" + rest) == Initial("**/" + rest);
  }

  predicate IsPlainChar(c: char) {
    c !in ['?', '*', '[', '{', '}', '\\']
  }

  predicate IsPlain(s: string) {
    forall c | c in s :: IsPlainChar(c)
  }
}
