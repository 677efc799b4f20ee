/** The glob parser as it runs: an object whose fields are updated character by character. */
module Parser {
  import opened Wrappers
  import opened Tokens
  import opened GlobParser

  class Parser {
    const glob: string
    const opts: GlobOptions

    var alternatesStack: seq<nat>
    var branches: seq<Tokens>
    var chars: string
    var prev: Option<char>
    var cur: Option<char>
    var foundUnclosedClass: bool

    // How often a character (or the end) has been read so far.
    ghost var bumps: nat

    constructor (glob: string, opts: GlobOptions)
      ensures this.glob == glob && this.opts == opts && Snapshot() == Initial(glob) && bumps == 0
    {
      this.glob, this.opts := glob, opts;
      alternatesStack, branches := [], [Tokens([])];
      chars, prev, cur, foundUnclosedClass := glob, None, None, false;
      bumps := 0;
    }

    function Snapshot(): State
      reads this
    {
      State(chars, prev, cur, branches, alternatesStack, foundUnclosedClass)
    }

    // The method's outcome and the new fields are what the specification says.
    ghost predicate Did(r: Outcome<ErrorKind>, spec: Step)
      reads this
    {
      match r
      case Pass => spec == Ok(Snapshot())
      case Fail(e) => spec == Err(e)
    }

    method BumpChar() returns (c: Option<char>)
      modifies this
      ensures Snapshot() == Bump(old(Snapshot())) && c == cur && bumps == old(bumps) + 1
    {
      prev := cur;
      if chars == "" {
        cur := None;
      } else {
        cur, chars := Some(chars[0]), chars[1..];
      }
      bumps := bumps + 1;
      c := cur;
    }

    function PeekChar(): Option<char>
      reads this
      ensures PeekChar() == Peek(Snapshot())
    {
      if chars == "" then None else Some(chars[0])
    }

    method Push(tok: Token) returns (r: Outcome<ErrorKind>)
      modifies this
      ensures Did(r, PushToken(old(Snapshot()), tok)) && bumps == old(bumps)
      ensures chars == old(chars) && foundUnclosedClass == old(foundUnclosedClass)
    {
      if branches == [] {
        return Fail(UnopenedAlternates);
      }
      var last := |branches| - 1;
      branches := branches[last := Tokens(branches[last].list + [tok])];
      return Pass;
    }

    // The source unwraps the popped token: the last branch must have one.
    method Pop() returns (tok: Token)
      requires branches != [] && LastBranch(Snapshot()) != []
      modifies this
      ensures var toks := LastBranch(old(Snapshot()));
              tok == toks[|toks| - 1] && Snapshot() == WithLast(old(Snapshot()), toks[..|toks| - 1])
      ensures bumps == old(bumps)
    {
      var last := |branches| - 1;
      var toks := branches[last].list;
      tok := toks[|toks| - 1];
      branches := branches[last := Tokens(toks[..|toks| - 1])];
    }

    method ParseOpenBrace() returns (r: Outcome<ErrorKind>)
      modifies this
      ensures Did(r, Ok(PushAlternate(old(Snapshot())))) && bumps == old(bumps)
      ensures chars == old(chars) && foundUnclosedClass == old(foundUnclosedClass)
    {
      alternatesStack := alternatesStack + [|branches|];
      branches := branches + [Tokens([])];
      return Pass;
    }

    method ParseCloseBrace() returns (r: Outcome<ErrorKind>)
      requires StackShape(Snapshot())
      modifies this
      ensures Did(r, PopAlternate(old(Snapshot()))) && bumps == old(bumps)
      ensures chars == old(chars) && foundUnclosedClass == old(foundUnclosedClass)
    {
      if alternatesStack == [] {
        return Fail(UnopenedAlternates);
      }
      var start := alternatesStack[|alternatesStack| - 1];
      alternatesStack := alternatesStack[..|alternatesStack| - 1];
      assert start <= |branches|;
      var alts := Alternates(branches[start..]);
      branches := branches[..start];
      r := Push(alts);
    }

    method ParseCommaChar() returns (r: Outcome<ErrorKind>)
      modifies this
      ensures Did(r, ParseComma(old(Snapshot()))) && bumps == old(bumps)
      ensures chars == old(chars) && foundUnclosedClass == old(foundUnclosedClass)
    {
      if alternatesStack == [] {
        r := Push(Literal(','));
      } else {
        branches := branches + [Tokens([])];
        r := Pass;
      }
    }

    // Reading k characters costs at most k bumps, and one more where the end is read.
    ghost predicate Cheap(oldBumps: nat, oldChars: string)
      reads this
    {
      bumps <= oldBumps + (|oldChars| - |chars|) + (if chars == "" then 1 else 0)
    }

    method ParseBackslashChar() returns (r: Outcome<ErrorKind>)
      modifies this
      ensures Did(r, ParseBackslash(old(Snapshot()), opts))
      ensures Cheap(old(bumps), old(chars)) && |chars| <= |old(chars)| && foundUnclosedClass == old(foundUnclosedClass)
    {
      if opts.backslashEscape {
        var c := BumpChar();
        if c.None? {
          return Fail(DanglingEscape);
        }
        r := Push(Literal(c.value));
      } else {
        r := Push(Literal('\\'));
      }
    }

    method PushTwo() returns (r: Outcome<ErrorKind>)
      modifies this
      ensures Did(r, PushTwoStars(old(Snapshot()))) && bumps == old(bumps)
      ensures chars == old(chars) && foundUnclosedClass == old(foundUnclosedClass)
    {
      r := Push(ZeroOrMore);
      if r.Pass? {
        r := Push(ZeroOrMore);
      }
    }

    method ParseStarChar() returns (r: Outcome<ErrorKind>)
      modifies this
      ensures Did(r, ParseStar(old(Snapshot())))
      ensures Cheap(old(bumps), old(chars)) && |chars| <= |old(chars)| && foundUnclosedClass == old(foundUnclosedClass)
    {
      hide Recursive, StackShape, ReplaceLast, PushTwoStars, WithLast;
      var before := prev;
      if PeekChar() != Some('*') {
        r := Push(ZeroOrMore);
        return;
      }
      var star := BumpChar();
      assert star == Some('*');
      if branches == [] {
        return Fail(UnopenedAlternates);
      }
      if branches[|branches| - 1].list == [] {
        if PeekChar().Some? && !IsSeparator(PeekChar().value) {
          r := PushTwo();
        } else {
          r := Push(RecursivePrefix);
          if r.Pass? {
            var sep := BumpChar();
            assert sep.None? || IsSeparator(sep.value);
          }
        }
        return;
      }
      if before.None? || !IsSeparator(before.value) {
        if |branches| <= 1 || (before != Some(',') && before != Some('{')) {
          r := PushTwo();
          return;
        }
      }
      r := ParseInnerStarsChars();
    }

    // The stars stand where a component starts; recursive if one ends here, too.
    method ParseInnerStarsChars() returns (r: Outcome<ErrorKind>)
      requires branches != [] && LastBranch(Snapshot()) != []
      modifies this
      ensures Did(r, ParseInnerStars(old(Snapshot())))
      ensures |chars| <= |old(chars)| && foundUnclosedClass == old(foundUnclosedClass)
      ensures bumps <= old(bumps) + 1 && (old(chars) != "" ==> bumps == old(bumps) + (|old(chars)| - |chars|))
    {
      hide Recursive, StackShape, ReplaceLast, PushTwoStars, WithLast;
      var isSuffix;
      match PeekChar() {
        case None =>
          var end := BumpChar();
          assert end.None?;
          isSuffix := true;
        case Some(c) =>
          if (c == ',' || c == '}') && |branches| >= 2 {
            isSuffix := true;
          } else if IsSeparator(c) {
            var sep := BumpChar();
            assert sep.Some? && IsSeparator(sep.value);
            isSuffix := false;
          } else {
            r := PushTwo();
            return;
          }
      }
      r := ReplaceLastToken(isSuffix);
    }

    method ReplaceLastToken(isSuffix: bool) returns (r: Outcome<ErrorKind>)
      requires branches != [] && LastBranch(Snapshot()) != []
      modifies this
      ensures Did(r, Ok(GlobParser.ReplaceLast(old(Snapshot()), isSuffix)))
      ensures bumps == old(bumps) && chars == old(chars) && foundUnclosedClass == old(foundUnclosedClass)
    {
      var tok := Pop();
      assert forall t :: WithLast(Snapshot(), t) == WithLast(old(Snapshot()), t);
      match tok {
        case RecursivePrefix =>
          r := Push(RecursivePrefix);
        case RecursiveSuffix =>
          r := Push(RecursiveSuffix);
        case _ =>
          if isSuffix {
            r := Push(RecursiveSuffix);
          } else {
            r := Push(RecursiveZeroOrMore);
          }
      }
    }

    // Reads the inside of a class; what is read counts, and the end once more.
    method ReadRanges() returns (scan: ClassScan)
      modifies this
      ensures scan == ScanClass(old(Snapshot()), [], true, false)
      ensures scan.Closed? ==> Snapshot() == scan.st
      ensures branches == old(branches) && alternatesStack == old(alternatesStack)
      ensures foundUnclosedClass == old(foundUnclosedClass) && |chars| <= |old(chars)|
      ensures bumps == old(bumps) + (|old(chars)| - |chars|) + (if scan.Unclosed? then 1 else 0)
    {
      hide ScanClass;
      var ranges: seq<(char, char)> := [];
      var first, inRange := true, false;
      while true
        invariant (!first ==> ranges != []) && (first ==> !inRange)
        invariant ScanClass(old(Snapshot()), [], true, false) == ScanClass(Snapshot(), ranges, first, inRange)
        invariant branches == old(branches) && alternatesStack == old(alternatesStack)
        invariant foundUnclosedClass == old(foundUnclosedClass)
        invariant bumps == old(bumps) + (|old(chars)| - |chars|) && |chars| <= |old(chars)|
        decreases |chars|
      {
        ScanRound(Snapshot(), ranges, first, inRange);
        var c := BumpChar();
        if c.None? {
          return Unclosed;
        }
        match c.value {
          case ']' =>
            if first {
              ranges := ranges + [(']', ']')];
            } else {
              break;
            }
          case '-' =>
            if first {
              ranges := ranges + [('-', '-')];
            } else if inRange {
              assert ranges != [];
              var last := |ranges| - 1;
              if '-' < ranges[last].0 {
                return BadRange(ranges[last].0, '-');
              }
              ranges := ranges[last := (ranges[last].0, '-')];
              inRange := false;
            } else {
              assert ranges != [];
              inRange := true;
            }
          case ch =>
            if inRange {
              assert ranges != [];
              var last := |ranges| - 1;
              if ch < ranges[last].0 {
                return BadRange(ranges[last].0, ch);
              }
              ranges := ranges[last := (ranges[last].0, ch)];
            } else {
              ranges := ranges + [(ch, ch)];
            }
            inRange := false;
        }
        first := false;
      }
      if inRange {
        ranges := ranges + [('-', '-')];
      }
      return Closed(Snapshot(), ranges);
    }

    method ParseClassChars() returns (r: Outcome<ErrorKind>)
      modifies this
      ensures Did(r, ParseClass(old(Snapshot()), opts)) && |chars| <= |old(chars)|
      ensures foundUnclosedClass ==> old(foundUnclosedClass) || opts.allowUnclosedClass
      ensures bumps <= old(bumps) + |old(chars)| + 1
      ensures r.Pass? && foundUnclosedClass == old(foundUnclosedClass) && !old(foundUnclosedClass) ==>
                bumps <= old(bumps) + (|old(chars)| - |chars|)
    {
      hide ScanClass;
      var savedChars, savedPrev, savedCur := chars, prev, cur;
      var negated := false;
      if PeekChar() == Some('!') || PeekChar() == Some('^') {
        var bump := BumpChar();
        assert bump == Some('!') || bump == Some('^');
        negated := true;
      }
      var scan := ReadRanges();
      match scan {
        case Unclosed =>
          if opts.allowUnclosedClass {
            chars, prev, cur := savedChars, savedPrev, savedCur;
            foundUnclosedClass := true;
            r := Push(Literal('['));
          } else {
            r := Fail(UnclosedClass);
          }
        case BadRange(lo, hi) =>
          r := Fail(InvalidRange(lo, hi));
        case Closed(_, ranges) =>
          r := Push(Class(negated, ranges));
      }
    }

    // The bound on reading: twice the length of the glob, as one class at most is read twice.
    ghost predicate WithinBudget()
      reads this
    {
      && |chars| <= |glob|
      && bumps <= (|glob| - |chars|) + (if foundUnclosedClass then |glob| else 0) + (if chars == "" then 1 else 0)
      && (foundUnclosedClass ==> opts.allowUnclosedClass)
    }

    method ParseOne(c: char) returns (r: Outcome<ErrorKind>)
      requires StackShape(Snapshot())
      requires |chars| < |glob| && (foundUnclosedClass ==> opts.allowUnclosedClass)
      requires bumps <= (|glob| - |chars|) + (if foundUnclosedClass then |glob| else 0)
      modifies this
      ensures Did(r, ParseChar(c, old(Snapshot()), opts))
      ensures r.Pass? ==> |chars| <= |old(chars)| && WithinBudget()
      ensures bumps <= |glob| + (if opts.allowUnclosedClass then |glob| else 0) + 1
    {
      match c {
        case '?' => r := Push(Any);
        case '*' => r := ParseStarChar();
        case '[' =>
          if foundUnclosedClass {
            r := Push(Literal(c));
          } else {
            r := ParseClassChars();
          }
        case '{' => r := ParseOpenBrace();
        case '}' => r := ParseCloseBrace();
        case ',' => r := ParseCommaChar();
        case '\\' => r := ParseBackslashChar();
        case _ => r := Push(Literal(c));
      }
    }

    // Parses the whole glob, reading a character (or the end) at most 2n + 2 times; without
    // allow_unclosed_class n + 2 times.
    method Parse() returns (r: Outcome<ErrorKind>)
      requires StackShape(Snapshot()) && chars == glob && bumps == 0 && !foundUnclosedClass
      modifies this
      ensures Did(r, ParseLoop(old(Snapshot()), opts))
      ensures bumps <= |glob| + (if opts.allowUnclosedClass then |glob| else 0) + 2
    {
      hide ParseChar;
      var c := BumpChar();
      while c.Some?
        invariant StackShape(Snapshot())
        invariant c == cur
        invariant c.Some? ==>
            && |chars| < |glob| && (foundUnclosedClass ==> opts.allowUnclosedClass)
            && bumps <= (|glob| - |chars|) + (if foundUnclosedClass then |glob| else 0)
        invariant bumps <= |glob| + (if opts.allowUnclosedClass then |glob| else 0) + 2
        invariant ParseLoop(old(Snapshot()), opts) ==
                  if c.None? then Ok(Snapshot()) else Continue(c.value, Snapshot(), opts)
        decreases c.Some?, |chars|
      {
        ParseCharShape(c.value, Snapshot(), opts);
        :- ParseOne(c.value);
        c := BumpChar();
      }
      return Pass;
    }
  }

  // One round on a class.
  lemma ScanRound(st: State, ranges: seq<(char, char)>, first: bool, inRange: bool)
    requires (!first || inRange) ==> ranges != []
    ensures st.chars == "" ==> ScanClass(st, ranges, first, inRange) == Unclosed
    ensures st.chars != "" ==>
              ScanClass(st, ranges, first, inRange)
              == match ScanMove(st.chars[0], ranges, first, inRange)
                 case Close(closed) => Closed(Bump(st), closed)
                 case Bad(lo, hi) => BadRange(lo, hi)
                 case Go(more, joining) => ScanClass(Bump(st), more, false, joining)
  {
  }

  method BuildGlob(glob: string, opts: GlobOptions) returns (r: Result<Glob, ErrorKind>)
    ensures r == Build(glob, opts)
  {
    var p := new Parser(glob, opts);
    var parsed := p.Parse();
    if parsed.Fail? {
      return Err(parsed.error);
    }
    assert p.branches != [];
    if |p.branches| > 1 {
      return Err(UnclosedAlternates);
    }
    return Ok(Glob(glob, opts, p.branches[0].list));
  }
}
