/** Character classes as they are written: what they match, and which texts are no classes. */
module ClassTexts {
  import opened Wrappers
  import opened Utf8
  import opened Text
  import opened Tokens
  import opened Compiler
  import opened ClassMeanings
  import opened GlobParser
  import opened RepeatedStars
  import opened PlainGlobs

  // ----- the two marks of negation -----

  lemma ScanForgetsPrev(a: State, b: State, ranges: seq<(char, char)>, inRange: bool)
    requires ranges != [] && a == b.(prev := a.prev)
    ensures ScanClass(a, ranges, false, inRange) == ScanClass(b, ranges, false, inRange)
  {
    assert Bump(a) == Bump(b);
  }

  // A scan does not depend on what was read before.
  lemma ScanForgets(a: State, b: State)
    requires a == b.(prev := a.prev, cur := a.cur)
    ensures ScanClass(a, [], true, false) == ScanClass(b, [], true, false)
  {
    if a.chars != "" {
      var m := ScanMove(a.chars[0], [], true, false);
      ScanForgetsPrev(Bump(a), Bump(b), m.ranges, m.inRange);
    }
  }

  lemma {:induction false} ScanIsClosed(st: State, ranges: seq<(char, char)>, first: bool, inRange: bool)
    requires (!first || inRange) ==> ranges != []
    requires ']' in (if first then if st.chars == "" then "" else st.chars[1..] else st.chars)
    ensures !ScanClass(st, ranges, first, inRange).Unclosed?
    decreases |st.chars|
  {
    var m := ScanMove(st.chars[0], ranges, first, inRange);
    if m.Go? {
      assert st.chars == [st.chars[0]] + st.chars[1..];
      ScanIsClosed(Bump(st), m.ranges, false, m.inRange);
    }
  }

  // `^` negates a class as `!` does, wherever the class is and whatever follows, be it well formed or
  // not; unless the class is not closed and its characters count as such.
  lemma CaretIsBang(st: State, text: string, opts: GlobOptions)
    requires StackShape(st) && !st.foundUnclosedClass
    requires opts.allowUnclosedClass ==> text != "" && ']' in text[1..]
    ensures StackShape(st.(chars := "[^" + text)) && StackShape(st.(chars := "[!" + text))
    ensures ParseLoop(st.(chars := "[^" + text), opts) == ParseLoop(st.(chars := "[!" + text), opts)
  {
    hide ParseClass, StackShape;
    var caret, bang := st.(chars := "[^" + text), st.(chars := "[!" + text);
    CharsShape(st, caret.chars);
    CharsShape(st, bang.chars);
    var a := BehindBracket(st, "^" + text);
    var b := BehindBracket(st, "!" + text);
    SameClass(a, b, text, opts);
    assert "[^" + text == "[" + ("^" + text) && "[!" + text == "[" + ("!" + text);
    BracketIsClass(caret, opts);
    BracketIsClass(bang, opts);
    SameRound(caret, bang, opts);
  }

  lemma BehindBracket(st: State, rest: string) returns (next: State)
    ensures next == Bump(st.(chars := "[" + rest)) && next == st.(prev := st.cur, cur := Some('['), chars := rest)
  {
    next := Bump(st.(chars := "[" + rest));
    FirstOf('[', rest);
  }

  lemma BracketIsClass(st: State, opts: GlobOptions)
    requires StackShape(st) && st.chars != "" && st.chars[0] == '[' && !st.foundUnclosedClass
    ensures StackShape(Bump(st)) && ParseChar('[', Bump(st), opts) == ParseClass(Bump(st), opts)
  {
    hide ParseClass;
  }

  lemma SameRound(a: State, b: State, opts: GlobOptions)
    requires StackShape(a) && StackShape(b) && a.chars != "" && b.chars != ""
    requires ParseChar(a.chars[0], Bump(a), opts) == ParseChar(b.chars[0], Bump(b), opts)
    ensures ParseLoop(a, opts) == ParseLoop(b, opts)
  {
    hide ParseChar;
  }

  lemma SameClass(a: State, b: State, text: string, opts: GlobOptions)
    requires a.chars == "^" + text && b == a.(chars := "!" + text)
    requires opts.allowUnclosedClass ==> text != "" && ']' in text[1..]
    ensures ParseClass(a, opts) == ParseClass(b, opts)
  {
    assert ("^" + text)[1..] == text && ("!" + text)[1..] == text;
    ScanForgets(Bump(a), Bump(b));
    if opts.allowUnclosedClass {
      ScanIsClosed(Bump(a), [], true, false);
    }
    hide ScanClass;
  }

  // ----- what is written between the brackets -----

  predicate IsMark(mark: string) {
    mark == "" || mark == "!" || mark == "^"
  }

  // The text does not start like a mark where there is none.
  predicate Unmarked(mark: string, inside: string) {
    mark == "" && inside != "" ==> inside[0] != '!' && inside[0] != '^'
  }

  function ClassText(mark: string, inside: string): string {
    "[" + (mark + (inside + "]"))
  }

  // A glob that is one class.
  lemma ClassIsRead(mark: string, inside: string, opts: GlobOptions) returns (st: State)
    requires IsMark(mark) && inside != "" && Unmarked(mark, inside)
    ensures st.chars == inside + "]" && Outside(st) && LastBranch(st) == []
    ensures var scan := ScanClass(st, [], true, false);
            && (scan.Closed? && scan.st.chars == "" ==>
                  var text := ClassText(mark, inside);
                  Build(text, opts) == Ok(Glob(text, opts, [Class(mark != "", scan.ranges)])))
            && (scan.BadRange? ==> Build(ClassText(mark, inside), opts) == Err(InvalidRange(scan.lo, scan.hi)))
  {
    hide ScanClass, ParseLoop;
    var text := ClassText(mark, inside);
    var next := Bump(Initial(text));
    assert next.chars == mark + (inside + "]");
    if mark == "" {
      assert next.chars == inside + "]";
      st := next;
    } else {
      assert next.chars[0] == mark[0] && next.chars[1..] == inside + "]";
      st := Bump(next);
    }
    assert IsNegation(Peek(next)) == (mark != "");
    BracketIsClass(Initial(text), opts);
    hide ParseChar;
    var scan := ScanClass(st, [], true, false);
    match scan {
      case Closed(end, ranges) =>
        ScanKeepsRest(st, [], true, false);
        if end.chars == "" {
          ClassEnds(Initial(text), end, Class(mark != "", ranges), opts);
        }
      case BadRange(lo, hi) => LoopError(Initial(text), opts);
      case Unclosed =>
    }
  }

  lemma ClassEnds(st: State, end: State, t: Token, opts: GlobOptions)
    requires StackShape(st) && st.chars != "" && end.chars == "" && end.branches == [Tokens([])] && end.stack == []
    requires ParseChar(st.chars[0], Bump(st), opts) == PushToken(end, t)
    ensures ParseLoop(st, opts).Ok? && ParseLoop(st, opts).value.branches == [Tokens([t])]
  {
    hide ParseChar;
    assert [] + [t] == [t];
    LoopRound(st, PushToken(end, t).value, opts);
  }

  // `[lo-hi]` holds what lies between its ends; `!` or `^` makes it the others. Ends in the wrong order
  // are an error.
  lemma RangeTextMatches(mark: string, lo: char, hi: char, opts: GlobOptions, path: seq<byte>)
    requires IsMark(mark) && Unmarked(mark, [lo]) && hi != ']' && lo as int < 0x80 && hi as int < 0x80
    ensures var glob, b := Build(ClassText(mark, [lo, '-', hi]), opts), if path == [] then 0 else path[0];
            if hi < lo then glob == Err(InvalidRange(lo, hi))
            else
              && glob.Ok?
              && (GlobMatches(glob.value, path) <==>
                  && |path| == 1
                  && (lo as int <= b <= hi as int
                      || (opts.caseInsensitive
                          && (('A' as int <= b <= 'Z' as int && lo as int <= b + 32 <= hi as int)
                              || ('a' as int <= b <= 'z' as int && lo as int <= b - 32 <= hi as int))))
                     != (mark != ""))
  {
    hide GlobMatches, ParseLoop;
    var text, ranges := ClassText(mark, [lo, '-', hi]), [(lo, hi)];
    var st := ClassIsRead(mark, [lo, '-', hi], opts);
    RangeIsScanned(st, lo, hi);
    if lo <= hi {
      AsciiClassMatches(text, opts, mark != "", ranges, path);
      assert forall b: int :: InAsciiRange(ranges, b) <==> lo as int <= b <= hi as int by {
        OneAsciiRange(lo, hi);
      }
    }
  }

  lemma OneAsciiRange(lo: char, hi: char)
    ensures forall b: int :: InAsciiRange([(lo, hi)], b) <==> lo as int <= b <= hi as int
  {
    assert (lo, hi) in [(lo, hi)];
  }

  lemma RangeIsScanned(st: State, lo: char, hi: char)
    requires st.chars == [lo, '-', hi] + "]" && hi != ']'
    ensures var scan := ScanClass(st, [], true, false);
            if hi < lo then scan == BadRange(lo, hi)
            else scan.Closed? && scan.st.chars == "" && scan.ranges == [(lo, hi)]
  {
    var s := st.chars;
    assert s[1..] == ['-', hi, ']'] && s[1..][1..] == [hi, ']'] && [hi, ']'][1..] == "]" && "]"[1..] == "";
    var one, two, three := Bump(st), Bump(Bump(st)), Bump(Bump(Bump(st)));
    assert ScanMove(lo, [], true, false) == Go([(lo, lo)], false);
    assert ScanClass(st, [], true, false) == ScanClass(one, [(lo, lo)], false, false);
    assert ScanClass(one, [(lo, lo)], false, false) == ScanClass(two, [(lo, lo)], false, true);
    if lo <= hi {
      assert [(lo, lo)][0 := (lo, hi)] == [(lo, hi)];
      assert ScanClass(two, [(lo, lo)], false, true) == ScanClass(three, [(lo, hi)], false, false);
    }
  }

  // A range that goes on after its end: `lo-mid-hi` is the range from lo to hi.
  lemma RangesAreJoined(mark: string, lo: char, mid: char, hi: char, opts: GlobOptions)
    requires IsMark(mark) && Unmarked(mark, [lo]) && mid != ']' && hi != ']'
    ensures var glob, text := Build(ClassText(mark, [lo, '-', mid, '-', hi]), opts), ClassText(mark, [lo, '-', mid, '-', hi]);
            glob == if mid < lo then Err(InvalidRange(lo, mid))
                    else if hi < lo then Err(InvalidRange(lo, hi))
                    else Ok(Glob(text, opts, [Class(mark != "", [(lo, hi)])]))
  {
    hide ParseLoop, Build;
    var inside := [lo, '-', mid, '-', hi];
    var st := ClassIsRead(mark, inside, opts);
    assert st.chars == [lo, '-', mid, '-', hi, ']'];
    assert st.chars[1..] == ['-', mid, '-', hi, ']'] && st.chars[1..][1..] == [mid, '-', hi, ']'];
    var one, two := Bump(st), Bump(Bump(st));
    assert ScanMove(lo, [], true, false) == Go([(lo, lo)], false);
    assert ScanClass(st, [], true, false) == ScanClass(one, [(lo, lo)], false, false);
    assert ScanClass(one, [(lo, lo)], false, false) == ScanClass(two, [(lo, lo)], false, true);
    if lo <= mid {
      assert [(lo, lo)][0 := (lo, mid)] == [(lo, mid)];
      assert ScanClass(two, [(lo, lo)], false, true) == ScanClass(Bump(two), [(lo, mid)], false, false);
      RangeGoesOn(Bump(two), lo, mid, hi);
    }
  }

  lemma RangeGoesOn(st: State, lo: char, mid: char, hi: char)
    requires st.chars == ['-', hi, ']'] && hi != ']'
    ensures var scan := ScanClass(st, [(lo, mid)], false, false);
            if hi < lo then scan == BadRange(lo, hi)
            else scan.Closed? && scan.st.chars == "" && scan.ranges == [(lo, hi)]
  {
    assert st.chars[1..] == [hi, ']'] && [hi, ']'][1..] == "]" && "]"[1..] == "";
    assert ScanClass(st, [(lo, mid)], false, false) == ScanClass(Bump(st), [(lo, mid)], false, true);
    if lo <= hi {
      assert [(lo, mid)][0 := (lo, hi)] == [(lo, hi)];
      assert ScanClass(Bump(st), [(lo, mid)], false, true) == ScanClass(Bump(Bump(st)), [(lo, hi)], false, false);
    }
  }

  // ----- single characters -----

  function Singles(s: string): (ranges: seq<(char, char)>)
    ensures |ranges| == |s|
    ensures forall i | 0 <= i < |s| :: ranges[i] == (s[i], s[i])
  {
    seq(|s|, i requires 0 <= i < |s| => (s[i], s[i]))
  }

  // The text stands for its characters: `]` and `-` have no meaning at the start, nor `-` at the end.
  predicate IsListed(s: string) {
    && s != "" && (forall i | 1 <= i < |s| :: s[i] != ']') && forall i | 1 <= i < |s| - 1 :: s[i] != '-'
  }

  lemma {:induction false} SinglesAreScanned(st: State, s: string, i: nat)
    requires IsListed(s) && i <= |s| && st.chars == s[i..] + "]"
    requires i == |s| ==> s == [s[0]] || s[|s| - 1] != '-'
    ensures var scan := ScanClass(st, Singles(s[..i]), i == 0, false);
            scan.Closed? && scan.st.chars == "" && scan.ranges == Singles(s)
    decreases |s| - i
  {
    if i == |s| {
      assert s[i..] + "]" == "]" && s[..i] == s;
    } else {
      var c, ranges := s[i], Singles(s[..i]);
      assert st.chars[0] == c && st.chars[1..] == s[i + 1..] + "]";
      assert Singles(s[..i + 1]) == ranges + [(c, c)];
      if i > 0 && c == '-' {
        assert i == |s| - 1 && Bump(st).chars == "]" && s[..i + 1] == s;
        assert ScanClass(st, ranges, false, false) == ScanClass(Bump(st), ranges, false, true);
      } else {
        assert ScanMove(c, ranges, i == 0, false) == Go(ranges + [(c, c)], false);
        SinglesAreScanned(Bump(st), s, i + 1);
      }
    }
  }

  // Characters that are listed are the ones that are held, in either case where it does not matter.
  lemma ListTextMatches(mark: string, s: string, opts: GlobOptions, path: seq<byte>)
    requires IsMark(mark) && IsListed(s) && Unmarked(mark, s) && forall c | c in s :: c as int < 0x80
    ensures var glob, b := Build(ClassText(mark, s), opts), if path == [] then 0 else path[0];
            && glob.Ok?
            && (GlobMatches(glob.value, path) <==>
                && |path| == 1
                && (b as char in s
                    || (opts.caseInsensitive
                        && (('A' as int <= b <= 'Z' as int && (b + 32) as char in s)
                            || ('a' as int <= b <= 'z' as int && (b - 32) as char in s))))
                   != (mark != ""))
  {
    hide GlobMatches, ParseLoop, ScanClass, Build, IsMark, Unmarked;
    var st := ClassIsRead(mark, s, opts);
    assert s[0..] == s && Singles(s[..0]) == [];
    SinglesAreScanned(st, s, 0);
    assert forall r | r in Singles(s) :: r.0 in s && r.1 in s;
    AsciiClassMatches(ClassText(mark, s), opts, mark != "", Singles(s), path);
    assert forall b: byte :: InAsciiRange(Singles(s), b) <==> b as char in s by {
      SinglesHold(s);
    }
  }

  lemma SinglesHold(s: string)
    ensures forall b: byte :: InAsciiRange(Singles(s), b) <==> b as char in s
  {
    forall b: byte
      ensures InAsciiRange(Singles(s), b) <==> b as char in s
    {
      if b as char in s {
        var i :| 0 <= i < |s| && s[i] == b as char;
        assert Singles(s)[i] in Singles(s);
      }
    }
  }

  // ----- brackets that are not closed -----

  lemma {:induction false} NothingCloses(st: State, ranges: seq<(char, char)>, first: bool)
    requires !first ==> ranges != []
    requires '-' !in st.chars && forall i | (if first then 1 else 0) <= i < |st.chars| :: st.chars[i] != ']'
    ensures ScanClass(st, ranges, first, false).Unclosed?
    decreases |st.chars|
  {
    if st.chars == "" {
    } else {
      var c := st.chars[0];
      assert c in st.chars;
      assert forall x | x in st.chars[1..] :: x in st.chars;
      NothingCloses(Bump(st), ranges + [(c, c)], false);
    }
  }

  // The text behind a bracket, but for a mark of negation.
  function BehindMark(text: string): string {
    if text != "" && (text[0] == '!' || text[0] == '^') then text[1..] else text
  }

  predicate NeverCloses(text: string) {
    var inside := BehindMark(text);
    '-' !in inside && forall i | 1 <= i < |inside| :: inside[i] != ']'
  }

  lemma OpenBracket(st: State, text: string, opts: GlobOptions)
    requires st.chars == text && NeverCloses(text)
    ensures ParseClass(st, opts) == if opts.allowUnclosedClass then PushToken(st.(foundUnclosedClass := true), Literal('['))
                                    else Err(UnclosedClass)
  {
    NothingCloses(if IsNegation(Peek(st)) then Bump(st) else st, [], true);
    hide ScanClass;
  }

  // A bracket that no bracket closes is an error, or stands for itself.
  lemma OpenBracketText(text: string, opts: GlobOptions)
    requires NeverCloses(text)
    ensures !opts.allowUnclosedClass ==> Build("[" + text, opts) == Err(UnclosedClass)
    ensures opts.allowUnclosedClass && IsPlain(text) ==> Build("[" + text, opts) == Ok(Glob("[" + text, opts, Literals("[" + text)))
  {
    hide ParseLoop, NeverCloses, IsPlain, ParseClass;
    var st := Initial("[" + text);
    var next := Bump(st);
    assert next.chars == text;
    OpenBracket(next, text, opts);
    if opts.allowUnclosedClass {
      if IsPlain(text) {
        var after := ParseChar('[', next, opts).value;
        LoopRound(st, after, opts);
        PlainIsSimple(text, opts.backslashEscape);
        SimpleParses(text, Literals(text), after, opts);
        LiteralsFirst('[', text);
        assert [] + [Literal('[')] == [Literal('[')];
      }
    } else {
      LoopError(st, opts);
    }
  }
}
