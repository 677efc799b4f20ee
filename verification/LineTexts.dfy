/**
 Lines of a gitignore file as they are written (gitignore(5), section PATTERN FORMAT), and the verdicts
 they give.
 */
module LineTexts {
  import opened Wrappers
  import opened Utf8
  import opened Text
  import opened Tokens
  import opened Compiler
  import opened Components
  import opened Paths
  import opened Strategies
  import opened GlobSetMatching
  import opened GlobParser
  import opened RepeatedStars
  import opened PlainGlobs
  import opened Matching
  import opened Gitignore
  import opened GitignoreBuilding
  import opened LineMeanings

  // ----- which line decides -----

  // Line k is the rule g, and its glob matches.
  ghost predicate LineApplies(from: Option<string>, lines: seq<string>, k: nat, g: IgnoreGlob, opts: GlobOptions,
                              path: seq<byte>, isDir: bool)
    requires k < |lines|
  {
    && LineGlob(from, LineAt(lines, k)) == Some(g)
    && Build(g.actual, opts).Ok? && GlobMatches(Build(g.actual, opts).value, path)
    && (g.isOnlyDir ==> isDir)
  }

  lemma LineBefore(lines: seq<string>, n: nat, k: nat)
    requires k < n <= |lines|
    ensures LineAt(lines[..n], k) == LineAt(lines, k)
  {
  }

  lemma AppliesBefore(from: Option<string>, lines: seq<string>, n: nat, k: nat, g: IgnoreGlob, opts: GlobOptions,
                      path: seq<byte>, isDir: bool)
    requires k < n <= |lines|
    ensures LineApplies(from, lines[..n], k, g, opts, path, isDir) <==> LineApplies(from, lines, k, g, opts, path, isDir)
  {
    hide LineGlob, Build, GlobMatches, LineAt;
    LineBefore(lines, n, k);
  }

  lemma LastLineApplies(from: Option<string>, lines: seq<string>, opts: GlobOptions, path: seq<byte>, isDir: bool)
    requires lines != [] && LastComponent(path) != DOT_DOT
    ensures var n, rest := |lines| - 1, FileVerdict(from, lines[..|lines| - 1], opts, path, isDir);
            && (forall g | LineApplies(from, lines, n, g, opts, path, isDir) ::
                  FileVerdict(from, lines, opts, path, isDir) == if g.isWhitelist then Whitelist(g) else Ignore(g))
            && ((forall g :: !LineApplies(from, lines, n, g, opts, path, isDir)) ==>
                  FileVerdict(from, lines, opts, path, isDir) == rest)
  {
    hide LineGlob, Build, GlobMatches, LineAt, LastComponent, Applies;
    var n := |lines| - 1;
    var line := LineAt(lines, n);
    LastLine(from, lines, opts, path, isDir);
    match LineGlob(from, line)
    case None =>
    case Some(g) =>
      match Build(g.actual, opts)
      case Err(_) =>
      case Ok(p) =>
        AppliesByExpression(p, g, path, isDir);
        assert LineApplies(from, lines, n, g, opts, path, isDir) <==> Applies(p, g, path, isDir);
  }

  // The last line that applies decides, whatever lines there are besides.
  lemma {:induction false} LastApplyingLine(from: Option<string>, lines: seq<string>, k: nat, g: IgnoreGlob, opts: GlobOptions,
                                            path: seq<byte>, isDir: bool)
    requires LastComponent(path) != DOT_DOT && k < |lines| && LineApplies(from, lines, k, g, opts, path, isDir)
    requires forall j: nat, h | k < j < |lines| :: !LineApplies(from, lines, j, h, opts, path, isDir)
    ensures FileVerdict(from, lines, opts, path, isDir) == if g.isWhitelist then Whitelist(g) else Ignore(g)
    decreases |lines|
  {
    hide LineApplies, LastComponent, FileVerdict;
    var n := |lines| - 1;
    LastLineApplies(from, lines, opts, path, isDir);
    if k < n {
      forall j: nat, h | j < n {
        AppliesBefore(from, lines, n, j, h, opts, path, isDir);
      }
      LastApplyingLine(from, lines[..n], k, g, opts, path, isDir);
    }
  }

  lemma {:induction false} NoLineApplies(from: Option<string>, lines: seq<string>, opts: GlobOptions, path: seq<byte>, isDir: bool)
    requires LastComponent(path) != DOT_DOT
    requires forall j: nat, h | j < |lines| :: !LineApplies(from, lines, j, h, opts, path, isDir)
    ensures FileVerdict(from, lines, opts, path, isDir) == NoMatch
    decreases |lines|
  {
    hide LineApplies, LastComponent;
    if lines == [] {
    } else {
      var n := |lines| - 1;
      LastLineApplies(from, lines, opts, path, isDir);
      forall j: nat, h | j < n {
        AppliesBefore(from, lines, n, j, h, opts, path, isDir);
      }
      NoLineApplies(from, lines[..n], opts, path, isDir);
    }
  }

  // The same for the rules collected by a builder.
  lemma {:induction false} LastApplyingRule(list: RuleList, k: nat, path: seq<byte>, isDir: bool)
    requires |list.patterns| == |list.rules| && k < |list.rules| && LastComponent(path) != DOT_DOT
    requires GlobMatches(list.patterns[k], path) && (list.rules[k].isOnlyDir ==> isDir)
    requires forall j | k < j < |list.rules| :: !(GlobMatches(list.patterns[j], path) && (list.rules[j].isOnlyDir ==> isDir))
    ensures LastVerdict(list, path, isDir) == if list.rules[k].isWhitelist then Whitelist(list.rules[k]) else Ignore(list.rules[k])
    decreases |list.rules|
  {
    hide GlobMatches, LastComponent, Applies;
    var n := |list.rules| - 1;
    AppliesByExpression(list.patterns[n], list.rules[n], path, isDir);
    if k < n {
      var fewer := RuleList(list.patterns[..n], list.rules[..n]);
      assert forall j | 0 <= j < n :: fewer.patterns[j] == list.patterns[j] && fewer.rules[j] == list.rules[j];
      LastApplyingRule(fewer, k, path, isDir);
    }
  }

  lemma {:induction false} NoRuleApplies(list: RuleList, path: seq<byte>, isDir: bool)
    requires |list.patterns| == |list.rules| && LastComponent(path) != DOT_DOT
    requires forall j | 0 <= j < |list.rules| :: !(GlobMatches(list.patterns[j], path) && (list.rules[j].isOnlyDir ==> isDir))
    ensures LastVerdict(list, path, isDir) == NoMatch
    decreases |list.rules|
  {
    hide GlobMatches, LastComponent, Applies;
    var n := |list.rules| - 1;
    if n >= 0 {
      AppliesByExpression(list.patterns[n], list.rules[n], path, isDir);
      var fewer := RuleList(list.patterns[..n], list.rules[..n]);
      assert forall j | 0 <= j < n :: fewer.patterns[j] == list.patterns[j] && fewer.rules[j] == list.rules[j];
      NoRuleApplies(fewer, path, isDir);
    }
  }

  // Line k asks for a glob that does not parse.
  predicate IsBadLine(from: Option<string>, lines: seq<string>, k: int, kind: ErrorKind, opts: GlobOptions) {
    0 <= k < |lines| && LineGlob(from, LineAt(lines, k)).Some? && Build(LineGlob(from, LineAt(lines, k)).value.actual, opts) == Err(kind)
  }

  // The errors with one more, about line n.
  predicate OneMore(before: seq<LineError>, errs: seq<LineError>, n: nat, kind: ErrorKind) {
    errs == before + [LineError(n + 1, kind)]
  }

  lemma LastIsBad(list: RuleList, from: Option<string>, lines: seq<string>, opts: GlobOptions)
    requires lines != []
    ensures var n := |lines| - 1;
            var before, errs := AddAll(list, from, lines[..n], opts).1, AddAll(list, from, lines, opts).1;
            && (errs == before || exists kind :: OneMore(before, errs, n, kind))
            && forall kind :: IsBadLine(from, lines, n, kind, opts) <==> OneMore(before, errs, n, kind)
  {
    hide LineGlob, Build, LineAt;
    var n := |lines| - 1;
    var before, errs := AddAll(list, from, lines[..n], opts).1, AddAll(list, from, lines, opts).1;
    var added := AddLineTo(AddAll(list, from, lines[..n], opts).0, from, LineAt(lines, n), opts);
    assert errs == match added.error case None => before case Some(e) => before + [LineError(n + 1, e)];
    forall kind
      ensures OneMore(before, errs, n, kind) <==> added.error == Some(kind)
    {
      if OneMore(before, errs, n, kind) {
        assert |errs| == |before| + 1 && errs[|before|] == LineError(n + 1, kind);
      }
    }
    if added.error.Some? {
      assert OneMore(before, errs, n, added.error.value);
    }
  }

  lemma BadBefore(from: Option<string>, lines: seq<string>, n: nat, k: int, kind: ErrorKind, opts: GlobOptions)
    requires n <= |lines|
    ensures IsBadLine(from, lines[..n], k, kind, opts) <==> k < n && IsBadLine(from, lines, k, kind, opts)
  {
    hide LineGlob, Build, LineAt;
    if 0 <= k < n {
      LineBefore(lines, n, k);
    }
  }

  // The lines that are reported are those whose glob does not parse, with their numbers from one on.
  lemma {:induction false} BadLinesAreListed(list: RuleList, from: Option<string>, lines: seq<string>, opts: GlobOptions)
    ensures var errs := AddAll(list, from, lines, opts).1;
            && (forall e: LineError :: e in errs <==> IsBadLine(from, lines, e.line - 1, e.kind, opts))
            && (forall i, j | 0 <= i < j < |errs| :: errs[i].line < errs[j].line)
    decreases |lines|
  {
    hide IsBadLine;
    if lines == [] {
      NoBadLines(list, from, opts);
    } else {
      var n := |lines| - 1;
      BadLinesAreListed(list, from, lines[..n], opts);
      LastIsBad(list, from, lines, opts);
      forall k, kind {
        BadBefore(from, lines, n, k, kind, opts);
      }
      hide AddAll;
      var before, errs := AddAll(list, from, lines[..n], opts).1, AddAll(list, from, lines, opts).1;
      BadInside(from, lines, opts);
      OneMoreBad(before, errs, n);
      forall e: LineError
        ensures e in errs <==> IsBadLine(from, lines, e.line - 1, e.kind, opts)
      {
        if e.line - 1 == n {
          BadBefore(from, lines, n, n, e.kind, opts);
        }
      }
    }
  }

  lemma NoBadLines(list: RuleList, from: Option<string>, opts: GlobOptions)
    ensures AddAll(list, from, [], opts).1 == [] && forall k, kind :: !IsBadLine(from, [], k, kind, opts)
  {
  }

  lemma BadInside(from: Option<string>, lines: seq<string>, opts: GlobOptions)
    ensures forall k, kind | IsBadLine(from, lines, k, kind, opts) :: 0 <= k < |lines|
  {
    hide LineGlob, Build;
  }

  lemma OneMoreBad(before: seq<LineError>, errs: seq<LineError>, n: nat)
    requires errs == before || exists kind :: OneMore(before, errs, n, kind)
    requires forall e | e in before :: e.line <= n
    ensures forall e: LineError :: e in errs <==> e in before || (e.line == n + 1 && OneMore(before, errs, n, e.kind))
    ensures (forall i, j | 0 <= i < j < |before| :: before[i].line < before[j].line) ==>
              forall i, j | 0 <= i < j < |errs| :: errs[i].line < errs[j].line
  {
    if errs == before {
      forall kind
        ensures !OneMore(before, errs, n, kind)
      {
        assert |before + [LineError(n + 1, kind)]| == |before| + 1;
      }
    } else {
      var kind :| OneMore(before, errs, n, kind);
      var last := LineError(n + 1, kind);
      assert errs[|before|] == last && forall i | 0 <= i < |before| :: errs[i] == before[i] && before[i] in before;
      forall k | OneMore(before, errs, n, k)
        ensures k == kind
      {
        assert errs[|before|] == LineError(n + 1, k);
      }
    }
  }

  // ----- lines of literal text -----

  // A line that is not a comment and that stands for the text, with these marks.
  ghost predicate IsLiteralLine(line: string, marked: Marked, text: string) {
    && line != "" && line[0] != '#' && Trimmed(line) != "" && StripMarkers(Trimmed(line)) == marked
    && SimpleTokens(StripDirSlash(marked.line), true) == Some(Literals(text))
    && text != "" && ('/' in StripDirSlash(marked.line) <==> '/' in text)
  }

  // The verdict of a rule for one text: with an anchor or a slash it is about that one path, else about
  // every path with that last component, which `..` never counts as.
  function TextVerdict(g: IgnoreGlob, anchored: bool, text: string, path: seq<byte>, isDir: bool): Match<IgnoreGlob> {
    var applies := if anchored || '/' in text then path == Encode(text)
                   else LastComponent(path) == Encode(text) && Encode(text) != [DOT, DOT];
    if !applies || (g.isOnlyDir && !isDir) then NoMatch
    else if g.isWhitelist then Whitelist(g)
    else Ignore(g)
  }

  lemma OneLine(from: Option<string>, line: string, opts: GlobOptions, path: seq<byte>, isDir: bool)
    requires line != "" && line[0] != BOM
    ensures var rule := RuleOf(from, line, opts);
            FileVerdict(from, [line], opts, path, isDir)
            == if rule.Some? && Applies(rule.value.1, rule.value.0, path, isDir) then Verdict(rule.value.0) else NoMatch
  {
    hide RuleOf, Applies, Verdict;
    LastLine(from, [line], opts, path, isDir);
    assert [line][..0] == [];
    assert TrimBom(line) == line;
  }

  // The rule of such a line.
  lemma {:induction false} LiteralRule(from: Option<string>, line: string, marked: Marked, text: string, unclosed: bool,
                                       path: seq<byte>, isDir: bool)
    requires IsLiteralLine(line, marked, text)
    ensures var open := StripDirSlash(marked.line);
            var g := IgnoreGlob(from, Trimmed(line), if marked.isAbsolute || '/' in text then open else "**/" + open,
                                marked.isWhitelist, EndsWith(marked.line, "/"));
            var rule := RuleOf(from, line, LineOptions(false, unclosed));
            && rule.Some?
            && TextVerdict(g, marked.isAbsolute, text, path, isDir)
               == if Applies(rule.value.1, rule.value.0, path, isDir) then Verdict(rule.value.0) else NoMatch
  {
    hide StripMarkers, StripDirSlash, Trimmed, LastComponent, Encode, Lang, PartsMatch, SimpleTokens, Build,
         LooksUpName, StrategyOf, AnchorGlob, SetMatches;
    var opts, open := LineOptions(false, unclosed), StripDirSlash(marked.line);
    SimpleLineMeans(from, line, Literals(text), opts, path, isDir);
    SimpleAnchor(open, marked.isAbsolute);
    LiteralTokens(text, opts, path);
    RuleOptions(from, line, opts);
    var g := RuleOf(from, line, opts).value.1;
    if marked.isAbsolute || '/' in text {
      LiteralStrategy(text, g.glob, opts);
    } else {
      EmptyText(open, Literals(text));
      assert |Literals(text)| == |text|;
      NameStrategy(text, g.glob, opts);
    }
  }

  lemma LiteralLine(from: Option<string>, line: string, marked: Marked, text: string, unclosed: bool, path: seq<byte>, isDir: bool)
    requires IsLiteralLine(line, marked, text) && line[0] != BOM
    ensures var open := StripDirSlash(marked.line);
            var g := IgnoreGlob(from, Trimmed(line), if marked.isAbsolute || '/' in text then open else "**/" + open,
                                marked.isWhitelist, EndsWith(marked.line, "/"));
            FileVerdict(from, [line], LineOptions(false, unclosed), path, isDir) == TextVerdict(g, marked.isAbsolute, text, path, isDir)
  {
    hide StripMarkers, StripDirSlash, Trimmed, SimpleTokens, FileVerdict, RuleOf, TextVerdict;
    LiteralRule(from, line, marked, text, unclosed, path, isDir);
    OneLine(from, line, LineOptions(false, unclosed), path, isDir);
  }

  // Everything in front of the text itself.
  lemma MarkersInFront(negated: bool, anchored: bool, open: string)
    requires open != "" && open[0] !in ['!', '/', '\\']
    ensures StripMarkers(PlainLine(negated, anchored, open, false)) == Marked(negated, anchored, open)
    ensures var line := PlainLine(negated, anchored, open, false);
            && line != "" && line[|line| - 1] == open[|open| - 1]
            && (open[0] != '#' && open[0] != BOM ==> line[0] != '#' && line[0] != BOM)
  {
    hide StripMarkers;
    if anchored {
      SlashMarker(open);
    } else {
      NoMarkers(open);
    }
    if negated {
      BangMarker(AnchorLine(anchored, open), anchored, open);
    }
  }

  lemma {:induction false} TrimmedPad(x: string, pad: string)
    requires x != "" && !IsWhitespace(x[|x| - 1]) && forall c | c in pad :: IsWhitespace(c)
    ensures TrimRight(x + pad) == x
    decreases |pad|
  {
    if pad == "" {
      assert x + pad == x;
    } else {
      var n := |pad| - 1;
      assert pad[n] in pad && (x + pad)[..|x| + n] == x + pad[..n];
      TrimmedPad(x, pad[..n]);
    }
  }

  lemma EndsInTwo(line: string, pre: char, last: char)
    ensures EndsWith(line, [pre, last]) <==> |line| >= 2 && line[|line| - 2] == pre && line[|line| - 1] == last
  {
    if |line| >= 2 {
      assert line[|line| - 2..] == [line[|line| - 2], line[|line| - 1]];
    }
  }

  lemma PadIsDropped(x: string, pad: string)
    requires x != "" && !IsWhitespace(x[|x| - 1]) && x[|x| - 1] != '\\' && forall c | c in pad :: IsWhitespace(c)
    ensures Trimmed(x + pad) == x
  {
    TrimmedPad(x, pad);
    var line := x + pad;
    assert "\\ " == ['\\', ' '];
    EndsInTwo(line, '\\', ' ');
    if |pad| >= 2 {
      assert line[|line| - 2] == pad[|pad| - 2] && pad[|pad| - 2] in pad;
    } else if |pad| == 1 {
      assert line[|line| - 2] == x[|x| - 1];
    } else {
      assert line == x;
    }
  }

  lemma TextIsTrue(s: string)
    requires IsPlainPath(s)
    ensures s != "" && IsPlain(s) && s[|s| - 1] != '\\' && s[0] != '\\' && s[|s| - 1] != '/' && !IsWhitespace(s[|s| - 1])
  {
    assert s[0] in s && s[|s| - 1] in s;
  }

  // A plain line, whatever whitespace is behind it. The rule keeps its origin and the line without that
  // whitespace.
  lemma PlainLineVerdict(from: Option<string>, negated: bool, anchored: bool, s: string, dirOnly: bool, pad: string,
                         unclosed: bool, path: seq<byte>, isDir: bool)
    requires IsPlainPath(s) && s[0] != BOM && forall c | c in pad :: IsWhitespace(c)
    ensures var line := PlainLine(negated, anchored, s, dirOnly);
            var g := IgnoreGlob(from, line, if anchored || '/' in s then s else "**/" + s, negated, dirOnly);
            FileVerdict(from, [line + pad], LineOptions(false, unclosed), path, isDir) == TextVerdict(g, anchored, s, path, isDir)
  {
    hide StripMarkers, StripDirSlash, Trimmed, SimpleTokens, TextVerdict, IsPlainPath, FileVerdict, Literals;
    var line, open := PlainLine(negated, anchored, s, dirOnly), DirLine(s, dirOnly);
    TextIsTrue(s);
    PlainMarkers(negated, anchored, s, dirOnly);
    PlainDirSlash(s, dirOnly);
    PlainIsSimple(s, true);
    PlainStart(negated, anchored, s, dirOnly);
    PadIsDropped(line, pad);
    assert (line + pad)[0] == line[0];
    LiteralLine(from, line + pad, Marked(negated, anchored, open), s, unclosed, path, isDir);
  }

  lemma PlainStart(negated: bool, anchored: bool, s: string, dirOnly: bool)
    requires IsPlainPath(s) && s[0] != BOM
    ensures var line := PlainLine(negated, anchored, s, dirOnly);
            && line != "" && line[0] != '#' && line[0] != BOM
            && !IsWhitespace(line[|line| - 1]) && line[|line| - 1] != '\\'
  {
    TextIsTrue(s);
    var open := DirLine(s, dirOnly);
    var rest := AnchorLine(anchored, open);
    assert open[|open| - 1] == (if dirOnly then '/' else s[|s| - 1]);
    assert rest[|rest| - 1] == open[|open| - 1];
  }

  // `\#` and `\!` at the start of a line are those characters.
  lemma EscapedMarkVerdict(from: Option<string>, s: string, unclosed: bool, path: seq<byte>, isDir: bool)
    requires s != "" && (s[0] == '#' || s[0] == '!') && IsPlain(s) && s[|s| - 1] != '/' && !IsWhitespace(s[|s| - 1])
    ensures var line := "\\" + s;
            var g := IgnoreGlob(from, line, if '/' in s then s else "**/" + s, false, false);
            FileVerdict(from, [line], LineOptions(false, unclosed), path, isDir) == TextVerdict(g, false, s, path, isDir)
  {
    hide StripDirSlash, Trimmed, SimpleTokens, TextVerdict, FileVerdict, IsPlain, Literals;
    var line := "\\" + s;
    assert line[..2] == ['\\', s[0]] && line[1..] == s;
    assert StripMarkers(line) == Marked(false, false, s);
    hide StripMarkers;
    NotTrimmed(line);
    NoDirSlash(s);
    PlainIsSimple(s, true);
    LiteralLine(from, line, Marked(false, false, s), s, unclosed, path, isDir);
  }

  lemma NoDirSlash(s: string)
    requires s != "" && s[|s| - 1] != '/'
    ensures StripDirSlash(s) == s && !EndsWith(s, "/")
  {
    LastChar(s, '/');
  }

  lemma PlainFirst(c: char, rest: string)
    requires IsPlainChar(c)
    ensures SimpleTokens([c] + rest, true) == Then(Token.Literal(c), SimpleTokens(rest, true))
  {
    FirstOf(c, rest);
  }

  lemma {:induction false} PlainThen(s: string, rest: string, toks: seq<Token>)
    requires IsPlain(s) && SimpleTokens(rest, true) == Some(toks)
    ensures SimpleTokens(s + rest, true) == Some(Literals(s) + toks)
    decreases |s|
  {
    hide SimpleTokens, Literals, IsSimple;
    if s == "" {
      assert s + rest == rest && Literals(s) + toks == toks;
    } else {
      var c, more := s[0], s[1..];
      assert c in s && forall x | x in more :: x in s;
      PlainThen(more, rest, toks);
      LiteralsFirst(c, more);
      PlainFirst(c, more + rest);
      assert s == [c] + more && s + rest == [c] + (more + rest);
      assert [Token.Literal(c)] + (Literals(more) + toks) == [Token.Literal(c)] + Literals(more) + toks;
    }
  }

  lemma EscapedSpace(s: string)
    requires IsPlain(s)
    ensures SimpleTokens(s + "\\ ", true) == Some(Literals(s + " "))
  {
    assert "\\ "[2..] == "" && [Token.Literal(' ')] + [] == [Token.Literal(' ')];
    assert SimpleTokens("", true) == Some([]);
    assert SimpleTokens("\\ ", true) == Then(Token.Literal(' '), SimpleTokens("\\ "[2..], true));
    assert SimpleTokens("\\ ", true) == Some([Token.Literal(' ')]);
    PlainThen(s, "\\ ", [Token.Literal(' ')]);
    assert Literals(s + " ") == Literals(s) + [Token.Literal(' ')];
  }

  // A space at the end counts if it is escaped.
  lemma EscapedSpaceVerdict(from: Option<string>, negated: bool, anchored: bool, s: string, unclosed: bool, path: seq<byte>, isDir: bool)
    requires IsPlainPath(s) && s[0] != BOM
    ensures var line := PlainLine(negated, anchored, s + "\\ ", false);
            var g := IgnoreGlob(from, line, if anchored || '/' in s then s + "\\ " else "**/" + (s + "\\ "), negated, false);
            FileVerdict(from, [line], LineOptions(false, unclosed), path, isDir) == TextVerdict(g, anchored, s + " ", path, isDir)
  {
    hide StripMarkers, StripDirSlash, Trimmed, SimpleTokens, TextVerdict, FileVerdict, Literals, PlainLine;
    var open := s + "\\ ";
    TextIsTrue(s);
    MarkersInFront(negated, anchored, open);
    SpaceIsKept(negated, anchored, s);
    NoDirSlash(open);
    EscapedSpace(s);
    LiteralLine(from, PlainLine(negated, anchored, open, false), Marked(negated, anchored, open), s + " ", unclosed, path, isDir);
  }

  lemma SpaceIsKept(negated: bool, anchored: bool, s: string)
    ensures var line := PlainLine(negated, anchored, s + "\\ ", false); Trimmed(line) == line
  {
    var line := PlainLine(negated, anchored, s + "\\ ", false);
    var front := (if negated then "!" else "") + (if anchored then "/" else "") + s;
    assert line == front + "\\ ";
    assert line[|front|..] == "\\ ";
  }

  // A slash at the end restricts a rule to directories even if it is escaped.
  lemma EscapedSlashVerdict(from: Option<string>, negated: bool, anchored: bool, s: string, unclosed: bool, path: seq<byte>, isDir: bool)
    requires IsPlainPath(s) && s[0] != BOM
    ensures var line := PlainLine(negated, anchored, s + "\\/", false);
            var g := IgnoreGlob(from, line, if anchored || '/' in s then s else "**/" + s, negated, true);
            FileVerdict(from, [line], LineOptions(false, unclosed), path, isDir) == TextVerdict(g, anchored, s, path, isDir)
  {
    hide StripMarkers, StripDirSlash, Trimmed, SimpleTokens, TextVerdict, FileVerdict, Literals, PlainLine;
    var open := s + "\\/";
    var line := PlainLine(negated, anchored, open, false);
    TextIsTrue(s);
    MarkersInFront(negated, anchored, open);
    NotTrimmed(line);
    EscapedSlashIsDropped(s);
    PlainIsSimple(s, true);
    LiteralLine(from, line, Marked(negated, anchored, open), s, unclosed, path, isDir);
  }

  lemma EscapedSlashIsDropped(s: string)
    ensures StripDirSlash(s + "\\/") == s && EndsWith(s + "\\/", "/")
  {
    var line := s + "\\/";
    LastChar(line, '/');
    var open := line[..|line| - 1];
    LastChar(open, '\\');
    assert open == s + "\\" && open[..|open| - 1] == s;
  }

  // Comments and blank lines say nothing.
  lemma SilentLine(from: Option<string>, line: string, opts: GlobOptions, path: seq<byte>, isDir: bool)
    requires StartsWith(line, "#") || forall c | c in line :: IsWhitespace(c)
    ensures FileVerdict(from, [line], opts, path, isDir) == NoMatch
  {
    hide RuleOf, Applies;
    LastLine(from, [line], opts, path, isDir);
    assert [line][..0] == [];
    TrimmedBom(line);
    SilentGlob(from, line);
    NoRule(from, line, opts);
  }

  lemma TrimmedBom(line: string)
    requires StartsWith(line, "#") || forall c | c in line :: IsWhitespace(c)
    ensures TrimBom(line) == line
  {
    if line != "" {
      assert line[0] in line;
    }
  }

  lemma NoRule(from: Option<string>, line: string, opts: GlobOptions)
    requires LineGlob(from, line).None?
    ensures RuleOf(from, line, opts).None?
  {
    hide LineGlob;
  }

  lemma SilentGlob(from: Option<string>, line: string)
    requires StartsWith(line, "#") || forall c | c in line :: IsWhitespace(c)
    ensures LineGlob(from, line).None?
  {
    if !StartsWith(line, "#") {
      assert "\\ " == ['\\', ' '];
      EndsInTwo(line, '\\', ' ');
      if |line| >= 2 {
        assert line[|line| - 2] in line;
      }
      AllTrimmed(line);
    }
  }

  lemma {:induction false} AllTrimmed(line: string)
    requires forall c | c in line :: IsWhitespace(c)
    ensures TrimRight(line) == ""
    decreases |line|
  {
    if line == "" {
    } else {
      assert line[|line| - 1] in line;
      AllTrimmed(line[..|line| - 1]);
    }
  }

  // Byte order marks in front of the first line mean nothing.
  lemma BomIsDropped(from: Option<string>, lines: seq<string>, opts: GlobOptions, path: seq<byte>, isDir: bool)
    requires lines != []
    ensures FileVerdict(from, lines[0 := "\U{FEFF}" + lines[0]], opts, path, isDir) == FileVerdict(from, lines, opts, path, isDir)
    decreases |lines|
  {
    hide RuleOf, Applies, Verdict;
    var n, marked := |lines| - 1, lines[0 := "\U{FEFF}" + lines[0]];
    LastLine(from, lines, opts, path, isDir);
    LastLine(from, marked, opts, path, isDir);
    assert ("\U{FEFF}" + lines[0])[1..] == lines[0];
    if n > 0 {
      BomIsDropped(from, lines[..n], opts, path, isDir);
      assert marked[..n] == lines[..n][0 := "\U{FEFF}" + lines[0]];
    }
  }

  // In front of any other line a byte order mark is a character like others.
  lemma LaterBomCounts(from: Option<string>, s: string, unclosed: bool, path: seq<byte>, isDir: bool)
    requires IsPlainPath("\U{FEFF}" + s)
    ensures var line := "\U{FEFF}" + s;
            var g := IgnoreGlob(from, line, if '/' in line then line else "**/" + line, false, false);
            FileVerdict(from, ["", line], LineOptions(false, unclosed), path, isDir) == TextVerdict(g, false, line, path, isDir)
  {
    hide StripMarkers, StripDirSlash, Trimmed, SimpleTokens, FileVerdict, RuleOf, TextVerdict, IsPlainPath, Literals, Applies, Verdict;
    var line, opts := "\U{FEFF}" + s, LineOptions(false, unclosed);
    PlainMarkers(false, false, line, false);
    PlainDirSlash(line, false);
    TextIsTrue(line);
    PlainIsSimple(line, true);
    LiteralRule(from, line, Marked(false, false, line), line, unclosed, path, isDir);
    LastLine(from, ["", line], opts, path, isDir);
    assert ["", line][..1] == [""];
    SilentLine(from, "", opts, path, isDir);
  }
}
