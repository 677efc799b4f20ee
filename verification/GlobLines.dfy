/** Lines of a gitignore file that hold wildcards, braces or brackets, and the verdicts they give. */
module GlobLines {
  import opened Wrappers
  import opened Utf8
  import opened Text
  import opened Tokens
  import opened Compiler
  import opened ClassMeanings
  import opened Paths
  import opened GlobParser
  import opened RepeatedStars
  import opened GlobTexts
  import opened ClassTexts
  import opened BraceTexts
  import opened TrailingStars
  import opened Matching
  import opened Gitignore
  import opened GitignoreBuilding
  import opened LineMeanings
  import opened LineTexts
  import StrategyProofs
  import Languages

  // What a line that asks for this glob says.
  function GlobVerdict(from: Option<string>, line: string, actual: string, opts: GlobOptions, path: seq<byte>): Match<IgnoreGlob> {
    var glob := Build(actual, opts);
    if glob.Ok? && GlobMatches(glob.value, path) then Ignore(IgnoreGlob(from, line, actual, false, false)) else NoMatch
  }

  // A text that is read as a glob to its end.
  predicate EndsInGlob(glob: string) {
    glob != "" && !IsWhitespace(glob[|glob| - 1]) && glob[|glob| - 1] != '/'
  }

  lemma LineAsksFor(from: Option<string>, line: string, actual: string, opts: GlobOptions, path: seq<byte>, isDir: bool)
    requires line != "" && line[0] != BOM && LastComponent(path) != DOT_DOT
    requires LineGlob(from, line) == Some(IgnoreGlob(from, line, actual, false, false))
    ensures FileVerdict(from, [line], opts, path, isDir) == GlobVerdict(from, line, actual, opts, path)
  {
    hide LineGlob, Build, GlobMatches, Applies, FileVerdict, LastComponent;
    OneLine(from, line, opts, path, isDir);
    var g := IgnoreGlob(from, line, actual, false, false);
    if Build(actual, opts).Ok? {
      AppliesByExpression(Build(actual, opts).value, g, path, isDir);
    }
  }

  lemma Unpadded(line: string)
    requires line != "" && !IsWhitespace(line[|line| - 1])
    ensures Trimmed(line) == line
  {
    NotTrimmed(line);
  }

  // Behind a slash a glob is matched from the directory of the file on, whatever it holds.
  lemma AnchoredGlobLine(from: Option<string>, glob: string, opts: GlobOptions, path: seq<byte>, isDir: bool)
    requires EndsInGlob(glob) && LastComponent(path) != DOT_DOT
    ensures var actual := if EndsWith(glob, "/**") then glob + "/*" else glob;
            FileVerdict(from, ["/" + glob], opts, path, isDir) == GlobVerdict(from, "/" + glob, actual, opts, path)
  {
    hide StripMarkers, StripDirSlash, Trimmed, GlobVerdict, FileVerdict, LastComponent;
    var line := "/" + glob;
    Unpadded(line);
    SlashMarker(glob);
    NoDirSlash(glob);
    StartsFirst(line, "#");
    LineAsksFor(from, line, if EndsWith(glob, "/**") then glob + "/*" else glob, opts, path, isDir);
  }

  // Without a slash a glob is matched at any depth.
  lemma FloatingGlobLine(from: Option<string>, glob: string, opts: GlobOptions, path: seq<byte>, isDir: bool)
    requires EndsInGlob(glob) && glob[0] !in ['#', '!', '/', '\\', BOM] && LastComponent(path) != DOT_DOT
    ensures var floating := if '/' in glob || glob == "**" then glob else "**/" + glob;
            var actual := if EndsWith(floating, "/**") then floating + "/*" else floating;
            FileVerdict(from, [glob], opts, path, isDir) == GlobVerdict(from, glob, actual, opts, path)
  {
    hide StripMarkers, StripDirSlash, Trimmed, GlobVerdict, FileVerdict, LastComponent;
    Unpadded(glob);
    NoMarkers(glob);
    NoDirSlash(glob);
    StartsFirst(glob, "#");
    assert StartsWith(glob, "**/") ==> glob[2] in glob;
    LineAsksFor(from, glob, AnchorGlob(glob, false), opts, path, isDir);
  }

  // ----- lines -----

  // `*` and `?` stay within a component.
  lemma WildcardLine(from: Option<string>, front: string, mark: char, back: string, unclosed: bool, path: seq<byte>, isDir: bool)
    requires IsPlain(front) && IsPlain(back) && (mark == '*' || mark == '?') && LastComponent(path) != DOT_DOT
    requires back != "" ==> EndsInGlob(back)
    ensures var glob := front + [mark] + back;
            FileVerdict(from, ["/" + glob], LineOptions(false, unclosed), path, isDir)
            == if exists middle: seq<byte> :: Around(front, middle, back, path) && SLASH !in middle && (mark == '?' ==> |middle| == 1)
               then Ignore(IgnoreGlob(from, "/" + glob, glob, false, false)) else NoMatch
  {
    hide FileVerdict, Build, GlobMatches, LastComponent, Around, IsWhitespace;
    var glob := front + [mark] + back;
    WildcardEnds(front, mark, back);
    AnchoredGlobLine(from, glob, LineOptions(false, unclosed), path, isDir);
    WildcardMatches(front, mark, back, LineOptions(false, unclosed), path);
  }

  lemma WildcardEnds(front: string, mark: char, back: string)
    requires IsPlain(front) && IsPlain(back) && (mark == '*' || mark == '?') && (back != "" ==> EndsInGlob(back))
    ensures EndsInGlob(front + [mark] + back) && !EndsWith(front + [mark] + back, "/**")
  {
    var glob := front + [mark] + back;
    assert glob[|glob| - 1] == if back == "" then mark else back[|back| - 1];
    assert "/**" == "/*" + "*" && "/**" == ['/', '*', '*'];
    if back != "" {
      assert back[|back| - 1] in back;
      LastOfStars(glob);
    } else if front != "" {
      assert glob[|glob| - 2] == front[|front| - 1] && front[|front| - 1] in front;
      LastOfStars(glob);
    }
  }

  lemma LastOfStars(glob: string)
    ensures EndsWith(glob, "/**") ==> |glob| >= 3 && glob[|glob| - 1] == '*' && glob[|glob| - 2] == '*'
  {
    if EndsWith(glob, "/**") {
      var end := glob[|glob| - 3..];
      assert end[2] == glob[|glob| - 1] && end[1] == glob[|glob| - 2];
    }
  }

  // An empty alternative does not count: the text alone is not ignored.
  lemma EmptyAlternativeLine(from: Option<string>, front: string, b: string, unclosed: bool, path: seq<byte>, isDir: bool)
    requires IsPlainBranch(front) && IsPlainBranch(b) && b != "" && LastComponent(path) != DOT_DOT
    ensures var glob := front + ("{," + b + "}");
            FileVerdict(from, ["/" + glob], LineOptions(false, unclosed), path, isDir)
            == if path == Encode(front + b) then Ignore(IgnoreGlob(from, "/" + glob, glob, false, false)) else NoMatch
  {
    hide FileVerdict, Build, GlobMatches, LastComponent, Encode, IsPlainBranch;
    var glob := GroupText(front, "", b);
    assert glob == front + ("{," + b + "}");
    assert glob[|glob| - 1] == '}';
    LastOfStars(glob);
    AnchoredGlobLine(from, glob, LineOptions(false, unclosed), path, isDir);
    NothingIsPlain();
    GroupTextMatches(front, "", b, LineOptions(false, unclosed), path);
  }

  lemma NothingIsPlain()
    ensures IsPlainBranch("")
  {
  }

  // `**` alone ignores everything.
  lemma StarsLine(from: Option<string>, caseInsensitive: bool, unclosed: bool, path: seq<byte>, isDir: bool)
    requires LastComponent(path) != DOT_DOT
    ensures FileVerdict(from, ["**"], LineOptions(caseInsensitive, unclosed), path, isDir)
         == Ignore(IgnoreGlob(from, "**", "**", false, false))
  {
    hide FileVerdict, Build, GlobMatches, LastComponent;
    var opts := LineOptions(caseInsensitive, unclosed);
    assert "**" == ['*', '*'];
    LastOfStars("**");
    FloatingGlobLine(from, "**", opts, path, isDir);
    StarsAtEndMatchAll(0, opts, path);
    GlobTexts.NoCopies();
  }

  // Stars behind a directory ignore what is in it, and not the directory.
  lemma InsideLine(from: Option<string>, s: string, unclosed: bool, path: seq<byte>, isDir: bool)
    requires IsPlain(s) && LastComponent(path) != DOT_DOT
    ensures var line := "/" + (s + "/**");
            FileVerdict(from, [line], LineOptions(false, unclosed), path, isDir)
            == if exists below: seq<byte> :: Around(s, below, "", path) && below != [] && below[0] == SLASH
               then Ignore(IgnoreGlob(from, line, s + "/**/*", false, false)) else NoMatch
  {
    hide FileVerdict, Build, GlobMatches, LastComponent, Around, IsPlain;
    var glob, opts := s + "/**", LineOptions(false, unclosed);
    assert glob[|glob| - 1] == '*' && glob[|s|..] == "/**";
    AnchoredGlobLine(from, glob, opts, path, isDir);
    assert glob + "/*" == s + "/**/*";
    RewriteKeepsMeaning(s, opts);
    StarsBehindMatch(s, opts, path);
  }

  // Where case does not matter, a letter stands for both its forms.
  lemma CaselessLine(from: Option<string>, s: string, unclosed: bool, path: seq<byte>, isDir: bool)
    requires IsPlain(s) && EndsInGlob(s) && LastComponent(path) != DOT_DOT
    ensures var e := Encode(s);
            FileVerdict(from, ["/" + s], LineOptions(true, unclosed), path, isDir)
            == if |path| == |e| && forall i | 0 <= i < |e| :: path[i] == e[i] || CasePair(path[i], e[i]) || CasePair(e[i], path[i])
               then Ignore(IgnoreGlob(from, "/" + s, s, false, false)) else NoMatch
  {
    hide FileVerdict, Build, GlobMatches, LastComponent, Encode, IsWhitespace;
    PlainEndsOtherwise(s);
    AnchoredGlobLine(from, s, LineOptions(true, unclosed), path, isDir);
    PlainTextMatches(s, LineOptions(true, unclosed), path);
  }

  lemma PlainEndsOtherwise(s: string)
    requires IsPlain(s)
    ensures !EndsWith(s, "/**")
  {
    LastOfStars(s);
    if s != "" {
      assert s[|s| - 1] in s;
    }
  }

  // A bracket that is not closed stands for itself where that is allowed; otherwise the line is no rule.
  lemma OpenBracketLine(from: Option<string>, s: string, unclosed: bool, path: seq<byte>, isDir: bool)
    requires IsPlain(s) && NeverCloses(s) && EndsInGlob("[" + s) && LastComponent(path) != DOT_DOT
    ensures var glob := "[" + s;
            FileVerdict(from, ["/" + glob], LineOptions(false, unclosed), path, isDir)
            == if unclosed && path == Encode(glob) then Ignore(IgnoreGlob(from, "/" + glob, glob, false, false)) else NoMatch
  {
    hide FileVerdict, Build, GlobMatches, LastComponent, Encode, NeverCloses, IsWhitespace, Literals;
    var glob, opts := "[" + s, LineOptions(false, unclosed);
    LastOfStars(glob);
    assert |glob| >= 2 ==> glob[|glob| - 1] == s[|s| - 1] && s[|s| - 1] in s;
    AnchoredGlobLine(from, glob, opts, path, isDir);
    OpenBracketText(s, opts);
    if unclosed {
      LiteralGlobMatches(glob, glob, opts, path);
    }
  }

  lemma LiteralGlobMatches(glob: string, text: string, opts: GlobOptions, path: seq<byte>)
    requires !opts.caseInsensitive
    ensures GlobMatches(Glob(glob, opts, Literals(text)), path) <==> path == Encode(text)
  {
    hide GlobMatches, Lang, Encode;
    NoStarsInText(text);
    StrategyProofs.GlobLang(Glob(glob, opts, Literals(text)), path);
    Languages.LangLiterals(text, opts, path);
  }

  lemma NoStarsInText(text: string)
    ensures Literals(text) != [RecursivePrefix]
  {
    if text != "" {
      assert Literals(text)[0] == Literal(text[0]);
    }
  }

  // A backslash takes every meaning from the character behind it.
  lemma EscapedLine(from: Option<string>, front: string, c: char, back: string, unclosed: bool, path: seq<byte>, isDir: bool)
    requires IsPlain(front) && IsPlain(back) && EndsInGlob(back) && LastComponent(path) != DOT_DOT
    ensures var glob := front + ['\\', c] + back;
            FileVerdict(from, ["/" + glob], LineOptions(false, unclosed), path, isDir)
            == if path == Encode(front + [c] + back) then Ignore(IgnoreGlob(from, "/" + glob, glob, false, false)) else NoMatch
  {
    hide FileVerdict, Build, GlobMatches, LastComponent, Encode, Lang, IsWhitespace;
    var glob, text, opts := front + ['\\', c] + back, front + [c] + back, LineOptions(false, unclosed);
    LastOfStars(glob);
    assert glob[|glob| - 1] == back[|back| - 1] && back[|back| - 1] in back;
    AnchoredGlobLine(from, glob, opts, path, isDir);
    EscapedText(front, c, back, opts);
    LiteralGlobMatches(glob, text, opts, path);
  }
}
