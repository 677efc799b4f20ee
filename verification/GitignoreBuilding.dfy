/** Collecting the lines of a gitignore file, good and bad, into a matcher. */
module GitignoreBuilding {
  import opened Wrappers
  import opened Utf8
  import opened Tokens
  import opened Paths
  import opened RelativePaths
  import opened GlobSetMatching
  import opened Matching
  import opened Text
  import opened Gitignore
  import Parser

  // An error together with the number of its line.
  datatype LineError = LineError(line: nat, kind: ErrorKind)

  const BOM := '\U{FEFF}'

  class GitignoreBuilder {
    const root: seq<byte>
    var patterns: seq<Glob>
    var globs: seq<IgnoreGlob>
    var caseInsensitive: bool
    var allowUnclosedClass: bool

    constructor (root: seq<byte>)
      ensures this.root == CleanRoot(root) && Contents() == NO_RULES && !caseInsensitive && allowUnclosedClass
    {
      this.root := CleanRoot(root);
      patterns, globs := [], [];
      caseInsensitive, allowUnclosedClass := false, true;
    }

    function Contents(): RuleList
      reads this
    {
      RuleList(patterns, globs)
    }

    function Options(): GlobOptions
      reads this
    {
      LineOptions(caseInsensitive, allowUnclosedClass)
    }

    method AddLine(from: Option<string>, text: string) returns (r: Outcome<ErrorKind>)
      modifies this
      ensures var added := AddLineTo(old(Contents()), from, text, old(Options()));
              && Contents() == added.list
              && r == match added.error case None => Pass case Some(e) => Fail(e)
      ensures Options() == old(Options())
    {
      hide GlobParser.Build;
      var line := text;
      if StartsWith(line, "#") {
        return Pass;
      }
      if !EndsWith(line, "\\ ") {
        line := TrimRight(line);
      }
      if line == "" {
        return Pass;
      }
      var glob := ReadRule(from, line);
      var parsed := Parser.BuildGlob(glob.actual, GlobOptions(caseInsensitive, true, true, false, allowUnclosedClass));
      if parsed.Err? {
        return Fail(parsed.error);
      }
      patterns := patterns + [parsed.value];
      globs := globs + [glob];
      return Pass;
    }

    // Every line of a file; a bad line is reported and skipped.
    method AddLines(from: Option<string>, lines: seq<string>) returns (errs: seq<LineError>)
      modifies this
      ensures Contents() == AddAll(old(Contents()), from, lines, old(Options())).0
      ensures errs == AddAll(old(Contents()), from, lines, old(Options())).1
      ensures Options() == old(Options())
    {
      hide AddLineTo;
      errs := [];
      assert lines[..0] == [];
      for i := 0 to |lines|
        invariant Options() == old(Options())
        invariant AddAll(old(Contents()), from, lines[..i], old(Options())) == (Contents(), errs)
      {
        var line := if i == 0 then TrimBom(lines[i]) else lines[i];
        assert lines[..i + 1][..i] == lines[..i];
        var r := AddLine(from, line);
        if r.Fail? {
          errs := errs + [LineError(i + 1, r.error)];
        }
      }
      assert lines[..|lines|] == lines;
    }

    method Build() returns (gi: Gitignore)
      requires Aligned(Contents())
      ensures gi.BuiltFrom(Contents()) && gi.root == root
    {
      hide GlobSet.Represents, Aligned;
      var nignore, nwhite := CountRules(globs);
      CountsAddUp(globs);
      var set_ := New(patterns);
      assert set_.len == |patterns| by {
        RepresentsLength(set_, patterns);
      }
      AlignedLength(Contents());
      return Gitignore(set_, root, globs, nignore, nwhite);
    }
  }

  lemma RepresentsLength(set_: GlobSet, patterns: seq<Glob>)
    requires set_.Represents(patterns)
    ensures set_.len == |patterns|
  {
  }

  lemma AlignedLength(list: RuleList)
    requires Aligned(list)
    ensures |list.patterns| == |list.rules|
  {
  }

  method CountRules(globs: seq<IgnoreGlob>) returns (nignore: nat, nwhite: nat)
    ensures nignore == CountIgnores(globs) && nwhite == CountWhitelists(globs)
  {
    nignore, nwhite := 0, 0;
    assert globs[..0] == [];
    for i := 0 to |globs|
      invariant nignore == CountIgnores(globs[..i]) && nwhite == CountWhitelists(globs[..i])
    {
      assert globs[..i + 1] == globs[..i] + [globs[i]];
      CountsAppend(globs[..i], globs[i]);
      if globs[i].isWhitelist {
        nwhite := nwhite + 1;
      } else {
        nignore := nignore + 1;
      }
    }
    assert globs[..|globs|] == globs;
  }

  lemma {:induction false} CountsAppend(rules: seq<IgnoreGlob>, g: IgnoreGlob)
    ensures CountIgnores(rules + [g]) == CountIgnores(rules) + (if g.isWhitelist then 0 else 1)
    ensures CountWhitelists(rules + [g]) == CountWhitelists(rules) + (if g.isWhitelist then 1 else 0)
  {
    if rules == [] {
      assert rules + [g] == [g];
    } else {
      CountsAppend(rules[1..], g);
      assert (rules + [g])[1..] == rules[1..] + [g];
    }
  }

  // A trimmed, non-empty line that is not a comment.
  method ReadRule(from: Option<string>, text: string) returns (glob: IgnoreGlob)
    requires text != ""
    ensures var marked := StripMarkers(text);
            glob == IgnoreGlob(from, text, AnchorGlob(StripDirSlash(marked.line), marked.isAbsolute), marked.isWhitelist,
                               EndsWith(marked.line, "/"))
  {
    hide StripMarkers, StripDirSlash, AnchorGlob;
    var marked := ReadMarkers(text);
    var line, isOnlyDir := ReadDirSlash(marked.line);
    var actual := ReadAnchor(line, marked.isAbsolute);
    return IgnoreGlob(from, text, actual, marked.isWhitelist, isOnlyDir);
  }

  method ReadMarkers(text: string) returns (marked: Marked)
    requires text != ""
    ensures marked == StripMarkers(text)
  {
    var line, isAbsolute, isWhitelist := text, false, false;
    if StartsWith(line, "\\!") || StartsWith(line, "\\#") {
      line := line[1..];
      isAbsolute := line[0] == '/';
    } else {
      if StartsWith(line, "!") {
        isWhitelist := true;
        line := line[1..];
      }
      if StartsWith(line, "/") {
        line := line[1..];
        isAbsolute := true;
      }
    }
    return Marked(isWhitelist, isAbsolute, line);
  }

  method ReadDirSlash(text: string) returns (line: string, isOnlyDir: bool)
    ensures line == StripDirSlash(text) && isOnlyDir == EndsWith(text, "/")
  {
    line, isOnlyDir := text, false;
    LastChar(line, '/');
    if line != "" && line[|line| - 1] == '/' {
      isOnlyDir := true;
      line := line[..|line| - 1];
      LastChar(line, '\\');
      if line != "" && line[|line| - 1] == '\\' {
        line := line[..|line| - 1];
      }
    }
  }

  lemma LastChar(s: string, c: char)
    ensures EndsWith(s, [c]) <==> s != "" && s[|s| - 1] == c
  {
    if s != "" {
      assert s[|s| - 1..] == [s[|s| - 1]];
    }
  }

  method ReadAnchor(line: string, isAbsolute: bool) returns (actual: string)
    ensures actual == AnchorGlob(line, isAbsolute)
  {
    actual := line;
    if !isAbsolute && '/' !in line {
      if !(StartsWith(actual, "**/") || actual == "**") {
        actual := "**/" + actual;
      }
    }
    if EndsWith(actual, "/**") {
      actual := actual + "/*";
    }
  }

  // A byte order mark in front of the first line is no part of it.
  function TrimBom(line: string): string {
    if line != "" && line[0] == BOM then TrimBom(line[1..]) else line
  }

  function LineAt(lines: seq<string>, i: nat): string
    requires i < |lines|
  {
    if i == 0 then TrimBom(lines[i]) else lines[i]
  }

  // The rules and the errors after all lines.
  function AddAll(list: RuleList, from: Option<string>, lines: seq<string>, opts: GlobOptions): (RuleList, seq<LineError>) {
    if lines == [] then (list, [])
    else
      var n := |lines| - 1;
      var (before, errs) := AddAll(list, from, lines[..n], opts);
      var added := AddLineTo(before, from, LineAt(lines, n), opts);
      (added.list, match added.error case None => errs case Some(e) => errs + [LineError(n + 1, e)])
  }

  // The rule of a line: the glob and its parse, if there are any.
  function RuleOf(from: Option<string>, line: string, opts: GlobOptions): Option<(IgnoreGlob, Glob)> {
    match LineGlob(from, line)
    case None => None
    case Some(g) =>
      match GlobParser.Build(g.actual, opts)
      case Err(_) => None
      case Ok(p) => Some((g, p))
  }

  // The documented meaning of a file: the last line that is a rule and applies decides. Comments,
  // blank lines and lines that do not parse play no part.
  function FileVerdict(from: Option<string>, lines: seq<string>, opts: GlobOptions, path: seq<byte>, isDir: bool): Match<IgnoreGlob> {
    if lines == [] then NoMatch
    else
      var n := |lines| - 1;
      var rule := RuleOf(from, LineAt(lines, n), opts);
      if rule.Some? && Applies(rule.value.1, rule.value.0, path, isDir) then Verdict(rule.value.0)
      else FileVerdict(from, lines[..n], opts, path, isDir)
  }

  // The last line decides if it is a rule that applies, else the lines before it do.
  lemma LastLine(from: Option<string>, lines: seq<string>, opts: GlobOptions, path: seq<byte>, isDir: bool)
    requires lines != []
    ensures var n := |lines| - 1;
            var rule := RuleOf(from, LineAt(lines, n), opts);
            FileVerdict(from, lines, opts, path, isDir)
            == if rule.Some? && Applies(rule.value.1, rule.value.0, path, isDir) then Verdict(rule.value.0)
               else FileVerdict(from, lines[..n], opts, path, isDir)
  {
    hide RuleOf, Applies, Verdict, LineAt;
  }

  lemma AddedVerdict(list: RuleList, from: Option<string>, line: string, opts: GlobOptions, path: seq<byte>, isDir: bool)
    requires Aligned(list)
    ensures var added, rule := AddLineTo(list, from, line, opts).list, RuleOf(from, line, opts);
            && Aligned(added)
            && LastVerdict(added, path, isDir) ==
               if rule.Some? && Applies(rule.value.1, rule.value.0, path, isDir) then Verdict(rule.value.0)
               else LastVerdict(list, path, isDir)
  {
    AddLineKeepsAligned(list, from, line, opts);
    hide LineGlob, GlobParser.Build, Applies, Verdict;
    var rule := RuleOf(from, line, opts);
    if rule.Some? {
      var (g, p) := rule.value;
      var n := |list.rules|;
      assert (list.patterns + [p])[..n] == list.patterns && (list.rules + [g])[..n] == list.rules;
    }
  }

  // Whatever lines are added, failing ones included, the lists stay aligned and the naive scan of
  // the collected rules gives the verdict of the file.
  lemma {:induction false} LinesDecide(from: Option<string>, lines: seq<string>, opts: GlobOptions, path: seq<byte>, isDir: bool)
    ensures var list := AddAll(NO_RULES, from, lines, opts).0;
            Aligned(list) && LastVerdict(list, path, isDir) == FileVerdict(from, lines, opts, path, isDir)
  {
    if lines == [] {
    } else {
      hide LineGlob, GlobParser.Build, Applies, Verdict, Aligned, RuleOf, AddLineTo, LineAt, LastVerdict;
      var n := |lines| - 1;
      LinesDecide(from, lines[..n], opts, path, isDir);
      AddedVerdict(AddAll(NO_RULES, from, lines[..n], opts).0, from, LineAt(lines, n), opts, path, isDir);
    }
  }

  // From the lines of a file in a directory to the verdict about a path.
  method MatchFile(root: seq<byte>, from: Option<string>, lines: seq<string>, caseInsensitive: bool, allowUnclosedClass: bool,
                   path: seq<byte>, isDir: bool)
    returns (m: Match<IgnoreGlob>)
    ensures m == FileVerdict(from, lines, LineOptions(caseInsensitive, allowUnclosedClass), Strip(CleanRoot(root), path), isDir)
    ensures var rel, list := Strip(CleanRoot(root), path), AddAll(NO_RULES, from, lines, LineOptions(caseInsensitive, allowUnclosedClass)).0;
            LastComponent(rel) != DOT_DOT ==> |list.patterns| == |list.rules| && m == LastByExpression(list, rel, isDir)
  {
    hide AddAll, FileVerdict, LastVerdict, LastByExpression, LastComponent, Aligned, Gitignore.BuiltFrom, Strip;
    var builder := new GitignoreBuilder(root);
    builder.caseInsensitive := caseInsensitive;
    builder.allowUnclosedClass := allowUnclosedClass;
    var _ := builder.AddLines(from, lines);
    LinesDecide(from, lines, LineOptions(caseInsensitive, allowUnclosedClass), Strip(CleanRoot(root), path), isDir);
    AlignedLength(builder.Contents());
    var gi := builder.Build();
    m := gi.Matched(path, isDir, builder.Contents());
  }
}
