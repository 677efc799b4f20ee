/**
 Matching with the lines of a gitignore file (gitignore(5), section PATTERN FORMAT): the last line
 that matches decides.
 */
module Gitignore {
  import opened Wrappers
  import opened Utf8
  import opened Tokens
  import opened Compiler
  import opened Paths
  import opened RelativePaths
  import opened IndexVectors
  import opened GlobSetMatching
  import opened Matching
  import opened Text
  import GlobParser

  datatype IgnoreGlob = IgnoreGlob(
    from: Option<string>,
    original: string,
    actual: string,
    isWhitelist: bool,
    isOnlyDir: bool
  )

  // ----- from a line to a glob -----

  // What the markers at the start of a line say, and the line without them.
  datatype Marked = Marked(isWhitelist: bool, isAbsolute: bool, line: string)

  function StripMarkers(line: string): Marked {
    if StartsWith(line, "\\!") || StartsWith(line, "\\#") then Marked(false, false, line[1..])
    else
      var negated := StartsWith(line, "!");
      var rest := if negated then line[1..] else line;
      if StartsWith(rest, "/") then Marked(negated, true, rest[1..]) else Marked(negated, false, rest)
  }

  // The line without the slash that restricts it to directories, be it escaped.
  function StripDirSlash(line: string): string {
    if !EndsWith(line, "/") then line
    else
      var open := line[..|line| - 1];
      if EndsWith(open, "\\") then open[..|open| - 1] else open
  }

  // A line without a slash matches at any depth; a trailing `/**` does not match the directory.
  function AnchorGlob(line: string, isAbsolute: bool): string {
    var anywhere := !isAbsolute && '/' !in line && !(StartsWith(line, "**/") || line == "**");
    var actual := if anywhere then "**/" + line else line;
    if EndsWith(actual, "/**") then actual + "/*" else actual
  }

  function Trimmed(line: string): string {
    if EndsWith(line, "\\ ") then line else TrimRight(line)
  }

  // The glob of a line; comments and blank lines have none.
  function LineGlob(from: Option<string>, line: string): Option<IgnoreGlob> {
    if StartsWith(line, "#") then None
    else
      var trimmed := Trimmed(line);
      if trimmed == "" then None
      else
        var marked := StripMarkers(trimmed);
        var open := StripDirSlash(marked.line);
        Some(IgnoreGlob(from, trimmed, AnchorGlob(open, marked.isAbsolute), marked.isWhitelist,
                        EndsWith(marked.line, "/")))
  }

  // The options under which the globs of lines are parsed.
  function LineOptions(caseInsensitive: bool, allowUnclosedClass: bool): GlobOptions {
    GlobOptions(caseInsensitive, true, true, false, allowUnclosedClass)
  }

  // ----- the rules collected from lines -----

  // Rule i is the glob rules[i], parsed to patterns[i].
  datatype RuleList = RuleList(patterns: seq<Glob>, rules: seq<IgnoreGlob>)

  const NO_RULES := RuleList([], [])

  datatype Added = Added(list: RuleList, error: Option<ErrorKind>)

  function AddLineTo(list: RuleList, from: Option<string>, line: string, opts: GlobOptions): Added {
    match LineGlob(from, line)
    case None => Added(list, None)
    case Some(g) =>
      match GlobParser.Build(g.actual, opts)
      case Err(e) => Added(list, Some(e))
      case Ok(p) => Added(RuleList(list.patterns + [p], list.rules + [g]), None)
  }

  // The lists stay aligned: each pattern is the parse of the rule at the same position.
  ghost predicate Aligned(list: RuleList) {
    && |list.patterns| == |list.rules|
    && forall i | 0 <= i < |list.rules| ::
         GlobParser.Build(list.rules[i].actual, list.patterns[i].opts) == Ok(list.patterns[i])
  }

  lemma AddLineKeepsAligned(list: RuleList, from: Option<string>, line: string, opts: GlobOptions)
    requires Aligned(list)
    ensures Aligned(AddLineTo(list, from, line, opts).list)
  {
    hide LineGlob, GlobParser.ParseLoop;
  }

  // The verdict of a rule that matches.
  function Verdict(g: IgnoreGlob): Match<IgnoreGlob> {
    if g.isWhitelist then Whitelist(g) else Ignore(g)
  }

  // Whether a rule applies to a path: its glob matches, and a rule for directories is asked about a
  // directory.
  predicate Applies(p: Glob, g: IgnoreGlob, path: seq<byte>, isDir: bool) {
    SetMatches(p, path) && (!g.isOnlyDir || isDir)
  }

  // Matching is that of the rule's own expression for every path that does not end in `..`.
  lemma AppliesByExpression(p: Glob, g: IgnoreGlob, path: seq<byte>, isDir: bool)
    requires LastComponent(path) != DOT_DOT
    ensures Applies(p, g, path, isDir) <==> GlobMatches(p, path) && (!g.isOnlyDir || isDir)
  {
  }

  // The naive rule: scan from the last rule to the first and take the first that applies.
  function LastVerdict(list: RuleList, path: seq<byte>, isDir: bool): Match<IgnoreGlob>
    requires |list.patterns| == |list.rules|
    decreases |list.rules|
  {
    var n := |list.rules| - 1;
    if n < 0 then NoMatch
    else if Applies(list.patterns[n], list.rules[n], path, isDir) then Verdict(list.rules[n])
    else LastVerdict(RuleList(list.patterns[..n], list.rules[..n]), path, isDir)
  }

  // The documented rule: the last glob whose regular expression matches decides.
  function LastByExpression(list: RuleList, path: seq<byte>, isDir: bool): Match<IgnoreGlob>
    requires |list.patterns| == |list.rules|
    decreases |list.rules|
  {
    var n := |list.rules| - 1;
    if n < 0 then NoMatch
    else if GlobMatches(list.patterns[n], path) && (!list.rules[n].isOnlyDir || isDir) then Verdict(list.rules[n])
    else LastByExpression(RuleList(list.patterns[..n], list.rules[..n]), path, isDir)
  }

  // It is what the scan gives for every path that does not end in `..`.
  lemma {:induction false} LastVerdictByExpression(list: RuleList, path: seq<byte>, isDir: bool)
    requires |list.patterns| == |list.rules| && LastComponent(path) != DOT_DOT
    ensures LastVerdict(list, path, isDir) == LastByExpression(list, path, isDir)
    decreases |list.rules|
  {
    var n := |list.rules| - 1;
    if n < 0 {
    } else {
      AppliesByExpression(list.patterns[n], list.rules[n], path, isDir);
      hide Applies, GlobMatches, LastComponent;
      LastVerdictByExpression(RuleList(list.patterns[..n], list.rules[..n]), path, isDir);
    }
  }

  function CountWhitelists(rules: seq<IgnoreGlob>): nat {
    if rules == [] then 0 else CountWhitelists(rules[1..]) + (if rules[0].isWhitelist then 1 else 0)
  }

  function CountIgnores(rules: seq<IgnoreGlob>): nat {
    if rules == [] then 0 else CountIgnores(rules[1..]) + (if rules[0].isWhitelist then 0 else 1)
  }

  // Every rule is either an ignore rule or a whitelist rule.
  lemma {:induction false} CountsAddUp(rules: seq<IgnoreGlob>)
    ensures CountIgnores(rules) + CountWhitelists(rules) == |rules|
  {
    if rules == [] {
    } else {
      CountsAddUp(rules[1..]);
    }
  }

  // What a matcher built from ignore files says about a path, which may be a directory.
  type Matcher = (seq<byte>, bool) -> Match<IgnoreGlob>

  // The rules of a directory as a matcher.
  function MatcherOf(list: RuleList, root: seq<byte>): Matcher
    requires |list.patterns| == |list.rules|
  {
    (path, isDir) => LastVerdict(list, Strip(root, path), isDir)
  }

  // ----- the matcher -----

  datatype Gitignore = Gitignore(
    set_: GlobSet,
    root: seq<byte>,
    globs: seq<IgnoreGlob>,
    numIgnores: nat,
    numWhitelists: nat
  ) {
    // The matcher was built from these rules.
    ghost predicate BuiltFrom(list: RuleList) {
      && Aligned(list)
      && globs == list.rules
      && set_.Represents(list.patterns)
      && numIgnores == CountIgnores(list.rules) && numWhitelists == CountWhitelists(list.rules)
      && numIgnores + numWhitelists == set_.len
    }

    method Matched(path: seq<byte>, isDir: bool, ghost list: RuleList) returns (m: Match<IgnoreGlob>)
      requires BuiltFrom(list)
      ensures m == MatcherOf(list, root)(path, isDir)
      ensures LastComponent(Strip(root, path)) != DOT_DOT ==> m == LastByExpression(list, Strip(root, path), isDir)
    {
      hide LastByExpression, LastComponent;
      if LastComponent(Strip(root, path)) != DOT_DOT {
        LastVerdictByExpression(list, Strip(root, path), isDir);
      }
      if set_.len == 0 {
        NoRulesNoVerdict(list, Strip(root, path), isDir);
        return NoMatch;
      }
      m := MatchedStripped(Strip(root, path), isDir, list);
    }

    method MatchedStripped(path: seq<byte>, isDir: bool, ghost list: RuleList) returns (m: Match<IgnoreGlob>)
      requires BuiltFrom(list)
      ensures m == LastVerdict(list, path, isDir)
      ensures LastComponent(path) != DOT_DOT ==> m == LastByExpression(list, path, isDir)
    {
      hide GlobSet.Represents, LastVerdict, LastByExpression, ScanBack, SetPositions, MatchingPositions, LastComponent;
      if LastComponent(path) != DOT_DOT {
        LastVerdictByExpression(list, path, isDir);
      }
      if set_.len == 0 {
        NoRulesNoVerdict(list, path, isDir);
        return NoMatch;
      }
      var matches := new IndexVector();
      set_.MatchesInto(path, matches, list.patterns);
      ScanBackIsLastVerdict(list, path, isDir);
      m := ScanMatches(matches.items, isDir);
    }

    method ScanMatches(matches: seq<nat>, isDir: bool) returns (m: Match<IgnoreGlob>)
      requires AllBelow(matches, |globs|)
      ensures m == ScanBack(globs, matches, isDir)
    {
      var k := |matches|;
      assert matches[..k] == matches;
      while k > 0
        invariant 0 <= k <= |matches|
        invariant ScanBack(globs, matches, isDir) == ScanBack(globs, matches[..k], isDir)
      {
        k := k - 1;
        assert matches[..k + 1][..k] == matches[..k];
        var glob := globs[matches[k]];
        if !glob.isOnlyDir || isDir {
          return if glob.isWhitelist then Whitelist(glob) else Ignore(glob);
        }
      }
      return NoMatch;
    }

    // The path itself and then the directories above it, nearest first, until one has a verdict.
    // The path is expected to be under the root.
    method MatchedPathOrAnyParents(path: seq<byte>, isDir: bool, ghost list: RuleList) returns (m: Match<IgnoreGlob>)
      requires BuiltFrom(list) && (set_.len > 0 ==> !HasRoot(Strip(root, path)))
      ensures !HasRoot(Strip(root, path)) ==> m == VerdictFromBelow(list, Strip(root, path), isDir)
    {
      hide LastVerdict, ParentOf, Strip;
      if set_.len == 0 {
        if !HasRoot(Strip(root, path)) {
          NoRulesNowhere(list, Strip(root, path), isDir);
        }
        return NoMatch;
      }
      var current := Strip(root, path);
      m := MatchedStripped(current, isDir, list);
      if !m.NoMatch? {
        return;
      }
      while ParentOf(current).Some?
        invariant !HasRoot(current)
        invariant m.NoMatch?
        invariant VerdictFromBelow(list, Strip(root, path), isDir) == VerdictAbove(list, current)
        decreases |current|
      {
        var parent := ParentOf(current).value;
        m := MatchedStripped(parent, true, list);
        if !m.NoMatch? {
          return;
        }
        current := parent;
      }
    }
  }

  // The verdict of the nearest directory above a path that has one.
  function VerdictAbove(list: RuleList, path: seq<byte>): Match<IgnoreGlob>
    requires |list.patterns| == |list.rules| && !HasRoot(path)
    decreases |path|
  {
    match ParentOf(path)
    case None => NoMatch
    case Some(dir) => Or(LastVerdict(list, dir, true), VerdictAbove(list, dir))
  }

  function VerdictFromBelow(list: RuleList, path: seq<byte>, isDir: bool): Match<IgnoreGlob>
    requires |list.patterns| == |list.rules| && !HasRoot(path)
  {
    Or(LastVerdict(list, path, isDir), VerdictAbove(list, path))
  }

  lemma NoRulesNoVerdict(list: RuleList, path: seq<byte>, isDir: bool)
    requires |list.patterns| == |list.rules| == 0
    ensures LastVerdict(list, path, isDir).NoMatch?
  {
  }

  lemma {:induction false} NoRulesNowhere(list: RuleList, path: seq<byte>, isDir: bool)
    requires |list.patterns| == |list.rules| == 0 && !HasRoot(path)
    ensures VerdictFromBelow(list, path, isDir).NoMatch?
    decreases |path|
  {
    NoRulesNoVerdict(list, path, isDir);
    if path == [] {
    } else {
      NoRulesNowhere(list, ParentOf(path).value, true);
    }
  }

  predicate AllBelow(positions: seq<nat>, n: nat) {
    forall k | 0 <= k < |positions| :: positions[k] < n
  }

  lemma PositionsInRange(globs: seq<Glob>, path: seq<byte>)
    ensures AllBelow(SetPositions(globs, path), |globs|)
  {
    var r := SetPositions(globs, path);
    forall k | 0 <= k < |r|
      ensures r[k] < |globs|
    {
      assert r[k] in r;
    }
  }

  // The scan over the positions that the set reports.
  function ScanBack(globs: seq<IgnoreGlob>, positions: seq<nat>, isDir: bool): Match<IgnoreGlob>
    requires AllBelow(positions, |globs|)
  {
    if positions == [] then NoMatch
    else
      var g := globs[positions[|positions| - 1]];
      if !g.isOnlyDir || isDir then Verdict(g) else ScanBack(globs, positions[..|positions| - 1], isDir)
  }

  lemma {:induction false} ScanBackIgnoresLater(globs: seq<IgnoreGlob>, n: nat, positions: seq<nat>, isDir: bool)
    requires n <= |globs| && AllBelow(positions, n)
    ensures ScanBack(globs[..n], positions, isDir) == ScanBack(globs, positions, isDir)
  {
    if positions == [] {
    } else {
      ScanBackIgnoresLater(globs, n, positions[..|positions| - 1], isDir);
    }
  }

  // Scanning the positions of the matching globs is the naive rule.
  lemma {:induction false} ScanBackIsLastVerdict(list: RuleList, path: seq<byte>, isDir: bool)
    requires |list.patterns| == |list.rules|
    ensures AllBelow(SetPositions(list.patterns, path), |list.rules|)
    ensures ScanBack(list.rules, SetPositions(list.patterns, path), isDir) == LastVerdict(list, path, isDir)
    decreases |list.rules|
  {
    hide SetMatches;
    PositionsInRange(list.patterns, path);
    var n := |list.rules| - 1;
    if n < 0 {
    } else {
      var front := SetPositions(list.patterns[..n], path);
      var below := RuleList(list.patterns[..n], list.rules[..n]);
      ScanBackIsLastVerdict(below, path, isDir);
      ScanBackIgnoresLater(list.rules, n, front, isDir);
      assert (front + [n])[..|front|] == front;
    }
  }
}
