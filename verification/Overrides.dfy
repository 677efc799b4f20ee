/**
 Override globs: lines of gitignore syntax with the meaning of `!` inverted, where naming what to
 include excludes every other file.
 */
module Overrides {
  import opened Wrappers
  import opened Utf8
  import opened Tokens
  import opened Compiler
  import opened Paths
  import opened RelativePaths
  import opened Matching
  import opened Gitignore
  import opened GitignoreBuilding
  import opened LineTexts

  datatype OverrideGlob = UnmatchedIgnore | Matched(glob: IgnoreGlob)

  datatype Override = Override(inner: Gitignore) {

    method Matched(path: seq<byte>, isDir: bool, ghost list: RuleList) returns (m: Match<OverrideGlob>)
      requires inner.BuiltFrom(list)
      ensures m == OverrideVerdict(list.rules, MatcherOf(list, inner.root)(path, isDir), isDir)
      ensures match MatcherOf(list, inner.root)(path, isDir)
              case Ignore(g) => m == Whitelist(OverrideGlob.Matched(g))
              case Whitelist(g) => m == Ignore(OverrideGlob.Matched(g))
              case NoMatch =>
                m == if !isDir && exists g :: g in list.rules && !g.isWhitelist then Ignore(UnmatchedIgnore) else NoMatch
    {
      if inner.set_.len == 0 {
        NoRulesNoVerdict(list, Strip(inner.root, path), isDir);
        return NoMatch;
      }
      var found := inner.Matched(path, isDir, list);
      var mat := found.Invert();
      IncludesCounted(list.rules);
      if mat.NoMatch? && inner.numIgnores > 0 && !isDir {
        return Ignore(UnmatchedIgnore);
      }
      m := mat.Map((g: IgnoreGlob) => OverrideGlob.Matched(g));
    }
  }

  // Some override names what to include.
  predicate HasInclude(rules: seq<IgnoreGlob>) {
    exists g | g in rules :: !g.isWhitelist
  }

  // The verdict, given what the lines would say as gitignore lines.
  function OverrideVerdict(rules: seq<IgnoreGlob>, asLines: Match<IgnoreGlob>, isDir: bool): Match<OverrideGlob> {
    match asLines
    case Ignore(g) => Whitelist(OverrideGlob.Matched(g))
    case Whitelist(g) => Ignore(OverrideGlob.Matched(g))
    case NoMatch => if HasInclude(rules) && !isDir then Ignore(UnmatchedIgnore) else NoMatch
  }

  lemma {:induction false} IncludesCounted(rules: seq<IgnoreGlob>)
    ensures CountIgnores(rules) > 0 <==> HasInclude(rules)
  {
    if rules == [] {
    } else {
      IncludesCounted(rules[1..]);
      assert rules == [rules[0]] + rules[1..];
    }
  }

  // The verdict of a rule found by scanning back is that rule's own.
  lemma {:induction false} LastVerdictIsOwn(list: RuleList, path: seq<byte>, isDir: bool)
    requires |list.patterns| == |list.rules|
    ensures var m := LastVerdict(list, path, isDir);
            !m.NoMatch? ==> m.inner in list.rules && m == Verdict(m.inner)
    decreases |list.rules|
  {
    var n := |list.rules| - 1;
    if n < 0 {
    } else {
      LastVerdictIsOwn(RuleList(list.patterns[..n], list.rules[..n]), path, isDir);
    }
  }

  // With at least one including override, every file gets a verdict: it is included exactly if the
  // last override that applies to it is an including one, and ignored otherwise.
  lemma IncludesDecideEveryFile(list: RuleList, path: seq<byte>)
    requires |list.patterns| == |list.rules| && HasInclude(list.rules)
    ensures var m, asLines := OverrideVerdict(list.rules, LastVerdict(list, path, false), false), LastVerdict(list, path, false);
            && !m.NoMatch?
            && (m.Whitelist? <==> !asLines.NoMatch? && !asLines.inner.isWhitelist)
  {
    LastVerdictIsOwn(list, path, false);
  }

  // An override applies to the path.
  predicate OverrideApplies(list: RuleList, k: nat, path: seq<byte>, isDir: bool)
    requires k < |list.rules| == |list.patterns|
  {
    GlobMatches(list.patterns[k], path) && (list.rules[k].isOnlyDir ==> isDir)
  }

  // The last override that applies includes the path, or ignores it if it is written with `!`.
  lemma LastOverrideDecides(list: RuleList, k: nat, path: seq<byte>, isDir: bool)
    requires |list.patterns| == |list.rules| && k < |list.rules| && LastComponent(path) != DOT_DOT
    requires OverrideApplies(list, k, path, isDir)
    requires forall j: nat | k < j < |list.rules| :: !OverrideApplies(list, j, path, isDir)
    ensures OverrideVerdict(list.rules, LastVerdict(list, path, isDir), isDir)
         == if list.rules[k].isWhitelist then Ignore(OverrideGlob.Matched(list.rules[k]))
            else Whitelist(OverrideGlob.Matched(list.rules[k]))
  {
    hide LastVerdict, GlobMatches, LastComponent;
    assert forall j: nat | j < |list.rules| ::
        OverrideApplies(list, j, path, isDir) <==> GlobMatches(list.patterns[j], path) && (list.rules[j].isOnlyDir ==> isDir);
    LastApplyingRule(list, k, path, isDir);
  }

  // Where none applies, files are ignored if something else is included; directories are left undecided.
  lemma NoOverrideDecides(list: RuleList, path: seq<byte>, isDir: bool)
    requires |list.patterns| == |list.rules| && LastComponent(path) != DOT_DOT
    requires forall j: nat | j < |list.rules| :: !OverrideApplies(list, j, path, isDir)
    ensures OverrideVerdict(list.rules, LastVerdict(list, path, isDir), isDir)
         == if !isDir && exists j: nat :: j < |list.rules| && !list.rules[j].isWhitelist then Ignore(UnmatchedIgnore) else NoMatch
  {
    hide LastVerdict, GlobMatches, LastComponent;
    assert forall j: nat | j < |list.rules| ::
        OverrideApplies(list, j, path, isDir) <==> GlobMatches(list.patterns[j], path) && (list.rules[j].isOnlyDir ==> isDir);
    NoRuleApplies(list, path, isDir);
    if HasInclude(list.rules) {
      var g :| g in list.rules && !g.isWhitelist;
      var j: nat :| j < |list.rules| && list.rules[j] == g;
      assert !list.rules[j].isWhitelist;
    }
  }

  class OverrideBuilder {
    const builder: GitignoreBuilder

    constructor (root: seq<byte>)
      ensures fresh(builder) && builder.Contents() == NO_RULES && builder.root == CleanRoot(root)
      ensures builder.Options() == LineOptions(false, false)
    {
      builder := new GitignoreBuilder(root);
      new;
      builder.allowUnclosedClass := false;
    }

    method Add(glob: string) returns (r: Outcome<ErrorKind>)
      modifies builder
      ensures var added := AddLineTo(old(builder.Contents()), None, glob, old(builder.Options()));
              && builder.Contents() == added.list && builder.Options() == old(builder.Options())
              && r == match added.error case None => Pass case Some(e) => Fail(e)
    {
      r := builder.AddLine(None, glob);
    }

    method Build() returns (o: Override)
      requires Aligned(builder.Contents())
      ensures o.inner.BuiltFrom(builder.Contents()) && o.inner.root == builder.root
    {
      var gi := builder.Build();
      return Override(gi);
    }
  }
}
