/**
 What the rules of a chain of directories say, told by their matchers alone: which of them is asked what,
 which one decides, and what it then says.
 */
module ChainVerdicts {
  import opened Wrappers
  import opened Utf8
  import opened Tokens
  import opened RelativePaths
  import opened Matching
  import opened Gitignore
  import opened GitignoreBuilding
  import opened LineMeanings
  import opened LineTexts
  import opened IgnoreChains
  import opened ChainRules

  // ----- who is asked what -----

  // The levels are linked by their parents, from the directory itself to the last one.
  lemma {:induction false} ChainIsLinked(ig: IgnoreInner)
    ensures var levels := Chain(Some(ig));
            && levels != [] && levels[0] == ig && levels[|levels| - 1].parent == None
            && forall i | 0 <= i < |levels| - 1 :: levels[i].parent == Some(levels[i + 1])
    decreases ig
  {
    if ig.parent.Some? {
      ChainIsLinked(ig.parent.value);
    }
  }

  lemma {:induction false} NearThenFar(ig: Option<IgnoreInner>)
    ensures Chain(ig) == Near(ig) + Far(ig)
    ensures forall i | 0 <= i < |Near(ig)| :: !Near(ig)[i].isAbsoluteParent
    ensures Far(ig) != [] ==> Far(ig)[0].isAbsoluteParent
    decreases ig
  {
    if ig.Some? && !ig.value.isAbsoluteParent {
      NearThenFar(ig.value.parent);
    }
  }

  // The levels below the first absolute parent are asked about the path itself. The others are asked
  // about the path below the absolute base, if parents are wanted and the base is known.
  lemma AskedLevels(ig: IgnoreInner, path: seq<byte>) returns (n: nat)
    ensures var levels, asked := Chain(Some(ig)), Questions(ig, path);
            && n <= |levels| && (forall i | 0 <= i < n :: !levels[i].isAbsoluteParent)
            && (n < |levels| ==> levels[n].isAbsoluteParent)
            && |asked| == (if ig.shared.opts.parents && ig.absoluteBase.Some? then |levels| else n)
            && (forall i | 0 <= i < n :: asked[i] == Question(levels[i], path))
            && (forall i | n <= i < |asked| :: asked[i] == Question(levels[i], Rerooted(ig, path)))
  {
    hide Chain, Near, Far, Rerooted;
    NearThenFar(Some(ig));
    var near, far := Near(Some(ig)), Far(Some(ig));
    n := |near|;
    Joint(near, far);
  }

  lemma Joint<T>(a: seq<T>, b: seq<T>)
    ensures |a + b| == |a| + |b|
    ensures forall i | 0 <= i < |a| :: (a + b)[i] == a[i]
    ensures forall i | |a| <= i < |a| + |b| :: (a + b)[i] == b[i - |a|]
  {
  }

  lemma {:induction false} LastNear(top: Option<IgnoreInner>, levels: seq<IgnoreInner>)
    ensures Last(top, levels) == if levels == [] then top else Some(levels[|levels| - 1])
  {
  }

  // A path inside the directory where the walk began, however that is written, is asked about under
  // the absolute base.
  lemma PathUnderBase(ig: IgnoreInner, base: seq<byte>, top: IgnoreInner, dir: seq<byte>, rest: seq<byte>)
    requires ig.absoluteBase == Some(base) && !HasRoot(rest)
    requires Near(Some(ig)) != [] && top == Near(Some(ig))[|Near(Some(ig))| - 1]
    requires top.dir == [DOT] || (!IsDot(top.dir) && (top.dir == [DOT, SLASH] + dir || (top.dir == dir && !([DOT, SLASH] <= dir))))
    ensures var under := if base == [SLASH] then [SLASH] + rest else base + [SLASH] + rest;
            base != [] && (base == [SLASH] || base[|base| - 1] != SLASH) ==>
              Rerooted(ig, if top.dir == [DOT] then rest else dir + [SLASH] + rest) == under
  {
    hide IsDot, Near, FromTop;
    assert Topmost(ig) == Some(top);
    PathFromTop(top, dir, rest);
  }

  lemma PathFromTop(top: IgnoreInner, dir: seq<byte>, rest: seq<byte>)
    requires !HasRoot(rest)
    requires top.dir == [DOT] || (!IsDot(top.dir) && (top.dir == [DOT, SLASH] + dir || (top.dir == dir && !([DOT, SLASH] <= dir))))
    ensures FromTop(Some(top), if top.dir == [DOT] then rest else dir + [SLASH] + rest) == rest
  {
    assert IsDot([DOT]);
    hide IsDot;
    if top.dir != [DOT] {
      var path := dir + [SLASH] + rest;
      assert ([DOT, SLASH] + dir)[2..] == dir;
      assert WithoutPrefix(DOT_SLASH, top.dir) == dir;
      assert dir <= path && path[|dir|..] == [SLASH] + rest;
      assert ([SLASH] + rest)[1..] == rest;
    }
  }

  // Git rules apply where no repository is required or some level is one.
  lemma GitAppliesExactly(ig: IgnoreInner)
    ensures GitApplies(ig) <==> !ig.shared.opts.requireGit || exists level :: level in Chain(Some(ig)) && level.hasGit
  {
    var levels := Chain(Some(ig));
    if level :| level in levels && level.hasGit {
      var i: nat :| i < |levels| && levels[i] == level;
      assert levels[i].hasGit;
    }
    if i: nat :| i < |levels| && levels[i].hasGit {
      assert levels[i] in levels;
    }
  }

  // ----- who decides -----

  function Rank(source: Source): nat {
    match source
    case Custom => 0
    case DotIgnore => 1
    case DotGitignore => 2
    case Exclude => 3
  }

  function MatcherAt(asked: seq<Question>, i: nat, source: Source): Matcher
    requires i < |asked|
  {
    match source
    case Custom => asked[i].level.custom
    case DotIgnore => asked[i].level.dotIgnore
    case DotGitignore => asked[i].level.dotGitignore
    case Exclude => asked[i].level.exclude
  }

  // Level i has something to say, and is listened to: git rules count if they apply at all and no level
  // below is a repository.
  predicate Speaks(asked: seq<Question>, i: nat, source: Source, anyGit: bool, isDir: bool) {
    && i < |asked| && MatcherAt(asked, i, source)(asked[i].path, isDir) != NoMatch
    && (Rank(source) >= 2 ==> anyGit && forall j: nat | j < i :: !asked[j].level.hasGit)
  }

  // The same with the glob in it.
  predicate SaysSo(m: Match<IgnoreMatch>, verdict: Match<IgnoreGlob>) {
    match verdict
    case Ignore(g) => m == Ignore(GitignoreMatch(g))
    case Whitelist(g) => m == Whitelist(GitignoreMatch(g))
    case NoMatch => m == NoMatch
  }

  lemma SaidSo(matcher: Matcher, path: seq<byte>, isDir: bool)
    ensures SaysSo(Said(matcher, path, isDir), matcher(path, isDir))
  {
  }

  // What one source comes to.
  function OfSource(source: Source, asked: seq<Question>, anyGit: bool, isDir: bool): Match<IgnoreMatch> {
    if Rank(source) < 2 then Nearest(source, asked, isDir) else NearestInRepository(source, asked, isDir, anyGit)
  }

  lemma MatcherIsOf(asked: seq<Question>, i: nat, source: Source, isDir: bool)
    requires i < |asked|
    ensures SaysSo(Says(source, asked[i], isDir), MatcherAt(asked, i, source)(asked[i].path, isDir))
  {
    SaidSo(MatcherAt(asked, i, source), asked[i].path, isDir);
  }

  // A source without a speaker has no verdict.
  lemma {:induction false} SilentSource(source: Source, asked: seq<Question>, anyGit: bool, isDir: bool)
    requires forall i: nat :: !Speaks(asked, i, source, anyGit, isDir)
    ensures OfSource(source, asked, anyGit, isDir) == NoMatch
  {
    hide Nearest, InRepository, Says, SaysSo;
    if SilentBelow(source, asked, |asked|, isDir) {
      SilenceHasNoVerdict(source, asked, isDir);
    } else {
      var i := FirstToSay(source, asked, isDir);
      MatcherIsOf(asked, i, source, isDir);
      SilenceIsSaid(Says(source, asked[i], isDir), MatcherAt(asked, i, source)(asked[i].path, isDir));
      assert !Speaks(asked, i, source, anyGit, isDir);
      if Rank(source) >= 2 && anyGit {
        RepositoryDecides(source, asked, i, isDir);
      }
    }
  }

  lemma SilenceIsSaid(m: Match<IgnoreMatch>, verdict: Match<IgnoreGlob>)
    requires SaysSo(m, verdict)
    ensures m.NoMatch? <==> verdict == NoMatch
  {
  }

  lemma FirstToSay(source: Source, asked: seq<Question>, isDir: bool) returns (i: nat)
    requires !SilentBelow(source, asked, |asked|, isDir)
    ensures i < |asked| && SilentBelow(source, asked, i, isDir) && !Says(source, asked[i], isDir).NoMatch?
  {
    hide Says;
    i := 0;
    while Says(source, asked[i], isDir).NoMatch?
      invariant i < |asked| && SilentBelow(source, asked, i, isDir)
      decreases |asked| - i
    {
      i := i + 1;
    }
  }

  // The first speaker of a source gives its verdict.
  lemma {:induction false} FirstSpeaker(source: Source, asked: seq<Question>, i: nat, anyGit: bool, isDir: bool)
    requires Speaks(asked, i, source, anyGit, isDir)
    requires forall j: nat | j < i :: !Speaks(asked, j, source, anyGit, isDir)
    ensures SaysSo(OfSource(source, asked, anyGit, isDir), MatcherAt(asked, i, source)(asked[i].path, isDir))
  {
    hide Nearest, InRepository, Says, SaysSo;
    forall j: nat | j <= i
      ensures Says(source, asked[j], isDir).NoMatch? <==> MatcherAt(asked, j, source)(asked[j].path, isDir) == NoMatch
    {
      MatcherIsOf(asked, j, source, isDir);
      SilenceIsSaid(Says(source, asked[j], isDir), MatcherAt(asked, j, source)(asked[j].path, isDir));
    }
    MatcherIsOf(asked, i, source, isDir);
    forall j: nat | j < i
      ensures Says(source, asked[j], isDir).NoMatch?
    {
      assert !Speaks(asked, j, source, anyGit, isDir);
    }
    NearestDecides(source, asked, i, isDir);
    RepositoryDecides(source, asked, i, isDir);
  }

  lemma FourSources(ig: IgnoreInner, path: seq<byte>, isDir: bool)
    ensures var asked, anyGit := Questions(ig, path), GitApplies(ig);
            var global := if anyGit then Said(ig.shared.gitGlobal, path, isDir) else NoMatch;
            RulesVerdict(ig, path, isDir)
            == Or(OfSource(Custom, asked, anyGit, isDir),
                  Or(OfSource(DotIgnore, asked, anyGit, isDir),
                     Or(OfSource(DotGitignore, asked, anyGit, isDir),
                        Or(OfSource(Exclude, asked, anyGit, isDir),
                           Or(global, LastSaid(ig.shared.explicitIgnores, path, isDir))))))
  {
    hide Nearest, NearestInRepository, Said, LastSaid, Questions, GitApplies;
    var asked, anyGit := Questions(ig, path), GitApplies(ig);
    var a, b := Nearest(Custom, asked, isDir), Nearest(DotIgnore, asked, isDir);
    var c, d := NearestInRepository(DotGitignore, asked, isDir, anyGit), NearestInRepository(Exclude, asked, isDir, anyGit);
    var e, f := if anyGit then Said(ig.shared.gitGlobal, path, isDir) else NoMatch, LastSaid(ig.shared.explicitIgnores, path, isDir);
    FirstOfSix(a, b, c, d, e, f);
  }

  // Of all the speakers, the one with the first source decides, and of those the nearest.
  lemma SpeakerDecides(ig: IgnoreInner, path: seq<byte>, isDir: bool, source: Source, i: nat)
    requires Speaks(Questions(ig, path), i, source, GitApplies(ig), isDir)
    requires forall s: Source, j: nat | Rank(s) < Rank(source) || (s == source && j < i) ::
               !Speaks(Questions(ig, path), j, s, GitApplies(ig), isDir)
    ensures var q := Questions(ig, path)[i];
            SaysSo(RulesVerdict(ig, path, isDir), MatcherAt(Questions(ig, path), i, source)(q.path, isDir))
  {
    hide OfSource, RulesVerdict, Speaks, Questions, GitApplies, Said, LastSaid;
    var asked, anyGit := Questions(ig, path), GitApplies(ig);
    FourSources(ig, path, isDir);
    forall s: Source | Rank(s) < Rank(source)
      ensures OfSource(s, asked, anyGit, isDir) == NoMatch
    {
      SilentSource(s, asked, anyGit, isDir);
    }
    FirstSpeaker(source, asked, i, anyGit, isDir);
    SpeakerSpeaks(asked, i, source, anyGit, isDir);
    match source
    case Custom =>
    case DotIgnore => assert Rank(Custom) < Rank(source);
    case DotGitignore => assert Rank(Custom) < Rank(source) && Rank(DotIgnore) < Rank(source);
    case Exclude => assert Rank(Custom) < Rank(source) && Rank(DotIgnore) < Rank(source) && Rank(DotGitignore) < Rank(source);
  }

  lemma SpeakerSpeaks(asked: seq<Question>, i: nat, source: Source, anyGit: bool, isDir: bool)
    requires Speaks(asked, i, source, anyGit, isDir)
    ensures i < |asked| && MatcherAt(asked, i, source)(asked[i].path, isDir) != NoMatch
  {
  }

  // Where no level speaks, the global git rules decide if git rules apply; then the explicit files.
  lemma NoLevelSpeaks(ig: IgnoreInner, path: seq<byte>, isDir: bool)
    requires forall s: Source, j: nat :: !Speaks(Questions(ig, path), j, s, GitApplies(ig), isDir)
    ensures GitApplies(ig) && ig.shared.gitGlobal(path, isDir) != NoMatch ==>
              SaysSo(RulesVerdict(ig, path, isDir), ig.shared.gitGlobal(path, isDir))
    ensures !GitApplies(ig) || ig.shared.gitGlobal(path, isDir) == NoMatch ==>
              RulesVerdict(ig, path, isDir) == LastSaid(ig.shared.explicitIgnores, path, isDir)
  {
    hide OfSource, RulesVerdict, Speaks, Questions, GitApplies, LastSaid;
    var asked, anyGit := Questions(ig, path), GitApplies(ig);
    FourSources(ig, path, isDir);
    SilentSource(Custom, asked, anyGit, isDir);
    SilentSource(DotIgnore, asked, anyGit, isDir);
    SilentSource(DotGitignore, asked, anyGit, isDir);
    SilentSource(Exclude, asked, anyGit, isDir);
    SaidSo(ig.shared.gitGlobal, path, isDir);
  }

  // Of explicit files the last one that says something decides.
  lemma {:induction false} LastExplicitDecides(files: seq<Matcher>, k: nat, path: seq<byte>, isDir: bool)
    requires k < |files| && files[k](path, isDir) != NoMatch && forall j | k < j < |files| :: files[j](path, isDir) == NoMatch
    ensures SaysSo(LastSaid(files, path, isDir), files[k](path, isDir))
    decreases |files|
  {
    hide SaysSo;
    var n := |files| - 1;
    SaidSo(files[n], path, isDir);
    SilenceIsSaid(Said(files[n], path, isDir), files[n](path, isDir));
    if k < n {
      LastExplicitDecides(files[..n], k, path, isDir);
    }
  }

  lemma {:induction false} NoExplicitDecides(files: seq<Matcher>, path: seq<byte>, isDir: bool)
    requires forall j | 0 <= j < |files| :: files[j](path, isDir) == NoMatch
    ensures LastSaid(files, path, isDir) == NoMatch
    decreases |files|
  {
    if files != [] {
      NoExplicitDecides(files[..|files| - 1], path, isDir);
    }
  }

  // ----- rules for directories -----

  // The matcher of a file that holds this one line.
  ghost predicate IsFileOf(matcher: Matcher, root: seq<byte>, from: Option<string>, line: string, opts: GlobOptions) {
    forall p, d :: matcher(p, d) == FileVerdict(from, [line], opts, Strip(CleanRoot(root), p), d)
  }

  // A chain whose only rule is a line that ends in a slash never ignores a file, wherever the rule is.
  lemma SlashRuleSparesFiles(ig: IgnoreInner, root: seq<byte>, from: Option<string>, negated: bool, anchored: bool, s: string,
                             unclosed: bool, path: seq<byte>)
    requires IsPlainPath(s) && s[0] != BOM
    requires forall level, source: Source | level in Chain(Some(ig)) ::
               || IsSilent(level.Of(source))
               || IsFileOf(level.Of(source), root, from, PlainLine(negated, anchored, s, true), LineOptions(false, unclosed))
    requires IsSilent(ig.shared.gitGlobal) && forall m | m in ig.shared.explicitIgnores :: IsSilent(m)
    ensures RulesVerdict(ig, path, false) == NoMatch
  {
    hide RulesVerdict, Questions, Chain, GitApplies, FileVerdict, PlainLine, IsPlainPath, LastSaid, Strip, SaysSo;
    var asked, line := Questions(ig, path), PlainLine(negated, anchored, s, true);
    forall i: nat, source: Source | i < |asked|
      ensures MatcherAt(asked, i, source)(asked[i].path, false) == NoMatch
    {
      LevelIsInChain(ig, path, i);
      assert MatcherAt(asked, i, source) == asked[i].level.Of(source);
      assert line + "" == line;
      PlainLineVerdict(from, negated, anchored, s, true, "", unclosed, Strip(CleanRoot(root), asked[i].path), false);
    }
    assert forall source: Source, i: nat :: !Speaks(asked, i, source, GitApplies(ig), false);
    NoLevelSpeaks(ig, path, false);
    assert forall j | 0 <= j < |ig.shared.explicitIgnores| :: ig.shared.explicitIgnores[j] in ig.shared.explicitIgnores;
    NoExplicitDecides(ig.shared.explicitIgnores, path, false);
  }

  lemma LevelIsInChain(ig: IgnoreInner, path: seq<byte>, i: nat)
    requires i < |Questions(ig, path)|
    ensures Questions(ig, path)[i].level in Chain(Some(ig))
  {
    hide Chain, Near, Far, Rerooted;
    NearThenFar(Some(ig));
    Joint(Near(Some(ig)), Far(Some(ig)));
  }

  // ----- all verdicts about a path -----

  // `./` in front of a path means nothing.
  lemma DotSlashIsDropped(path: seq<byte>)
    ensures WithoutDotSlash([DOT, SLASH] + path) == path
    ensures !([DOT, SLASH] <= path) ==> WithoutDotSlash(path) == path
  {
  }

  // An override decides with its own glob. Then a rule that ignores does, then a type that says
  // anything, and at last a rule that whitelists.
  lemma DecisionIs(ig: IgnoreInner, p: seq<byte>, isDir: bool, m: Match<IgnoreMatch>)
    requires Decides(m, OverrideSays(ig, p, isDir), RulesSay(ig, p, isDir), TypesSay(ig, p, isDir))
    ensures var over := if ig.shared.overrides.Some? then ig.shared.overrides.value(p, isDir) else NoMatch;
            var types := if ig.shared.types.Some? then ig.shared.types.value(p, isDir) else NoMatch;
            var rules := if ig.HasAnyIgnoreRules() then RulesVerdict(ig, p, isDir) else NoMatch;
            match over
            case Ignore(g) => m == Ignore(OverrideMatch(g))
            case Whitelist(g) => m == Whitelist(OverrideMatch(g))
            case NoMatch =>
              if rules.Ignore? then m == rules
              else
                match types
                case Ignore(t) => m == Ignore(TypesMatch(t))
                case Whitelist(t) => m == Whitelist(TypesMatch(t))
                case NoMatch => m == rules
  {
    hide RulesVerdict;
  }
}
