/**
 The chain of directory matchers consulted while walking: each directory has its ignore files, and a
 git repository stops the git rules of the directories above it.
 */
module IgnoreChains {
  import opened Wrappers
  import opened Utf8
  import opened Paths
  import opened RelativePaths
  import opened Matching
  import opened Gitignore
  import opened Overrides
  import opened FileTypes

  datatype IgnoreMatch =
    | OverrideMatch(overriding: OverrideGlob)
    | GitignoreMatch(glob: IgnoreGlob)
    | TypesMatch(selection: TypeMatch)
    | Hidden

  datatype IgnoreOptions = IgnoreOptions(
    hidden: bool,
    ignore: bool,
    parents: bool,
    gitGlobal: bool,
    gitIgnore: bool,
    gitExclude: bool,
    requireGit: bool
  )

  // What all directories of a walk have in common; an empty set of overrides or types is None.
  datatype Shared = Shared(
    opts: IgnoreOptions,
    overrides: Option<(seq<byte>, bool) -> Match<OverrideGlob>>,
    types: Option<(seq<byte>, bool) -> Match<TypeMatch>>,
    explicitIgnores: seq<Matcher>,
    customFilenames: seq<string>,
    gitGlobal: Matcher
  )

  datatype Source = Custom | DotIgnore | DotGitignore | Exclude

  datatype IgnoreInner = IgnoreInner(
    dir: seq<byte>,
    parent: Option<IgnoreInner>,
    isAbsoluteParent: bool,
    absoluteBase: Option<seq<byte>>,
    custom: Matcher,
    dotIgnore: Matcher,
    dotGitignore: Matcher,
    exclude: Matcher,
    hasGit: bool,
    shared: Shared
  ) {

    function Of(source: Source): Matcher {
      match source
      case Custom => custom
      case DotIgnore => dotIgnore
      case DotGitignore => dotGitignore
      case Exclude => exclude
    }

    predicate HasAnyIgnoreRules() {
      || shared.opts.ignore || shared.opts.gitGlobal || shared.opts.gitIgnore || shared.opts.gitExclude
      || shared.customFilenames != [] || shared.explicitIgnores != []
    }

    // Whether git rules apply at all.
    method AnyGit() returns (any: bool)
      ensures any == GitApplies(this)
    {
      if !shared.opts.requireGit {
        return true;
      }
      var cursor := Some(this);
      while cursor.Some?
        invariant HasRepository(Chain(Some(this))) == HasRepository(Chain(cursor))
        decreases cursor
      {
        RepositoryBelowOrAbove(cursor.value);
        if cursor.value.hasGit {
          return true;
        }
        cursor := cursor.value.parent;
      }
      return false;
    }

    // The verdict of the ignore files of the chain.
    method MatchedIgnore(path: seq<byte>, isDir: bool) returns (m: Match<IgnoreMatch>)
      ensures m == RulesVerdict(this, path, isDir)
    {
      hide RulesVerdict, Nearest, InRepository, GitApplies, Finish, Said, LastSaid, Near, Far, Chain, AskAll, HasRepository;
      var mCustom, mIgnore, mGi, mExclude, mExplicit: Match<IgnoreMatch> := NoMatch, NoMatch, NoMatch, NoMatch, NoMatch;
      var anyGit := AnyGit();
      var sawGit := false;
      ghost var far := FarQuestions(this, path);
      ghost var goal := Finish(Found(NoMatch, NoMatch, NoMatch, NoMatch, false), Questions(this, path), anyGit, isDir);
      var cursor := Some(this);
      while cursor.Some? && !cursor.value.isAbsoluteParent
        invariant Finish(Found(mCustom, mIgnore, mGi, mExclude, sawGit), AskAll(Near(cursor), path) + far, anyGit, isDir) == goal
        decreases cursor
      {
        var ig := cursor.value;
        AskNext(Found(mCustom, mIgnore, mGi, mExclude, sawGit), ig, path, AskAll(Near(ig.parent), path) + far, anyGit, isDir);
        NearStep(ig, path, far);
        if mCustom.NoMatch? {
          mCustom := Said(ig.custom, path, isDir);
        }
        if mIgnore.NoMatch? {
          mIgnore := Said(ig.dotIgnore, path, isDir);
        }
        if anyGit && !sawGit && mGi.NoMatch? {
          mGi := Said(ig.dotGitignore, path, isDir);
        }
        if anyGit && !sawGit && mExclude.NoMatch? {
          mExclude := Said(ig.exclude, path, isDir);
        }
        sawGit := sawGit || ig.hasGit;
        cursor := ig.parent;
      }
      NearEnds(cursor, path, far);
      if shared.opts.parents && absoluteBase.Some? {
        var rerooted := Reroot(path);
        cursor := SkipNear();
        while cursor.Some?
          invariant Finish(Found(mCustom, mIgnore, mGi, mExclude, sawGit), AskAll(Chain(cursor), rerooted), anyGit, isDir) == goal
          decreases cursor
        {
          var ig := cursor.value;
          AskNext(Found(mCustom, mIgnore, mGi, mExclude, sawGit), ig, rerooted, AskAll(Chain(ig.parent), rerooted), anyGit, isDir);
          ChainStep(ig, rerooted);
          if mCustom.NoMatch? {
            mCustom := Said(ig.custom, rerooted, isDir);
          }
          if mIgnore.NoMatch? {
            mIgnore := Said(ig.dotIgnore, rerooted, isDir);
          }
          if anyGit && !sawGit && mGi.NoMatch? {
            mGi := Said(ig.dotGitignore, rerooted, isDir);
          }
          if anyGit && !sawGit && mExclude.NoMatch? {
            mExclude := Said(ig.exclude, rerooted, isDir);
          }
          sawGit := sawGit || ig.hasGit;
          cursor := ig.parent;
        }
        ChainEnds(rerooted);
      }
      mExplicit := MatchedExplicit(path, isDir);
      var mGlobal := if anyGit then Said(shared.gitGlobal, path, isDir) else NoMatch;
      Concluded(this, path, isDir, Found(mCustom, mIgnore, mGi, mExclude, sawGit));
      m := Or(Or(Or(Or(Or(mCustom, mIgnore), mGi), mExclude), mGlobal), mExplicit);
    }

    // The path as seen from the directories above the walk.
    method Reroot(path: seq<byte>) returns (rerooted: seq<byte>)
      requires absoluteBase.Some?
      ensures rerooted == Rerooted(this, path)
    {
      var cursor, top := Some(this), None;
      while cursor.Some? && !cursor.value.isAbsoluteParent
        invariant Last(top, Near(cursor)) == Topmost(this)
        decreases cursor
      {
        top := cursor;
        cursor := cursor.value.parent;
      }
      var relative := path;
      if top.Some? && !IsDot(top.value.dir) {
        var withoutDotSlash := WithoutPrefix(DOT_SLASH, top.value.dir);
        var relativeBase := WithoutPrefix(withoutDotSlash, path);
        relative := WithoutPrefix([SLASH], relativeBase);
      }
      return Joined(absoluteBase.value, relative);
    }

    method SkipNear() returns (cursor: Option<IgnoreInner>)
      ensures Chain(cursor) == Far(Some(this))
    {
      cursor := Some(this);
      while cursor.Some? && !cursor.value.isAbsoluteParent
        invariant Far(cursor) == Far(Some(this))
        decreases cursor
      {
        cursor := cursor.value.parent;
      }
    }

    method MatchedExplicit(path: seq<byte>, isDir: bool) returns (m: Match<IgnoreMatch>)
      ensures m == LastSaid(shared.explicitIgnores, path, isDir)
    {
      m := NoMatch;
      var i := |shared.explicitIgnores|;
      assert shared.explicitIgnores[..i] == shared.explicitIgnores;
      while i > 0
        invariant 0 <= i <= |shared.explicitIgnores|
        invariant Or(m, LastSaid(shared.explicitIgnores[..i], path, isDir)) == LastSaid(shared.explicitIgnores, path, isDir)
      {
        if !m.NoMatch? {
          break;
        }
        i := i - 1;
        assert shared.explicitIgnores[..i + 1][..i] == shared.explicitIgnores[..i];
        m := Said(shared.explicitIgnores[i], path, isDir);
      }
      if i == 0 {
        assert shared.explicitIgnores[..i] == [];
      }
    }

    // The verdict about a path: an override decides, then an ignore rule or a type that ignores,
    // then a type or an ignore rule that whitelists.
    method Matched(path: seq<byte>, isDir: bool) returns (m: Match<IgnoreMatch>)
      ensures var p := WithoutDotSlash(path);
              var over, rules, types := OverrideSays(this, p, isDir), RulesSay(this, p, isDir), TypesSay(this, p, isDir);
              Decides(m, over, rules, types)
    {
      hide RulesVerdict;
      var p := WithoutDotSlash(path);
      if shared.overrides.Some? {
        var mat := OverrideSays(this, p, isDir);
        if !mat.NoMatch? {
          return mat;
        }
      }
      var whitelisted := NoMatch;
      if HasAnyIgnoreRules() {
        var mat := MatchedIgnore(p, isDir);
        if mat.Ignore? {
          return mat;
        } else if mat.Whitelist? {
          whitelisted := mat;
        }
      }
      if shared.types.Some? {
        var mat := TypesSay(this, p, isDir);
        if mat.Ignore? {
          return mat;
        } else if mat.Whitelist? {
          whitelisted := mat;
        }
      }
      return whitelisted;
    }

    // A hidden entry is ignored exactly if hidden entries are unwanted and nothing else speaks.
    method MatchedDirEntry(path: seq<byte>, isDir: bool) returns (m: Match<IgnoreMatch>)
      ensures var p := WithoutDotSlash(path);
              var over, rules, types := OverrideSays(this, p, isDir), RulesSay(this, p, isDir), TypesSay(this, p, isDir);
              var silent := over.NoMatch? && rules.NoMatch? && types.NoMatch?;
              && (m == Ignore(Hidden) <==>
                    silent && shared.opts.hidden && StartsInDot(LastComponent(path)) && !EndsInDot(LastComponent(path)))
              && (m == Ignore(Hidden) || Decides(m, over, rules, types))
    {
      hide RulesVerdict;
      HiddenExactly(path);
      m := Matched(path, isDir);
      RulesAreNotHidden(this, WithoutDotSlash(path), isDir);
      if m.NoMatch? && shared.opts.hidden && IsHidden(path) {
        return Ignore(Hidden);
      }
    }
  }

  // Which of the three verdicts is taken, and when the entry is ignored or left undecided.
  predicate Decides(m: Match<IgnoreMatch>, over: Match<IgnoreMatch>, rules: Match<IgnoreMatch>, types: Match<IgnoreMatch>) {
    && (m.Ignore? <==> over.Ignore? || (over.NoMatch? && (rules.Ignore? || types.Ignore?)))
    && (m.NoMatch? <==> over.NoMatch? && rules.NoMatch? && types.NoMatch?)
    && (!over.NoMatch? ==> m == over)
    && (over.NoMatch? && rules.Ignore? ==> m == rules)
    && (over.NoMatch? && !rules.Ignore? && !types.NoMatch? ==> m == types)
    && (over.NoMatch? && types.NoMatch? ==> m == rules)
  }

  function WithoutDotSlash(path: seq<byte>): seq<byte> {
    if |path| >= 2 && path[0] == '.' as byte && path[1] == '/' as byte then path[2..] else path
  }

  predicate IsHidden(path: seq<byte>) {
    var name := TypeFileName(path);
    name.Some? && name.value != [] && name.value[0] == '.' as byte
  }

  // A hidden entry has a name that starts with a dot and does not end in one, be it the same.
  lemma HiddenExactly(path: seq<byte>)
    ensures IsHidden(path) <==> StartsInDot(LastComponent(path)) && !EndsInDot(LastComponent(path))
    ensures IsHidden(path) <==> var name := LastComponent(path); name != [] && name[0] == 0x2E && name[|name| - 1] != 0x2E
  {
    NamelessExactly(path);
  }

  // ----- what a single matcher says -----

  // It says nothing about any path.
  ghost predicate IsSilent(matcher: Matcher) {
    forall p, d :: matcher(p, d) == NoMatch
  }

  function Said(matcher: Matcher, path: seq<byte>, isDir: bool): Match<IgnoreMatch> {
    matcher(path, isDir).Map((g: IgnoreGlob) => GitignoreMatch(g))
  }

  // The last matcher that says something.
  function LastSaid(matchers: seq<Matcher>, path: seq<byte>, isDir: bool): Match<IgnoreMatch> {
    if matchers == [] then NoMatch
    else
      var n := |matchers| - 1;
      Or(Said(matchers[n], path, isDir), LastSaid(matchers[..n], path, isDir))
  }

  function OverrideSays(ig: IgnoreInner, path: seq<byte>, isDir: bool): Match<IgnoreMatch> {
    if ig.shared.overrides.None? then NoMatch
    else ig.shared.overrides.value(path, isDir).Map((g: OverrideGlob) => OverrideMatch(g))
  }

  function TypesSay(ig: IgnoreInner, path: seq<byte>, isDir: bool): Match<IgnoreMatch> {
    if ig.shared.types.None? then NoMatch
    else ig.shared.types.value(path, isDir).Map((t: TypeMatch) => TypesMatch(t))
  }

  // ----- the levels of a chain -----

  function Chain(ig: Option<IgnoreInner>): seq<IgnoreInner> {
    if ig.None? then [] else [ig.value] + Chain(ig.value.parent)
  }

  // The levels before the first absolute parent, and the levels from there on.
  function Near(ig: Option<IgnoreInner>): seq<IgnoreInner> {
    if ig.None? || ig.value.isAbsoluteParent then [] else [ig.value] + Near(ig.value.parent)
  }

  function Far(ig: Option<IgnoreInner>): seq<IgnoreInner> {
    if ig.None? || ig.value.isAbsoluteParent then Chain(ig) else Far(ig.value.parent)
  }

  // ----- paths as seen from above the walk -----

  // The last of these levels, if there are any, else the one given.
  function Last(top: Option<IgnoreInner>, levels: seq<IgnoreInner>): Option<IgnoreInner> {
    if levels == [] then top else Some(levels[|levels| - 1])
  }

  // The matcher of the directory where the walk began.
  function Topmost(ig: IgnoreInner): Option<IgnoreInner> {
    Last(None, Near(Some(ig)))
  }

  // A path without the directory where the walk began.
  function FromTop(top: Option<IgnoreInner>, path: seq<byte>): seq<byte> {
    if top.None? || IsDot(top.value.dir) then path
    else WithoutPrefix([SLASH], WithoutPrefix(WithoutPrefix(DOT_SLASH, top.value.dir), path))
  }

  // The path below the absolute base.
  function Rerooted(ig: IgnoreInner, path: seq<byte>): seq<byte>
    requires ig.absoluteBase.Some?
  {
    Joined(ig.absoluteBase.value, FromTop(Topmost(ig), path))
  }

  predicate HasRepository(levels: seq<IgnoreInner>) {
    exists i: nat | i < |levels| :: levels[i].hasGit
  }

  predicate GitApplies(ig: IgnoreInner) {
    !ig.shared.opts.requireGit || HasRepository(Chain(Some(ig)))
  }

  // ----- the declarative rule -----

  // A directory together with the path it is asked about.
  datatype Question = Question(level: IgnoreInner, path: seq<byte>)

  function AskAll(levels: seq<IgnoreInner>, path: seq<byte>): seq<Question> {
    seq(|levels|, i requires 0 <= i < |levels| => Question(levels[i], path))
  }

  function FarQuestions(ig: IgnoreInner, path: seq<byte>): seq<Question> {
    if ig.shared.opts.parents && ig.absoluteBase.Some? then AskAll(Far(Some(ig)), Rerooted(ig, path)) else []
  }

  // All directories asked, nearest first.
  function Questions(ig: IgnoreInner, path: seq<byte>): seq<Question> {
    AskAll(Near(Some(ig)), path) + FarQuestions(ig, path)
  }

  // The verdict of the nearest directory that has one.
  function Nearest(source: Source, asked: seq<Question>, isDir: bool): Match<IgnoreMatch> {
    if asked == [] then NoMatch
    else Or(Said(asked[0].level.Of(source), asked[0].path, isDir), Nearest(source, asked[1..], isDir))
  }

  // The directories up to the nearest repository, including it.
  function InRepository(asked: seq<Question>): seq<Question> {
    if asked == [] then []
    else if asked[0].level.hasGit then [asked[0]]
    else [asked[0]] + InRepository(asked[1..])
  }

  function NearestInRepository(source: Source, asked: seq<Question>, isDir: bool, anyGit: bool): Match<IgnoreMatch> {
    if anyGit then Nearest(source, InRepository(asked), isDir) else NoMatch
  }

  // Six sources, from the one that counts most to the one that counts least.
  function RulesVerdict(ig: IgnoreInner, path: seq<byte>, isDir: bool): Match<IgnoreMatch> {
    var asked, anyGit := Questions(ig, path), GitApplies(ig);
    FirstVerdict([
      Nearest(Custom, asked, isDir),
      Nearest(DotIgnore, asked, isDir),
      NearestInRepository(DotGitignore, asked, isDir, anyGit),
      NearestInRepository(Exclude, asked, isDir, anyGit),
      if anyGit then Said(ig.shared.gitGlobal, path, isDir) else NoMatch,
      LastSaid(ig.shared.explicitIgnores, path, isDir)
    ])
  }

  function RulesSay(ig: IgnoreInner, path: seq<byte>, isDir: bool): Match<IgnoreMatch> {
    if ig.HasAnyIgnoreRules() then RulesVerdict(ig, path, isDir) else NoMatch
  }

  // ----- the loops refine the rule -----

  // The verdicts found so far.
  datatype Found = Found(
    custom: Match<IgnoreMatch>,
    dotIgnore: Match<IgnoreMatch>,
    dotGitignore: Match<IgnoreMatch>,
    exclude: Match<IgnoreMatch>,
    sawGit: bool
  )

  // What will have been found once the remaining directories have been asked.
  ghost function Finish(f: Found, rest: seq<Question>, anyGit: bool, isDir: bool): seq<Match<IgnoreMatch>> {
    [
      Or(f.custom, Nearest(Custom, rest, isDir)),
      Or(f.dotIgnore, Nearest(DotIgnore, rest, isDir)),
      Or(f.dotGitignore, NearestInRepository(DotGitignore, rest, isDir, anyGit && !f.sawGit)),
      Or(f.exclude, NearestInRepository(Exclude, rest, isDir, anyGit && !f.sawGit))
    ]
  }

  // Asking one directory where nothing was found brings nothing more than asking it anyway.
  ghost function AskOne(f: Found, ig: IgnoreInner, path: seq<byte>, anyGit: bool, isDir: bool): Found {
    Found(
      Or(f.custom, Said(ig.custom, path, isDir)),
      Or(f.dotIgnore, Said(ig.dotIgnore, path, isDir)),
      if anyGit && !f.sawGit then Or(f.dotGitignore, Said(ig.dotGitignore, path, isDir)) else f.dotGitignore,
      if anyGit && !f.sawGit then Or(f.exclude, Said(ig.exclude, path, isDir)) else f.exclude,
      f.sawGit || ig.hasGit)
  }

  lemma NearestStep(source: Source, ig: IgnoreInner, path: seq<byte>, rest: seq<Question>, isDir: bool)
    ensures Nearest(source, [Question(ig, path)] + rest, isDir) == Or(Said(ig.Of(source), path, isDir), Nearest(source, rest, isDir))
  {
    assert ([Question(ig, path)] + rest)[1..] == rest;
  }

  lemma NearestInRepositoryStep(source: Source, ig: IgnoreInner, path: seq<byte>, rest: seq<Question>, isDir: bool)
    ensures NearestInRepository(source, [Question(ig, path)] + rest, isDir, true)
         == Or(Said(ig.Of(source), path, isDir), NearestInRepository(source, rest, isDir, !ig.hasGit))
  {
    var asked := [Question(ig, path)] + rest;
    assert asked[1..] == rest;
    if ig.hasGit {
      NearestStep(source, ig, path, [], isDir);
      assert [Question(ig, path)] + [] == InRepository(asked);
    } else {
      NearestStep(source, ig, path, InRepository(rest), isDir);
    }
  }

  lemma AskNext(f: Found, ig: IgnoreInner, path: seq<byte>, rest: seq<Question>, anyGit: bool, isDir: bool)
    ensures Finish(f, [Question(ig, path)] + rest, anyGit, isDir) == Finish(AskOne(f, ig, path, anyGit, isDir), rest, anyGit, isDir)
  {
    hide Nearest, InRepository, NearestInRepository, Said;
    NearestStep(Custom, ig, path, rest, isDir);
    NearestStep(DotIgnore, ig, path, rest, isDir);
    NearestInRepositoryStep(DotGitignore, ig, path, rest, isDir);
    NearestInRepositoryStep(Exclude, ig, path, rest, isDir);
    NoGitNoVerdict(rest, isDir);
    NoGitNoVerdict([Question(ig, path)] + rest, isDir);
  }

  lemma NoGitNoVerdict(asked: seq<Question>, isDir: bool)
    ensures NearestInRepository(DotGitignore, asked, isDir, false) == NoMatch
    ensures NearestInRepository(Exclude, asked, isDir, false) == NoMatch
  {
  }

  lemma NothingLeft(f: Found, anyGit: bool, isDir: bool)
    ensures Finish(f, [], anyGit, isDir) == [f.custom, f.dotIgnore, f.dotGitignore, f.exclude]
  {
  }

  lemma Concluded(ig: IgnoreInner, path: seq<byte>, isDir: bool, f: Found)
    requires Finish(f, [], GitApplies(ig), isDir)
          == Finish(Found(NoMatch, NoMatch, NoMatch, NoMatch, false), Questions(ig, path), GitApplies(ig), isDir)
    ensures var global := if GitApplies(ig) then Said(ig.shared.gitGlobal, path, isDir) else NoMatch;
            RulesVerdict(ig, path, isDir)
            == Or(Or(Or(Or(Or(f.custom, f.dotIgnore), f.dotGitignore), f.exclude), global), LastSaid(ig.shared.explicitIgnores, path, isDir))
  {
    hide RulesVerdict, Questions, GitApplies, Said, LastSaid, Finish;
    NothingLeft(f, GitApplies(ig), isDir);
    RulesVerdictIs(ig, path, isDir, Finish(f, [], GitApplies(ig), isDir));
  }

  lemma RulesVerdictIs(ig: IgnoreInner, path: seq<byte>, isDir: bool, found: seq<Match<IgnoreMatch>>)
    requires found == Finish(Found(NoMatch, NoMatch, NoMatch, NoMatch, false), Questions(ig, path), GitApplies(ig), isDir)
    ensures var global := if GitApplies(ig) then Said(ig.shared.gitGlobal, path, isDir) else NoMatch;
            RulesVerdict(ig, path, isDir)
            == Or(Or(Or(Or(Or(found[0], found[1]), found[2]), found[3]), global), LastSaid(ig.shared.explicitIgnores, path, isDir))
  {
    hide Nearest, InRepository, NearestInRepository, Said, LastSaid, Questions, GitApplies;
    var global := if GitApplies(ig) then Said(ig.shared.gitGlobal, path, isDir) else NoMatch;
    FirstOfSix(found[0], found[1], found[2], found[3], global, LastSaid(ig.shared.explicitIgnores, path, isDir));
  }

  lemma FirstOfMore<T>(m: Match<T>, rest: seq<Match<T>>)
    ensures FirstVerdict([m] + rest) == Or(m, FirstVerdict(rest))
  {
    assert ([m] + rest)[1..] == rest;
  }

  lemma FirstOfSix<T>(a: Match<T>, b: Match<T>, c: Match<T>, d: Match<T>, e: Match<T>, f: Match<T>)
    ensures FirstVerdict([a, b, c, d, e, f]) == Or(Or(Or(Or(Or(a, b), c), d), e), f)
  {
    FirstOfMore(e, [f]);
    FirstOfMore(d, [e, f]);
    FirstOfMore(c, [d, e, f]);
    FirstOfMore(b, [c, d, e, f]);
    FirstOfMore(a, [b, c, d, e, f]);
    FirstOfMore(f, []);
  }

  lemma AskFirst(ig: IgnoreInner, levels: seq<IgnoreInner>, path: seq<byte>)
    ensures AskAll([ig] + levels, path) == [Question(ig, path)] + AskAll(levels, path)
  {
  }

  lemma NearStep(ig: IgnoreInner, path: seq<byte>, rest: seq<Question>)
    requires !ig.isAbsoluteParent
    ensures AskAll(Near(Some(ig)), path) + rest == [Question(ig, path)] + (AskAll(Near(ig.parent), path) + rest)
  {
    hide AskAll;
    AskFirst(ig, Near(ig.parent), path);
  }

  lemma NearEnds(cursor: Option<IgnoreInner>, path: seq<byte>, rest: seq<Question>)
    requires cursor.None? || cursor.value.isAbsoluteParent
    ensures AskAll(Near(cursor), path) + rest == rest
  {
  }

  lemma ChainStep(ig: IgnoreInner, path: seq<byte>)
    ensures AskAll(Chain(Some(ig)), path) == [Question(ig, path)] + AskAll(Chain(ig.parent), path)
  {
    hide AskAll;
    AskFirst(ig, Chain(ig.parent), path);
  }

  lemma ChainEnds(path: seq<byte>)
    ensures AskAll(Chain(None), path) == []
  {
  }

  lemma RepositoryBelowOrAbove(ig: IgnoreInner)
    ensures HasRepository(Chain(Some(ig))) <==> ig.hasGit || HasRepository(Chain(ig.parent))
  {
    var all, above := Chain(Some(ig)), Chain(ig.parent);
    if ig.hasGit {
      assert all[0].hasGit;
    }
    if HasRepository(above) {
      var i: nat :| i < |above| && above[i].hasGit;
      assert all[i + 1].hasGit;
    }
  }

  // ----- the verdict of ignore files is one of theirs -----

  predicate FromFile(m: Match<IgnoreMatch>) {
    m.NoMatch? || m.inner.GitignoreMatch?
  }

  lemma {:induction false} NearestIsFromFile(source: Source, asked: seq<Question>, isDir: bool)
    ensures FromFile(Nearest(source, asked, isDir))
  {
    if asked == [] {
    } else {
      NearestIsFromFile(source, asked[1..], isDir);
    }
  }

  lemma {:induction false} LastSaidIsFromFile(matchers: seq<Matcher>, path: seq<byte>, isDir: bool)
    ensures FromFile(LastSaid(matchers, path, isDir))
  {
    if matchers == [] {
    } else {
      LastSaidIsFromFile(matchers[..|matchers| - 1], path, isDir);
    }
  }

  lemma RulesAreNotHidden(ig: IgnoreInner, path: seq<byte>, isDir: bool)
    ensures FromFile(RulesVerdict(ig, path, isDir))
  {
    hide Nearest, InRepository, LastSaid, Questions, GitApplies;
    var asked := Questions(ig, path);
    NearestIsFromFile(Custom, asked, isDir);
    NearestIsFromFile(DotIgnore, asked, isDir);
    NearestIsFromFile(DotGitignore, InRepository(asked), isDir);
    NearestIsFromFile(Exclude, InRepository(asked), isDir);
    LastSaidIsFromFile(ig.shared.explicitIgnores, path, isDir);
    RulesVerdictIs(ig, path, isDir,
                   Finish(Found(NoMatch, NoMatch, NoMatch, NoMatch, false), asked, GitApplies(ig), isDir));
  }
}
