/**
 What it means for verdicts that a chain from the cache keeps the base path of the walk that built it:
 the directories above are asked about paths below that base.
 */
module SharedBases {
  import opened Wrappers
  import opened Utf8
  import opened Paths
  import opened RelativePaths
  import opened Matching
  import opened Gitignore
  import opened GitignoreBuilding
  import opened LineMeanings
  import opened IgnoreChains
  import opened ChainRules
  import opened IgnoreParents

  // ----- chains that differ in their base paths only -----

  // Level for level the same, but for base paths.
  ghost predicate LevelsAlike(a: seq<IgnoreInner>, b: seq<IgnoreInner>) {
    |a| == |b| && forall i | 0 <= i < |a| :: WithoutBase(a[i]) == WithoutBase(b[i])
  }

  lemma LevelAlike(a: IgnoreInner, b: IgnoreInner)
    requires WithoutBase(a) == WithoutBase(b)
    ensures a.dir == b.dir && a.isAbsoluteParent == b.isAbsoluteParent && a.hasGit == b.hasGit && a.shared == b.shared
    ensures forall source: Source :: a.Of(source) == b.Of(source)
    ensures a.parent.Some? <==> b.parent.Some?
    ensures a.parent.Some? ==> WithoutBase(a.parent.value) == WithoutBase(b.parent.value)
  {
    hide WithoutBase;
    AllButBase(a);
    AllButBase(b);
  }

  lemma AllButBase(ig: IgnoreInner)
    ensures var w := WithoutBase(ig);
            && w.dir == ig.dir && w.isAbsoluteParent == ig.isAbsoluteParent && w.hasGit == ig.hasGit && w.shared == ig.shared
            && w.custom == ig.custom && w.dotIgnore == ig.dotIgnore && w.dotGitignore == ig.dotGitignore && w.exclude == ig.exclude
            && (w.parent.Some? <==> ig.parent.Some?)
            && (ig.parent.Some? ==> w.parent.value == WithoutBase(ig.parent.value))
  {
  }

  lemma OneLevelMore(a: IgnoreInner, b: IgnoreInner, as_: seq<IgnoreInner>, bs: seq<IgnoreInner>)
    requires WithoutBase(a) == WithoutBase(b) && LevelsAlike(as_, bs)
    ensures LevelsAlike([a] + as_, [b] + bs)
  {
    hide WithoutBase;
    forall i | 0 <= i < |as_| + 1
      ensures WithoutBase(([a] + as_)[i]) == WithoutBase(([b] + bs)[i])
    {
      if i > 0 {
        assert WithoutBase(as_[i - 1]) == WithoutBase(bs[i - 1]);
      }
    }
  }

  lemma {:induction false} ChainsAlike(a: IgnoreInner, b: IgnoreInner)
    requires WithoutBase(a) == WithoutBase(b)
    ensures LevelsAlike(Chain(Some(a)), Chain(Some(b)))
    ensures LevelsAlike(Near(Some(a)), Near(Some(b)))
    ensures LevelsAlike(Far(Some(a)), Far(Some(b)))
    decreases a
  {
    LevelAlike(a, b);
    hide WithoutBase, LevelsAlike;
    if a.parent.None? {
      NoLevels();
      assert a.parent == b.parent == None;
      OneLevelMore(a, b, Chain(None), Chain(None));
      OneLevelMore(a, b, Near(None), Near(None));
    } else {
      var p, q := a.parent.value, b.parent.value;
      ChainsAlike(p, q);
      OneLevelMore(a, b, Chain(Some(p)), Chain(Some(q)));
      OneLevelMore(a, b, Near(Some(p)), Near(Some(q)));
      NoLevels();
    }
  }

  lemma NoLevels()
    ensures LevelsAlike([], []) && Chain(None) == [] && Near(None) == [] && Far(None) == []
  {
  }

  // ----- verdicts of such chains -----

  // All matchers of these levels say the same of two paths.
  ghost predicate SayTheSame(levels: seq<IgnoreInner>, one: seq<byte>, other: seq<byte>, isDir: bool) {
    forall i, source: Source | 0 <= i < |levels| :: Said(levels[i].Of(source), one, isDir) == Said(levels[i].Of(source), other, isDir)
  }

  lemma AskedAlike(source: Source, a: seq<IgnoreInner>, b: seq<IgnoreInner>, one: seq<byte>, other: seq<byte>, isDir: bool)
    requires LevelsAlike(a, b) && SayTheSame(a, one, other, isDir)
    ensures |AskAll(a, one)| == |AskAll(b, other)| == |a|
    ensures Agree(source, AskAll(a, one), AskAll(b, other), |a|, isDir) && SameRepositories(AskAll(a, one), AskAll(b, other), |a|)
  {
    hide WithoutBase, Said;
    forall i: nat | i < |a|
      ensures Says(source, AskAll(a, one)[i], isDir) == Says(source, AskAll(b, other)[i], isDir)
      ensures AskAll(a, one)[i].level.hasGit == AskAll(b, other)[i].level.hasGit
    {
      LevelAlike(a[i], b[i]);
    }
  }

  lemma AgreeConcat(source: Source, a: seq<Question>, b: seq<Question>, c: seq<Question>, d: seq<Question>, isDir: bool)
    requires |a| == |b| && |c| == |d|
    requires Agree(source, a, b, |a|, isDir) && Agree(source, c, d, |c|, isDir)
    requires SameRepositories(a, b, |a|) && SameRepositories(c, d, |c|)
    ensures Agree(source, a + c, b + d, |a + c|, isDir) && SameRepositories(a + c, b + d, |a + c|)
  {
    hide Says;
    forall i: nat | i < |a + c|
      ensures Says(source, (a + c)[i], isDir) == Says(source, (b + d)[i], isDir) && (a + c)[i].level.hasGit == (b + d)[i].level.hasGit
    {
      if i >= |a| {
        assert (a + c)[i] == c[i - |a|] && (b + d)[i] == d[i - |a|];
      }
    }
  }

  // Of agreeing questions the ones up to the repository agree too.
  lemma {:induction false} AgreeInRepository(source: Source, a: seq<Question>, b: seq<Question>, isDir: bool)
    requires |a| == |b| && Agree(source, a, b, |a|, isDir) && SameRepositories(a, b, |a|)
    ensures Nearest(source, InRepository(a), isDir) == Nearest(source, InRepository(b), isDir)
  {
    if a == [] {
    } else {
      AgreeAbove(source, a, b, |a|, isDir);
      OneLevel(source, a, isDir);
      OneLevel(source, b, isDir);
      RepositoriesAbove(a, b);
      AgreeInRepository(source, a[1..], b[1..], isDir);
    }
  }

  lemma RepositoriesAbove(a: seq<Question>, b: seq<Question>)
    requires |a| == |b| && a != [] && SameRepositories(a, b, |a|)
    ensures a[0].level.hasGit == b[0].level.hasGit && SameRepositories(a[1..], b[1..], |a| - 1)
  {
    forall i: nat | i < |a| - 1
      ensures a[1..][i].level.hasGit == b[1..][i].level.hasGit
    {
      assert a[1..][i] == a[i + 1] && b[1..][i] == b[i + 1];
    }
  }

  lemma RepositoriesAlike(a: seq<IgnoreInner>, b: seq<IgnoreInner>)
    requires LevelsAlike(a, b)
    ensures HasRepository(a) <==> HasRepository(b)
  {
    hide WithoutBase;
    forall i: nat | i < |a|
      ensures a[i].hasGit == b[i].hasGit
    {
      LevelAlike(a[i], b[i]);
    }
  }

  // Both chains see the path in the same place below where the walk began.
  lemma TopsAlike(a: IgnoreInner, b: IgnoreInner, path: seq<byte>)
    requires LevelsAlike(Near(Some(a)), Near(Some(b)))
    ensures FromTop(Topmost(a), path) == FromTop(Topmost(b), path)
  {
    hide WithoutBase, LevelsAlike;
    var near, other := Near(Some(a)), Near(Some(b));
    SameLength(near, other);
    if near != [] {
      LastAlike(near, other);
    }
  }

  lemma SameLength(a: seq<IgnoreInner>, b: seq<IgnoreInner>)
    requires LevelsAlike(a, b)
    ensures |a| == |b|
  {
  }

  lemma LastAlike(a: seq<IgnoreInner>, b: seq<IgnoreInner>)
    requires LevelsAlike(a, b) && |a| == |b| > 0
    ensures a[|a| - 1].dir == b[|b| - 1].dir
  {
    hide WithoutBase;
    LevelAlike(a[|a| - 1], b[|b| - 1]);
  }

  // The two chains ask the directories above about these two paths.
  ghost predicate FarAgree(a: IgnoreInner, b: IgnoreInner, path: seq<byte>, isDir: bool) {
    a.shared.opts.parents && (a.absoluteBase.Some? || b.absoluteBase.Some?) ==>
      && a.absoluteBase.Some? && b.absoluteBase.Some?
      && SayTheSame(Far(Some(a)), Rerooted(a, path), Rerooted(b, path), isDir)
  }

  lemma QuestionsAgree(a: IgnoreInner, b: IgnoreInner, path: seq<byte>, isDir: bool, source: Source)
    requires WithoutBase(a) == WithoutBase(b) && FarAgree(a, b, path, isDir)
    ensures var qa, qb := Questions(a, path), Questions(b, path);
            |qa| == |qb| && Agree(source, qa, qb, |qa|, isDir) && SameRepositories(qa, qb, |qa|)
  {
    LevelAlike(a, b);
    hide WithoutBase, AskAll, Said, Agree, SameRepositories, LevelsAlike, Rerooted;
    ChainsAlike(a, b);
    AskedAlike(source, Near(Some(a)), Near(Some(b)), path, path, isDir);
    if a.shared.opts.parents && a.absoluteBase.Some? {
      AskedAlike(source, Far(Some(a)), Far(Some(b)), Rerooted(a, path), Rerooted(b, path), isDir);
    } else {
      NothingAgrees(source, isDir);
    }
    AgreeConcat(source, AskAll(Near(Some(a)), path), AskAll(Near(Some(b)), path), FarQuestions(a, path), FarQuestions(b, path), isDir);
  }

  lemma NothingAgrees(source: Source, isDir: bool)
    ensures Agree(source, [], [], 0, isDir) && SameRepositories([], [], 0)
  {
  }

  // Where the directories above say the same of the paths that the two chains ask about, so do the
  // chains.
  lemma VerdictsAgreeIf(a: IgnoreInner, b: IgnoreInner, path: seq<byte>, isDir: bool)
    requires WithoutBase(a) == WithoutBase(b) && FarAgree(a, b, path, isDir)
    ensures RulesVerdict(a, path, isDir) == RulesVerdict(b, path, isDir)
  {
    LevelAlike(a, b);
    hide WithoutBase, Agree, SameRepositories, Nearest, InRepository, Questions, FirstVerdict, LevelsAlike, FarAgree, Said, LastSaid,
         Chain, HasRepository;
    var qa, qb := Questions(a, path), Questions(b, path);
    ChainsAlike(a, b);
    RepositoriesAlike(Chain(Some(a)), Chain(Some(b)));
    QuestionsAgree(a, b, path, isDir, Custom);
    AgreementDecides(Custom, qa, qb, isDir);
    QuestionsAgree(a, b, path, isDir, DotIgnore);
    AgreementDecides(DotIgnore, qa, qb, isDir);
    QuestionsAgree(a, b, path, isDir, DotGitignore);
    AgreeInRepository(DotGitignore, qa, qb, isDir);
    QuestionsAgree(a, b, path, isDir, Exclude);
    AgreeInRepository(Exclude, qa, qb, isDir);
  }

  // A verdict depends on the base paths of a chain only through that of its first level.
  lemma VerdictIsOfBase(a: IgnoreInner, b: IgnoreInner, path: seq<byte>, isDir: bool)
    requires WithoutBase(a) == WithoutBase(b) && a.absoluteBase == b.absoluteBase
    ensures RulesVerdict(a, path, isDir) == RulesVerdict(b, path, isDir)
  {
    hide WithoutBase, RulesVerdict, FromTop, Topmost;
    ChainsAlike(a, b);
    TopsAlike(a, b, path);
    VerdictsAgreeIf(a, b, path, isDir);
  }

  // ----- walks that share a chain -----

  // The verdict on a walk that began in the directory called top, with the directories dirs above it,
  // whose chain has this base path.
  function WalkVerdict(fs: FileSystem, root: IgnoreInner, dirs: seq<seq<byte>>, base: seq<byte>, top: seq<byte>,
                       path: seq<byte>, isDir: bool): Match<IgnoreMatch>
  {
    RulesVerdict(ChildOf(fs, Uncached(fs, root, dirs, base), top), path, isDir)
  }

  // Whatever chain add_parents gives, verdicts below it are those of an uncached chain with the base
  // path that was found.
  lemma FoundBaseDecides(fs: FileSystem, root: IgnoreInner, ig: IgnoreInner, dirs: seq<seq<byte>>, own: seq<byte>, base: seq<byte>,
                         top: seq<byte>, path: seq<byte>, isDir: bool)
    requires WithoutBase(ig) == WithoutBase(Uncached(fs, root, dirs, own)) && dirs != [] && ig.absoluteBase == Some(base)
    ensures RulesVerdict(ChildOf(fs, ig, top), path, isDir) == WalkVerdict(fs, root, dirs, base, top, path, isDir)
  {
    hide RulesVerdict;
    UncachedAlike(fs, root, dirs, own, base);
    var uncached := Uncached(fs, root, dirs, base);
    hide Uncached, ChildOf, WithoutBase;
    ChildrenAlike(fs, ig, uncached, top);
    VerdictIsOfBase(ChildOf(fs, ig, top), ChildOf(fs, uncached, top), path, isDir);
  }

  lemma ChildrenAlike(fs: FileSystem, a: IgnoreInner, b: IgnoreInner, dir: seq<byte>)
    requires WithoutBase(a) == WithoutBase(b)
    ensures WithoutBase(ChildOf(fs, a, dir)) == WithoutBase(ChildOf(fs, b, dir))
    ensures ChildOf(fs, a, dir).absoluteBase == a.absoluteBase && ChildOf(fs, b, dir).absoluteBase == b.absoluteBase
  {
    LevelAlike(a, b);
    var x, y := ChildOf(fs, a, dir), ChildOf(fs, b, dir);
    assert x.(parent := None, absoluteBase := None) == y.(parent := None, absoluteBase := None);
    hide ChildOf;
    BaseTaken(x, a);
    BaseTaken(y, b);
  }

  lemma BaseTaken(ig: IgnoreInner, parent: IgnoreInner)
    requires ig.parent == Some(parent)
    ensures WithoutBase(ig) == ig.(absoluteBase := None, parent := Some(WithoutBase(parent)))
  {
  }

  lemma {:induction false} UncachedAlike(fs: FileSystem, root: IgnoreInner, dirs: seq<seq<byte>>, own: seq<byte>, base: seq<byte>)
    ensures WithoutBase(Uncached(fs, root, dirs, own)) == WithoutBase(Uncached(fs, root, dirs, base))
    ensures dirs != [] ==> Uncached(fs, root, dirs, base).absoluteBase == Some(base)
    decreases |dirs|
  {
    if dirs == [] {
    } else {
      var n := |dirs| - 1;
      UncachedAlike(fs, root, dirs[..n], own, base);
      UncachedShares(fs, root, dirs[..n], own);
      UncachedShares(fs, root, dirs[..n], base);
    }
  }

  // ----- a file system with one ignore file -----

  // Nothing but an `.ignore` file in one directory.
  function OneFile(d: seq<byte>, matcher: Matcher): FileSystem {
    FileSystem(
      (dir: seq<byte>, names: seq<string>) => if dir == d && names == [".ignore"] then matcher else EMPTY,
      (dir: seq<byte>, checked: bool) => EMPTY,
      (dir: seq<byte>) => false,
      (dir: seq<byte>) => false)
  }

  // No rules and no repository.
  ghost predicate Silent(ig: IgnoreInner) {
    !ig.hasGit && forall source: Source :: ig.Of(source) == EMPTY
  }

  lemma OtherDirIsSilent(ig: IgnoreInner, d: seq<byte>, matcher: Matcher, dir: seq<byte>, base: seq<byte>)
    requires dir != d
    ensures Silent(ChildOf(OneFile(d, matcher), ig, dir)) && Silent(AbsoluteParentOf(OneFile(d, matcher), ig, dir, base))
  {
  }

  lemma {:induction false} UncachedIsSilent(root: IgnoreInner, d: seq<byte>, matcher: Matcher, dirs: seq<seq<byte>>, base: seq<byte>)
    requires IsRoot(root) && d !in dirs
    ensures var ig := Uncached(OneFile(d, matcher), root, dirs, base);
            ig.isAbsoluteParent && forall x | x in Chain(Some(ig)) :: Silent(x)
    decreases |dirs|
  {
    var fs := OneFile(d, matcher);
    var ig := Uncached(fs, root, dirs, base);
    if dirs == [] {
      assert Chain(ig.parent) == [];
      assert Chain(Some(ig)) == [root];
    } else {
      hide OneFile;
      var n := |dirs| - 1;
      UncachedIsSilent(root, d, matcher, dirs[..n], base);
      assert dirs[n] in dirs;
      OtherDirIsSilent(Uncached(fs, root, dirs[..n], base), d, matcher, dirs[n], base);
      assert Chain(Some(ig)) == [ig] + Chain(ig.parent);
    }
  }

  // The directory with the file.
  function Holder(root: IgnoreInner, d: seq<byte>, matcher: Matcher, dirs: seq<seq<byte>>, base: seq<byte>): IgnoreInner {
    Uncached(OneFile(d, matcher), root, dirs + [d], base)
  }

  lemma HolderIs(root: IgnoreInner, d: seq<byte>, matcher: Matcher, dirs: seq<seq<byte>>, base: seq<byte>)
    requires IsRoot(root) && root.shared.opts.ignore
    ensures var ig, below := Holder(root, d, matcher, dirs, base), Uncached(OneFile(d, matcher), root, dirs, base);
            && ig.parent == Some(below) && ig.isAbsoluteParent && ig.absoluteBase == Some(base) && !ig.hasGit
            && ig.dotIgnore == matcher && ig.dotGitignore == ig.exclude == EMPTY && (ig.custom == matcher || ig.custom == EMPTY)
            && ig.shared == root.shared
  {
    UncachedShares(OneFile(d, matcher), root, dirs, base);
    assert (dirs + [d])[..|dirs|] == dirs;
  }

  // The chain of a walk below the directory with the file.
  function Below(root: IgnoreInner, d: seq<byte>, matcher: Matcher, dirs: seq<seq<byte>>, base: seq<byte>, top: seq<byte>): IgnoreInner {
    ChildOf(OneFile(d, matcher), Holder(root, d, matcher, dirs, base), top)
  }

  // What the global and explicit rules say, and which do not depend on directories.
  function Elsewhere(root: IgnoreInner, path: seq<byte>, isDir: bool): Match<IgnoreMatch> {
    Or(if root.shared.opts.requireGit then NoMatch else Said(root.shared.gitGlobal, path, isDir),
       LastSaid(root.shared.explicitIgnores, path, isDir))
  }

  // The questions of such a walk: two to directories that may speak, the others to silent ones.
  lemma QuestionsBelow(root: IgnoreInner, d: seq<byte>, matcher: Matcher, dirs: seq<seq<byte>>, base: seq<byte>, top: seq<byte>,
                       path: seq<byte>)
    requires IsRoot(root) && root.shared.opts.ignore && root.shared.opts.parents && d !in dirs && top != d
    ensures var ig, holder, rerooted := Below(root, d, matcher, dirs, base, top), Holder(root, d, matcher, dirs, base),
                                        Joined(base, FromTop(Some(Below(root, d, matcher, dirs, base, top)), path));
            && ig.shared == root.shared && Silent(ig) && (GitApplies(ig) <==> !root.shared.opts.requireGit)
            && Questions(ig, path) == [Question(ig, path)] + ([Question(holder, rerooted)] + AskAll(Chain(holder.parent), rerooted))
            && forall x | x in Chain(holder.parent) :: Silent(x)
  {
    var ig, holder := Below(root, d, matcher, dirs, base, top), Holder(root, d, matcher, dirs, base);
    HolderIs(root, d, matcher, dirs, base);
    UncachedIsSilent(root, d, matcher, dirs, base);
    OtherDirIsSilent(holder, d, matcher, top, base);
    ChildShares(root, d, matcher, dirs, base, top);
    hide Holder, Below, ChildOf, OneFile, Silent, FromTop, Joined, IsRoot, Uncached, Chain, Near, Far, Topmost, AskAll, GitApplies;
    LevelsBelow(ig, holder);
    AskedAlone(ig, path);
    NoRepositoryHere(ig, holder);
    AskFirst(holder, Chain(holder.parent), Joined(base, FromTop(Some(ig), path)));
  }

  lemma AskedAlone(ig: IgnoreInner, path: seq<byte>)
    ensures AskAll([ig], path) == [Question(ig, path)]
  {
  }

  lemma ChildShares(root: IgnoreInner, d: seq<byte>, matcher: Matcher, dirs: seq<seq<byte>>, base: seq<byte>, top: seq<byte>)
    requires Holder(root, d, matcher, dirs, base).absoluteBase == Some(base)
    ensures var ig, holder := Below(root, d, matcher, dirs, base, top), Holder(root, d, matcher, dirs, base);
            ig.parent == Some(holder) && ig.shared == holder.shared && !ig.isAbsoluteParent && ig.absoluteBase == Some(base)
  {
  }

  lemma LevelsBelow(ig: IgnoreInner, holder: IgnoreInner)
    requires ig.parent == Some(holder) && !ig.isAbsoluteParent && holder.isAbsoluteParent
    ensures Near(Some(ig)) == [ig] && Far(Some(ig)) == [holder] + Chain(holder.parent) && Topmost(ig) == Some(ig)
    ensures Chain(Some(ig)) == [ig] + ([holder] + Chain(holder.parent))
  {
    assert Near(ig.parent) == [];
    assert Far(ig.parent) == Chain(ig.parent);
  }

  lemma NoRepositoryHere(ig: IgnoreInner, holder: IgnoreInner)
    requires ig.parent == Some(holder) && Silent(ig) && !holder.hasGit && forall x | x in Chain(holder.parent) :: Silent(x)
    requires Chain(Some(ig)) == [ig] + ([holder] + Chain(holder.parent))
    ensures GitApplies(ig) <==> !ig.shared.opts.requireGit
  {
    forall x | x in Chain(Some(ig))
      ensures !x.hasGit
    {
      assert x == ig || x == holder || x in Chain(holder.parent);
    }
    assert forall i: nat | i < |Chain(Some(ig))| :: Chain(Some(ig))[i] in Chain(Some(ig));
  }

  lemma SilentSource(source: Source, asked: seq<Question>, isDir: bool)
    requires forall q | q in asked :: q.level.Of(source) == EMPTY
    ensures Nearest(source, asked, isDir).NoMatch? && Nearest(source, InRepository(asked), isDir).NoMatch?
  {
    hide Nearest, InRepository;
    SilentQuestions(source, asked, isDir);
    FirstQuestions(asked);
    SilentQuestions(source, InRepository(asked), isDir);
  }

  // Of two directories that may speak only the second does.
  lemma SecondSpeaks(source: Source, ig: IgnoreInner, path: seq<byte>, holder: IgnoreInner, rerooted: seq<byte>, more: seq<Question>,
                     isDir: bool)
    requires Silent(ig) && forall q | q in more :: q.level.Of(source) == EMPTY
    ensures Nearest(source, [Question(ig, path)] + ([Question(holder, rerooted)] + more), isDir) == Said(holder.Of(source), rerooted, isDir)
  {
    hide Nearest;
    NearestStep(source, ig, path, [Question(holder, rerooted)] + more, isDir);
    NearestStep(source, holder, rerooted, more, isDir);
    SilentQuestions(source, more, isDir);
  }

  lemma AskedLevels(levels: seq<IgnoreInner>, path: seq<byte>, source: Source)
    requires forall x | x in levels :: Silent(x)
    ensures forall q | q in AskAll(levels, path) :: q.level.Of(source) == EMPTY
  {
    forall q | q in AskAll(levels, path)
      ensures q.level.Of(source) == EMPTY
    {
      assert q.level in levels && Silent(q.level);
    }
  }

  // The verdict is that of the file on the path below the base, or else that of the rules elsewhere.
  lemma VerdictBelow(root: IgnoreInner, d: seq<byte>, matcher: Matcher, dirs: seq<seq<byte>>, base: seq<byte>, top: seq<byte>,
                     path: seq<byte>, isDir: bool)
    requires IsRoot(root) && root.shared.opts.ignore && root.shared.opts.parents && d !in dirs && top != d
    ensures var ig := Below(root, d, matcher, dirs, base, top);
            RulesVerdict(ig, path, isDir)
            == Or(Said(matcher, Joined(base, FromTop(Some(ig), path)), isDir), Elsewhere(root, path, isDir))
  {
    QuestionsBelow(root, d, matcher, dirs, base, top, path);
    HolderIs(root, d, matcher, dirs, base);
    var ig, holder := Below(root, d, matcher, dirs, base, top), Holder(root, d, matcher, dirs, base);
    var rerooted := Joined(base, FromTop(Some(ig), path));
    var more := AskAll(Chain(holder.parent), rerooted);
    hide Below, Holder, Joined, FromTop, Questions, Nearest, InRepository, AskAll, GitApplies, IsRoot, Silent;
    VerdictOfQuestions(ig, path, holder, rerooted, Chain(holder.parent), matcher, isDir);
  }

  lemma VerdictOfQuestions(ig: IgnoreInner, path: seq<byte>, holder: IgnoreInner, rerooted: seq<byte>, above: seq<IgnoreInner>,
                           matcher: Matcher, isDir: bool)
    requires Silent(ig) && (forall x | x in above :: Silent(x)) && (GitApplies(ig) <==> !ig.shared.opts.requireGit)
    requires Questions(ig, path) == [Question(ig, path)] + ([Question(holder, rerooted)] + AskAll(above, rerooted))
    requires holder.dotIgnore == matcher && holder.dotGitignore == holder.exclude == EMPTY
    requires holder.custom == matcher || holder.custom == EMPTY
    ensures RulesVerdict(ig, path, isDir) == Or(Said(matcher, rerooted, isDir), Elsewhere(ig, path, isDir))
  {
    hide Questions, Nearest, InRepository, AskAll, GitApplies, Silent, LastSaid;
    var more := AskAll(above, rerooted);
    AskedLevels(above, rerooted, Custom);
    SecondSpeaks(Custom, ig, path, holder, rerooted, more, isDir);
    AskedLevels(above, rerooted, DotIgnore);
    SecondSpeaks(DotIgnore, ig, path, holder, rerooted, more, isDir);
    GitSourceIsSilent(ig, path, holder, rerooted, above, DotGitignore, isDir);
    GitSourceIsSilent(ig, path, holder, rerooted, above, Exclude, isDir);
    RulesVerdictIs(ig, path, isDir,
                   Finish(Found(NoMatch, NoMatch, NoMatch, NoMatch, false), Questions(ig, path), GitApplies(ig), isDir));
  }

  lemma GitSourceIsSilent(ig: IgnoreInner, path: seq<byte>, holder: IgnoreInner, rerooted: seq<byte>, above: seq<IgnoreInner>,
                          source: Source, isDir: bool)
    requires Silent(ig) && (forall x | x in above :: Silent(x)) && holder.Of(source) == EMPTY
    ensures Nearest(source, InRepository([Question(ig, path)] + ([Question(holder, rerooted)] + AskAll(above, rerooted))), isDir).NoMatch?
  {
    hide Nearest, InRepository, AskAll;
    AskedLevels(above, rerooted, source);
    SilentSource(source, [Question(ig, path)] + ([Question(holder, rerooted)] + AskAll(above, rerooted)), isDir);
  }

  // ----- when the base path matters -----

  // The name of the directory where a walk began, as it appears in front of the paths below it.
  predicate IsPlainTop(top: seq<byte>) {
    top != [] && !IsDot(top) && !(DOT_SLASH <= top)
  }

  // An entry of that directory is asked about as an entry of the base.
  lemma EntryFromTop(ig: IgnoreInner, rel: seq<byte>)
    requires IsPlainTop(ig.dir) && !HasRoot(rel)
    ensures FromTop(Some(ig), ig.dir + [SLASH] + rel) == rel
  {
    hide IsDot;
    var path := ig.dir + [SLASH] + rel;
    assert path[|ig.dir|..] == [SLASH] + rel;
    assert ([SLASH] + rel)[1..] == rel;
  }

  // A canonical path other than the root directory.
  predicate IsCanonical(path: seq<byte>) {
    path != [] && path[0] == SLASH && path[|path| - 1] != SLASH
  }

  lemma JoinedDiffers(a: seq<byte>, b: seq<byte>, rel: seq<byte>)
    requires IsCanonical(a) && IsCanonical(b) && !HasRoot(rel)
    ensures Joined(a, rel) == Joined(b, rel) <==> a == b
  {
    var x, y := Joined(a, rel), Joined(b, rel);
    if x == y {
      assert a == x[..|x| - |rel| - 1] && b == y[..|y| - |rel| - 1];
    }
  }

  const SOME_RULE := IgnoreGlob(None, "", "", false, false)

  // Speaks of one path only.
  function OnlyAbout(path: seq<byte>, m: Match<IgnoreGlob>): Matcher {
    (asked: seq<byte>, isDir: bool) => if asked == path then m else NoMatch
  }

  lemma DirAbove(d: seq<byte>, base: seq<byte>)
    requires base != [] && base[0] == SLASH && ParentPath(base) == Some(d)
    ensures Ancestors(base) == Ancestors(d) + [d] && d !in Ancestors(d)
  {
    hide ParentPath;
    OneUp(base);
  }

  lemma VerdictWithOneFile(root: IgnoreInner, d: seq<byte>, matcher: Matcher, own: seq<byte>, base: seq<byte>, top: seq<byte>,
                           rel: seq<byte>, isDir: bool)
    requires IsRoot(root) && root.shared.opts.ignore && root.shared.opts.parents && IsPlainTop(top) && top != d && !HasRoot(rel)
    requires own != [] && own[0] == SLASH && ParentPath(own) == Some(d)
    ensures var path := top + [SLASH] + rel;
            WalkVerdict(OneFile(d, matcher), root, Ancestors(own), base, top, path, isDir)
            == Or(Said(matcher, Joined(base, rel), isDir), Elsewhere(root, path, isDir))
  {
    hide IsRoot, RulesVerdict, Ancestors, FromTop, Joined, IsPlainTop, OneFile, Uncached, Elsewhere, Said, ParentPath;
    DirAbove(d, own);
    var ig, path := Below(root, d, matcher, Ancestors(d), base, top), top + [SLASH] + rel;
    VerdictBelow(root, d, matcher, Ancestors(d), base, top, path, isDir);
    EntryFromTop(ig, rel);
  }

  // Two walks that began in different entries of one directory get the same verdicts from a shared
  // chain as from their own, whatever ignore files there are, exactly if they began in the same place.
  lemma SharingIsHarmlessIf(root: IgnoreInner, d: seq<byte>, first: seq<byte>, second: seq<byte>, top: seq<byte>)
    requires IsRoot(root) && root.shared.opts.ignore && root.shared.opts.parents && IsPlainTop(top) && top != d
    requires IsCanonical(first) && IsCanonical(second) && ParentPath(first) == ParentPath(second) == Some(d)
    ensures (forall fs: FileSystem, path: seq<byte>, isDir: bool ::
               WalkVerdict(fs, root, Ancestors(second), first, top, path, isDir)
               == WalkVerdict(fs, root, Ancestors(second), second, top, path, isDir))
       <==> first == second
  {
    hide IsRoot, WalkVerdict, Ancestors, Joined, OneFile, Elsewhere, ParentPath, IsPlainTop;
    if first != second {
      var rel: seq<byte> := [0x78];
      var path, target := top + [SLASH] + rel, Joined(second, rel);
      JoinedDiffers(first, second, rel);
      var ignores, whitelists := OnlyAbout(target, Ignore(SOME_RULE)), OnlyAbout(target, Whitelist(SOME_RULE));
      VerdictWithOneFile(root, d, ignores, second, first, top, rel, false);
      VerdictWithOneFile(root, d, ignores, second, second, top, rel, false);
      VerdictWithOneFile(root, d, whitelists, second, first, top, rel, false);
      VerdictWithOneFile(root, d, whitelists, second, second, top, rel, false);
      var i := WalkVerdict(OneFile(d, ignores), root, Ancestors(second), first, top, path, false);
      var w := WalkVerdict(OneFile(d, whitelists), root, Ancestors(second), first, top, path, false);
      assert i == w == Or(NoMatch, Elsewhere(root, path, false));
    }
  }

  // ----- a rule that a second walk misses -----

  const DIR_P: seq<byte> := [SLASH, 0x70]
  const DIR_A: seq<byte> := [SLASH, 0x70, SLASH, 0x61]
  const DIR_B: seq<byte> := [SLASH, 0x70, SLASH, 0x62]
  const TOP_B: seq<byte> := [0x62]
  const FILE_X: seq<byte> := [0x78]

  // Ignore `x` in `b`.
  const RULE_FOR_B: seq<string> := ["/b/x"]

  const LIST_FOR_B := AddAll(NO_RULES, None, RULE_FOR_B, LineOptions(false, true)).0

  lemma RuleForB(path: seq<byte>, isDir: bool)
    ensures |LIST_FOR_B.patterns| == |LIST_FOR_B.rules|
    ensures var m := LastVerdict(LIST_FOR_B, path, isDir); if path == [0x62, SLASH, 0x78] then m.Ignore? else m.NoMatch?
  {
    hide AddAll, RuleOf, Applies, LastVerdict, LineAt, Aligned, Encode;
    var opts := LineOptions(false, true);
    LinesDecide(None, RULE_FOR_B, opts, path, isDir);
    AlignedLength(LIST_FOR_B);
    PathInB();
    assert IsPlainPath("b/x") && PlainLine(false, true, "b/x", false) == "/b/x";
    PlainLineMeans(None, false, true, "b/x", false, true, path, isDir);
    LastLine(None, RULE_FOR_B, opts, path, isDir);
    assert RULE_FOR_B[..0] == [];
    FirstLineOfB();
  }

  lemma FirstLineOfB()
    ensures LineAt(RULE_FOR_B, 0) == "/b/x"
  {
  }

  lemma PathInB()
    ensures Encode("b/x") == [0x62, SLASH, 0x78]
  {
    assert "b/x"[1..] == "/x" && "/x"[1..] == "x";
  }

  lemma SiblingsInP()
    ensures IsCanonical(DIR_A) && IsCanonical(DIR_B) && ParentPath(DIR_A) == ParentPath(DIR_B) == Some(DIR_P)
    ensures IsPlainTop(TOP_B) && !HasRoot(FILE_X)
    ensures Joined(DIR_A, FILE_X) == DIR_P + [SLASH] + [0x61, SLASH, 0x78]
    ensures Joined(DIR_B, FILE_X) == DIR_P + [SLASH] + [0x62, SLASH, 0x78]
  {
    RFindIs(DIR_A, SLASH, 2);
    RFindIs(DIR_B, SLASH, 2);
    assert DIR_A[..2] == DIR_B[..2] == DIR_P;
  }

  // A walk in /p/b for itself ignores x; after a walk in /p/a, whose chain it shares, it does not.
  lemma SecondWalkMissesRule(root: IgnoreInner)
    requires IsRoot(root) && root.shared.opts.ignore && root.shared.opts.parents
    ensures |LIST_FOR_B.patterns| == |LIST_FOR_B.rules|
    ensures var fs, path := OneFile(DIR_P, MatcherOf(LIST_FOR_B, DIR_P)), TOP_B + [SLASH] + FILE_X;
            && WalkVerdict(fs, root, Ancestors(DIR_B), DIR_B, TOP_B, path, false).Ignore?
            && WalkVerdict(fs, root, Ancestors(DIR_B), DIR_A, TOP_B, path, false) == Elsewhere(root, path, false)
  {
    hide IsRoot, WalkVerdict, Ancestors, Joined, OneFile, Elsewhere, ParentPath, IsPlainTop, AddAll, LastVerdict, Strip;
    SiblingsInP();
    RuleForB([0x62, SLASH, 0x78], false);
    RuleForB([0x61, SLASH, 0x78], false);
    StripInside(DIR_P, [0x62, SLASH, 0x78]);
    StripInside(DIR_P, [0x61, SLASH, 0x78]);
    VerdictWithOneFile(root, DIR_P, MatcherOf(LIST_FOR_B, DIR_P), DIR_B, DIR_B, TOP_B, FILE_X, false);
    VerdictWithOneFile(root, DIR_P, MatcherOf(LIST_FOR_B, DIR_P), DIR_B, DIR_A, TOP_B, FILE_X, false);
  }
}
