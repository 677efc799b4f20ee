/** What the six sources of ignore rules mean: nearer directories win, and repositories shield. */
module ChainRules {
  import opened Wrappers
  import opened Utf8
  import opened Matching
  import opened IgnoreChains

  function Says(source: Source, q: Question, isDir: bool): Match<IgnoreMatch> {
    Said(q.level.Of(source), q.path, isDir)
  }

  predicate SilentBelow(source: Source, asked: seq<Question>, i: nat, isDir: bool)
    requires i <= |asked|
  {
    forall j: nat | j < i :: Says(source, asked[j], isDir).NoMatch?
  }

  predicate RepositoryBelow(asked: seq<Question>, i: nat)
    requires i <= |asked|
  {
    exists j: nat | j < i :: asked[j].level.hasGit
  }

  // The nearest directory with a verdict decides for its source.
  lemma {:induction false} NearestDecides(source: Source, asked: seq<Question>, i: nat, isDir: bool)
    requires i < |asked| && SilentBelow(source, asked, i, isDir) && !Says(source, asked[i], isDir).NoMatch?
    ensures Nearest(source, asked, isDir) == Says(source, asked[i], isDir)
  {
    if i == 0 {
    } else {
      SilentAbove(source, asked, i, isDir);
      NearestDecides(source, asked[1..], i - 1, isDir);
    }
  }

  lemma SilentAbove(source: Source, asked: seq<Question>, i: nat, isDir: bool)
    requires 0 < i <= |asked| && SilentBelow(source, asked, i, isDir)
    ensures Says(source, asked[0], isDir).NoMatch? && SilentBelow(source, asked[1..], i - 1, isDir)
  {
    forall j: nat | j < i - 1
      ensures Says(source, asked[1..][j], isDir).NoMatch?
    {
      assert asked[1..][j] == asked[j + 1];
    }
  }

  lemma {:induction false} SilenceHasNoVerdict(source: Source, asked: seq<Question>, isDir: bool)
    requires SilentBelow(source, asked, |asked|, isDir)
    ensures Nearest(source, asked, isDir).NoMatch? && Nearest(source, InRepository(asked), isDir).NoMatch?
  {
    if asked == [] {
    } else {
      SilentAbove(source, asked, |asked|, isDir);
      SilenceHasNoVerdict(source, asked[1..], isDir);
      var q := asked[0];
      NearestStep(source, q.level, q.path, InRepository(asked[1..]), isDir);
      NearestStep(source, q.level, q.path, [], isDir);
      assert [q] + [] == [q];
    }
  }

  // For a git source, the nearest verdict counts exactly if no repository lies nearer still.
  lemma {:induction false} RepositoryDecides(source: Source, asked: seq<Question>, i: nat, isDir: bool)
    requires i < |asked| && SilentBelow(source, asked, i, isDir) && !Says(source, asked[i], isDir).NoMatch?
    ensures Nearest(source, InRepository(asked), isDir)
         == if RepositoryBelow(asked, i) then NoMatch else Says(source, asked[i], isDir)
  {
    var q, rest := asked[0], InRepository(asked[1..]);
    NearestStep(source, q.level, q.path, rest, isDir);
    NearestStep(source, q.level, q.path, [], isDir);
    assert [q] + [] == [q];
    if i == 0 {
    } else {
      SilentAbove(source, asked, i, isDir);
      if q.level.hasGit {
        assert RepositoryBelow(asked, i);
      } else {
        RepositoryDecides(source, asked[1..], i - 1, isDir);
        RepositoryAbove(asked, i);
      }
    }
  }

  lemma RepositoryAbove(asked: seq<Question>, i: nat)
    requires 0 < i <= |asked| && !asked[0].level.hasGit
    ensures RepositoryBelow(asked, i) <==> RepositoryBelow(asked[1..], i - 1)
  {
    if RepositoryBelow(asked, i) {
      var j: nat :| j < i && asked[j].level.hasGit;
      assert asked[1..][j - 1].level.hasGit;
    }
    if RepositoryBelow(asked[1..], i - 1) {
      var j: nat :| j < i - 1 && asked[1..][j].level.hasGit;
      assert asked[j + 1].level.hasGit;
    }
  }

  // ----- rules above a repository -----

  predicate Agree(source: Source, a: seq<Question>, b: seq<Question>, n: nat, isDir: bool)
    requires n <= |a| && n <= |b|
  {
    forall i: nat | i < n :: Says(source, a[i], isDir) == Says(source, b[i], isDir)
  }

  predicate SameRepositories(a: seq<Question>, b: seq<Question>, n: nat)
    requires n <= |a| && n <= |b|
  {
    forall i: nat | i < n :: a[i].level.hasGit == b[i].level.hasGit
  }

  lemma AgreeAbove(source: Source, a: seq<Question>, b: seq<Question>, n: nat, isDir: bool)
    requires 0 < n <= |a| && n <= |b| && Agree(source, a, b, n, isDir)
    ensures Says(source, a[0], isDir) == Says(source, b[0], isDir) && Agree(source, a[1..], b[1..], n - 1, isDir)
  {
    forall i: nat | i < n - 1
      ensures Says(source, a[1..][i], isDir) == Says(source, b[1..][i], isDir)
    {
      assert a[1..][i] == a[i + 1] && b[1..][i] == b[i + 1];
    }
  }

  lemma {:induction false} AgreementDecides(source: Source, a: seq<Question>, b: seq<Question>, isDir: bool)
    requires |a| == |b| && Agree(source, a, b, |a|, isDir)
    ensures Nearest(source, a, isDir) == Nearest(source, b, isDir)
  {
    if a == [] {
    } else {
      AgreeAbove(source, a, b, |a|, isDir);
      AgreementDecides(source, a[1..], b[1..], isDir);
    }
  }

  // Up to the first repository is all that a git source depends on.
  lemma {:induction false} RepositoryShields(source: Source, a: seq<Question>, b: seq<Question>, k: nat, isDir: bool)
    requires k < |a| && k < |b| && a[k].level.hasGit
    requires SameRepositories(a, b, k + 1) && Agree(source, a, b, k + 1, isDir)
    ensures Nearest(source, InRepository(a), isDir) == Nearest(source, InRepository(b), isDir)
  {
    AgreeAbove(source, a, b, k + 1, isDir);
    assert a[0].level.hasGit == b[0].level.hasGit;
    OneLevel(source, a, isDir);
    OneLevel(source, b, isDir);
    if a[0].level.hasGit {
    } else {
      RepositoryShields(source, a[1..], b[1..], k - 1, isDir);
    }
  }

  lemma OneLevel(source: Source, asked: seq<Question>, isDir: bool)
    requires asked != []
    ensures Nearest(source, InRepository(asked), isDir)
         == Or(Says(source, asked[0], isDir),
               if asked[0].level.hasGit then NoMatch else Nearest(source, InRepository(asked[1..]), isDir))
  {
    var q := asked[0];
    NearestStep(source, q.level, q.path, InRepository(asked[1..]), isDir);
    NearestStep(source, q.level, q.path, [], isDir);
    assert [q] + [] == [q];
  }

  lemma {:induction false} FarIsInChain(ig: Option<IgnoreInner>, i: nat)
    requires i < |Far(ig)|
    ensures Far(ig)[i] in Chain(ig)
  {
    if ig.None? || ig.value.isAbsoluteParent {
    } else {
      FarIsInChain(ig.value.parent, i);
    }
  }

  lemma {:induction false} NearIsInChain(ig: Option<IgnoreInner>, i: nat)
    requires i < |Near(ig)|
    ensures Near(ig)[i] in Chain(ig)
  {
    if i == 0 {
    } else {
      NearIsInChain(ig.value.parent, i - 1);
    }
  }

  // A repository among the directories asked makes the git rules apply.
  lemma AskedRepositoryApplies(ig: IgnoreInner, path: seq<byte>, k: nat)
    requires k < |Questions(ig, path)| && Questions(ig, path)[k].level.hasGit
    ensures GitApplies(ig)
  {
    var near := Near(Some(ig));
    if k < |near| {
      NearIsInChain(Some(ig), k);
    } else {
      FarIsInChain(Some(ig), k - |near|);
    }
    var level := Questions(ig, path)[k].level;
    assert level in Chain(Some(ig));
    var i: nat :| i < |Chain(Some(ig))| && Chain(Some(ig))[i] == level;
    assert Chain(Some(ig))[i].hasGit;
  }

  // However the git rules and repositories above a repository differ, the verdict is the same.
  lemma RulesAboveRepositoryNeverCount(a: IgnoreInner, b: IgnoreInner, path: seq<byte>, isDir: bool, k: nat)
    requires a.shared == b.shared
    requires var qa, qb := Questions(a, path), Questions(b, path);
             && |qa| == |qb| && k < |qa| && qa[k].level.hasGit
             && Agree(Custom, qa, qb, |qa|, isDir) && Agree(DotIgnore, qa, qb, |qa|, isDir)
             && Agree(DotGitignore, qa, qb, k + 1, isDir) && Agree(Exclude, qa, qb, k + 1, isDir)
             && SameRepositories(qa, qb, k + 1)
    ensures RulesVerdict(a, path, isDir) == RulesVerdict(b, path, isDir)
  {
    hide Nearest, InRepository, Agree, FirstVerdict, Questions, GitApplies;
    var qa, qb := Questions(a, path), Questions(b, path);
    AskedRepositoryApplies(a, path, k);
    AskedRepositoryApplies(b, path, k);
    AgreementDecides(Custom, qa, qb, isDir);
    AgreementDecides(DotIgnore, qa, qb, isDir);
    RepositoryShields(DotGitignore, qa, qb, k, isDir);
    RepositoryShields(Exclude, qa, qb, k, isDir);
  }

  // Custom and `.ignore` rules count wherever they are, repositories below them or not.
  lemma PlainRulesAlwaysCount(ig: IgnoreInner, path: seq<byte>, isDir: bool, source: Source, i: nat)
    requires source.Custom? || source.DotIgnore?
    requires var asked := Questions(ig, path);
             && i < |asked| && SilentBelow(source, asked, i, isDir) && !Says(source, asked[i], isDir).NoMatch?
             && (source.DotIgnore? ==> SilentBelow(Custom, asked, |asked|, isDir))
    ensures RulesVerdict(ig, path, isDir) == Says(source, Questions(ig, path)[i], isDir)
  {
    hide Nearest, InRepository, SilentBelow, Questions, GitApplies, LastSaid, Said, FirstVerdict;
    var asked := Questions(ig, path);
    NearestDecides(source, asked, i, isDir);
    if source.DotIgnore? {
      SilenceHasNoVerdict(Custom, asked, isDir);
    }
    FirstTwo(ig, path, isDir);
  }

  lemma FirstTwo(ig: IgnoreInner, path: seq<byte>, isDir: bool)
    ensures var first, second := Nearest(Custom, Questions(ig, path), isDir), Nearest(DotIgnore, Questions(ig, path), isDir);
            && (!first.NoMatch? ==> RulesVerdict(ig, path, isDir) == first)
            && (first.NoMatch? && !second.NoMatch? ==> RulesVerdict(ig, path, isDir) == second)
  {
    hide Nearest, InRepository, NearestInRepository, Questions, GitApplies, LastSaid, Said;
    RulesVerdictIs(ig, path, isDir,
                   Finish(Found(NoMatch, NoMatch, NoMatch, NoMatch, false), Questions(ig, path), GitApplies(ig), isDir));
  }

  // Where plain rules are silent, a `.gitignore` decides exactly if git rules apply and no
  // repository lies between it and the path. Otherwise the later sources do.
  lemma GitignoreCountsUpToRepository(ig: IgnoreInner, path: seq<byte>, isDir: bool, i: nat)
    requires var asked := Questions(ig, path);
             && SilentBelow(Custom, asked, |asked|, isDir) && SilentBelow(DotIgnore, asked, |asked|, isDir)
             && i < |asked| && SilentBelow(DotGitignore, asked, i, isDir) && !Says(DotGitignore, asked[i], isDir).NoMatch?
    ensures var asked, anyGit := Questions(ig, path), GitApplies(ig);
            RulesVerdict(ig, path, isDir)
            == if anyGit && !RepositoryBelow(asked, i) then Says(DotGitignore, asked[i], isDir)
               else Or(Or(NearestInRepository(Exclude, asked, isDir, anyGit),
                          if anyGit then Said(ig.shared.gitGlobal, path, isDir) else NoMatch),
                       LastSaid(ig.shared.explicitIgnores, path, isDir))
  {
    hide Nearest, InRepository, SilentBelow, RepositoryBelow, Questions, GitApplies, LastSaid, Said;
    var asked := Questions(ig, path);
    SilenceHasNoVerdict(Custom, asked, isDir);
    SilenceHasNoVerdict(DotIgnore, asked, isDir);
    RepositoryDecides(DotGitignore, asked, i, isDir);
    RulesVerdictIs(ig, path, isDir,
                   Finish(Found(NoMatch, NoMatch, NoMatch, NoMatch, false), asked, GitApplies(ig), isDir));
  }
}
