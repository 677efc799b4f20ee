/** Building chains of directory matchers, with a cache of those of the absolute parents. */
module IgnoreParents {
  import opened Wrappers
  import opened Utf8
  import opened Paths
  import opened Matching
  import opened Gitignore
  import opened IgnoreChains

  const EMPTY: Matcher := (path, isDir) => NoMatch

  // What a file system that does not change answers: the matcher of the ignore files of these names
  // in a directory, that of its exclude file (which is sought depending on the kind of its .git, if
  // that was looked up), and which directories hold a .git or a .jj.
  datatype FileSystem = FileSystem(
    ignoreFiles: (seq<byte>, seq<string>) -> Matcher,
    excludeFile: (seq<byte>, bool) -> Matcher,
    hasDotGit: seq<byte> -> bool,
    hasDotJj: seq<byte> -> bool
  )

  function ChildOf(fs: FileSystem, ig: IgnoreInner, dir: seq<byte>): IgnoreInner {
    var opts := ig.shared.opts;
    var names := ig.shared.customFilenames;
    var checkVcs := opts.requireGit && (opts.gitIgnore || opts.gitExclude);
    IgnoreInner(
      dir, Some(ig), false, ig.absoluteBase,
      if names == [] then EMPTY else fs.ignoreFiles(dir, names),
      if opts.ignore then fs.ignoreFiles(dir, [".ignore"]) else EMPTY,
      if opts.gitIgnore then fs.ignoreFiles(dir, [".gitignore"]) else EMPTY,
      if opts.gitExclude then fs.excludeFile(dir, checkVcs) else EMPTY,
      checkVcs && (fs.hasDotGit(dir) || fs.hasDotJj(dir)),
      ig.shared)
  }

  function AbsoluteParentOf(fs: FileSystem, ig: IgnoreInner, dir: seq<byte>, base: seq<byte>): IgnoreInner {
    var opts := ig.shared.opts;
    ChildOf(fs, ig, dir).(
      isAbsoluteParent := true,
      absoluteBase := Some(base),
      hasGit := opts.requireGit && opts.gitIgnore && (fs.hasDotGit(dir) || fs.hasDotJj(dir)))
  }

  predicate WantsParents(opts: IgnoreOptions) {
    opts.parents || opts.gitIgnore || opts.gitExclude || opts.gitGlobal
  }

  // A matcher as a builder makes it, before any directory is added.
  ghost predicate IsRoot(ig: IgnoreInner) {
    && ig.parent.None? && ig.isAbsoluteParent && ig.absoluteBase.None? && !ig.hasGit
    && ig.custom == EMPTY && ig.dotIgnore == EMPTY && ig.dotGitignore == EMPTY && ig.exclude == EMPTY
    && (!ig.shared.opts.gitGlobal ==> ig.shared.gitGlobal == EMPTY)
  }

  // ----- directories above a path -----

  // The directory above a canonical path.
  function ParentPath(path: seq<byte>): (r: Option<seq<byte>>)
    requires path != [] && path[0] == SLASH
    ensures r.Some? ==> r.value != [] && r.value[0] == SLASH && |r.value| < |path|
  {
    if path == [SLASH] then None
    else
      var cut := RFind(path, SLASH).value;
      if cut == 0 then Some([SLASH]) else Some(path[..cut])
  }

  // From the root directory down to the directory above a path.
  function Ancestors(path: seq<byte>): (r: seq<seq<byte>>)
    requires path != [] && path[0] == SLASH
    ensures forall i | 0 <= i < |r| :: r[i] != [] && r[i][0] == SLASH && |r[i]| < |path|
    decreases |path|
  {
    match ParentPath(path)
    case None => []
    case Some(p) => Ancestors(p) + [p]
  }

  lemma {:induction false} AncestorsOfAncestor(path: seq<byte>, i: nat)
    requires path != [] && path[0] == SLASH && i < |Ancestors(path)|
    ensures Ancestors(Ancestors(path)[i]) == Ancestors(path)[..i]
    decreases |path|
  {
    var p := ParentPath(path).value;
    if i < |Ancestors(p)| {
      AncestorsOfAncestor(p, i);
      assert Ancestors(path)[i] == Ancestors(p)[i];
      assert Ancestors(path)[..i] == Ancestors(p)[..i];
    } else {
      assert Ancestors(path)[..i] == Ancestors(p);
    }
  }

  lemma AncestorsDiffer(path: seq<byte>, i: nat, j: nat)
    requires path != [] && path[0] == SLASH && i < j < |Ancestors(path)|
    ensures Ancestors(path)[i] != Ancestors(path)[j]
  {
    AncestorsOfAncestor(path, i);
    AncestorsOfAncestor(path, j);
    assert |Ancestors(path)[..i]| == i && |Ancestors(path)[..j]| == j;
  }

  lemma NextAncestor(path: seq<byte>, k: nat)
    requires path != [] && path[0] == SLASH && k < |Ancestors(path)|
    ensures var dirs, dir := Ancestors(path), Ancestors(path)[k];
            && dir != [] && dir[0] == SLASH
            && Ancestors(dir) == dirs[..k] && dir !in dirs[..k] && dirs[..k + 1] == dirs[..k] + [dir]
  {
    AncestorsOfAncestor(path, k);
    NotYetListed(path, k);
  }

  lemma NotYetListed(path: seq<byte>, k: nat)
    requires path != [] && path[0] == SLASH && k < |Ancestors(path)|
    ensures Ancestors(path)[k] !in Ancestors(path)[..k]
  {
    forall i | 0 <= i < k
      ensures Ancestors(path)[i] != Ancestors(path)[k]
    {
      AncestorsDiffer(path, i, k);
    }
  }

  // ----- chains -----

  // The directories of a chain, from the one above the root matcher on.
  function DirsOf(ig: IgnoreInner): seq<seq<byte>> {
    if ig.parent.None? then [] else DirsOf(ig.parent.value) + [ig.dir]
  }

  // What every chain reachable from a root matcher is.
  ghost predicate Built(fs: FileSystem, root: IgnoreInner, ig: IgnoreInner) {
    match ig.parent
    case None => ig == root
    case Some(p) =>
      && Built(fs, root, p)
      && if ig.isAbsoluteParent
         then p.isAbsoluteParent && ig.absoluteBase.Some? && ig == AbsoluteParentOf(fs, p, ig.dir, ig.absoluteBase.value)
         else ig == ChildOf(fs, p, ig.dir)
  }

  // The chain an uncached build gives for these absolute directories.
  function Uncached(fs: FileSystem, root: IgnoreInner, dirs: seq<seq<byte>>, base: seq<byte>): IgnoreInner
    decreases |dirs|
  {
    if dirs == [] then root
    else
      var n := |dirs| - 1;
      AbsoluteParentOf(fs, Uncached(fs, root, dirs[..n], base), dirs[n], base)
  }

  // A chain but for the base paths.
  function WithoutBase(ig: IgnoreInner): IgnoreInner {
    match ig.parent
    case None => ig.(absoluteBase := None)
    case Some(p) => ig.(absoluteBase := None, parent := Some(WithoutBase(p)))
  }

  // An absolute chain is what an uncached build makes of its directories.
  lemma {:induction false} BuiltAsUncached(fs: FileSystem, root: IgnoreInner, ig: IgnoreInner, base: seq<byte>)
    requires root.parent.None? && Built(fs, root, ig) && ig.isAbsoluteParent
    ensures WithoutBase(ig) == WithoutBase(Uncached(fs, root, DirsOf(ig), base))
    decreases ig
  {
    if ig.parent.None? {
    } else {
      var p, dirs := ig.parent.value, DirsOf(ig);
      BuiltAsUncached(fs, root, p, base);
      assert dirs[..|dirs| - 1] == DirsOf(p);
      BuiltShares(fs, root, p);
      UncachedShares(fs, root, DirsOf(p), base);
    }
  }

  lemma {:induction false} BuiltShares(fs: FileSystem, root: IgnoreInner, ig: IgnoreInner)
    requires Built(fs, root, ig)
    ensures ig.shared == root.shared
  {
    if ig.parent.None? {
    } else {
      BuiltShares(fs, root, ig.parent.value);
    }
  }

  lemma {:induction false} UncachedShares(fs: FileSystem, root: IgnoreInner, dirs: seq<seq<byte>>, base: seq<byte>)
    ensures Uncached(fs, root, dirs, base).shared == root.shared
    decreases |dirs|
  {
    if dirs == [] {
    } else {
      UncachedShares(fs, root, dirs[..|dirs| - 1], base);
    }
  }

  lemma RootIsBuilt(fs: FileSystem, root: IgnoreInner)
    requires IsRoot(root)
    ensures root.parent.None? && root.absoluteBase.None? && Built(fs, root, root) && root.isAbsoluteParent && DirsOf(root) == []
  {
  }

  lemma NextIsBuilt(fs: FileSystem, root: IgnoreInner, ig: IgnoreInner, dir: seq<byte>, base: seq<byte>)
    requires Built(fs, root, ig) && ig.isAbsoluteParent
    ensures var r := AbsoluteParentOf(fs, ig, dir, base);
            Built(fs, root, r) && r.isAbsoluteParent && DirsOf(r) == DirsOf(ig) + [dir] && r.absoluteBase == Some(base)
  {
  }

  // Every chain is non-absolute matchers followed by absolute ones down to the root, so the two
  // loops of a lookup split it exactly.
  lemma {:induction false} NearAndFarSplit(fs: FileSystem, root: IgnoreInner, ig: IgnoreInner)
    requires IsRoot(root) && Built(fs, root, ig)
    ensures Chain(Some(ig)) == Near(Some(ig)) + Far(Some(ig))
    ensures forall x | x in Near(Some(ig)) :: !x.isAbsoluteParent
    ensures forall x | x in Far(Some(ig)) :: x.isAbsoluteParent
    ensures Far(Some(ig)) != [] && Far(Some(ig))[|Far(Some(ig))| - 1] == root
    decreases ig
  {
    hide Built, IsRoot, Chain, Near, Far;
    if ig.parent.None? {
      RootIsBuilt(fs, root);
      BuiltFromRoot(fs, root, ig);
      RootIsFar(root);
    } else {
      BuiltOnParent(fs, root, ig);
      NearAndFarSplit(fs, root, ig.parent.value);
      assert Some(ig.parent.value) == ig.parent;
      if ig.isAbsoluteParent {
        AllFar(ig);
        OneMoreFar(ig, Far(ig.parent), root);
      } else {
        NotFar(ig);
        OneMoreNear(ig, Near(ig.parent), Far(ig.parent));
      }
    }
  }

  lemma RootIsFar(root: IgnoreInner)
    requires root.parent.None? && root.isAbsoluteParent
    ensures Chain(Some(root)) == Far(Some(root)) == [root] && Near(Some(root)) == []
  {
    assert Chain(root.parent) == [];
  }

  lemma NotFar(ig: IgnoreInner)
    requires !ig.isAbsoluteParent
    ensures Chain(Some(ig)) == [ig] + Chain(ig.parent) && Near(Some(ig)) == [ig] + Near(ig.parent) && Far(Some(ig)) == Far(ig.parent)
  {
  }

  lemma AllFar(ig: IgnoreInner)
    requires ig.isAbsoluteParent && ig.parent.Some? && ig.parent.value.isAbsoluteParent
    ensures Near(Some(ig)) == [] && Near(ig.parent) == []
    ensures Far(Some(ig)) == [ig] + Far(ig.parent) == Chain(Some(ig))
  {
  }

  lemma OneMoreFar(ig: IgnoreInner, far: seq<IgnoreInner>, root: IgnoreInner)
    requires ig.isAbsoluteParent && (forall x | x in far :: x.isAbsoluteParent) && far != [] && far[|far| - 1] == root
    ensures forall x | x in [ig] + far :: x.isAbsoluteParent
    ensures ([ig] + far)[|far|] == root
  {
  }

  lemma OneMoreNear(ig: IgnoreInner, near: seq<IgnoreInner>, far: seq<IgnoreInner>)
    requires !ig.isAbsoluteParent && forall x | x in near :: !x.isAbsoluteParent
    ensures [ig] + (near + far) == ([ig] + near) + far
    ensures forall x | x in [ig] + near :: !x.isAbsoluteParent
  {
  }

  lemma BuiltFromRoot(fs: FileSystem, root: IgnoreInner, ig: IgnoreInner)
    requires Built(fs, root, ig) && ig.parent.None?
    ensures ig == root
  {
  }

  lemma BuiltOnParent(fs: FileSystem, root: IgnoreInner, ig: IgnoreInner)
    requires Built(fs, root, ig) && ig.parent.Some?
    ensures Built(fs, root, ig.parent.value) && (ig.isAbsoluteParent ==> ig.parent.value.isAbsoluteParent)
  {
  }

  // Without the need for a repository, no directory is taken for one, and nothing shields git rules.
  lemma {:induction false} RepositoriesOnlyIfRequired(fs: FileSystem, root: IgnoreInner, ig: IgnoreInner)
    requires IsRoot(root) && Built(fs, root, ig)
    ensures forall x | x in Chain(Some(ig)) && x.hasGit ::
              var opts := root.shared.opts; opts.requireGit && (opts.gitIgnore || opts.gitExclude)
    decreases ig
  {
    if ig.parent.None? {
    } else {
      RepositoriesOnlyIfRequired(fs, root, ig.parent.value);
      BuiltShares(fs, root, ig.parent.value);
    }
  }

  // ----- exclude rules above a walk -----

  // The two ways of adding a directory take it for a repository alike, unless there is one and only
  // exclude rules are read.
  lemma RepositoriesTakenAlike(fs: FileSystem, ig: IgnoreInner, dir: seq<byte>, base: seq<byte>)
    ensures var opts := ig.shared.opts;
            AbsoluteParentOf(fs, ig, dir, base).hasGit == ChildOf(fs, ig, dir).hasGit
            <==> !(opts.requireGit && opts.gitExclude && !opts.gitIgnore && (fs.hasDotGit(dir) || fs.hasDotJj(dir)))
  {
  }

  lemma {:induction false} FarRepositories(fs: FileSystem, root: IgnoreInner, ig: IgnoreInner)
    requires IsRoot(root) && Built(fs, root, ig)
    ensures forall x | x in Far(Some(ig)) && x.hasGit :: root.shared.opts.requireGit && root.shared.opts.gitIgnore
    decreases ig
  {
    if ig.parent.None? {
      assert Chain(ig.parent) == [];
      assert Far(Some(ig)) == [root];
    } else {
      BuiltShares(fs, root, ig.parent.value);
      FarRepositories(fs, root, ig.parent.value);
      if ig.isAbsoluteParent {
        AllFar(ig);
      }
    }
  }

  lemma {:induction false} RepositoryEnds(a: seq<Question>, b: seq<Question>)
    requires exists k: nat :: k < |a| && a[k].level.hasGit
    ensures InRepository(a + b) == InRepository(a)
  {
    if a[0].level.hasGit {
    } else {
      var k: nat :| k < |a| && a[k].level.hasGit;
      assert a[1..][k - 1].level.hasGit;
      assert (a + b)[1..] == a[1..] + b;
      RepositoryEnds(a[1..], b);
    }
  }

  // Where repositories are required and `.gitignore` files are not read, a repository above the walk
  // is not noticed: its exclude rules, like all git rules from there, never count.
  lemma ExcludeRulesAboveWalkNeverCount(fs: FileSystem, root: IgnoreInner, ig: IgnoreInner, source: Source,
                                        path: seq<byte>, isDir: bool)
    requires IsRoot(root) && Built(fs, root, ig)
    requires root.shared.opts.requireGit && !root.shared.opts.gitIgnore
    ensures GitApplies(ig) <==> HasRepository(Near(Some(ig)))
    ensures NearestInRepository(source, Questions(ig, path), isDir, GitApplies(ig))
         == NearestInRepository(source, AskAll(Near(Some(ig)), path), isDir, GitApplies(ig))
  {
    hide Nearest, InRepository, Built, IsRoot;
    var near, far := Near(Some(ig)), Far(Some(ig));
    BuiltShares(fs, root, ig);
    NearAndFarSplit(fs, root, ig);
    FarRepositories(fs, root, ig);
    NoRepositoryBehind(near, far);
    if HasRepository(near) {
      AskedRepository(near, path);
      RepositoryEnds(AskAll(near, path), FarQuestions(ig, path));
    }
  }

  lemma NoRepositoryBehind(near: seq<IgnoreInner>, far: seq<IgnoreInner>)
    requires forall x | x in far :: !x.hasGit
    ensures HasRepository(near + far) <==> HasRepository(near)
  {
    if !HasRepository(near) {
      forall x | x in near + far
        ensures !x.hasGit
      {
        if x in near {
          var i: nat :| i < |near| && near[i] == x;
        }
      }
      assert forall i: nat | i < |near + far| :: (near + far)[i] in near + far;
    }
    if i: nat :| i < |near| && near[i].hasGit {
      assert (near + far)[i].hasGit;
    }
  }

  lemma AskedRepository(levels: seq<IgnoreInner>, path: seq<byte>)
    requires HasRepository(levels)
    ensures exists k: nat :: k < |AskAll(levels, path)| && AskAll(levels, path)[k].level.hasGit
  {
    var i: nat :| i < |levels| && levels[i].hasGit;
    assert AskAll(levels, path)[i].level.hasGit;
  }

  // ----- the files that are read -----

  // Of a directory those files are read that the options ask for, each by its own option, and nothing
  // else. It is a repository if it holds a .git or a .jj, where repositories are required and git files
  // are read; above the walk the exclude files are not enough.
  ghost predicate Reads(fs: FileSystem, ig: IgnoreInner) {
    var opts, names := ig.shared.opts, ig.shared.customFilenames;
    && (if names == [] then IsSilent(ig.custom) else ig.custom == fs.ignoreFiles(ig.dir, names))
    && (if opts.ignore then ig.dotIgnore == fs.ignoreFiles(ig.dir, [".ignore"]) else IsSilent(ig.dotIgnore))
    && (if opts.gitIgnore then ig.dotGitignore == fs.ignoreFiles(ig.dir, [".gitignore"]) else IsSilent(ig.dotGitignore))
    && (if opts.gitExclude then ig.exclude == fs.excludeFile(ig.dir, opts.requireGit) else IsSilent(ig.exclude))
    && (ig.hasGit <==>
          && (fs.hasDotGit(ig.dir) || fs.hasDotJj(ig.dir))
          && opts.requireGit && (opts.gitIgnore || (opts.gitExclude && !ig.isAbsoluteParent)))
  }

  // Every level of a chain but the root matcher has read its files; the root matcher has none.
  ghost predicate AllRead(fs: FileSystem, root: IgnoreInner, ig: IgnoreInner) {
    && (forall level | level in Chain(Some(ig)) :: level == root || Reads(fs, level))
    && (forall source: Source :: IsSilent(root.Of(source))) && !root.hasGit
  }

  lemma ChildReads(fs: FileSystem, ig: IgnoreInner, dir: seq<byte>, base: seq<byte>)
    ensures Reads(fs, ChildOf(fs, ig, dir)) && Reads(fs, AbsoluteParentOf(fs, ig, dir, base))
  {
  }

  lemma {:induction false} ChainReads(fs: FileSystem, root: IgnoreInner, ig: IgnoreInner)
    requires IsRoot(root) && Built(fs, root, ig)
    ensures AllRead(fs, root, ig)
    decreases ig
  {
    hide Reads, ChildOf, AbsoluteParentOf;
    if ig.parent.None? {
      assert Chain(ig.parent) == [];
      RootIsSilent(root);
    } else {
      var p := ig.parent.value;
      ChainReads(fs, root, p);
      ChildReads(fs, p, ig.dir, if ig.absoluteBase.Some? then ig.absoluteBase.value else []);
      assert Chain(Some(ig)) == [ig] + Chain(Some(p));
    }
  }

  lemma RootIsSilent(root: IgnoreInner)
    requires IsRoot(root)
    ensures (forall source: Source :: IsSilent(root.Of(source))) && !root.hasGit
  {
  }

  // ----- the shortcut for walks without ignore rules -----

  lemma {:induction false} NoRulesNoMatchers(fs: FileSystem, root: IgnoreInner, ig: IgnoreInner, source: Source)
    requires IsRoot(root) && Built(fs, root, ig) && !ig.HasAnyIgnoreRules()
    ensures forall x | x in Chain(Some(ig)) :: x.Of(source) == EMPTY
    decreases ig
  {
    if ig.parent.None? {
    } else {
      NoRulesNoMatchers(fs, root, ig.parent.value, source);
    }
  }

  // The shortcut is sound: without any kind of rule the chain has nothing to say.
  lemma ShortcutIsSound(fs: FileSystem, root: IgnoreInner, ig: IgnoreInner, path: seq<byte>, isDir: bool)
    requires IsRoot(root) && Built(fs, root, ig) && !ig.HasAnyIgnoreRules()
    ensures RulesVerdict(ig, path, isDir).NoMatch?
  {
    hide Nearest, InRepository, Questions, GitApplies, Built, FirstVerdict;
    BuiltShares(fs, root, ig);
    var asked := Questions(ig, path);
    SourceIsSilent(fs, root, ig, path, isDir, Custom);
    SourceIsSilent(fs, root, ig, path, isDir, DotIgnore);
    SourceIsSilent(fs, root, ig, path, isDir, DotGitignore);
    SourceIsSilent(fs, root, ig, path, isDir, Exclude);
    RulesVerdictIs(ig, path, isDir,
                   Finish(Found(NoMatch, NoMatch, NoMatch, NoMatch, false), asked, GitApplies(ig), isDir));
  }

  lemma SourceIsSilent(fs: FileSystem, root: IgnoreInner, ig: IgnoreInner, path: seq<byte>, isDir: bool, source: Source)
    requires IsRoot(root) && Built(fs, root, ig) && !ig.HasAnyIgnoreRules()
    ensures var asked := Questions(ig, path);
            Nearest(source, asked, isDir).NoMatch? && Nearest(source, InRepository(asked), isDir).NoMatch?
  {
    hide Nearest, InRepository, Built;
    NoRulesNoMatchers(fs, root, ig, source);
    NearAndFarSplit(fs, root, ig);
    var asked := Questions(ig, path);
    forall q | q in asked
      ensures q.level.Of(source) == EMPTY
    {
      assert q.level in Chain(Some(ig));
    }
    SilentQuestions(source, asked, isDir);
    FirstQuestions(asked);
    SilentQuestions(source, InRepository(asked), isDir);
  }

  lemma {:induction false} SilentQuestions(source: Source, asked: seq<Question>, isDir: bool)
    requires forall q | q in asked :: q.level.Of(source) == EMPTY
    ensures Nearest(source, asked, isDir).NoMatch?
  {
    if asked == [] {
    } else {
      SilentQuestions(source, asked[1..], isDir);
    }
  }

  lemma {:induction false} FirstQuestions(asked: seq<Question>)
    ensures forall q | q in InRepository(asked) :: q in asked
  {
    if asked == [] {
    } else {
      FirstQuestions(asked[1..]);
    }
  }

  // ----- the cache -----

  type Cache = map<seq<byte>, IgnoreInner>

  // An absolute chain of these directories.
  ghost predicate IsChainOf(fs: FileSystem, root: IgnoreInner, ig: IgnoreInner, dirs: seq<seq<byte>>) {
    Built(fs, root, ig) && ig.isAbsoluteParent && DirsOf(ig) == dirs
  }

  // Each entry is the absolute chain of its directory.
  ghost predicate CacheIsValid(fs: FileSystem, root: IgnoreInner, compiled: Cache) {
    forall d | d in compiled :: d != [] && d[0] == SLASH && IsChainOf(fs, root, compiled[d], Ancestors(d) + [d])
  }

  lemma RootIsChain(fs: FileSystem, root: IgnoreInner)
    requires IsRoot(root)
    ensures IsChainOf(fs, root, root, [])
  {
    RootIsBuilt(fs, root);
  }

  lemma ChainIsBuilt(fs: FileSystem, root: IgnoreInner, ig: IgnoreInner, dirs: seq<seq<byte>>)
    requires IsChainOf(fs, root, ig, dirs)
    ensures Built(fs, root, ig) && ig.isAbsoluteParent && DirsOf(ig) == dirs
  {
  }

  // What becomes of the cache and of the chain when one more directory is added. The entry of a
  // directory may have died.
  function AddedParent(fs: FileSystem, compiled: Cache, ig: IgnoreInner, dir: seq<byte>, base: seq<byte>, alive: bool)
    : (Cache, IgnoreInner)
  {
    if dir in compiled && alive then (compiled, compiled[dir])
    else
      var r := AbsoluteParentOf(fs, ig, dir, base);
      (compiled[dir := r], r)
  }

  lemma AddedParentIsChain(fs: FileSystem, root: IgnoreInner, compiled: Cache, ig: IgnoreInner, dir: seq<byte>, base: seq<byte>,
                           alive: bool)
    requires CacheIsValid(fs, root, compiled) && dir != [] && dir[0] == SLASH && IsChainOf(fs, root, ig, Ancestors(dir))
    ensures var (after, r) := AddedParent(fs, compiled, ig, dir, base, alive);
            && CacheIsValid(fs, root, after) && IsChainOf(fs, root, r, Ancestors(dir) + [dir])
            && dir in after && after[dir] == r && forall d | d != dir :: SameEntry(after, compiled, d)
  {
    hide Ancestors, Built, DirsOf, AbsoluteParentOf;
    NextIsBuilt(fs, root, ig, dir, base);
  }

  /** A root matcher with the cache that it shares with all matchers made from it. */
  class Ignore {
    const fs: FileSystem
    const root: IgnoreInner
    var compiled: Cache

    constructor (fs: FileSystem, root: IgnoreInner)
      requires IsRoot(root)
      ensures this.fs == fs && this.root == root && compiled == map[] && Valid()
    {
      this.fs, this.root := fs, root;
      compiled := map[];
    }

    ghost predicate Valid()
      reads this
    {
      IsRoot(root) && CacheIsValid(fs, root, compiled)
    }

    // The canonical form of the path is given, if it has one. Whether an entry of the cache is still
    // alive when it is looked up is beyond the caller's control.
    method AddParents(canonical: Option<seq<byte>>, alive: seq<byte> -> bool) returns (ig: IgnoreInner)
      requires Valid()
      requires canonical.Some? ==> canonical.value != [] && canonical.value[0] == SLASH
      modifies this
      ensures Valid() && Built(fs, root, ig) && ig.isAbsoluteParent
      ensures AllRead(fs, root, ig)
      ensures var opts := root.shared.opts;
              !(opts.parents || opts.gitIgnore || opts.gitExclude || opts.gitGlobal) || canonical.None? ==>
                ig == root && compiled == old(compiled)
      ensures var opts := root.shared.opts;
              (opts.parents || opts.gitIgnore || opts.gitExclude || opts.gitGlobal) && canonical.Some? ==>
                var base := canonical.value;
                && WithoutBase(ig) == WithoutBase(Uncached(fs, root, Ancestors(base), base))
                && ig.absoluteBase == BaseFound(old(compiled), base, alive)
                && CachedUpTo(compiled, old(compiled), Ancestors(base))
                && (compiled, ig) == AddedParents(fs, old(compiled), root, Ancestors(base), base, alive)
                && (ParentPath(base).Some? ==> ParentPath(base).value in compiled && compiled[ParentPath(base).value] == ig)
    {
      hide Built, Ancestors, IsRoot, DirsOf, WithoutBase, Uncached, ParentPath, BaseOf, CachedUpTo, SameEntry, IsChainOf, CacheIsValid,
           AddedParents, AddedParent, BaseFound, AllRead;
      RootIsBuilt(fs, root);
      RootIsChain(fs, root);
      if !WantsParents(root.shared.opts) || canonical.None? {
        ChainReads(fs, root, root);
        return root;
      }
      hide WantsParents;
      var base := canonical.value;
      ghost var dirs := Ancestors(base);
      var parents := ListParents(base);
      ig := root;
      var i := |parents|;
      ghost var done := [];
      while i > 0
        invariant 0 <= i <= |parents| && |done| == |parents| - i && done == dirs[..|done|]
        invariant Valid() && IsChainOf(fs, root, ig, done)
        invariant AddedParents(fs, compiled, ig, dirs[|done|..], base, alive) == AddedParents(fs, old(compiled), root, dirs, base, alive)
      {
        i := i - 1;
        NextAncestor(base, |done|);
        assert parents[i] == dirs[|done|];
        AddedNext(fs, compiled, ig, dirs[|done|..], base, alive);
        assert dirs[|done|..][1..] == dirs[|done| + 1..];
        ig := AddParent(ig, parents[i], base, alive);
        done := done + [parents[i]];
      }
      assert done == dirs;
      AddedNothing(fs, compiled, ig, base, alive);
      assert dirs[|done|..] == [];
      ChainIsBuilt(fs, root, ig, dirs);
      BuiltAsUncached(fs, root, ig, base);
      AddedAncestors(fs, old(compiled), root, base, alive);
      ChainReads(fs, root, ig);
    }

    // One step of the loop over the parents.
    method AddParent(ig: IgnoreInner, dir: seq<byte>, base: seq<byte>, alive: seq<byte> -> bool) returns (r: IgnoreInner)
      requires Valid() && dir != [] && dir[0] == SLASH && IsChainOf(fs, root, ig, Ancestors(dir))
      modifies this
      ensures Valid() && IsChainOf(fs, root, r, Ancestors(dir) + [dir])
      ensures (compiled, r) == AddedParent(fs, old(compiled), ig, dir, base, alive(dir))
      ensures dir in compiled && compiled[dir] == r && forall d | d != dir :: SameEntry(compiled, old(compiled), d)
      ensures r.absoluteBase == BaseOf(old(compiled), dir, base, alive)
    {
      hide Ancestors, Built, DirsOf, IsRoot, CacheIsValid, IsChainOf;
      AddedParentIsChain(fs, root, compiled, ig, dir, base, alive(dir));
      if dir in compiled && alive(dir) {
        return compiled[dir];
      }
      ChainIsBuilt(fs, root, ig, Ancestors(dir));
      BuiltShares(fs, root, ig);
      r := ChildOf(fs, ig, dir);
      r := r.(isAbsoluteParent := true);
      r := r.(absoluteBase := Some(base));
      r := r.(hasGit :=
        if root.shared.opts.requireGit && root.shared.opts.gitIgnore then fs.hasDotGit(dir) || fs.hasDotJj(dir) else false);
      assert r == AbsoluteParentOf(fs, ig, dir, base);
      hide ChildOf, AbsoluteParentOf;
      compiled := compiled[dir := r];
    }

    // Walks from two paths of one directory share its matcher while it is alive, so with a fresh
    // cache the second gets the base path of the first.
    method AddParentsOfSiblings(first: seq<byte>, second: seq<byte>, alive: seq<byte> -> bool)
      returns (a: IgnoreInner, b: IgnoreInner)
      requires Valid() && WantsParents(root.shared.opts)
      requires first != [] && first[0] == SLASH && second != [] && second[0] == SLASH
      requires ParentPath(first).Some? && ParentPath(second) == ParentPath(first) && alive(ParentPath(first).value)
      modifies this
      ensures Valid() && (old(compiled) == map[] ==> a.absoluteBase == b.absoluteBase == Some(first))
      ensures WithoutBase(b) == WithoutBase(Uncached(fs, root, Ancestors(second), second))
    {
      hide Ancestors, ParentPath, Built, IsRoot, WithoutBase, Uncached, CachedUpTo;
      a := AddParents(Some(first), alive);
      BaseFoundIs(old(compiled), first, alive);
      ghost var between := compiled;
      b := AddParents(Some(second), alive);
      BaseFoundIs(between, second, alive);
    }

    // A matcher for a directory below, added while walking.
    method AddChild(ig: IgnoreInner, dir: seq<byte>) returns (r: IgnoreInner)
      requires IsRoot(root) && Built(fs, root, ig)
      ensures Built(fs, root, r) && !r.isAbsoluteParent && DirsOf(r) == DirsOf(ig) + [dir]
      ensures r.parent == Some(ig) && r.absoluteBase == ig.absoluteBase && r.dir == dir && r.shared == ig.shared
      ensures Reads(fs, r) && AllRead(fs, root, r)
    {
      r := ChildOf(fs, ig, dir);
      ChildReads(fs, ig, dir, []);
      ChainReads(fs, root, r);
    }
  }

  // Adding all these directories, one after another.
  function AddedParents(fs: FileSystem, compiled: Cache, ig: IgnoreInner, dirs: seq<seq<byte>>, base: seq<byte>,
                        alive: seq<byte> -> bool): (Cache, IgnoreInner)
    decreases |dirs|
  {
    if dirs == [] then (compiled, ig)
    else
      var (after, r) := AddedParent(fs, compiled, ig, dirs[0], base, alive(dirs[0]));
      AddedParents(fs, after, r, dirs[1..], base, alive)
  }

  lemma AddedNext(fs: FileSystem, compiled: Cache, ig: IgnoreInner, dirs: seq<seq<byte>>, base: seq<byte>, alive: seq<byte> -> bool)
    requires dirs != []
    ensures var (after, r) := AddedParent(fs, compiled, ig, dirs[0], base, alive(dirs[0]));
            AddedParents(fs, compiled, ig, dirs, base, alive) == AddedParents(fs, after, r, dirs[1..], base, alive)
  {
    hide AddedParent;
  }

  lemma AddedNothing(fs: FileSystem, compiled: Cache, ig: IgnoreInner, base: seq<byte>, alive: seq<byte> -> bool)
    ensures AddedParents(fs, compiled, ig, [], base, alive) == (compiled, ig)
  {
  }

  predicate Distinct(dirs: seq<seq<byte>>) {
    forall i, j | 0 <= i < j < |dirs| :: dirs[i] != dirs[j]
  }

  // The first of these directories is cached, and no other entry has changed.
  lemma OneAdded(fs: FileSystem, compiled: Cache, ig: IgnoreInner, dir: seq<byte>, base: seq<byte>, alive: seq<byte> -> bool)
    ensures var (after, r) := AddedParent(fs, compiled, ig, dir, base, alive(dir));
            && dir in after && after[dir] == r && r.absoluteBase == BaseOf(compiled, dir, base, alive)
            && forall d | d != dir :: SameEntry(after, compiled, d)
  {
  }

  // All the directories are cached, and the last of them is the one that is returned.
  lemma {:induction false} AllAdded(fs: FileSystem, compiled: Cache, ig: IgnoreInner, dirs: seq<seq<byte>>, base: seq<byte>,
                                    alive: seq<byte> -> bool)
    requires Distinct(dirs)
    ensures var (after, r) := AddedParents(fs, compiled, ig, dirs, base, alive);
            && CachedUpTo(after, compiled, dirs)
            && if dirs == [] then r == ig
               else
                 var last := dirs[|dirs| - 1];
                 last in after && after[last] == r && r.absoluteBase == BaseOf(compiled, last, base, alive)
    decreases |dirs|
  {
    hide AddedParent;
    if dirs == [] {
    } else {
      var dir, rest := dirs[0], dirs[1..];
      OneAdded(fs, compiled, ig, dir, base, alive);
      var (mid, r) := AddedParent(fs, compiled, ig, dir, base, alive(dir));
      RestIsDistinct(dirs);
      AllAdded(fs, mid, r, rest, base, alive);
      hide Distinct, AddedParents;
      AddedNext(fs, compiled, ig, dirs, base, alive);
      AddedNothing(fs, mid, r, base, alive);
      var after := AddedParents(fs, mid, r, rest, base, alive).0;
      assert dirs == [dir] + rest;
      CachedBoth(after, mid, compiled, dir, rest);
      if rest != [] {
        var last := rest[|rest| - 1];
        assert last in rest && SameEntry(mid, compiled, last);
      }
    }
  }

  lemma RestIsDistinct(dirs: seq<seq<byte>>)
    requires Distinct(dirs) && dirs != []
    ensures Distinct(dirs[1..]) && dirs[0] !in dirs[1..]
  {
  }

  lemma CachedBoth(c: Cache, b: Cache, a: Cache, dir: seq<byte>, dirs: seq<seq<byte>>)
    requires CachedUpTo(c, b, dirs) && dir !in dirs && dir in b && forall d | d != dir :: SameEntry(b, a, d)
    ensures CachedUpTo(c, a, [dir] + dirs)
  {
    assert SameEntry(c, b, dir);
    forall d | d !in [dir] + dirs
      ensures SameEntry(c, a, d)
    {
      assert d != dir && d !in dirs && SameEntry(c, b, d) && SameEntry(b, a, d);
    }
  }

  // So it is when the directories above a path are added.
  lemma AddedAncestors(fs: FileSystem, compiled: Cache, root: IgnoreInner, base: seq<byte>, alive: seq<byte> -> bool)
    requires base != [] && base[0] == SLASH && root.absoluteBase.None?
    ensures var (after, r) := AddedParents(fs, compiled, root, Ancestors(base), base, alive);
            && CachedUpTo(after, compiled, Ancestors(base)) && r.absoluteBase == BaseFound(compiled, base, alive)
            && (ParentPath(base).Some? ==> ParentPath(base).value in after && after[ParentPath(base).value] == r)
  {
    hide AddedParents, Ancestors, ParentPath, CachedUpTo, BaseOf;
    var dirs := Ancestors(base);
    forall i, j | 0 <= i < j < |dirs|
      ensures dirs[i] != dirs[j]
    {
      AncestorsDiffer(base, i, j);
    }
    AllAdded(fs, compiled, root, dirs, base, alive);
    NearestIsLast(base);
  }

  // The directories above a path, nearest first.
  method ListParents(base: seq<byte>) returns (parents: seq<seq<byte>>)
    requires base != [] && base[0] == SLASH
    ensures |parents| == |Ancestors(base)|
    ensures forall i | 0 <= i < |parents| :: parents[i] == Ancestors(base)[|parents| - 1 - i]
  {
    hide Ancestors, ParentPath;
    parents := [];
    var path := base;
    ghost var dirs := Ancestors(base);
    assert dirs[..|dirs|] == dirs;
    while ParentPath(path).Some?
      invariant path != [] && path[0] == SLASH && |parents| <= |dirs| && Ancestors(path) == dirs[..|dirs| - |parents|]
      invariant forall i | 0 <= i < |parents| :: parents[i] == dirs[|dirs| - 1 - i]
      decreases |path|
    {
      var parent := ParentPath(path).value;
      OneUp(path);
      assert Ancestors(parent) == Ancestors(path)[..|Ancestors(path)| - 1];
      parents := parents + [parent];
      path := parent;
    }
    NothingAbove(path);
  }

  lemma OneUp(path: seq<byte>)
    requires path != [] && path[0] == SLASH && ParentPath(path).Some?
    ensures Ancestors(path) == Ancestors(ParentPath(path).value) + [ParentPath(path).value]
  {
  }

  lemma NothingAbove(path: seq<byte>)
    requires path != [] && path[0] == SLASH && ParentPath(path).None?
    ensures Ancestors(path) == []
  {
  }

  predicate IsNearest(dirs: seq<seq<byte>>, d: Option<seq<byte>>) {
    if dirs == [] then d.None? else d == Some(dirs[|dirs| - 1])
  }

  lemma NearestIsLast(base: seq<byte>)
    requires base != [] && base[0] == SLASH
    ensures IsNearest(Ancestors(base), ParentPath(base))
  {
  }

  lemma BaseFoundIs(compiled: Cache, base: seq<byte>, alive: seq<byte> -> bool)
    requires base != [] && base[0] == SLASH
    ensures BaseFound(compiled, base, alive)
         == if ParentPath(base).None? then None else BaseOf(compiled, ParentPath(base).value, base, alive)
  {
  }

  ghost predicate SameEntry(a: Cache, b: Cache, d: seq<byte>) {
    (d in a <==> d in b) && (d in a && d in b ==> a[d] == b[d])
  }

  // All of dirs are in the cache, and nothing else in it has changed.
  ghost predicate CachedUpTo(a: Cache, b: Cache, dirs: seq<seq<byte>>) {
    && (forall d | d in dirs :: d in a)
    && (forall d | d !in dirs :: SameEntry(a, b, d))
  }

  function BaseOf(compiled: Cache, d: seq<byte>, base: seq<byte>, alive: seq<byte> -> bool): Option<seq<byte>> {
    if d in compiled && alive(d) then compiled[d].absoluteBase else Some(base)
  }

  // The base path that a lookup returns with: the call's own, unless the matcher of the nearest
  // directory comes from the cache, which keeps that of the call that built it.
  function BaseFound(compiled: Cache, base: seq<byte>, alive: seq<byte> -> bool): Option<seq<byte>>
    requires base != [] && base[0] == SLASH
  {
    match ParentPath(base)
    case None => None
    case Some(d) => BaseOf(compiled, d, base, alive)
  }
}
