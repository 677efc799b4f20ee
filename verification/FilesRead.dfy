/** Which files of a file system decide about a path, told by the options, and which are not read. */
module FilesRead {
  import opened Wrappers
  import opened Utf8
  import opened Paths
  import opened Matching
  import opened Gitignore
  import opened IgnoreChains
  import opened ChainVerdicts
  import opened IgnoreParents

  // ----- files that are read -----

  function FileOf(fs: FileSystem, ig: IgnoreInner, source: Source): Matcher {
    match source
    case Custom => fs.ignoreFiles(ig.dir, ig.shared.customFilenames)
    case DotIgnore => fs.ignoreFiles(ig.dir, [".ignore"])
    case DotGitignore => fs.ignoreFiles(ig.dir, [".gitignore"])
    case Exclude => fs.excludeFile(ig.dir, ig.shared.opts.requireGit)
  }

  predicate IsWanted(shared: Shared, source: Source) {
    match source
    case Custom => shared.customFilenames != []
    case DotIgnore => shared.opts.ignore
    case DotGitignore => shared.opts.gitIgnore
    case Exclude => shared.opts.gitExclude
  }

  // A directory speaks through the files that are wanted and no others.
  lemma {:induction false} LevelSpeaksByItsFiles(fs: FileSystem, root: IgnoreInner, ig: IgnoreInner, path: seq<byte>, isDir: bool,
                                                 source: Source, i: nat)
    requires IsRoot(root) && Built(fs, root, ig) && i < |Questions(ig, path)|
    ensures var asked := Questions(ig, path);
            MatcherAt(asked, i, source)(asked[i].path, isDir)
            == if asked[i].level != root && IsWanted(root.shared, source)
               then FileOf(fs, asked[i].level, source)(asked[i].path, isDir) else NoMatch
  {
    hide Questions, Built, IsRoot, Chain;
    ChainReads(fs, root, ig);
    LevelIsInChain(ig, path, i);
    var level := Questions(ig, path)[i].level;
    LevelShares(fs, root, ig, level);
    assert MatcherAt(Questions(ig, path), i, source) == level.Of(source);
    if level != root {
      assert Reads(fs, level);
    }
  }

  lemma {:induction false} LevelShares(fs: FileSystem, root: IgnoreInner, ig: IgnoreInner, level: IgnoreInner)
    requires Built(fs, root, ig) && level in Chain(Some(ig))
    ensures level.shared == root.shared
    decreases ig
  {
    BuiltShares(fs, root, ig);
    if level != ig {
      LevelShares(fs, root, ig.parent.value, level);
    }
  }

  // The files of the directory itself decide wherever they say something: a plain file unless a plain
  // file of an earlier kind does, a git file where git rules apply and all plain files are silent.
  lemma {:induction false} NearestFileDecides(fs: FileSystem, root: IgnoreInner, ig: IgnoreInner, path: seq<byte>, isDir: bool, source: Source)
    requires IsRoot(root) && Built(fs, root, ig) && !ig.isAbsoluteParent
    requires IsWanted(root.shared, source) && FileOf(fs, ig, source)(path, isDir) != NoMatch
    requires Rank(source) >= 2 ==> GitApplies(ig)
    requires forall s: Source, i: nat | Rank(s) < Rank(source) :: !Speaks(Questions(ig, path), i, s, GitApplies(ig), isDir)
    ensures SaysSo(RulesVerdict(ig, path, isDir), FileOf(fs, ig, source)(path, isDir))
  {
    var asked := Questions(ig, path);
    AskedFirst(ig, path);
    BuiltOnRoot(fs, root, ig);
    hide Questions, Built, IsRoot, RulesVerdict, GitApplies, SaysSo;
    LevelSpeaksByItsFiles(fs, root, ig, path, isDir, source, 0);
    SpeakerDecides(ig, path, isDir, source, 0);
  }

  lemma AskedFirst(ig: IgnoreInner, path: seq<byte>)
    requires !ig.isAbsoluteParent
    ensures Questions(ig, path) != [] && Questions(ig, path)[0] == Question(ig, path)
  {
  }

  lemma BuiltOnRoot(fs: FileSystem, root: IgnoreInner, ig: IgnoreInner)
    requires IsRoot(root) && Built(fs, root, ig) && !ig.isAbsoluteParent
    ensures ig != root
  {
  }

  // ----- files that are not read -----

  // Two file systems that hold the same in all files that these options ask for.
  ghost predicate SameWanted(a: FileSystem, b: FileSystem, shared: Shared) {
    var opts, names := shared.opts, shared.customFilenames;
    && (names != [] ==> forall dir :: a.ignoreFiles(dir, names) == b.ignoreFiles(dir, names))
    && (opts.ignore ==> forall dir :: a.ignoreFiles(dir, [".ignore"]) == b.ignoreFiles(dir, [".ignore"]))
    && (opts.gitIgnore ==> forall dir :: a.ignoreFiles(dir, [".gitignore"]) == b.ignoreFiles(dir, [".gitignore"]))
    && (opts.gitExclude ==> forall dir :: a.excludeFile(dir, opts.requireGit) == b.excludeFile(dir, opts.requireGit))
    && (opts.requireGit && (opts.gitIgnore || opts.gitExclude) ==>
          forall dir :: (a.hasDotGit(dir) || a.hasDotJj(dir)) == (b.hasDotGit(dir) || b.hasDotJj(dir)))
  }

  lemma SameChild(a: FileSystem, b: FileSystem, ig: IgnoreInner, dir: seq<byte>, base: seq<byte>)
    requires SameWanted(a, b, ig.shared)
    ensures ChildOf(a, ig, dir) == ChildOf(b, ig, dir) && AbsoluteParentOf(a, ig, dir, base) == AbsoluteParentOf(b, ig, dir, base)
  {
  }

  // What no option asks for changes no chain, and so no verdict.
  lemma {:induction false} UnwantedFilesDoNotCount(a: FileSystem, b: FileSystem, root: IgnoreInner, ig: IgnoreInner)
    requires SameWanted(a, b, root.shared) && Built(a, root, ig)
    ensures Built(b, root, ig)
    decreases ig
  {
    if ig.parent.Some? {
      var p := ig.parent.value;
      BuiltShares(a, root, p);
      UnwantedFilesDoNotCount(a, b, root, p);
      SameChild(a, b, p, ig.dir, if ig.absoluteBase.Some? then ig.absoluteBase.value else []);
      hide ChildOf, AbsoluteParentOf;
    }
  }

  lemma {:induction false} UnwantedFilesAreNotBuilt(a: FileSystem, b: FileSystem, root: IgnoreInner, dirs: seq<seq<byte>>, base: seq<byte>)
    requires SameWanted(a, b, root.shared)
    ensures Uncached(a, root, dirs, base) == Uncached(b, root, dirs, base)
    decreases |dirs|
  {
    if dirs != [] {
      var n := |dirs| - 1;
      UnwantedFilesAreNotBuilt(a, b, root, dirs[..n], base);
      UncachedShares(b, root, dirs[..n], base);
      SameChild(a, b, Uncached(b, root, dirs[..n], base), dirs[n], base);
      hide ChildOf, AbsoluteParentOf;
    }
  }

  // The files of these names, where others are read for `.gitignore`.
  function FilesWith(fs: FileSystem, files: seq<byte> -> Matcher, dir: seq<byte>, names: seq<string>): Matcher {
    if names == [".gitignore"] then files(dir) else fs.ignoreFiles(dir, names)
  }

  // A file system with other `.gitignore` files.
  function WithGitignores(fs: FileSystem, files: seq<byte> -> Matcher): FileSystem {
    fs.(ignoreFiles := (dir, names) => FilesWith(fs, files, dir, names))
  }

  // With the option off a `.gitignore` file changes nothing, whatever the other options are.
  lemma GitignoresOff(fs: FileSystem, files: seq<byte> -> Matcher, root: IgnoreInner, ig: IgnoreInner)
    requires !root.shared.opts.gitIgnore && root.shared.customFilenames != [".gitignore"]
    ensures Built(fs, root, ig) <==> Built(WithGitignores(fs, files), root, ig)
  {
    hide Built;
    var other := WithGitignores(fs, files);
    assert [".ignore"][0] != [".gitignore"][0];
    assert SameWanted(fs, other, root.shared) && SameWanted(other, fs, root.shared);
    if Built(fs, root, ig) {
      UnwantedFilesDoNotCount(fs, other, root, ig);
    }
    if Built(other, root, ig) {
      UnwantedFilesDoNotCount(other, fs, root, ig);
    }
  }

  // ----- directories above a path -----

  // The parent of an entry is its directory; the root directory has none.
  lemma ParentOfAbsolute(dir: seq<byte>, name: seq<byte>)
    requires SLASH !in name && name != [] && (dir == [] || dir[0] == SLASH)
    ensures var path := dir + [SLASH] + name;
            && path != [] && path[0] == SLASH
            && ParentPath(path) == Some(if dir == [] then [SLASH] else dir)
            && ParentPath([SLASH]) == None
  {
    var path := dir + [SLASH] + name;
    RFindIs(path, SLASH, |dir|) by {
      assert path[|dir| + 1..] == name;
    }
    assert path[..|dir|] == dir;
  }
}
