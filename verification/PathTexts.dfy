/** Paths as they are written: what is stripped from them, and which directories lie above them. */
module PathTexts {
  import opened Wrappers
  import opened Utf8
  import opened Tokens
  import opened Paths
  import opened RelativePaths
  import opened Matching
  import opened Gitignore
  import opened GitignoreBuilding
  import opened LineMeanings
  import opened LineTexts
  import opened IgnoreParents
  import Utf8Decoding

  // ----- relative to a root -----

  // Slashes at the end, and lone dots behind them, mean nothing.
  lemma EndIsTrimmed(path: seq<byte>)
    ensures TrimEnd(path + [SLASH]) == TrimEnd(path) && TrimEnd(path + [SLASH, DOT]) == TrimEnd(path)
    ensures path != [] && path[|path| - 1] != SLASH && path[|path| - 1] != DOT ==> TrimEnd(path) == path
  {
    assert (path + [SLASH])[..|path|] == path && (path + [SLASH, DOT])[..|path|] == path;
  }

  // A path is taken as it is, but for `./` in front, unless it is inside the root and has a directory.
  lemma NotStripped(root: seq<byte>, path: seq<byte>)
    requires !([DOT, SLASH] <= path)
    requires root == [DOT] || SLASH !in path || !(root <= path)
    ensures Strip(root, path) == path
    ensures SLASH !in path ==> Strip(root, [DOT, SLASH] + path) == path
  {
    assert IsDot([DOT]);
    hide IsDot;
    assert ([DOT, SLASH] + path)[2..] == path;
  }

  // The root of a matcher counts without `./` in front.
  lemma RootsAreClean(root: seq<byte>)
    ensures CleanRoot([DOT, SLASH] + root) == root
    ensures !([DOT, SLASH] <= root) ==> CleanRoot(root) == root
  {
  }

  // Going up from a name alone leads to the root.
  lemma ParentOfName(name: seq<byte>)
    requires name != [] && SLASH !in name
    ensures !HasRoot(name) && ParentOf(name) == Some([])
  {
    hide RFind;
    assert name[0] in name;
    var trimmed := TrimEnd(name);
    assert SLASH !in trimmed;
  }

  // ----- what a directory rule covers -----

  lemma NameIsTrimmed(s: seq<byte>)
    requires s != [] && SLASH !in s
    ensures TrimEnd(s) == s
  {
    assert s[|s| - 1] in s;
    if |s| >= 2 {
      assert s[|s| - 2] in s;
    }
  }

  lemma OneLineList(from: Option<string>, line: string, opts: GlobOptions, path: seq<byte>, isDir: bool)
    ensures var list := AddAll(NO_RULES, from, [line], opts).0;
            |list.patterns| == |list.rules| && LastVerdict(list, path, isDir) == FileVerdict(from, [line], opts, path, isDir)
  {
    hide AddAll, LastVerdict, FileVerdict;
    LinesDecide(from, [line], opts, path, isDir);
    AlignedLength(AddAll(NO_RULES, from, [line], opts).0);
  }

  // A rule for directories does not apply to a file of that name, but to what is in such a directory:
  // the directories above a path are asked about as directories.
  lemma DirectoryRuleCoversContents(from: Option<string>, s: string, unclosed: bool, name: seq<byte>)
    requires IsPlainPath(s) && s[0] != BOM && '/' !in s && s != ".." && name != [] && name != [DOT] && SLASH !in name
    ensures var list := AddAll(NO_RULES, from, [s + "/"], LineOptions(false, unclosed)).0;
            var path := Encode(s) + [SLASH] + name;
            && |list.patterns| == |list.rules| && !HasRoot(path)
            && VerdictFromBelow(list, path, false) == Ignore(IgnoreGlob(from, s + "/", "**/" + s, false, true))
  {
    hide AddAll, LastVerdict, FileVerdict, IsPlainPath, Encode, TrimEnd, LastComponent, RFind;
    var line, opts, dir := s + "/", LineOptions(false, unclosed), Encode(s);
    var list, path := AddAll(NO_RULES, from, [line], opts).0, dir + [SLASH] + name;
    NameAsBytes(s);
    NameIsTrimmed(dir);
    ParentOfEntry(dir, name);
    assert PlainLine(false, false, s, true) + "" == line;
    OneLineList(from, line, opts, path, false);
    OneLineList(from, line, opts, dir, true);
    PlainLineVerdict(from, false, false, s, true, "", unclosed, path, false);
    PlainLineVerdict(from, false, false, s, true, "", unclosed, dir, true);
    WholeComponent(dir);
  }

  lemma NameAsBytes(s: string)
    requires IsPlainPath(s) && '/' !in s && s != ".."
    ensures SLASH !in Encode(s) && Encode(s) != [] && !HasRoot(Encode(s)) && Encode(s) != [DOT, DOT]
  {
    hide EncodeChar;
    AsciiOccurrence(s, '/');
    EncodeFirst(s);
    EncodedDots();
    if Encode(s) == [DOT, DOT] {
      Utf8Decoding.EncodingIsInjective(s, "..");
    }
  }

  lemma EncodedDots()
    ensures Encode("..") == [DOT, DOT]
  {
    assert ".."[1..] == "." && "."[1..] == "";
  }

  lemma WholeComponent(dir: seq<byte>)
    requires SLASH !in dir
    ensures LastComponent(dir) == dir
  {
  }

  // ----- directories above an absolute path -----

  predicate IsAbsolute(path: seq<byte>) {
    && path != [] && path[0] == SLASH && path[|path| - 1] != SLASH
    && forall i | 0 <= i < |path| - 1 :: path[i] == SLASH ==> path[i + 1] != SLASH
  }

  // They are the root directory and the beginnings of the path in front of its slashes.
  lemma {:induction false} AncestorsAre(path: seq<byte>, d: seq<byte>)
    requires IsAbsolute(path)
    ensures d in Ancestors(path) <==> d == [SLASH] || (d != [] && d + [SLASH] <= path)
    decreases |path|
  {
    hide RFind;
    var cut := RFind(path, SLASH).value;
    NotInTail(path, SLASH, cut + 1);
    PrefixOrUp(path, cut, d);
    if cut == 0 {
      assert Ancestors([SLASH]) == [];
      assert Ancestors(path) == [] + [[SLASH]];
      assert path[..cut] == [];
    } else {
      var up := path[..cut];
      assert path[cut - 1] != SLASH;
      assert IsAbsolute(up);
      AncestorsAre(up, d);
      assert Ancestors(path) == Ancestors(up) + [up];
    }
  }

  lemma PrefixOrUp(path: seq<byte>, cut: nat, d: seq<byte>)
    requires cut < |path| && path[cut] == SLASH && forall j | cut < j < |path| :: path[j] != SLASH
    ensures d + [SLASH] <= path <==> d == path[..cut] || d + [SLASH] <= path[..cut]
  {
    var e := d + [SLASH];
    if e <= path {
      assert path[|d|] == e[|d|] == SLASH;
      if |d| < cut {
        assert path[..cut][..|e|] == path[..|e|];
      } else {
        assert path[..|d|] == e[..|d|] == d;
      }
    }
    if e <= path[..cut] {
      assert path[..|e|] == path[..cut][..|e|];
    }
    if d == path[..cut] {
      assert path[..cut + 1] == path[..cut] + [path[cut]];
    }
  }
}
