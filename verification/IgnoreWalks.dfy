/**
 Asking about a path from below, as matched_path_or_any_parents does, compared with walking down to
 it from the root and stopping at the first directory that is ignored, as the walker does.
 */
module IgnoreWalks {
  import opened Wrappers
  import opened Utf8
  import opened Tokens
  import opened Paths
  import opened RelativePaths
  import opened Matching
  import opened Gitignore
  import opened GitignoreBuilding
  import opened LineMeanings
  import opened Components
  import opened PlainGlobs

  // A walk goes down to the path and stops at the first directory that is ignored. It starts at the
  // root, which it never asks about.
  predicate WalkIgnores(list: RuleList, path: seq<byte>, isDir: bool)
    requires |list.patterns| == |list.rules| && !HasRoot(path)
    decreases |path|
  {
    path != [] && (WalkIgnores(list, ParentOf(path).value, true) || LastVerdict(list, path, isDir).Ignore?)
  }

  // ----- the way up to the root -----

  // The path and the directories above it, up to the root and without it.
  function WayUp(path: seq<byte>): (way: seq<seq<byte>>)
    requires !HasRoot(path)
    ensures forall i | 0 <= i < |way| :: way[i] != [] && !HasRoot(way[i])
    decreases |path|
  {
    if path == [] then [] else [path] + WayUp(ParentOf(path).value)
  }

  // What the rules say of the i-th path on the way; all but the first are directories.
  function SaysAt(list: RuleList, way: seq<seq<byte>>, i: nat, isDir: bool): Match<IgnoreGlob>
    requires |list.patterns| == |list.rules| && i < |way|
  {
    LastVerdict(list, way[i], i > 0 || isDir)
  }

  // The first n paths on the way have no verdict.
  predicate SilentUpTo(list: RuleList, way: seq<seq<byte>>, n: nat, isDir: bool)
    requires |list.patterns| == |list.rules| && n <= |way|
  {
    forall i: nat | i < n :: SaysAt(list, way, i, isDir).NoMatch?
  }

  // The nearest verdict is to whitelist, and a directory further up is ignored.
  predicate WhitelistedInside(list: RuleList, way: seq<seq<byte>>, isDir: bool)
    requires |list.patterns| == |list.rules|
  {
    exists i: nat | i < |way| ::
      SilentUpTo(list, way, i, isDir) && SaysAt(list, way, i, isDir).Whitelist? && IgnoredFrom(list, way, i, isDir)
  }

  // A path on the way is ignored, from the n-th on.
  predicate IgnoredFrom(list: RuleList, way: seq<seq<byte>>, n: nat, isDir: bool)
    requires |list.patterns| == |list.rules| && n <= |way|
  {
    exists j: nat | n <= j < |way| :: SaysAt(list, way, j, isDir).Ignore?
  }

  // Only the root is ignored, and nothing nearer has a verdict.
  predicate OnlyRootIgnored(list: RuleList, way: seq<seq<byte>>, isDir: bool)
    requires |list.patterns| == |list.rules|
  {
    SilentUpTo(list, way, |way|, isDir) && LastVerdict(list, [], way != [] || isDir).Ignore?
  }

  // One step up: what is said of the rest of the way.
  lemma RestOfWay(list: RuleList, way: seq<seq<byte>>, isDir: bool)
    requires |list.patterns| == |list.rules| && way != []
    ensures forall i: nat | i < |way| - 1 :: SaysAt(list, way[1..], i, true) == SaysAt(list, way, i + 1, isDir)
    ensures IgnoredFrom(list, way, 0, isDir) <==> SaysAt(list, way, 0, isDir).Ignore? || IgnoredFrom(list, way[1..], 0, true)
    ensures SaysAt(list, way, 0, isDir).NoMatch? ==>
              forall n: nat | n < |way| :: SilentUpTo(list, way, n + 1, isDir) <==> SilentUpTo(list, way[1..], n, true)
  {
    hide LastVerdict;
    var up := way[1..];
    forall i: nat | i < |up|
      ensures SaysAt(list, up, i, true) == SaysAt(list, way, i + 1, isDir)
    {
      assert up[i] == way[i + 1];
    }
    hide SaysAt;
    if IgnoredFrom(list, way, 0, isDir) && !SaysAt(list, way, 0, isDir).Ignore? {
      var j: nat :| j < |way| && SaysAt(list, way, j, isDir).Ignore?;
      assert SaysAt(list, up, j - 1, true).Ignore?;
    }
    if IgnoredFrom(list, up, 0, true) {
      var j: nat :| j < |up| && SaysAt(list, up, j, true).Ignore?;
      assert SaysAt(list, way, j + 1, isDir).Ignore?;
    }
    if SaysAt(list, way, 0, isDir).NoMatch? {
      forall n: nat | n < |way|
        ensures SilentUpTo(list, way, n + 1, isDir) <==> SilentUpTo(list, up, n, true)
      {
        SilentStep(list, way, n, isDir);
      }
    }
  }

  lemma SilentStep(list: RuleList, way: seq<seq<byte>>, n: nat, isDir: bool)
    requires |list.patterns| == |list.rules| && n < |way| && SaysAt(list, way, 0, isDir).NoMatch?
    requires forall i: nat | i < |way| - 1 :: SaysAt(list, way[1..], i, true) == SaysAt(list, way, i + 1, isDir)
    ensures SilentUpTo(list, way, n + 1, isDir) <==> SilentUpTo(list, way[1..], n, true)
  {
    hide SaysAt;
    if SilentUpTo(list, way, n + 1, isDir) {
      forall i: nat | i < n
        ensures SaysAt(list, way[1..], i, true).NoMatch?
      {
        assert SaysAt(list, way, i + 1, isDir).NoMatch?;
      }
    }
    if SilentUpTo(list, way[1..], n, true) {
      forall i: nat | i < n + 1
        ensures SaysAt(list, way, i, isDir).NoMatch?
      {
        assert i > 0 ==> SaysAt(list, way[1..], i - 1, true).NoMatch?;
      }
    }
  }

  // ----- walking down -----

  // The walk ignores a path exactly if it or a directory above it, the root apart, is ignored.
  lemma {:induction false} WalkIgnoresIf(list: RuleList, path: seq<byte>, isDir: bool)
    requires |list.patterns| == |list.rules| && !HasRoot(path)
    ensures WalkIgnores(list, path, isDir) <==> IgnoredFrom(list, WayUp(path), 0, isDir)
    decreases |path|
  {
    hide LastVerdict, ParentOf;
    if path == [] {
    } else {
      var way, up := WayUp(path), ParentOf(path).value;
      WalkIgnoresIf(list, up, true);
      assert way[1..] == WayUp(up) && way[0] == path;
      hide IgnoredFrom;
      RestOfWay(list, way, isDir);
    }
  }

  // ----- asking from below -----

  // The nearest verdict decides.
  lemma {:induction false} NearestVerdictDecides(list: RuleList, path: seq<byte>, isDir: bool, i: nat)
    requires |list.patterns| == |list.rules| && !HasRoot(path)
    requires i < |WayUp(path)| && SilentUpTo(list, WayUp(path), i, isDir) && !SaysAt(list, WayUp(path), i, isDir).NoMatch?
    ensures VerdictFromBelow(list, path, isDir) == SaysAt(list, WayUp(path), i, isDir)
    decreases |path|
  {
    hide LastVerdict, ParentOf;
    var way, up := WayUp(path), ParentOf(path).value;
    assert way[1..] == WayUp(up) && way[0] == path;
    if i == 0 {
    } else {
      assert SaysAt(list, way, 0, isDir).NoMatch?;
      RestOfWay(list, way, isDir);
      NearestVerdictDecides(list, up, true, i - 1);
    }
  }

  // Without one the root is asked.
  lemma {:induction false} RootDecides(list: RuleList, path: seq<byte>, isDir: bool)
    requires |list.patterns| == |list.rules| && !HasRoot(path) && SilentUpTo(list, WayUp(path), |WayUp(path)|, isDir)
    ensures VerdictFromBelow(list, path, isDir) == LastVerdict(list, [], path != [] || isDir)
    decreases |path|
  {
    hide LastVerdict, ParentOf;
    if path == [] {
    } else {
      var way, up := WayUp(path), ParentOf(path).value;
      assert way[1..] == WayUp(up) && way[0] == path;
      assert SaysAt(list, way, 0, isDir).NoMatch?;
      RestOfWay(list, way, isDir);
      RootDecides(list, up, true);
    }
  }

  lemma {:induction false} NearestVerdict(list: RuleList, way: seq<seq<byte>>, isDir: bool, n: nat) returns (i: nat)
    requires |list.patterns| == |list.rules| && n <= |way| && SilentUpTo(list, way, n, isDir)
    ensures i <= |way| && SilentUpTo(list, way, i, isDir) && (i < |way| ==> !SaysAt(list, way, i, isDir).NoMatch?)
    decreases |way| - n
  {
    hide SaysAt;
    if n == |way| || !SaysAt(list, way, n, isDir).NoMatch? {
      i := n;
    } else {
      i := NearestVerdict(list, way, isDir, n + 1);
    }
  }

  // Asking from below ignores what the walk ignores, and nothing else, unless the path is whitelisted
  // inside a directory that is ignored or only the root is.
  lemma WalkAgreesUnless(list: RuleList, path: seq<byte>, isDir: bool)
    requires |list.patterns| == |list.rules| && !HasRoot(path)
    ensures (VerdictFromBelow(list, path, isDir).Ignore? <==> WalkIgnores(list, path, isDir))
       <==> !WhitelistedInside(list, WayUp(path), isDir) && !OnlyRootIgnored(list, WayUp(path), isDir)
  {
    hide LastVerdict, WalkIgnores, VerdictFromBelow, WayUp, SaysAt;
    var way := WayUp(path);
    WalkIgnoresIf(list, path, isDir);
    var i := NearestVerdict(list, way, isDir, 0);
    WayIsEmpty(path);
    if i == |way| {
      RootDecides(list, path, isDir);
    } else {
      NearestVerdictDecides(list, path, isDir, i);
      NothingBelow(list, way, isDir, i);
    }
  }

  lemma WayIsEmpty(path: seq<byte>)
    requires !HasRoot(path)
    ensures WayUp(path) == [] <==> path == []
  {
  }

  // The nearest verdict is the only one that is nearest, and what is ignored is ignored from there on.
  lemma NothingBelow(list: RuleList, way: seq<seq<byte>>, isDir: bool, i: nat)
    requires |list.patterns| == |list.rules|
    requires i < |way| && SilentUpTo(list, way, i, isDir) && !SaysAt(list, way, i, isDir).NoMatch?
    ensures !SilentUpTo(list, way, |way|, isDir)
    ensures IgnoredFrom(list, way, 0, isDir) <==> IgnoredFrom(list, way, i, isDir)
    ensures WhitelistedInside(list, way, isDir) <==> SaysAt(list, way, i, isDir).Whitelist? && IgnoredFrom(list, way, i, isDir)
  {
    hide SaysAt;
    if IgnoredFrom(list, way, 0, isDir) {
      var j: nat :| j < |way| && SaysAt(list, way, j, isDir).Ignore?;
      assert j >= i;
    }
    if WhitelistedInside(list, way, isDir) {
      var k: nat :| k < |way| && SilentUpTo(list, way, k, isDir) && SaysAt(list, way, k, isDir).Whitelist?
                    && IgnoredFrom(list, way, k, isDir);
      assert k == i;
    }
  }

  // What is ignored from below the walk ignores too, but for what only the root ignores.
  lemma IgnoredBelowIsIgnored(list: RuleList, path: seq<byte>, isDir: bool)
    requires |list.patterns| == |list.rules| && !HasRoot(path)
    ensures VerdictFromBelow(list, path, isDir).Ignore? ==>
              WalkIgnores(list, path, isDir) || OnlyRootIgnored(list, WayUp(path), isDir)
  {
    hide LastVerdict, WalkIgnores, VerdictFromBelow, WayUp, SaysAt, IgnoredFrom;
    var way := WayUp(path);
    WalkIgnoresIf(list, path, isDir);
    var i := NearestVerdict(list, way, isDir, 0);
    WayIsEmpty(path);
    if i == |way| {
      RootDecides(list, path, isDir);
    } else {
      NearestVerdictDecides(list, path, isDir, i);
      IgnoredThere(list, way, isDir, i);
    }
  }

  lemma IgnoredThere(list: RuleList, way: seq<seq<byte>>, isDir: bool, i: nat)
    requires |list.patterns| == |list.rules| && i < |way|
    ensures SaysAt(list, way, i, isDir).Ignore? ==> IgnoredFrom(list, way, 0, isDir)
  {
  }

  // Without whitelist rules only the root makes a difference.
  lemma NoWhitelistNoDifference(list: RuleList, path: seq<byte>, isDir: bool)
    requires |list.patterns| == |list.rules| && !HasRoot(path) && CountWhitelists(list.rules) == 0
    ensures (VerdictFromBelow(list, path, isDir).Ignore? <==> WalkIgnores(list, path, isDir))
       <==> !OnlyRootIgnored(list, WayUp(path), isDir)
  {
    hide LastVerdict, WalkIgnores, VerdictFromBelow, WayUp, OnlyRootIgnored;
    WalkAgreesUnless(list, path, isDir);
    var way := WayUp(path);
    forall i: nat | i < |way|
      ensures !SaysAt(list, way, i, isDir).Whitelist?
    {
      NoWhitelistVerdict(list, way[i], i > 0 || isDir);
    }
  }

  lemma {:induction false} NoWhitelistVerdict(list: RuleList, path: seq<byte>, isDir: bool)
    requires |list.patterns| == |list.rules| && CountWhitelists(list.rules) == 0
    ensures !LastVerdict(list, path, isDir).Whitelist?
    decreases |list.rules|
  {
    var n := |list.rules| - 1;
    if n < 0 {
    } else {
      assert list.rules == list.rules[..n] + [list.rules[n]];
      CountsAppend(list.rules[..n], list.rules[n]);
      NoWhitelistVerdict(RuleList(list.patterns[..n], list.rules[..n]), path, isDir);
    }
  }

  // ----- a file where the two differ -----

  // Ignore `a`, but not `a/b`.
  const LINES: seq<string> := ["a", "!a/b"]

  const RULES := AddAll(NO_RULES, None, LINES, LineOptions(false, true)).0

  lemma VerdictOfLines(path: seq<byte>, isDir: bool)
    ensures |RULES.patterns| == |RULES.rules|
    ensures path == Encode("a/b") ==> LastVerdict(RULES, path, isDir).Whitelist?
    ensures path == Encode("a") ==> LastVerdict(RULES, path, isDir).Ignore?
  {
    hide AddAll, RuleOf, Applies, LastVerdict, Encode, LineAt, LastComponent, Aligned;
    LinesDecide(None, LINES, LineOptions(false, true), path, isDir);
    AlignedLength(RULES);
    Bytes();
    FirstLine(path, isDir);
    SecondLine(path, isDir);
    TwoLines(path, isDir);
  }

  lemma TwoLines(path: seq<byte>, isDir: bool)
    ensures var opts := LineOptions(false, true);
            var first, second := RuleOf(None, "a", opts), RuleOf(None, "!a/b", opts);
            FileVerdict(None, LINES, opts, path, isDir)
            == if second.Some? && Applies(second.value.1, second.value.0, path, isDir) then Verdict(second.value.0)
               else if first.Some? && Applies(first.value.1, first.value.0, path, isDir) then Verdict(first.value.0)
               else NoMatch
  {
    hide RuleOf, Applies, Verdict;
    var opts := LineOptions(false, true);
    LastLine(None, LINES, opts, path, isDir);
    LastLine(None, ["a"], opts, path, isDir);
    assert LINES[..1] == ["a"] && ["a"][..0] == [];
    assert LineAt(LINES, 1) == "!a/b" && LineAt(["a"], 0) == "a";
  }

  lemma FirstLine(path: seq<byte>, isDir: bool)
    ensures var first := RuleOf(None, "a", LineOptions(false, true));
            && first.Some? && !first.value.0.isWhitelist
            && (path == Encode("a") ==> Applies(first.value.1, first.value.0, path, isDir))
  {
    hide RuleOf, Applies;
    assert IsPlainPath("a") && PlainLine(false, false, "a", false) == "a";
    PlainLineMeans(None, false, false, "a", false, true, path, isDir);
    assert Encode("a") == [0x61];
  }

  lemma SecondLine(path: seq<byte>, isDir: bool)
    ensures var second := RuleOf(None, "!a/b", LineOptions(false, true));
            && second.Some? && second.value.0.isWhitelist
            && (Applies(second.value.1, second.value.0, path, isDir) <==> path == Encode("a/b"))
  {
    hide RuleOf, Applies;
    assert IsPlainPath("a/b") && PlainLine(true, false, "a/b", false) == "!a/b";
    assert "a/b"[1] == '/';
    PlainLineMeans(None, true, false, "a/b", false, true, path, isDir);
  }

  lemma Bytes()
    ensures Encode("a") == [0x61] && Encode("a/b") == [0x61, SLASH, 0x62]
  {
    assert "a/b"[1..] == "/b" && "/b"[1..] == "b";
  }

  // From below `a/b` is whitelisted; a walk does not get there, since it does not enter `a`.
  lemma WhitelistInsideIgnoredDirectory()
    ensures |RULES.patterns| == |RULES.rules|
    ensures var path := [0x61, SLASH, 0x62];
            VerdictFromBelow(RULES, path, false).Whitelist? && WalkIgnores(RULES, path, false)
  {
    hide LastVerdict, Encode, AddAll, ParentOf, TrimEnd;
    var path, dir := [0x61, SLASH, 0x62], [0x61];
    Bytes();
    VerdictOfLines(path, false);
    VerdictOfLines(dir, true);
    AboveB();
  }

  lemma AboveB()
    ensures !HasRoot([0x61, SLASH, 0x62]) && !HasRoot([0x61]) && ParentOf([0x61, SLASH, 0x62]) == Some([0x61])
  {
    hide ParentOf;
    var dir, name: seq<byte> := [0x61], [0x62];
    assert dir + [SLASH] + name == [0x61, SLASH, 0x62];
    ParentOfEntry(dir, name);
  }

  // ----- a file that ignores the root -----

  // Nothing but the root itself.
  const ROOT_LINE: seq<string> := ["/"]

  const ROOT_RULE := AddAll(NO_RULES, None, ROOT_LINE, LineOptions(false, true)).0

  lemma RootLine(path: seq<byte>, isDir: bool)
    requires path == [] || path == [0x78]
    ensures var rule := RuleOf(None, "/", LineOptions(false, true));
            && rule.Some? && !rule.value.0.isWhitelist
            && (Applies(rule.value.1, rule.value.0, path, isDir) <==> path == [])
  {
    hide RuleOf, Applies, PartsMatch, Split;
    var opts := LineOptions(false, true);
    assert Trimmed("/") == "/" && StripMarkers("/") == Marked(false, true, "") by {
      assert "/"[1..] == "";
    }
    assert SimpleTokens(OpenText("/"), true) == Some([]);
    SimpleLineMeans(None, "/", [], opts, path, isDir);
    OnePart(path, opts);
  }

  lemma OnePart(path: seq<byte>, opts: GlobOptions)
    requires path == [] || path == [0x78]
    ensures PartsMatch(Split([], Token.Literal('/')), Split(path, SLASH), opts) <==> path == []
    ensures LastComponent(path) != DOT_DOT
  {
  }

  lemma VerdictOfRootLine(path: seq<byte>, isDir: bool)
    requires path == [] || path == [0x78]
    ensures |ROOT_RULE.patterns| == |ROOT_RULE.rules|
    ensures var m := LastVerdict(ROOT_RULE, path, isDir); if path == [] then m.Ignore? else m.NoMatch?
  {
    hide AddAll, RuleOf, Applies, LastVerdict, LineAt, Aligned;
    var opts := LineOptions(false, true);
    LinesDecide(None, ROOT_LINE, opts, path, isDir);
    AlignedLength(ROOT_RULE);
    RootLine(path, isDir);
    LastLine(None, ROOT_LINE, opts, path, isDir);
    assert ROOT_LINE[..0] == [];
    FirstLineAt();
  }

  lemma FirstLineAt()
    ensures LineAt(ROOT_LINE, 0) == "/"
  {
  }

  // From below the file `x` is ignored with the root; a walk does not ask about the root.
  lemma RootIsNotAsked()
    ensures |ROOT_RULE.patterns| == |ROOT_RULE.rules|
    ensures VerdictFromBelow(ROOT_RULE, [0x78], false).Ignore? && !WalkIgnores(ROOT_RULE, [0x78], false)
  {
    hide LastVerdict, AddAll, RFind, TrimEnd;
    VerdictOfRootLine([0x78], false);
    VerdictOfRootLine([], true);
    TopEntry();
  }

  lemma TopEntry()
    ensures !HasRoot([0x78]) && ParentOf([0x78]) == Some([])
  {
  }
}
