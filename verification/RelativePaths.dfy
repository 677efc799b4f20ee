/** Paths relative to a directory: stripping its own path, and going up to the directories above. */
module RelativePaths {
  import opened Wrappers
  import opened Utf8
  import opened Paths

  const DOT_SLASH: seq<byte> := [DOT, SLASH]

  function WithoutPrefix(prefix: seq<byte>, path: seq<byte>): seq<byte> {
    if prefix <= path then path[|prefix|..] else path
  }

  // The path without separators and `.` components at its end, which are no components of their own.
  function TrimEnd(path: seq<byte>): (r: seq<byte>)
    ensures r <= path
    ensures path != [] && path[0] != SLASH ==> r != []
  {
    if path == [] then []
    else if path[|path| - 1] == SLASH then TrimEnd(path[..|path| - 1])
    else if |path| >= 2 && path[|path| - 1] == DOT && path[|path| - 2] == SLASH then TrimEnd(path[..|path| - 2])
    else path
  }

  // The path is the directory `.`, however written.
  predicate IsDot(path: seq<byte>) {
    TrimEnd(path) == [DOT]
  }

  // The root of a matcher, whose leading `./` means nothing.
  function CleanRoot(root: seq<byte>): seq<byte> {
    WithoutPrefix(DOT_SLASH, root)
  }

  // A path as seen from the root of a matcher. The root is taken off byte by byte, but never from a
  // bare file name.
  function Strip(root: seq<byte>, path: seq<byte>): seq<byte> {
    var clean := WithoutPrefix(DOT_SLASH, path);
    if IsDot(root) || SLASH !in clean || !(root <= clean) then clean
    else WithoutPrefix([SLASH], clean[|root|..])
  }

  // A path below another one, unless it is absolute by itself.
  function Joined(base: seq<byte>, path: seq<byte>): seq<byte> {
    if HasRoot(path) then path
    else if base == [] || base[|base| - 1] == SLASH then base + path
    else base + [SLASH] + path
  }

  predicate HasRoot(path: seq<byte>) {
    path != [] && path[0] == SLASH
  }

  // The directory above a relative path; the empty path is the topmost.
  function ParentOf(path: seq<byte>): (r: Option<seq<byte>>)
    requires !HasRoot(path)
    ensures r.None? <==> path == []
    ensures r.Some? ==> |r.value| < |path| && !HasRoot(r.value)
  {
    if path == [] then None
    else
      var trimmed := TrimEnd(path);
      match RFind(trimmed, SLASH)
      case None => Some([])
      case Some(i) => Some(TrimEnd(trimmed[..i]))
  }

  // A path that ends in a name, and not in a lone dot, has nothing to trim.
  lemma NameIsNotTrimmed(dir: seq<byte>, name: seq<byte>)
    requires name != [] && name != [DOT] && SLASH !in name
    ensures TrimEnd(dir + [SLASH] + name) == dir + [SLASH] + name
  {
    var path := dir + [SLASH] + name;
    var n := |path|;
    assert path[n - 1] == name[|name| - 1] && name[|name| - 1] in name;
    if |name| == 1 {
      assert name == [name[0]];
    } else {
      assert path[n - 2] == name[|name| - 2] && name[|name| - 2] in name;
    }
  }

  lemma EntryIsCut(dir: seq<byte>, name: seq<byte>)
    requires SLASH !in name
    ensures RFind(dir + [SLASH] + name, SLASH) == Some(|dir|) && (dir + [SLASH] + name)[..|dir|] == dir
  {
    hide RFind;
    var path := dir + [SLASH] + name;
    assert path[|dir| + 1..] == name;
    RFindIs(path, SLASH, |dir|);
  }

  // Going up from an entry of a directory leads to the directory.
  lemma ParentOfEntry(dir: seq<byte>, name: seq<byte>)
    requires dir != [] && !HasRoot(dir) && TrimEnd(dir) == dir
    requires name != [] && name != [DOT] && SLASH !in name
    ensures !HasRoot(dir + [SLASH] + name) && ParentOf(dir + [SLASH] + name) == Some(dir)
  {
    hide TrimEnd, RFind;
    NameIsNotTrimmed(dir, name);
    EntryIsCut(dir, name);
  }

  // The path of something inside a directory leads back to it when the directory is stripped.
  lemma StripInside(root: seq<byte>, path: seq<byte>)
    requires root != [] && !IsDot(root) && !(DOT_SLASH <= root) && !HasRoot(path)
    ensures Strip(root, root + [SLASH] + path) == path
  {
    var all := root + [SLASH] + path;
    assert IsDot([DOT]);
    if |root| == 1 {
      assert root == [root[0]] && all[0] == root[0];
    } else {
      assert all[..2] == root[..2];
    }
    assert all[..2] != DOT_SLASH;
    assert all[..|root|] == root;
    assert all[|root|..] == [SLASH] + path;
    assert SLASH in all by {
      assert all[|root|] == SLASH;
    }
    assert ([SLASH] + path)[1..] == path;
  }
}
