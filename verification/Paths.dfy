/** Pieces of a path: its last component, that component's extension, and its components. */
module Paths {
  import opened Wrappers
  import opened Utf8
  import opened Text

  // The position of the last b in s.
  function RFind(s: seq<byte>, b: byte): (r: Option<nat>)
    ensures r.None? <==> b !in s
    ensures r.Some? ==> r.value < |s| && s[r.value] == b && b !in s[r.value + 1..]
  {
    if s == [] then None
    else if s[|s| - 1] == b then Some(|s| - 1)
    else
      assert s == s[..|s| - 1] + [s[|s| - 1]];
      var r := RFind(s[..|s| - 1], b);
      assert r.Some? ==> s[r.value + 1..] == s[..|s| - 1][r.value + 1..] + [s[|s| - 1]];
      r
  }

  // What follows the last slash.
  function LastComponent(path: seq<byte>): seq<byte> {
    match RFind(path, SLASH)
    case None => path
    case Some(i) => path[i + 1..]
  }

  const DOT_DOT: seq<byte> := [DOT, DOT]

  function FileName(path: seq<byte>): Option<seq<byte>> {
    if path == [] then None
    else
      var got := LastComponent(path);
      if got == DOT_DOT then None else Some(got)
  }

  // The last dot and what follows it.
  function FileNameExt(name: seq<byte>): Option<seq<byte>> {
    if name == [] then None
    else
      match RFind(name, DOT)
      case None => None
      case Some(i) => Some(name[i..])
  }

  // A path prepared for matching; a missing file name or extension is represented by no bytes.
  datatype Candidate = Candidate(path: seq<byte>, basename: seq<byte>, ext: seq<byte>)

  function NewCandidate(path: seq<byte>): Candidate {
    var basename := match FileName(path) case None => [] case Some(n) => n;
    var ext := match FileNameExt(basename) case None => [] case Some(e) => e;
    Candidate(path, basename, ext)
  }

  function PathPrefix(c: Candidate, max: nat): seq<byte> {
    if |c.path| <= max then c.path else c.path[..max]
  }

  function PathSuffix(c: Candidate, max: nat): seq<byte> {
    if |c.path| <= max then c.path else c.path[|c.path| - max..]
  }

  // ----- laws -----

  lemma NotInTail(s: seq<byte>, b: byte, k: nat)
    requires k <= |s| && b !in s[k..]
    ensures forall j | k <= j < |s| :: s[j] != b
  {
    forall j | k <= j < |s|
      ensures s[j] != b
    {
      assert s[j] == s[k..][j - k];
    }
  }

  lemma RFindIs(s: seq<byte>, b: byte, k: nat)
    requires k < |s| && s[k] == b && b !in s[k + 1..]
    ensures RFind(s, b) == Some(k)
  {
    NotInTail(s, b, k + 1);
    NotInTail(s, b, RFind(s, b).value + 1);
  }

  // pre is a whole number of leading components.
  predicate IsParentPart(pre: seq<byte>) {
    pre == [] || pre[|pre| - 1] == SLASH
  }

  // There is just one way to cut a path into a parent part and a part without slashes.
  lemma LastComponentCut(path: seq<byte>, k: nat)
    requires k <= |path|
    ensures IsParentPart(path[..k]) && SLASH !in path[k..] <==> path[k..] == LastComponent(path) && k == |path| - |LastComponent(path)|
  {
    hide RFind, LastComponent;
    var n := LastComponentStart(path);
    if IsParentPart(path[..k]) && SLASH !in path[k..] {
      NotInTail(path, SLASH, n);
      NotInTail(path, SLASH, k);
    }
  }

  lemma LastComponentStart(path: seq<byte>) returns (n: nat)
    ensures n <= |path| && n == |path| - |LastComponent(path)|
    ensures n > 0 ==> path[n - 1] == SLASH
    ensures path[n..] == LastComponent(path) && SLASH !in path[n..]
  {
    n := |path| - |LastComponent(path)|;
  }

  // name ends with a dot and then rest, which holds no further dot, exactly when that is its
  // extension.
  lemma DotCut(name: seq<byte>, rest: seq<byte>)
    requires DOT !in rest
    ensures FileNameExt(name) == Some([DOT] + rest) <==> EndsWith(name, [DOT] + rest)
  {
    var e := [DOT] + rest;
    var k := |name| - |e|;
    if EndsWith(name, e) {
      assert name[k] == e[0] == DOT;
      assert name[k + 1..] == name[k..][1..] == rest;
      RFindIs(name, DOT, k);
    }
  }

  // Something without slashes ends the path exactly when it ends the path's last component.
  lemma EndsWithinLastComponent(path: seq<byte>, e: seq<byte>)
    requires SLASH !in e
    ensures EndsWith(path, e) <==> EndsWith(LastComponent(path), e)
  {
    var base := LastComponent(path);
    var n, k := |path| - |base|, |path| - |e|;
    assert path[n..] == base && (n > 0 ==> path[n - 1] == SLASH);
    if EndsWith(path, e) {
      NotInTail(path, SLASH, k);
      assert base[k - n..] == path[k..];
    }
    if EndsWith(base, e) {
      assert path[k..] == base[k - n..];
    }
  }

  // A path ends with a dot and then rest, which holds no further dot and no slash, exactly when
  // that is the extension of its last component.
  lemma {:induction false} ExtensionCut(path: seq<byte>, rest: seq<byte>)
    requires LastComponent(path) != DOT_DOT && DOT !in rest && SLASH !in rest
    ensures NewCandidate(path).ext == [DOT] + rest <==> EndsWith(path, [DOT] + rest)
  {
    DotCut(LastComponent(path), rest);
    EndsWithinLastComponent(path, [DOT] + rest);
  }

  // ----- components -----

  function Split<T(==)>(s: seq<T>, sep: T): (parts: seq<seq<T>>)
    ensures parts != []
    ensures forall p | p in parts :: sep !in p
  {
    if s == [] then [[]]
    else
      var rest := Split(s[1..], sep);
      if s[0] == sep then [[]] + rest else [[s[0]] + rest[0]] + rest[1..]
  }

  // A piece without the separator in front belongs to the first part.
  lemma {:induction false} SplitPrefix<T>(w: seq<T>, s: seq<T>, sep: T)
    requires sep !in w
    ensures Split(w + s, sep) == [w + Split(s, sep)[0]] + Split(s, sep)[1..]
  {
    if w == [] {
      assert w + s == s && [] + Split(s, sep)[0] == Split(s, sep)[0];
    } else {
      SplitPrefix(w[1..], s, sep);
      assert (w + s)[1..] == w[1..] + s;
      assert w + Split(s, sep)[0] == [w[0]] + (w[1..] + Split(s, sep)[0]);
    }
  }

  // The first part of a text that does not start with the separator.
  lemma SplitFirst<T>(s: seq<T>, sep: T)
    requires |Split(s, sep)[0]| > 0
    ensures s != [] && s[0] != sep
    ensures Split(s, sep)[0] == [s[0]] + Split(s[1..], sep)[0] && Split(s, sep)[1..] == Split(s[1..], sep)[1..]
  {
  }

  // The first part is a prefix of s, and cutting within it commutes with splitting.
  lemma {:induction false} SplitDrop<T>(s: seq<T>, sep: T, k: nat)
    requires k <= |Split(s, sep)[0]|
    ensures k <= |s| && s[..k] == Split(s, sep)[0][..k] && sep !in s[..k]
    ensures Split(s[k..], sep) == [Split(s, sep)[0][k..]] + Split(s, sep)[1..]
  {
    hide Split;
    var first := Split(s, sep)[0];
    if k == 0 {
      assert s[0..] == s && first[0..] == first && [first] + Split(s, sep)[1..] == Split(s, sep);
    } else {
      SplitFirst(s, sep);
      SplitDrop(s[1..], sep, k - 1);
      assert s[1..][k - 1..] == s[k..];
      assert s[..k] == [s[0]] + s[1..][..k - 1];
      assert first[..k] == [s[0]] + Split(s[1..], sep)[0][..k - 1];
      assert first[k..] == Split(s[1..], sep)[0][k - 1..];
    }
  }
}
