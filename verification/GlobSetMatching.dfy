/**
 Building a glob set and asking it. The set answers exactly what running every glob's own regular
 expression would answer, for every path whose last component is not `..`.
 */
module GlobSetMatching {
  import opened Wrappers
  import opened Utf8
  import opened Regexes
  import opened Tokens
  import opened Compiler
  import opened Paths
  import opened Strategies
  import opened StrategyProofs
  import opened IndexVectors
  import opened GlobSetStrategies
  import opened GlobSetTables

  // f of each element.
  function Mapped<T, U>(s: seq<T>, f: T -> U): (r: seq<U>)
    ensures |r| == |s|
    ensures forall i | 0 <= i < |s| :: r[i] == f(s[i])
  {
    seq(|s|, i requires 0 <= i < |s| => f(s[i]))
  }

  function StrategiesOf(globs: seq<Glob>): (sts: seq<MatchStrategy>)
    ensures |sts| == |globs|
    ensures forall i | 0 <= i < |globs| :: sts[i] == StrategyOf(globs[i])
  {
    hide StrategyOf;
    Mapped(globs, StrategyOf)
  }

  function PatternsOf(globs: seq<Glob>): (ps: seq<Pattern>)
    ensures |ps| == |globs|
    ensures forall i | 0 <= i < |globs| :: ps[i] == PatternOf(globs[i])
  {
    hide PatternOf;
    Mapped(globs, PatternOf)
  }

  lemma StrategyHasKeys(g: Glob)
    ensures HasKeys(StrategyOf(g))
    ensures StrategyOf(g).Suffix? ==> StrategyOf(g).suffix != ""
  {
    BasenameHasKey(g);
    RequiredExtHasKey(g);
    ExtAndSuffixHaveKeys(g);
    hide BasenameLiteralOf, LiteralOf, ExtOf, PrefixOf, SuffixOf, RequiredExtOf;
  }

  lemma BasenameHasKey(g: Glob)
    ensures BasenameLiteralOf(g).Some? ==> BasenameLiteralOf(g).value != ""
  {
    if BasenameLiteralOf(g).Some? {
      assert |BasenameTokensOf(g).value| > 0;
    }
  }

  lemma RequiredExtHasKey(g: Glob)
    ensures RequiredExtOf(g).Some? ==> RequiredExtOf(g).value != ""
  {
    if RequiredExtOf(g).Some? {
      TrailingExtShape(g.tokens, "");
    }
  }

  lemma ExtAndSuffixHaveKeys(g: Glob)
    ensures ExtOf(g).Some? ==> ExtOf(g).value != ""
    ensures SuffixOf(g).Some? ==> SuffixOf(g).value.0 != ""
  {
    hide LiteralText;
  }

  // ----- what a set answers about one glob -----

  // Strategies that look the base name or the extension up, which a path ending in `..` lacks.
  predicate LooksUpName(st: MatchStrategy) {
    st.BasenameLiteral? || st.Extension? || st.RequiredExtension?
  }

  // For any path: as the glob's own expression, except that a path ending in `..` has no name to be
  // looked up by.
  predicate SetMatches(g: Glob, path: seq<byte>) {
    GlobMatches(g, path) && (LastComponent(path) == DOT_DOT ==> !LooksUpName(StrategyOf(g)))
  }

  lemma NoNameAtDotDot(path: seq<byte>)
    requires LastComponent(path) == DOT_DOT
    ensures NewCandidate(path).basename == [] && NewCandidate(path).ext == []
  {
  }

  lemma KeyIsNotEmpty(key: string)
    requires key != ""
    ensures Encode(key) != []
  {
  }

  lemma NothingLookedUp(g: Glob, path: seq<byte>)
    requires LastComponent(path) == DOT_DOT && LooksUpName(StrategyOf(g))
    ensures !StrategyMatches(g, NewCandidate(path))
  {
    hide StrategyOf, NewCandidate, Encode, GlobMatches, LastComponent;
    NoNameAtDotDot(path);
    StrategyHasKeys(g);
    match StrategyOf(g)
    case BasenameLiteral(lit) => KeyIsNotEmpty(lit);
    case Extension(ext) => KeyIsNotEmpty(ext);
    case RequiredExtension(ext) => KeyIsNotEmpty(ext);
    case _ =>
  }

  lemma NoNameNeeded(g: Glob, path: seq<byte>)
    requires !LooksUpName(StrategyOf(g))
    ensures StrategyMatches(g, NewCandidate(path)) <==> GlobMatches(g, path)
  {
    hide BasenameLiteralOf, LiteralOf, ExtOf, PrefixOf, SuffixOf, RequiredExtOf, GlobMatches, Encode, LastComponent;
    if LiteralOf(g).Some? {
      LiteralSound(g, path);
    } else if PrefixOf(g).Some? {
      PrefixSound(g, path);
    } else if SuffixOf(g).Some? {
      SuffixSound(g, path);
    }
  }

  // For every glob and every path the chosen strategy answers exactly this.
  lemma StrategyExactly(g: Glob, path: seq<byte>)
    ensures StrategyMatches(g, NewCandidate(path)) <==> SetMatches(g, path)
  {
    hide StrategyMatches, StrategyOf, GlobMatches, NewCandidate, LooksUpName, LastComponent;
    if LastComponent(path) != DOT_DOT {
      StrategySound(g, path);
    } else if LooksUpName(StrategyOf(g)) {
      NothingLookedUp(g, path);
    } else {
      NoNameNeeded(g, path);
    }
  }

  datatype GlobSet = GlobSet(len: nat, strats: seq<GlobSetMatchStrategy>) {

    ghost predicate Valid() {
      AllValid(strats)
    }

    // The set reports, for every candidate, the globs whose strategies say that they match.
    ghost predicate Represents(globs: seq<Glob>) {
      && Valid()
      && len == |globs|
      && forall c, i: nat :: SomeReports(strats, c, i) <==> i < |globs| && StrategyMatches(globs[i], c)
    }

    method IsMatchCandidate(c: Candidate, ghost globs: seq<Glob>) returns (b: bool)
      requires Represents(globs)
      ensures b <==> exists i | 0 <= i < |globs| :: StrategyMatches(globs[i], c)
    {
      if len == 0 {
        return false;
      }
      for n := 0 to |strats|
        invariant forall j, i: nat | 0 <= j < n :: strats[j] in strats ==> !strats[j].Reports(c, i)
      {
        assert strats[n] in strats;
        var hit := strats[n].IsMatch(c);
        if hit {
          ghost var i: nat :| strats[n].Reports(c, i);
          assert SomeReports(strats, c, i);
          return true;
        }
      }
      forall i: nat | i < |globs|
        ensures !StrategyMatches(globs[i], c)
      {
        assert !SomeReports(strats, c, i);
      }
      return false;
    }

    // `into` is cleared first; afterwards it holds the positions of the matching globs in order.
    method MatchesCandidateInto(c: Candidate, into: IndexVector, ghost globs: seq<Glob>)
      requires Represents(globs)
      modifies into
      ensures StrictlyAscending(into.items)
      ensures forall i: nat :: i in into.items <==> i < |globs| && StrategyMatches(globs[i], c)
    {
      into.Clear();
      if len == 0 {
        return;
      }
      Collect(c, into);
      ghost var reported := into.items;
      into.Sort();
      assert forall i :: i in into.items <==> i in multiset(into.items);
      into.Dedup();
      forall i: nat
        ensures i in into.items <==> i < |globs| && StrategyMatches(globs[i], c)
      {
        assert i in reported <==> i in multiset(reported);
        assert i in reported <==> SomeReports(strats, c, i);
      }
    }

    method Collect(c: Candidate, into: IndexVector)
      requires Valid() && into.items == []
      modifies into
      ensures forall i: nat :: i in into.items <==> SomeReports(strats, c, i)
    {
      assert strats[..0] == [];
      for n := 0 to |strats|
        invariant AllValid(strats[..n])
        invariant forall i: nat :: i in into.items <==> SomeReports(strats[..n], c, i)
      {
        var s := strats[n];
        assert s in strats;
        assert strats[..n + 1] == strats[..n] + [s];
        s.MatchesInto(c, into);
        forall i: nat
          ensures AllValid(strats[..n + 1]) && (SomeReports(strats[..n + 1], c, i) <==> SomeReports(strats[..n], c, i) || s.Reports(c, i))
        {
          SomeReportsConcat(strats[..n], [s], c, i);
        }
      }
      assert strats[..|strats|] == strats;
    }

    // The documented operation: the positions of all globs that match the path.
    method MatchesInto(path: seq<byte>, into: IndexVector, ghost globs: seq<Glob>)
      requires Represents(globs)
      modifies into
      ensures into.items == SetPositions(globs, path)
      ensures LastComponent(path) != DOT_DOT ==> into.items == MatchingPositions(globs, path)
    {
      hide Represents, StrategyMatches, SetPositions, MatchingPositions, LastComponent;
      MatchesCandidateInto(NewCandidate(path), into, globs);
      ReportedPositions(globs, path, into.items);
      if LastComponent(path) != DOT_DOT {
        SetIsExact(globs, path);
      }
    }

    method IsMatch(path: seq<byte>, ghost globs: seq<Glob>) returns (b: bool)
      requires Represents(globs)
      ensures b <==> SetPositions(globs, path) != []
      ensures LastComponent(path) != DOT_DOT ==> (b <==> MatchingPositions(globs, path) != [])
    {
      hide Represents, StrategyMatches, SetMatches, SetPositions, MatchingPositions, LastComponent;
      b := IsMatchCandidate(NewCandidate(path), globs);
      if b {
        ghost var i :| 0 <= i < |globs| && StrategyMatches(globs[i], NewCandidate(path));
        StrategyExactly(globs[i], path);
        assert i in SetPositions(globs, path);
      } else if SetPositions(globs, path) != [] {
        var i := SetPositions(globs, path)[0];
        assert i in SetPositions(globs, path);
        StrategyExactly(globs[i], path);
      }
      if LastComponent(path) != DOT_DOT {
        SetIsExact(globs, path);
      }
    }
  }

  // The positions of the globs that the set says match.
  function SetPositions(globs: seq<Glob>, path: seq<byte>): (r: seq<nat>)
    ensures StrictlyAscending(r)
    ensures forall i: nat :: i in r <==> i < |globs| && SetMatches(globs[i], path)
  {
    if globs == [] then []
    else
      var n := |globs| - 1;
      var front := SetPositions(globs[..n], path);
      OneMorePosition(front, n);
      assert forall i: nat | i < n :: globs[..n][i] == globs[i];
      if SetMatches(globs[n], path) then front + [n] else front
  }

  lemma OneMorePosition(front: seq<nat>, n: nat)
    requires StrictlyAscending(front) && forall i: nat | i in front :: i < n
    ensures StrictlyAscending(front + [n])
    ensures forall i: nat :: i in front + [n] <==> i in front || i == n
  {
    forall k | 0 <= k < |front|
      ensures front[k] < n
    {
      assert front[k] in front;
    }
  }

  // The slow answer: run each glob's own regular expression and list the positions of those that match.
  function MatchingPositions(globs: seq<Glob>, path: seq<byte>): (r: seq<nat>)
    ensures StrictlyAscending(r)
    ensures forall i: nat :: i in r <==> i < |globs| && GlobMatches(globs[i], path)
  {
    if globs == [] then []
    else
      var n := |globs| - 1;
      var front := MatchingPositions(globs[..n], path);
      OneMorePosition(front, n);
      assert forall i: nat | i < n :: globs[..n][i] == globs[i];
      if GlobMatches(globs[n], path) then front + [n] else front
  }

  lemma ReportedPositions(globs: seq<Glob>, path: seq<byte>, r: seq<nat>)
    requires StrictlyAscending(r)
    requires forall i: nat :: i in r <==> i < |globs| && StrategyMatches(globs[i], NewCandidate(path))
    ensures r == SetPositions(globs, path)
  {
    hide StrategyMatches, SetMatches, SetPositions;
    forall i: nat | i < |globs|
      ensures StrategyMatches(globs[i], NewCandidate(path)) <==> SetMatches(globs[i], path)
    {
      StrategyExactly(globs[i], path);
    }
    AscendingUnique(r, SetPositions(globs, path));
  }

  // The set and the expressions agree on every path that does not end in `..`.
  lemma SetIsExact(globs: seq<Glob>, path: seq<byte>)
    requires LastComponent(path) != DOT_DOT
    ensures SetPositions(globs, path) == MatchingPositions(globs, path)
  {
    hide SetPositions, MatchingPositions, GlobMatches, LastComponent;
    AscendingUnique(SetPositions(globs, path), MatchingPositions(globs, path));
  }

  // The tables hold exactly these globs.
  ghost predicate Holds(t: Tables, globs: seq<Glob>) {
    Tallied(t, StrategiesOf(globs), PatternsOf(globs))
  }

  lemma NothingHeld()
    ensures Holds(NO_TABLES, [])
  {
    NothingFiled();
    assert StrategiesOf([]) == [] && PatternsOf([]) == [];
  }

  lemma {:induction false} HoldsOneMore(t: Tables, globs: seq<Glob>, i: nat)
    requires i < |globs| && Holds(t, globs[..i])
    ensures Holds(FileOne(t, i, StrategyOf(globs[i]), PatternOf(globs[i])), globs[..i + 1])
  {
    hide Tallied, FileOne, StrategyOf, PatternOf;
    var sts, ps := StrategiesOf(globs[..i]), PatternsOf(globs[..i]);
    FileOneTallies(t, sts, ps, StrategyOf(globs[i]), PatternOf(globs[i]));
    assert StrategiesOf(globs[..i + 1]) == sts + [StrategyOf(globs[i])];
    assert PatternsOf(globs[..i + 1]) == ps + [PatternOf(globs[i])];
  }

  lemma BuiltSetRepresents(t: Tables, globs: seq<Glob>)
    requires Holds(t, globs)
    ensures GlobSet(|globs|, Assemble(t)).Represents(globs)
  {
    var sts, ps := StrategiesOf(globs), PatternsOf(globs);
    forall st | st in sts
      ensures HasKeys(st)
    {
      var i :| 0 <= i < |sts| && sts[i] == st;
      StrategyHasKeys(globs[i]);
    }
    forall c, i: nat
      ensures AllValid(Assemble(t)) && (SomeReports(Assemble(t), c, i) <==> i < |globs| && StrategyMatches(globs[i], c))
    {
      TablesAnswer(t, sts, ps, c, i);
      AssembleReports(t, c, i);
    }
    assert GlobSet(|globs|, Assemble(t)).Valid() by {
      TablesAnswer(t, sts, ps, NewCandidate([]), 0);
      AssembleReports(t, NewCandidate([]), 0);
    }
  }

  method New(globs: seq<Glob>) returns (set_: GlobSet)
    ensures set_.Represents(globs)
  {
    if |globs| == 0 {
      NothingHeld();
      BuiltSetRepresents(NO_TABLES, globs);
      return GlobSet(0, []);
    }
    var b := new Builders();
    NothingHeld();
    assert globs[..0] == [];
    for i := 0 to |globs|
      invariant fresh(b.Parts()) && b.Separate()
      invariant Holds(b.Contents(), globs[..i])
    {
      HoldsOneMore(b.Contents(), globs, i);
      b.File(i, globs[i]);
    }
    assert globs[..|globs|] == globs;
    var strats := b.Strategies();
    BuiltSetRepresents(b.Contents(), globs);
    return GlobSet(|globs|, strats);
  }

  // The seven tables that are filled while a set is built.
  class Builders {
    const lits: HashTable<nat>
    const baseLits: HashTable<nat>
    const exts: HashTable<nat>
    const prefixes: MultiStrategyBuilder<seq<byte>>
    const suffixes: MultiStrategyBuilder<seq<byte>>
    const requiredExts: HashTable<(nat, Pattern)>
    const regexes: MultiStrategyBuilder<Pattern>

    constructor ()
      ensures Separate() && fresh(Parts()) && Contents() == NO_TABLES
    {
      lits := new HashTable<nat>();
      baseLits := new HashTable<nat>();
      exts := new HashTable<nat>();
      prefixes := new MultiStrategyBuilder<seq<byte>>();
      suffixes := new MultiStrategyBuilder<seq<byte>>();
      requiredExts := new HashTable<(nat, Pattern)>();
      regexes := new MultiStrategyBuilder<Pattern>();
    }

    ghost function Parts(): set<object> {
      {lits, baseLits, exts, prefixes, suffixes, requiredExts, regexes}
    }

    ghost predicate Separate() {
      && lits != baseLits && lits != exts && baseLits != exts
      && prefixes != suffixes
      && {lits as object, baseLits, exts} !! {prefixes as object, suffixes} !! {requiredExts as object} !! {regexes as object}
    }

    function Contents(): Tables
      reads lits, baseLits, exts, prefixes, suffixes, requiredExts, regexes
    {
      Tables(lits.entries, baseLits.entries, exts.entries, prefixes.Contents(), suffixes.Contents(),
             requiredExts.entries, regexes.Contents())
    }

    method File(i: nat, p: Glob)
      requires Separate()
      modifies Parts()
      ensures Contents() == FileOne(old(Contents()), i, StrategyOf(p), PatternOf(p))
    {
      var strategy := NewStrategy(p);
      StrategyHasKeys(p);
      FileUnder(i, strategy, PatternOf(p));
    }

    method FileUnder(i: nat, strategy: MatchStrategy, p: Pattern)
      requires Separate() && (strategy.Suffix? ==> strategy.suffix != "")
      modifies Parts()
      ensures Contents() == FileOne(old(Contents()), i, strategy, p)
    {
      match strategy {
        case Literal(lit) =>
          lits.Add(i, Encode(lit));
        case BasenameLiteral(lit) =>
          baseLits.Add(i, Encode(lit));
        case Extension(ext) =>
          exts.Add(i, Encode(ext));
        case Prefix(prefix) =>
          prefixes.Add(i, Encode(prefix), |Encode(prefix)|);
        case Suffix(suffix, component) =>
          if component {
            lits.Add(i, Encode(suffix[1..]));
          }
          suffixes.Add(i, Encode(suffix), |Encode(suffix)|);
        case RequiredExtension(ext) =>
          requiredExts.Add((i, p), Encode(ext));
        case Regex =>
          regexes.Add(i, p, |p.re|);
      }
    }

    // Only populated tables become strategies.
    method Strategies() returns (strats: seq<GlobSetMatchStrategy>)
      ensures strats == Assemble(Contents())
    {
      strats := [];
      if exts.entries != map[] {
        strats := strats + [ExtensionStrategy(exts.entries)];
      }
      if baseLits.entries != map[] {
        strats := strats + [BasenameLiteralStrategy(baseLits.entries)];
      }
      if lits.entries != map[] {
        strats := strats + [LiteralStrategy(lits.entries)];
      }
      if suffixes.literals != [] {
        strats := strats + [SuffixStrategy(suffixes.Contents())];
      }
      if prefixes.literals != [] {
        strats := strats + [PrefixStrategy(prefixes.Contents())];
      }
      if requiredExts.entries != map[] {
        strats := strats + [RequiredExtensionStrategy(requiredExts.entries)];
      }
      if regexes.literals != [] {
        strats := strats + [RegexSetStrategy(regexes.Contents())];
      }
    }
  }

  // ----- the set and the regular expressions, exactly -----

  // `**/..` as parsed with the default options.
  const DOT_DOT_GLOB := Glob("**/..", GlobOptions(false, false, true, false, false), [RecursivePrefix, Token.Literal('.'), Token.Literal('.')])

  lemma DotDotDiffers(path: seq<byte>)
    requires LastComponent(path) == DOT_DOT
    ensures GlobMatches(DOT_DOT_GLOB, path) && !SetMatches(DOT_DOT_GLOB, path)
  {
    hide GlobMatches, LastComponent;
    var toks := DOT_DOT_GLOB.tokens[1..];
    assert toks == Literals("..") && LiteralText(toks) == Some("..") by {
      LiteralTextIs("..");
    }
    assert BasenameTokensOf(DOT_DOT_GLOB) == Some(toks);
    assert Encode("..") == DOT_DOT by {
      assert ".."[1..] == "." && "."[1..] == "";
    }
    BasenameLiteralSound(DOT_DOT_GLOB, path);
    assert StrategyOf(DOT_DOT_GLOB) == BasenameLiteral("..");
  }

  ghost predicate SetsAreExact(path: seq<byte>) {
    forall globs :: SetPositions(globs, path) == MatchingPositions(globs, path)
  }

  // Sets agree with the expressions of their globs on a path, whatever the globs, if and only if
  // the path's last component is not `..`.
  lemma {:induction false} SetIsExactUnlessDotDot(path: seq<byte>)
    ensures SetsAreExact(path) <==> LastComponent(path) != DOT_DOT
  {
    hide SetPositions, MatchingPositions, SetMatches, GlobMatches, LastComponent;
    if LastComponent(path) == DOT_DOT {
      DotDotDiffers(path);
      var globs := [DOT_DOT_GLOB];
      assert globs[0] == DOT_DOT_GLOB;
      assert 0 in MatchingPositions(globs, path) && 0 !in SetPositions(globs, path);
    } else {
      forall globs
        ensures SetPositions(globs, path) == MatchingPositions(globs, path)
      {
        SetIsExact(globs, path);
      }
    }
  }
}
