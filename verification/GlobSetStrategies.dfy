/**
 A set of globs answered by tables instead of by running every glob's expression: hash tables for
 whole paths, last components and extensions, multi-string searches for prefixes and suffixes, and
 expressions for the rest.
 */
module GlobSetStrategies {
  import opened Utf8
  import opened Regexes
  import opened Paths
  import opened Text
  import opened IndexVectors

  // ----- tables under construction -----

  function Hits<V>(table: map<seq<byte>, seq<V>>, key: seq<byte>): seq<V> {
    if key in table then table[key] else []
  }

  class HashTable<V> {
    var entries: map<seq<byte>, seq<V>>

    constructor ()
      ensures entries == map[]
    {
      entries := map[];
    }

    method Add(v: V, key: seq<byte>)
      modifies this
      ensures entries == old(entries)[key := Hits(old(entries), key) + [v]]
    {
      if key !in entries {
        entries := entries[key := []];
      }
      entries := entries[key := entries[key] + [v]];
    }
  }

  // The literals (or expressions) of one strategy with the positions of their globs.
  datatype Multi<L> = Multi(literals: seq<L>, positions: seq<nat>, longest: nat)

  class MultiStrategyBuilder<L> {
    var literals: seq<L>
    var positions: seq<nat>
    var longest: nat

    constructor ()
      ensures Contents() == Multi([], [], 0)
    {
      literals, positions, longest := [], [], 0;
    }

    function Contents(): Multi<L>
      reads this
    {
      Multi(literals, positions, longest)
    }

    method Add(globalIndex: nat, literal: L, len: nat)
      modifies this
      ensures Contents() == AddTo(old(Contents()), globalIndex, literal, len)
    {
      if len > longest {
        longest := len;
      }
      positions := positions + [globalIndex];
      literals := literals + [literal];
    }
  }

  function AddTo<L>(m: Multi<L>, i: nat, literal: L, len: nat): Multi<L> {
    Multi(m.literals + [literal], m.positions + [i], if len > m.longest then len else m.longest)
  }

  // ----- the strategies of a set -----

  datatype GlobSetMatchStrategy =
    | LiteralStrategy(table: map<seq<byte>, seq<nat>>)
    | BasenameLiteralStrategy(table: map<seq<byte>, seq<nat>>)
    | ExtensionStrategy(table: map<seq<byte>, seq<nat>>)
    | PrefixStrategy(matcher: Multi<seq<byte>>)
    | SuffixStrategy(matcher: Multi<seq<byte>>)
    | RequiredExtensionStrategy(patterns: map<seq<byte>, seq<(nat, Pattern)>>)
    | RegexSetStrategy(matchers: Multi<Pattern>)
  {
    ghost predicate Valid() {
      match this
      case LiteralStrategy(t) => NoEmptyEntry(t)
      case BasenameLiteralStrategy(t) => NoEmptyEntry(t)
      case ExtensionStrategy(t) => NoEmptyEntry(t)
      case PrefixStrategy(m) => |m.literals| == |m.positions|
      case SuffixStrategy(m) => |m.literals| == |m.positions|
      case RequiredExtensionStrategy(_) => true
      case RegexSetStrategy(m) => |m.literals| == |m.positions|
    }

    // The strategy reports the glob at position i.
    ghost predicate Reports(c: Candidate, i: nat)
      requires Valid()
    {
      match this
      case LiteralStrategy(t) => i in Hits<nat>(t, c.path)
      case BasenameLiteralStrategy(t) => c.basename != [] && i in Hits<nat>(t, c.basename)
      case ExtensionStrategy(t) => c.ext != [] && i in Hits<nat>(t, c.ext)
      case PrefixStrategy(m) =>
        exists p | 0 <= p < |m.literals| :: m.positions[p] == i && m.literals[p] <= PathPrefix(c, m.longest)
      case SuffixStrategy(m) =>
        exists p | 0 <= p < |m.literals| :: m.positions[p] == i && EndsWith(PathSuffix(c, m.longest), m.literals[p])
      case RequiredExtensionStrategy(ps) =>
        c.ext != [] && exists e | e in Hits<(nat, Pattern)>(ps, c.ext) :: e.0 == i && PatternMatches(e.1, c.path)
      case RegexSetStrategy(m) =>
        exists p | 0 <= p < |m.literals| :: m.positions[p] == i && PatternMatches(m.literals[p], c.path)
    }

    method IsMatch(c: Candidate) returns (b: bool)
      requires Valid()
      ensures b <==> exists i :: Reports(c, i)
    {
      match this {
        case LiteralStrategy(t) =>
          b := c.path in t;
          assert b ==> Reports(c, t[c.path][0]);
        case BasenameLiteralStrategy(t) =>
          b := c.basename != [] && c.basename in t;
          assert b ==> Reports(c, t[c.basename][0]);
        case ExtensionStrategy(t) =>
          b := c.ext != [] && c.ext in t;
          assert b ==> Reports(c, t[c.ext][0]);
        case PrefixStrategy(m) =>
          b := AnyAt(m, PathPrefix(c, m.longest), true);
          if b {
            ghost var p :| OccursAt(m.literals, PathPrefix(c, m.longest), true, p);
            assert Reports(c, m.positions[p]);
          } else {
            forall p | 0 <= p < |m.literals|
              ensures !(m.literals[p] <= PathPrefix(c, m.longest))
            {
              assert !OccursAt(m.literals, PathPrefix(c, m.longest), true, p);
            }
            assert forall i :: !Reports(c, i);
          }
        case SuffixStrategy(m) =>
          b := AnyAt(m, PathSuffix(c, m.longest), false);
          if b {
            ghost var p :| OccursAt(m.literals, PathSuffix(c, m.longest), false, p);
            assert Reports(c, m.positions[p]);
          } else {
            forall p | 0 <= p < |m.literals|
              ensures !(EndsWith(PathSuffix(c, m.longest), m.literals[p]))
            {
              assert !OccursAt(m.literals, PathSuffix(c, m.longest), false, p);
            }
            assert forall i :: !Reports(c, i);
          }
        case RequiredExtensionStrategy(ps) =>
          var patterns := if c.ext != [] then Hits(ps, c.ext) else [];
          b := false;
          for n := 0 to |patterns|
            invariant !b
            invariant forall j | 0 <= j < n :: !PatternMatches(patterns[j].1, c.path)
          {
            if PatternMatches(patterns[n].1, c.path) {
              assert Reports(c, patterns[n].0);
              return true;
            }
          }
          assert forall i :: !Reports(c, i);
        case RegexSetStrategy(m) =>
          b := exists p | 0 <= p < |m.literals| :: PatternMatches(m.literals[p], c.path);
          if b {
            ghost var p :| 0 <= p < |m.literals| && PatternMatches(m.literals[p], c.path);
            assert Reports(c, m.positions[p]);
          } else {
            assert forall i :: !Reports(c, i);
          }
      }
    }

    method MatchesInto(c: Candidate, into: IndexVector)
      requires Valid()
      modifies into
      ensures forall i :: i in into.items <==> i in old(into.items) || Reports(c, i)
    {
      match this {
        case LiteralStrategy(t) =>
          into.Extend(Hits(t, c.path));
        case BasenameLiteralStrategy(t) =>
          if c.basename != [] {
            into.Extend(Hits(t, c.basename));
          }
        case ExtensionStrategy(t) =>
          if c.ext != [] {
            into.Extend(Hits(t, c.ext));
          }
        case PrefixStrategy(m) =>
          PushOccurrences(m, PathPrefix(c, m.longest), true, into);
        case SuffixStrategy(m) =>
          PushOccurrences(m, PathSuffix(c, m.longest), false, into);
        case RequiredExtensionStrategy(ps) =>
          if c.ext != [] {
            PushPatterns(Hits(ps, c.ext), c.path, into);
          }
        case RegexSetStrategy(m) =>
          for p := 0 to |m.literals|
            invariant forall i :: i in into.items <==>
                      i in old(into.items) || exists q | 0 <= q < p :: m.positions[q] == i && PatternMatches(m.literals[q], c.path)
          {
            if PatternMatches(m.literals[p], c.path) {
              into.Push(m.positions[p]);
            }
          }
      }
    }
  }

  ghost predicate NoEmptyEntry(table: map<seq<byte>, seq<nat>>) {
    forall key | key in table :: table[key] != []
  }

  // ----- multi-string search, by its meaning -----

  datatype Occurrence = Occurrence(pattern: nat, start: nat, end: nat)

  ghost predicate IsOccurrence(literals: seq<seq<byte>>, hay: seq<byte>, m: Occurrence) {
    m.pattern < |literals| && m.start <= m.end <= |hay| && hay[m.start..m.end] == literals[m.pattern]
  }

  // Every occurrence of every literal, overlapping ones included.
  method FindOverlapping(literals: seq<seq<byte>>, hay: seq<byte>) returns (found: seq<Occurrence>)
    ensures forall m :: m in found <==> IsOccurrence(literals, hay, m)
  {
    found := [];
    for end := 0 to |hay| + 1
      invariant forall m :: m in found <==> IsOccurrence(literals, hay, m) && m.end < end
    {
      for p := 0 to |literals|
        invariant forall m :: m in found <==>
                  IsOccurrence(literals, hay, m) && (m.end < end || (m.end == end && m.pattern < p))
      {
        var start := end - |literals[p]|;
        if start >= 0 && hay[start..end] == literals[p] {
          found := found + [Occurrence(p, start, end)];
        }
      }
    }
  }

  // A literal p occurs at the chosen end of the (truncated) path.
  ghost predicate OccursAt(literals: seq<seq<byte>>, hay: seq<byte>, atStart: bool, p: int) {
    0 <= p < |literals| && if atStart then literals[p] <= hay else EndsWith(hay, literals[p])
  }

  predicate AtEnd(hay: seq<byte>, atStart: bool, m: Occurrence) {
    if atStart then m.start == 0 else m.end == |hay|
  }

  lemma OccurrenceAtEnd(literals: seq<seq<byte>>, hay: seq<byte>, atStart: bool, p: nat)
    ensures OccursAt(literals, hay, atStart, p) <==>
            exists m :: IsOccurrence(literals, hay, m) && AtEnd(hay, atStart, m) && m.pattern == p
  {
    if OccursAt(literals, hay, atStart, p) {
      var n := |literals[p]|;
      var m := if atStart then Occurrence(p, 0, n) else Occurrence(p, |hay| - n, |hay|);
      assert hay[m.start..m.end] == literals[p];
      assert IsOccurrence(literals, hay, m) && AtEnd(hay, atStart, m);
    }
    if m :| IsOccurrence(literals, hay, m) && AtEnd(hay, atStart, m) && m.pattern == p {
      assert hay[m.start..m.end] == literals[p];
      assert atStart ==> hay[..m.end] == literals[p];
      assert !atStart ==> hay[m.start..] == literals[p];
    }
  }

  method AnyAt(m: Multi<seq<byte>>, hay: seq<byte>, atStart: bool) returns (b: bool)
    ensures b <==> exists p :: OccursAt(m.literals, hay, atStart, p)
  {
    var found := FindOverlapping(m.literals, hay);
    for n := 0 to |found|
      invariant forall j | 0 <= j < n :: !AtEnd(hay, atStart, found[j])
    {
      if AtEnd(hay, atStart, found[n]) {
        OccurrenceAtEnd(m.literals, hay, atStart, found[n].pattern);
        return true;
      }
    }
    forall p: nat
      ensures !OccursAt(m.literals, hay, atStart, p)
    {
      OccurrenceAtEnd(m.literals, hay, atStart, p);
    }
    return false;
  }

  method PushOccurrences(m: Multi<seq<byte>>, hay: seq<byte>, atStart: bool, into: IndexVector)
    requires |m.literals| == |m.positions|
    modifies into
    ensures forall i :: i in into.items <==>
            i in old(into.items) || exists p :: OccursAt(m.literals, hay, atStart, p) && m.positions[p] == i
  {
    var found := FindOverlapping(m.literals, hay);
    assert forall j | 0 <= j < |found| :: found[j] in found;
    for n := 0 to |found|
      invariant forall j | 0 <= j < |found| :: IsOccurrence(m.literals, hay, found[j])
      invariant forall i :: i in into.items <==>
                i in old(into.items) || exists j | 0 <= j < n :: AtEnd(hay, atStart, found[j]) && m.positions[found[j].pattern] == i
    {
      if AtEnd(hay, atStart, found[n]) {
        into.Push(m.positions[found[n].pattern]);
      }
    }
    forall p: nat
      ensures OccursAt(m.literals, hay, atStart, p) <==>
              exists j | 0 <= j < |found| :: AtEnd(hay, atStart, found[j]) && found[j].pattern == p
    {
      OccurrenceAtEnd(m.literals, hay, atStart, p);
    }
  }

  method PushPatterns(patterns: seq<(nat, Pattern)>, path: seq<byte>, into: IndexVector)
    modifies into
    ensures forall i :: i in into.items <==>
            i in old(into.items) || exists e | e in patterns :: e.0 == i && PatternMatches(e.1, path)
  {
    for n := 0 to |patterns|
      invariant forall i :: i in into.items <==>
                i in old(into.items) || exists e | e in patterns[..n] :: e.0 == i && PatternMatches(e.1, path)
    {
      assert patterns[..n + 1] == patterns[..n] + [patterns[n]];
      if PatternMatches(patterns[n].1, path) {
        into.Push(patterns[n].0);
      }
    }
    assert patterns[..|patterns|] == patterns;
  }
}
