/**
 Workers that add the directories above their walks at the same time: the lock on the cache is held
 for one directory only, so the steps of different calls mix.
 */
module SharedWalks {
  import opened Wrappers
  import opened Utf8
  import opened IgnoreChains
  import opened IgnoreParents
  import opened SharedBases

  // A call with its canonical path, the directories that it has still to add, and its chain so far.
  datatype Call = Call(base: seq<byte>, todo: seq<seq<byte>>, ig: IgnoreInner)

  datatype State = State(compiled: Cache, calls: map<nat, Call>)

  const INITIAL := State(map[], map[])

  // Beginning a call, and adding one directory under the lock; the entry of the directory may have
  // died or not.
  datatype Action = Begin(call: nat, base: seq<byte>) | Visit(call: nat, alive: bool)

  // The state after an action, if the action can be taken.
  function Step(fs: FileSystem, root: IgnoreInner, s: State, a: Action): Option<State> {
    match a
    case Begin(call, base) =>
      if call in s.calls || base == [] || base[0] != SLASH then None
      else Some(s.(calls := s.calls[call := Call(base, Ancestors(base), root)]))
    case Visit(call, alive) =>
      if call !in s.calls || s.calls[call].todo == [] then None
      else
        var c := s.calls[call];
        var (compiled, ig) := AddedParent(fs, s.compiled, c.ig, c.todo[0], c.base, alive);
        Some(State(compiled, s.calls[call := Call(c.base, c.todo[1..], ig)]))
  }

  // The state after a sequence of actions of any workers, in any order.
  function Run(fs: FileSystem, root: IgnoreInner, s: State, actions: seq<Action>): Option<State>
    decreases |actions|
  {
    if actions == [] then Some(s)
    else
      match Step(fs, root, s, actions[0])
      case None => None
      case Some(next) => Run(fs, root, next, actions[1..])
  }

  // ----- what every step keeps -----

  // The base path is that of a call which has this directory above its own.
  ghost predicate FromCall(calls: map<nat, Call>, dir: seq<byte>, base: Option<seq<byte>>) {
    exists call | call in calls :: IsAbove(dir, calls[call].base) && base == Some(calls[call].base)
  }

  predicate IsAbove(dir: seq<byte>, base: seq<byte>) {
    base != [] && base[0] == SLASH && dir in Ancestors(base)
  }

  ghost predicate CacheIsSound(fs: FileSystem, root: IgnoreInner, compiled: Cache, calls: map<nat, Call>) {
    CacheIsValid(fs, root, compiled) && BasesFromCalls(compiled, calls)
  }

  ghost predicate BasesFromCalls(compiled: Cache, calls: map<nat, Call>) {
    forall d | d in compiled :: FromCall(calls, d, compiled[d].absoluteBase)
  }

  // The call has the chain of the directories that it has added.
  ghost predicate HasChain(fs: FileSystem, root: IgnoreInner, c: Call) {
    && c.base != [] && c.base[0] == SLASH
    && var dirs := Ancestors(c.base);
    && |c.todo| <= |dirs|
    && var k := |dirs| - |c.todo|;
    && c.todo == dirs[k..]
    && IsChainOf(fs, root, c.ig, dirs[..k])
    && (k == 0 ==> c.ig == root)
  }

  // The directory added last.
  function LastAdded(c: Call): Option<seq<byte>>
    requires c.base != [] && c.base[0] == SLASH
  {
    var dirs := Ancestors(c.base);
    if |c.todo| < |dirs| then Some(dirs[|dirs| - |c.todo| - 1]) else None
  }

  ghost predicate HasBase(calls: map<nat, Call>, c: Call) {
    c.base != [] && c.base[0] == SLASH
    && (LastAdded(c).Some? ==> FromCall(calls, LastAdded(c).value, c.ig.absoluteBase))
  }

  ghost predicate CallIsSound(fs: FileSystem, root: IgnoreInner, calls: map<nat, Call>, c: Call) {
    HasChain(fs, root, c) && HasBase(calls, c)
  }

  ghost predicate Sound(fs: FileSystem, root: IgnoreInner, s: State) {
    && CacheIsSound(fs, root, s.compiled, s.calls)
    && forall call | call in s.calls :: CallIsSound(fs, root, s.calls, s.calls[call])
  }

  // No call has gone or changed its path.
  predicate Continues(calls: map<nat, Call>, more: map<nat, Call>) {
    forall call | call in calls :: call in more && more[call].base == calls[call].base
  }

  lemma StillFromCall(calls: map<nat, Call>, more: map<nat, Call>, dir: seq<byte>, base: Option<seq<byte>>)
    requires Continues(calls, more) && FromCall(calls, dir, base)
    ensures FromCall(more, dir, base)
  {
    hide IsAbove;
    var call :| call in calls && IsAbove(dir, calls[call].base) && base == Some(calls[call].base);
    assert call in more;
  }

  lemma StillSound(fs: FileSystem, root: IgnoreInner, calls: map<nat, Call>, more: map<nat, Call>, c: Call)
    requires Continues(calls, more) && CallIsSound(fs, root, calls, c)
    ensures CallIsSound(fs, root, more, c)
  {
    hide HasChain, LastAdded, FromCall, Continues;
    if LastAdded(c).Some? {
      StillFromCall(calls, more, LastAdded(c).value, c.ig.absoluteBase);
    }
  }

  lemma CacheStaysSound(fs: FileSystem, root: IgnoreInner, compiled: Cache, calls: map<nat, Call>, more: map<nat, Call>)
    requires Continues(calls, more) && CacheIsSound(fs, root, compiled, calls)
    ensures CacheIsSound(fs, root, compiled, more)
  {
    hide CacheIsValid, FromCall, Continues;
    forall d | d in compiled
      ensures FromCall(more, d, compiled[d].absoluteBase)
    {
      StillFromCall(calls, more, d, compiled[d].absoluteBase);
    }
  }

  lemma BegunIsSound(fs: FileSystem, root: IgnoreInner, calls: map<nat, Call>, base: seq<byte>)
    requires IsRoot(root) && base != [] && base[0] == SLASH
    ensures CallIsSound(fs, root, calls, Call(base, Ancestors(base), root))
  {
    RootIsChain(fs, root);
    hide Ancestors, IsChainOf;
    assert Ancestors(base)[..0] == [] && Ancestors(base)[0..] == Ancestors(base);
  }

  // Where a call is when it adds its next directory.
  lemma NextDirectory(c: Call)
    requires c.base != [] && c.base[0] == SLASH && c.todo != []
    requires |c.todo| <= |Ancestors(c.base)| && c.todo == Ancestors(c.base)[|Ancestors(c.base)| - |c.todo|..]
    ensures var dirs, dir := Ancestors(c.base), c.todo[0];
            var k := |dirs| - |c.todo|;
            && dir != [] && dir[0] == SLASH && dir == dirs[k] && Ancestors(dir) == dirs[..k]
            && dirs[..k + 1] == dirs[..k] + [dir] && c.todo[1..] == dirs[k + 1..]
  {
    hide Ancestors;
    var dirs := Ancestors(c.base);
    NextAncestor(c.base, |dirs| - |c.todo|);
  }

  // Adding one directory gives the call the chain of one directory more.
  lemma VisitAdds(fs: FileSystem, root: IgnoreInner, compiled: Cache, c: Call, alive: bool)
    requires CacheIsValid(fs, root, compiled) && HasChain(fs, root, c) && c.todo != []
    ensures var dir := c.todo[0];
            var (after, ig) := AddedParent(fs, compiled, c.ig, dir, c.base, alive);
            var next := Call(c.base, c.todo[1..], ig);
            && CacheIsValid(fs, root, after) && dir in after && after[dir] == ig
            && (forall d | d != dir :: SameEntry(after, compiled, d))
            && HasChain(fs, root, next) && LastAdded(next) == Some(dir)
  {
    hide Ancestors, IsChainOf, CacheIsValid, AddedParent;
    NextDirectory(c);
    AddedParentIsChain(fs, root, compiled, c.ig, c.todo[0], c.base, alive);
  }

  // Adding one directory keeps the call and the cache sound.
  lemma VisitIsSound(fs: FileSystem, root: IgnoreInner, compiled: Cache, calls: map<nat, Call>, call: nat, alive: bool)
    requires CacheIsSound(fs, root, compiled, calls) && call in calls && CallIsSound(fs, root, calls, calls[call])
    requires calls[call].todo != []
    ensures var c := calls[call];
            var (after, ig) := AddedParent(fs, compiled, c.ig, c.todo[0], c.base, alive);
            && CacheIsSound(fs, root, after, calls) && CallIsSound(fs, root, calls, Call(c.base, c.todo[1..], ig))
  {
    var c := calls[call];
    var dir := c.todo[0];
    VisitAdds(fs, root, compiled, c, alive);
    OwnBase(calls, call);
    AddedBase(fs, compiled, c.ig, dir, c.base, alive);
    hide FromCall, HasChain, LastAdded, CacheIsValid, AddedParent, Ancestors, BasesFromCalls, SameEntry;
    var (after, ig) := AddedParent(fs, compiled, c.ig, dir, c.base, alive);
    BaseOfEntry(compiled, calls, dir);
    OneEntryMore(compiled, after, calls, dir);
  }

  lemma BaseOfEntry(compiled: Cache, calls: map<nat, Call>, dir: seq<byte>)
    requires BasesFromCalls(compiled, calls)
    ensures dir in compiled ==> FromCall(calls, dir, compiled[dir].absoluteBase)
  {
  }

  lemma OneEntryMore(compiled: Cache, after: Cache, calls: map<nat, Call>, dir: seq<byte>)
    requires BasesFromCalls(compiled, calls) && forall d | d != dir :: SameEntry(after, compiled, d)
    requires dir in after && FromCall(calls, dir, after[dir].absoluteBase)
    ensures BasesFromCalls(after, calls)
  {
    hide FromCall;
    forall d | d in after
      ensures FromCall(calls, d, after[d].absoluteBase)
    {
      if d != dir {
        assert SameEntry(after, compiled, d);
      }
    }
  }

  lemma OwnBase(calls: map<nat, Call>, call: nat)
    requires call in calls && calls[call].todo != []
    requires var c := calls[call];
             && c.base != [] && c.base[0] == SLASH
             && |c.todo| <= |Ancestors(c.base)| && c.todo == Ancestors(c.base)[|Ancestors(c.base)| - |c.todo|..]
    ensures FromCall(calls, calls[call].todo[0], Some(calls[call].base))
  {
    hide Ancestors;
    NextDirectory(calls[call]);
    assert IsAbove(calls[call].todo[0], calls[call].base);
  }

  lemma AddedBase(fs: FileSystem, compiled: Cache, ig: IgnoreInner, dir: seq<byte>, base: seq<byte>, alive: bool)
    ensures var r := AddedParent(fs, compiled, ig, dir, base, alive).1;
            r.absoluteBase == if dir in compiled && alive then compiled[dir].absoluteBase else Some(base)
  {
  }

  lemma StepKeepsSound(fs: FileSystem, root: IgnoreInner, s: State, a: Action)
    requires IsRoot(root) && Sound(fs, root, s) && Step(fs, root, s, a).Some?
    ensures Sound(fs, root, Step(fs, root, s, a).value) && Continues(s.calls, Step(fs, root, s, a).value.calls)
  {
    hide CallIsSound, CacheIsSound, AddedParent, Ancestors, IsRoot;
    var next := Step(fs, root, s, a).value;
    CacheStaysSound(fs, root, s.compiled, s.calls, next.calls);
    match a {
      case Begin(call, base) => BegunIsSound(fs, root, next.calls, base);
      case Visit(call, alive) =>
        VisitIsSound(fs, root, s.compiled, s.calls, call, alive);
        CacheStaysSound(fs, root, next.compiled, s.calls, next.calls);
        StillSound(fs, root, s.calls, next.calls, next.calls[call]);
    }
    forall other | other in next.calls
      ensures CallIsSound(fs, root, next.calls, next.calls[other])
    {
      if other != a.call {
        StillSound(fs, root, s.calls, next.calls, s.calls[other]);
      }
    }
  }

  lemma {:induction false} RunKeepsSound(fs: FileSystem, root: IgnoreInner, s: State, actions: seq<Action>)
    requires IsRoot(root) && Sound(fs, root, s) && Run(fs, root, s, actions).Some?
    ensures Sound(fs, root, Run(fs, root, s, actions).value)
    decreases |actions|
  {
    hide Sound, Step, IsRoot;
    if actions == [] {
    } else {
      StepKeepsSound(fs, root, s, actions[0]);
      RunKeepsSound(fs, root, Step(fs, root, s, actions[0]).value, actions[1..]);
    }
  }

  // ----- what every call gets -----

  // However the steps of the workers mix, a call ends with the chain of an uncached build, but for base
  // paths; the base path is that of a call from below the same directory.
  lemma EveryCallGetsItsChain(fs: FileSystem, root: IgnoreInner, actions: seq<Action>, call: nat)
    requires IsRoot(root)
    requires var end := Run(fs, root, INITIAL, actions); end.Some? && call in end.value.calls && end.value.calls[call].todo == []
    ensures var calls := Run(fs, root, INITIAL, actions).value.calls;
            var c := calls[call];
            && c.base != [] && c.base[0] == SLASH
            && WithoutBase(c.ig) == WithoutBase(Uncached(fs, root, Ancestors(c.base), c.base))
            && (ParentPath(c.base).Some? ==> FromCall(calls, ParentPath(c.base).value, c.ig.absoluteBase))
  {
    hide Run, Ancestors, IsRoot, WithoutBase, Uncached, FromCall, ParentPath, IsChainOf;
    RunKeepsSound(fs, root, INITIAL, actions);
    var calls := Run(fs, root, INITIAL, actions).value.calls;
    var c := calls[call];
    var dirs := Ancestors(c.base);
    assert dirs[..|dirs|] == dirs;
    ChainIsBuilt(fs, root, c.ig, dirs);
    RootHasNoParent(root);
    BuiltAsUncached(fs, root, c.ig, c.base);
    NearestIsLast(c.base);
  }

  lemma RootHasNoParent(root: IgnoreInner)
    requires IsRoot(root)
    ensures root.parent.None?
  {
  }

  // So verdicts in its walk are those of an uncached chain with the base path of such a call.
  lemma EveryVerdictHasABase(fs: FileSystem, root: IgnoreInner, actions: seq<Action>, call: nat, top: seq<byte>, path: seq<byte>, isDir: bool)
    requires IsRoot(root)
    requires var end := Run(fs, root, INITIAL, actions); end.Some? && call in end.value.calls && end.value.calls[call].todo == []
    ensures var calls := Run(fs, root, INITIAL, actions).value.calls;
            var c := calls[call];
            && c.base != [] && c.base[0] == SLASH
            && (ParentPath(c.base).Some? ==>
                  exists other | other in calls ::
                    && IsAbove(ParentPath(c.base).value, calls[other].base)
                    && RulesVerdict(ChildOf(fs, c.ig, top), path, isDir)
                       == WalkVerdict(fs, root, Ancestors(c.base), calls[other].base, top, path, isDir))
  {
    hide Run, Ancestors, IsRoot, WithoutBase, Uncached, ParentPath, RulesVerdict, WalkVerdict, ChildOf, IsAbove;
    EveryCallGetsItsChain(fs, root, actions, call);
    var calls := Run(fs, root, INITIAL, actions).value.calls;
    var c := calls[call];
    NearestIsLast(c.base);
    if ParentPath(c.base).Some? {
      var other :| other in calls && IsAbove(ParentPath(c.base).value, calls[other].base) && c.ig.absoluteBase == Some(calls[other].base);
      FoundBaseDecides(fs, root, c.ig, Ancestors(c.base), c.base, calls[other].base, top, path, isDir);
    }
  }

  // ----- progress, and one worker alone -----

  // A call can always go on until it has added everything, whatever the others do meanwhile.
  lemma EveryCallAdvances(fs: FileSystem, root: IgnoreInner, s: State, call: nat, alive: bool)
    requires call in s.calls
    ensures Step(fs, root, s, Visit(call, alive)).Some? <==> s.calls[call].todo != []
    ensures var next := Step(fs, root, s, Visit(call, alive));
            next.Some? ==>
              && |next.value.calls[call].todo| < |s.calls[call].todo|
              && forall other | other in s.calls && other != call :: next.value.calls[other] == s.calls[other]
  {
    hide AddedParent;
  }

  // A call without interruption does what the method does.
  function Visits(call: nat, dirs: seq<seq<byte>>, alive: seq<byte> -> bool): seq<Action> {
    if dirs == [] then [] else [Visit(call, alive(dirs[0]))] + Visits(call, dirs[1..], alive)
  }

  lemma {:induction false} UninterruptedVisits(fs: FileSystem, root: IgnoreInner, s: State, call: nat, alive: seq<byte> -> bool)
    requires call in s.calls
    ensures var c := s.calls[call];
            var (compiled, ig) := AddedParents(fs, s.compiled, c.ig, c.todo, c.base, alive);
            Run(fs, root, s, Visits(call, c.todo, alive)) == Some(State(compiled, s.calls[call := Call(c.base, [], ig)]))
    decreases |s.calls[call].todo|
  {
    hide AddedParent;
    var c := s.calls[call];
    if c.todo == [] {
      assert s.calls[call := Call(c.base, [], c.ig)] == s.calls;
    } else {
      var a := Visit(call, alive(c.todo[0]));
      var next := Step(fs, root, s, a).value;
      UninterruptedVisits(fs, root, next, call, alive);
      var more := Visits(call, c.todo[1..], alive);
      assert ([a] + more)[1..] == more;
      var end := AddedParents(fs, s.compiled, c.ig, c.todo, c.base, alive).1;
      SetTwice(s.calls, call, next.calls[call], Call(c.base, [], end));
    }
  }

  lemma SetTwice(calls: map<nat, Call>, call: nat, x: Call, y: Call)
    ensures calls[call := x][call := y] == calls[call := y]
  {
  }

  lemma UninterruptedCall(fs: FileSystem, root: IgnoreInner, s: State, call: nat, base: seq<byte>, alive: seq<byte> -> bool)
    requires call !in s.calls && base != [] && base[0] == SLASH
    ensures var (compiled, ig) := AddedParents(fs, s.compiled, root, Ancestors(base), base, alive);
            Run(fs, root, s, [Begin(call, base)] + Visits(call, Ancestors(base), alive))
            == Some(State(compiled, s.calls[call := Call(base, [], ig)]))
  {
    hide AddedParents, Ancestors, Visits;
    var begin, visits := Begin(call, base), Visits(call, Ancestors(base), alive);
    var next := Step(fs, root, s, begin).value;
    UninterruptedVisits(fs, root, next, call, alive);
    assert ([begin] + visits)[1..] == visits;
    var end := AddedParents(fs, s.compiled, root, Ancestors(base), base, alive).1;
    SetTwice(s.calls, call, next.calls[call], Call(base, [], end));
  }
}
