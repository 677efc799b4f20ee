/**
 The cache of blame information, which calls on many threads share: each use of the map is under a
 mutex, but git runs outside it.
 */
module BlameCaching {
  import opened Wrappers
  import opened Blame

  // What does not change meanwhile: the output of git for a path, if it succeeds, and the way of
  // showing times.
  datatype Environment = Environment(git: string -> Option<string>, format: int -> string) {

    function Fresh(path: string): Result<BlameMap, Panic> {
      match git(path)
      case None => Ok(map[])
      case Some(output) => Parsed(output, format)
    }
  }

  type Cache = map<string, BlameMap>

  function Lookup(blames: BlameMap, line: nat): Option<BlameInfo> {
    if line in blames then Some(blames[line]) else None
  }

  function LookupFresh(env: Environment, path: string, line: nat): Result<Option<BlameInfo>, Panic> {
    match env.Fresh(path)
    case Err(panic) => Err(panic)
    case Ok(blames) => Ok(Lookup(blames, line))
  }

  // Whatever is cached is what parsing anew would give.
  ghost predicate IsFresh(cache: Cache, env: Environment) {
    forall path | path in cache :: env.Fresh(path) == Ok(cache[path])
  }

  // ----- one thread -----

  class BlameCache {
    const env: Environment
    var cache: Cache

    constructor (env: Environment)
      ensures this.env == env && cache == map[]
    {
      this.env := env;
      cache := map[];
    }

    // Where the parser panics, so does the call, and the cache is left as it was.
    method GetBlame(path: string, line: nat) returns (r: Result<Option<BlameInfo>, Panic>)
      requires IsFresh(cache, env)
      modifies this
      ensures r == LookupFresh(env, path, line) && IsFresh(cache, env)
      ensures match env.git(path)
              case None => r == Ok(None)
              case Some(output) =>
                match Parsed(output, env.format)
                case Err(panic) => r == Err(panic)
                case Ok(blames) => r == Ok(if line in blames then Some(blames[line]) else None)
      ensures cache == match env.Fresh(path) case Err(_) => old(cache) case Ok(blames) => old(cache)[path := blames]
    {
      hide Parsed;
      if path in cache {
        assert cache[path := cache[path]] == cache;
        return Ok(Lookup(cache[path], line));
      }
      var fetched := FetchFileBlame(path);
      if fetched.Fail? {
        return Err(fetched.error);
      }
      if path in cache {
        return Ok(Lookup(cache[path], line));
      }
      return Ok(None);
    }

    method FetchFileBlame(path: string) returns (r: Outcome<Panic>)
      modifies this
      ensures r.Fail? ==> env.Fresh(path) == Err(r.error) && cache == old(cache)
      ensures r.Pass? ==> env.Fresh(path).Ok? && cache == old(cache)[path := env.Fresh(path).value]
    {
      hide Parsed;
      var output := env.git(path);
      if output.None? {
        cache := cache[path := map[]];
        return Pass;
      }
      var blames := Parse(output.value, env.format);
      if blames.Err? {
        return Fail(blames.error);
      }
      cache := cache[path := blames.value];
      return Pass;
    }
  }

  // ----- many threads -----

  // How far a call has come.
  datatype Progress =
    | Begun
    | Missed
    | Fetched(blames: BlameMap)
    | Inserted
    | Done(result: Option<BlameInfo>)
    | Panicked(panic: Panic)

  datatype Call = Call(path: string, line: nat, progress: Progress)

  datatype State = State(cache: Cache, calls: map<nat, Call>)

  const INITIAL := State(map[], map[])

  datatype Action =
    | Begin(call: nat, path: string, line: nat)
    | Check(call: nat)
    | RunGit(call: nat)
    | Insert(call: nat)
    | Retry(call: nat)

  function Advance(s: State, call: nat, progress: Progress): State
    requires call in s.calls
  {
    s.(calls := s.calls[call := s.calls[call].(progress := progress)])
  }

  function Found(s: State, c: Call): Option<BlameInfo> {
    if c.path in s.cache then Lookup(s.cache[c.path], c.line) else None
  }

  // The state after an action, if the action can be taken.
  function Step(env: Environment, s: State, a: Action): Option<State> {
    if a.Begin? then
      if a.call in s.calls then None else Some(s.(calls := s.calls[a.call := Call(a.path, a.line, Begun)]))
    else if a.call !in s.calls then None
    else
      var c := s.calls[a.call];
      match (a, c.progress)
      case (Check(_), Begun) =>
        Some(Advance(s, a.call, if c.path in s.cache then Done(Found(s, c)) else Missed))
      case (RunGit(_), Missed) =>
        Some(Advance(s, a.call, match env.Fresh(c.path) case Err(panic) => Panicked(panic) case Ok(blames) => Fetched(blames)))
      case (Insert(_), Fetched(blames)) =>
        Some(Advance(s, a.call, Inserted).(cache := s.cache[c.path := blames]))
      case (Retry(_), Inserted) =>
        Some(Advance(s, a.call, Done(Found(s, c))))
      case _ => None
  }

  // The state after a sequence of actions from any threads, in any order.
  function Run(env: Environment, s: State, actions: seq<Action>): Option<State>
    decreases |actions|
  {
    if actions == [] then Some(s)
    else
      match Step(env, s, actions[0])
      case None => None
      case Some(next) => Run(env, next, actions[1..])
  }

  ghost predicate CallIsSound(env: Environment, cache: Cache, c: Call) {
    match c.progress
    case Fetched(blames) => env.Fresh(c.path) == Ok(blames)
    case Inserted => c.path in cache
    case Done(result) => LookupFresh(env, c.path, c.line) == Ok(result)
    case Panicked(panic) => env.Fresh(c.path) == Err(panic)
    case _ => true
  }

  ghost predicate Sound(env: Environment, s: State) {
    IsFresh(s.cache, env) && forall call | call in s.calls :: CallIsSound(env, s.cache, s.calls[call])
  }

  lemma StepKeepsSound(env: Environment, s: State, a: Action)
    requires Sound(env, s) && Step(env, s, a).Some?
    ensures Sound(env, Step(env, s, a).value)
    ensures s.cache.Keys <= Step(env, s, a).value.cache.Keys
  {
    hide Parsed;
  }

  lemma {:induction false} RunKeepsSound(env: Environment, s: State, actions: seq<Action>)
    requires Sound(env, s) && Run(env, s, actions).Some?
    ensures Sound(env, Run(env, s, actions).value)
    ensures s.cache.Keys <= Run(env, s, actions).value.cache.Keys
    decreases |actions|
  {
    hide Sound, Step;
    if actions == [] {
    } else {
      StepKeepsSound(env, s, actions[0]);
      RunKeepsSound(env, Step(env, s, actions[0]).value, actions[1..]);
    }
  }

  predicate IsOver(p: Progress) {
    p.Done? || p.Panicked?
  }

  function Answer(p: Progress): Result<Option<BlameInfo>, Panic>
    requires IsOver(p)
  {
    match p
    case Done(result) => Ok(result)
    case Panicked(panic) => Err(panic)
  }

  // Whatever the interleaving, a call ends as looking up what parsing anew gives.
  lemma EveryAnswerIsFresh(env: Environment, actions: seq<Action>, call: nat)
    requires var end := Run(env, INITIAL, actions);
             end.Some? && call in end.value.calls && IsOver(end.value.calls[call].progress)
    ensures var c := Run(env, INITIAL, actions).value.calls[call];
            && Answer(c.progress) == LookupFresh(env, c.path, c.line)
            && match env.git(c.path)
              case None => Answer(c.progress) == Ok(None)
              case Some(output) =>
                match Parsed(output, env.format)
                case Err(panic) => Answer(c.progress) == Err(panic)
                case Ok(blames) => Answer(c.progress) == Ok(if c.line in blames then Some(blames[c.line]) else None)
  {
    hide Parsed, Run;
    RunKeepsSound(env, INITIAL, actions);
  }

  // ----- no needless fetching -----

  // A path is cached, and no call about it, once begun, goes on to fetch it.
  ghost predicate Settled(s: State, path: string, before: set<nat>) {
    && path in s.cache
    && forall call | call in s.calls && call !in before && s.calls[call].path == path ::
         s.calls[call].progress.Begun? || s.calls[call].progress.Done?
  }

  lemma StepStaysSettled(env: Environment, s: State, a: Action, path: string, before: set<nat>)
    requires Settled(s, path, before) && Step(env, s, a).Some?
    ensures Settled(Step(env, s, a).value, path, before)
  {
    hide Parsed;
  }

  lemma {:induction false} RunStaysSettled(env: Environment, s: State, actions: seq<Action>, path: string, before: set<nat>)
    requires Settled(s, path, before) && Run(env, s, actions).Some?
    ensures Settled(Run(env, s, actions).value, path, before)
    decreases |actions|
  {
    hide Settled, Step;
    if actions == [] {
    } else {
      StepStaysSettled(env, s, actions[0], path, before);
      RunStaysSettled(env, Step(env, s, actions[0]).value, actions[1..], path, before);
    }
  }

  lemma {:induction false} RunConcat(env: Environment, s: State, first: seq<Action>, more: seq<Action>)
    requires Run(env, s, first).Some?
    ensures Run(env, s, first + more) == Run(env, Run(env, s, first).value, more)
    decreases |first|
  {
    hide Step;
    if first == [] {
      assert first + more == more;
    } else {
      assert (first + more)[1..] == first[1..] + more;
      RunConcat(env, Step(env, s, first[0]).value, first[1..], more);
    }
  }

  // After any run, a cached path stays cached, and a call begun later never runs git for it.
  lemma {:induction false} CachedPathsAreNotFetchedAgain(env: Environment, first: seq<Action>, more: seq<Action>, path: string, call: nat)
    requires var mid := Run(env, INITIAL, first);
             && mid.Some? && path in mid.value.cache && call !in mid.value.calls
             && var end := Run(env, INITIAL, first + more);
                end.Some? && call in end.value.calls && end.value.calls[call].path == path
    ensures var end := Run(env, INITIAL, first + more).value;
            && path in end.cache && env.Fresh(path) == Ok(end.cache[path])
            && Step(env, end, RunGit(call)).None?
            && (end.calls[call].progress.Begun? || end.calls[call].progress.Done?)
  {
    hide Parsed, Run;
    var mid := Run(env, INITIAL, first).value;
    RunConcat(env, INITIAL, first, more);
    RunStaysSettled(env, mid, more, path, mid.calls.Keys);
    RunKeepsSound(env, INITIAL, first + more);
  }

  // ----- progress -----

  function StepsLeft(p: Progress): nat {
    match p
    case Begun => 4
    case Missed => 3
    case Fetched(_) => 2
    case Inserted => 1
    case _ => 0
  }

  function NextOf(call: nat, p: Progress): Action {
    match p
    case Begun => Check(call)
    case Missed => RunGit(call)
    case Fetched(_) => Insert(call)
    case _ => Retry(call)
  }

  // No call ever waits for another: until it returns there is a step it can take, which takes it
  // closer to its end, and exactly one.
  lemma EveryCallAdvances(env: Environment, s: State, call: nat)
    requires call in s.calls && !IsOver(s.calls[call].progress)
    ensures var next := Step(env, s, NextOf(call, s.calls[call].progress));
            next.Some? && StepsLeft(next.value.calls[call].progress) < StepsLeft(s.calls[call].progress)
    ensures forall a: Action | a.call == call && Step(env, s, a).Some? :: a == NextOf(call, s.calls[call].progress)
  {
    hide Parsed;
  }

  // The actions of a call that no other interrupts.
  function Alone(env: Environment, s: State, call: nat, path: string, line: nat): seq<Action> {
    if path in s.cache then [Begin(call, path, line)] + ([Check(call)] + [])
    else if env.Fresh(path).Err? then [Begin(call, path, line)] + ([Check(call)] + ([RunGit(call)] + []))
    else [Begin(call, path, line)] + ([Check(call)] + ([RunGit(call)] + ([Insert(call)] + ([Retry(call)] + []))))
  }

  // Such a call does what the single-threaded method does.
  lemma UninterruptedCall(env: Environment, s: State, call: nat, path: string, line: nat)
    requires IsFresh(s.cache, env) && call !in s.calls
    ensures var end := Run(env, s, Alone(env, s, call, path, line));
            && end.Some?
            && end.value.cache == (match env.Fresh(path) case Err(_) => s.cache case Ok(blames) => s.cache[path := blames])
            && call in end.value.calls && IsOver(end.value.calls[call].progress)
            && Answer(end.value.calls[call].progress) == LookupFresh(env, path, line)
            && end.value.calls - {call} == s.calls
  {
    hide Parsed, Run;
    var begun := Step(env, s, Begin(call, path, line)).value;
    var checked := Step(env, begun, Check(call)).value;
    if path in s.cache {
      assert checked.cache == s.cache[path := s.cache[path]];
      assert checked.calls - {call} == s.calls;
      NoActions(env, checked);
      FirstAction(env, begun, Check(call), []);
      FirstAction(env, s, Begin(call, path, line), [Check(call)] + []);
    } else if env.Fresh(path).Err? {
      var ran := Step(env, checked, RunGit(call)).value;
      assert ran.calls - {call} == s.calls;
      var fetch := [RunGit(call)] + [];
      NoActions(env, ran);
      FirstAction(env, checked, RunGit(call), []);
      FirstAction(env, begun, Check(call), fetch);
      FirstAction(env, s, Begin(call, path, line), [Check(call)] + fetch);
    } else {
      var ran := Step(env, checked, RunGit(call)).value;
      var inserted := Step(env, ran, Insert(call)).value;
      var done := Step(env, inserted, Retry(call)).value;
      assert done.calls - {call} == s.calls;
      var retry := [Retry(call)] + [];
      var insert := [Insert(call)] + retry;
      var fetch := [RunGit(call)] + insert;
      NoActions(env, done);
      FirstAction(env, inserted, Retry(call), []);
      FirstAction(env, ran, Insert(call), retry);
      FirstAction(env, checked, RunGit(call), insert);
      FirstAction(env, begun, Check(call), fetch);
      FirstAction(env, s, Begin(call, path, line), [Check(call)] + fetch);
    }
  }

  lemma NoActions(env: Environment, s: State)
    ensures Run(env, s, []) == Some(s)
  {
  }

  lemma FirstAction(env: Environment, s: State, a: Action, rest: seq<Action>)
    requires Step(env, s, a).Some?
    ensures Run(env, s, [a] + rest) == Run(env, Step(env, s, a).value, rest)
  {
    assert ([a] + rest)[1..] == rest;
  }
}
