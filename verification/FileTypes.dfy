/** File type definitions, selections of them, and the matcher built from both. */
module FileTypes {
  import opened Wrappers
  import opened Utf8
  import opened Tokens
  import opened Compiler
  import opened Paths
  import opened IndexVectors
  import opened GlobSetMatching
  import opened Matching
  import GlobParser
  import Parser

  datatype FileTypeDef = FileTypeDef(name: string, globs: seq<string>)

  datatype Selection = Select(name: string) | Negate(name: string)

  datatype TypesError = InvalidDefinition | UnrecognizedFileType(name: string) | BadGlob(glob: string, kind: ErrorKind)

  type Definitions = map<string, FileTypeDef>

  // Every type has a glob and is filed under its own name.
  predicate HaveGlobs(types: Definitions) {
    forall name | name in types :: types[name].globs != [] && types[name].name == name
  }

  // ----- definitions -----

  predicate ValidName(name: string, isAlphanumeric: char -> bool) {
    name != "all" && forall c | c in name :: isAlphanumeric(c)
  }

  function GlobsOf(types: Definitions, name: string): seq<string> {
    if name in types then types[name].globs else []
  }

  // The definitions with more globs for one type.
  function Extend(types: Definitions, name: string, globs: seq<string>): Definitions {
    types[name := FileTypeDef(name, GlobsOf(types, name) + globs)]
  }

  // One type after another gives its globs, as they are then, to the type called name.
  function IncludeAll(types: Definitions, name: string, from: seq<string>): Definitions
    requires forall t | t in from :: t in types
    decreases |from|
  {
    if from == [] then types
    else IncludeAll(Extend(types, name, types[from[0]].globs), name, from[1..])
  }

  // What a definition in text form asks for: `name:glob` or `name:include:name,...`.
  datatype Request = OneGlob(name: string, glob: string) | Include(name: string, from: seq<string>)

  function ParseDef(def: string): Option<Request> {
    var parts := Split(def, ':');
    if |parts| == 2 then
      if parts[0] == "" || parts[1] == "" then None else Some(OneGlob(parts[0], parts[1]))
    else if |parts| == 3 then
      if parts[0] == "" || parts[1] != "include" || parts[2] == "" then None
      else Some(Include(parts[0], Split(parts[2], ',')))
    else None
  }

  // The definitions after a request, if it is valid.
  function Fulfil(types: Definitions, r: Request, isAlphanumeric: char -> bool): Option<Definitions> {
    if !ValidName(r.name, isAlphanumeric) then None
    else
      match r
      case OneGlob(name, glob) => Some(Extend(types, name, [glob]))
      case Include(name, from) => if forall t | t in from :: t in types then Some(IncludeAll(types, name, from)) else None
  }

  lemma ExtendHasGlobs(types: Definitions, name: string, globs: seq<string>)
    requires HaveGlobs(types) && globs != []
    ensures HaveGlobs(Extend(types, name, globs)) && types.Keys <= Extend(types, name, globs).Keys
  {
  }

  lemma {:induction false} IncludeAllHasGlobs(types: Definitions, name: string, from: seq<string>)
    requires HaveGlobs(types) && forall t | t in from :: t in types
    ensures HaveGlobs(IncludeAll(types, name, from))
    decreases |from|
  {
    if from == [] {
    } else {
      assert from[0] in from && forall t | t in from[1..] :: t in from;
      ExtendHasGlobs(types, name, types[from[0]].globs);
      IncludeAllHasGlobs(Extend(types, name, types[from[0]].globs), name, from[1..]);
    }
  }

  lemma FromHasGlobs(types: Definitions, name: string)
    requires HaveGlobs(types) && name in types
    ensures types[name].globs != []
  {
  }

  lemma IncludeNext(types: Definitions, name: string, from: seq<string>, i: nat)
    requires i < |from| && forall t | t in from :: t in types
    ensures IncludeAll(types, name, from[i..]) == IncludeAll(Extend(types, name, types[from[i]].globs), name, from[i + 1..])
  {
    hide Extend;
    assert from[i..][0] == from[i] && from[i..][1..] == from[i + 1..];
  }

  lemma IncludeNothing(types: Definitions, name: string, from: seq<string>)
    requires forall t | t in from :: t in types
    ensures IncludeAll(types, name, from[|from|..]) == types
  {
  }

  // So every type has a glob after any sequence of definitions.
  lemma FulfilledHasGlobs(types: Definitions, r: Request, isAlphanumeric: char -> bool)
    requires HaveGlobs(types) && Fulfil(types, r, isAlphanumeric).Some?
    ensures HaveGlobs(Fulfil(types, r, isAlphanumeric).value)
  {
    hide HaveGlobs, ValidName, IncludeAll;
    match r
    case OneGlob(name, glob) => ExtendHasGlobs(types, name, [glob]);
    case Include(name, from) => IncludeAllHasGlobs(types, name, from);
  }

  // ----- the builder -----

  class TypesBuilder {
    // Whether a character is a Unicode letter or number.
    const isAlphanumeric: char -> bool

    var types: Definitions
    var selections: seq<Selection>

    constructor (isAlphanumeric: char -> bool)
      ensures Valid() && types == map[] && selections == []
      ensures this.isAlphanumeric == isAlphanumeric
    {
      this.isAlphanumeric := isAlphanumeric;
      types, selections := map[], [];
    }

    predicate Valid()
      reads this
    {
      HaveGlobs(types)
    }

    method Add(name: string, glob: string) returns (r: Outcome<TypesError>)
      requires Valid()
      modifies this`types
      ensures Valid()
      ensures r == (if ValidName(name, isAlphanumeric) then Pass else Fail(InvalidDefinition))
      ensures types == if r.Pass? then Extend(old(types), name, [glob]) else old(types)
    {
      if name == "all" || exists c | c in name :: !isAlphanumeric(c) {
        return Fail(InvalidDefinition);
      }
      assert [] + [glob] == [glob];
      if name !in types {
        types := types[name := FileTypeDef(name, [glob])];
      } else {
        types := types[name := FileTypeDef(types[name].name, types[name].globs + [glob])];
      }
      return Pass;
    }

    // A failing definition changes nothing.
    method AddDef(def: string) returns (r: Outcome<TypesError>)
      requires Valid()
      modifies this`types
      ensures Valid()
      ensures match ParseDef(def)
              case None => r == Fail(InvalidDefinition) && types == old(types)
              case Some(request) =>
                match Fulfil(old(types), request, isAlphanumeric)
                case None => r == Fail(InvalidDefinition) && types == old(types)
                case Some(after) => r == Pass && types == after
    {
      var parts := Split(def, ':');
      if |parts| == 2 {
        if parts[0] == "" || parts[1] == "" {
          return Fail(InvalidDefinition);
        }
        r := Add(parts[0], parts[1]);
      } else if |parts| == 3 {
        if parts[0] == "" || parts[1] != "include" || parts[2] == "" {
          return Fail(InvalidDefinition);
        }
        var from := Split(parts[2], ',');
        if exists t | t in from :: t !in types {
          return Fail(InvalidDefinition);
        }
        r := IncludeFrom(parts[0], from);
      } else {
        return Fail(InvalidDefinition);
      }
    }

    method IncludeFrom(name: string, from: seq<string>) returns (r: Outcome<TypesError>)
      requires Valid() && from != [] && forall t | t in from :: t in types
      modifies this`types
      ensures Valid()
      ensures r == (if ValidName(name, isAlphanumeric) then Pass else Fail(InvalidDefinition))
      ensures types == if r.Pass? then IncludeAll(old(types), name, from) else old(types)
    {
      hide IncludeAll, HaveGlobs, ValidName;
      assert from[0..] == from;
      for i := 0 to |from|
        invariant Valid() && forall t | t in from :: t in types
        invariant i > 0 ==> ValidName(name, isAlphanumeric)
        invariant i == 0 ==> types == old(types)
        invariant IncludeAll(old(types), name, from) == IncludeAll(types, name, from[i..])
      {
        assert from[i] in from;
        ghost var before := types;
        FromHasGlobs(types, from[i]);
        var added := AddAll(name, types[from[i]].globs);
        if added.Fail? {
          return added;
        }
        IncludeNext(before, name, from, i);
      }
      IncludeNothing(types, name, from);
      return Pass;
    }

    // The inner loop: one glob after another, of which only the first can fail.
    method AddAll(name: string, globs: seq<string>) returns (r: Outcome<TypesError>)
      requires Valid() && globs != []
      modifies this`types
      ensures Valid() && old(types).Keys <= types.Keys
      ensures r == (if ValidName(name, isAlphanumeric) then Pass else Fail(InvalidDefinition))
      ensures types == if r.Pass? then Extend(old(types), name, globs) else old(types)
    {
      hide ValidName, HaveGlobs, Extend;
      for j := 0 to |globs|
        invariant Valid() && old(types).Keys <= types.Keys
        invariant j > 0 ==> ValidName(name, isAlphanumeric) && types == Extend(old(types), name, globs[..j])
        invariant j == 0 ==> types == old(types)
      {
        var added := Add(name, globs[j]);
        if added.Fail? {
          return added;
        }
        OneGlobMore(old(types), name, globs, j);
      }
      assert globs[..|globs|] == globs;
      return Pass;
    }

    // Selecting `all` selects every type defined so far, in no particular order.
    method SelectType(name: string) returns (ghost order: seq<string>)
      modifies this`selections
      ensures if name == "all" then Enumerates(order, types.Keys) else order == [name]
      ensures selections == old(selections) + Selects(order)
      ensures |selections| == |old(selections)| + |order| && old(selections) <= selections
      ensures forall i | 0 <= i < |order| :: selections[|old(selections)| + i] == Select(order[i])
    {
      if name == "all" {
        var names := SomeOrder(types.Keys);
        order := names;
        for i := 0 to |names|
          invariant selections == old(selections) + Selects(names[..i])
        {
          assert Selects(names[..i + 1]) == Selects(names[..i]) + [Select(names[i])];
          selections := selections + [Select(names[i])];
        }
        assert names[..|names|] == names;
      } else {
        order := [name];
        assert Selects([name]) == [Select(name)];
        selections := selections + [Select(name)];
      }
    }

    method NegateType(name: string) returns (ghost order: seq<string>)
      modifies this`selections
      ensures if name == "all" then Enumerates(order, types.Keys) else order == [name]
      ensures selections == old(selections) + Negates(order)
      ensures |selections| == |old(selections)| + |order| && old(selections) <= selections
      ensures forall i | 0 <= i < |order| :: selections[|old(selections)| + i] == Negate(order[i])
    {
      if name == "all" {
        var names := SomeOrder(types.Keys);
        order := names;
        for i := 0 to |names|
          invariant selections == old(selections) + Negates(names[..i])
        {
          assert Negates(names[..i + 1]) == Negates(names[..i]) + [Negate(names[i])];
          selections := selections + [Negate(names[i])];
        }
        assert names[..|names|] == names;
      } else {
        order := [name];
        assert Negates([name]) == [Negate(name)];
        selections := selections + [Negate(name)];
      }
    }

    method Clear(name: string)
      requires Valid()
      modifies this`types
      ensures Valid() && types == old(types) - {name}
    {
      types := types - {name};
    }

    method Build() returns (r: Result<Types, TypesError>)
      requires Valid()
      ensures match Resolve(types, selections)
              case Err(e) => r == Err(e)
              case Ok(f) => r.Ok? && r.value.BuiltFrom(f) && IsFlat(f) && AllHaveGlobs(f.selected)
    {
      hide GlobParser.Build, IsFlatUpTo, IsFlat, Resolve, AddGlobs, GlobSet.Represents;
      var hasSelected := exists s | s in selections :: s.Select?;
      var flat := NOTHING;
      ResolveNone(types);
      assert selections[..0] == [];
      for i := 0 to |selections|
        invariant Resolve(types, selections[..i]) == Ok(flat)
        invariant |flat.selected| == i && AllHaveGlobs(flat.selected)
        invariant forall k | 0 <= k < i :: flat.selected[k].0 == selections[k]
      {
        ResolveNext(types, selections, i);
        var s := selections[i];
        if s.name !in types {
          ResolveFails(types, selections, i + 1);
          return Err(UnrecognizedFileType(s.name));
        }
        var added := ParseGlobs(flat, s, types[s.name]);
        if added.Err? {
          ResolveFails(types, selections, i + 1);
          return Err(added.error);
        }
        flat := added.value;
      }
      assert selections[..|selections|] == selections;
      ResolvedIsFlat(types, selections);
      SelectedAlike(selections, flat.selected);
      var set_ := New(flat.patterns);
      return Ok(Types(flat.selected, hasSelected, flat.pairs, set_));
    }
  }

  // The next selection's globs, in order, up to the first that does not parse.
  method ParseGlobs(flat: Flat, s: Selection, def: FileTypeDef) returns (r: Result<Flat, TypesError>)
    ensures r == AddGlobs(flat.(selected := flat.selected + [(s, def)]), |flat.selected|, def.globs)
    ensures r.Ok? ==> r.value.selected == flat.selected + [(s, def)]
  {
    hide GlobParser.Build;
    var more := flat;
    ghost var with := flat.(selected := flat.selected + [(s, def)]);
    assert def.globs[..0] == [];
    for j := 0 to |def.globs|
      invariant AddGlobs(with, |flat.selected|, def.globs[..j]) == Ok(more.(selected := with.selected))
    {
      assert def.globs[..j + 1][..j] == def.globs[..j];
      var parsed := Parser.BuildGlob(def.globs[j], TYPE_OPTIONS);
      if parsed.Err? {
        AddGlobsFails(with, |flat.selected|, def.globs, j + 1);
        return Err(BadGlob(def.globs[j], parsed.error));
      }
      more := Flat(more.patterns + [parsed.value], more.pairs + [(|flat.selected|, j)], more.selected);
    }
    assert def.globs[..|def.globs|] == def.globs;
    return Ok(more.(selected := flat.selected + [(s, def)]));
  }

  lemma SelectedAlike(selections: seq<Selection>, selected: seq<(Selection, FileTypeDef)>)
    requires |selected| == |selections| && forall k | 0 <= k < |selections| :: selected[k].0 == selections[k]
    ensures AnySelected(selected) <==> exists s | s in selections :: s.Select?
  {
    if s :| s in selections && s.Select? {
      var k :| 0 <= k < |selections| && selections[k] == s;
      assert selected[k] in selected;
    }
  }

  // names in some order.
  ghost predicate Enumerates(order: seq<string>, names: set<string>) {
    |order| == |names| && forall n :: n in order <==> n in names
  }

  function Selects(order: seq<string>): seq<Selection> {
    seq(|order|, i requires 0 <= i < |order| => Select(order[i]))
  }

  function Negates(order: seq<string>): seq<Selection> {
    seq(|order|, i requires 0 <= i < |order| => Negate(order[i]))
  }

  // The order in which a hash table is walked.
  method SomeOrder(names: set<string>) returns (order: seq<string>)
    ensures Enumerates(order, names)
  {
    order := [];
    var left := names;
    while left != {}
      invariant left <= names && |order| + |left| == |names|
      invariant forall n :: n in order <==> n in names && n !in left
      decreases left
    {
      var n :| n in left;
      order := order + [n];
      left := left - {n};
    }
  }

  lemma ExtendTwice(types: Definitions, name: string, globs: seq<string>, glob: string)
    ensures Extend(Extend(types, name, globs), name, [glob]) == Extend(types, name, globs + [glob])
  {
    assert GlobsOf(types, name) + globs + [glob] == GlobsOf(types, name) + (globs + [glob]);
  }

  // The first glob, or one more.
  lemma OneGlobMore(types: Definitions, name: string, globs: seq<string>, j: nat)
    requires j < |globs|
    ensures Extend(if j == 0 then types else Extend(types, name, globs[..j]), name, [globs[j]]) == Extend(types, name, globs[..j + 1])
    ensures types.Keys <= Extend(types, name, globs[..j + 1]).Keys
  {
    assert globs[..j + 1] == globs[..j] + [globs[j]];
    if j == 0 {
      assert globs[..1] == [globs[0]];
    } else {
      ExtendTwice(types, name, globs[..j], globs[j]);
    }
  }

  // ----- selections, globs and pairs -----

  const TYPE_OPTIONS := GlobOptions(false, true, true, false, false)

  // The globs of all selections in order, each with the positions of its selection and in its
  // definition.
  datatype Flat = Flat(patterns: seq<Glob>, pairs: seq<(nat, nat)>, selected: seq<(Selection, FileTypeDef)>)

  const NOTHING := Flat([], [], [])

  function AddGlobs(f: Flat, isel: nat, globs: seq<string>): Result<Flat, TypesError> {
    if globs == [] then Ok(f)
    else
      var n := |globs| - 1;
      var before :- AddGlobs(f, isel, globs[..n]);
      match GlobParser.Build(globs[n], TYPE_OPTIONS)
      case Err(e) => Err(BadGlob(globs[n], e))
      case Ok(p) => Ok(Flat(before.patterns + [p], before.pairs + [(isel, n)], before.selected))
  }

  function Resolve(types: Definitions, selections: seq<Selection>): Result<Flat, TypesError> {
    if selections == [] then Ok(NOTHING)
    else
      var n := |selections| - 1;
      var before :- Resolve(types, selections[..n]);
      var s := selections[n];
      if s.name !in types then Err(UnrecognizedFileType(s.name))
      else
        AddGlobs(before.(selected := before.selected + [(s, types[s.name])]), n, types[s.name].globs)
  }

  lemma ResolveNone(types: Definitions)
    ensures Resolve(types, []) == Ok(NOTHING)
  {
  }

  // One selection more.
  lemma ResolveNext(types: Definitions, selections: seq<Selection>, i: nat)
    requires i < |selections|
    ensures var s := selections[i];
            Resolve(types, selections[..i + 1])
            == match Resolve(types, selections[..i])
               case Err(e) => Err(e)
               case Ok(before) =>
                 if s.name !in types then Err(UnrecognizedFileType(s.name))
                 else AddGlobs(before.(selected := before.selected + [(s, types[s.name])]), i, types[s.name].globs)
  {
    hide AddGlobs;
    assert selections[..i + 1][..i] == selections[..i];
  }

  lemma {:induction false} AddGlobsFails(f: Flat, isel: nat, globs: seq<string>, j: nat)
    requires j <= |globs| && AddGlobs(f, isel, globs[..j]).Err?
    ensures AddGlobs(f, isel, globs) == AddGlobs(f, isel, globs[..j])
    decreases |globs| - j
  {
    if j == |globs| {
      assert globs[..j] == globs;
    } else {
      assert globs[..j + 1][..j] == globs[..j];
      AddGlobsFails(f, isel, globs, j + 1);
    }
  }

  lemma {:induction false} ResolveFails(types: Definitions, selections: seq<Selection>, i: nat)
    requires i <= |selections| && Resolve(types, selections[..i]).Err?
    ensures Resolve(types, selections) == Resolve(types, selections[..i])
    decreases |selections| - i
  {
    if i == |selections| {
      assert selections[..i] == selections;
    } else {
      assert selections[..i + 1][..i] == selections[..i];
      ResolveFails(types, selections, i + 1);
    }
  }

  // Position p of the flat list holds the parse of glob (isel, iglob).
  predicate PairAt(f: Flat, p: nat)
    requires p < |f.pairs| == |f.patterns|
  {
    var (isel, iglob) := f.pairs[p];
    && isel < |f.selected| && iglob < |f.selected[isel].1.globs|
    && GlobParser.Build(f.selected[isel].1.globs[iglob], TYPE_OPTIONS) == Ok(f.patterns[p])
  }

  ghost predicate Listed(f: Flat, isel: nat, iglob: nat) {
    exists p | 0 <= p < |f.pairs| :: f.pairs[p] == (isel, iglob)
  }

  predicate Before(a: (nat, nat), b: (nat, nat)) {
    a.0 < b.0 || (a.0 == b.0 && a.1 < b.1)
  }

  // The list goes through the selections and their globs in order, never twice, and leaves no glob
  // out, but for the last selection only the first m are there.
  ghost predicate IsFlatUpTo(f: Flat, m: nat) {
    && |f.pairs| == |f.patterns|
    && (forall p | 0 <= p < |f.pairs| :: PairAt(f, p))
    && (forall p, q | 0 <= p < q < |f.pairs| :: Before(f.pairs[p], f.pairs[q]))
    && forall isel: nat, iglob: nat | isel < |f.selected| && iglob < |f.selected[isel].1.globs| ::
         isel < |f.selected| - 1 || iglob < m ==> Listed(f, isel, iglob)
  }

  ghost predicate IsFlat(f: Flat) {
    IsFlatUpTo(f, if f.selected == [] then 0 else |f.selected[|f.selected| - 1].1.globs|)
  }

  lemma ListedStays(f: Flat, p: Glob, pair: (nat, nat))
    ensures var g := Flat(f.patterns + [p], f.pairs + [pair], f.selected);
            (forall isel: nat, iglob: nat | Listed(f, isel, iglob) :: Listed(g, isel, iglob)) && Listed(g, pair.0, pair.1)
  {
    var g := Flat(f.patterns + [p], f.pairs + [pair], f.selected);
    assert g.pairs[|f.pairs|] == pair;
    forall isel: nat, iglob: nat | Listed(f, isel, iglob)
      ensures Listed(g, isel, iglob)
    {
      var q :| 0 <= q < |f.pairs| && f.pairs[q] == (isel, iglob);
      assert g.pairs[q] == (isel, iglob);
    }
  }

  lemma {:induction false} AddGlobsFlat(f: Flat, isel: nat, globs: seq<string>)
    requires |f.selected| == isel + 1 && IsFlatUpTo(f, 0) && globs <= f.selected[isel].1.globs
    requires AddGlobs(f, isel, globs).Ok? && AllBefore(f, (isel, 0))
    ensures var g := AddGlobs(f, isel, globs).value;
            g.selected == f.selected && IsFlatUpTo(g, |globs|) && AllBefore(g, (isel, |globs|))
    decreases |globs|
  {
    if globs == [] {
    } else {
      hide GlobParser.Build;
      var n := |globs| - 1;
      AddGlobsFlat(f, isel, globs[..n]);
      var before := AddGlobs(f, isel, globs[..n]).value;
      var p := GlobParser.Build(globs[n], TYPE_OPTIONS).value;
      var g := Flat(before.patterns + [p], before.pairs + [(isel, n)], before.selected);
      ListedStays(before, p, (isel, n));
      OneMorePair(before, p, isel, n);
      forall i: nat, k: nat | i < |g.selected| && k < |g.selected[i].1.globs| && (i < |g.selected| - 1 || k < n + 1)
        ensures Listed(g, i, k)
      {
        assert (i == isel && k == n) || Listed(before, i, k);
      }
    }
  }

  predicate AllBefore(f: Flat, pair: (nat, nat)) {
    forall q | 0 <= q < |f.pairs| :: Before(f.pairs[q], pair)
  }

  lemma OneMorePair(f: Flat, p: Glob, isel: nat, iglob: nat)
    requires |f.pairs| == |f.patterns| && |f.selected| == isel + 1 && iglob < |f.selected[isel].1.globs|
    requires GlobParser.Build(f.selected[isel].1.globs[iglob], TYPE_OPTIONS) == Ok(p)
    requires (forall q | 0 <= q < |f.pairs| :: PairAt(f, q))
    requires forall q, r | 0 <= q < r < |f.pairs| :: Before(f.pairs[q], f.pairs[r])
    requires AllBefore(f, (isel, iglob))
    ensures var g := Flat(f.patterns + [p], f.pairs + [(isel, iglob)], f.selected);
            && (forall q | 0 <= q < |g.pairs| :: PairAt(g, q))
            && (forall q, r | 0 <= q < r < |g.pairs| :: Before(g.pairs[q], g.pairs[r]))
            && AllBefore(g, (isel, iglob + 1))
  {
    hide GlobParser.Build;
    var g := Flat(f.patterns + [p], f.pairs + [(isel, iglob)], f.selected);
    forall q | 0 <= q < |g.pairs|
      ensures PairAt(g, q) && (q < |f.pairs| ==> Before(g.pairs[q], (isel, iglob)))
    {
      if q < |f.pairs| {
        assert PairAt(f, q) && Before(f.pairs[q], (isel, iglob));
      }
    }
  }

  lemma SelectFlat(f: Flat, s: Selection, def: FileTypeDef)
    requires IsFlat(f)
    ensures IsFlatUpTo(f.(selected := f.selected + [(s, def)]), 0)
    ensures AllBefore(f.(selected := f.selected + [(s, def)]), (|f.selected|, 0))
  {
    hide GlobParser.Build;
    var g := f.(selected := f.selected + [(s, def)]);
    forall p | 0 <= p < |g.pairs|
      ensures PairAt(g, p) && Before(g.pairs[p], (|f.selected|, 0))
    {
      assert PairAt(f, p);
    }
    forall isel: nat, iglob: nat | isel < |g.selected| - 1 && iglob < |g.selected[isel].1.globs|
      ensures Listed(g, isel, iglob)
    {
      assert f.selected[isel] == g.selected[isel];
      assert Listed(f, isel, iglob);
    }
  }

  lemma {:induction false} ResolvedIsFlat(types: Definitions, selections: seq<Selection>)
    requires Resolve(types, selections).Ok?
    ensures IsFlat(Resolve(types, selections).value)
    ensures |Resolve(types, selections).value.selected| == |selections|
  {
    if selections != [] {
      hide IsFlatUpTo, AddGlobs;
      var n := |selections| - 1;
      ResolvedIsFlat(types, selections[..n]);
      var before, s := Resolve(types, selections[..n]).value, selections[n];
      SelectFlat(before, s, types[s.name]);
      AddGlobsFlat(before.(selected := before.selected + [(s, types[s.name])]), n, types[s.name].globs);
    } else {
      assert IsFlatUpTo(NOTHING, 0);
    }
  }

  lemma {:induction false} AddGlobsKeepsSelected(f: Flat, isel: nat, globs: seq<string>)
    requires AddGlobs(f, isel, globs).Ok?
    ensures AddGlobs(f, isel, globs).value.selected == f.selected
  {
    if globs != [] {
      hide GlobParser.Build;
      AddGlobsKeepsSelected(f, isel, globs[..|globs| - 1]);
    }
  }

  // Every selection is kept with the definition of its type.
  lemma {:induction false} ResolvedSelections(types: Definitions, selections: seq<Selection>)
    requires Resolve(types, selections).Ok?
    ensures var selected := Resolve(types, selections).value.selected;
            && |selected| == |selections|
            && forall k | 0 <= k < |selections| ::
                 selections[k].name in types && selected[k] == (selections[k], types[selections[k].name])
  {
    hide AddGlobs;
    if selections != [] {
      var n := |selections| - 1;
      ResolvedSelections(types, selections[..n]);
      var before, s := Resolve(types, selections[..n]).value, selections[n];
      AddGlobsKeepsSelected(before.(selected := before.selected + [(s, types[s.name])]), n, types[s.name].globs);
    }
  }

  predicate AllHaveGlobs(selected: seq<(Selection, FileTypeDef)>) {
    forall k | 0 <= k < |selected| :: selected[k].1.globs != []
  }

  // ----- the matcher -----

  datatype TypeMatch = UnmatchedIgnore | MatchedBy(def: FileTypeDef)

  // The file name that types look at. A path that ends in a dot has none.
  function TypeFileName(path: seq<byte>): Option<seq<byte>> {
    if path == [] then None
    else if path[|path| - 1] == DOT then None
    else Some(LastComponent(path))
  }

  predicate StartsInDot(name: seq<byte>) {
    name != [] && name[0] == DOT
  }

  predicate EndsInDot(name: seq<byte>) {
    name != [] && name[|name| - 1] == DOT
  }

  // A path without a name is empty, or the name it would have ends in a dot: `foo.` as well as `..`.
  lemma NamelessExactly(path: seq<byte>)
    ensures TypeFileName(path).None? <==> path == [] || EndsInDot(LastComponent(path))
  {
    hide LastComponent;
    var n := LastComponentStart(path);
    if path != [] {
      assert n < |path| ==> LastComponent(path)[|path| - 1 - n] == path[|path| - 1];
    }
  }

  // Some glob of the definition matches the name.
  ghost predicate DefMatches(def: FileTypeDef, name: seq<byte>) {
    exists k :: GlobOfDefMatches(def, k, name)
  }

  predicate GlobOfDefMatches(def: FileTypeDef, k: int, name: seq<byte>) {
    && 0 <= k < |def.globs|
    && var g := GlobParser.Build(def.globs[k], TYPE_OPTIONS);
       g.Ok? && GlobMatches(g.value, name)
  }

  // The verdict of one selection: selected types are searched, negated ones are not.
  function SelectionVerdict(s: (Selection, FileTypeDef)): Match<TypeMatch> {
    if s.0.Negate? then Ignore(MatchedBy(s.1)) else Whitelist(MatchedBy(s.1))
  }

  predicate AnySelected(selected: seq<(Selection, FileTypeDef)>) {
    exists s | s in selected :: s.0.Select?
  }

  // The documented rule for a file name: the last selection with a matching glob decides; if there
  // is none, what is not selected is ignored as soon as something is selected.
  ghost function NameVerdict(selected: seq<(Selection, FileTypeDef)>, name: seq<byte>, anySelected: bool): Match<TypeMatch> {
    if selected == [] then
      if anySelected then Ignore(UnmatchedIgnore) else NoMatch
    else
      var n := |selected| - 1;
      if DefMatches(selected[n].1, name) then SelectionVerdict(selected[n])
      else NameVerdict(selected[..n], name, anySelected)
  }

  // Selection k is the last one with a glob that matches the name.
  ghost predicate LastToMatch(selected: seq<(Selection, FileTypeDef)>, k: nat, name: seq<byte>) {
    k < |selected| && DefMatches(selected[k].1, name) && forall j | k < j < |selected| :: !DefMatches(selected[j].1, name)
  }

  // The last selection that matches searches the file if it selects the type, and ignores it if it
  // negates it.
  lemma LastSelectionDecides(selected: seq<(Selection, FileTypeDef)>, name: seq<byte>, any: bool)
    ensures forall k: nat | LastToMatch(selected, k, name) ::
              NameVerdict(selected, name, any)
              == match selected[k].0
                 case Select(_) => Whitelist(MatchedBy(selected[k].1))
                 case Negate(_) => Ignore(MatchedBy(selected[k].1))
    ensures (forall k | 0 <= k < |selected| :: !DefMatches(selected[k].1, name)) ==>
              NameVerdict(selected, name, any) == if any then Ignore(UnmatchedIgnore) else NoMatch
  {
    hide DefMatches, NameVerdict;
    forall k: nat | LastToMatch(selected, k, name)
      ensures NameVerdict(selected, name, any) == SelectionVerdict(selected[k])
    {
      NameVerdictIs(selected, name, any, k);
    }
    if forall k | 0 <= k < |selected| :: !DefMatches(selected[k].1, name) {
      NameVerdictIsNone(selected, name, any);
    }
  }

  datatype Types = Types(
    selections: seq<(Selection, FileTypeDef)>,
    hasSelected: bool,
    globToSelection: seq<(nat, nat)>,
    set_: GlobSet
  ) {
    ghost predicate BuiltFrom(f: Flat) {
      && selections == f.selected && globToSelection == f.pairs
      && hasSelected == AnySelected(f.selected)
      && set_.Represents(f.patterns)
    }

    lemma NothingSelected(f: Flat)
      requires BuiltFrom(f) && IsFlat(f) && AllHaveGlobs(f.selected) && set_.len == 0
      ensures selections == []
    {
      SelectionsHaveGlobs(f);
    }

    method Matched(path: seq<byte>, isDir: bool, ghost f: Flat) returns (m: Match<TypeMatch>)
      requires BuiltFrom(f) && IsFlat(f) && AllHaveGlobs(f.selected)
      ensures isDir ==> m == NoMatch
      ensures !isDir && path != [] && !EndsInDot(LastComponent(path)) ==>
                m == NameVerdict(selections, LastComponent(path), AnySelected(selections))
      ensures !isDir && (path == [] || EndsInDot(LastComponent(path))) ==>
                m == if exists s :: s in selections && s.0.Select? then Ignore(UnmatchedIgnore) else NoMatch
      ensures !isDir && path != [] && !EndsInDot(LastComponent(path)) ==>
                (forall k: nat | LastToMatch(selections, k, LastComponent(path)) ::
                   m == match selections[k].0
                        case Select(_) => Whitelist(MatchedBy(selections[k].1))
                        case Negate(_) => Ignore(MatchedBy(selections[k].1)))
      ensures !isDir && path != [] && !EndsInDot(LastComponent(path))
              && (forall k | 0 <= k < |selections| :: !DefMatches(selections[k].1, LastComponent(path))) ==>
                m == if exists s :: s in selections && s.0.Select? then Ignore(UnmatchedIgnore) else NoMatch
    {
      hide MatchingPositions, TypeFileName, LastComponent, GlobSet.Represents, SetPositions, DefMatches, EndsInDot, LastToMatch, NameVerdict;
      NamelessExactly(path);
      LastSelectionDecides(selections, LastComponent(path), AnySelected(selections));
      if isDir {
        return NoMatch;
      }
      if set_.len == 0 {
        NothingSelected(f);
        NothingDecides(LastComponent(path));
        return NoMatch;
      }
      var name := TypeFileName(path);
      if name.None? {
        return if hasSelected then Ignore(UnmatchedIgnore) else NoMatch;
      }
      var matches := new IndexVector();
      set_.MatchesInto(name.value, matches, f.patterns);
      NameIsNotDotDot(path);
      assert matches.items == MatchingPositions(f.patterns, name.value);
      if |matches.items| > 0 {
        var i := matches.items[|matches.items| - 1];
        LastMatchDecides(f, name.value, i);
        var sel := selections[globToSelection[i].0];
        return if sel.0.Negate? then Ignore(MatchedBy(sel.1)) else Whitelist(MatchedBy(sel.1));
      }
      NoMatchDecides(f, name.value);
      return if hasSelected then Ignore(UnmatchedIgnore) else NoMatch;
    }
  }

  lemma NothingDecides(name: seq<byte>)
    ensures NameVerdict([], name, AnySelected([])) == NoMatch && !AnySelected([])
  {
  }

  lemma SelectionsHaveGlobs(f: Flat)
    requires IsFlat(f) && AllHaveGlobs(f.selected)
    ensures f.selected != [] ==> |f.patterns| > 0
  {
    if f.selected != [] {
      assert Listed(f, |f.selected| - 1, 0);
    }
  }

  lemma NameIsNotDotDot(path: seq<byte>)
    requires TypeFileName(path).Some?
    ensures TypeFileName(path).value == LastComponent(path)
    ensures LastComponent(TypeFileName(path).value) != DOT_DOT
  {
    var name := TypeFileName(path).value;
    assert SLASH !in name;
    assert name != [] ==> name[|name| - 1] == path[|path| - 1];
  }

  lemma {:induction false} NameVerdictIs(selected: seq<(Selection, FileTypeDef)>, name: seq<byte>, any: bool, k: nat)
    requires k < |selected| && DefMatches(selected[k].1, name)
    requires forall j | k < j < |selected| :: !DefMatches(selected[j].1, name)
    ensures NameVerdict(selected, name, any) == SelectionVerdict(selected[k])
  {
    hide DefMatches, SelectionVerdict;
    if k == |selected| - 1 {
    } else {
      NameVerdictIs(selected[..|selected| - 1], name, any, k);
    }
  }

  lemma {:induction false} NameVerdictIsNone(selected: seq<(Selection, FileTypeDef)>, name: seq<byte>, any: bool)
    requires forall j | 0 <= j < |selected| :: !DefMatches(selected[j].1, name)
    ensures NameVerdict(selected, name, any) == if any then Ignore(UnmatchedIgnore) else NoMatch
  {
    hide DefMatches, SelectionVerdict;
    if selected == [] {
    } else {
      NameVerdictIsNone(selected[..|selected| - 1], name, any);
    }
  }

  // A selection with a matching glob has a matching position.
  lemma MatchHasPosition(f: Flat, name: seq<byte>, isel: nat) returns (p: nat)
    requires IsFlat(f) && isel < |f.selected| && DefMatches(f.selected[isel].1, name)
    ensures p < |f.pairs| && f.pairs[p].0 == isel && p in MatchingPositions(f.patterns, name)
  {
    hide GlobParser.Build, GlobMatches;
    var k :| GlobOfDefMatches(f.selected[isel].1, k, name);
    assert Listed(f, isel, k);
    p :| 0 <= p < |f.pairs| && f.pairs[p] == (isel, k);
    assert PairAt(f, p);
  }

  lemma LastMatchDecides(f: Flat, name: seq<byte>, i: nat)
    requires IsFlat(f)
    requires var ps := MatchingPositions(f.patterns, name); ps != [] && i == ps[|ps| - 1]
    ensures i < |f.pairs| && f.pairs[i].0 < |f.selected|
    ensures NameVerdict(f.selected, name, AnySelected(f.selected)) == SelectionVerdict(f.selected[f.pairs[i].0])
    ensures LastToMatch(f.selected, f.pairs[i].0, name)
    ensures var (selection, def) := f.selected[f.pairs[i].0];
            NameVerdict(f.selected, name, AnySelected(f.selected))
            == if selection.Select? then Whitelist(MatchedBy(def)) else Ignore(MatchedBy(def))
  {
    hide GlobParser.Build, GlobMatches, NameVerdict, SelectionVerdict;
    var ps := MatchingPositions(f.patterns, name);
    assert i in ps && forall p | p in ps :: p <= i;
    assert PairAt(f, i);
    var (isel, iglob) := f.pairs[i];
    assert GlobOfDefMatches(f.selected[isel].1, iglob, name);
    forall j | isel < j < |f.selected|
      ensures !DefMatches(f.selected[j].1, name)
    {
      if DefMatches(f.selected[j].1, name) {
        var p := MatchHasPosition(f, name, j);
      }
    }
    NameVerdictIs(f.selected, name, AnySelected(f.selected), isel);
    VerdictOfSelection(f.selected[isel]);
  }

  lemma VerdictOfSelection(s: (Selection, FileTypeDef))
    ensures SelectionVerdict(s) == if s.0.Select? then Whitelist(MatchedBy(s.1)) else Ignore(MatchedBy(s.1))
  {
  }

  lemma {:induction false} NoMatchDecides(f: Flat, name: seq<byte>)
    requires IsFlat(f) && MatchingPositions(f.patterns, name) == []
    ensures NameVerdict(f.selected, name, AnySelected(f.selected))
         == if exists s :: s in f.selected && s.0.Select? then Ignore(UnmatchedIgnore) else NoMatch
  {
    hide GlobParser.Build, GlobMatches, NameVerdict, SelectionVerdict;
    forall j | 0 <= j < |f.selected|
      ensures !DefMatches(f.selected[j].1, name)
    {
      if DefMatches(f.selected[j].1, name) {
        var p := MatchHasPosition(f, name, j);
      }
    }
    NameVerdictIsNone(f.selected, name, AnySelected(f.selected));
  }
}
