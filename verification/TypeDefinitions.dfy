/** File type definitions as they are written, the globs that they ask for, and selections that fail. */
module TypeDefinitions {
  import opened Wrappers
  import opened Utf8
  import opened Tokens
  import opened Compiler
  import opened Text
  import opened Paths
  import opened GlobParser
  import opened RepeatedStars
  import opened GlobTexts
  import opened ClassTexts
  import opened BraceTexts
  import opened FileTypes
  import GlobLines

  // ----- definitions in text form -----

  lemma SplitOnce<T>(w: seq<T>, rest: seq<T>, sep: T)
    requires sep !in w
    ensures Split(w, sep) == [w] && Split(w + ([sep] + rest), sep) == [w] + Split(rest, sep)
  {
    SplitPrefix(w, [], sep);
    SplitPrefix(w, [sep] + rest, sep);
    assert ([sep] + rest)[1..] == rest && w + [] == w;
    assert Split<T>([], sep) == [[]];
    assert Split([sep] + rest, sep) == [[]] + Split(rest, sep);
  }

  // Without a colon there is no definition.
  lemma NoColonNoDef(def: string)
    requires ':' !in def
    ensures ParseDef(def) == None
  {
    hide Split;
    SplitOnce(def, "", ':');
  }

  // `name:glob` asks for that glob under that name.
  lemma OneGlobDef(name: string, glob: string)
    requires ':' !in name && ':' !in glob
    ensures ParseDef(name + ":" + glob) == if name == "" || glob == "" then None else Some(OneGlob(name, glob))
  {
    hide Split;
    assert name + ":" + glob == name + ([':'] + glob);
    SplitOnce(name, glob, ':');
    SplitOnce(glob, "", ':');
  }

  // `name:include:other,...` asks for the globs of the others; nothing but `include` may stand there.
  lemma IncludeDef(name: string, middle: string, list: string)
    requires ':' !in name && ':' !in middle && ':' !in list
    ensures ParseDef(name + ":" + middle + ":" + list)
         == if name == "" || middle != "include" || list == "" then None else Some(Include(name, Split(list, ',')))
  {
    hide Split;
    assert name + ":" + middle + ":" + list == name + ([':'] + (middle + ([':'] + list)));
    SplitOnce(name, middle + ([':'] + list), ':');
    SplitOnce(middle, list, ':');
    SplitOnce(list, "", ':');
  }

  // More colons are an error.
  lemma TooManyColons(a: string, b: string, c: string, rest: string)
    requires ':' !in a && ':' !in b && ':' !in c
    ensures ParseDef(a + ":" + b + ":" + c + ":" + rest) == None
  {
    hide Split;
    assert a + ":" + b + ":" + c + ":" + rest == a + ([':'] + (b + ([':'] + (c + ([':'] + rest)))));
    SplitOnce(a, b + ([':'] + (c + ([':'] + rest))), ':');
    SplitOnce(b, c + ([':'] + rest), ':');
    SplitOnce(c, rest, ':');
  }

  function Joined(names: seq<string>): string {
    if names == [] then "" else if |names| == 1 then names[0] else names[0] + ("," + Joined(names[1..]))
  }

  // The list of an include is read back.
  lemma {:induction false} ListIsRead(names: seq<string>)
    requires names != [] && forall n | n in names :: ',' !in n
    ensures Split(Joined(names), ',') == names
  {
    hide Split;
    assert names == [names[0]] + names[1..] && forall n | n in names[1..] :: n in names;
    if |names| == 1 {
      SplitOnce(names[0], "", ',');
    } else {
      ListIsRead(names[1..]);
      SplitOnce(names[0], Joined(names[1..]), ',');
    }
  }

  // ----- what a definition does -----

  // A glob is added behind those that the type has; other types stay as they are. The name may not be
  // `all`, and may hold letters and numbers only.
  lemma OneGlobAdds(types: Definitions, name: string, glob: string, isAlphanumeric: char -> bool)
    ensures var old_ := if name in types then types[name].globs else [];
            Fulfil(types, OneGlob(name, glob), isAlphanumeric)
            == if name == "all" || exists c | c in name :: !isAlphanumeric(c) then None
               else Some(types[name := FileTypeDef(name, old_ + [glob])])
  {
  }

  // All the globs of these types, in order.
  function GlobsOfAll(types: Definitions, from: seq<string>): seq<string>
    requires forall t | t in from :: t in types
  {
    if from == [] then [] else types[from[0]].globs + GlobsOfAll(types, from[1..])
  }

  lemma {:induction false} IncludeAllIs(types: Definitions, name: string, from: seq<string>)
    requires (forall t | t in from :: t in types) && name !in from && from != []
    ensures var old_ := if name in types then types[name].globs else [];
            IncludeAll(types, name, from) == types[name := FileTypeDef(name, old_ + GlobsOfAll(types, from))]
    decreases |from|
  {
    var rest, next := from[1..], Extend(types, name, types[from[0]].globs);
    assert from[0] in from && forall t | t in rest :: t in from;
    if rest == [] {
      assert IncludeAll(types, name, from) == next;
      assert GlobsOfAll(types, from) == types[from[0]].globs + [] == types[from[0]].globs;
    } else {
      IncludeAllIs(next, name, rest);
      SameGlobs(types, next, rest);
      assert GlobsOf(types, name) + types[from[0]].globs + GlobsOfAll(types, rest)
          == GlobsOf(types, name) + (types[from[0]].globs + GlobsOfAll(types, rest));
    }
  }

  lemma {:induction false} SameGlobs(a: Definitions, b: Definitions, from: seq<string>)
    requires forall t | t in from :: t in a && t in b && a[t] == b[t]
    ensures GlobsOfAll(a, from) == GlobsOfAll(b, from)
  {
    if from != [] {
      assert from[0] in from && forall t | t in from[1..] :: t in from;
      SameGlobs(a, b, from[1..]);
    }
  }

  // An include adds the globs of all the others, which must be there; other types stay as they are.
  lemma IncludeAdds(types: Definitions, name: string, from: seq<string>, isAlphanumeric: char -> bool)
    requires from != [] && name !in from
    ensures var old_ := if name in types then types[name].globs else [];
            Fulfil(types, Include(name, from), isAlphanumeric)
            == if name == "all" || (exists c | c in name :: !isAlphanumeric(c)) || (exists t | t in from :: t !in types) then None
               else Some(types[name := FileTypeDef(name, old_ + GlobsOfAll(types, from))])
  {
    if forall t | t in from :: t in types {
      IncludeAllIs(types, name, from);
    }
  }

  // A type that includes itself has all its globs twice.
  lemma IncludingItselfDoubles(types: Definitions, name: string, isAlphanumeric: char -> bool)
    requires name in types && name != "all" && forall c | c in name :: isAlphanumeric(c)
    ensures Fulfil(types, Include(name, [name]), isAlphanumeric)
         == Some(types[name := FileTypeDef(name, types[name].globs + types[name].globs)])
  {
    assert [name][1..] == [];
    assert IncludeAll(types, name, [name]) == IncludeAll(Extend(types, name, types[name].globs), name, []);
  }

  // ----- the globs of types -----

  // `*.rs` and the like match the names that end so.
  lemma EndingGlobMatches(def: FileTypeDef, k: nat, end: string, name: seq<byte>)
    requires k < |def.globs| && def.globs[k] == "*" + end && IsPlain(end) && SLASH !in name
    ensures GlobOfDefMatches(def, k, name) <==> EndsWith(name, Encode(end))
  {
    hide Build, GlobMatches, Encode;
    assert "*" + end == "" + ['*'] + end;
    WildcardMatches("", '*', end, TYPE_OPTIONS, name);
    hide Around;
    AroundTheEnd(end, name);
  }

  lemma AroundTheEnd(end: string, name: seq<byte>)
    requires SLASH !in name
    ensures (exists middle: seq<byte> :: Around("", middle, end, name) && SLASH !in middle) <==> EndsWith(name, Encode(end))
  {
    hide Encode;
    var e := Encode(end);
    EncodeNothing();
    if EndsWith(name, e) {
      var middle := name[..|name| - |e|];
      assert name == [] + middle + name[|name| - |e|..];
      assert Around("", middle, end, name) && SLASH !in middle;
    }
    if middle :| Around("", middle, end, name) {
      assert name == middle + e && name[|middle|..] == e;
    }
  }

  // Plain globs match that name, in that case.
  lemma PlainGlobMatches(def: FileTypeDef, k: nat, text: string, name: seq<byte>)
    requires k < |def.globs| && def.globs[k] == text && IsPlain(text)
    ensures GlobOfDefMatches(def, k, name) <==> name == Encode(text)
  {
    hide Build, GlobMatches, Encode;
    PlainTextMatches(text, TYPE_OPTIONS, name);
  }

  // An empty alternative does not count, a bracket must be closed, and a backslash escapes.
  lemma SpecialGlobs(def: FileTypeDef, k: nat, text: string, c: char, name: seq<byte>)
    requires k < |def.globs| && IsPlainBranch(text) && text != ""
    ensures def.globs[k] == text + "{,~}" ==> (GlobOfDefMatches(def, k, name) <==> name == Encode(text + "~"))
    ensures def.globs[k] == "[" + text && NeverCloses(text) ==>
              Build(def.globs[k], TYPE_OPTIONS) == Err(UnclosedClass) && !GlobOfDefMatches(def, k, name)
    ensures def.globs[k] == text + ['\\', c] ==> (GlobOfDefMatches(def, k, name) <==> name == Encode(text + [c]))
  {
    hide Build, GlobMatches, Encode, NeverCloses;
    if def.globs[k] == text + "{,~}" {
      BranchTexts();
      assert GroupText(text, "", "~") == text + "{,~}";
      GroupTextMatches(text, "", "~", TYPE_OPTIONS, name);
    }
    if def.globs[k] == "[" + text && NeverCloses(text) {
      OpenBracketText(text, TYPE_OPTIONS);
    }
    if def.globs[k] == text + ['\\', c] {
      EscapedEnd(text, c, name);
    }
  }

  lemma BranchTexts()
    ensures IsPlainBranch("") && IsPlainBranch("~")
  {
  }

  lemma EscapedEnd(text: string, c: char, name: seq<byte>)
    requires IsPlain(text)
    ensures Build(text + ['\\', c], TYPE_OPTIONS).Ok?
    ensures GlobMatches(Build(text + ['\\', c], TYPE_OPTIONS).value, name) <==> name == Encode(text + [c])
  {
    hide Build, GlobMatches, Encode;
    assert text + ['\\', c] + "" == text + ['\\', c] && text + [c] + "" == text + [c];
    EscapedText(text, c, "", TYPE_OPTIONS);
    GlobLines.LiteralGlobMatches(text + ['\\', c], text + [c], TYPE_OPTIONS, name);
  }

  // ----- selections that fail -----

  // The type is defined, and its globs parse.
  predicate IsGood(types: Definitions, name: string) {
    name in types && forall j | 0 <= j < |types[name].globs| :: Build(types[name].globs[j], TYPE_OPTIONS).Ok?
  }

  lemma {:induction false} GoodGlobsAdd(f: Flat, isel: nat, globs: seq<string>)
    requires forall j | 0 <= j < |globs| :: Build(globs[j], TYPE_OPTIONS).Ok?
    ensures AddGlobs(f, isel, globs).Ok?
  {
    hide Build;
    if globs != [] {
      GoodGlobsAdd(f, isel, globs[..|globs| - 1]);
    }
  }

  lemma {:induction false} GoodSelectionsResolve(types: Definitions, selections: seq<Selection>)
    requires forall s | s in selections :: IsGood(types, s.name)
    ensures Resolve(types, selections).Ok?
  {
    hide Build, AddGlobs;
    if selections != [] {
      var n := |selections| - 1;
      assert selections[n] in selections && forall s | s in selections[..n] :: s in selections;
      GoodSelectionsResolve(types, selections[..n]);
      var before, s := Resolve(types, selections[..n]).value, selections[n];
      GoodGlobsAdd(before.(selected := before.selected + [(s, types[s.name])]), n, types[s.name].globs);
    }
  }

  // The first selection that is not good is the error: of a type that is not defined ...
  lemma FirstUnknownFails(types: Definitions, selections: seq<Selection>, i: nat)
    requires i < |selections| && selections[i].name !in types
    requires forall s | s in selections[..i] :: IsGood(types, s.name)
    ensures Resolve(types, selections) == Err(UnrecognizedFileType(selections[i].name))
  {
    hide IsGood, AddGlobs;
    GoodSelectionsResolve(types, selections[..i]);
    ResolveNext(types, selections, i);
    ResolveFails(types, selections, i + 1);
  }

  // ... or with a glob that does not parse, of which there may be more behind.
  lemma FirstBadGlobFails(types: Definitions, selections: seq<Selection>, i: nat, j: nat, e: ErrorKind)
    requires i < |selections| && selections[i].name in types && j < |types[selections[i].name].globs|
    requires forall s | s in selections[..i] :: IsGood(types, s.name)
    requires var globs := types[selections[i].name].globs;
             && (forall k | 0 <= k < j :: Build(globs[k], TYPE_OPTIONS).Ok?)
             && Build(globs[j], TYPE_OPTIONS) == Err(e)
    ensures Resolve(types, selections) == Err(BadGlob(types[selections[i].name].globs[j], e))
  {
    hide Build, IsGood;
    GoodSelectionsResolve(types, selections[..i]);
    ResolveNext(types, selections, i);
    var before, s := Resolve(types, selections[..i]).value, selections[i];
    var f, globs := before.(selected := before.selected + [(s, types[s.name])]), types[s.name].globs;
    GoodGlobsAdd(f, i, globs[..j]);
    assert globs[..j + 1][..j] == globs[..j];
    AddGlobsFails(f, i, globs, j + 1);
    ResolveFails(types, selections, i + 1);
  }
}
