/** What the tables of a glob set hold, and that together they report what each strategy answers. */
module GlobSetTables {
  import opened Utf8
  import opened Regexes
  import opened Paths
  import opened Text
  import opened Strategies
  import opened GlobSetStrategies

  datatype Tables = Tables(
    lits: map<seq<byte>, seq<nat>>,
    baseLits: map<seq<byte>, seq<nat>>,
    exts: map<seq<byte>, seq<nat>>,
    prefixes: Multi<seq<byte>>,
    suffixes: Multi<seq<byte>>,
    requiredExts: map<seq<byte>, seq<(nat, Pattern)>>,
    regexes: Multi<Pattern>
  )

  const NO_TABLES := Tables(map[], map[], map[], Multi([], [], 0), Multi([], [], 0), map[], Multi([], [], 0))

  function AddHit<V>(table: map<seq<byte>, seq<V>>, v: V, key: seq<byte>): map<seq<byte>, seq<V>> {
    table[key := Hits(table, key) + [v]]
  }

  // The tables after filing the glob at position i, which has strategy st and expression p. A
  // component suffix is filed twice: a path that is the suffix has no slash in front of it.
  function FileOne(t: Tables, i: nat, st: MatchStrategy, p: Pattern): Tables {
    match st
    case Literal(lit) => t.(lits := AddHit<nat>(t.lits, i, Encode(lit)))
    case BasenameLiteral(lit) => t.(baseLits := AddHit<nat>(t.baseLits, i, Encode(lit)))
    case Extension(ext) => t.(exts := AddHit<nat>(t.exts, i, Encode(ext)))
    case Prefix(prefix) => t.(prefixes := AddTo(t.prefixes, i, Encode(prefix), |Encode(prefix)|))
    case Suffix(suffix, component) =>
      t.(lits := if component then AddHit<nat>(t.lits, i, Encode(AfterSlash(suffix))) else t.lits,
         suffixes := AddTo(t.suffixes, i, Encode(suffix), |Encode(suffix)|))
    case RequiredExtension(ext) => t.(requiredExts := AddHit<(nat, Pattern)>(t.requiredExts, (i, p), Encode(ext)))
    case Regex => t.(regexes := AddTo(t.regexes, i, p, |p.re|))
  }

  // ----- what is filed where -----

  datatype Kind = ByPath | ByBasename | ByExt | ByPrefix | BySuffix

  predicate Filed(kind: Kind, st: MatchStrategy, key: seq<byte>) {
    match kind
    case ByPath =>
      (st.Literal? && key == Encode(st.lit)) || (st.Suffix? && st.component && key == Encode(AfterSlash(st.suffix)))
    case ByBasename => st.BasenameLiteral? && key == Encode(st.lit)
    case ByExt => st.Extension? && key == Encode(st.ext)
    case ByPrefix => st.Prefix? && key == Encode(st.prefix)
    case BySuffix => st.Suffix? && key == Encode(st.suffix)
  }

  ghost predicate TableFor(kind: Kind, table: map<seq<byte>, seq<nat>>, sts: seq<MatchStrategy>) {
    && NoEmptyEntry(table)
    && forall key, i: nat :: HasHit(table, key, i) <==> FiledAt(kind, sts, i, key)
  }

  predicate HasHit(table: map<seq<byte>, seq<nat>>, key: seq<byte>, i: nat) {
    i in Hits<nat>(table, key)
  }

  predicate FiledAt(kind: Kind, sts: seq<MatchStrategy>, i: nat, key: seq<byte>) {
    i < |sts| && Filed(kind, sts[i], key)
  }

  ghost predicate Holds<L>(m: Multi<L>, i: nat, key: L) {
    exists p | 0 <= p < |m.literals| && p < |m.positions| :: m.positions[p] == i && m.literals[p] == key
  }

  ghost predicate MultiFor(kind: Kind, m: Multi<seq<byte>>, sts: seq<MatchStrategy>) {
    && |m.literals| == |m.positions|
    && (forall p | 0 <= p < |m.literals| :: |m.literals[p]| <= m.longest)
    && forall i: nat, key :: Holds(m, i, key) <==> FiledAt(kind, sts, i, key)
  }

  ghost predicate RequiredFor(table: map<seq<byte>, seq<(nat, Pattern)>>, sts: seq<MatchStrategy>, ps: seq<Pattern>)
    requires |sts| == |ps|
  {
    forall key, e :: e in Hits<(nat, Pattern)>(table, key) <==> RequiredEntry(sts, ps, key, e)
  }

  predicate RequiredEntry(sts: seq<MatchStrategy>, ps: seq<Pattern>, key: seq<byte>, e: (nat, Pattern))
    requires |sts| == |ps|
  {
    e.0 < |sts| && sts[e.0].RequiredExtension? && key == Encode(sts[e.0].ext) && e.1 == ps[e.0]
  }

  ghost predicate RegexesFor(m: Multi<Pattern>, sts: seq<MatchStrategy>, ps: seq<Pattern>)
    requires |sts| == |ps|
  {
    && |m.literals| == |m.positions|
    && forall i: nat, p :: Holds(m, i, p) <==> i < |sts| && sts[i].Regex? && p == ps[i]
  }

  // The tables hold exactly the globs with strategies sts and expressions ps.
  ghost predicate Tallied(t: Tables, sts: seq<MatchStrategy>, ps: seq<Pattern>) {
    && |sts| == |ps|
    && TableFor(ByPath, t.lits, sts) && TableFor(ByBasename, t.baseLits, sts) && TableFor(ByExt, t.exts, sts)
    && MultiFor(ByPrefix, t.prefixes, sts) && MultiFor(BySuffix, t.suffixes, sts)
    && RequiredFor(t.requiredExts, sts, ps) && RegexesFor(t.regexes, sts, ps)
  }

  lemma NothingFiled()
    ensures Tallied(NO_TABLES, [], [])
  {
    assert forall key :: Hits<nat>(map[], key) == [];
  }

  // st files the keys ks and no others.
  ghost predicate FilesOnly(kind: Kind, st: MatchStrategy, ks: set<seq<byte>>) {
    forall key :: Filed(kind, st, key) <==> key in ks
  }

  // One key and one position, with the key added and with no key added.
  lemma HitAdded(table: map<seq<byte>, seq<nat>>, n: nat, key: seq<byte>, k: seq<byte>, i: nat)
    ensures HasHit(AddHit<nat>(table, n, key), k, i) <==> HasHit(table, k, i) || (k == key && i == n)
  {
    HitsAdded<nat>(table, n, key, k, i);
  }

  lemma FiledOneMore(kind: Kind, sts: seq<MatchStrategy>, st: MatchStrategy, i: nat, key: seq<byte>)
    ensures FiledAt(kind, sts + [st], i, key) <==> FiledAt(kind, sts, i, key) || (i == |sts| && Filed(kind, st, key))
  {
    hide Filed;
  }

  lemma NoEmptyEntryAdded(table: map<seq<byte>, seq<nat>>, n: nat, key: seq<byte>)
    requires NoEmptyEntry(table)
    ensures NoEmptyEntry(AddHit<nat>(table, n, key))
  {
  }

  lemma TableKeeps(kind: Kind, table: map<seq<byte>, seq<nat>>, sts: seq<MatchStrategy>, st: MatchStrategy)
    requires TableFor(kind, table, sts) && FilesOnly(kind, st, {})
    ensures TableFor(kind, table, sts + [st])
  {
    hide HasHit, FiledAt, Filed, NoEmptyEntry;
    forall k, i: nat
      ensures HasHit(table, k, i) <==> FiledAt(kind, sts + [st], i, k)
    {
      assert HasHit(table, k, i) <==> FiledAt(kind, sts, i, k);
      FiledOneMore(kind, sts, st, i, k);
      assert !Filed(kind, st, k);
    }
  }

  lemma TableGains(kind: Kind, table: map<seq<byte>, seq<nat>>, sts: seq<MatchStrategy>, st: MatchStrategy, key: seq<byte>)
    requires TableFor(kind, table, sts) && FilesOnly(kind, st, {key})
    ensures TableFor(kind, AddHit<nat>(table, |sts|, key), sts + [st])
  {
    hide HasHit, FiledAt, Filed, NoEmptyEntry, AddHit;
    var added := AddHit<nat>(table, |sts|, key);
    NoEmptyEntryAdded(table, |sts|, key);
    forall k, i: nat
      ensures HasHit(added, k, i) <==> FiledAt(kind, sts + [st], i, k)
    {
      HitAdded(table, |sts|, key, k, i);
      assert HasHit(table, k, i) <==> FiledAt(kind, sts, i, k);
      FiledOneMore(kind, sts, st, i, k);
      assert Filed(kind, st, k) <==> k in {key};
    }
  }

  lemma TableStep(kind: Kind, table: map<seq<byte>, seq<nat>>, sts: seq<MatchStrategy>, st: MatchStrategy, ks: set<seq<byte>>)
    requires TableFor(kind, table, sts) && FilesOnly(kind, st, ks)
    ensures ks == {} ==> TableFor(kind, table, sts + [st])
    ensures forall key | ks == {key} :: TableFor(kind, AddHit<nat>(table, |sts|, key), sts + [st])
  {
    hide TableFor, FilesOnly, AddHit;
    if ks == {} {
      TableKeeps(kind, table, sts, st);
    }
    forall key | ks == {key}
      ensures TableFor(kind, AddHit<nat>(table, |sts|, key), sts + [st])
    {
      TableGains(kind, table, sts, st, key);
    }
  }

  lemma HoldsAdded<L>(m: Multi<L>, n: nat, literal: L, len: nat, i: nat, key: L)
    requires |m.literals| == |m.positions|
    ensures Holds(AddTo(m, n, literal, len), i, key) <==> Holds(m, i, key) || (i == n && key == literal)
  {
    var a := AddTo(m, n, literal, len);
    assert a.positions[|m.positions|] == n && a.literals[|m.literals|] == literal;
    if Holds(m, i, key) {
      var p :| 0 <= p < |m.literals| && m.positions[p] == i && m.literals[p] == key;
      assert a.positions[p] == i && a.literals[p] == key;
    }
  }

  lemma MultiKeeps(kind: Kind, m: Multi<seq<byte>>, sts: seq<MatchStrategy>, st: MatchStrategy)
    requires MultiFor(kind, m, sts) && FilesOnly(kind, st, {})
    ensures MultiFor(kind, m, sts + [st])
  {
    hide Holds, FiledAt, Filed;
    forall i: nat, k
      ensures Holds(m, i, k) <==> FiledAt(kind, sts + [st], i, k)
    {
      assert Holds(m, i, k) <==> FiledAt(kind, sts, i, k);
      FiledOneMore(kind, sts, st, i, k);
      assert !Filed(kind, st, k);
    }
  }

  lemma MultiGains(kind: Kind, m: Multi<seq<byte>>, sts: seq<MatchStrategy>, st: MatchStrategy, key: seq<byte>)
    requires MultiFor(kind, m, sts) && FilesOnly(kind, st, {key})
    ensures MultiFor(kind, AddTo(m, |sts|, key, |key|), sts + [st])
  {
    hide Holds, FiledAt, Filed;
    forall i: nat, k
      ensures Holds(AddTo(m, |sts|, key, |key|), i, k) <==> FiledAt(kind, sts + [st], i, k)
    {
      HoldsAdded(m, |sts|, key, |key|, i, k);
      assert Holds(m, i, k) <==> FiledAt(kind, sts, i, k);
      FiledOneMore(kind, sts, st, i, k);
      assert Filed(kind, st, k) <==> k in {key};
    }
  }

  lemma MultiStep(kind: Kind, m: Multi<seq<byte>>, sts: seq<MatchStrategy>, st: MatchStrategy, ks: set<seq<byte>>)
    requires MultiFor(kind, m, sts) && FilesOnly(kind, st, ks)
    ensures ks == {} ==> MultiFor(kind, m, sts + [st])
    ensures forall key | ks == {key} :: MultiFor(kind, AddTo(m, |sts|, key, |key|), sts + [st])
  {
    hide MultiFor, FilesOnly, AddTo;
    if ks == {} {
      MultiKeeps(kind, m, sts, st);
    }
    forall key | ks == {key}
      ensures MultiFor(kind, AddTo(m, |sts|, key, |key|), sts + [st])
    {
      MultiGains(kind, m, sts, st, key);
    }
  }

  lemma RequiredStep(table: map<seq<byte>, seq<(nat, Pattern)>>, sts: seq<MatchStrategy>, ps: seq<Pattern>, st: MatchStrategy, p: Pattern)
    requires |sts| == |ps| && RequiredFor(table, sts, ps)
    ensures RequiredFor(if st.RequiredExtension? then AddHit<(nat, Pattern)>(table, (|sts|, p), Encode(st.ext)) else table, sts + [st], ps + [p])
  {
    hide Hits, AddHit, RequiredEntry;
    var after := if st.RequiredExtension? then AddHit<(nat, Pattern)>(table, (|sts|, p), Encode(st.ext)) else table;
    forall k: seq<byte>, e: (nat, Pattern)
      ensures e in Hits<(nat, Pattern)>(after, k) <==> RequiredEntry(sts + [st], ps + [p], k, e)
    {
      if st.RequiredExtension? {
        HitsAdded<(nat, Pattern)>(table, (|sts|, p), Encode(st.ext), k, e);
      }
      OneMoreEntry(sts, ps, st, p, k, e);
      assert e in Hits<(nat, Pattern)>(table, k) <==> RequiredEntry(sts, ps, k, e);
    }
  }

  lemma OneMoreEntry(sts: seq<MatchStrategy>, ps: seq<Pattern>, st: MatchStrategy, p: Pattern, k: seq<byte>, e: (nat, Pattern))
    requires |sts| == |ps|
    ensures RequiredEntry(sts + [st], ps + [p], k, e)
       <==> RequiredEntry(sts, ps, k, e) || (st.RequiredExtension? && k == Encode(st.ext) && e == (|sts|, p))
  {
    hide Encode;
  }

  lemma HitsAdded<V>(table: map<seq<byte>, seq<V>>, v: V, key: seq<byte>, k: seq<byte>, e: V)
    ensures e in Hits<V>(AddHit<V>(table, v, key), k) <==> e in Hits<V>(table, k) || (k == key && e == v)
  {
  }

  lemma RegexStep(m: Multi<Pattern>, sts: seq<MatchStrategy>, ps: seq<Pattern>, st: MatchStrategy, p: Pattern)
    requires |sts| == |ps| && RegexesFor(m, sts, ps)
    ensures RegexesFor(if st.Regex? then AddTo(m, |sts|, p, |p.re|) else m, sts + [st], ps + [p])
  {
    if st.Regex? {
      forall i: nat, q
        ensures Holds(AddTo(m, |sts|, p, |p.re|), i, q) <==> i < |sts + [st]| && (sts + [st])[i].Regex? && q == (ps + [p])[i]
      {
        HoldsAdded(m, |sts|, p, |p.re|, i, q);
      }
    }
  }

  // What st files under kind: nothing or one key.
  function Keys(kind: Kind, st: MatchStrategy): (ks: set<seq<byte>>)
    ensures FilesOnly(kind, st, ks)
  {
    match kind
    case ByPath =>
      if st.Literal? then {Encode(st.lit)}
      else if st.Suffix? && st.component then {Encode(AfterSlash(st.suffix))}
      else {}
    case ByBasename => if st.BasenameLiteral? then {Encode(st.lit)} else {}
    case ByExt => if st.Extension? then {Encode(st.ext)} else {}
    case ByPrefix => if st.Prefix? then {Encode(st.prefix)} else {}
    case BySuffix => if st.Suffix? then {Encode(st.suffix)} else {}
  }

  lemma FileOneTallies(t: Tables, sts: seq<MatchStrategy>, ps: seq<Pattern>, st: MatchStrategy, p: Pattern)
    requires Tallied(t, sts, ps)
    ensures Tallied(FileOne(t, |sts|, st, p), sts + [st], ps + [p])
  {
    hide FileOne, TableFor, MultiFor, RequiredFor, RegexesFor, Keys;
    FileOneLits(t, sts, st, p);
    FileOneNames(t, sts, st, p);
    FileOneEnds(t, sts, st, p);
    RequiredStep(t.requiredExts, sts, ps, st, p);
    RegexStep(t.regexes, sts, ps, st, p);
    FileOneRest(t, |sts|, st, p);
  }

  lemma FileOneLits(t: Tables, sts: seq<MatchStrategy>, st: MatchStrategy, p: Pattern)
    requires TableFor(ByPath, t.lits, sts)
    ensures TableFor(ByPath, FileOne(t, |sts|, st, p).lits, sts + [st])
  {
    hide TableFor, AddHit;
    TableStep(ByPath, t.lits, sts, st, Keys(ByPath, st));
  }

  lemma FileOneNames(t: Tables, sts: seq<MatchStrategy>, st: MatchStrategy, p: Pattern)
    requires TableFor(ByBasename, t.baseLits, sts) && TableFor(ByExt, t.exts, sts)
    ensures TableFor(ByBasename, FileOne(t, |sts|, st, p).baseLits, sts + [st])
    ensures TableFor(ByExt, FileOne(t, |sts|, st, p).exts, sts + [st])
  {
    hide TableFor, AddHit;
    TableStep(ByBasename, t.baseLits, sts, st, Keys(ByBasename, st));
    TableStep(ByExt, t.exts, sts, st, Keys(ByExt, st));
  }

  lemma FileOneEnds(t: Tables, sts: seq<MatchStrategy>, st: MatchStrategy, p: Pattern)
    requires MultiFor(ByPrefix, t.prefixes, sts) && MultiFor(BySuffix, t.suffixes, sts)
    ensures MultiFor(ByPrefix, FileOne(t, |sts|, st, p).prefixes, sts + [st])
    ensures MultiFor(BySuffix, FileOne(t, |sts|, st, p).suffixes, sts + [st])
  {
    hide MultiFor, AddTo;
    MultiStep(ByPrefix, t.prefixes, sts, st, Keys(ByPrefix, st));
    MultiStep(BySuffix, t.suffixes, sts, st, Keys(BySuffix, st));
  }

  lemma FileOneRest(t: Tables, i: nat, st: MatchStrategy, p: Pattern)
    ensures FileOne(t, i, st, p).requiredExts
         == if st.RequiredExtension? then AddHit<(nat, Pattern)>(t.requiredExts, (i, p), Encode(st.ext)) else t.requiredExts
    ensures FileOne(t, i, st, p).regexes == if st.Regex? then AddTo(t.regexes, i, p, |p.re|) else t.regexes
  {
  }

  // ----- what the tables report -----

  function AddIf(strats: seq<GlobSetMatchStrategy>, populated: bool, s: GlobSetMatchStrategy): (r: seq<GlobSetMatchStrategy>)
    ensures forall x :: x in r <==> x in strats || (populated && x == s)
  {
    if populated then strats + [s] else strats
  }

  // Only populated tables become strategies, in this order.
  function Assemble(t: Tables): seq<GlobSetMatchStrategy> {
    var s1 := AddIf([], t.exts != map[], ExtensionStrategy(t.exts));
    var s2 := AddIf(s1, t.baseLits != map[], BasenameLiteralStrategy(t.baseLits));
    var s3 := AddIf(s2, t.lits != map[], LiteralStrategy(t.lits));
    var s4 := AddIf(s3, t.suffixes.literals != [], SuffixStrategy(t.suffixes));
    var s5 := AddIf(s4, t.prefixes.literals != [], PrefixStrategy(t.prefixes));
    var s6 := AddIf(s5, t.requiredExts != map[], RequiredExtensionStrategy(t.requiredExts));
    AddIf(s6, t.regexes.literals != [], RegexSetStrategy(t.regexes))
  }

  ghost predicate AllValid(strats: seq<GlobSetMatchStrategy>) {
    forall s | s in strats :: s.Valid()
  }

  ghost predicate SomeReports(strats: seq<GlobSetMatchStrategy>, c: Candidate, i: nat)
    requires AllValid(strats)
  {
    exists s | s in strats :: s.Reports(c, i)
  }

  lemma SomeReportsConcat(a: seq<GlobSetMatchStrategy>, b: seq<GlobSetMatchStrategy>, c: Candidate, i: nat)
    requires AllValid(a) && AllValid(b)
    ensures AllValid(a + b) && (SomeReports(a + b, c, i) <==> SomeReports(a, c, i) || SomeReports(b, c, i))
  {
  }

  ghost predicate TableReports(t: Tables, c: Candidate, i: nat)
    requires AllTablesValid(t)
  {
    || ExtensionStrategy(t.exts).Reports(c, i) || BasenameLiteralStrategy(t.baseLits).Reports(c, i)
    || LiteralStrategy(t.lits).Reports(c, i) || SuffixStrategy(t.suffixes).Reports(c, i)
    || PrefixStrategy(t.prefixes).Reports(c, i) || RequiredExtensionStrategy(t.requiredExts).Reports(c, i)
    || RegexSetStrategy(t.regexes).Reports(c, i)
  }

  ghost predicate AllTablesValid(t: Tables) {
    && ExtensionStrategy(t.exts).Valid() && BasenameLiteralStrategy(t.baseLits).Valid()
    && LiteralStrategy(t.lits).Valid() && SuffixStrategy(t.suffixes).Valid()
    && PrefixStrategy(t.prefixes).Valid() && RegexSetStrategy(t.regexes).Valid()
  }

  lemma EmptyReportsNothing(t: Tables, c: Candidate, i: nat)
    requires AllTablesValid(t)
    ensures ExtensionStrategy(t.exts).Reports(c, i) ==> t.exts != map[]
    ensures BasenameLiteralStrategy(t.baseLits).Reports(c, i) ==> t.baseLits != map[]
    ensures LiteralStrategy(t.lits).Reports(c, i) ==> t.lits != map[]
    ensures SuffixStrategy(t.suffixes).Reports(c, i) ==> t.suffixes.literals != []
    ensures PrefixStrategy(t.prefixes).Reports(c, i) ==> t.prefixes.literals != []
    ensures RequiredExtensionStrategy(t.requiredExts).Reports(c, i) ==> t.requiredExts != map[]
    ensures RegexSetStrategy(t.regexes).Reports(c, i) ==> t.regexes.literals != []
  {
  }

  lemma AssembleReports(t: Tables, c: Candidate, i: nat)
    requires AllTablesValid(t)
    ensures AllValid(Assemble(t)) && (SomeReports(Assemble(t), c, i) <==> TableReports(t, c, i))
  {
    hide AddIf, GlobSetMatchStrategy.Reports, GlobSetMatchStrategy.Valid, SomeReports, AllValid;
    EmptyReportsNothing(t, c, i);
    NoneReports(c, i);
    var s1 := AddIf([], t.exts != map[], ExtensionStrategy(t.exts));
    AddIfReports([], t.exts != map[], ExtensionStrategy(t.exts), c, i);
    var s2 := AddIf(s1, t.baseLits != map[], BasenameLiteralStrategy(t.baseLits));
    AddIfReports(s1, t.baseLits != map[], BasenameLiteralStrategy(t.baseLits), c, i);
    var s3 := AddIf(s2, t.lits != map[], LiteralStrategy(t.lits));
    AddIfReports(s2, t.lits != map[], LiteralStrategy(t.lits), c, i);
    var s4 := AddIf(s3, t.suffixes.literals != [], SuffixStrategy(t.suffixes));
    AddIfReports(s3, t.suffixes.literals != [], SuffixStrategy(t.suffixes), c, i);
    var s5 := AddIf(s4, t.prefixes.literals != [], PrefixStrategy(t.prefixes));
    AddIfReports(s4, t.prefixes.literals != [], PrefixStrategy(t.prefixes), c, i);
    var s6 := AddIf(s5, t.requiredExts != map[], RequiredExtensionStrategy(t.requiredExts));
    RequiredIsValid(t);
    AddIfReports(s5, t.requiredExts != map[], RequiredExtensionStrategy(t.requiredExts), c, i);
    AddIfReports(s6, t.regexes.literals != [], RegexSetStrategy(t.regexes), c, i);
  }

  lemma NoneReports(c: Candidate, i: nat)
    ensures AllValid([]) && !SomeReports([], c, i)
  {
  }

  lemma RequiredIsValid(t: Tables)
    ensures RequiredExtensionStrategy(t.requiredExts).Valid()
  {
  }

  // A table that is left out for being empty would have reported nothing.
  lemma AddIfReports(strats: seq<GlobSetMatchStrategy>, populated: bool, s: GlobSetMatchStrategy, c: Candidate, i: nat)
    requires AllValid(strats) && s.Valid() && (s.Reports(c, i) ==> populated)
    ensures AllValid(AddIf(strats, populated, s))
    ensures SomeReports(AddIf(strats, populated, s), c, i) <==> SomeReports(strats, c, i) || s.Reports(c, i)
  {
    hide GlobSetMatchStrategy.Reports, GlobSetMatchStrategy.Valid;
  }

  // A key under which nothing can be looked up is never filed.
  predicate HasKeys(st: MatchStrategy) {
    match st
    case BasenameLiteral(lit) => lit != ""
    case Extension(ext) => ext != ""
    case RequiredExtension(ext) => ext != ""
    case _ => true
  }

  lemma PrefixReports(m: Multi<seq<byte>>, sts: seq<MatchStrategy>, c: Candidate, i: nat)
    requires MultiFor(ByPrefix, m, sts)
    ensures PrefixStrategy(m).Reports(c, i) <==> i < |sts| && sts[i].Prefix? && Encode(sts[i].prefix) <= c.path
  {
    // A literal is at most `longest` bytes long, so truncating the path to that does not hide it.
    assert forall p | 0 <= p < |m.literals| :: m.literals[p] <= PathPrefix(c, m.longest) <==> m.literals[p] <= c.path;
    if PrefixStrategy(m).Reports(c, i) {
      var p :| 0 <= p < |m.literals| && m.positions[p] == i && m.literals[p] <= PathPrefix(c, m.longest);
      assert Holds(m, i, m.literals[p]);
    }
    if i < |sts| && sts[i].Prefix? && Encode(sts[i].prefix) <= c.path {
      assert FiledAt(ByPrefix, sts, i, Encode(sts[i].prefix));
      assert Holds(m, i, Encode(sts[i].prefix));
    }
  }

  lemma TruncationKeepsEnd(c: Candidate, max: nat, lit: seq<byte>)
    requires |lit| <= max
    ensures EndsWith(PathSuffix(c, max), lit) <==> EndsWith(c.path, lit)
  {
    if |lit| <= |c.path| {
      var hay := PathSuffix(c, max);
      assert hay[|hay| - |lit|..] == c.path[|c.path| - |lit|..];
    }
  }

  lemma SuffixReports(m: Multi<seq<byte>>, sts: seq<MatchStrategy>, c: Candidate, i: nat)
    requires MultiFor(BySuffix, m, sts)
    ensures SuffixStrategy(m).Reports(c, i) <==> i < |sts| && sts[i].Suffix? && EndsWith(c.path, Encode(sts[i].suffix))
  {
    var hay := PathSuffix(c, m.longest);
    forall p | 0 <= p < |m.literals|
      ensures EndsWith(hay, m.literals[p]) <==> EndsWith(c.path, m.literals[p])
    {
      TruncationKeepsEnd(c, m.longest, m.literals[p]);
    }
    if SuffixStrategy(m).Reports(c, i) {
      var p :| 0 <= p < |m.literals| && m.positions[p] == i && EndsWith(hay, m.literals[p]);
      assert Holds(m, i, m.literals[p]);
    }
    if i < |sts| && sts[i].Suffix? && EndsWith(c.path, Encode(sts[i].suffix)) {
      assert FiledAt(BySuffix, sts, i, Encode(sts[i].suffix));
      assert Holds(m, i, Encode(sts[i].suffix));
    }
  }

  lemma RequiredReports(table: map<seq<byte>, seq<(nat, Pattern)>>, sts: seq<MatchStrategy>, ps: seq<Pattern>, c: Candidate, i: nat)
    requires |sts| == |ps| && RequiredFor(table, sts, ps)
    ensures RequiredExtensionStrategy(table).Reports(c, i) <==>
            c.ext != [] && i < |sts| && sts[i].RequiredExtension? && c.ext == Encode(sts[i].ext) && PatternMatches(ps[i], c.path)
  {
    if i < |sts| && sts[i].RequiredExtension? && c.ext == Encode(sts[i].ext) {
      assert (i, ps[i]) in Hits<(nat, Pattern)>(table, c.ext);
    }
  }

  lemma RegexReports(m: Multi<Pattern>, sts: seq<MatchStrategy>, ps: seq<Pattern>, c: Candidate, i: nat)
    requires |sts| == |ps| && RegexesFor(m, sts, ps)
    ensures RegexSetStrategy(m).Reports(c, i) <==> i < |sts| && sts[i].Regex? && PatternMatches(ps[i], c.path)
  {
    if RegexSetStrategy(m).Reports(c, i) {
      var p :| 0 <= p < |m.literals| && m.positions[p] == i && PatternMatches(m.literals[p], c.path);
      assert Holds(m, i, m.literals[p]);
    }
    if i < |sts| && sts[i].Regex? && PatternMatches(ps[i], c.path) {
      assert Holds(m, i, ps[i]);
    }
  }

  // What the three hash tables report.
  lemma HashReports(t: Tables, sts: seq<MatchStrategy>, c: Candidate, i: nat)
    requires TableFor(ByPath, t.lits, sts) && TableFor(ByBasename, t.baseLits, sts) && TableFor(ByExt, t.exts, sts)
    ensures LiteralStrategy(t.lits).Valid() && BasenameLiteralStrategy(t.baseLits).Valid() && ExtensionStrategy(t.exts).Valid()
    ensures LiteralStrategy(t.lits).Reports(c, i) <==> FiledAt(ByPath, sts, i, c.path)
    ensures BasenameLiteralStrategy(t.baseLits).Reports(c, i) <==> c.basename != [] && FiledAt(ByBasename, sts, i, c.basename)
    ensures ExtensionStrategy(t.exts).Reports(c, i) <==> c.ext != [] && FiledAt(ByExt, sts, i, c.ext)
  {
    hide FiledAt, NoEmptyEntry, Hits;
    assert HasHit(t.lits, c.path, i) <==> FiledAt(ByPath, sts, i, c.path);
    assert HasHit(t.baseLits, c.basename, i) <==> FiledAt(ByBasename, sts, i, c.basename);
    assert HasHit(t.exts, c.ext, i) <==> FiledAt(ByExt, sts, i, c.ext);
  }

  // What the seven tables together ask of the strategy at a position.
  predicate SomeTable(sts: seq<MatchStrategy>, c: Candidate, i: nat, byRegex: bool) {
    || FiledAt(ByPath, sts, i, c.path)
    || (c.basename != [] && FiledAt(ByBasename, sts, i, c.basename))
    || (c.ext != [] && FiledAt(ByExt, sts, i, c.ext))
    || (i < |sts| && sts[i].Prefix? && Encode(sts[i].prefix) <= c.path)
    || (i < |sts| && sts[i].Suffix? && EndsWith(c.path, Encode(sts[i].suffix)))
    || (c.ext != [] && i < |sts| && sts[i].RequiredExtension? && c.ext == Encode(sts[i].ext) && byRegex)
    || (i < |sts| && sts[i].Regex? && byRegex)
  }

  lemma KeyOfNonempty(key: string)
    ensures Encode(key) == [] <==> key == ""
  {
  }

  lemma SomeTableAnswers(sts: seq<MatchStrategy>, c: Candidate, i: nat, byRegex: bool)
    requires i < |sts| ==> HasKeys(sts[i])
    ensures SomeTable(sts, c, i, byRegex) <==> i < |sts| && Answers(sts[i], c, byRegex)
  {
    hide Encode, EndsWith;
    if i < |sts| {
      match sts[i]
      case BasenameLiteral(lit) => KeyOfNonempty(lit);
      case Extension(ext) => KeyOfNonempty(ext);
      case RequiredExtension(ext) => KeyOfNonempty(ext);
      case _ =>
    }
  }

  lemma OthersValid(t: Tables, sts: seq<MatchStrategy>, ps: seq<Pattern>)
    requires Tallied(t, sts, ps)
    ensures SuffixStrategy(t.suffixes).Valid() && PrefixStrategy(t.prefixes).Valid() && RegexSetStrategy(t.regexes).Valid()
  {
    hide TableFor, RequiredFor, Holds, FiledAt;
  }

  // Together the tables report a glob exactly when its strategy says that it matches.
  lemma TablesAnswer(t: Tables, sts: seq<MatchStrategy>, ps: seq<Pattern>, c: Candidate, i: nat)
    requires Tallied(t, sts, ps)
    requires forall st | st in sts :: HasKeys(st)
    ensures AllTablesValid(t)
    ensures TableReports(t, c, i) <==> i < |sts| && Answers(sts[i], c, PatternMatches(ps[i], c.path))
  {
    OthersValid(t, sts, ps);
    hide TableFor, MultiFor, RequiredFor, RegexesFor, Answers, HasKeys, FiledAt, GlobSetMatchStrategy.Reports,
         GlobSetMatchStrategy.Valid, PatternMatches, EndsWith, Encode;
    HashReports(t, sts, c, i);
    PrefixReports(t.prefixes, sts, c, i);
    SuffixReports(t.suffixes, sts, c, i);
    RequiredReports(t.requiredExts, sts, ps, c, i);
    RegexReports(t.regexes, sts, ps, c, i);
    SomeTableAnswers(sts, c, i, i < |sts| && PatternMatches(ps[i], c.path));
  }
}
