/** Reading back a listing in the porcelain format gives each line its commit. */
module BlameListings {
  import opened Wrappers
  import opened Text
  import opened Decimals
  import opened Blame

  // One line of a file and where it comes from; the group size is given on the first line of a group.
  datatype Entry = Entry(
    hash: string,
    originalLine: nat,
    finalLine: nat,
    groupSize: Option<nat>,
    meta: seq<string>,
    code: string
  )

  // Who wrote a commit, and when.
  datatype Authorship = Authorship(author: string, seconds: int)

  function HeaderLine(e: Entry): string {
    e.hash + " " + Digits(e.originalLine) + " " + Digits(e.finalLine)
    + match e.groupSize case None => "" case Some(n) => " " + Digits(n)
  }

  function EntryLines(e: Entry): seq<string> {
    [HeaderLine(e)] + e.meta + ["\t" + e.code]
  }

  function ListingLines(es: seq<Entry>): seq<string> {
    if es == [] then [] else EntryLines(es[0]) + ListingLines(es[1..])
  }

  function Terminated(lines: seq<string>): string {
    if lines == [] then "" else lines[0] + "\n" + Terminated(lines[1..])
  }

  predicate NoWhitespace(s: string) {
    forall i | 0 <= i < |s| :: !IsWhitespace(s[i])
  }

  predicate PlainLine(line: string) {
    '\n' !in line && !EndsWith(line, "\r") && !IsCode(line)
  }

  predicate WellFormedEntry(e: Entry) {
    && e.hash != "" && NoWhitespace(e.hash) && (forall i | 0 <= i < |e.hash| :: e.hash[i] as int < 0x80)
    && e.finalLine <= U64_MAX
    && (forall line | line in e.meta :: PlainLine(line))
    && '\n' !in e.code
  }

  // Among other things, the author and the time of a commit are given, and given alike if repeated.
  predicate Describes(meta: seq<string>, a: Authorship) {
    && -1 - I64_MAX <= a.seconds <= I64_MAX
    && "author " + a.author in meta
    && "author-time " + Signed(a.seconds) in meta
    && (forall line | line in meta && StartsWith(line, "author ") :: line == "author " + a.author)
    && (forall line | line in meta && StartsWith(line, "author-time ") :: line == "author-time " + Signed(a.seconds))
  }

  // A commit is described where it first appears; what is said of it later may be anything.
  predicate WellFormed(es: seq<Entry>, commits: map<string, Authorship>, seen: set<string>) {
    es != [] ==>
      && WellFormedEntry(es[0])
      && es[0].hash in commits
      && (es[0].hash in seen || Describes(es[0].meta, commits[es[0].hash]))
      && WellFormed(es[1..], commits, seen + {es[0].hash})
  }

  // No later entry is about the same final line.
  predicate IsLast(es: seq<Entry>, i: nat)
    requires i < |es|
  {
    forall j | i < j < |es| :: es[j].finalLine != es[i].finalLine
  }

  predicate BlamedOn(info: BlameInfo, hash: string, a: Authorship, format: int -> string) {
    && info.commitHash == (if |hash| < 8 then hash else hash[..8])
    && (hash == ZERO_HASH ==> info.author == "Uncommitted" && info.timestamp == "now")
    && (hash != ZERO_HASH ==> info.author == a.author && info.timestamp == format(a.seconds))
  }

  // ----- the theorem -----

  lemma {:induction false} ListingRoundTrip(es: seq<Entry>, commits: map<string, Authorship>, format: int -> string)
    requires WellFormed(es, commits, {})
    ensures Parsed(Terminated(ListingLines(es)), format).Ok?
    ensures var m := Parsed(Terminated(ListingLines(es)), format).value;
            && (forall n :: n in m <==> exists i | 0 <= i < |es| :: es[i].finalLine == n)
            && (forall i: nat | i < |es| && IsLast(es, i) ::
                  es[i].hash in commits && es[i].finalLine in m
                  && BlamedOn(m[es[i].finalLine], es[i].hash, commits[es[i].hash], format))
  {
    hide ListingLines, Terminated, Lines, ParseFrom, Recorded, WellFormed, IsLast, BlamedOn;
    WholeListing(es, commits, format);
    RecordedKeys(es, commits, map[], format);
    forall i: nat | i < |es| && IsLast(es, i)
      ensures es[i].hash in commits && es[i].finalLine in Recorded(es, commits, map[], format)
           && BlamedOn(Recorded(es, commits, map[], format)[es[i].finalLine], es[i].hash, commits[es[i].hash], format)
    {
      RecordedValue(es, commits, map[], format, i, {});
    }
  }

  // What later descriptions of a commit say has no influence.
  lemma {:induction false} RepetitionsDoNotCount(es: seq<Entry>, fs: seq<Entry>, commits: map<string, Authorship>, format: int -> string)
    requires WellFormed(es, commits, {}) && WellFormed(fs, commits, {}) && |es| == |fs|
    requires forall i | 0 <= i < |es| :: es[i].hash == fs[i].hash && es[i].finalLine == fs[i].finalLine
    ensures Parsed(Terminated(ListingLines(es)), format) == Parsed(Terminated(ListingLines(fs)), format)
  {
    hide ListingLines, Terminated, Lines, ParseFrom, Recorded, WellFormed;
    WholeListing(es, commits, format);
    WholeListing(fs, commits, format);
    RecordedAlike(es, fs, commits, map[], format);
  }

  lemma {:induction false} WholeListing(es: seq<Entry>, commits: map<string, Authorship>, format: int -> string)
    requires WellFormed(es, commits, {})
    ensures Parsed(Terminated(ListingLines(es)), format) == Ok(Recorded(es, commits, map[], format))
  {
    hide ListingLines, Terminated, Lines, ParseFrom, Recorded, WellFormed;
    var lines := Lines(Terminated(ListingLines(es)));
    ListingHasNoLineFeeds(es, commits, {});
    LinesOfText(ListingLines(es));
    ListingIsRead(es, commits, {});
    assert lines[0..] == lines;
    var known: map<string, Commit> := map[];
    assert known.Keys == {};
    EntriesAreRead(lines, 0, es, commits, known, map[], format);
  }

  // ----- the map, entry by entry -----

  function KnownAs(a: Authorship, format: int -> string): Commit {
    Commit(a.author, format(a.seconds))
  }

  function InfoFor(hash: string, commit: Commit): BlameInfo {
    match InfoOf(hash, commit)
    case Err(_) => BlameInfo("", "", "")
    case Ok(info) => info
  }

  // What is said of an ASCII hash.
  lemma InfoOfAscii(hash: string, commit: Commit)
    requires forall i | 0 <= i < |hash| :: hash[i] as int < 0x80
    ensures InfoOf(hash, commit) == Ok(InfoFor(hash, commit))
    ensures InfoFor(hash, commit).commitHash == (if |hash| < 8 then hash else hash[..8])
    ensures InfoFor(hash, commit).author == (if hash == ZERO_HASH then "Uncommitted" else commit.author)
    ensures InfoFor(hash, commit).timestamp == (if hash == ZERO_HASH then "now" else commit.timestamp)
  {
    hide FirstBytes;
    FirstBytesOfAscii(hash, 8);
    assert |hash| == 8 ==> hash[..8] == hash;
  }

  lemma HashIsAscii(e: Entry)
    requires WellFormedEntry(e)
    ensures forall i | 0 <= i < |e.hash| :: e.hash[i] as int < 0x80
  {
  }

  function Recorded(es: seq<Entry>, commits: map<string, Authorship>, result: BlameMap, format: int -> string): BlameMap {
    if es == [] then result
    else
      var e := es[0];
      var a := if e.hash in commits then commits[e.hash] else Authorship("", 0);
      Recorded(es[1..], commits, result[e.finalLine := InfoFor(e.hash, KnownAs(a, format))], format)
  }

  lemma {:induction false} RecordedKeys(es: seq<Entry>, commits: map<string, Authorship>, result: BlameMap, format: int -> string)
    ensures forall n :: n in Recorded(es, commits, result, format) <==> n in result || exists i | 0 <= i < |es| :: es[i].finalLine == n
  {
    hide InfoFor;
    if es == [] {
    } else {
      var e := es[0];
      var a := if e.hash in commits then commits[e.hash] else Authorship("", 0);
      RecordedKeys(es[1..], commits, result[e.finalLine := InfoFor(e.hash, KnownAs(a, format))], format);
      assert forall i | 0 <= i < |es| - 1 :: es[1..][i] == es[i + 1];
    }
  }

  // An entry whose line is not mentioned again leaves its mark.
  lemma {:induction false} RecordedStays(es: seq<Entry>, commits: map<string, Authorship>, result: BlameMap, format: int -> string, n: nat)
    requires n in result && forall i | 0 <= i < |es| :: es[i].finalLine != n
    ensures n in Recorded(es, commits, result, format) && Recorded(es, commits, result, format)[n] == result[n]
  {
    hide InfoFor;
    if es == [] {
    } else {
      var e := es[0];
      var a := if e.hash in commits then commits[e.hash] else Authorship("", 0);
      RecordedStays(es[1..], commits, result[e.finalLine := InfoFor(e.hash, KnownAs(a, format))], format, n);
    }
  }

  lemma {:induction false} RecordedValue(es: seq<Entry>, commits: map<string, Authorship>, result: BlameMap, format: int -> string, i: nat,
                                         seen: set<string>)
    requires WellFormed(es, commits, seen) && i < |es| && IsLast(es, i)
    ensures var m, e := Recorded(es, commits, result, format), es[i];
            e.hash in commits && e.finalLine in m && BlamedOn(m[e.finalLine], e.hash, commits[e.hash], format)
  {
    hide Describes, WellFormedEntry, InfoFor, InfoOf;
    var e := es[0];
    var a := commits[e.hash];
    HashIsAscii(e);
    InfoOfAscii(e.hash, KnownAs(a, format));
    var next := result[e.finalLine := InfoFor(e.hash, KnownAs(a, format))];
    if i == 0 {
      assert forall j | 0 <= j < |es| - 1 :: es[1..][j] == es[j + 1];
      RecordedStays(es[1..], commits, next, format, e.finalLine);
    } else {
      assert forall j | 0 <= j < |es| - 1 :: es[1..][j] == es[j + 1];
      RecordedValue(es[1..], commits, next, format, i - 1, seen + {e.hash});
    }
  }

  lemma {:induction false} RecordedAlike(es: seq<Entry>, fs: seq<Entry>, commits: map<string, Authorship>, result: BlameMap, format: int -> string)
    requires |es| == |fs| && forall i | 0 <= i < |es| :: es[i].hash == fs[i].hash && es[i].finalLine == fs[i].finalLine
    ensures Recorded(es, commits, result, format) == Recorded(fs, commits, result, format)
  {
    hide InfoFor;
    if es == [] {
    } else {
      var e := es[0];
      var a := if e.hash in commits then commits[e.hash] else Authorship("", 0);
      RecordedAlike(es[1..], fs[1..], commits, result[e.finalLine := InfoFor(e.hash, KnownAs(a, format))], format);
    }
  }

  // ----- reading the lines of entries -----

  // The lines of an entry as they are read.
  function ReadLines(e: Entry): seq<string> {
    [HeaderLine(e)] + e.meta + [Chomp("\t" + e.code)]
  }

  function ReadListing(es: seq<Entry>): seq<string> {
    if es == [] then [] else ReadLines(es[0]) + ReadListing(es[1..])
  }

  ghost predicate Agree(known: map<string, Commit>, commits: map<string, Authorship>, format: int -> string) {
    forall h | h in known :: h in commits && known[h] == KnownAs(commits[h], format)
  }

  lemma {:induction false} EntriesAreRead(lines: seq<string>, i: nat, es: seq<Entry>, commits: map<string, Authorship>,
                                          known: map<string, Commit>, result: BlameMap, format: int -> string)
    requires i <= |lines| && lines[i..] == ReadListing(es)
    requires WellFormed(es, commits, known.Keys) && Agree(known, commits, format)
    ensures ParseFrom(lines, i, known, result, format) == Ok(Recorded(es, commits, result, format))
    decreases |es|
  {
    hide ReadHeader, MetaCount, Described, InfoOf, InfoFor, Describes, WellFormedEntry, ReadLines, ParseFrom;
    if es == [] {
      NothingToRead(lines, i, known, result, format);
    } else {
      var e := es[0];
      var a := commits[e.hash];
      EntryIsRead(lines, i, e, ReadListing(es[1..]));
      HashIsAscii(e);
      InfoOfAscii(e.hash, KnownAs(a, format));
      var code := i + 1 + |e.meta|;
      if e.hash !in known {
        MetaIsRead(e.meta, a, format);
      }
      var more := known[e.hash := KnownAs(a, format)];
      assert more.Keys == known.Keys + {e.hash};
      OneEntry(lines, i, Header(e.hash, e.finalLine), KnownAs(a, format), InfoFor(e.hash, KnownAs(a, format)), known, result, format);
      EntriesAreRead(lines, code + 1, es[1..], commits, more, result[e.finalLine := InfoFor(e.hash, KnownAs(a, format))], format);
    }
  }

  lemma NothingToRead(lines: seq<string>, i: nat, known: map<string, Commit>, result: BlameMap, format: int -> string)
    requires i <= |lines| && lines[i..] == []
    ensures ParseFrom(lines, i, known, result, format) == Ok(result)
  {
  }

  // One round of the parser.
  lemma OneEntry(lines: seq<string>, i: nat, h: Header, commit: Commit, info: BlameInfo, known: map<string, Commit>,
                 result: BlameMap, format: int -> string)
    requires i < |lines| && ReadHeader(lines[i]) == Some(h) && InfoOf(h.hash, commit) == Ok(info)
    requires var code := i + 1 + MetaCount(lines[i + 1..]);
             commit == if h.hash in known then known[h.hash] else Described(lines[i + 1..code], format)
    ensures var code := i + 1 + MetaCount(lines[i + 1..]);
            ParseFrom(lines, i, known, result, format)
            == ParseFrom(lines, code + 1, known[h.hash := commit], result[h.finalLine := info], format)
  {
    hide ReadHeader, MetaCount, Described, InfoOf;
  }

  lemma EntryIsRead(lines: seq<string>, i: nat, e: Entry, rest: seq<string>)
    requires i <= |lines| && lines[i..] == ReadLines(e) + rest && WellFormedEntry(e)
    ensures var code := i + 1 + |e.meta|;
            && code < |lines|
            && ReadHeader(lines[i]) == Some(Header(e.hash, e.finalLine))
            && MetaCount(lines[i + 1..]) == |e.meta|
            && lines[i + 1..code] == e.meta
            && lines[code + 1..] == rest
  {
    hide ReadHeader, MetaCount, HeaderLine, Chomp, WellFormedEntry;
    var code := Chomp("\t" + e.code);
    var all := ReadLines(e) + rest;
    var n := |e.meta|;
    assert all == [HeaderLine(e)] + (e.meta + ([code] + rest));
    Sections(lines, i, HeaderLine(e), e.meta, code, rest);
    HeaderIsRead(e);
    CodeIsCode(e.code);
    MetaIsPlain(e);
    MetaIsCounted(e.meta, code, rest);
  }

  lemma MetaIsPlain(e: Entry)
    requires WellFormedEntry(e)
    ensures forall line | line in e.meta :: PlainLine(line)
  {
  }

  lemma Sections(lines: seq<string>, i: nat, header: string, meta: seq<string>, code: string, rest: seq<string>)
    requires i <= |lines| && lines[i..] == [header] + (meta + ([code] + rest))
    ensures i + 1 + |meta| < |lines|
    ensures lines[i] == header && lines[i + 1..] == meta + ([code] + rest)
    ensures lines[i + 1..i + 1 + |meta|] == meta && lines[i + 2 + |meta|..] == rest
  {
    var tail := meta + ([code] + rest);
    assert lines[i] == lines[i..][0];
    assert lines[i + 1..] == lines[i..][1..] == tail;
    assert lines[i + 1..i + 1 + |meta|] == tail[..|meta|] == meta;
    assert lines[i + 2 + |meta|..] == tail[|meta| + 1..] == rest;
  }

  lemma CodeIsCode(code: string)
    ensures IsCode(Chomp("\t" + code))
  {
    var line := "\t" + code;
    if EndsWith(line, "\r") {
      assert line[|line| - 1..][0] == '\r';
      assert line[|line| - 1] == '\r';
    }
  }

  lemma {:induction false} MetaIsCounted(meta: seq<string>, code: string, rest: seq<string>)
    requires (forall line | line in meta :: PlainLine(line)) && IsCode(code)
    ensures MetaCount(meta + ([code] + rest)) == |meta|
  {
    var all := meta + ([code] + rest);
    if meta == [] {
      assert all[0] == code;
    } else {
      assert meta[0] in meta;
      assert all[1..] == meta[1..] + ([code] + rest);
      MetaIsCounted(meta[1..], code, rest);
    }
  }

  lemma MetaIsRead(meta: seq<string>, a: Authorship, format: int -> string)
    requires Describes(meta, a)
    ensures Described(meta, format) == KnownAs(a, format)
  {
    hide Signed, AuthorIn, TimestampIn;
    AuthorIsRead(meta, a.author);
    TimeIsRead(meta, a.seconds, format);
  }

  lemma {:induction false} AuthorIsRead(meta: seq<string>, author: string)
    requires "author " + author in meta
    requires forall line | line in meta && StartsWith(line, "author ") :: line == "author " + author
    ensures AuthorIn(meta) == author
    decreases |meta|
  {
    var n := |meta| - 1;
    var line := meta[n];
    assert meta == meta[..n] + [line];
    if StartsWith(line, "author ") {
      assert line == "author " + author;
    } else {
      assert StartsWith("author " + author, "author ");
      AuthorIsRead(meta[..n], author);
    }
  }

  lemma {:induction false} TimeIsRead(meta: seq<string>, seconds: int, format: int -> string)
    requires -1 - I64_MAX <= seconds <= I64_MAX && "author-time " + Signed(seconds) in meta
    requires forall line | line in meta && StartsWith(line, "author-time ") :: line == "author-time " + Signed(seconds)
    ensures TimestampIn(meta, format) == format(seconds)
    decreases |meta|
  {
    hide Signed, ParseSigned;
    var n := |meta| - 1;
    var line := meta[n];
    assert meta == meta[..n] + [line];
    ReadSigned(seconds, I64_MAX);
    if StartsWith(line, "author-time ") {
      assert line == "author-time " + Signed(seconds);
      assert line[12..] == Signed(seconds);
    } else {
      assert StartsWith("author-time " + Signed(seconds), "author-time ");
      TimeIsRead(meta[..n], seconds, format);
    }
  }

  // ----- headers -----

  lemma DigitsAreNoWhitespace(n: nat)
    ensures NoWhitespace(Digits(n))
  {
    hide Digits;
    var s := Digits(n);
    forall i | 0 <= i < |s|
      ensures !IsWhitespace(s[i])
    {
      assert IsDigit(s[i]);
    }
  }

  lemma {:induction false} WordIsMeasured(word: string, rest: string)
    requires NoWhitespace(word) && (rest == "" || rest[0] == ' ')
    ensures WordLength(word + rest) == |word|
  {
    if word == "" {
      assert word + rest == rest;
    } else {
      WordIsMeasured(word[1..], rest);
      assert (word + rest)[1..] == word[1..] + rest;
    }
  }

  lemma FirstWord(word: string, rest: string)
    requires word != "" && NoWhitespace(word) && (rest == "" || rest[0] == ' ')
    ensures Words(word + rest) == [word] + Words(if rest == "" then "" else rest[1..])
  {
    hide WordLength;
    var all := word + rest;
    WordIsMeasured(word, rest);
    assert all[0] == word[0];
    assert all[..|word|] == word && all[|word|..] == rest;
  }

  lemma HeaderIsRead(e: Entry)
    requires WellFormedEntry(e)
    ensures ReadHeader(HeaderLine(e)) == Some(Header(e.hash, e.finalLine))
  {
    hide Words, Digits, ParseUnsigned;
    var original, final := Digits(e.originalLine), Digits(e.finalLine);
    var group := match e.groupSize case None => "" case Some(n) => " " + Digits(n);
    DigitsAreNoWhitespace(e.originalLine);
    DigitsAreNoWhitespace(e.finalLine);
    FirstWord(final, group);
    FirstWord(original, " " + (final + group));
    FirstWord(e.hash, " " + (original + (" " + (final + group))));
    assert (" " + (final + group))[1..] == final + group;
    assert (" " + (original + (" " + (final + group))))[1..] == original + (" " + (final + group));
    assert HeaderLine(e) == e.hash + (" " + (original + (" " + (final + group))));
    ReadUnsigned(e.finalLine, U64_MAX);
  }

  // ----- lines of a text -----

  lemma {:induction false} LineIsMeasured(line: string, rest: string)
    requires '\n' !in line
    ensures LineLength(line + "\n" + rest) == |line|
  {
    var all := line + "\n" + rest;
    if line == "" {
      assert all[0] == '\n';
    } else {
      assert all[1..] == line[1..] + "\n" + rest;
      LineIsMeasured(line[1..], rest);
    }
  }

  function ChompAll(lines: seq<string>): seq<string> {
    if lines == [] then [] else [Chomp(lines[0])] + ChompAll(lines[1..])
  }

  lemma {:induction false} LinesOfText(lines: seq<string>)
    requires forall line | line in lines :: '\n' !in line
    ensures Lines(Terminated(lines)) == ChompAll(lines)
  {
    hide LineLength, Chomp;
    if lines == [] {
    } else {
      var line, rest := lines[0], Terminated(lines[1..]);
      LinesOfText(lines[1..]);
      LineIsMeasured(line, rest);
      var all := line + "\n" + rest;
      assert all[..|line|] == line && all[|line| + 1..] == rest;
    }
  }

  lemma {:induction false} ChompedConcat(a: seq<string>, b: seq<string>)
    ensures ChompAll(a + b) == ChompAll(a) + ChompAll(b)
  {
    hide Chomp;
    if a == [] {
      assert a + b == b;
    } else {
      ChompedConcat(a[1..], b);
      assert (a + b)[1..] == a[1..] + b;
    }
  }

  lemma {:induction false} PlainLinesStay(lines: seq<string>)
    requires forall line | line in lines :: PlainLine(line)
    ensures ChompAll(lines) == lines
  {
    if lines == [] {
    } else {
      assert lines[0] in lines;
      PlainLinesStay(lines[1..]);
    }
  }

  lemma DigitsEndPlainly(s: string, n: nat)
    ensures Chomp(s + Digits(n)) == s + Digits(n)
  {
    hide Digits;
    var digits := Digits(n);
    var all := s + digits;
    assert all[|all| - 1] == digits[|digits| - 1] && IsDigit(digits[|digits| - 1]);
    PlainEnd(all);
  }

  lemma PlainEnd(line: string)
    requires line != "" && line[|line| - 1] != '\r'
    ensures Chomp(line) == line
  {
    assert line[|line| - 1..] == [line[|line| - 1]];
  }

  lemma HeaderIsPlain(e: Entry)
    ensures Chomp(HeaderLine(e)) == HeaderLine(e)
  {
    hide Digits, Chomp;
    var start := e.hash + " " + Digits(e.originalLine) + " ";
    match e.groupSize {
      case None =>
        DigitsEndPlainly(start, e.finalLine);
        assert HeaderLine(e) == start + Digits(e.finalLine);
      case Some(n) =>
        DigitsEndPlainly(start + Digits(e.finalLine) + " ", n);
        assert HeaderLine(e) == start + Digits(e.finalLine) + " " + Digits(n);
    }
  }

  lemma {:induction false} ListingIsRead(es: seq<Entry>, commits: map<string, Authorship>, seen: set<string>)
    requires WellFormed(es, commits, seen)
    ensures ChompAll(ListingLines(es)) == ReadListing(es)
  {
    hide ChompAll, EntryLines, ReadLines, Describes, WellFormedEntry;
    if es == [] {
      NoLines();
    } else {
      var e := es[0];
      ListingIsRead(es[1..], commits, seen + {e.hash});
      ChompedConcat(EntryLines(e), ListingLines(es[1..]));
      EntryLinesAreRead(e);
    }
  }

  lemma NoLines()
    ensures ChompAll([]) == []
  {
  }

  lemma OneLineChomped(line: string)
    ensures ChompAll([line]) == [Chomp(line)]
  {
    assert [line][1..] == [];
  }

  lemma EntryLinesAreRead(e: Entry)
    requires WellFormedEntry(e)
    ensures ChompAll(EntryLines(e)) == ReadLines(e)
  {
    hide Chomp, HeaderLine, ChompAll;
    ChompedConcat([HeaderLine(e)] + e.meta, ["\t" + e.code]);
    ChompedConcat([HeaderLine(e)], e.meta);
    PlainLinesStay(e.meta);
    OneLineChomped(HeaderLine(e));
    OneLineChomped("\t" + e.code);
    HeaderIsPlain(e);
  }

  lemma WordHasNoLineFeed(s: string)
    requires NoWhitespace(s)
    ensures '\n' !in s
  {
  }

  lemma HeaderHasNoLineFeed(e: Entry)
    requires WellFormedEntry(e)
    ensures '\n' !in HeaderLine(e)
  {
    hide Digits;
    WordHasNoLineFeed(e.hash);
    DigitsAreNoWhitespace(e.originalLine);
    WordHasNoLineFeed(Digits(e.originalLine));
    DigitsAreNoWhitespace(e.finalLine);
    WordHasNoLineFeed(Digits(e.finalLine));
    if e.groupSize.Some? {
      DigitsAreNoWhitespace(e.groupSize.value);
      WordHasNoLineFeed(Digits(e.groupSize.value));
    }
  }

  lemma {:induction false} ListingHasNoLineFeeds(es: seq<Entry>, commits: map<string, Authorship>, seen: set<string>)
    requires WellFormed(es, commits, seen)
    ensures forall line | line in ListingLines(es) :: '\n' !in line
  {
    hide HeaderLine, Describes;
    if es == [] {
    } else {
      HeaderHasNoLineFeed(es[0]);
      ListingHasNoLineFeeds(es[1..], commits, seen + {es[0].hash});
    }
  }
}
