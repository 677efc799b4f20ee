/** Reading the output of git blame in its porcelain format (git-blame(1), section THE PORCELAIN FORMAT). */
module Blame {
  import opened Wrappers
  import opened Utf8
  import opened Text
  import opened Decimals

  datatype BlameInfo = BlameInfo(commitHash: string, author: string, timestamp: string)

  // A panic of the source: a hash cut in the middle of a character.
  datatype Panic = CutInsideCharacter(hash: string)

  // What is known of a commit.
  datatype Commit = Commit(author: string, timestamp: string)

  type BlameMap = map<nat, BlameInfo>

  const ZERO_HASH := "0000000000000000000000000000000000000000"

  // ----- lines and words -----

  function Chomp(line: string): string {
    if EndsWith(line, "\r") then line[..|line| - 1] else line
  }

  // The position of the first line feed, or the length.
  function LineLength(s: string): (n: nat)
    ensures n <= |s| && '\n' !in s[..n]
    ensures n < |s| ==> s[n] == '\n'
  {
    if s == "" || s[0] == '\n' then 0
    else
      assert s[..1 + LineLength(s[1..])] == [s[0]] + s[1..][..LineLength(s[1..])];
      1 + LineLength(s[1..])
  }

  function Lines(s: string): seq<string> {
    if s == "" then []
    else
      var n := LineLength(s);
      if n == |s| then [s] else [Chomp(s[..n])] + Lines(s[n + 1..])
  }

  function WordLength(s: string): (n: nat)
    ensures n <= |s| && forall i | 0 <= i < n :: !IsWhitespace(s[i])
    ensures n < |s| ==> IsWhitespace(s[n])
  {
    if s == "" || IsWhitespace(s[0]) then 0 else 1 + WordLength(s[1..])
  }

  function Words(s: string): seq<string> {
    if s == "" then []
    else if IsWhitespace(s[0]) then Words(s[1..])
    else
      var n := WordLength(s);
      [s[..n]] + Words(s[n..])
  }

  // ----- the specification -----

  datatype Header = Header(hash: string, finalLine: nat)

  function ReadHeader(line: string): Option<Header> {
    var parts := Words(line);
    if |parts| < 3 then None
    else
      match ParseUnsigned(parts[2], U64_MAX)
      case None => None
      case Some(n) => Some(Header(parts[0], n))
  }

  predicate IsCode(line: string) {
    StartsWith(line, "\t")
  }

  // How many lines come before the line of code.
  function MetaCount(lines: seq<string>): (n: nat)
    ensures n <= |lines| && forall i | 0 <= i < n :: !IsCode(lines[i])
    ensures n < |lines| ==> IsCode(lines[n])
  {
    if lines == [] || IsCode(lines[0]) then 0 else 1 + MetaCount(lines[1..])
  }

  // The author named last.
  function AuthorIn(meta: seq<string>): string
    decreases |meta|
  {
    if meta == [] then "Unknown"
    else
      var line := meta[|meta| - 1];
      if StartsWith(line, "author ") then line[7..] else AuthorIn(meta[..|meta| - 1])
  }

  function TimeOf(line: string): Option<int> {
    if StartsWith(line, "author-time ") then ParseSigned(line[12..], I64_MAX) else None
  }

  // The readable time given last.
  function TimestampIn(meta: seq<string>, format: int -> string): string
    decreases |meta|
  {
    if meta == [] then ""
    else
      match TimeOf(meta[|meta| - 1])
      case Some(t) => format(t)
      case None => TimestampIn(meta[..|meta| - 1], format)
  }

  function Described(meta: seq<string>, format: int -> string): Commit {
    Commit(AuthorIn(meta), TimestampIn(meta, format))
  }

  // The characters that make up the first n bytes, or all if there are fewer; there are none if the
  // n-th byte is inside a character.
  function FirstBytes(s: string, n: nat): Option<string> {
    if s == "" || n == 0 then Some("")
    else if |EncodeChar(s[0])| > n then None
    else
      match FirstBytes(s[1..], n - |EncodeChar(s[0])|)
      case None => None
      case Some(rest) => Some([s[0]] + rest)
  }

  function InfoOf(hash: string, commit: Commit): Result<BlameInfo, Panic> {
    match FirstBytes(hash, 8)
    case None => Err(CutInsideCharacter(hash))
    case Some(short) =>
      if hash == ZERO_HASH then Ok(BlameInfo(short, "Uncommitted", "now"))
      else Ok(BlameInfo(short, commit.author, commit.timestamp))
  }

  // Cutting by bytes is cutting the encoding.
  lemma {:induction false} FirstBytesAreBytes(s: string, n: nat)
    requires FirstBytes(s, n).Some?
    ensures var first := FirstBytes(s, n).value;
            first <= s && Encode(first) == Encode(s)[..if n <= |Encode(s)| then n else |Encode(s)|]
  {
    hide EncodeChar;
    if s == "" || n == 0 {
    } else {
      var c, m := EncodeChar(s[0]), n - |EncodeChar(s[0])|;
      FirstBytesAreBytes(s[1..], m);
      var rest := FirstBytes(s[1..], m).value;
      assert ([s[0]] + rest)[1..] == rest;
      assert Encode(s) == c + Encode(s[1..]) && Encode([s[0]] + rest) == c + Encode(rest);
    }
  }

  // There is a cut exactly if there are no more bytes than that, or the n-th byte ends a character.
  lemma {:induction false} CutsExactly(s: string, n: nat)
    ensures FirstBytes(s, n).Some? <==> |Encode(s)| <= n || exists k: nat | k <= |s| :: |Encode(s[..k])| == n
  {
    hide EncodeChar;
    if s == "" || n == 0 {
      assert Encode(s[..0]) == [];
    } else {
      var m := |EncodeChar(s[0])|;
      forall k: nat | 0 < k <= |s|
        ensures |Encode(s[..k])| == m + |Encode(s[1..][..k - 1])|
      {
        FirstEncoded(s, k);
      }
      if m <= n {
        CutsExactly(s[1..], n - m);
        if k: nat :| k < |s| && |Encode(s[1..][..k])| == n - m {
          assert |Encode(s[..k + 1])| == n;
        }
        if k: nat :| k <= |s| && |Encode(s[..k])| == n {
          assert k > 0 && |Encode(s[1..][..k - 1])| == n - m;
        }
      }
    }
  }

  lemma FirstEncoded(s: string, k: nat)
    requires 0 < k <= |s|
    ensures Encode(s[..k]) == EncodeChar(s[0]) + Encode(s[1..][..k - 1])
  {
    hide EncodeChar;
    assert s[..k][1..] == s[1..][..k - 1];
  }

  // For a hash of ASCII characters it is cutting by characters.
  lemma {:induction false} FirstBytesOfAscii(s: string, n: nat)
    requires forall i | 0 <= i < |s| :: s[i] as int < 0x80
    ensures FirstBytes(s, n) == Some(s[..if n <= |s| then n else |s|])
  {
    if s == "" || n == 0 {
    } else {
      FirstBytesOfAscii(s[1..], n - 1);
      var m := if n <= |s| then n else |s|;
      assert [s[0]] + s[1..][..m - 1] == s[..m];
    }
  }

  // The map after the lines from i on, given the commits met and the map so far.
  function ParseFrom(lines: seq<string>, i: nat, known: map<string, Commit>, result: BlameMap, format: int -> string)
    : Result<BlameMap, Panic>
    decreases |lines| - i
  {
    if i >= |lines| then Ok(result)
    else
      match ReadHeader(lines[i])
      case None => ParseFrom(lines, i + 1, known, result, format)
      case Some(h) =>
        var code := i + 1 + MetaCount(lines[i + 1..]);
        var commit := if h.hash in known then known[h.hash] else Described(lines[i + 1..code], format);
        match InfoOf(h.hash, commit)
        case Err(panic) => Err(panic)
        case Ok(info) => ParseFrom(lines, code + 1, known[h.hash := commit], result[h.finalLine := info], format)
  }

  function Parsed(output: string, format: int -> string): Result<BlameMap, Panic> {
    ParseFrom(Lines(output), 0, map[], map[], format)
  }

  lemma NoLinesLeft(lines: seq<string>, i: nat, known: map<string, Commit>, result: BlameMap, format: int -> string)
    requires i >= |lines|
    ensures ParseFrom(lines, i, known, result, format) == Ok(result)
  {
  }

  // A line that is no header is skipped.
  lemma NoHeaderHere(lines: seq<string>, i: nat, known: map<string, Commit>, result: BlameMap, format: int -> string)
    requires i < |lines| && ReadHeader(lines[i]).None?
    ensures ParseFrom(lines, i, known, result, format) == ParseFrom(lines, i + 1, known, result, format)
  {
    hide ReadHeader;
  }

  // A header gives one more line, unless its hash is cut inside a character.
  lemma HeaderHere(lines: seq<string>, i: nat, code: nat, known: map<string, Commit>, commit: Commit, result: BlameMap,
                   format: int -> string)
    requires i < |lines| && ReadHeader(lines[i]).Some? && code == i + 1 + MetaCount(lines[i + 1..])
    requires var h := ReadHeader(lines[i]).value;
             commit == if h.hash in known then known[h.hash] else Described(lines[i + 1..code], format)
    ensures var h := ReadHeader(lines[i]).value;
            ParseFrom(lines, i, known, result, format)
            == match InfoOf(h.hash, commit)
               case Err(panic) => Err(panic)
               case Ok(info) => ParseFrom(lines, code + 1, known[h.hash := commit], result[h.finalLine := info], format)
  {
    hide ReadHeader, MetaCount, Described, InfoOf;
  }

  // ----- when parsing fails -----

  // The lines that are read as headers, in order.
  function HeaderLines(lines: seq<string>, i: nat): (at: seq<nat>)
    ensures forall k | 0 <= k < |at| :: i <= at[k] < |lines| && ReadHeader(lines[at[k]]).Some?
    decreases |lines| - i
  {
    if i >= |lines| then []
    else if ReadHeader(lines[i]).None? then HeaderLines(lines, i + 1)
    else [i] + HeaderLines(lines, i + 1 + MetaCount(lines[i + 1..]) + 1)
  }

  // The hash of such a line has no first eight bytes that are whole characters.
  predicate IsCutInside(line: string) {
    var h := ReadHeader(line);
    h.Some? && FirstBytes(h.value.hash, 8).None?
  }

  predicate SomeCutInside(lines: seq<string>, at: seq<nat>)
    requires forall k | 0 <= k < |at| :: at[k] < |lines|
  {
    exists k | 0 <= k < |at| :: IsCutInside(lines[at[k]])
  }

  lemma SomeCutFirst(lines: seq<string>, i: nat, at: seq<nat>)
    requires i < |lines| && forall k | 0 <= k < |at| :: at[k] < |lines|
    ensures SomeCutInside(lines, [i] + at) <==> IsCutInside(lines[i]) || SomeCutInside(lines, at)
  {
    hide IsCutInside;
    var all := [i] + at;
    if IsCutInside(lines[i]) {
      assert IsCutInside(lines[all[0]]);
    }
    if k :| 0 <= k < |at| && IsCutInside(lines[at[k]]) {
      assert IsCutInside(lines[all[k + 1]]);
    }
  }

  // Parsing fails exactly if it comes to a header whose hash is cut inside a character.
  lemma {:induction false} ParsingFailsIf(lines: seq<string>, i: nat, known: map<string, Commit>, result: BlameMap, format: int -> string)
    ensures ParseFrom(lines, i, known, result, format).Err? <==> SomeCutInside(lines, HeaderLines(lines, i))
    decreases |lines| - i
  {
    hide ReadHeader, MetaCount, Described, FirstBytes, ParseFrom, HeaderLines, InfoOf, SomeCutInside, IsCutInside;
    HeaderLinesFrom(lines, i);
    if i >= |lines| {
      NoLinesLeft(lines, i, known, result, format);
    } else if ReadHeader(lines[i]).None? {
      NoHeaderHere(lines, i, known, result, format);
      ParsingFailsIf(lines, i + 1, known, result, format);
    } else {
      var h, code := ReadHeader(lines[i]).value, i + 1 + MetaCount(lines[i + 1..]);
      var commit := if h.hash in known then known[h.hash] else Described(lines[i + 1..code], format);
      HeaderHere(lines, i, code, known, commit, result, format);
      SomeCutFirst(lines, i, HeaderLines(lines, code + 1));
      CutInside(lines[i], commit);
      match InfoOf(h.hash, commit)
      case Err(_) =>
      case Ok(info) => ParsingFailsIf(lines, code + 1, known[h.hash := commit], result[h.finalLine := info], format);
    }
  }

  lemma HeaderLinesFrom(lines: seq<string>, i: nat)
    ensures HeaderLines(lines, i)
         == if i >= |lines| then []
            else if ReadHeader(lines[i]).None? then HeaderLines(lines, i + 1)
            else [i] + HeaderLines(lines, i + 1 + MetaCount(lines[i + 1..]) + 1)
    ensures i >= |lines| ==> !SomeCutInside(lines, HeaderLines(lines, i))
  {
    hide ReadHeader, MetaCount;
  }

  lemma CutInside(line: string, commit: Commit)
    requires ReadHeader(line).Some?
    ensures InfoOf(ReadHeader(line).value.hash, commit).Err? <==> IsCutInside(line)
  {
    hide ReadHeader;
  }

  lemma ParsedFailsIf(output: string, format: int -> string)
    ensures Parsed(output, format).Err? <==> SomeCutInside(Lines(output), HeaderLines(Lines(output), 0))
  {
    hide Lines, ParseFrom, SomeCutInside;
    ParsingFailsIf(Lines(output), 0, map[], map[], format);
  }

  // ----- the loops -----

  method Parse(output: string, format: int -> string) returns (r: Result<BlameMap, Panic>)
    ensures r == Parsed(output, format)
  {
    hide ReadHeader, MetaCount, Described, InfoOf, Lines, ParseFrom;
    var result: BlameMap := map[];
    var commitCache: map<string, Commit> := map[];
    var lines := Lines(output);
    var i := 0;
    while i < |lines|
      invariant i <= |lines| + 1
      invariant ParseFrom(lines, i, commitCache, result, format) == ParseFrom(lines, 0, map[], map[], format)
      decreases |lines| - i
    {
      var header := ReadHeader(lines[i]);
      if header.None? {
        NoHeaderHere(lines, i, commitCache, result, format);
        i := i + 1;
        continue;
      }
      var commitHash, finalLine := header.value.hash, header.value.finalLine;
      ghost var start, known := i, commitCache;
      i := i + 1;
      var commit;
      if commitHash in commitCache {
        i := SkipToCode(lines, i);
        commit := commitCache[commitHash];
      } else {
        i, commit := ReadMetadata(lines, i, format);
        commitCache := commitCache[commitHash := commit];
      }
      assert commitCache == known[commitHash := commit];
      HeaderHere(lines, start, i, known, commit, result, format);
      var info := MakeInfo(commitHash, commit);
      if info.Err? {
        return Err(info.error);
      }
      result := result[finalLine := info.value];
      i := i + 1;
    }
    NoLinesLeft(lines, i, commitCache, result, format);
    return Ok(result);
  }

  method MakeInfo(hash: string, commit: Commit) returns (info: Result<BlameInfo, Panic>)
    ensures info == InfoOf(hash, commit)
  {
    var author, timestamp := commit.author, commit.timestamp;
    if hash == ZERO_HASH {
      author, timestamp := "Uncommitted", "now";
    }
    var short := FirstBytes(hash, 8);
    if short.None? {
      return Err(CutInsideCharacter(hash));
    }
    return Ok(BlameInfo(short.value, author, timestamp));
  }

  // A known commit: its lines up to the code are skipped.
  method SkipToCode(lines: seq<string>, start: nat) returns (i: nat)
    requires start <= |lines|
    ensures i == start + MetaCount(lines[start..])
  {
    i := start;
    while i < |lines| && !StartsWith(lines[i], "\t")
      invariant start <= i <= |lines|
      invariant start + MetaCount(lines[start..]) == i + MetaCount(lines[i..])
    {
      assert lines[i..][1..] == lines[i + 1..];
      i := i + 1;
    }
  }

  // A new commit: its lines up to the code describe it.
  method ReadMetadata(lines: seq<string>, start: nat, format: int -> string) returns (i: nat, commit: Commit)
    requires start <= |lines|
    ensures i == start + MetaCount(lines[start..])
    ensures commit == Described(lines[start..i], format)
  {
    hide MetaCount, AuthorIn, TimestampIn;
    NoMeta(format);
    assert lines[start..start] == [];
    var author, timestamp := "Unknown", "";
    i := start;
    while i < |lines|
      invariant start <= i <= |lines|
      invariant start + MetaCount(lines[start..]) == i + MetaCount(lines[i..])
      invariant Commit(author, timestamp) == Described(lines[start..i], format)
    {
      var line := lines[i];
      MetaStep(lines, i);
      LineKinds(line);
      MoreMeta(lines[start..i], line, format);
      assert lines[start..i + 1] == lines[start..i] + [line];
      if StartsWith(line, "author ") {
        author := line[7..];
      } else if StartsWith(line, "author-time ") {
        var secs := ParseSigned(line[12..], I64_MAX);
        if secs.Some? {
          timestamp := format(secs.value);
        }
      } else if StartsWith(line, "\t") {
        break;
      }
      i := i + 1;
    }
    commit := Commit(author, timestamp);
    if i == |lines| {
      NoMoreMeta(lines);
    }
  }

  lemma MetaStep(lines: seq<string>, i: nat)
    requires i < |lines|
    ensures MetaCount(lines[i..]) == if IsCode(lines[i]) then 0 else 1 + MetaCount(lines[i + 1..])
  {
    assert lines[i..][1..] == lines[i + 1..];
  }

  lemma NoMeta(format: int -> string)
    ensures Described([], format) == Commit("Unknown", "")
  {
  }

  lemma NoMoreMeta(lines: seq<string>)
    ensures MetaCount(lines[|lines|..]) == 0
  {
  }

  lemma MoreMeta(meta: seq<string>, line: string, format: int -> string)
    ensures AuthorIn(meta + [line]) == if StartsWith(line, "author ") then line[7..] else AuthorIn(meta)
    ensures TimestampIn(meta + [line], format)
         == match TimeOf(line) case Some(t) => format(t) case None => TimestampIn(meta, format)
  {
    assert (meta + [line])[..|meta|] == meta;
  }

  // A line starts in one of the three ways at most.
  lemma LineKinds(line: string)
    ensures StartsWith(line, "author ") ==> !StartsWith(line, "author-time ") && !IsCode(line)
    ensures StartsWith(line, "author-time ") ==> !IsCode(line)
  {
    if StartsWith(line, "author ") {
      assert line[0] == 'a' && line[6] == ' ';
    }
    if StartsWith(line, "author-time ") {
      assert line[0] == 'a' && line[6] == '-';
    }
  }
}
