/** What single lines and entries of git blame output come to, text by text. */
module BlameMeanings {
  import opened Wrappers
  import opened Text
  import opened Decimals
  import opened Blame
  import opened BlameListings

  // ----- lines and words -----

  // Lines end in a line feed, or in a carriage return and a line feed; the last one need not end.
  lemma LinesAreCut(line: string, rest: string)
    requires '\n' !in line
    ensures Lines("") == []
    ensures line != "" ==> Lines(line) == [line]
    ensures Lines(line + "\r\n" + rest) == [line] + Lines(rest)
    ensures line == "" || line[|line| - 1] != '\r' ==> Lines(line + "\n" + rest) == [line] + Lines(rest)
  {
    hide Lines, LineLength;
    NoText();
    if line != "" {
      LastLineIs(line);
    }
    FirstLineIs(line + "\r", rest);
    assert line + "\r" + "\n" + rest == line + "\r\n" + rest;
    assert (line + "\r")[|line|..] == "\r" && (line + "\r")[..|line|] == line;
    FirstLineIs(line, rest);
    if line != "" && line[|line| - 1] != '\r' {
      PlainEnd(line);
    }
  }

  lemma NoText()
    ensures Lines("") == []
  {
  }

  lemma LastLineIs(line: string)
    requires '\n' !in line && line != ""
    ensures Lines(line) == [line]
  {
  }

  lemma FirstLineIs(line: string, rest: string)
    requires '\n' !in line
    ensures Lines(line + "\n" + rest) == [Chomp(line)] + Lines(rest)
  {
    hide LineLength, Chomp;
    var all := line + "\n" + rest;
    LineIsMeasured(line, rest);
    assert all[..|line|] == line && all[|line| + 1..] == rest;
  }

  // Words are what lies between whitespace of any kind and amount.
  lemma WordsAreCut(word: string, c: char, rest: string)
    requires word != "" && NoWhitespace(word) && IsWhitespace(c)
    ensures Words([c] + rest) == Words(rest)
    ensures Words(word) == [word] && Words(word + [c] + rest) == [word] + Words(rest)
  {
    FirstOf(c, rest);
    AnyWord(word, "");
    assert word + "" == word;
    AnyWord(word, [c] + rest);
    assert word + [c] + rest == word + ([c] + rest);
  }

  lemma {:induction false} AnyWordIsMeasured(word: string, rest: string)
    requires NoWhitespace(word) && (rest == "" || IsWhitespace(rest[0]))
    ensures WordLength(word + rest) == |word|
  {
    if word == "" {
      assert word + rest == rest;
    } else {
      AnyWordIsMeasured(word[1..], rest);
      assert (word + rest)[1..] == word[1..] + rest;
    }
  }

  lemma AnyWord(word: string, rest: string)
    requires word != "" && NoWhitespace(word) && (rest == "" || IsWhitespace(rest[0]))
    ensures Words(word + rest) == [word] + Words(rest)
  {
    hide WordLength;
    AnyWordIsMeasured(word, rest);
    assert (word + rest)[0] == word[0] && (word + rest)[..|word|] == word && (word + rest)[|word|..] == rest;
  }

  // A header has at least three words, the third of which is a number of 64 bits.
  lemma HeadersAre(hash: string, original: string, n: nat)
    requires hash != "" && NoWhitespace(hash) && original != "" && NoWhitespace(original)
    ensures ReadHeader(hash + " " + original + " " + Digits(n))
         == if n <= 18446744073709551615 then Some(Header(hash, n)) else None
    ensures ReadHeader(hash + " " + original) == None && ReadHeader(hash) == None && ReadHeader("") == None
  {
    hide Words, Digits, ParseUnsigned, NoWhitespace;
    var number := Digits(n);
    DigitsAreNoWhitespace(n);
    WordsAreCut(number, ' ', "");
    WordsAreCut(original, ' ', number);
    WordsAreCut(original, ' ', "");
    WordsAreCut(hash, ' ', original + [' '] + number);
    WordsAreCut(hash, ' ', original);
    assert hash + " " + original + " " + number == hash + [' '] + (original + [' '] + number);
    assert hash + " " + original == hash + [' '] + original;
    ReadUnsigned(n, U64_MAX);
    NoWords();
  }

  lemma NoWords()
    ensures Words("") == []
  {
  }

  // A number may have a plus sign in front.
  lemma PlusSign(n: nat, max: nat)
    ensures ParseUnsigned("+" + Digits(n), max) == ParseUnsigned(Digits(n), max) == if n <= max then Some(n) else None
  {
    hide Digits, Value;
    ReadUnsigned(n, max);
    assert ("+" + Digits(n))[1..] == Digits(n);
    assert IsDigit(Digits(n)[0]);
  }

  // ----- what describes a commit -----

  // The author named last, whatever is said besides.
  lemma {:induction false} LastAuthor(meta: seq<string>, k: nat, author: string, format: int -> string)
    requires k < |meta| && meta[k] == "author " + author
    requires forall j | k < j < |meta| :: !("author " <= meta[j])
    ensures Described(meta, format).author == author
    decreases |meta|
  {
    var n := |meta| - 1;
    if k == n {
      assert meta[n][7..] == author;
    } else {
      LastAuthor(meta[..n], k, author, format);
    }
  }

  lemma {:induction false} NoAuthor(meta: seq<string>, format: int -> string)
    requires forall j | 0 <= j < |meta| :: !("author " <= meta[j])
    ensures Described(meta, format).author == "Unknown"
    decreases |meta|
  {
    if meta != [] {
      NoAuthor(meta[..|meta| - 1], format);
    }
  }

  // A time is readable if it is an integer of 64 bits, which may have a minus sign.
  lemma ReadableTimes(n: nat)
    ensures TimeOf("author-time " + Digits(n)) == if n <= 9223372036854775807 then Some(n) else None
    ensures TimeOf("author-time -" + Digits(n)) == if n <= 9223372036854775808 then Some(0 - n) else None
  {
    hide Digits, ParseSigned;
    var plain, minus := "author-time " + Digits(n), "author-time -" + Digits(n);
    assert plain[12..] == Digits(n) && minus[12..] == "-" + Digits(n);
    SignIsRead(n);
  }

  lemma SignIsRead(n: nat)
    ensures ParseSigned(Digits(n), I64_MAX) == if n <= I64_MAX then Some(n) else None
    ensures ParseSigned("-" + Digits(n), I64_MAX) == if n <= I64_MAX + 1 then Some(0 - n) else None
  {
    hide Digits, Value, ParseUnsigned;
    assert IsDigit(Digits(n)[0]);
    ReadUnsigned(n, I64_MAX);
    assert ("-" + Digits(n))[1..] == Digits(n);
    ValueOfDigits(n);
  }

  lemma {:induction false} LastTime(meta: seq<string>, k: nat, format: int -> string)
    requires k < |meta| && TimeOf(meta[k]).Some? && forall j | k < j < |meta| :: TimeOf(meta[j]).None?
    ensures Described(meta, format).timestamp == format(TimeOf(meta[k]).value)
    decreases |meta|
  {
    hide TimeOf, AuthorIn;
    var n := |meta| - 1;
    if k < n {
      LastTime(meta[..n], k, format);
    }
  }

  lemma {:induction false} NoTime(meta: seq<string>, format: int -> string)
    requires forall j | 0 <= j < |meta| :: TimeOf(meta[j]).None?
    ensures Described(meta, format).timestamp == ""
    decreases |meta|
  {
    hide TimeOf, AuthorIn;
    if meta != [] {
      NoTime(meta[..|meta| - 1], format);
    }
  }

  // ----- one entry -----

  // Forty zeros stand for what is not committed yet.
  lemma ZerosAreUncommitted(hash: string)
    ensures hash == ZERO_HASH <==> |hash| == 40 && forall i | 0 <= i < |hash| :: hash[i] == '0'
  {
    if |hash| == 40 && forall i | 0 <= i < |hash| :: hash[i] == '0' {
      assert forall i | 0 <= i < |hash| :: ZERO_HASH[i] == '0';
    }
  }

  lemma InfoIs(e: Entry, commit: Commit)
    requires WellFormedEntry(e)
    ensures var uncommitted := |e.hash| == 40 && forall i | 0 <= i < |e.hash| :: e.hash[i] == '0';
            var info := BlameInfo(if |e.hash| < 8 then e.hash else e.hash[..8],
                                  if uncommitted then "Uncommitted" else commit.author,
                                  if uncommitted then "now" else commit.timestamp);
            InfoOf(e.hash, commit) == Ok(InfoFor(e.hash, commit)) && InfoFor(e.hash, commit) == info
  {
    hide InfoOf, InfoFor, WellFormedEntry;
    HashIsAscii(e);
    InfoOfAscii(e.hash, commit);
    ZerosAreUncommitted(e.hash);
  }

  // An entry alone gives its final line its commit: the first eight characters of the hash, with the
  // author and the time, or as uncommitted.
  lemma {:induction false} OneEntryIsRead(e: Entry, format: int -> string)
    requires WellFormedEntry(e)
    ensures var uncommitted := |e.hash| == 40 && forall i | 0 <= i < |e.hash| :: e.hash[i] == '0';
            var commit := Described(e.meta, format);
            Parsed(Terminated(EntryLines(e)), format)
            == Ok(map[e.finalLine := BlameInfo(if |e.hash| < 8 then e.hash else e.hash[..8],
                                               if uncommitted then "Uncommitted" else commit.author,
                                               if uncommitted then "now" else commit.timestamp)])
  {
    hide Lines, Terminated, ParseFrom, InfoOf, InfoFor, Described, WellFormedEntry, ReadHeader, MetaCount, EntryLines;
    var lines := Lines(Terminated(EntryLines(e)));
    LinesOfEntry(e, lines);
    var commit := Described(e.meta, format);
    InfoIs(e, commit);
    var known: map<string, Commit>, result: BlameMap := map[], map[];
    OneEntry(lines, 0, Header(e.hash, e.finalLine), commit, InfoFor(e.hash, commit), known, result, format);
    NothingToRead(lines, |e.meta| + 2, known[e.hash := commit], result[e.finalLine := InfoFor(e.hash, commit)], format);
  }

  lemma LinesOfEntry(e: Entry, lines: seq<string>)
    requires WellFormedEntry(e) && lines == Lines(Terminated(EntryLines(e)))
    ensures |lines| == |e.meta| + 2 && ReadHeader(lines[0]) == Some(Header(e.hash, e.finalLine))
    ensures MetaCount(lines[1..]) == |e.meta| && lines[1..|e.meta| + 1] == e.meta
  {
    hide Lines, Terminated, WellFormedEntry, ReadHeader, MetaCount, EntryLines, ReadLines, ChompAll;
    EntryHasNoLineFeeds(e);
    LinesOfText(EntryLines(e));
    EntryLinesAreRead(e);
    assert lines[0..] == ReadLines(e) + [];
    EntryIsRead(lines, 0, e, []);
  }

  lemma EntryHasNoLineFeeds(e: Entry)
    requires WellFormedEntry(e)
    ensures forall line | line in EntryLines(e) :: '\n' !in line
  {
    hide HeaderLine;
    HeaderHasNoLineFeed(e);
  }
}
