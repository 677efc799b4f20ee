/** What a character class matches, said of the glob's own expression. */
module ClassMeanings {
  import opened Utf8
  import opened Regexes
  import opened Tokens
  import opened Compiler

  // The two bytes are an upper-case letter and its lower-case form.
  predicate CasePair(upper: byte, lower: byte) {
    'A' as int <= upper <= 'Z' as int && lower == upper + ('a' as int - 'A' as int)
  }

  // Case folding relates exactly the letters from `A` to `Z` with those from `a` to `z`.
  lemma FoldingRelatesLetters(a: byte, b: byte)
    ensures a != b && SwapCase(a) == b <==> CasePair(a, b) || CasePair(b, a)
    ensures SwapCase(a) == a <==> !(exists c: byte :: CasePair(a, c) || CasePair(c, a))
  {
    if 'A' as int <= a <= 'Z' as int {
      assert CasePair(a, a + 32);
    } else if 'a' as int <= a <= 'z' as int {
      assert CasePair(a - 32, a);
    }
  }

  // One of the bytes that are written for these ends of a range: where they differ, the dash joins the
  // last byte of lo and the first byte of hi, and the other bytes stand for themselves.
  predicate InRange(lo: char, hi: char, b: byte) {
    var l, h := EncodeChar(lo), EncodeChar(hi);
    if lo == hi then b in l
    else b in l[..|l| - 1] || l[|l| - 1] <= b <= h[0] || b in h[1..]
  }

  predicate InSomeRange(ranges: seq<(char, char)>, b: byte) {
    exists r | r in ranges :: InRange(r.0, r.1, b)
  }

  predicate InAsciiRange(ranges: seq<(char, char)>, b: int) {
    exists r | r in ranges :: r.0 as int <= b <= r.1 as int
  }

  lemma SpansConcat(a: seq<Span>, b: seq<Span>, x: byte)
    ensures InSpans(a + b, x) <==> InSpans(a, x) || InSpans(b, x)
  {
    var all := a + b;
    if i :| 0 <= i < |a| && a[i].lo <= x <= a[i].hi {
      assert all[i] == a[i];
    }
    if i :| 0 <= i < |b| && b[i].lo <= x <= b[i].hi {
      assert all[|a| + i] == b[i];
    }
  }

  lemma SpansOfBytes(bs: seq<byte>, x: byte)
    ensures InSpans(Singletons(bs), x) <==> x in bs
  {
    var spans := Singletons(bs);
    assert forall i | 0 <= i < |bs| :: spans[i] == Span(bs[i], bs[i]);
    if x in bs {
      var i :| 0 <= i < |bs| && bs[i] == x;
      assert spans[i].lo <= x <= spans[i].hi;
    }
  }

  lemma SpansOfRange(lo: char, hi: char, x: byte)
    ensures InSpans(RangeSpans(lo, hi), x) <==> InRange(lo, hi, x)
  {
    hide InSpans, Singletons;
    var l, h := EncodeChar(lo), EncodeChar(hi);
    SpansOfBytes(l, x);
    if lo != hi {
      var joined := [Span(l[|l| - 1], h[0])];
      SpansOfBytes(l[..|l| - 1], x);
      SpansOfBytes(h[1..], x);
      SpansConcat(Singletons(l[..|l| - 1]), joined, x);
      SpansConcat(Singletons(l[..|l| - 1]) + joined, Singletons(h[1..]), x);
      OneSpan(joined[0], x);
    }
  }

  lemma OneSpan(s: Span, x: byte)
    ensures InSpans([s], x) <==> s.lo <= x <= s.hi
  {
    assert [s][0] == s;
  }

  lemma {:induction false} SpansOfRanges(ranges: seq<(char, char)>, x: byte)
    ensures InSpans(ClassSpans(ranges), x) <==> InSomeRange(ranges, x)
  {
    hide InSpans, RangeSpans, InRange;
    if ranges == [] {
      NoSpans(x);
    } else {
      var r, rest := ranges[0], ranges[1..];
      SpansOfRanges(rest, x);
      SpansOfRange(r.0, r.1, x);
      SpansConcat(RangeSpans(r.0, r.1), ClassSpans(rest), x);
      assert ranges == [r] + rest;
    }
  }

  lemma NoSpans(x: byte)
    ensures !InSpans([], x)
  {
  }

  // A class matches one byte: one that is in a range, itself or in its other case where case does not
  // matter, unless the class is negated.
  lemma ClassMatches(glob: string, opts: GlobOptions, negated: bool, ranges: seq<(char, char)>, path: seq<byte>)
    ensures GlobMatches(Glob(glob, opts, [Class(negated, ranges)]), path) <==>
            && |path| == 1
            && (InSomeRange(ranges, path[0])
                || (opts.caseInsensitive && exists c: byte :: (CasePair(path[0], c) || CasePair(c, path[0])) && InSomeRange(ranges, c)))
               != negated
  {
    hide InSpans, InSomeRange, ClassSpans;
    var t := Class(negated, ranges);
    assert CompileToken(t, opts) + Compile([], opts) == CompileToken(t, opts);
    assert [t][1..] == [];
    SingleItem(One(Bracket(negated, ClassSpans(ranges))), opts.caseInsensitive, path);
    if |path| == 1 {
      var b := path[0];
      SpansOfRanges(ranges, b);
      SpansOfRanges(ranges, SwapCase(b));
      FoldingRelatesLetters(b, SwapCase(b));
      forall c: byte | CasePair(b, c) || CasePair(c, b)
        ensures c == SwapCase(b)
      {
        FoldingRelatesLetters(b, c);
      }
    }
  }

  lemma AsciiRange(lo: char, hi: char, b: byte)
    requires lo as int < 0x80 && hi as int < 0x80
    ensures InRange(lo, hi, b) <==> lo as int <= b <= hi as int
  {
  }

  // Of ASCII characters a range holds exactly those from its lower to its upper end.
  lemma AsciiClassMatches(glob: string, opts: GlobOptions, negated: bool, ranges: seq<(char, char)>, path: seq<byte>)
    requires forall r | r in ranges :: r.0 as int < 0x80 && r.1 as int < 0x80
    ensures GlobMatches(Glob(glob, opts, [Class(negated, ranges)]), path) <==>
            && |path| == 1
            && (InAsciiRange(ranges, path[0])
                || (opts.caseInsensitive
                    && (('A' as int <= path[0] <= 'Z' as int && InAsciiRange(ranges, path[0] + 32))
                        || ('a' as int <= path[0] <= 'z' as int && InAsciiRange(ranges, path[0] - 32)))))
               != negated
  {
    hide GlobMatches, InRange;
    ClassMatches(glob, opts, negated, ranges, path);
    forall r, b: byte | r in ranges
      ensures InRange(r.0, r.1, b) <==> r.0 as int <= b <= r.1 as int
    {
      AsciiRange(r.0, r.1, b);
    }
    assert forall b: byte :: InSomeRange(ranges, b) <==> InAsciiRange(ranges, b);
    if |path| == 1 {
      var b := path[0];
      if 'A' as int <= b <= 'Z' as int {
        assert CasePair(b, b + 32);
      }
      if 'a' as int <= b <= 'z' as int {
        assert CasePair(b - 32, b);
      }
    }
  }
}
