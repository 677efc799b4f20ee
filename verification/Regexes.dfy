/**
 The regular expressions that a glob is compiled to, as a syntax tree with a recursively defined
 meaning. Only the constructs that the glob compiler emits are present. All expressions are
 anchored on both ends and work on bytes, with `.` matching every byte.
 */
module Regexes {
  import opened Utf8
  import opened Text

  // An inclusive range of bytes inside a bracketed class.
  datatype Span = Span(lo: byte, hi: byte)

  // What consumes exactly one byte: an (escaped) literal, `.` or a bracketed class.
  datatype ByteSet =
    | Exactly(b: byte)
    | AnyByte
    | Bracket(negated: bool, spans: seq<Span>)

  datatype Item =
    | One(set_: ByteSet)
    | Star(set_: ByteSet)
    | Maybe(set_: ByteSet)
    | Group(branches: seq<Branch>)

  // One side of an alternation.
  datatype Branch = Branch(re: seq<Item>)

  // Concatenation; the empty sequence is the empty expression.
  type Regex = seq<Item>

  const NOT_SLASH := Bracket(true, [Span(SLASH, SLASH)])

  predicate IsUpper(b: byte) { 0x41 <= b <= 0x5A }

  predicate IsLower(b: byte) { 0x61 <= b <= 0x7A }

  // The other member of b's simple case-folding class; outside Unicode mode only ASCII letters fold.
  function SwapCase(b: byte): byte {
    if IsUpper(b) then b + 0x20 else if IsLower(b) then b - 0x20 else b
  }

  predicate InSpans(spans: seq<Span>, b: byte) {
    exists i | 0 <= i < |spans| :: spans[i].lo <= b <= spans[i].hi
  }

  // `ci` is the flag `(?i)`: a class is closed under case folding before it is negated.
  predicate Holds(set_: ByteSet, ci: bool, b: byte) {
    match set_
    case Exactly(e) => b == e || (ci && SwapCase(b) == e)
    case AnyByte => true
    case Bracket(negated, spans) => (InSpans(spans, b) || (ci && InSpans(spans, SwapCase(b)))) != negated
  }

  predicate AllHold(set_: ByteSet, ci: bool, w: seq<byte>) {
    forall i | 0 <= i < |w| :: Holds(set_, ci, w[i])
  }

  // re matches all of s: the first item takes some first k bytes and the others take the rest.
  predicate Matches(re: Regex, ci: bool, s: seq<byte>)
    decreases re
  {
    if re == [] then s == []
    else exists k | 0 <= k <= |s| :: ItemMatches(re[0], ci, s[..k]) && Matches(re[1..], ci, s[k..])
  }

  predicate ItemMatches(it: Item, ci: bool, w: seq<byte>)
    decreases it
  {
    match it
    case One(c) => |w| == 1 && Holds(c, ci, w[0])
    case Star(c) => AllHold(c, ci, w)
    case Maybe(c) => w == [] || (|w| == 1 && Holds(c, ci, w[0]))
    case Group(branches) => exists j | 0 <= j < |branches| :: Matches(branches[j].re, ci, w)
  }

  // The first item of re takes the first k bytes of s and the others take the rest.
  ghost predicate Splits(re: Regex, ci: bool, s: seq<byte>, k: int)
    requires re != []
  {
    0 <= k <= |s| && ItemMatches(re[0], ci, s[..k]) && Matches(re[1..], ci, s[k..])
  }

  lemma MatchSplits(re: Regex, ci: bool, s: seq<byte>)
    requires re != []
    ensures Matches(re, ci, s) <==> exists k :: Splits(re, ci, s, k)
  {
    if Matches(re, ci, s) {
      var k :| 0 <= k <= |s| && ItemMatches(re[0], ci, s[..k]) && Matches(re[1..], ci, s[k..]);
      assert Splits(re, ci, s, k);
    }
  }

  // An expression together with its flag, as it is compiled.
  datatype Pattern = Pattern(re: Regex, caseInsensitive: bool)

  predicate PatternMatches(p: Pattern, s: seq<byte>) {
    Matches(p.re, p.caseInsensitive, s)
  }

  lemma {:induction false} SingleItem(it: Item, ci: bool, s: seq<byte>)
    ensures Matches([it], ci, s) <==> ItemMatches(it, ci, s)
  {
    assert s[..|s|] == s;
    MatchSplits([it], ci, s);
    if ItemMatches(it, ci, s) {
      assert Splits([it], ci, s, |s|);
    }
    if Matches([it], ci, s) {
      var k :| Splits([it], ci, s, k);
      assert Matches([], ci, s[k..]);
    }
  }

  // A way to cut s for the concatenation a + b.
  ghost predicate Cuts(a: Regex, b: Regex, ci: bool, s: seq<byte>, k: int) {
    0 <= k <= |s| && Matches(a, ci, s[..k]) && Matches(b, ci, s[k..])
  }

  lemma {:induction false} MatchConcat(a: Regex, b: Regex, ci: bool, s: seq<byte>)
    ensures Matches(a + b, ci, s) <==> exists k :: Cuts(a, b, ci, s, k)
  {
    hide Matches, ItemMatches;
    if a == [] {
      NothingThen(b, ci, s);
    } else {
      assert (a + b)[0] == a[0] && (a + b)[1..] == a[1..] + b;
      if Matches(a + b, ci, s) {
        MatchSplits(a + b, ci, s);
        var i :| Splits(a + b, ci, s, i);
        MatchConcat(a[1..], b, ci, s[i..]);
        var k :| Cuts(a[1..], b, ci, s[i..], k);
        CutLater(a, b, ci, s, i, k);
      }
      if exists k :: Cuts(a, b, ci, s, k) {
        var k :| Cuts(a, b, ci, s, k);
        MatchSplits(a, ci, s[..k]);
        var i :| Splits(a, ci, s[..k], i);
        CutEarlier(a, b, ci, s, i, k);
        MatchConcat(a[1..], b, ci, s[i..]);
        MatchSplits(a + b, ci, s);
        assert Splits(a + b, ci, s, i);
      }
    }
  }

  lemma NothingThen(b: Regex, ci: bool, s: seq<byte>)
    ensures Matches([] + b, ci, s) <==> exists k :: Cuts([], b, ci, s, k)
  {
    assert [] + b == b;
    if Matches(b, ci, s) {
      assert s[0..] == s && s[..0] == [];
      assert Cuts([], b, ci, s, 0);
    }
    if k :| Cuts([], b, ci, s, k) {
      assert s[..k] == [] && s[k..] == s;
    }
  }

  lemma CutLater(a: Regex, b: Regex, ci: bool, s: seq<byte>, i: int, k: int)
    requires a != [] && 0 <= i <= |s| && ItemMatches(a[0], ci, s[..i])
    requires Cuts(a[1..], b, ci, s[i..], k)
    ensures Cuts(a, b, ci, s, i + k)
  {
    var t := s[..i + k];
    hide Matches, ItemMatches;
    CutTwice(s, i, i + k);
    MatchSplits(a, ci, t);
    assert Splits(a, ci, t, i);
  }

  lemma CutEarlier(a: Regex, b: Regex, ci: bool, s: seq<byte>, i: int, k: int)
    requires a != [] && Cuts(a, b, ci, s, k) && Splits(a, ci, s[..k], i)
    ensures 0 <= i <= k && ItemMatches(a[0], ci, s[..i]) && Cuts(a[1..], b, ci, s[i..], k - i)
  {
    hide Matches, ItemMatches;
    CutTwice(s, i, k);
  }
}
