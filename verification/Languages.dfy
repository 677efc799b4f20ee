/** Laws of the languages of token sequences, on which the other modules build. */
module Languages {
  import opened Utf8
  import opened Text
  import opened Tokens
  import opened Compiler

  // A way to cut s for the tokens a + b.
  ghost predicate LangCuts(a: seq<Token>, b: seq<Token>, opts: GlobOptions, s: seq<byte>, k: int) {
    0 <= k <= |s| && Lang(a, opts, s[..k]) && Lang(b, opts, s[k..])
  }

  lemma LangNothing(opts: GlobOptions)
    ensures Lang([], opts, [])
  {
  }

  lemma LangIsNothing(opts: GlobOptions, s: seq<byte>)
    ensures Lang([], opts, s) ==> s == []
  {
  }

  lemma {:induction false} LangCutOut(a: seq<Token>, b: seq<Token>, opts: GlobOptions, s: seq<byte>) returns (k: int)
    requires Lang(a + b, opts, s)
    ensures LangCuts(a, b, opts, s, k)
  {
    hide Lang, Denotes;
    if a == [] {
      assert a + b == b && s[..0] == [] && s[0..] == s;
      LangNothing(opts);
      k := 0;
    } else {
      assert (a + b)[0] == a[0] && (a + b)[1..] == a[1..] + b;
      LangTakes(a + b, opts, s);
      var i :| Takes(a + b, opts, s, i);
      var j := LangCutOut(a[1..], b, opts, s[i..]);
      LangCutLater(a, b, opts, s, i, j);
      k := i + j;
    }
  }

  lemma {:induction false} LangCutBack(a: seq<Token>, b: seq<Token>, opts: GlobOptions, s: seq<byte>, k: int)
    requires LangCuts(a, b, opts, s, k)
    ensures Lang(a + b, opts, s)
  {
    hide Lang, Denotes;
    if a == [] {
      LangIsNothing(opts, s[..k]);
      assert a + b == b && s[k..] == s;
    } else {
      assert (a + b)[0] == a[0] && (a + b)[1..] == a[1..] + b;
      var front := s[..k];
      LangTakes(a, opts, front);
      var i :| Takes(a, opts, front, i);
      CutTwice(s, i, k);
      LangCutBack(a[1..], b, opts, s[i..], k - i);
      LangTakes(a + b, opts, s);
      assert Takes(a + b, opts, s, i);
    }
  }

  lemma LangConcat(a: seq<Token>, b: seq<Token>, opts: GlobOptions, s: seq<byte>)
    ensures Lang(a + b, opts, s) <==> exists k :: LangCuts(a, b, opts, s, k)
  {
    if Lang(a + b, opts, s) {
      var k := LangCutOut(a, b, opts, s);
    }
    if k :| LangCuts(a, b, opts, s, k) {
      LangCutBack(a, b, opts, s, k);
    }
  }

  lemma LangCutLater(a: seq<Token>, b: seq<Token>, opts: GlobOptions, s: seq<byte>, i: int, k: int)
    requires a != [] && 0 <= i <= |s| && Denotes(a[0], opts, s[..i])
    requires LangCuts(a[1..], b, opts, s[i..], k)
    ensures LangCuts(a, b, opts, s, i + k)
  {
    hide Lang, Denotes;
    var t := s[..i + k];
    CutTwice(s, i, i + k);
    LangTakes(a, opts, t);
    assert Takes(a, opts, t, i);
  }

  // Joining two matches.
  lemma LangJoin(a: seq<Token>, b: seq<Token>, opts: GlobOptions, s: seq<byte>, t: seq<byte>)
    requires Lang(a, opts, s) && Lang(b, opts, t)
    ensures Lang(a + b, opts, s + t)
  {
    assert (s + t)[..|s|] == s && (s + t)[|s|..] == t;
    assert LangCuts(a, b, opts, s + t, |s|);
    LangConcat(a, b, opts, s + t);
  }

  lemma LangOne(t: Token, opts: GlobOptions, s: seq<byte>)
    ensures Lang([t], opts, s) <==> Denotes(t, opts, s)
  {
    assert s[..|s|] == s && s[|s|..] == [];
    assert [t][1..] == [];
    LangTakes([t], opts, s);
    if Denotes(t, opts, s) {
      assert Takes([t], opts, s, |s|);
    }
    if Lang([t], opts, s) {
      var k :| Takes([t], opts, s, k);
      assert Lang([], opts, s[k..]) ==> k == |s|;
    }
  }

  // A token in front.
  lemma LangCons(t: Token, rest: seq<Token>, opts: GlobOptions, s: seq<byte>)
    ensures Lang([t] + rest, opts, s) <==>
            exists k | 0 <= k <= |s| :: Denotes(t, opts, s[..k]) && Lang(rest, opts, s[k..])
  {
    assert ([t] + rest)[1..] == rest;
  }

  // Two sequences of tokens for the same strings may be exchanged in front of a common end ...
  lemma LangPrepend(a: seq<Token>, b: seq<Token>, pre: seq<Token>, opts: GlobOptions, s: seq<byte>)
    requires forall t :: Lang(a, opts, t) <==> Lang(b, opts, t)
    ensures Lang(pre + a, opts, s) <==> Lang(pre + b, opts, s)
  {
    LangConcat(pre, a, opts, s);
    LangConcat(pre, b, opts, s);
    if Lang(pre + a, opts, s) {
      var k :| LangCuts(pre, a, opts, s, k);
      assert LangCuts(pre, b, opts, s, k);
    }
    if Lang(pre + b, opts, s) {
      var k :| LangCuts(pre, b, opts, s, k);
      assert LangCuts(pre, a, opts, s, k);
    }
  }

  lemma SameBytesConcat(opts: GlobOptions, w: seq<byte>, a: seq<byte>, b: seq<byte>)
    ensures SameBytes(opts, w, a + b) <==> |a| <= |w| && SameBytes(opts, w[..|a|], a) && SameBytes(opts, w[|a|..], b)
  {
    hide SameByte;
    var n := |a|;
    if SameBytes(opts, w, a + b) {
      assert forall i | 0 <= i < |a| :: w[..n][i] == w[i] && (a + b)[i] == a[i];
      assert forall i | 0 <= i < |b| :: w[n..][i] == w[n + i] && (a + b)[n + i] == b[i];
    }
    if n <= |w| && SameBytes(opts, w[..n], a) && SameBytes(opts, w[n..], b) {
      forall i | 0 <= i < |w|
        ensures SameByte(opts, w[i], (a + b)[i])
      {
        if i < n {
          assert w[..n][i] == w[i];
        } else {
          assert w[n..][i - n] == w[i];
        }
      }
    }
  }

  lemma SameBytesAreEqual(opts: GlobOptions, w: seq<byte>, bs: seq<byte>)
    requires !opts.caseInsensitive
    ensures SameBytes(opts, w, bs) <==> w == bs
  {
  }

  // A plain string stands for its own bytes, up to case if that does not matter.
  lemma {:induction false} LangLiteralsAlike(lit: string, opts: GlobOptions, s: seq<byte>)
    ensures Lang(Literals(lit), opts, s) <==> SameBytes(opts, s, Encode(lit))
  {
    hide EncodeChar, SameBytes;
    if lit == "" {
      NoLiterals(opts, s);
    } else {
      var toks, first, rest := Literals(lit), EncodeChar(lit[0]), Encode(lit[1..]);
      assert toks == [Literal(lit[0])] + Literals(lit[1..]);
      hide Encode, Lang;
      LangCons(Literal(lit[0]), Literals(lit[1..]), opts, s);
      EncodeFirst(lit);
      SameBytesConcat(opts, s, first, rest);
      if SameBytes(opts, s, first + rest) {
        LangLiteralsAlike(lit[1..], opts, s[|first|..]);
      }
      if Lang(toks, opts, s) {
        var k :| 0 <= k <= |s| && Denotes(Literal(lit[0]), opts, s[..k]) && Lang(Literals(lit[1..]), opts, s[k..]);
        SameLength(opts, s[..k], first);
        LangLiteralsAlike(lit[1..], opts, s[k..]);
      }
    }
  }

  lemma NoLiterals(opts: GlobOptions, s: seq<byte>)
    ensures Lang(Literals(""), opts, s) <==> SameBytes(opts, s, Encode(""))
  {
  }

  lemma SameLength(opts: GlobOptions, w: seq<byte>, bs: seq<byte>)
    requires SameBytes(opts, w, bs)
    ensures |w| == |bs|
  {
  }

  lemma LangLiterals(lit: string, opts: GlobOptions, s: seq<byte>)
    requires !opts.caseInsensitive
    ensures Lang(Literals(lit), opts, s) <==> s == Encode(lit)
  {
    LangLiteralsAlike(lit, opts, s);
    SameBytesAreEqual(opts, s, Encode(lit));
  }

  // A plain string followed by other tokens.
  lemma LangLiteralsThen(lit: string, rest: seq<Token>, opts: GlobOptions, s: seq<byte>)
    ensures var e := Encode(lit);
            Lang(Literals(lit) + rest, opts, s) <==>
            |e| <= |s| && SameBytes(opts, s[..|e|], e) && Lang(rest, opts, s[|e|..])
  {
    hide Lang, SameBytes, Encode;
    var e := Encode(lit);
    LangConcat(Literals(lit), rest, opts, s);
    if Lang(Literals(lit) + rest, opts, s) {
      var k :| LangCuts(Literals(lit), rest, opts, s, k);
      LangLiteralsAlike(lit, opts, s[..k]);
      SameLength(opts, s[..k], e);
    }
    if |e| <= |s| && SameBytes(opts, s[..|e|], e) && Lang(rest, opts, s[|e|..]) {
      LangLiteralsAlike(lit, opts, s[..|e|]);
      assert LangCuts(Literals(lit), rest, opts, s, |e|);
    }
  }

  // Other tokens followed by a plain string.
  lemma LangThenLiterals(pre: seq<Token>, lit: string, opts: GlobOptions, s: seq<byte>)
    requires !opts.caseInsensitive
    ensures Lang(pre + Literals(lit), opts, s) <==>
            |Encode(lit)| <= |s| && s[|s| - |Encode(lit)|..] == Encode(lit) && Lang(pre, opts, s[..|s| - |Encode(lit)|])
  {
    hide Lang, Literals, Encode;
    var n := |s| - |Encode(lit)|;
    LangConcat(pre, Literals(lit), opts, s);
    if Lang(pre + Literals(lit), opts, s) {
      var k :| LangCuts(pre, Literals(lit), opts, s, k);
      LangLiterals(lit, opts, s[k..]);
      assert k == n;
    }
    if n >= 0 && s[n..] == Encode(lit) && Lang(pre, opts, s[..n]) {
      LangLiterals(lit, opts, s[n..]);
      assert LangCuts(pre, Literals(lit), opts, s, n);
    }
  }
}
