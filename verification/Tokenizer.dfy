/** strtok, section 7.21.5.8 of ISO/IEC 9899:1999: in-place tokenization by overwriting separators. */
module Tokenizer {
  import opened CStrings

  predicate Clean(s: string, delim: string) {
    forall k | 0 <= k < |s| :: s[k] !in delim
  }

  /** Length of the leading separator-free run. */
  function RunLength(s: string, delim: string): (n: nat)
    ensures n <= |s|
    ensures forall k | 0 <= k < n :: s[k] !in delim
    ensures n < |s| ==> s[n] in delim
  {
    if s == "" || s[0] in delim then 0 else RunLength(s[1..], delim) + 1
  }

  /** The tokens of a string, in order. */
  function Tokens(s: string, delim: string): seq<string>
    decreases |s|
  {
    if s == "" then []
    else if s[0] in delim then Tokens(s[1..], delim)
    else
      var n := RunLength(s, delim);
      [s[..n]] + Tokens(s[n..], delim)
  }

  lemma RunLengthIs(w: string, rest: string, delim: string)
    requires Clean(w, delim) && (rest != "" ==> rest[0] in delim)
    ensures RunLength(w + rest, delim) == |w|
  {
    assert forall k | 0 <= k < |w| :: (w + rest)[k] == w[k];
    assert rest != "" ==> (w + rest)[|w|] == rest[0];
  }

  lemma TokensOfPiece(w: string, rest: string, delim: string)
    requires Clean(w, delim) && w != "" && (rest != "" ==> rest[0] in delim)
    ensures Tokens(w + rest, delim) == [w] + Tokens(rest, delim)
  {
    RunLengthIs(w, rest, delim);
    assert (w + rest)[0] == w[0];
    assert (w + rest)[..|w|] == w && (w + rest)[|w|..] == rest;
  }

  /** A separator cuts the token list in two: with TokensOfPiece, what makes tokens the maximal pieces. */
  lemma {:induction false} TokensAtSeparator(a: string, c: char, b: string, delim: string)
    requires c in delim
    ensures Tokens(a + [c] + b, delim) == Tokens(a, delim) + Tokens(b, delim)
    decreases |a|
  {
    var s := a + [c] + b;
    if a == "" {
      assert s[1..] == b;
    } else if a[0] in delim {
      assert s[1..] == a[1..] + [c] + b;
      TokensAtSeparator(a[1..], c, b, delim);
    } else {
      var n := RunLength(a, delim);
      var w, t := a[..n], a[n..];
      assert a == w + t && s == w + (t + [c] + b);
      TokensOfPiece(w, t, delim);
      TokensOfPiece(w, t + [c] + b, delim);
      TokensAtSeparator(t, c, b, delim);
    }
  }

  /** Every token is a non-empty, separator-free piece. */
  lemma {:induction false} TokensAreClean(s: string, delim: string)
    ensures forall t | t in Tokens(s, delim) :: t != "" && Clean(t, delim)
    decreases |s|
  {
    if s == "" {
    } else {
      if s[0] in delim {
        TokensAreClean(s[1..], delim);
      } else {
        TokensAreClean(s[RunLength(s, delim)..], delim);
      }
    }
  }

  ghost predicate OnlySeparators(s: string, delim: string) {
    forall k | 0 <= k < |s| :: s[k] in delim
  }

  /** A string has no token exactly if all its characters are separators. */
  lemma {:induction false} NoTokensIff(s: string, delim: string)
    ensures Tokens(s, delim) == [] <==> OnlySeparators(s, delim)
  {
    if s == "" {
    } else if s[0] in delim {
      NoTokensIff(s[1..], delim);
      assert forall k | 1 <= k < |s| :: s[k] == s[1..][k - 1];
    } else {
      assert !OnlySeparators(s, delim);
    }
  }

  /** `w` stands at `p`, and its terminator no later than `limit`. */
  ghost predicate TokenAt(b: seq<char>, p: nat, w: string, limit: nat) {
    && p + |w| <= limit < |b|
    && (forall k | 0 <= k < |w| :: b[p + k] == w[k] && w[k] != NUL)
    && b[p + |w|] == NUL
  }

  lemma TokenIsCStr(b: seq<char>, p: nat, w: string, limit: nat)
    requires TokenAt(b, p, w, limit)
    ensures CStrAt(b, p) == w
  {
    assert b[p..p + |w|] == w;
    CStrAtIs(b, p, w);
  }

  ghost predicate SameUpTo(b: seq<char>, b': seq<char>, limit: nat) {
    |b| == |b'| && limit < |b| && forall k | 0 <= k <= limit :: b[k] == b'[k]
  }

  lemma TokenStays(b: seq<char>, b': seq<char>, p: nat, w: string, limit: nat, limit': nat)
    requires TokenAt(b, p, w, limit) && SameUpTo(b, b', limit) && limit <= limit' < |b|
    ensures TokenAt(b', p, w, limit')
  {
  }

  ghost predicate HasNul(b: seq<char>, p: nat) {
    exists k | p <= k < |b| :: b[k] == NUL
  }

  lemma {:induction false} CStrEnds(b: seq<char>, p: nat)
    requires HasNul(b, p)
    ensures p + |CStrAt(b, p)| < |b| && b[p + |CStrAt(b, p)|] == NUL
    decreases |b| - p
  {
    if b[p] != NUL {
      CStrEnds(b, p + 1);
    }
  }

  lemma {:induction false} CStrSameTail(b: seq<char>, b': seq<char>, p: nat)
    requires |b| == |b'| && forall k | p <= k < |b| :: b[k] == b'[k]
    ensures CStrAt(b, p) == CStrAt(b', p)
    decreases |b| - p
  {
    if p < |b| && b[p] != NUL {
      CStrSameTail(b, b', p + 1);
    }
  }

  /** The first loop of strtok: the token, if any, starts at `t`. */
  method SkipSeparators(buf: array<char>, from: nat, delim: string) returns (t: nat)
    requires HasNul(buf[..], from) && NUL !in delim
    ensures from <= t < buf.Length && HasNul(buf[..], t) && buf[t] !in delim
    ensures Tokens(CStrAt(buf[..], t), delim) == Tokens(CStrAt(buf[..], from), delim)
  {
    ghost var end := from + |CStrAt(buf[..], from)|;
    CStrEnds(buf[..], from);
    t := from;
    while buf[t] in delim
      invariant from <= t <= end && t + |CStrAt(buf[..], t)| == end
      invariant Tokens(CStrAt(buf[..], t), delim) == Tokens(CStrAt(buf[..], from), delim)
      decreases end - t
    {
      assert CStrAt(buf[..], t) == [buf[t]] + CStrAt(buf[..], t + 1);
      t := t + 1;
    }
    assert buf[..][end] == NUL;
  }

  /** The second loop of strtok: the token `w` that starts at `t` ends before `e`. */
  method EndOfToken(buf: array<char>, t: nat, delim: string) returns (e: nat, ghost w: string)
    requires HasNul(buf[..], t) && buf[t] != NUL && buf[t] !in delim
    ensures e < buf.Length && Piece(buf[..], t, w, e, delim)
  {
    ghost var b := buf[..];
    ghost var end := t + |CStrAt(b, t)|;
    CStrEnds(b, t);
    e, w := t, "";
    while buf[e] != NUL && buf[e] !in delim
      invariant t <= e <= end && Grown(b, t, w, e, end, delim)
      decreases end - e
    {
      Grow(b, t, w, e, end, delim);
      w := w + [buf[e]];
      e := e + 1;
    }
    assert b[end] == NUL;
  }

  ghost predicate Grown(b: seq<char>, t: nat, w: string, e: nat, end: nat, delim: string) {
    && e == t + |w| && e + |CStrAt(b, e)| == end < |b| && CStrAt(b, t) == w + CStrAt(b, e)
    && forall k | 0 <= k < |w| :: b[t + k] == w[k] && w[k] != NUL && w[k] !in delim
  }

  lemma Grow(b: seq<char>, t: nat, w: string, e: nat, end: nat, delim: string)
    requires Grown(b, t, w, e, end, delim) && b[e] != NUL && b[e] !in delim
    ensures Grown(b, t, w + [b[e]], e + 1, end, delim)
  {
    assert w + CStrAt(b, e) == w + [b[e]] + CStrAt(b, e + 1);
  }

  /** `w` stands at `t` and is not followed by an ordinary character. */
  ghost predicate Piece(b: seq<char>, t: nat, w: string, e: nat, delim: string) {
    && e == t + |w| < |b| && w != "" && HasNul(b, e) && (b[e] == NUL || b[e] in delim)
    && CStrAt(b, t) == w + CStrAt(b, e)
    && forall k | 0 <= k < |w| :: b[t + k] == w[k] && w[k] != NUL && w[k] !in delim
  }

  /** `b` holds a token at `t`; the tokens of `text` are that one and those that follow at `saved`. */
  ghost predicate FoundAt(b: seq<char>, t: nat, saved: nat, text: string, delim: string) {
    && TokenAt(b, t, CStrAt(b, t), saved) && HasNul(b, saved)
    && Tokens(text, delim) == [CStrAt(b, t)] + Tokens(CStrAt(b, saved), delim)
  }

  /** What a strtok call on `b` from `from` means for the buffer it leaves. */
  ghost predicate StrTokOk(b: seq<char>, b': seq<char>, from: nat, tok: Option<nat>, saved: nat, delim: string) {
    && from <= saved < |b'| && HasNul(b', saved) && SameUpTo(b, b', from)
    && if tok.None? then Tokens(CStrAt(b, from), delim) == []
       else from < saved && FoundAt(b', tok.value, saved, CStrAt(b, from), delim)
  }

  lemma CutAt(b: seq<char>, t: nat, w: string, e: nat, delim: string)
    requires Piece(b, t, w, e, delim) && b[e] != NUL
    ensures FoundAt(b[e := NUL], t, e + 1, CStrAt(b, t), delim)
  {
    var b' := b[e := NUL];
    TokensOfPiece(w, CStrAt(b, e), delim);
    assert CStrAt(b, e)[1..] == CStrAt(b, e + 1);
    CStrSameTail(b, b', e + 1);
    var k :| e <= k < |b| && b[k] == NUL;
    assert b'[k] == NUL;
    assert TokenAt(b', t, w, e + 1);
    TokenIsCStr(b', t, w, e + 1);
  }

  lemma RunsToEnd(b: seq<char>, t: nat, w: string, e: nat, delim: string)
    requires Piece(b, t, w, e, delim) && b[e] == NUL
    ensures FoundAt(b, t, e, CStrAt(b, t), delim)
  {
    TokensOfPiece(w, CStrAt(b, e), delim);
    assert TokenAt(b, t, w, e);
    TokenIsCStr(b, t, w, e);
  }

  /** Overwriting the separator after a token, if one follows it. */
  lemma TokenTaken(b: seq<char>, b': seq<char>, from: nat, t: nat, w: string, e: nat, saved: nat, delim: string)
    requires Piece(b, t, w, e, delim) && from <= t
    requires Tokens(CStrAt(b, t), delim) == Tokens(CStrAt(b, from), delim)
    requires if b[e] == NUL then b' == b && saved == e else b' == b[e := NUL] && saved == e + 1
    ensures StrTokOk(b, b', from, Some(t), saved, delim)
  {
    if b[e] == NUL {
      RunsToEnd(b, t, w, e, delim);
    } else {
      CutAt(b, t, w, e, delim);
    }
  }

  /** One call of strtok, continuing at `from`: skip separators, find the end of the token, overwrite the
      separator there.  `saved` is where the next call continues. */
  method StrTok(buf: array<char>, from: nat, delim: string) returns (tok: Option<nat>, saved: nat)
    requires HasNul(buf[..], from) && NUL !in delim
    modifies buf
    ensures StrTokOk(old(buf[..]), buf[..], from, tok, saved, delim)
  {
    ghost var b := buf[..];
    var t := SkipSeparators(buf, from, delim);
    if buf[t] == NUL {
      return None, t;
    }
    var e, w := EndOfToken(buf, t, delim);
    saved := e;
    if buf[e] != NUL {
      buf[e] := NUL;
      saved := e + 1;
      assert buf[..] == b[e := NUL];
    }
    TokenTaken(b, buf[..], from, t, w, e, saved, delim);
    tok := Some(t);
  }
}
