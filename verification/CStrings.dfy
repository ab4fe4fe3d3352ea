/** NUL-terminated strings in fixed buffers, and the bounded copies the wrappers make into them.

    A C string value is a `string` without the character `NUL`; a C buffer is an `array<char>`
    whose array length is its `sizeof`.  The two library copies promise exactly what a caller may rely on:
    a source that fits is stored with its terminator, the destination is terminated in any case, and nothing beyond the
    limit is touched. */
module CStrings {

  const NUL: char := '\0'
  const ENDPOINT_SIZE: nat := 100
  const NAMESPACE_SIZE: nat := 100
  const TOPIC_SIZE: nat := 100
  const PUBLISH_DATA_SIZE: nat := 61 * 1024

  datatype Option<+T> = None | Some(value: T)

  function Min(a: nat, b: nat): nat {
    if a < b then a else b
  }

  /** The C string that starts at offset `p` of a buffer. */
  function CStrAt(b: seq<char>, p: nat): (s: string)
    ensures NUL !in s
    ensures p <= |b| ==> p + |s| <= |b|
    decreases |b| - p
  {
    if p >= |b| || b[p] == NUL then "" else [b[p]] + CStrAt(b, p + 1)
  }

  lemma {:induction false} CStrAtIs(b: seq<char>, p: nat, s: string)
    requires p + |s| < |b| && b[p..p + |s|] == s && b[p + |s|] == NUL && NUL !in s
    ensures CStrAt(b, p) == s
    decreases |s|
  {
    if s == "" {
    } else {
      assert b[p] == s[0];
      assert b[p + 1..p + 1 + |s[1..]|] == s[1..];
      CStrAtIs(b, p + 1, s[1..]);
    }
  }

  /** strstr(hay, needle) != NULL, section 7.21.5.7 of ISO/IEC 9899:1999. */
  predicate Occurs(needle: string, hay: string) {
    exists i | 0 <= i <= |hay| - |needle| :: OccursAt(needle, hay, i)
  }

  predicate OccursAt(needle: string, hay: string, i: nat)
    requires i + |needle| <= |hay|
  {
    hay[i..i + |needle|] == needle
  }

  /** A needle is found wherever it stands. */
  lemma OccursBetween(a: string, needle: string, b: string)
    ensures Occurs(needle, a + needle + b)
  {
    assert OccursAt(needle, a + needle + b, |a|);
  }

  /** Nothing else is an occurrence: what is found stands between two parts of the text. */
  lemma OccurrenceSplits(needle: string, hay: string) returns (a: string, b: string)
    requires Occurs(needle, hay)
    ensures hay == a + needle + b
  {
    var i: nat :| i + |needle| <= |hay| && OccursAt(needle, hay, i);
    a, b := hay[..i], hay[i + |needle|..];
  }

  method StrLen(a: array<char>) returns (n: nat)
    requires NUL in a[..]
    ensures n < a.Length && a[n] == NUL
    ensures a[..n] == CStrAt(a[..], 0)
  {
    ghost var z :| 0 <= z < a.Length && a[z] == NUL;
    n := 0;
    while a[n] != NUL
      invariant 0 <= n <= z
      invariant forall i | 0 <= i < n :: a[i] != NUL
      decreases z - n
    {
      n := n + 1;
    }
    CStrAtIs(a[..], 0, a[..n]);
  }

  /** strcpy_s of safestringlib. */
  method StrcpyS(dest: array<char>, dmax: nat, src: string)
    requires dmax <= dest.Length
    modifies dest
    ensures |src| < dmax ==> dest[..|src| + 1] == src + [NUL]
    ensures dmax > 0 ==> NUL in dest[..]
    ensures dest[dmax..] == old(dest[dmax..])
  {
    StrncpyS(dest, dmax, src, |src|);
  }

  /** strncpy_s of safestringlib. */
  method StrncpyS(dest: array<char>, dmax: nat, src: string, slen: nat)
    requires dmax <= dest.Length && slen <= |src|
    modifies dest
    ensures slen < dmax ==> dest[..slen + 1] == src[..slen] + [NUL]
    ensures dmax > 0 ==> NUL in dest[..]
    ensures dest[dmax..] == old(dest[dmax..])
  {
    if slen < dmax {
      for i := 0 to slen
        invariant dest[..i] == src[..i]
        invariant dest[dmax..] == old(dest[dmax..])
      {
        dest[i] := src[i];
      }
      dest[slen] := NUL;
      assert dest[..][slen] == NUL;
    } else if dmax > 0 {
      dest[0] := NUL;
      assert dest[..][0] == NUL;
    }
  }

  /** DBA_STRCPY: exact strictly below the size of the destination.  A source whose length plus one reaches
      that size is offered to strcpy_s with a limit it cannot fit. */
  method DbaStrcpy(dest: array<char>, src: string)
    requires NUL !in src && dest.Length > 0
    requires dest.Length >= PUBLISH_DATA_SIZE || |src| + 1 < PUBLISH_DATA_SIZE
    modifies dest
    ensures |src| + 1 < Min(dest.Length, PUBLISH_DATA_SIZE) ==> CStrAt(dest[..], 0) == src && dest[|src|] == NUL
    ensures dest.Length > 1 ==> NUL in dest[..]
  {
    var srcLength := |src| + 1;
    var destSize := dest.Length;
    if srcLength >= PUBLISH_DATA_SIZE {
      destSize := PUBLISH_DATA_SIZE;
    }
    if srcLength >= destSize {
      StrcpyS(dest, destSize - 1, src);
    } else {
      StrcpyS(dest, srcLength, src);
      assert dest[..|src|] == dest[..|src| + 1][..|src|] == src;
      assert dest[|src|] == dest[..|src| + 1][|src|];
      CStrAtIs(dest[..], 0, src);
    }
  }

  /** DBA_STRNCPY: the first `srclen` characters, cut so that the terminator fits. */
  method DbaStrncpy(dest: array<char>, src: string, srclen: nat)
    requires srclen <= |src| && NUL !in src && dest.Length > 0
    requires srclen >= PUBLISH_DATA_SIZE ==> dest.Length == PUBLISH_DATA_SIZE
    modifies dest
    ensures CStrAt(dest[..], 0) == src[..Min(srclen, dest.Length - 1)] && NUL in dest[..]
  {
    var destSize := dest.Length;
    if srclen >= PUBLISH_DATA_SIZE {
      destSize := PUBLISH_DATA_SIZE;
    }
    if srclen >= destSize {
      StrncpyS(dest, destSize, src, destSize - 1);
    } else {
      StrncpyS(dest, srclen + 1, src, srclen);
    }
    ghost var n := Min(srclen, dest.Length - 1);
    assert dest[..n] == dest[..n + 1][..n] == src[..n];
    assert dest[n] == dest[..n + 1][n];
    CStrAtIs(dest[..], 0, src[..n]);
  }
}
