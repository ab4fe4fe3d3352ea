/** Streams of values: adjacent duplicates removed, and a partial handler applied to each. */
module Streams {
  import opened CStrings

  /** Adjacent duplicates removed: what a monitored item reports for the values it samples. */
  function Dedup<T(==)>(vs: seq<T>): (r: seq<T>)
    ensures vs != [] ==> r != [] && r[|r| - 1] == vs[|vs| - 1]
  {
    var n := |vs|;
    if n == 0 then []
    else if n >= 2 && vs[n - 2] == vs[n - 1] then Dedup(vs[..n - 1])
    else Dedup(vs[..n - 1]) + [vs[n - 1]]
  }

  function ToSeq<U>(o: Option<U>): seq<U> {
    if o.Some? then [o.value] else []
  }

  /** The results of those values that the handler `f` accepts, in order. */
  function Accepted<T, U>(f: T -> Option<U>, vs: seq<T>): seq<U> {
    if vs == [] then [] else Accepted(f, vs[..|vs| - 1]) + ToSeq(f(vs[|vs| - 1]))
  }

  lemma AcceptedOne<T, U>(f: T -> Option<U>, v: T)
    ensures Accepted(f, [v]) == ToSeq(f(v))
  {
    assert [v][..0] == [];
  }

  lemma {:induction false} AcceptedAppend<T, U>(f: T -> Option<U>, a: seq<T>, b: seq<T>)
    ensures Accepted(f, a + b) == Accepted(f, a) + Accepted(f, b)
  {
    if b == [] {
      assert a + b == a;
    } else {
      var n := |b| - 1;
      assert (a + b)[..|a + b| - 1] == a + b[..n];
      AcceptedAppend(f, a, b[..n]);
    }
  }

  lemma DedupAppend<T>(vs: seq<T>, v: T)
    ensures Dedup(vs + [v]) == if vs != [] && vs[|vs| - 1] == v then Dedup(vs) else Dedup(vs) + [v]
  {
    assert (vs + [v])[..|vs|] == vs;
  }

  lemma AcceptedRepeat<T, U>(f: T -> Option<U>, vs: seq<T>, v: T)
    requires vs != [] && vs[|vs| - 1] == v
    ensures Accepted(f, Dedup(vs + [v])) == Accepted(f, Dedup(vs))
  {
    DedupAppend(vs, v);
  }

  lemma AcceptedChange<T, U>(f: T -> Option<U>, vs: seq<T>, v: T)
    requires vs == [] || vs[|vs| - 1] != v
    ensures Accepted(f, Dedup(vs + [v])) == Accepted(f, Dedup(vs)) + ToSeq(f(v))
  {
    DedupAppend(vs, v);
    AcceptedOne(f, v);
    AcceptedAppend(f, Dedup(vs), [v]);
  }

  /** A first value that the handler refuses changes nothing. */
  lemma {:induction false} RefusedFirst<T, U>(f: T -> Option<U>, first: T, vs: seq<T>)
    requires f(first).None?
    ensures Accepted(f, Dedup([first] + vs)) == Accepted(f, Dedup(vs))
  {
    hide Dedup, Accepted;
    if vs == [] {
      RefusedAlone(f, first);
      assert [first] + vs == [first];
    } else {
      var us, v := vs[..|vs| - 1], vs[|vs| - 1];
      RefusedFirst(f, first, us);
      assert [first] + vs == [first] + us + [v];
      assert vs == us + [v];
      SameAnswer(f, [first] + us, us, v);
    }
  }

  lemma DedupOne<T>(v: T)
    ensures Dedup([v]) == [v]
  {
    assert [v][..0] == [];
  }

  lemma RefusedAlone<T, U>(f: T -> Option<U>, v: T)
    requires f(v).None?
    ensures Accepted(f, Dedup([v])) == [] == Accepted(f, Dedup([]))
  {
    DedupOne(v);
    AcceptedOne(f, v);
  }

  lemma SameAnswer<T, U>(f: T -> Option<U>, a: seq<T>, b: seq<T>, v: T)
    requires Accepted(f, Dedup(a)) == Accepted(f, Dedup(b))
    requires a != [] && if b != [] then a[|a| - 1] == b[|b| - 1] else f(a[|a| - 1]).None?
    ensures Accepted(f, Dedup(a + [v])) == Accepted(f, Dedup(b + [v]))
  {
    hide Dedup, Accepted;
    if a[|a| - 1] == v {
      AcceptedRepeat(f, a, v);
    } else {
      AcceptedChange(f, a, v);
    }
    if b != [] && b[|b| - 1] == v {
      AcceptedRepeat(f, b, v);
    } else {
      AcceptedChange(f, b, v);
    }
  }

  /** A slot that reports only changes, whose reports are handled from a queue: sampling one more value. */
  lemma ReportOne<T, U>(f: T -> Option<U>, handled: seq<U>, queue: seq<T>, queue': seq<T>, vs: seq<T>, v: T)
    requires handled + Accepted(f, queue) == Accepted(f, Dedup(vs))
    requires queue' == if vs != [] && vs[|vs| - 1] == v then queue else queue + [v]
    ensures handled + Accepted(f, queue') == Accepted(f, Dedup(vs + [v]))
  {
    if vs != [] && vs[|vs| - 1] == v {
      AcceptedRepeat(f, vs, v);
    } else {
      AcceptedChange(f, vs, v);
      QueueOne(f, handled, queue, v);
    }
  }

  lemma QueueOne<T, U>(f: T -> Option<U>, handled: seq<U>, queue: seq<T>, v: T)
    ensures handled + Accepted(f, queue + [v]) == handled + Accepted(f, queue) + ToSeq(f(v))
  {
    AcceptedOne(f, v);
    AcceptedAppend(f, queue, [v]);
  }

  /** Handling the front of the queue. */
  lemma HandleOne<T, U>(f: T -> Option<U>, handled: seq<U>, queue: seq<T>)
    requires queue != []
    ensures handled + Accepted(f, queue) == handled + ToSeq(f(queue[0])) + Accepted(f, queue[1..])
  {
    assert queue == [queue[0]] + queue[1..];
    AcceptedAppend(f, [queue[0]], queue[1..]);
    AcceptedOne(f, queue[0]);
  }

  ghost predicate NonDecreasing(ps: seq<nat>) {
    forall a, b | 0 <= a < b < |ps| :: ps[a] <= ps[b]
  }

  predicate InRange(ps: seq<nat>, bound: nat) {
    forall k | 0 <= k < |ps| :: ps[k] < bound
  }

  /** The values of `content` at the positions `ps`. */
  function Values<T>(content: seq<T>, ps: seq<nat>): seq<T>
    requires InRange(ps, |content|)
  {
    seq(|ps|, k requires 0 <= k < |ps| => content[ps[k]])
  }

  ghost predicate Covers(ps: seq<nat>, lo: nat, hi: nat) {
    forall n: nat | lo <= n <= hi :: n in ps
  }

  /** Each position is the one before or its successor. */
  ghost predicate Unskipping(ps: seq<nat>) {
    forall a, b | 0 <= a < b < |ps| && b == a + 1 :: ps[a] <= ps[b] <= ps[a] + 1
  }

  lemma CoveringIsUnskipping(ps: seq<nat>)
    requires ps != [] && NonDecreasing(ps) && Covers(ps, ps[0], ps[|ps| - 1])
    ensures Unskipping(ps)
  {
    forall a, b | 0 <= a < b < |ps| && b == a + 1 ensures ps[a] <= ps[b] <= ps[a] + 1 {
      assert ps[a] + 1 <= ps[b] ==> ps[a] + 1 in ps;
    }
  }

  lemma ValuesSnoc<T>(content: seq<T>, ps: seq<nat>, p: nat)
    requires InRange(ps, |content|) && p < |content|
    ensures Values(content, ps + [p]) == Values(content, ps) + [content[p]]
  {
  }

  /** content[lo..n + 1], built from its end. */
  function Span<T>(content: seq<T>, lo: nat, n: nat): (r: seq<T>)
    requires lo <= n < |content|
    ensures r == content[lo..n + 1]
  {
    if n == lo then [content[n]] else Span(content, lo, n - 1) + [content[n]]
  }

  /** Sampling a changing slot at positions that skip none: the repeated samples are exactly what deduplication
      removes. */
  lemma {:induction false} SamplingIsDeduped<T>(content: seq<T>, ps: seq<nat>)
    requires ps != [] && InRange(ps, |content|) && Unskipping(ps)
    ensures ps[0] <= ps[|ps| - 1]
    ensures Dedup(Values(content, ps)) == Dedup(Span(content, ps[0], ps[|ps| - 1]))
    decreases |ps|
  {
    var qs, n := ps[..|ps| - 1], ps[|ps| - 1];
    assert ps == qs + [n];
    ValuesSnoc(content, qs, n);
    if qs == [] {
      assert Values(content, ps) == [content[n]];
    } else {
      var l := qs[|qs| - 1];
      assert l == ps[|ps| - 2];
      SamplingIsDeduped(content, qs);
      OneMoreSample(content, Values(content, qs), ps[0], l, n);
    }
  }

  lemma OneMoreSample<T>(content: seq<T>, vs: seq<T>, lo: nat, l: nat, n: nat)
    requires lo <= l <= n <= l + 1 && n < |content| && vs != [] && vs[|vs| - 1] == content[l]
    requires Dedup(vs) == Dedup(Span(content, lo, l))
    ensures Dedup(vs + [content[n]]) == Dedup(Span(content, lo, n))
  {
    SameTail(vs, Span(content, lo, l), content[n], Span(content, lo, n));
  }

  lemma SameTail<T>(a: seq<T>, b: seq<T>, v: T, c: seq<T>)
    requires a != [] && b != [] && a[|a| - 1] == b[|b| - 1] && Dedup(a) == Dedup(b)
    requires c == b + [v] || (c == b && a[|a| - 1] == v)
    ensures Dedup(a + [v]) == Dedup(c)
  {
    DedupAppend(a, v);
    DedupAppend(b, v);
  }

  /** Where the values seen begin, if the slot was first sampled after `k` changes. */
  function FirstSeen(k: nat): nat {
    if k == 0 then 0 else k - 1
  }

  /** A slot that starts with a value the handler refuses, then takes the values `h`, and is sampled at least once
      after each change from its first sample on: the handler is called for exactly the deduplicated history, from
      the value first seen. */
  lemma SamplesAreHistory<T, U>(f: T -> Option<U>, first: T, h: seq<T>, ps: seq<nat>)
    requires f(first).None? && ps != [] && InRange(ps, |h| + 1) && NonDecreasing(ps) && Covers(ps, ps[0], |h|)
    ensures Accepted(f, Dedup(Values([first] + h, ps))) == Accepted(f, Dedup(h[FirstSeen(ps[0])..]))
  {
    hide Dedup, Accepted;
    CoveringEnds(ps, |h|);
    SamplingIsDeduped([first] + h, ps);
    WholeSpan(first, h, ps[0]);
    if ps[0] == 0 {
      RefusedFirst(f, first, h);
      assert h[0..] == h;
    }
  }

  lemma WholeSpan<T>(first: T, h: seq<T>, lo: nat)
    requires lo <= |h|
    ensures Span([first] + h, lo, |h|) == if lo == 0 then [first] + h else h[lo - 1..]
  {
  }

  lemma CoveringEnds(ps: seq<nat>, n: nat)
    requires ps != [] && InRange(ps, n + 1) && NonDecreasing(ps) && Covers(ps, ps[0], n)
    ensures ps[|ps| - 1] == n && Unskipping(ps)
  {
    assert n in ps;
    CoveringIsUnskipping(ps);
  }

  // ---------------------------------------------------------------------------------------------------------
  // When deduplication is invisible.

  /** No value equals the one before it. */
  ghost predicate NoRepeats<T(!new)>(vs: seq<T>) {
    forall a, b | 0 <= a < b < |vs| && b == a + 1 :: vs[a] != vs[b]
  }

  lemma NoRepeatsSnoc<T(!new)>(us: seq<T>, v: T)
    ensures NoRepeats(us + [v]) <==> NoRepeats(us) && (us == [] || us[|us| - 1] != v)
  {
    var vs := us + [v];
    if NoRepeats(vs) {
      assert forall a | 0 <= a < |us| :: us[a] == vs[a];
      assert us != [] ==> vs[|us| - 1] != vs[|us|];
    }
  }

  lemma {:induction false} DedupShorter<T>(vs: seq<T>)
    ensures |Dedup(vs)| <= |vs|
  {
    if vs == [] {
    } else {
      DedupShorter(vs[..|vs| - 1]);
    }
  }

  /** Deduplication leaves exactly the sequences without adjacent repetitions alone. */
  lemma {:induction false} DedupIdentityIff<T(!new)>(vs: seq<T>)
    ensures Dedup(vs) == vs <==> NoRepeats(vs)
  {
    if vs == [] {
    } else {
      hide Dedup, NoRepeats;
      var us, v := vs[..|vs| - 1], vs[|vs| - 1];
      assert vs == us + [v];
      DedupIdentityIff(us);
      DedupShorter(us);
      DedupAppend(us, v);
      NoRepeatsSnoc(us, v);
    }
  }

  /** A handler that refuses every adjacent repetition cannot tell that they were removed. */
  lemma {:induction false} DedupInvisible<T, U>(f: T -> Option<U>, vs: seq<T>)
    requires forall a, b | 0 <= a < b < |vs| && b == a + 1 :: f(vs[a]).None? || vs[a] != vs[b]
    ensures Accepted(f, Dedup(vs)) == Accepted(f, vs)
  {
    if vs == [] {
    } else {
      var us, v := vs[..|vs| - 1], vs[|vs| - 1];
      DedupInvisible(f, us);
      assert vs == us + [v];
      InvisibleStep(f, us, v);
    }
  }

  lemma InvisibleStep<T, U>(f: T -> Option<U>, us: seq<T>, v: T)
    requires Accepted(f, Dedup(us)) == Accepted(f, us)
    requires us == [] || us[|us| - 1] != v || f(v).None?
    ensures Accepted(f, Dedup(us + [v])) == Accepted(f, us + [v])
  {
    AcceptedAppend(f, us, [v]);
    AcceptedOne(f, v);
    if us != [] && us[|us| - 1] == v {
      AcceptedRepeat(f, us, v);
    } else {
      AcceptedChange(f, us, v);
    }
  }
}
