/** The pieces together: what a subscriber of the exporter is called with. */
module EndToEnd {
  import opened CStrings
  import opened Exporter
  import opened Streams
  import opened Trim
  import Client
  import Lookup
  import Protocol
  import Registry
  import Topics

  // ---------------------------------------------------------------------------------------------------------
  // When one topic's export reads as another's.

  /** A topic name without a blank occurs in an exported text exactly if it occurs in the other topic's name or in
      the data. */
  lemma OccursInExportIff(topic: string, other: string, data: string)
    requires ' ' !in topic
    ensures Occurs(topic, Payload(other, data)) <==> Occurs(topic, other) || Occurs(topic, data)
  {
    var m := Payload(other, data);
    if i :| 0 <= i <= |other| - |topic| && OccursAt(topic, other, i) {
      assert m[i..i + |topic|] == other[i..i + |topic|];
      assert OccursAt(topic, m, i);
    }
    if i :| 0 <= i <= |data| - |topic| && OccursAt(topic, data, i) {
      var k := |other| + 1 + i;
      assert m[k..k + |topic|] == data[i..i + |topic|];
      assert OccursAt(topic, m, k);
    }
    if i :| 0 <= i <= |m| - |topic| && OccursAt(topic, m, i) {
      OccurrenceAvoidsBlank(topic, other, data, i);
    }
  }

  lemma SpansBlank(topic: string, m: string, i: nat, b: nat)
    requires i + |topic| <= |m| && OccursAt(topic, m, i) && i <= b < i + |topic| && m[b] == ' '
    ensures ' ' in topic
  {
    assert topic[b - i] == m[i..i + |topic|][b - i];
  }

  lemma OccurrenceAvoidsBlank(topic: string, other: string, data: string, i: nat)
    requires ' ' !in topic && i + |topic| <= |Payload(other, data)| && OccursAt(topic, Payload(other, data), i)
    ensures Occurs(topic, other) || Occurs(topic, data)
  {
    var m, b := Payload(other, data), |other|;
    assert m[b] == ' ';
    if i <= b {
      if b < i + |topic| {
        SpansBlank(topic, m, i, b);
      }
      assert other[i..i + |topic|] == m[i..i + |topic|];
      assert OccursAt(topic, other, i);
    } else {
      var k := i - b - 1;
      assert data[k..k + |topic|] == m[i..i + |topic|];
      assert OccursAt(topic, data, k);
    }
  }

  // ---------------------------------------------------------------------------------------------------------
  // Exactly-once delivery.

  /** The texts exported for these messages, in the order in which a single worker publishes them. */
  function History(topics: seq<string>, messages: seq<string>): seq<string> {
    seq(|messages| * |topics|, k requires 0 <= k < |messages| * |topics| => CallAt(0, topics, messages, k).payload)
  }

  /** The calls for a list of messages. */
  function Deliveries(topic: string, userFunc: int, messages: seq<string>): seq<Delivery> {
    seq(|messages|, k requires 0 <= k < |messages| => Delivery(topic, Payload(topic, messages[k]), userFunc))
  }

  /** No exported text of another topic contains this topic's name. */
  ghost predicate NoCrossTalk(topics: seq<string>, j: nat, messages: seq<string>)
    requires j < |topics|
  {
    forall k, i | 0 <= k < |messages| && 0 <= i < |topics| && i != j :: !Occurs(topics[j], Payload(topics[i], messages[k]))
  }

  /** Exported texts, as Go prints lists and maps: fitting the buffer and ending in ']'. */
  predicate Printable(topics: seq<string>, messages: seq<string>) {
    forall k | 0 <= k < |messages| :: PrintableOne(topics, messages[k])
  }

  predicate PrintableOne(topics: seq<string>, m: string) {
    EndsWith(m, ']') && forall i | 0 <= i < |topics| :: Fits(Payload(topics[i], m))
  }

  /** How many of the first `e` texts are for the j-th of `n` topics. */
  function Due(e: nat, j: nat, n: nat): nat
    requires n > 0
  {
    e / n + if e % n > j then 1 else 0
  }

  lemma DueStep(e: nat, j: nat, n: nat)
    requires j < n
    ensures Due(e + 1, j, n) == Due(e, j, n) + if e % n == j then 1 else 0
    ensures e % n == j ==> Due(e, j, n) == e / n
  {
    var q, r := e / n, e % n;
    assert e == q * n + r;
    if r + 1 < n {
      DivOf(q, r + 1, n);
    } else {
      assert (q + 1) * n == q * n + n;
      DivOf(q + 1, 0, n);
    }
  }

  /** Message `m` is among those due exactly if its text for the topic is among the first `e`. */
  lemma DueIff(e: nat, j: nat, n: nat, m: nat)
    requires j < n
    ensures m < Due(e, j, n) <==> m * n + j < e
  {
    var q, r := e / n, e % n;
    assert e == q * n + r;
    if m < q {
      ProductGrows(m + 1, q, n);
      assert (m + 1) * n == m * n + n;
    } else if m > q {
      ProductGrows(q + 1, m, n);
      assert (q + 1) * n == q * n + n;
    }
  }

  lemma DueBounds(f: nat, e: nat, j: nat, n: nat, total: nat)
    requires j < n && f <= e <= total * n
    ensures Due(f, j, n) <= Due(e, j, n) <= total
    ensures Due(total * n, j, n) == total
    ensures f <= j ==> Due(f, j, n) == 0
  {
    DivOf(total, 0, n);
    if Due(f, j, n) > Due(e, j, n) {
      DueIff(f, j, n, Due(e, j, n));
      DueIff(e, j, n, Due(e, j, n));
    }
    if Due(e, j, n) > total {
      DueIff(e, j, n, total);
    }
    if f <= j {
      DivOf(0, f, n);
    }
  }

  /** What the subscriber of the j-th topic makes of the k-th text. */
  lemma OneText(mon: MonitorContext, topics: seq<string>, j: nat, messages: seq<string>, k: nat)
    requires j < |topics| && mon.topic == topics[j] && mon.hasCallback
    requires Printable(topics, messages) && NoCrossTalk(topics, j, messages) && k < |messages| * |topics|
    ensures k / |topics| < |messages|
    ensures Protocol.Handler(mon)(History(topics, messages)[k])
            == if k % |topics| == j
               then Some(Delivery(topics[j], Payload(topics[j], messages[k / |topics|]), mon.userFunc)) else None
  {
    DivBound(k, |messages|, |topics|);
    var i, m := k % |topics|, messages[k / |topics|];
    assert PrintableOne(topics, m);
    HandledExport(mon, topics[i], m);
  }

  lemma HandledExport(mon: MonitorContext, topic: string, m: string)
    requires EndsWith(m, ']') && Fits(Payload(topic, m)) && mon.hasCallback
    requires topic == mon.topic || !Occurs(mon.topic, Payload(topic, m))
    ensures Protocol.Handler(mon)(Payload(topic, m))
            == if topic == mon.topic then Some(Delivery(topic, Payload(topic, m), mon.userFunc)) else None
  {
    ExporterPayloadArrives(topic, m, "");
    assert Payload(topic, m) + "" == Payload(topic, m);
  }

  lemma OneLonger(f: string -> Option<Delivery>, h: seq<string>, lo: nat, hi: nat)
    requires lo <= hi < |h|
    ensures Accepted(f, h[lo..hi + 1]) == Accepted(f, h[lo..hi]) + ToSeq(f(h[hi]))
  {
    assert h[lo..hi + 1] == h[lo..hi] + [h[hi]];
    AcceptedAppend(f, h[lo..hi], [h[hi]]);
    AcceptedOne(f, h[hi]);
  }

  /** The handler takes, of the k-th text, the call for message k / n if it is for the j-th topic. */
  ghost predicate TakesAt(f: string -> Option<Delivery>, h: seq<string>, calls: seq<Delivery>, j: nat, n: nat, k: nat)
    requires n > 0 && k < |h|
  {
    k / n < |calls| && f(h[k]) == if k % n == j then Some(calls[k / n]) else None
  }

  lemma StretchStep(f: string -> Option<Delivery>, h: seq<string>, calls: seq<Delivery>, j: nat, n: nat,
                    due: nat, lo: nat, hi: nat)
    requires j < n && lo <= hi < |h| && TakesAt(f, h, calls, j, n, hi)
    requires due <= Due(hi, j, n) <= |calls| && Accepted(f, h[lo..hi]) == calls[due..Due(hi, j, n)]
    ensures due <= Due(hi + 1, j, n) <= |calls| && Accepted(f, h[lo..hi + 1]) == calls[due..Due(hi + 1, j, n)]
  {
    hide Accepted, Due;
    DueStep(hi, j, n);
    OneLonger(f, h, lo, hi);
    var m := Due(hi, j, n);
    if hi % n == j {
      assert calls[due..m + 1] == calls[due..m] + [calls[m]];
    }
  }

  lemma NothingAccepted(f: string -> Option<Delivery>)
    ensures Accepted(f, []) == []
  {
  }

  lemma {:induction false} StretchOf(f: string -> Option<Delivery>, h: seq<string>, calls: seq<Delivery>,
                                     j: nat, n: nat, lo: nat, hi: nat)
    requires j < n && lo <= hi <= |h| && forall k | 0 <= k < |h| :: TakesAt(f, h, calls, j, n, k)
    requires Due(lo, j, n) <= |calls|
    ensures Due(lo, j, n) <= Due(hi, j, n) <= |calls|
    ensures Accepted(f, h[lo..hi]) == calls[Due(lo, j, n)..Due(hi, j, n)]
    decreases hi
  {
    hide Accepted, Due, TakesAt;
    if lo == hi {
      assert h[lo..hi] == [];
      NothingAccepted(f);
    } else {
      StretchOf(f, h, calls, j, n, lo, hi - 1);
      StretchStep(f, h, calls, j, n, Due(lo, j, n), lo, hi - 1);
    }
  }

  /** Any stretch of the history makes the calls for the messages whose own text lies in it. */
  lemma Stretch(mon: MonitorContext, topics: seq<string>, j: nat, messages: seq<string>, f: nat, e: nat)
    requires j < |topics| && mon.topic == topics[j] && mon.hasCallback
    requires Printable(topics, messages) && NoCrossTalk(topics, j, messages) && f <= e <= |messages| * |topics|
    ensures Due(f, j, |topics|) <= Due(e, j, |topics|) <= |messages|
    ensures Accepted(Protocol.Handler(mon), History(topics, messages)[f..e])
            == Deliveries(topics[j], mon.userFunc, messages[Due(f, j, |topics|)..Due(e, j, |topics|)])
  {
    hide Accepted, Printable, NoCrossTalk, Protocol.Handler, Due;
    var h, calls := History(topics, messages), Deliveries(topics[j], mon.userFunc, messages);
    forall k | 0 <= k < |h| ensures TakesAt(Protocol.Handler(mon), h, calls, j, |topics|, k) {
      OneText(mon, topics, j, messages, k);
    }
    DueBounds(f, e, j, |topics|, |messages|);
    StretchOf(Protocol.Handler(mon), h, calls, j, |topics|, f, e);
    assert calls[Due(f, j, |topics|)..Due(e, j, |topics|)]
        == Deliveries(topics[j], mon.userFunc, messages[Due(f, j, |topics|)..Due(e, j, |topics|)]);
  }

  lemma RepeatsRefused(mon: MonitorContext, topics: seq<string>, j: nat, messages: seq<string>, f: nat, e: nat)
    requires |topics| >= 2 && j < |topics| && mon.topic == topics[j] && mon.hasCallback
    requires Printable(topics, messages) && NoCrossTalk(topics, j, messages) && f <= e <= |messages| * |topics|
    ensures var vs := History(topics, messages)[f..e];
            forall a, b | 0 <= a < b < |vs| && b == a + 1 :: Protocol.Handler(mon)(vs[a]).None? || vs[a] != vs[b]
  {
    hide Printable, NoCrossTalk, Protocol.Handler;
    var vs := History(topics, messages)[f..e];
    forall a, b | 0 <= a < b < |vs| && b == a + 1 ensures Protocol.Handler(mon)(vs[a]).None? || vs[a] != vs[b] {
      OneText(mon, topics, j, messages, f + a);
      OneText(mon, topics, j, messages, f + a + 1);
      NextIsOther(f + a, |topics|);
    }
  }

  lemma NextIsOther(k: nat, n: nat)
    requires n >= 2
    ensures k % n != (k + 1) % n
  {
    assert k == (k / n) * n + k % n;
    if k % n + 1 < n {
      DivOf(k / n, k % n + 1, n);
    } else {
      assert (k / n + 1) * n == (k / n) * n + n;
      DivOf(k / n + 1, 0, n);
    }
  }

  /** The machine's publish attempts are, so far, the exporter's publish calls. */
  ghost predicate Carries(attempts: seq<Protocol.Attempt>, log: seq<Call>) {
    |attempts| <= |log|
    && forall k | 0 <= k < |attempts| :: attempts[k].topic == log[k].topic && attempts[k].payload == log[k].payload
  }

  /** A single worker's exporter in front of the machine. */
  ghost predicate Exports(e0: State, es: seq<Step>, s: Protocol.State) {
    Init(e0) && |e0.workers| == 1 && Carries(s.attempts, Run(e0, es).log)
  }

  lemma AttemptsAreHistory(e0: State, es: seq<Step>, s: Protocol.State)
    requires Exports(e0, es, s)
    ensures var h := History(e0.topics, Arrived(es, 0));
            |s.attempts| <= |h| && Protocol.Payloads(s.attempts) == h[..|s.attempts|]
  {
    hide Run, Arrived;
    SingleWorkerHistory(e0, es);
    var h, log, calls := History(e0.topics, Arrived(es, 0)), Run(e0, es).log, CallsFor(0, e0.topics, Arrived(es, 0));
    assert log <= calls;
    forall k | 0 <= k < |s.attempts| ensures s.attempts[k].payload == h[k] {
      assert log[k] == calls[k];
    }
  }

  lemma HistoryFits(topics: seq<string>, messages: seq<string>)
    requires Printable(topics, messages)
    ensures forall k | 0 <= k < |History(topics, messages)| :: Fits(History(topics, messages)[k])
  {
    forall k | 0 <= k < |messages| * |topics| ensures Fits(CallAt(0, topics, messages, k).payload) {
      DivBound(k, |messages|, |topics|);
      assert PrintableOne(topics, messages[k / |topics|]);
    }
  }

  /** One worker's exporter, and one connection of a subscriber of its j-th topic: sampled after every overwrite from
      its first sample on, with nothing lost, and now drained.  Exported texts are printable. */
  ghost predicate Watches(e0: State, es: seq<Step>,
                          s1: Protocol.State, steps: seq<Protocol.Step>, s: Protocol.State, i: nat, j: nat) {
    && Exports(e0, es, s) && Protocol.Connection(s1, steps, s, i)
    && j < |e0.topics| && e0.topics[j] == s1.items[i].mon.topic != "" && s1.items[i].mon.hasCallback
    && Protocol.SampledThroughout(s.attempts, Protocol.Since(s1.items[i], s.items[i]).sampled) && s.items[i].queue == []
    && Printable(e0.topics, Arrived(es, 0))
  }

  /** What a connection's item was called with, in terms of the exporter's history from the text first seen. */
  lemma ConnectionCalls(e0: State, es: seq<Step>,
                        s1: Protocol.State, steps: seq<Protocol.Step>, s: Protocol.State, i: nat, j: nat)
    requires Watches(e0, es, s1, steps, s, i, j)
    ensures var r := Protocol.Since(s1.items[i], s.items[i]);
            && r.mon == s1.items[i].mon && |s.attempts| <= |History(e0.topics, Arrived(es, 0))|
            && (r.sampled == [] ==> r.calls == [])
            && (r.sampled != [] ==>
                  && FirstSeen(r.sampled[0]) <= |s.attempts|
                  && Protocol.Calls(r.calls) == Accepted(Protocol.Handler(r.mon),
                       Dedup(History(e0.topics, Arrived(es, 0))[FirstSeen(r.sampled[0])..|s.attempts|])))
  {
    hide Exports, Protocol.CleanRun, Protocol.Run, Protocol.Reachable;
    var r := Protocol.Since(s1.items[i], s.items[i]);
    var h := History(e0.topics, Arrived(es, 0));
    AttemptsAreHistory(e0, es, s);
    HistoryFits(e0.topics, Arrived(es, 0));
    forall k | 0 <= k < |s.attempts| ensures Fits(s.attempts[k].payload) {
      assert Protocol.Payloads(s.attempts)[k] == h[k];
    }
    Protocol.Completeness(s1, steps, s, i);
    FirstSampleInRange(s1, steps, s, i);
    if r.sampled == [] {
      assert |Protocol.Calls(r.calls)| == |r.calls|;
    } else {
      assert Protocol.Payloads(s.attempts)[FirstSeen(r.sampled[0])..] == h[FirstSeen(r.sampled[0])..|s.attempts|];
    }
  }

  lemma FirstSampleInRange(s1: Protocol.State, steps: seq<Protocol.Step>, s: Protocol.State, i: nat)
    requires Protocol.Connection(s1, steps, s, i)
    ensures var r := Protocol.Since(s1.items[i], s.items[i]);
            r.sampled != [] ==> r.sampled[0] <= |s.attempts|
  {
    Protocol.ReachableInv(s1);
    Protocol.RunKeepsFaithful(s1, steps, i);
  }

  /** Two or more topics, one exporter worker, and any connection of any topic's subscriber, whenever it begins: if
      it loses nothing, is sampled after every overwrite from its first sample on, and is drained, it has been called
      exactly once, in order and unchanged, for every message whose own text was published, from the text that the
      first sample found in the buffer on.  Repeated messages are not lost: another topic's text comes between. */
  lemma ExactlyOnce(e0: State, es: seq<Step>,
                    s1: Protocol.State, steps: seq<Protocol.Step>, s: Protocol.State, i: nat, j: nat)
    requires Watches(e0, es, s1, steps, s, i, j) && |e0.topics| >= 2 && NoCrossTalk(e0.topics, j, Arrived(es, 0))
    ensures var r, n := Protocol.Since(s1.items[i], s.items[i]), |e0.topics|;
            && (r.sampled == [] ==> r.calls == [])
            && (r.sampled != [] ==>
                  && Due(FirstSeen(r.sampled[0]), j, n) <= Due(|s.attempts|, j, n) <= |Arrived(es, 0)|
                  && Protocol.Calls(r.calls)
                     == Deliveries(e0.topics[j], s1.items[i].mon.userFunc,
                                   Arrived(es, 0)[Due(FirstSeen(r.sampled[0]), j, n)..Due(|s.attempts|, j, n)]))
  {
    hide Exports, Protocol.CleanRun, Protocol.Run, Protocol.Reachable;
    hide Printable, NoCrossTalk, Arrived, Protocol.SampledThroughout, Due;
    ConnectionCalls(e0, es, s1, steps, s, i, j);
    var r := Protocol.Since(s1.items[i], s.items[i]);
    if r.sampled != [] {
      var f, e := FirstSeen(r.sampled[0]), |s.attempts|;
      RepeatsRefused(r.mon, e0.topics, j, Arrived(es, 0), f, e);
      DedupInvisible(Protocol.Handler(r.mon), History(e0.topics, Arrived(es, 0))[f..e]);
      Stretch(r.mon, e0.topics, j, Arrived(es, 0), f, e);
    }
  }

  /** In particular, once everything that arrived has been published, a subscriber whose first sample came no later
      than its topic's first text has been called for every message. */
  lemma EveryMessageOnce(e0: State, es: seq<Step>,
                         s1: Protocol.State, steps: seq<Protocol.Step>, s: Protocol.State, i: nat, j: nat)
    requires Watches(e0, es, s1, steps, s, i, j) && |e0.topics| >= 2 && NoCrossTalk(e0.topics, j, Arrived(es, 0))
    requires |s.attempts| == |Arrived(es, 0)| * |e0.topics|
    requires var r := Protocol.Since(s1.items[i], s.items[i]); r.sampled != [] && r.sampled[0] <= j + 1
    ensures Protocol.Calls(Protocol.Since(s1.items[i], s.items[i]).calls)
            == Deliveries(e0.topics[j], s1.items[i].mon.userFunc, Arrived(es, 0))
  {
    hide Exports, Protocol.CleanRun, Protocol.Run, Protocol.Reachable;
    hide Printable, NoCrossTalk, Arrived, Protocol.SampledThroughout, Due, Deliveries;
    ConnectionCalls(e0, es, s1, steps, s, i, j);
    ExactlyOnce(e0, es, s1, steps, s, i, j);
    var f := FirstSeen(Protocol.Since(s1.items[i], s.items[i]).sampled[0]);
    DueBounds(f, |s.attempts|, j, |e0.topics|, |Arrived(es, 0)|);
    assert Arrived(es, 0)[0..|Arrived(es, 0)|] == Arrived(es, 0);
  }

  // ---------------------------------------------------------------------------------------------------------
  // A late topic is no exception: its subscriber's first sample may come after other topics' texts.

  predicate Publishing(steps: seq<Protocol.Step>) {
    forall k | 0 <= k < |steps| :: steps[k].Register? || steps[k].Overwrite? || steps[k].Write? || steps[k].Sample?
  }

  lemma {:induction false} PublishingIsClean(s: Protocol.State, steps: seq<Protocol.Step>, i: nat)
    requires Publishing(steps)
    ensures Protocol.CleanRun(s, steps, i)
  {
    if steps == [] {
    } else {
      PublishingIsClean(s, steps[..|steps| - 1], i);
    }
  }

  /** Undisturbed publish calls, one after the other. */
  function StepsFor(calls: seq<Call>): seq<Protocol.Step> {
    if calls == [] then []
    else StepsFor(calls[..|calls| - 1]) + Protocol.PublishSteps(0, calls[|calls| - 1].topic, calls[|calls| - 1].payload)
  }

  function AttemptsFor(calls: seq<Call>): seq<Protocol.Attempt> {
    seq(|calls|, k requires 0 <= k < |calls| => Protocol.Attempt(calls[k].topic, calls[k].payload, calls[k].payload))
  }

  ghost predicate PublishedAll(s0: Protocol.State, calls: seq<Call>, s: Protocol.State) {
    && s.publishers == s0.publishers && s.items == s0.items && s.attempts == s0.attempts + AttemptsFor(calls)
    && (calls != [] ==> calls[|calls| - 1].topic in s.nodes)
  }

  lemma {:induction false} PublishAll(s0: Protocol.State, calls: seq<Call>)
    requires |s0.publishers| == 1 && s0.publishers[0].Idle?
    ensures PublishedAll(s0, calls, Protocol.Run(s0, StepsFor(calls)))
  {
    if calls == [] {
    } else {
      hide Protocol.Run, Protocol.PublishSteps;
      var g, c := calls[..|calls| - 1], calls[|calls| - 1];
      PublishAll(s0, g);
      Protocol.PublishRun(Protocol.Run(s0, StepsFor(g)), 0, c.topic, c.payload);
      Protocol.RunConcat(s0, StepsFor(g), Protocol.PublishSteps(0, c.topic, c.payload));
      assert AttemptsFor(calls) == AttemptsFor(g) + [Protocol.Attempt(c.topic, c.payload, c.payload)];
    }
  }

  lemma {:induction false} StepsForPublish(calls: seq<Call>)
    ensures Publishing(StepsFor(calls))
  {
    if calls == [] {
    } else {
      StepsForPublish(calls[..|calls| - 1]);
    }
  }

  lemma SampledOnce(s: Protocol.State)
    requires |s.items| == 1 && Protocol.NewItem(s.items[0]) && s.items[0].mon.topic in s.nodes
    ensures var t := Protocol.Next(Protocol.Next(s, Protocol.Sample(0)), Protocol.Deliver(0, ""));
            && t.attempts == s.attempts && |t.items| == 1 && t.items[0].queue == [] && t.items[0].sampled == [|s.attempts|]
  {
    hide Protocol.Made;
  }

  lemma ExportStep(e0: State, es: seq<Step>, e: Step)
    ensures Run(e0, es + [e]) == Next(Run(e0, es), e)
    ensures Arrived(es + [e], 0) == Arrived(es, 0) + if e.Arrive? && e.w == 0 then [e.data] else []
  {
    assert (es + [e])[..|es|] == es;
  }

  /** An exporter with one worker that has received one message and published it on the first `n` topics. */
  lemma {:induction false} OneMessageExported(topics: seq<string>, m: string, n: nat) returns (e0: State, es: seq<Step>)
    requires n <= |topics|
    ensures Init(e0) && |e0.workers| == 1 && e0.topics == topics && Arrived(es, 0) == [m]
    ensures Run(e0, es) == State(topics, [Worker([], [], Some(Progress(m, n)))], FanOut(0, topics, m)[..n])
  {
    if n == 0 {
      hide Run, Arrived;
      e0 := State(topics, [Worker([], [], None)], []);
      es := [] + [Arrive(0, m)] + [Receive(0)];
      NoSteps(e0);
      ExportStep(e0, [], Arrive(0, m));
      ExportStep(e0, [] + [Arrive(0, m)], Receive(0));
      assert [] + [m] == [m];
      assert Next(e0, Arrive(0, m)) == State(topics, [Worker([m], [], None)], []);
    } else {
      var gs;
      hide Run, Arrived;
      e0, gs := OneMessageExported(topics, m, n - 1);
      es := gs + [PublishNext(0)];
      ExportStep(e0, gs, PublishNext(0));
      var f := FanOut(0, topics, m);
      assert f[..n] == f[..n - 1] + [f[n - 1]];
    }
  }

  lemma NoSteps(e0: State)
    ensures Run(e0, []) == e0 && Arrived([], 0) == []
  {
  }

  /** These calls, then one sample and its delivery, for an item that is there from the start. */
  lemma MachineRun(calls: seq<Call>, mon: MonitorContext) returns (s1: Protocol.State, steps: seq<Protocol.Step>, s: Protocol.State)
    requires calls != [] && calls[|calls| - 1].topic == mon.topic
    ensures Protocol.Connection(s1, steps, s, 0) && |s1.publishers| == 1 && s1.items[0].mon == mon
    ensures s.attempts == AttemptsFor(calls) && s.items[0].queue == []
    ensures Protocol.Since(s1.items[0], s.items[0]).sampled == [|calls|]
  {
    s1 := Protocol.State({}, [Protocol.Idle], [], "", [Protocol.Item(mon, None, [], [], [])]);
    var g := StepsFor(calls);
    steps := g + [Protocol.Sample(0)] + [Protocol.Deliver(0, "")];
    hide Protocol.Run, Protocol.CleanRun, StepsFor, Protocol.Next;
    s := Protocol.Run(s1, steps);
    PublishAll(s1, calls);
    StepsForPublish(calls);
    Protocol.RunAppend(s1, g, Protocol.Sample(0));
    Protocol.RunAppend(s1, g + [Protocol.Sample(0)], Protocol.Deliver(0, ""));
    SampledOnce(Protocol.Run(s1, g));
    PublishingIsClean(s1, g + [Protocol.Sample(0)], 0);
    DeliveryIsClean(s1, g + [Protocol.Sample(0)], 0);
    StartIsReachable(s1);
  }

  /** One exporter worker, one message, any topics: a subscriber of any of them, first sampled only after its own
      text was published, meets everything that ExactlyOnce asks for. */
  lemma EveryTopicCanBeWatched(topics: seq<string>, j: nat, m: string, userFunc: int)
    returns (e0: State, es: seq<Step>, s1: Protocol.State, steps: seq<Protocol.Step>, s: Protocol.State)
    requires j < |topics| && topics[j] != "" && Printable(topics, [m])
    ensures Watches(e0, es, s1, steps, s, 0, j)
    ensures e0.topics == topics && Arrived(es, 0) == [m] && |s1.publishers| == 1
    ensures Protocol.Since(s1.items[0], s.items[0]).sampled == [j + 1]
  {
    hide Protocol.Run, Protocol.CleanRun, Protocol.Reachable, Run, Arrived, Printable, Protocol.Since;
    var calls := FanOut(0, topics, m)[..j + 1];
    s1, steps, s := MachineRun(calls, MonitorContext(1, topics[j], true, userFunc));
    e0, es := OneMessageExported(topics, m, j + 1);
    assert |s.attempts| == j + 1;
  }

  lemma DeliveryIsClean(s: Protocol.State, g: seq<Protocol.Step>, i: nat)
    requires Protocol.CleanRun(s, g, i)
    ensures Protocol.CleanRun(s, g + [Protocol.Deliver(i, "")], i)
  {
    assert (g + [Protocol.Deliver(i, "")])[..|g|] == g;
  }

  lemma StartIsReachable(s: Protocol.State)
    requires Protocol.Init(s)
    ensures Protocol.Reachable(s)
  {
    assert Protocol.Run(s, []) == s;
  }

  // ---------------------------------------------------------------------------------------------------------
  // A single topic.

  function TextsOf(topic: string, messages: seq<string>): seq<string> {
    seq(|messages|, k requires 0 <= k < |messages| => Payload(topic, messages[k]))
  }

  lemma PayloadInjective(topic: string, a: string, b: string)
    ensures Payload(topic, a) == Payload(topic, b) <==> a == b
  {
    assert Payload(topic, a)[|topic| + 1..] == a && Payload(topic, b)[|topic| + 1..] == b;
  }

  ghost predicate TakesAll(f: string -> Option<Delivery>, topic: string, userFunc: int, messages: seq<string>) {
    forall m | m in messages :: f(Payload(topic, m)) == Some(Delivery(topic, Payload(topic, m), userFunc))
  }

  lemma AllTaken(mon: MonitorContext, topic: string, messages: seq<string>)
    requires mon.topic == topic && mon.hasCallback && Printable([topic], messages)
    ensures TakesAll(Protocol.Handler(mon), topic, mon.userFunc, messages)
  {
    forall m | m in messages
      ensures Protocol.Handler(mon)(Payload(topic, m)) == Some(Delivery(topic, Payload(topic, m), mon.userFunc))
    {
      assert PrintableOne([topic], m) && [topic][0] == topic;
      HandledExport(mon, topic, m);
    }
  }

  ghost predicate Single(f: string -> Option<Delivery>, topic: string, userFunc: int, messages: seq<string>) {
    Accepted(f, Dedup(TextsOf(topic, messages))) == Deliveries(topic, userFunc, Dedup(messages))
  }

  lemma {:induction false} SingleTopic(f: string -> Option<Delivery>, topic: string, userFunc: int, messages: seq<string>)
    requires TakesAll(f, topic, userFunc, messages)
    ensures Single(f, topic, userFunc, messages)
  {
    if messages == [] {
      assert TextsOf(topic, []) == [];
    } else {
      hide Single;
      var ms, m := messages[..|messages| - 1], messages[|messages| - 1];
      SingleTopic(f, topic, userFunc, ms);
      assert messages == ms + [m];
      OneMoreMessage(f, topic, userFunc, ms, m);
    }
  }

  lemma OneMoreMessage(f: string -> Option<Delivery>, topic: string, userFunc: int, ms: seq<string>, m: string)
    requires Single(f, topic, userFunc, ms)
    requires f(Payload(topic, m)) == Some(Delivery(topic, Payload(topic, m), userFunc))
    ensures Single(f, topic, userFunc, ms + [m])
  {
    hide Dedup, Accepted, Deliveries;
    assert TextsOf(topic, ms + [m]) == TextsOf(topic, ms) + [Payload(topic, m)];
    OneMoreText(f, topic, userFunc, TextsOf(topic, ms), ms, m);
  }

  lemma OneMoreText(f: string -> Option<Delivery>, topic: string, userFunc: int, h: seq<string>, ms: seq<string>, m: string)
    requires (h == [] <==> ms == []) && (h != [] ==> h[|h| - 1] == Payload(topic, ms[|ms| - 1]))
    requires Accepted(f, Dedup(h)) == Deliveries(topic, userFunc, Dedup(ms))
    requires f(Payload(topic, m)) == Some(Delivery(topic, Payload(topic, m), userFunc))
    ensures Accepted(f, Dedup(h + [Payload(topic, m)])) == Deliveries(topic, userFunc, Dedup(ms + [m]))
  {
    hide Dedup, Accepted;
    var v := Payload(topic, m);
    DedupAppend(ms, m);
    if ms != [] && ms[|ms| - 1] == m {
      AcceptedRepeat(f, h, v);
    } else {
      if ms != [] {
        PayloadInjective(topic, ms[|ms| - 1], m);
      }
      AcceptedChange(f, h, v);
    }
  }

  lemma SingleHistory(topic: string, messages: seq<string>, f: nat, e: nat)
    requires f <= e <= |messages|
    ensures |History([topic], messages)| == |messages|
    ensures History([topic], messages)[f..e] == TextsOf(topic, messages[f..e])
  {
    forall k | 0 <= k < |messages| ensures CallAt(0, [topic], messages, k).payload == Payload(topic, messages[k]) {
    }
  }

  lemma DeliveriesInjective(topic: string, userFunc: int, a: seq<string>, b: seq<string>)
    ensures Deliveries(topic, userFunc, a) == Deliveries(topic, userFunc, b) <==> a == b
  {
    var da, db := Deliveries(topic, userFunc, a), Deliveries(topic, userFunc, b);
    if da == db {
      assert |a| == |da| == |db| == |b|;
      forall k | 0 <= k < |a| ensures a[k] == b[k] {
        assert da[k] == db[k];
        PayloadInjective(topic, a[k], b[k]);
      }
    }
  }

  /** With a single topic the same connection is called for the messages without adjacent repetitions; so it gets
      all of them exactly if none equals the one before. */
  lemma SingleTopicDropsRepeats(e0: State, es: seq<Step>,
                                s1: Protocol.State, steps: seq<Protocol.Step>, s: Protocol.State, i: nat, topic: string)
    requires Watches(e0, es, s1, steps, s, i, 0) && e0.topics == [topic]
    ensures var r, uf := Protocol.Since(s1.items[i], s.items[i]), s1.items[i].mon.userFunc;
            && (r.sampled == [] ==> r.calls == [])
            && (r.sampled != [] ==>
                  && FirstSeen(r.sampled[0]) <= |s.attempts| <= |Arrived(es, 0)|
                  && var ms := Arrived(es, 0)[FirstSeen(r.sampled[0])..|s.attempts|];
                     && Protocol.Calls(r.calls) == Deliveries(topic, uf, Dedup(ms))
                     && (Protocol.Calls(r.calls) == Deliveries(topic, uf, ms) <==> NoRepeats(ms)))
  {
    hide Exports, Protocol.CleanRun, Protocol.Run, Protocol.Reachable;
    hide Arrived, Protocol.SampledThroughout, Deliveries, Dedup, Accepted, NoRepeats;
    ConnectionCalls(e0, es, s1, steps, s, i, 0);
    var r := Protocol.Since(s1.items[i], s.items[i]);
    if r.sampled != [] {
      var f, e := FirstSeen(r.sampled[0]), |s.attempts|;
      SingleHistory(topic, Arrived(es, 0), 0, 0);
      SingleHistory(topic, Arrived(es, 0), f, e);
      var ms := Arrived(es, 0)[f..e];
      AllTaken(r.mon, topic, ms);
      SingleTopic(Protocol.Handler(r.mon), topic, r.mon.userFunc, ms);
      DedupIdentityIff(ms);
      DeliveriesInjective(topic, r.mon.userFunc, Dedup(ms), ms);
    }
  }

  /** A Python subscriber gets the exported text unchanged exactly if the topic name does not start with '{'. */
  lemma PythonKeepsExportIff(topic: string, data: string)
    requires EndsWith(data, ']') && topic != ""
    ensures PyTrim(CTrim(Payload(topic, data))) == Payload(topic, data) <==> topic[0] != '{'
  {
    var p := Payload(topic, data);
    TwoStageTrim(p);
    assert p[|p| - 1] == ']' && p[0] == topic[0];
  }

  // ---------------------------------------------------------------------------------------------------------
  // The subscription finds the publisher's nodes.

  /** If every configured topic has been published, under a name that fits, each monitored item is for the node that
      the server registered for the topic of its own configuration, and calls back for that topic. */
  lemma SubscriptionFindsNodes(base: seq<string>, h: seq<Registry.Pub>, ns: string, cfgs: seq<Topics.TopicConfig>,
                               t: Client.Turn, v: Client.Table, cb: bool, userFunc: int, i: nat)
    requires Registry.OneNamespace(h, ns) && Registry.AllOk(h) && Registry.NsIndex(base, ns) > 0
    requires |t.listings| == |cfgs| && i < |cfgs|
    requires Lookup.Lists(Lookup.Flat(t.listings[i]), Registry.Run(base, h).space.nodes)
    requires cfgs[i].name in Registry.TopicsOf(h) && |cfgs[i].name| < NAMESPACE_SIZE
    requires Client.Routed(v, cfgs, cb, userFunc, Client.AllFound(t, cfgs)) && v.items.Some? && v.contexts.Some?
    ensures Registry.Known(Registry.Run(base, h).space, ns, cfgs[i].name)
    ensures Registry.IndexOf(Registry.Run(base, h).space.namespaces, ns) == Some(v.items.value[i].ns)
    ensures v.items.value[i].id == cfgs[i].name == v.monitor[v.contexts.value[i]].topic
  {
    hide Registry.Run;
    Registry.KnownIsPublished(base, h, ns);
    Lookup.LookupAgreesIff(base, h, ns, Lookup.Flat(t.listings[i]), cfgs[i].name);
    assert Client.AllFound(t, cfgs)[i] == Client.Found(t, i, cfgs[i].name);
  }
}
