/** The exporter: every message a worker receives is published on every configured topic, the topic name first. */
module Exporter {
  import opened CStrings

  datatype Call = Call(worker: nat, topic: string, payload: string)

  function Payload(topic: string, data: string): string {
    topic + " " + data
  }

  /** The publish calls for one message. */
  function FanOut(worker: nat, topics: seq<string>, data: string): seq<Call> {
    seq(|topics|, i requires 0 <= i < |topics| => Call(worker, topics[i], Payload(topics[i], data)))
  }

  /** The publish calls for a list of messages. */
  function FanOuts(worker: nat, topics: seq<string>, messages: seq<string>): seq<Call> {
    if messages == [] then []
    else FanOuts(worker, topics, messages[..|messages| - 1]) + FanOut(worker, topics, messages[|messages| - 1])
  }

  /** The exporter object; `calls` records what reaches the bus. */
  class OpcuaExport {
    const pubTopics: seq<string>
    var calls: seq<Call>

    constructor (topics: seq<string>)
      ensures pubTopics == topics && calls == []
    {
      pubTopics := topics;
      calls := [];
    }

    /** Publish: first the topic configurations, then one bus call for each. */
    method Publish(worker: nat, data: string)
      modifies this
      ensures calls == old(calls) + FanOut(worker, pubTopics, data)
    {
      var topicConfigs := new string[|pubTopics|](_ => "");
      for i := 0 to |pubTopics|
        invariant topicConfigs[..i] == pubTopics[..i]
        invariant calls == old(calls)
      {
        topicConfigs[i] := pubTopics[i];
      }
      assert topicConfigs[..] == pubTopics;
      for i := 0 to topicConfigs.Length
        invariant topicConfigs[..] == pubTopics
        invariant calls == old(calls) + FanOut(worker, pubTopics, data)[..i]
      {
        var opcuaData := Payload(topicConfigs[i], data);
        calls := calls + [Call(worker, topicConfigs[i], opcuaData)];
      }
    }
  }

  // ---------------------------------------------------------------------------------------------------------
  // Several workers at once: their publish calls interleave.

  /** A worker has messages waiting in its channel, has finished some, and may be at the `next` topic of one. */
  datatype Worker = Worker(channel: seq<string>, finished: seq<string>, current: Option<Progress>)
  datatype Progress = Progress(data: string, next: nat)

  datatype State = State(topics: seq<string>, workers: seq<Worker>, log: seq<Call>)

  datatype Step = Arrive(w: nat, data: string) | Receive(w: nat) | PublishNext(w: nat) | ReceiveError(w: nat)

  predicate Init(s: State) {
    s.log == [] && forall w | 0 <= w < |s.workers| :: s.workers[w] == Worker([], [], None)
  }

  /** The worker's loop body, cut at its publish calls.  A publish that fails is logged and passed over. */
  function Next(s: State, e: Step): State {
    if e.w >= |s.workers| then s
    else
      var k := s.workers[e.w];
      match e
      case Arrive(w, data) => s.(workers := s.workers[w := k.(channel := k.channel + [data])])
      case Receive(w) =>
        if k.current.None? && k.channel != []
        then s.(workers := s.workers[w := Worker(k.channel[1..], k.finished, Some(Progress(k.channel[0], 0)))])
        else s
      case PublishNext(w) =>
        if k.current.None? then s
        else
          var p := k.current.value;
          if p.next < |s.topics| then
            s.(workers := s.workers[w := k.(current := Some(p.(next := p.next + 1)))],
               log := s.log + [Call(w, s.topics[p.next], Payload(s.topics[p.next], p.data))])
          else s.(workers := s.workers[w := k.(finished := k.finished + [p.data], current := None)])
      case ReceiveError(w) => s
  }

  function Run(s: State, steps: seq<Step>): State {
    if steps == [] then s else Next(Run(s, steps[..|steps| - 1]), steps[|steps| - 1])
  }

  /** One worker's part of the publish history. */
  function Of(log: seq<Call>, w: nat): seq<Call> {
    if log == [] then []
    else Of(log[..|log| - 1], w) + if log[|log| - 1].worker == w then [log[|log| - 1]] else []
  }

  /** The messages that arrived on a worker's channel, from the schedule alone. */
  function Arrived(steps: seq<Step>, w: nat): seq<string> {
    if steps == [] then []
    else
      var e := steps[|steps| - 1];
      Arrived(steps[..|steps| - 1], w) + if e.Arrive? && e.w == w then [e.data] else []
  }

  /** The publish calls a worker has made, by what it has finished and what it is at. */
  function Published(w: nat, topics: seq<string>, k: Worker): seq<Call>
    requires k.current.Some? ==> k.current.value.next <= |topics|
  {
    FanOuts(w, topics, k.finished) + if k.current.Some? then FanOut(w, topics, k.current.value.data)[..k.current.value.next] else []
  }

  predicate Sound(topics: seq<string>, k: Worker) {
    k.current.Some? ==> k.current.value.next <= |topics|
  }

  ghost predicate InOrder(s: State, w: nat)
    requires w < |s.workers|
  {
    Sound(s.topics, s.workers[w]) && Of(s.log, w) == Published(w, s.topics, s.workers[w])
  }

  lemma OfSnoc(log: seq<Call>, c: Call, w: nat)
    ensures Of(log + [c], w) == Of(log, w) + if c.worker == w then [c] else []
  {
    assert (log + [c])[..|log|] == log;
  }

  lemma FanOutsSnoc(w: nat, topics: seq<string>, messages: seq<string>, m: string)
    ensures FanOuts(w, topics, messages + [m]) == FanOuts(w, topics, messages) + FanOut(w, topics, m)
  {
    assert (messages + [m])[..|messages|] == messages;
  }

  lemma OneMorePublished(w: nat, topics: seq<string>, k: Worker)
    requires k.current.Some? && Sound(topics, k)
    ensures var p := k.current.value;
            p.next < |topics| ==>
              Published(w, topics, k.(current := Some(p.(next := p.next + 1))))
              == Published(w, topics, k) + [Call(w, topics[p.next], Payload(topics[p.next], p.data))]
    ensures var p := k.current.value;
            p.next == |topics| ==>
              Published(w, topics, k.(finished := k.finished + [p.data], current := None)) == Published(w, topics, k)
  {
    var p := k.current.value;
    var f := FanOut(w, topics, p.data);
    if p.next < |topics| {
      assert f[..p.next + 1] == f[..p.next] + [f[p.next]];
    } else {
      FanOutsSnoc(w, topics, k.finished, p.data);
      assert f[..p.next] == f;
    }
  }

  lemma StepInOrder(s: State, e: Step, w: nat)
    requires w < |s.workers| && InOrder(s, w)
    ensures var t := Next(s, e); t.topics == s.topics && |t.workers| == |s.workers| && InOrder(t, w)
  {
    var k := s.workers[w];
    if e.w == w && k.current.Some? {
      OneMorePublished(w, s.topics, k);
    }
    if e.PublishNext? && e.w < |s.workers| && s.workers[e.w].current.Some? {
      var p := s.workers[e.w].current.value;
      if p.next < |s.topics| {
        OfSnoc(s.log, Call(e.w, s.topics[p.next], Payload(s.topics[p.next], p.data)), w);
      }
    }
  }

  /** Under any interleaving of any number of workers, one worker's publish calls are those for its finished
      messages and a beginning of those for the message it is at; and finished messages, that message and the
      waiting ones are the messages that arrived for it, in order. */
  lemma {:induction false} FanOutUnderInterleaving(s0: State, steps: seq<Step>, w: nat)
    requires Init(s0) && w < |s0.workers|
    ensures var s := Run(s0, steps);
            && s.topics == s0.topics && |s.workers| == |s0.workers| && InOrder(s, w)
            && Arrived(steps, w) == s.workers[w].finished + Current(s.workers[w]) + s.workers[w].channel
  {
    if steps == [] {
    } else {
      FanOutUnderInterleaving(s0, steps[..|steps| - 1], w);
      StepInOrder(Run(s0, steps[..|steps| - 1]), steps[|steps| - 1], w);
      StepKeepsMessages(Run(s0, steps[..|steps| - 1]), steps[|steps| - 1], w);
    }
  }

  function Current(k: Worker): seq<string> {
    if k.current.Some? then [k.current.value.data] else []
  }

  lemma StepKeepsMessages(s: State, e: Step, w: nat)
    requires w < |s.workers|
    ensures var k, k' := s.workers[w], Next(s, e).workers[w];
            k'.finished + Current(k') + k'.channel
            == k.finished + Current(k) + k.channel + if e.Arrive? && e.w == w then [e.data] else []
  {
  }

  // ---------------------------------------------------------------------------------------------------------
  // What is exported, and that it is.

  /** An exported text is the topic, one blank, and the data. */
  ghost predicate IsExport(payload: string, topic: string, data: string) {
    && |payload| == |topic| + 1 + |data|
    && payload[..|topic|] == topic && payload[|topic|] == ' ' && payload[|topic| + 1..] == data
  }

  /** Every publish call of any run is an export of a message that arrived for its worker, on a configured topic. */
  ghost predicate AllExports(s: State, steps: seq<Step>) {
    forall k | 0 <= k < |s.log| :: IsExportOfArrived(s.topics, s.log[k], steps)
  }

  ghost predicate IsExportOfArrived(topics: seq<string>, c: Call, steps: seq<Step>) {
    c.topic in topics && exists data :: data in Arrived(steps, c.worker) && IsExport(c.payload, c.topic, data)
  }

  lemma {:induction false} CallsAreExports(s0: State, steps: seq<Step>)
    requires Init(s0)
    ensures AllExports(Run(s0, steps), steps)
  {
    if steps == [] {
    } else {
      var g, e := steps[..|steps| - 1], steps[|steps| - 1];
      CallsAreExports(s0, g);
      RunKeepsWorkers(s0, g);
      if e.w < |Run(s0, g).workers| {
        FanOutUnderInterleaving(s0, g, e.w);
      }
      assert steps == g + [e];
      ExportsStay(Run(s0, g), g, e);
    }
  }

  lemma ExportsStay(s: State, g: seq<Step>, e: Step)
    requires AllExports(s, g)
    requires e.w < |s.workers| && s.workers[e.w].current.Some? ==> s.workers[e.w].current.value.data in Arrived(g, e.w)
    ensures AllExports(Next(s, e), g + [e])
  {
    assert (g + [e])[..|g|] == g;
    var t := Next(s, e);
    forall c, data | data in Arrived(g, c) ensures data in Arrived(g + [e], c) {
    }
    forall k | 0 <= k < |t.log| ensures IsExportOfArrived(t.topics, t.log[k], g + [e]) {
      if k < |s.log| {
        assert IsExportOfArrived(s.topics, s.log[k], g);
      } else {
        var p := s.workers[e.w].current.value;
        assert IsExport(t.log[k].payload, s.topics[p.next], p.data);
      }
    }
  }

  function Repeat(w: nat, n: nat): seq<Step> {
    seq(n, _ => PublishNext(w))
  }

  lemma RunSnoc(s: State, g: seq<Step>, e: Step)
    ensures Run(s, g + [e]) == Next(Run(s, g), e)
  {
    assert (g + [e])[..|g|] == g;
  }

  /** A worker that has just taken a message publishes it on one more topic at each turn. */
  lemma {:induction false} MovesOn(s: State, w: nat, data: string, n: nat)
    requires w < |s.workers| && s.workers[w].current == Some(Progress(data, 0)) && n <= |s.topics|
    ensures Run(s, Repeat(w, n)) == s.(workers := s.workers[w := s.workers[w].(current := Some(Progress(data, n)))],
                                       log := s.log + FanOut(w, s.topics, data)[..n])
  {
    if n == 0 {
      assert s.log + FanOut(w, s.topics, data)[..0] == s.log;
      assert s.workers[w := s.workers[w].(current := Some(Progress(data, 0)))] == s.workers;
    } else {
      MovesOn(s, w, data, n - 1);
      assert Repeat(w, n) == Repeat(w, n - 1) + [PublishNext(w)];
      RunSnoc(s, Repeat(w, n - 1), PublishNext(w));
      var f := FanOut(w, s.topics, data);
      assert f[..n] == f[..n - 1] + [f[n - 1]];
      assert s.log + f[..n] == s.log + f[..n - 1] + [f[n - 1]];
    }
  }

  /** The turns an idle worker needs for the message at the front of its channel: it then has published all of it, and
      is idle again. */
  lemma MessageFinished(s: State, w: nat)
    requires w < |s.workers| && s.workers[w].current == None && s.workers[w].channel != []
    ensures var k, data, n := s.workers[w], s.workers[w].channel[0], |s.topics|;
            Run(s, [Receive(w)] + Repeat(w, n) + [PublishNext(w)])
            == s.(workers := s.workers[w := Worker(k.channel[1..], k.finished + [data], None)],
                  log := s.log + FanOut(w, s.topics, data))
  {
    var k, data, n := s.workers[w], s.workers[w].channel[0], |s.topics|;
    var r := Next(s, Receive(w));
    RunConcat(s, [Receive(w)], Repeat(w, n));
    assert [Receive(w)][..0] == [];
    assert Run(s, [Receive(w)]) == r;
    MovesOn(r, w, data, n);
    RunSnoc(s, [Receive(w)] + Repeat(w, n), PublishNext(w));
    assert FanOut(w, s.topics, data)[..n] == FanOut(w, s.topics, data);
    var done := Worker(k.channel[1..], k.finished + [data], None);
    assert r.workers[w := done] == s.workers[w := done];
  }

  lemma {:induction false} RunConcat(s: State, g: seq<Step>, h: seq<Step>)
    ensures Run(s, g + h) == Run(Run(s, g), h)
  {
    if h == [] {
      assert g + h == g;
    } else {
      var n := |h| - 1;
      assert (g + h)[..|g + h| - 1] == g + h[..n];
      RunConcat(s, g, h[..n]);
    }
  }

  // ---------------------------------------------------------------------------------------------------------
  // The publish history by position: message k / n on topic k % n.

  lemma ProductGrows(a: nat, b: nat, n: nat)
    requires a <= b
    ensures a * n <= b * n
  {
    assert b * n == a * n + (b - a) * n;
  }

  lemma DivBound(k: nat, m: nat, n: nat)
    requires k < m * n
    ensures n > 0 && k / n < m
  {
    if k / n >= m {
      ProductGrows(m, k / n, n);
    }
  }

  lemma DivOf(q: nat, r: nat, n: nat)
    requires r < n
    ensures (q * n + r) / n == q && (q * n + r) % n == r
  {
    var k := q * n + r;
    assert k == (k / n) * n + k % n;
    if k / n < q {
      ProductGrows(k / n + 1, q, n);
    } else if k / n > q {
      ProductGrows(q + 1, k / n, n);
    }
  }

  /** The k-th publish call of a worker that gets these messages. */
  function CallAt(worker: nat, topics: seq<string>, messages: seq<string>, k: nat): Call
    requires k < |messages| * |topics|
  {
    DivBound(k, |messages|, |topics|);
    Call(worker, topics[k % |topics|], Payload(topics[k % |topics|], messages[k / |topics|]))
  }

  function CallsFor(worker: nat, topics: seq<string>, messages: seq<string>): seq<Call> {
    seq(|messages| * |topics|, k requires 0 <= k < |messages| * |topics| => CallAt(worker, topics, messages, k))
  }

  lemma EarlierCalls(worker: nat, topics: seq<string>, messages: seq<string>, more: seq<string>)
    ensures CallsFor(worker, topics, messages) <= CallsFor(worker, topics, messages + more)
  {
    ProductGrows(|messages|, |messages + more|, |topics|);
    forall k | 0 <= k < |messages| * |topics|
      ensures CallAt(worker, topics, messages, k) == CallAt(worker, topics, messages + more, k)
    {
      DivBound(k, |messages|, |topics|);
    }
  }

  lemma CallAtIs(worker: nat, topics: seq<string>, messages: seq<string>, q: nat, i: nat, k: nat)
    requires q < |messages| && i < |topics| && k == q * |topics| + i
    ensures k < |messages| * |topics|
    ensures CallAt(worker, topics, messages, k) == Call(worker, topics[i], Payload(topics[i], messages[q]))
  {
    ProductGrows(q + 1, |messages|, |topics|);
    DivOf(q, i, |topics|);
  }

  /** One more message: its fan-out comes after the earlier calls. */
  lemma CallsForSnoc(worker: nat, topics: seq<string>, messages: seq<string>, m: string)
    ensures CallsFor(worker, topics, messages + [m]) == CallsFor(worker, topics, messages) + FanOut(worker, topics, m)
  {
    var a, b := CallsFor(worker, topics, messages), CallsFor(worker, topics, messages + [m]);
    EarlierCalls(worker, topics, messages, [m]);
    assert |b| == |a| + |topics| by {
      assert |messages + [m]| * |topics| == |messages| * |topics| + |topics|;
    }
    forall i | 0 <= i < |topics| ensures b[|a| + i] == FanOut(worker, topics, m)[i] {
      hide CallAt;
      CallAtIs(worker, topics, messages + [m], |messages|, i, |a| + i);
    }
    assert b == b[..|a|] + b[|a|..];
    assert b[|a|..] == FanOut(worker, topics, m);
  }

  /** The loops of the worker and of Publish together: message by message, topic by topic. */
  lemma {:induction false} FanOutsByPosition(worker: nat, topics: seq<string>, messages: seq<string>)
    ensures FanOuts(worker, topics, messages) == CallsFor(worker, topics, messages)
  {
    if messages == [] {
    } else {
      var n := |messages| - 1;
      FanOutsByPosition(worker, topics, messages[..n]);
      CallsForSnoc(worker, topics, messages[..n], messages[n]);
      assert messages == messages[..n] + [messages[n]];
    }
  }

  ghost predicate KnownWorkers(s: State) {
    forall k | 0 <= k < |s.log| :: s.log[k].worker < |s.workers|
  }

  lemma {:induction false} RunKeepsWorkers(s0: State, steps: seq<Step>)
    requires Init(s0)
    ensures |Run(s0, steps).workers| == |s0.workers| && KnownWorkers(Run(s0, steps))
  {
    if steps == [] {
    } else {
      RunKeepsWorkers(s0, steps[..|steps| - 1]);
    }
  }

  lemma {:induction false} OfAll(log: seq<Call>, w: nat)
    requires forall k | 0 <= k < |log| :: log[k].worker == w
    ensures Of(log, w) == log
  {
    if log == [] {
    } else {
      OfAll(log[..|log| - 1], w);
    }
  }

  lemma PublishedIsBeginning(topics: seq<string>, k: Worker, messages: seq<string>)
    requires Sound(topics, k) && messages == k.finished + Current(k) + k.channel
    ensures Published(0, topics, k) <= CallsFor(0, topics, messages)
    ensures k.current == None && k.channel == [] ==> Published(0, topics, k) == CallsFor(0, topics, messages)
  {
    hide FanOuts, CallsFor;
    FanOutsByPosition(0, topics, k.finished);
    if k.current.Some? {
      var done := k.finished + Current(k);
      CallsForSnoc(0, topics, k.finished, k.current.value.data);
      EarlierCalls(0, topics, done, k.channel);
      assert Published(0, topics, k) <= CallsFor(0, topics, done);
    } else {
      EarlierCalls(0, topics, k.finished, k.channel);
      assert messages == k.finished + k.channel;
      assert k.channel == [] ==> messages == k.finished;
    }
  }

  /** A single worker's exporter: the whole publish history is a beginning of the calls, by position, for the messages
      that arrived, and all of them once the worker is idle with an empty channel. */
  lemma SingleWorkerHistory(s0: State, steps: seq<Step>)
    requires Init(s0) && |s0.workers| == 1
    ensures var s, calls := Run(s0, steps), CallsFor(0, s0.topics, Arrived(steps, 0));
            && |s.workers| == 1 && s.topics == s0.topics && s.log <= calls
            && (s.workers[0].current == None && s.workers[0].channel == [] ==> s.log == calls)
  {
    hide Run, Arrived, FanOut, FanOuts, CallsFor, Published;
    var s := Run(s0, steps);
    FanOutUnderInterleaving(s0, steps, 0);
    RunKeepsWorkers(s0, steps);
    OfAll(s.log, 0);
    PublishedIsBeginning(s.topics, s.workers[0], Arrived(steps, 0));
  }
}
