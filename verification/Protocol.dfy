/** The publish/subscribe path as a step machine over its real shared state: ONE buffer behind every node.

    A publisher thread registers its topic, overwrites the buffer, and writes the node; a monitored item samples
    the buffer and queues a notification when the sampled value changed; the client delivers notifications from
    the front of an item's queue.  Steps of different threads interleave freely, the library may lose
    notifications, and a reconnect recreates every item.

    `pos` and `sampled` are history variables: how many times the buffer had been overwritten at a sample. */
module Protocol {
  import opened CStrings
  import opened Streams
  import opened Trim

  /** One overwrite of the buffer; `stored` is what the bounded copy left in it. */
  datatype Attempt = Attempt(topic: string, payload: string, stored: string)
  datatype Note = Note(value: string, pos: nat)
  datatype Callback = Callback(call: Delivery, pos: nat, junk: string)
  datatype Item = Item(mon: MonitorContext, last: Option<string>, queue: seq<Note>, calls: seq<Callback>, sampled: seq<nat>)
  datatype Publisher = Idle | Registered(topic: string, payload: string) | Stored(topic: string)

  datatype State = State(nodes: set<string>, publishers: seq<Publisher>, attempts: seq<Attempt>, buffer: string,
                         items: seq<Item>)

  datatype Step =
    | Register(p: nat, topic: string, payload: string, added: bool)
    | Overwrite(p: nat, stored: string)
    | Write(p: nat, good: bool)
    | Sample(i: nat)
    | Deliver(i: nat, junk: string)
    | Lose(i: nat, k: nat)
    | Reconnect

  predicate NewItem(it: Item) {
    it.last == None && it.queue == [] && it.calls == [] && it.sampled == []
  }

  predicate Init(s: State) {
    && s.nodes == {} && s.attempts == [] && s.buffer == ""
    && (forall p | 0 <= p < |s.publishers| :: s.publishers[p] == Idle)
    && (forall i | 0 <= i < |s.items| :: NewItem(s.items[i]))
  }

  function Sampled(it: Item, value: string, pos: nat): Item {
    it.(last := Some(value),
        queue := if it.last == Some(value) then it.queue else it.queue + [Note(value, pos)],
        sampled := it.sampled + [pos])
  }

  /** The callback, if any, that delivering a notification makes. */
  function Made(mon: MonitorContext, n: Note, junk: string): seq<Callback> {
    var call := Handle(mon, n.value + junk);
    if call.Some? then [Callback(call.value, n.pos, junk)] else []
  }

  function Delivered(it: Item, junk: string): Item
    requires it.queue != []
  {
    it.(queue := it.queue[1..], calls := it.calls + Made(it.mon, it.queue[0], junk))
  }

  function Lost(it: Item, k: nat): Item
    requires k < |it.queue|
  {
    it.(queue := it.queue[..k] + it.queue[k + 1..])
  }

  function Recreated(it: Item): Item {
    it.(last := None, queue := [])
  }

  /** A step that is not enabled leaves the state alone. */
  function Next(s: State, e: Step): State {
    match e
    case Register(p, topic, payload, added) =>
      if p < |s.publishers| && s.publishers[p].Idle?
      then s.(publishers := s.publishers[p := Registered(topic, payload)], nodes := if added then s.nodes + {topic} else s.nodes)
      else s
    case Overwrite(p, stored) =>
      if p < |s.publishers| && s.publishers[p].Registered? && (Fits(s.publishers[p].payload) ==> stored == s.publishers[p].payload)
      then s.(publishers := s.publishers[p := Stored(s.publishers[p].topic)], buffer := stored,
              attempts := s.attempts + [Attempt(s.publishers[p].topic, s.publishers[p].payload, stored)])
      else s
    case Write(p, good) =>
      if p < |s.publishers| && s.publishers[p].Stored? then s.(publishers := s.publishers[p := Idle]) else s
    case Sample(i) =>
      if i < |s.items| && s.items[i].mon.topic in s.nodes
      then s.(items := s.items[i := Sampled(s.items[i], s.buffer, |s.attempts|)])
      else s
    case Deliver(i, junk) =>
      if i < |s.items| && s.items[i].queue != [] then s.(items := s.items[i := Delivered(s.items[i], junk)]) else s
    case Lose(i, k) =>
      if i < |s.items| && k < |s.items[i].queue| then s.(items := s.items[i := Lost(s.items[i], k)]) else s
    case Reconnect =>
      s.(items := seq(|s.items|, i requires 0 <= i < |s.items| => Recreated(s.items[i])))
  }

  function Run(s: State, steps: seq<Step>): State {
    if steps == [] then s else Next(Run(s, steps[..|steps| - 1]), steps[|steps| - 1])
  }

  /** The buffer's content after the first `k` overwrites. */
  function At(attempts: seq<Attempt>, k: nat): string
    requires k <= |attempts|
  {
    if k == 0 then "" else attempts[k - 1].stored
  }

  // ---------------------------------------------------------------------------------------------------------
  // What every step keeps.

  predicate NoteOk(attempts: seq<Attempt>, n: Note) {
    n.pos <= |attempts| && n.value == At(attempts, n.pos)
  }

  /** The callback carries the text at its position, as the item's own handler reads it. */
  predicate CallOk(attempts: seq<Attempt>, mon: MonitorContext, c: Callback) {
    c.pos <= |attempts| && Handle(mon, At(attempts, c.pos) + c.junk) == Some(c.call)
  }

  predicate AttemptOk(a: Attempt) {
    Fits(a.payload) ==> a.stored == a.payload
  }

  /** Callbacks, then queued notifications, tell an item's past in order. */
  ghost predicate ItemInv(attempts: seq<Attempt>, it: Item) {
    && (forall k | 0 <= k < |it.queue| :: NoteOk(attempts, it.queue[k]))
    && (forall k | 0 <= k < |it.calls| :: CallOk(attempts, it.mon, it.calls[k]))
    && (forall a, b | 0 <= a < b < |it.queue| :: it.queue[a].pos <= it.queue[b].pos)
    && (forall a, b | 0 <= a < b < |it.calls| :: it.calls[a].pos <= it.calls[b].pos)
    && (forall a, b | 0 <= a < |it.calls| && 0 <= b < |it.queue| :: it.calls[a].pos <= it.queue[b].pos)
  }

  ghost predicate Inv(s: State) {
    && s.buffer == At(s.attempts, |s.attempts|)
    && (forall k | 0 <= k < |s.attempts| :: AttemptOk(s.attempts[k]))
    && (forall i | 0 <= i < |s.items| :: ItemInv(s.attempts, s.items[i]))
  }

  lemma AttemptKeepsItem(attempts: seq<Attempt>, a: Attempt, it: Item)
    requires ItemInv(attempts, it)
    ensures ItemInv(attempts + [a], it)
  {
    forall k | 0 <= k < |it.queue| ensures NoteOk(attempts + [a], it.queue[k]) {
      assert NoteOk(attempts, it.queue[k]);
    }
    forall k | 0 <= k < |it.calls| ensures CallOk(attempts + [a], it.mon, it.calls[k]) {
      assert CallOk(attempts, it.mon, it.calls[k]);
    }
  }

  lemma SampleKeepsItem(attempts: seq<Attempt>, it: Item)
    requires ItemInv(attempts, it)
    ensures ItemInv(attempts, Sampled(it, At(attempts, |attempts|), |attempts|))
  {
    hide Handle;
    assert forall k | 0 <= k < |it.calls| :: CallOk(attempts, it.mon, it.calls[k]) && it.calls[k].pos <= |attempts|;
    assert forall k | 0 <= k < |it.queue| :: NoteOk(attempts, it.queue[k]) && it.queue[k].pos <= |attempts|;
    assert NoteOk(attempts, Note(At(attempts, |attempts|), |attempts|));
  }

  lemma DeliverKeepsItem(attempts: seq<Attempt>, it: Item, junk: string)
    requires ItemInv(attempts, it) && it.queue != []
    ensures ItemInv(attempts, Delivered(it, junk))
  {
    var n, rest := it.queue[0], it.queue[1..];
    assert NoteOk(attempts, n);
    forall k | 0 <= k < |rest| ensures NoteOk(attempts, rest[k]) && n.pos <= rest[k].pos {
      assert NoteOk(attempts, it.queue[k + 1]);
    }
    MadeIsOk(attempts, it.mon, n, junk);
  }

  lemma MadeIsOk(attempts: seq<Attempt>, mon: MonitorContext, n: Note, junk: string)
    requires NoteOk(attempts, n)
    ensures |Made(mon, n, junk)| <= 1
    ensures forall c | c in Made(mon, n, junk) :: CallOk(attempts, mon, c) && c.pos == n.pos
  {
  }

  lemma LoseKeepsItem(attempts: seq<Attempt>, it: Item, k: nat)
    requires ItemInv(attempts, it) && k < |it.queue|
    ensures ItemInv(attempts, Lost(it, k)) && ItemInv(attempts, Recreated(it))
  {
  }

  lemma NextKeepsInv(s: State, e: Step)
    requires Inv(s)
    ensures Inv(Next(s, e))
  {
    hide Handle;
    match e
    case Register(p, topic, payload, added) =>
    case Overwrite(p, stored) =>
      forall i, a | 0 <= i < |s.items| ensures ItemInv(s.attempts + [a], s.items[i]) {
        AttemptKeepsItem(s.attempts, a, s.items[i]);
      }
    case Write(p, good) =>
    case Sample(i) =>
      if i < |s.items| { SampleKeepsItem(s.attempts, s.items[i]); }
    case Deliver(i, junk) =>
      if i < |s.items| && s.items[i].queue != [] { DeliverKeepsItem(s.attempts, s.items[i], junk); }
    case Lose(i, k) =>
      if i < |s.items| && k < |s.items[i].queue| { LoseKeepsItem(s.attempts, s.items[i], k); }
    case Reconnect =>
      assert forall i | 0 <= i < |s.items| :: ItemInv(s.attempts, Recreated(s.items[i]));
  }

  lemma {:induction false} RunKeepsInv(s: State, steps: seq<Step>)
    requires Inv(s)
    ensures Inv(Run(s, steps))
  {
    if steps == [] {
    } else {
      RunKeepsInv(s, steps[..|steps| - 1]);
      NextKeepsInv(Run(s, steps[..|steps| - 1]), steps[|steps| - 1]);
    }
  }

  // ---------------------------------------------------------------------------------------------------------
  // Isolation and order, over every run and every interleaving.

  ghost predicate Reachable(s: State) {
    exists s0, steps :: Init(s0) && s == Run(s0, steps)
  }

  lemma ReachableInv(s: State)
    requires Reachable(s)
    ensures Inv(s)
  {
    var s0, steps :| Init(s0) && s == Run(s0, steps);
    assert Inv(s0);
    RunKeepsInv(s0, steps);
  }

  /** Some publisher was asked to publish `payload` on `topic`. */
  ghost predicate Requested(steps: seq<Step>, topic: string, payload: string) {
    exists k :: 0 <= k < |steps| && steps[k].Register? && steps[k].topic == topic && steps[k].payload == payload
  }

  ghost predicate AllRequested(s: State, steps: seq<Step>) {
    && (forall k | 0 <= k < |s.attempts| :: Requested(steps, s.attempts[k].topic, s.attempts[k].payload))
    && (forall p | 0 <= p < |s.publishers| && s.publishers[p].Registered? ::
          Requested(steps, s.publishers[p].topic, s.publishers[p].payload))
  }

  /** Nothing is written to the buffer under a topic and payload that no publish call asked for. */
  lemma {:induction false} AttemptsWereRequested(s0: State, steps: seq<Step>)
    requires Init(s0)
    ensures AllRequested(Run(s0, steps), steps)
  {
    if steps == [] {
    } else {
      var g, e := steps[..|steps| - 1], steps[|steps| - 1];
      AttemptsWereRequested(s0, g);
      RequestedStays(Run(s0, g), g, e);
      assert steps == g + [e];
    }
  }

  lemma RequestedStays(s: State, g: seq<Step>, e: Step)
    requires AllRequested(s, g)
    ensures AllRequested(Next(s, e), g + [e])
  {
    hide Fits;
    forall topic, payload | Requested(g, topic, payload) ensures Requested(g + [e], topic, payload) {
      var k :| 0 <= k < |g| && g[k].Register? && g[k].topic == topic && g[k].payload == payload;
      assert (g + [e])[k] == g[k];
    }
    if e.Register? {
      assert (g + [e])[|g|] == e;
      assert Requested(g + [e], e.topic, e.payload);
    }
  }

  ghost predicate CleanCall(attempts: seq<Attempt>, c: Callback) {
    c.pos <= |attempts| ==> CleanJunk(At(attempts, c.pos), c.junk)
  }

  /** No text published for another topic reads as one for this item. */
  ghost predicate NoCrossTalk(attempts: seq<Attempt>, topic: string) {
    forall k | 0 <= k < |attempts| && attempts[k].topic != topic :: !Occurs(topic, CTrim(attempts[k].payload))
  }

  /** `c` carries the trimmed payload of an attempt made before it. */
  ghost predicate FromAttempt(attempts: seq<Attempt>, topic: string, c: Callback) {
    && 1 <= c.pos <= |attempts|
    && c.call.topic == topic && c.call.data == CTrim(attempts[c.pos - 1].payload) && Occurs(topic, c.call.data)
  }

  /** Every callback has a publish attempt before it whose trimmed payload it carries, and that attempt was made
      for the callback's own topic unless some other topic's payload contains that topic. */
  lemma Isolation(s: State, i: nat, k: nat)
    requires Reachable(s) && i < |s.items| && k < |s.items[i].calls| && s.items[i].mon.topic != ""
    requires CleanCall(s.attempts, s.items[i].calls[k])
    requires forall n | 0 <= n < |s.attempts| :: Fits(s.attempts[n].payload)
    ensures var topic, c := s.items[i].mon.topic, s.items[i].calls[k];
            FromAttempt(s.attempts, topic, c) && (NoCrossTalk(s.attempts, topic) ==> s.attempts[c.pos - 1].topic == topic)
  {
    ReachableInv(s);
    var it := s.items[i];
    assert ItemInv(s.attempts, it);
    assert CallOk(s.attempts, it.mon, it.calls[k]);
    CallHasAttempt(s.attempts, it.mon, it.calls[k]);
  }

  lemma CallHasAttempt(attempts: seq<Attempt>, mon: MonitorContext, c: Callback)
    requires mon.topic != "" && CallOk(attempts, mon, c) && CleanCall(attempts, c)
    requires forall k | 0 <= k < |attempts| :: AttemptOk(attempts[k]) && Fits(attempts[k].payload)
    ensures FromAttempt(attempts, mon.topic, c)
  {
    CleanHandling(mon, At(attempts, c.pos), c.junk);
    EmptyIsSilent(mon);
    assert c.pos > 0;
    ReceivedOfFitting(attempts[c.pos - 1].payload);
  }

  lemma RunAppend(s: State, steps: seq<Step>, e: Step)
    ensures Run(s, steps + [e]) == Next(Run(s, steps), e)
  {
    assert (steps + [e])[..|steps|] == steps;
  }

  lemma {:induction false} RunConcat(s: State, g: seq<Step>, h: seq<Step>)
    ensures Run(s, g + h) == Run(Run(s, g), h)
  {
    hide Next;
    if h == [] {
      assert g + h == g;
    } else {
      var n := |h| - 1;
      assert (g + h)[..|g + h| - 1] == g + h[..n];
      RunConcat(s, g, h[..n]);
    }
  }

  /** The steps of one undisturbed publish call whose payload fits. */
  function PublishSteps(p: nat, topic: string, payload: string): seq<Step> {
    [Register(p, topic, payload, true), Overwrite(p, payload), Write(p, true)]
  }

  lemma PublishRun(s: State, p: nat, topic: string, payload: string)
    requires p < |s.publishers| && s.publishers[p].Idle?
    ensures Run(s, PublishSteps(p, topic, payload))
            == s.(nodes := s.nodes + {topic}, buffer := payload, attempts := s.attempts + [Attempt(topic, payload, payload)])
  {
    hide Fits;
    var steps := PublishSteps(p, topic, payload);
    var s1, s2 := Next(s, steps[0]), Next(Next(s, steps[0]), steps[1]);
    RunOne(s, steps[0]);
    RunAppend(s, [steps[0]], steps[1]);
    RunAppend(s, [steps[0], steps[1]], steps[2]);
    assert [steps[0]] + [steps[1]] == [steps[0], steps[1]];
    assert [steps[0], steps[1]] + [steps[2]] == steps;
    assert s1.publishers[p] == Registered(topic, payload) && s2.publishers[p] == Stored(topic);
    assert Next(s2, steps[2]).publishers == s.publishers;
  }

  lemma RunOne(s: State, e: Step)
    ensures Run(s, [e]) == Next(s, e)
  {
    assert [e][..0] == [];
  }

  /** The condition is needed, with a single publisher and no concurrency at all: after any text for `topic`, a
      payload of `other` that contains `topic` reaches the subscriber of `topic`. */
  lemma CrossTalkHappens(topic: string, first: string, other: string, payload: string, userFunc: int)
    returns (s0: State, steps: seq<Step>)
    requires topic != other && Fits(first) && Fits(payload) && Occurs(topic, CTrim(payload))
    ensures Init(s0) && |s0.publishers| == 1 && |s0.items| == 1 && s0.items[0].mon.topic == topic
    ensures PublishSteps(0, topic, first) + PublishSteps(0, other, payload) <= steps
    ensures var s := Run(s0, steps);
            && s.attempts == [Attempt(topic, first, first), Attempt(other, payload, payload)]
            && |s.items| == 1 && Calls(s.items[0].calls) == [Delivery(topic, CTrim(payload), userFunc)]
  {
    var mon := MonitorContext(1, topic, true, userFunc);
    var it := Item(mon, None, [], [], []);
    s0 := State({}, [Idle], [], "", [it]);
    var one, two := PublishSteps(0, topic, first), PublishSteps(0, other, payload);
    steps := one + two + [Sample(0)] + [Deliver(0, "")];
    PublishRun(s0, 0, topic, first);
    PublishRun(Run(s0, one), 0, other, payload);
    RunConcat(s0, one, two);
    RunAppend(s0, one + two, Sample(0));
    RunAppend(s0, one + two + [Sample(0)], Deliver(0, ""));
    SampleThenDeliver(Run(s0, one + two), payload);
  }

  lemma SampleThenDeliver(s: State, payload: string)
    requires |s.items| == 1 && NewItem(s.items[0]) && s.items[0].mon.topic in s.nodes && s.buffer == payload
    requires s.items[0].mon.hasCallback && Fits(payload) && Occurs(s.items[0].mon.topic, CTrim(payload))
    ensures var t, mon := Next(Next(s, Sample(0)), Deliver(0, "")), s.items[0].mon;
            && t.attempts == s.attempts && |t.items| == 1
            && Calls(t.items[0].calls) == [Delivery(mon.topic, CTrim(payload), mon.userFunc)]
  {
    hide Handle;
    HandlesFitting(s.items[0].mon, payload);
    var t := Next(s, Sample(0));
    assert t.items[0].queue == [Note(payload, |s.attempts|)];
  }

  lemma HandlesFitting(mon: MonitorContext, payload: string)
    requires mon.hasCallback && Fits(payload) && Occurs(mon.topic, CTrim(payload))
    ensures Handle(mon, payload + "") == Some(Delivery(mon.topic, CTrim(payload), mon.userFunc))
  {
    ReceivedOfFitting(payload);
    assert payload + "" == payload;
  }

  function Positions(calls: seq<Callback>): seq<nat> {
    seq(|calls|, k requires 0 <= k < |calls| => calls[k].pos)
  }

  /** Whatever is sampled, lost or recreated, and whatever junk follows the bytes: an item's callbacks read, in
      order, contents the buffer had at non-decreasing times, each with the junk of its own delivery. */
  lemma CallsReadInOrder(s: State, i: nat)
    requires Reachable(s) && i < |s.items|
    ensures var it := s.items[i];
            var ps := Positions(it.calls);
            NonDecreasing(ps)
            && forall k | 0 <= k < |ps| :: ps[k] <= |s.attempts|
                                           && Handle(it.mon, At(s.attempts, ps[k]) + it.calls[k].junk) == Some(it.calls[k].call)
  {
    ReachableInv(s);
    var it := s.items[i];
    assert ItemInv(s.attempts, it);
    forall k | 0 <= k < |it.calls| ensures CallOk(s.attempts, it.mon, it.calls[k]) {
    }
  }

  /** `calls` carry the trimmed payloads of the attempts at `ps`. */
  ghost predicate MatchedTo(attempts: seq<Attempt>, calls: seq<Delivery>, ps: seq<nat>) {
    |ps| == |calls| && forall k | 0 <= k < |ps| :: 1 <= ps[k] <= |attempts| && calls[k].data == CTrim(attempts[ps[k] - 1].payload)
  }

  /** No going back: where the junk is cut away, an item's callbacks carry the trimmed payloads of publish attempts
      in the order in which these were made. */
  lemma NoGoingBack(s: State, i: nat)
    requires Reachable(s) && i < |s.items| && s.items[i].mon.topic != ""
    requires forall k | 0 <= k < |s.items[i].calls| :: CleanCall(s.attempts, s.items[i].calls[k])
    requires forall n | 0 <= n < |s.attempts| :: Fits(s.attempts[n].payload)
    ensures exists ps: seq<nat> :: NonDecreasing(ps) && MatchedTo(s.attempts, Calls(s.items[i].calls), ps)
  {
    CallsReadInOrder(s, i);
    var calls := s.items[i].calls;
    forall k | 0 <= k < |calls| ensures FromAttempt(s.attempts, s.items[i].mon.topic, calls[k]) {
      Isolation(s, i, k);
    }
    assert MatchedTo(s.attempts, Calls(calls), Positions(calls));
  }

  // ---------------------------------------------------------------------------------------------------------
  // Completeness.

  /** What an item makes of a text whose junk has been cut away. */
  function Handler(mon: MonitorContext): string -> Option<Delivery> {
    v => Handle(mon, v)
  }

  lemma EmptyIsSilent(mon: MonitorContext)
    requires mon.topic != ""
    ensures Handle(mon, "") == None
  {
    assert Received("") == "";
  }

  function NoteValues(q: seq<Note>): seq<string> {
    seq(|q|, k requires 0 <= k < |q| => q[k].value)
  }

  function Calls(calls: seq<Callback>): seq<Delivery> {
    seq(|calls|, k requires 0 <= k < |calls| => calls[k].call)
  }

  /** The calls the queued notifications will still make. */
  function Pending(mon: MonitorContext, queue: seq<Note>): seq<Delivery> {
    Accepted(Handler(mon), NoteValues(queue))
  }

  function Payloads(attempts: seq<Attempt>): seq<string> {
    seq(|attempts|, k requires 0 <= k < |attempts| => attempts[k].payload)
  }

  /** The contents of the buffer so far, the initial empty one first. */
  function Contents(attempts: seq<Attempt>): seq<string> {
    [""] + seq(|attempts|, k requires 0 <= k < |attempts| => attempts[k].stored)
  }

  ghost predicate SamplesOk(attempts: seq<Attempt>, it: Item) {
    && InRange(it.sampled, |attempts| + 1) && NonDecreasing(it.sampled)
    && it.last == (if it.sampled == [] then None else Some(Contents(attempts)[it.sampled[|it.sampled| - 1]]))
  }

  /** What has been called, with what the queue will still call, is what the values sampled so far call for. */
  ghost predicate Answers(mon: MonitorContext, calls: seq<Callback>, queue: seq<Note>, vs: seq<string>) {
    Calls(calls) + Pending(mon, queue) == Accepted(Handler(mon), Dedup(vs))
  }

  ghost predicate Faithful(attempts: seq<Attempt>, it: Item) {
    SamplesOk(attempts, it) && Answers(it.mon, it.calls, it.queue, Values(Contents(attempts), it.sampled))
  }

  lemma AttemptKeepsFaithful(attempts: seq<Attempt>, a: Attempt, it: Item)
    requires Faithful(attempts, it)
    ensures Faithful(attempts + [a], it)
  {
    hide Answers;
    assert Contents(attempts + [a]) == Contents(attempts) + [a.stored];
    assert Values(Contents(attempts + [a]), it.sampled) == Values(Contents(attempts), it.sampled);
  }

  lemma SampleKeepsFaithful(attempts: seq<Attempt>, it: Item)
    requires Faithful(attempts, it)
    ensures Faithful(attempts, Sampled(it, At(attempts, |attempts|), |attempts|))
  {
    hide Handle, Answers;
    var c, n := Contents(attempts), |attempts|;
    var vs, note := Values(c, it.sampled), Note(c[n], n);
    assert At(attempts, n) == c[n];
    SampleKeepsSamplesOk(attempts, it);
    ValuesSnoc(c, it.sampled, n);
    assert it.last == if vs == [] then None else Some(vs[|vs| - 1]);
    SampleKeepsAnswers(it.mon, it.calls, it.queue, vs, note);
    assert Sampled(it, c[n], n).queue == if vs != [] && vs[|vs| - 1] == c[n] then it.queue else it.queue + [note];
  }

  lemma SampleKeepsSamplesOk(attempts: seq<Attempt>, it: Item)
    requires SamplesOk(attempts, it)
    ensures SamplesOk(attempts, Sampled(it, At(attempts, |attempts|), |attempts|))
  {
  }

  lemma SampleKeepsAnswers(mon: MonitorContext, calls: seq<Callback>, queue: seq<Note>, vs: seq<string>, n: Note)
    requires Answers(mon, calls, queue, vs)
    ensures Answers(mon, calls, if vs != [] && vs[|vs| - 1] == n.value then queue else queue + [n], vs + [n.value])
  {
    var queue' := if vs != [] && vs[|vs| - 1] == n.value then queue else queue + [n];
    assert NoteValues(queue + [n]) == NoteValues(queue) + [n.value];
    ReportOne(Handler(mon), Calls(calls), NoteValues(queue), NoteValues(queue'), vs, n.value);
  }

  lemma DeliverKeepsAnswers(mon: MonitorContext, calls: seq<Callback>, queue: seq<Note>, vs: seq<string>, made: seq<Callback>)
    requires Answers(mon, calls, queue, vs) && queue != []
    requires Calls(made) == ToSeq(Handler(mon)(queue[0].value))
    ensures Answers(mon, calls + made, queue[1..], vs)
  {
    var q := NoteValues(queue);
    HandleOne(Handler(mon), Calls(calls), q);
    assert NoteValues(queue[1..]) == q[1..];
    assert Calls(calls + made) == Calls(calls) + Calls(made);
  }

  lemma DeliverKeepsFaithful(attempts: seq<Attempt>, it: Item, junk: string)
    requires Faithful(attempts, it) && it.queue != [] && CleanJunk(it.queue[0].value, junk)
    ensures Faithful(attempts, Delivered(it, junk))
  {
    var made := Made(it.mon, it.queue[0], junk);
    CleanMade(it.mon, it.queue[0], junk);
    DeliverKeepsAnswers(it.mon, it.calls, it.queue, Values(Contents(attempts), it.sampled), made);
    assert Delivered(it, junk) == it.(queue := it.queue[1..], calls := it.calls + made);
  }

  lemma CleanMade(mon: MonitorContext, n: Note, junk: string)
    requires CleanJunk(n.value, junk)
    ensures Calls(Made(mon, n, junk)) == ToSeq(Handler(mon)(n.value))
  {
    CleanHandling(mon, n.value, junk);
  }

  lemma CleanHandling(mon: MonitorContext, v: string, junk: string)
    requires CleanJunk(v, junk)
    ensures Handle(mon, v + junk) == Handler(mon)(v)
  {
    JunkRemovedIff(v, junk);
  }

  // ---------------------------------------------------------------------------------------------------------
  // One connection: from the creation of an item, at the start or by a reconnect, on.

  predicate JustCreated(it: Item) {
    it.last == None && it.queue == []
  }

  /** A reconnect starts a new connection for every item, and undoes no call. */
  lemma ReconnectStartsConnections(s: State, i: nat)
    requires i < |s.items|
    ensures |Next(s, Reconnect).items| == |s.items| && JustCreated(Next(s, Reconnect).items[i])
    ensures Next(s, Reconnect).items[i].mon == s.items[i].mon && Next(s, Reconnect).items[i].calls == s.items[i].calls
    ensures Next(s, Reconnect).attempts == s.attempts && Next(s, Reconnect).nodes == s.nodes
  {
  }

  predicate Untouched(it: Item) {
    it.sampled == [] && it.queue == [] && it.calls == []
  }

  ghost predicate SilentUntilRegistered(s: State) {
    forall i | 0 <= i < |s.items| && s.items[i].mon.topic !in s.nodes :: Untouched(s.items[i])
  }

  /** In every run, no item is sampled, and so no subscriber called, before its topic is registered. */
  lemma {:induction false} NothingBeforeRegistration(s0: State, steps: seq<Step>)
    requires Init(s0)
    ensures SilentUntilRegistered(Run(s0, steps))
  {
    hide Made, Fits;
    if steps == [] {
    } else {
      NothingBeforeRegistration(s0, steps[..|steps| - 1]);
    }
  }

  function After<T>(past: seq<T>, now: seq<T>): seq<T> {
    if |past| <= |now| then now[|past|..] else []
  }

  /** What happened to an item since it was `b`. */
  function Since(b: Item, it: Item): Item {
    it.(calls := After(b.calls, it.calls), sampled := After(b.sampled, it.sampled))
  }

  predicate Continues(b: Item, it: Item) {
    b.mon == it.mon && b.calls <= it.calls && b.sampled <= it.sampled
  }

  lemma AfterAppend<T>(past: seq<T>, now: seq<T>, more: seq<T>)
    requires past <= now
    ensures past <= now + more && After(past, now + more) == After(past, now) + more
  {
  }

  lemma SinceSampled(b: Item, it: Item, value: string, pos: nat)
    requires Continues(b, it)
    ensures Continues(b, Sampled(it, value, pos)) && Since(b, Sampled(it, value, pos)) == Sampled(Since(b, it), value, pos)
  {
    AfterAppend(b.sampled, it.sampled, [pos]);
  }

  lemma SinceDelivered(b: Item, it: Item, junk: string)
    requires Continues(b, it) && it.queue != []
    ensures Continues(b, Delivered(it, junk)) && Since(b, Delivered(it, junk)) == Delivered(Since(b, it), junk)
  {
    hide Made;
    AfterAppend(b.calls, it.calls, Made(it.mon, it.queue[0], junk));
  }

  /** Item `i` loses nothing in this step, and junk on its delivery is cut away. */
  predicate CleanStep(s: State, e: Step, i: nat) {
    match e
    case Deliver(j, junk) => j == i < |s.items| && s.items[i].queue != [] ==> CleanJunk(s.items[i].queue[0].value, junk)
    case Lose(j, k) => j != i
    case Reconnect => false
    case _ => true
  }

  predicate CleanRun(s: State, steps: seq<Step>, i: nat) {
    steps == [] || (CleanRun(s, steps[..|steps| - 1], i)
                    && CleanStep(Run(s, steps[..|steps| - 1]), steps[|steps| - 1], i))
  }

  ghost predicate FaithfulSince(attempts: seq<Attempt>, b: Item, it: Item) {
    Continues(b, it) && Faithful(attempts, Since(b, it))
  }

  lemma StepKeepsFaithful(s: State, e: Step, i: nat, b: Item)
    requires Inv(s) && i < |s.items| && FaithfulSince(s.attempts, b, s.items[i]) && CleanStep(s, e, i)
    ensures var t := Next(s, e); |t.items| == |s.items| && FaithfulSince(t.attempts, b, t.items[i])
  {
    hide Faithful, Handle, Made;
    match e
    case Overwrite(p, stored) =>
      forall a ensures Faithful(s.attempts + [a], Since(b, s.items[i])) {
        AttemptKeepsFaithful(s.attempts, a, Since(b, s.items[i]));
      }
    case Sample(j) =>
      SinceSampled(b, s.items[i], s.buffer, |s.attempts|);
      SampleKeepsFaithful(s.attempts, Since(b, s.items[i]));
    case Deliver(j, junk) =>
      if j == i && s.items[i].queue != [] {
        SinceDelivered(b, s.items[i], junk);
        DeliverKeepsFaithful(s.attempts, Since(b, s.items[i]), junk);
      }
    case _ =>
  }

  /** A run at whose start item `i` is just created, and in which it is not recreated and loses no notification. */
  ghost predicate Connection(s1: State, steps: seq<Step>, s: State, i: nat) {
    && Reachable(s1) && s == Run(s1, steps) && i < |s1.items| == |s.items|
    && JustCreated(s1.items[i]) && CleanRun(s1, steps, i)
  }

  lemma NewIsFaithful(attempts: seq<Attempt>, b: Item)
    requires JustCreated(b)
    ensures FaithfulSince(attempts, b, b)
  {
    var r := Since(b, b);
    assert r.calls == [] && r.sampled == [] && r.queue == [];
    assert Calls(r.calls) == [] && NoteValues(r.queue) == [] && Values(Contents(attempts), r.sampled) == [];
  }

  lemma {:induction false} RunKeepsFaithful(s1: State, steps: seq<Step>, i: nat)
    requires Inv(s1) && i < |s1.items| && JustCreated(s1.items[i]) && CleanRun(s1, steps, i)
    ensures var s := Run(s1, steps); |s.items| == |s1.items| && FaithfulSince(s.attempts, s1.items[i], s.items[i])
  {
    hide FaithfulSince, Inv, Next, CleanStep;
    if steps == [] {
      NewIsFaithful(s1.attempts, s1.items[i]);
    } else {
      var g := steps[..|steps| - 1];
      RunKeepsFaithful(s1, g, i);
      RunKeepsInv(s1, g);
      StepKeepsFaithful(Run(s1, g), steps[|steps| - 1], i, s1.items[i]);
    }
  }

  /** From the first of these samples on, each overwrite was followed by a sample before the next one, and before
      the end. */
  ghost predicate SampledThroughout(attempts: seq<Attempt>, ps: seq<nat>) {
    ps != [] ==> Covers(ps, ps[0], |attempts|)
  }

  /** The payloads from the one that the first sample found in the buffer on. */
  function Seen(attempts: seq<Attempt>, ps: seq<nat>): seq<string> {
    if ps != [] && ps[0] <= |attempts| then Payloads(attempts)[FirstSeen(ps[0])..] else []
  }

  /** Completeness, for each connection: if from its first sample on an item is sampled after every overwrite and
      loses nothing, then the calls it has made since it was created, with those its queue will still make, are the
      publish history from the text first seen, without adjacent duplicates, trimmed, and filtered to its topic, in
      order. */
  lemma Completeness(s1: State, steps: seq<Step>, s: State, i: nat)
    requires Connection(s1, steps, s, i) && s1.items[i].mon.topic != ""
    requires SampledThroughout(s.attempts, Since(s1.items[i], s.items[i]).sampled)
    requires forall k | 0 <= k < |s.attempts| :: Fits(s.attempts[k].payload)
    ensures Continues(s1.items[i], s.items[i])
    ensures var r := Since(s1.items[i], s.items[i]);
            && Calls(r.calls) + Pending(r.mon, r.queue) == Accepted(Handler(r.mon), Dedup(Seen(s.attempts, r.sampled)))
            && (r.queue == [] ==> Calls(r.calls) == Accepted(Handler(r.mon), Dedup(Seen(s.attempts, r.sampled))))
  {
    hide Run, CleanRun;
    ReachableInv(s1);
    RunKeepsFaithful(s1, steps, i);
    RunKeepsInv(s1, steps);
    assert forall k | 0 <= k < |s.attempts| :: AttemptOk(s.attempts[k]);
    FaithfulIsComplete(s.attempts, Since(s1.items[i], s.items[i]));
  }

  lemma FaithfulIsComplete(attempts: seq<Attempt>, r: Item)
    requires Faithful(attempts, r) && r.mon.topic != "" && SampledThroughout(attempts, r.sampled)
    requires forall k | 0 <= k < |attempts| :: Fits(attempts[k].payload) && AttemptOk(attempts[k])
    ensures Calls(r.calls) + Pending(r.mon, r.queue) == Accepted(Handler(r.mon), Dedup(Seen(attempts, r.sampled)))
    ensures r.queue == [] ==> Calls(r.calls) == Accepted(Handler(r.mon), Dedup(Seen(attempts, r.sampled)))
  {
    hide Handle;
    assert Contents(attempts) == [""] + Payloads(attempts);
    if r.sampled == [] {
      assert Values(Contents(attempts), r.sampled) == [];
    } else {
      EmptyIsSilent(r.mon);
      SamplesAreHistory(Handler(r.mon), "", Payloads(attempts), r.sampled);
    }
    if r.queue == [] {
      assert NoteValues(r.queue) == [];
    }
  }
}
