/** The imperative operations carry out the steps of the protocol machine, one by one, so that any interleaving of
    publisher threads and reads on the publisher's globals is a run of the machine. */
module Refinement {
  import opened CStrings
  import opened Protocol
  import opened Trim
  import Registry

  /** The publisher's globals stand for the machine's nodes of namespace `ns` and its buffer. */
  ghost predicate Represents(c: Registry.ServerContext, ns: string, s: State)
    reads c, c.dataToPublish
  {
    && c.server.Some? && Registry.Inv(c.server.value)
    && c.dataToPublish.Length == PUBLISH_DATA_SIZE && NUL in c.dataToPublish[..]
    && s.buffer == CStrAt(c.dataToPublish[..], 0)
    && forall t :: t in s.nodes <==> Registry.Known(c.server.value, ns, t)
  }

  /** A fresh server stands for an initial machine. */
  method Start(namespaces: seq<string>, ns: string, ghost publishers: nat, ghost items: seq<Item>)
    returns (c: Registry.ServerContext, ghost s: State)
    requires forall i | 0 <= i < |items| :: NewItem(items[i])
    ensures fresh(c) && fresh(c.dataToPublish)
    ensures Init(s) && s.items == items && |s.publishers| == publishers && Represents(c, ns, s)
  {
    c := new Registry.ServerContext(namespaces);
    s := State({}, seq(publishers, _ => Idle), [], "", items);
  }

  /** A registration as the machine sees it: the nodes grow by the topic exactly if it is known afterwards. */
  lemma RegisterStep(r: Registry.Registry, p: Registry.Pub, nodes: set<string>)
    requires Registry.Inv(r.space) && forall t :: t in nodes <==> Registry.Known(r.space, p.ns, t)
    ensures var space := Registry.Publish(r, p).space;
            && Registry.Inv(space)
            && forall t :: t in (if Registry.Known(space, p.ns, p.topic) then nodes + {p.topic} else nodes)
                           <==> Registry.Known(space, p.ns, t)
  {
    hide Registry.Publish;
    if Registry.Known(r.space, p.ns, p.topic) {
      Registry.PublishKnown(r, p.ns, p.topic, p.env);
    } else {
      Registry.PublishUnknown(r, p.ns, p.topic, p.env);
    }
  }

  /** A publisher thread's registration. */
  method Register(c: Registry.ServerContext, ns: string, topic: string, data: string, env: Registry.Env,
                  ghost s: State, ghost p: nat)
    returns (ghost e: Step)
    requires Represents(c, ns, s) && p < |s.publishers| && s.publishers[p].Idle?
    modifies c`server, c`topicContext
    ensures e.Register? && e.p == p && e.topic == topic && e.payload == data && Represents(c, ns, Next(s, e))
    ensures Next(s, e).publishers == s.publishers[p := Registered(topic, data)]
  {
    RegisterStep(Registry.Registry(c.server.value, c.topicContext), Registry.Pub(ns, topic, env), s.nodes);
    var nsIndex := c.Register(ns, topic, env);
    e := Step.Register(p, topic, data, Registry.Known(c.server.value, ns, topic));
  }

  /** Its copy into the buffer: one more attempt, whatever became of the registration. */
  method Overwrite(c: Registry.ServerContext, ns: string, topic: string, data: string, ghost s: State, ghost p: nat)
    returns (ghost e: Step)
    requires Represents(c, ns, s) && p < |s.publishers| && s.publishers[p] == Registered(topic, data) && NUL !in data
    modifies c.dataToPublish
    ensures e.Overwrite? && e.p == p && Represents(c, ns, Next(s, e))
    ensures Next(s, e).attempts == s.attempts + [Attempt(topic, data, Next(s, e).buffer)]
    ensures Next(s, e).publishers == s.publishers[p := Stored(topic)]
  {
    c.StoreData(data);
    e := Step.Overwrite(p, CStrAt(c.dataToPublish[..], 0));
  }

  // ---------------------------------------------------------------------------------------------------------
  // Any interleaving of publisher threads and reads.

  /** What a scheduled thread does: begin a publish call, copy its data, finish with the library's answer; or the
      library polls an item's data source. */
  datatype Action =
    | Begin(p: nat, topic: string, data: string, env: Registry.Env)
    | Copy(p: nat)
    | Finish(p: nat, written: Registry.Status)
    | Poll(i: nat, nodeId: Registry.NodeId)

  /** The step that an action carries out. */
  predicate Performs(a: Action, e: Step) {
    match a
    case Begin(p, topic, data, _) => e.Register? && e.p == p && e.topic == topic && e.payload == data
    case Copy(p) => e.Overwrite? && e.p == p
    case Finish(p, written) => e == Write(p, written == Registry.Good)
    case Poll(i, _) => e == Sample(i)
  }

  /** The threads' local variables: where each one is in serverPublish, with its arguments. */
  ghost predicate Locals(threads: seq<Publisher>, s: State) {
    threads == s.publishers && forall p | 0 <= p < |threads| && threads[p].Registered? :: NUL !in threads[p].payload
  }

  /** One action.  A thread that is not at that point of its call does nothing.  A poll reads what the machine
      samples. */
  method Perform(c: Registry.ServerContext, ns: string, threads: array<Publisher>, a: Action, ghost s: State)
    returns (value: Option<string>, ghost e: Step)
    requires Represents(c, ns, s) && Locals(threads[..], s) && (a.Begin? ==> NUL !in a.data)
    modifies c`server, c`topicContext, c.dataToPublish, threads
    ensures Performs(a, e) && Represents(c, ns, Next(s, e)) && Locals(threads[..], Next(s, e))
    ensures a.Poll? ==> value == Some(s.buffer)
  {
    value := None;
    match a
    case Begin(p, topic, data, env) =>
      e := Step.Register(p, topic, data, false);
      if p < threads.Length && threads[p].Idle? {
        e := Register(c, ns, topic, data, env, s, p);
        threads[p] := Registered(topic, data);
      }
    case Copy(p) =>
      e := Step.Overwrite(p, "");
      if p < threads.Length && threads[p].Registered? {
        e := Overwrite(c, ns, threads[p].topic, threads[p].payload, s, p);
        threads[p] := Stored(threads[p].topic);
      }
    case Finish(p, written) =>
      e := Write(p, written == Registry.Good);
      if p < threads.Length && threads[p].Stored? {
        threads[p] := Idle;
      }
    case Poll(i, nodeId) =>
      e := Sample(i);
      var text := c.ReadPublishedData(nodeId);
      value := Some(text);
  }

  /** Any schedule of any number of publisher threads and polls is a run of the machine. */
  method Execute(c: Registry.ServerContext, ns: string, threads: array<Publisher>, actions: seq<Action>, ghost s0: State)
    returns (ghost steps: seq<Step>)
    requires Represents(c, ns, s0) && Locals(threads[..], s0)
    requires forall k | 0 <= k < |actions| && actions[k].Begin? :: NUL !in actions[k].data
    modifies c`server, c`topicContext, c.dataToPublish, threads
    ensures |steps| == |actions| && forall k | 0 <= k < |steps| :: Performs(actions[k], steps[k])
    ensures Represents(c, ns, Run(s0, steps)) && Locals(threads[..], Run(s0, steps))
  {
    hide Represents, Locals, Next;
    steps := [];
    var k := 0;
    while k < |actions|
      invariant 0 <= k <= |actions| && |steps| == k
      invariant forall j | 0 <= j < k :: Performs(actions[j], steps[j])
      invariant Represents(c, ns, Run(s0, steps)) && Locals(threads[..], Run(s0, steps))
    {
      var value, e := Perform(c, ns, threads, actions[k], Run(s0, steps));
      RunAppend(s0, steps, e);
      steps := steps + [e];
      k := k + 1;
    }
  }

  // ---------------------------------------------------------------------------------------------------------
  // The calls of one thread, of the library and of the client.

  /** serverPublish, undisturbed, is the three steps of an idle publisher thread. */
  method Publish(c: Registry.ServerContext, ns: string, topic: string, data: string, env: Registry.Env,
                 written: Registry.Status, ghost s: State, ghost p: nat)
    returns (ret: Registry.Status, ghost steps: seq<Step>)
    requires Represents(c, ns, s) && p < |s.publishers| && s.publishers[p].Idle? && NUL !in data
    modifies c, c.dataToPublish
    ensures |steps| == 3 && Performs(Begin(p, topic, data, env), steps[0]) && Performs(Copy(p), steps[1])
            && Performs(Finish(p, ret), steps[2])
    ensures var s' := Next(Next(Next(s, steps[0]), steps[1]), steps[2]);
            && Represents(c, ns, s') && s'.publishers == s.publishers && s'.items == s.items
            && s'.attempts == s.attempts + [Attempt(topic, data, s'.buffer)]
  {
    ghost var r := Registry.Registry(c.server.value, c.topicContext);
    RegisterStep(r, Registry.Pub(ns, topic, env), s.nodes);
    var target;
    ret, target := c.ServerPublish(ns, topic, data, env, written);
    ghost var added := Registry.Known(c.server.value, ns, topic);
    steps := [Step.Register(p, topic, data, added), Step.Overwrite(p, CStrAt(c.dataToPublish[..], 0)),
              Write(p, ret == Registry.Good)];
  }

  /** What readPublishedData answers, whichever topic's node is read, is what sampling its item takes in; and it is
      the payload of the last attempt, for whatever topic, if that fits. */
  method Read(c: Registry.ServerContext, ns: string, nodeId: Registry.NodeId, ghost s: State, ghost i: nat)
    returns (value: string)
    requires Represents(c, ns, s) && i < |s.items| && s.items[i].mon.topic == nodeId.id
    requires Inv(s) && Registry.Known(c.server.value, ns, nodeId.id)
    ensures Next(s, Sample(i)).items[i] == Sampled(s.items[i], value, |s.attempts|)
    ensures s.attempts == [] ==> value == ""
    ensures s.attempts != [] && Fits(s.attempts[|s.attempts| - 1].payload) ==> value == s.attempts[|s.attempts| - 1].payload
  {
    value := c.ReadPublishedData(nodeId);
    assert s.attempts != [] ==> AttemptOk(s.attempts[|s.attempts| - 1]);
  }

  /** subscriptionCallback on the bytes of the first queued notification, with what follows them in memory, makes
      exactly the call of the machine's delivery. */
  method Deliver(data: array<char>, subscribedData: array<char>, ghost s: State, i: nat, mon: MonitorContext, ghost junk: string)
    returns (call: Option<Delivery>, ghost s': State)
    requires NUL in data[..] && data != subscribedData && subscribedData.Length == PUBLISH_DATA_SIZE
    requires i < |s.items| && s.items[i].mon == mon && s.items[i].queue != []
    requires CStrAt(data[..], 0) == s.items[i].queue[0].value + junk
    modifies subscribedData
    ensures s' == Next(s, Step.Deliver(i, junk)) && |s'.items| == |s.items|
    ensures Calls(s'.items[i].calls) == Calls(s.items[i].calls) + if call.Some? then [call.value] else []
  {
    call := SubscriptionCallback(Some(mon), true, true, data, subscribedData);
    s' := Next(s, Step.Deliver(i, junk));
  }
}
