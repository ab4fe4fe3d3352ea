/** The Python side of a subscription: cb_func puts what it receives on a queue, worker hands it to the user. */
module PyQueue {
  import opened CStrings
  import opened Trim

  datatype Message = Message(topic: string, data: string)

  /** `unfinished` is the queue's own count of items put and not yet reported done. */
  datatype Q = Q(queue: seq<Message>, handed: seq<Message>, unfinished: int)

  /** cb_func is called; or the worker makes one turn, in which the user callback may raise. */
  datatype Step = Callback(topic: string, msg: string) | Turn(raises: bool)

  /** An empty message raises an IndexError before anything is put. */
  function Next(q: Q, e: Step): Q {
    match e
    case Callback(topic, msg) =>
      if msg == "" then q
      else q.(queue := q.queue + [Message(topic, PyTrim(msg))], unfinished := q.unfinished + 1)
    case Turn(raises) =>
      if q.queue == [] then q
      else Q(q.queue[1..], q.handed + [q.queue[0]], if raises then q.unfinished else q.unfinished - 1)
  }

  function Run(steps: seq<Step>): Q {
    if steps == [] then Q([], [], 0) else Next(Run(steps[..|steps| - 1]), steps[|steps| - 1])
  }

  /** What cb_func enqueues, from the calls alone. */
  function Enqueued(steps: seq<Step>): seq<Message> {
    if steps == [] then []
    else
      var e := steps[|steps| - 1];
      Enqueued(steps[..|steps| - 1]) + if e.Callback? && e.msg != "" then [Message(e.topic, PyTrim(e.msg))] else []
  }

  /** How often the user callback raised on an item. */
  function Raised(steps: seq<Step>): nat {
    if steps == [] then 0
    else
      var e := steps[|steps| - 1];
      Raised(steps[..|steps| - 1]) + if e.Turn? && e.raises && Run(steps[..|steps| - 1]).queue != [] then 1 else 0
  }

  /** At every point, what was handed over followed by what is queued is what was enqueued, in order, whether or not
      callbacks raise; an item whose callback raised stays unfinished for good. */
  lemma {:induction false} Conservation(steps: seq<Step>)
    ensures Run(steps).handed + Run(steps).queue == Enqueued(steps)
    ensures Run(steps).unfinished == |Run(steps).queue| + Raised(steps)
  {
    if steps == [] {
    } else {
      Conservation(steps[..|steps| - 1]);
    }
  }

  lemma RunSnoc(g: seq<Step>, e: Step)
    ensures Run(g + [e]) == Next(Run(g), e)
  {
    assert (g + [e])[..|g|] == g;
  }

  /** Worker turns, in which the user callback raises where `raises` says so. */
  function Turns(raises: seq<bool>): seq<Step> {
    seq(|raises|, k requires 0 <= k < |raises| => Turn(raises[k]))
  }

  /** The worker drains the queue: each turn hands over the front item, whether or not the callback raises. */
  lemma {:induction false} Drains(steps: seq<Step>, raises: seq<bool>)
    requires |raises| <= |Run(steps).queue|
    ensures Run(steps + Turns(raises)).queue == Run(steps).queue[|raises|..]
    ensures Run(steps + Turns(raises)).handed == Run(steps).handed + Run(steps).queue[..|raises|]
  {
    if raises == [] {
      assert steps + Turns(raises) == steps;
    } else {
      var n := |raises| - 1;
      Drains(steps, raises[..n]);
      assert steps + Turns(raises) == steps + Turns(raises[..n]) + [Turn(raises[n])];
      RunSnoc(steps + Turns(raises[..n]), Turn(raises[n]));
    }
  }

  predicate Whole(m: Message) {
    m.data != "" && (m.data[0] == '{' ==> m.data[|m.data| - 1] == '}')
  }

  function Callbacks(messages: seq<Message>): seq<Step> {
    seq(|messages|, k requires 0 <= k < |messages| => Callback(messages[k].topic, messages[k].data))
  }

  lemma {:induction false} CallbacksQueue(messages: seq<Message>)
    requires forall k | 0 <= k < |messages| :: Whole(messages[k])
    ensures Run(Callbacks(messages)).queue == messages && Run(Callbacks(messages)).handed == []
  {
    if messages == [] {
    } else {
      var n := |messages| - 1;
      CallbacksQueue(messages[..n]);
      assert Callbacks(messages) == Callbacks(messages[..n]) + [Callback(messages[n].topic, messages[n].data)];
      RunSnoc(Callbacks(messages[..n]), Callback(messages[n].topic, messages[n].data));
      assert Whole(messages[n]) && messages == messages[..n] + [messages[n]];
    }
  }

  /** From end to end: messages that are whole reach the user as they are, topic and text, in order, after one turn
      each. */
  lemma HandsOverWhole(messages: seq<Message>, raises: seq<bool>)
    requires |raises| == |messages| && forall k | 0 <= k < |messages| :: Whole(messages[k])
    ensures Run(Callbacks(messages) + Turns(raises)).handed == messages
    ensures Run(Callbacks(messages) + Turns(raises)).queue == []
  {
    CallbacksQueue(messages);
    Drains(Callbacks(messages), raises);
    assert messages[..|messages|] == messages;
  }

  class Subscription {
    var q: Q

    constructor ()
      ensures q == Q([], [], 0)
    {
      q := Q([], [], 0);
    }

    /** cb_func; `raised` is its IndexError. */
    method CbFunc(topic: string, msg: string) returns (raised: bool)
      modifies this
      ensures q == Next(old(q), Callback(topic, msg)) && (raised <==> msg == "")
    {
      if msg == "" {
        return true;
      }
      var m := msg;
      if msg[0] == '{' && msg[|msg| - 1] != '}' {
        var lastBraceIndex := LastIndexOf(msg, '}');
        m := msg[..lastBraceIndex + 1];
      }
      q := q.(queue := q.queue + [Message(topic, m)], unfinished := q.unfinished + 1);
      raised := false;
    }

    /** One turn of worker while its event is not set: get, call, report done; any exception is swallowed. */
    method WorkerTurn(raises: bool)
      modifies this
      ensures q == Next(old(q), Turn(raises))
    {
      if q.queue == [] {
        return;
      }
      var item := q.queue[0];
      q := Q(q.queue[1..], q.handed + [item], q.unfinished);
      if raises {
        return;
      }
      q := q.(unfinished := q.unfinished - 1);
    }
  }
}
