/** The subscriber: the arrays that createSubscription fills by index, and the thread that reconnects. */
module Client {
  import opened CStrings
  import opened Lookup
  import opened Registry
  import opened Topics
  import Trim

  // ---------------------------------------------------------------------------------------------------------
  // Sessions and subscriptions, as seen by the client thread.

  /** The library's session: only a connect activates one, numbered by the connects so far. */
  datatype Session = Closed | Pending | Active(id: nat)

  /** `created` lists, for each subscription the server accepted, the session it belongs to. */
  datatype Link = Link(session: Session, connects: nat, created: seq<nat>)

  datatype Loss = Kept | ToClosed | ToPending

  /** What the network and the library do during one turn of the client loop. */
  datatype Turn = Turn(
    before: Loss,          // until the state is first read
    connectGood: bool,     // UA_Client_connect's answer
    failedAs: Session,     // how a failed connect leaves the session
    closedAgain: bool,     // a good connect that is closed before the state is read again
    subscribeGood: bool,   // UA_Client_Subscriptions_create's answer
    during: Loss,          // while the subscription is being set up
    listings: seq<seq<seq<Ref>>>,  // the browse responses, one per topic
    memory: Memory)

  /** Which of the four arrays malloc provides when they are still NULL. */
  datatype Memory = Memory(items: bool, subCallbacks: bool, deleteCallbacks: bool, contexts: bool)

  /** The arrays there are after mallocs that only replace missing ones. */
  function Granted(have: Memory, m: Memory): Memory {
    Memory(have.items || m.items, have.subCallbacks || m.subCallbacks, have.deleteCallbacks || m.deleteCallbacks,
           have.contexts || m.contexts)
  }

  datatype Outcome = Retry | Iterate | Stop

  function Drop(s: Session, l: Loss): Session {
    if !s.Active? then s else match l case Kept => s case ToClosed => Closed case ToPending => Pending
  }

  predicate LegalTurn(t: Turn) {
    !t.failedAs.Active?
  }

  /** UA_Client_connect on a closed session. */
  function Connect(l: Link, t: Turn): Link {
    if !t.connectGood then l.(session := t.failedAs)
    else if t.closedAgain then l.(session := Closed, connects := l.connects + 1)
    else l.(session := Active(l.connects), connects := l.connects + 1)
  }

  /** Connecting a closed session, and subscribing again once it is active. */
  function Reopened(l: Link, t: Turn): (Link, Outcome) {
    var c := Connect(l, t);
    if !t.connectGood then (c, Retry)
    else if c.session.Active? then
      if t.subscribeGood then (c.(created := c.created + [c.session.id], session := Drop(c.session, t.during)), Iterate)
      else (c, Stop)
    else (c, Iterate)
  }

  /** One turn of runClient's loop. */
  function Turned(l: Link, t: Turn): (Link, Outcome) {
    var d := l.(session := Drop(l.session, t.before));
    if d.session == Closed then Reopened(d, t) else (d, Iterate)
  }

  /** The states in which runClient reaches its iterate call. */
  function Iterates(l: Link, turns: seq<Turn>): seq<Link>
    decreases |turns|
  {
    if turns == [] then []
    else
      var (l', o) := Turned(l, turns[0]);
      match o
      case Stop => []
      case Retry => Iterates(l', turns[1..])
      case Iterate => [l'] + Iterates(l', turns[1..])
  }

  /** Whether a turn creates a subscription. */
  predicate Resubscribes(l: Link, t: Turn) {
    Drop(l.session, t.before) == Closed && t.connectGood && !t.closedAgain && t.subscribeGood
  }

  /** The arrays there are after a turn. */
  function Provided(have: Memory, l: Link, t: Turn): Memory {
    if Resubscribes(l, t) then Granted(have, t.memory) else have
  }

  /** The arrays there are each time runClient reaches its iterate call. */
  function Provisions(have: Memory, l: Link, turns: seq<Turn>): seq<Memory>
    decreases |turns|
  {
    if turns == [] then []
    else
      var (l', o) := Turned(l, turns[0]);
      var have' := Provided(have, l, turns[0]);
      match o
      case Stop => []
      case Retry => Provisions(have', l', turns[1..])
      case Iterate => [have'] + Provisions(have', l', turns[1..])
  }

  predicate Within(a: Memory, b: Memory) {
    && (a.items ==> b.items) && (a.subCallbacks ==> b.subCallbacks) && (a.deleteCallbacks ==> b.deleteCallbacks)
    && (a.contexts ==> b.contexts)
  }

  /** An array, once there, stays. */
  lemma {:induction false} ProvisionsStay(have: Memory, l: Link, turns: seq<Turn>)
    ensures forall k | 0 <= k < |Provisions(have, l, turns)| :: Within(have, Provisions(have, l, turns)[k])
    decreases |turns|
  {
    if turns == [] {
    } else {
      hide Turned, Resubscribes;
      ProvisionsStay(Provided(have, l, turns[0]), Turned(l, turns[0]).0, turns[1..]);
    }
  }

  function Count(xs: seq<nat>, x: nat): nat {
    if xs == [] then 0 else Count(xs[..|xs| - 1], x) + if xs[|xs| - 1] == x then 1 else 0
  }

  /** Subscriptions belong to different sessions, and an active session has one. */
  ghost predicate LinkInv(l: Link) {
    && (forall k | 0 <= k < |l.created| :: l.created[k] < l.connects)
    && (forall a, b | 0 <= a < b < |l.created| :: l.created[a] < l.created[b])
    && (l.session.Active? ==> l.created != [] && l.created[|l.created| - 1] == l.session.id)
  }

  lemma TurnKeepsInv(l: Link, t: Turn)
    requires LinkInv(l) && LegalTurn(t)
    ensures Turned(l, t).1 != Stop ==> LinkInv(Turned(l, t).0)
  {
  }

  lemma {:induction false} CountIncreasing(xs: seq<nat>, x: nat)
    requires forall a, b | 0 <= a < b < |xs| :: xs[a] < xs[b]
    ensures Count(xs, x) == if x in xs then 1 else 0
  {
    if xs == [] {
    } else {
      var n := |xs| - 1;
      CountIncreasing(xs[..n], x);
      assert xs == xs[..n] + [xs[n]];
    }
  }

  /** A link right after a successful clientSubscribe. */
  ghost predicate Subscribed(l: Link, id: nat) {
    l.created == [id] && id < l.connects && (l.session.Active? ==> l.session.id == id)
  }

  /** Whatever fails and drops, and however often: whenever the loop iterates on an active session, exactly one
      accepted subscription belongs to it. */
  lemma OneSubscriptionPerSession(l: Link, id: nat, turns: seq<Turn>, k: nat)
    requires Subscribed(l, id) && forall n | 0 <= n < |turns| :: LegalTurn(turns[n])
    requires k < |Iterates(l, turns)| && Iterates(l, turns)[k].session.Active?
    ensures var r := Iterates(l, turns)[k]; Count(r.created, r.session.id) == 1
  {
    IteratesKeepInv(l, turns);
    var r := Iterates(l, turns)[k];
    CountIncreasing(r.created, r.session.id);
    assert r.created[|r.created| - 1] in r.created;
  }

  lemma {:induction false} IteratesKeepInv(l: Link, turns: seq<Turn>)
    requires LinkInv(l) && forall n | 0 <= n < |turns| :: LegalTurn(turns[n])
    ensures forall k | 0 <= k < |Iterates(l, turns)| :: LinkInv(Iterates(l, turns)[k])
    decreases |turns|
  {
    if turns == [] {
    } else {
      TurnKeepsInv(l, turns[0]);
      if Turned(l, turns[0]).1 != Stop {
        IteratesKeepInv(Turned(l, turns[0]).0, turns[1..]);
      }
    }
  }

  /** How a turn ends, and what it leaves behind, in terms of what happened in it: the thread retries a failed connect,
      stops only on a refused subscription, and iterates otherwise; it connects only a closed session, and creates a
      subscription exactly when that gives it an active one and the server accepts. */
  lemma TurnOutcome(l: Link, t: Turn)
    ensures var closed, (l', o) := l.session == Closed || (l.session.Active? && t.before == ToClosed), Turned(l, t);
            && (o == Retry <==> closed && !t.connectGood)
            && (o == Stop <==> closed && t.connectGood && !t.closedAgain && !t.subscribeGood)
            && (l'.connects == l.connects + 1 <==> closed && t.connectGood)
            && (l'.connects == l.connects <==> !(closed && t.connectGood))
            && (Resubscribes(l, t) <==> closed && t.connectGood && !t.closedAgain && t.subscribeGood)
            && l'.created == if Resubscribes(l, t) then l.created + [l.connects] else l.created
  {
  }

  /** A turn that subscribes again has the arrays it had before and those its mallocs provide, and no others. */
  lemma ProvidedIff(have: Memory, l: Link, t: Turn)
    ensures Within(have, Provided(have, l, t))
    ensures Resubscribes(l, t) ==> Within(t.memory, Provided(have, l, t))
    ensures forall m | Within(have, m) && (Resubscribes(l, t) ==> Within(t.memory, m)) :: Within(Provided(have, l, t), m)
  {
  }

  /** Nothing in the turn but what the thread can recover from: connects fail leaving the session closed, an accepted
      session gets its subscription, and sessions are lost only by being closed. */
  predicate Recoverable(t: Turn) {
    t.failedAs == Closed && t.subscribeGood && t.before != ToPending && t.during != ToPending
  }

  predicate Connects(t: Turn) {
    t.connectGood && !t.closedAgain && t.during == Kept
  }

  /** However many connects fail and sessions are lost, the last turn can connect. */
  predicate NetworkReturns(turns: seq<Turn>) {
    turns != [] && (forall n | 0 <= n < |turns| :: Recoverable(turns[n])) && Connects(turns[|turns| - 1])
  }

  /** The thread survives any number of failed connects and lost sessions: once the network is back it iterates on an
      active session. */
  lemma {:induction false} Recovers(l: Link, turns: seq<Turn>)
    requires l.session != Pending && NetworkReturns(turns)
    ensures Iterates(l, turns) != [] && Iterates(l, turns)[|Iterates(l, turns)| - 1].session.Active?
    decreases |turns|
  {
    if |turns| == 1 {
      assert Recoverable(turns[0]) && turns[1..] == [];
    } else {
      assert Recoverable(turns[0]);
      Recovers(Turned(l, turns[0]).0, turns[1..]);
    }
  }

  // ---------------------------------------------------------------------------------------------------------
  // The arrays behind the subscription.

  /** What a slot of a callback array holds: whatever malloc left there, or what the loop stores. */
  datatype DataChange = UnsetChange | SubscriptionCallback
  datatype OnDelete = UnsetDelete | NoCallback

  function Found(t: Turn, i: nat, name: string): nat {
    if i < |t.listings| then FirstMatch(Flat(t.listings[i]), name) else 0
  }

  predicate LegalListings(t: Turn) {
    forall n, i, j | 0 <= n < |t.listings| && 0 <= i < |t.listings[n]| && 0 <= j < |t.listings[n][i]| ::
      Copyable(t.listings[n][i][j])
  }

  /** The subscription arrays at one moment; None for one that is NULL. */
  datatype Table = Table(monitor: seq<Trim.MonitorContext>, items: Option<seq<NodeId>>, subCallbacks: Option<seq<DataChange>>,
                         contexts: Option<seq<nat>>, deleteCallbacks: Option<seq<OnDelete>>)

  datatype View = View(link: Link, table: Table)

  /** Which of the four arrays a table has. */
  function Has(v: Table): Memory {
    Memory(v.items.Some?, v.subCallbacks.Some?, v.deleteCallbacks.Some?, v.contexts.Some?)
  }

  /** Position by position, the arrays agree with the topic configurations; `ns` are the indices last found. */
  ghost predicate Routed(v: Table, cfgs: seq<TopicConfig>, hasCallback: bool, userFunc: int, ns: seq<nat>) {
    && |v.monitor| == |cfgs| == |ns|
    && (forall i | 0 <= i < |cfgs| :: v.monitor[i] == Trim.MonitorContext(ns[i], cfgs[i].name, hasCallback, userFunc))
    && (v.items.Some? ==>
          |v.items.value| == |cfgs| && forall i | 0 <= i < |cfgs| :: v.items.value[i] == NodeId(ns[i], cfgs[i].name))
    && (v.contexts.Some? ==> |v.contexts.value| == |cfgs| && forall i | 0 <= i < |cfgs| :: v.contexts.value[i] == i)
    && (v.subCallbacks.Some? ==>
          |v.subCallbacks.value| == |cfgs| && forall i | 0 <= i < |cfgs| :: v.subCallbacks.value[i].SubscriptionCallback?)
    && (v.deleteCallbacks.Some? ==>
          |v.deleteCallbacks.value| == |cfgs| && forall i | 0 <= i < |cfgs| :: v.deleteCallbacks.value[i].NoCallback?)
  }

  /** What the arrays do for a subscriber who gave these configurations, callback flag and user function: the i-th
      item is for a node named like the i-th topic, under the namespace index kept with it, and its context calls the
      user, for the i-th topic and with the user's function, with exactly the received texts in which that topic
      occurs; with no callback given it calls nobody. */
  ghost predicate Serves(v: Table, cfgs: seq<TopicConfig>, cb: bool, userFunc: int) {
    v.contexts.Some? ==>
      && |v.contexts.value| == |cfgs|
      && forall i | 0 <= i < |cfgs| :: ServesOne(v, i, cfgs[i].name, cb, userFunc)
  }

  ghost predicate ServesOne(v: Table, i: nat, topic: string, cb: bool, userFunc: int)
    requires v.contexts.Some? && i < |v.contexts.value|
  {
    var c := v.contexts.value[i];
    && c < |v.monitor|
    && (v.items.Some? ==> i < |v.items.value| && v.items.value[i] == NodeId(v.monitor[c].namespaceIndex, topic))
    && (v.subCallbacks.Some? ==> i < |v.subCallbacks.value| && v.subCallbacks.value[i].SubscriptionCallback?)
    && (forall raw :: Trim.Handle(v.monitor[c], raw)
                      == if cb && Occurs(topic, Trim.Received(raw)) then Some(Trim.Delivery(topic, Trim.Received(raw), userFunc))
                         else None)
  }

  lemma RoutedServes(v: Table, cfgs: seq<TopicConfig>, cb: bool, userFunc: int)
    requires RoutedAsGiven(v, cfgs, cb, userFunc)
    ensures Serves(v, cfgs, cb, userFunc)
  {
    var ns :| Routed(v, cfgs, cb, userFunc, ns);
    if v.contexts.Some? {
      forall i | 0 <= i < |cfgs| ensures ServesOne(v, i, cfgs[i].name, cb, userFunc) {
        assert v.contexts.value[i] == i;
        assert v.monitor[i] == Trim.MonitorContext(ns[i], cfgs[i].name, cb, userFunc);
      }
    }
  }

  /** The search made for the i-th topic; a browse that fails lists nothing. */
  method Browse(t: Turn, i: nat, topic: string) returns (namespaceIndex: nat)
    requires LegalListings(t)
    ensures namespaceIndex == Found(t, i, topic)
  {
    namespaceIndex := 0;
    if i < |t.listings| {
      namespaceIndex := GetNamespaceIndex(t.listings[i], topic);
    }
  }

  function AllFound(t: Turn, cfgs: seq<TopicConfig>): seq<nat> {
    seq(|cfgs|, i requires 0 <= i < |cfgs| => Found(t, i, cfgs[i].name))
  }

  ghost predicate RoutedAsGiven(v: Table, cfgs: seq<TopicConfig>, hasCallback: bool, userFunc: int) {
    exists ns :: Routed(v, cfgs, hasCallback, userFunc, ns)
  }

  function Arrays(vs: seq<View>): seq<Memory> {
    seq(|vs|, k requires 0 <= k < |vs| => Has(vs[k].table))
  }

  function Links(vs: seq<View>): seq<Link> {
    seq(|vs|, k requires 0 <= k < |vs| => vs[k].link)
  }

  /** The subscriber's globals.  `contexts[i]` is an offset into `monitorContext`. */
  class ClientContext {
    var client: bool
    var link: Link
    var topicCfgArr: array<TopicConfig>
    var monitorContext: array<Trim.MonitorContext>
    var userFunc: int
    var hasCallback: bool
    var items: array?<NodeId>
    var subCallbacks: array?<DataChange>
    var contexts: array?<nat>
    var deleteCallbacks: array?<OnDelete>

    ghost predicate Valid()
      reads `topicCfgArr, `monitorContext, `items, `subCallbacks, `contexts, `deleteCallbacks
    {
      && monitorContext.Length == topicCfgArr.Length
      && (items != null ==> items.Length == topicCfgArr.Length)
      && (subCallbacks != null ==> subCallbacks.Length == topicCfgArr.Length)
      && (contexts != null ==> contexts.Length == topicCfgArr.Length)
      && (deleteCallbacks != null ==> deleteCallbacks.Length == topicCfgArr.Length)
    }

    function Owned(): Memory
      reads `items, `subCallbacks, `contexts, `deleteCallbacks
    {
      Memory(items != null, subCallbacks != null, deleteCallbacks != null, contexts != null)
    }

    function Look(): (v: Table)
      reads `monitorContext, `items, `subCallbacks, `contexts, `deleteCallbacks
      reads monitorContext, items, subCallbacks, contexts, deleteCallbacks
      ensures Has(v) == Owned()
    {
      Table(monitorContext[..],
           if items == null then None else Some(items[..]),
           if subCallbacks == null then None else Some(subCallbacks[..]),
           if contexts == null then None else Some(contexts[..]),
           if deleteCallbacks == null then None else Some(deleteCallbacks[..]))
    }

    /** Only the four malloced arrays may have been replaced, and only while they were NULL. */
    twostate predicate SameOrNew()
      reads this
    {
      && unchanged(`client, `topicCfgArr, `monitorContext, `userFunc, `hasCallback)
      && (items == old(items) || (old(items) == null && fresh(items)))
      && (subCallbacks == old(subCallbacks) || (old(subCallbacks) == null && fresh(subCallbacks)))
      && (contexts == old(contexts) || (old(contexts) == null && fresh(contexts)))
      && (deleteCallbacks == old(deleteCallbacks) || (old(deleteCallbacks) == null && fresh(deleteCallbacks)))
    }

    /** The mallocs of createSubscription, each only while its array is NULL. */
    method Allocate(m: Memory)
      requires Valid()
      modifies `items, `subCallbacks, `contexts, `deleteCallbacks
      ensures Valid() && SameOrNew() && Owned() == Granted(old(Owned()), m)
    {
      var n := topicCfgArr.Length;
      if items == null && m.items {
        items := new NodeId[n];
      }
      if subCallbacks == null && m.subCallbacks {
        subCallbacks := new DataChange[n];
      }
      if deleteCallbacks == null && m.deleteCallbacks {
        deleteCallbacks := new OnDelete[n];
      }
      if contexts == null && m.contexts {
        contexts := new nat[n];
      }
    }

    /** One round of createSubscription's loop: slot `i` of every array. */
    method FillSlot(i: nat, topic: string, namespaceIndex: nat)
      requires Valid() && i < topicCfgArr.Length
      modifies monitorContext, items, subCallbacks, contexts, deleteCallbacks
      ensures monitorContext[..] == old(monitorContext[..])[i := Trim.MonitorContext(namespaceIndex, topic, hasCallback, userFunc)]
      ensures items != null ==> items[..] == old(items[..])[i := NodeId(namespaceIndex, topic)]
      ensures contexts != null ==> contexts[..] == old(contexts[..])[i := i]
      ensures subCallbacks != null ==> subCallbacks[..] == old(subCallbacks[..])[i := SubscriptionCallback]
      ensures deleteCallbacks != null ==> deleteCallbacks[..] == old(deleteCallbacks[..])[i := NoCallback]
    {
      var nodeId := NodeId(namespaceIndex, topic);
      if items != null {
        items[i] := nodeId;
      }
      if subCallbacks != null {
        subCallbacks[i] := SubscriptionCallback;
      }
      monitorContext[i] := Trim.MonitorContext(namespaceIndex, topic, hasCallback, userFunc);
      if contexts != null {
        contexts[i] := i;
      }
      if deleteCallbacks != null {
        deleteCallbacks[i] := NoCallback;
      }
    }

    /** The loop of createSubscription over the topic configurations. */
    method FillArrays(t: Turn)
      requires Valid() && LegalListings(t)
      modifies monitorContext, items, subCallbacks, contexts, deleteCallbacks
      ensures Routed(Look(), topicCfgArr[..], hasCallback, userFunc, AllFound(t, topicCfgArr[..]))
    {
      ghost var cfgs, ns := topicCfgArr[..], AllFound(t, topicCfgArr[..]);
      var i := 0;
      while i < topicCfgArr.Length
        invariant 0 <= i <= topicCfgArr.Length && topicCfgArr[..] == cfgs
        invariant forall j | 0 <= j < i :: monitorContext[..][j] == Trim.MonitorContext(ns[j], cfgs[j].name, hasCallback, userFunc)
        invariant items != null ==> forall j | 0 <= j < i :: items[..][j] == NodeId(ns[j], cfgs[j].name)
        invariant contexts != null ==> forall j | 0 <= j < i :: contexts[..][j] == j
        invariant subCallbacks != null ==> forall j | 0 <= j < i :: subCallbacks[..][j].SubscriptionCallback?
        invariant deleteCallbacks != null ==> forall j | 0 <= j < i :: deleteCallbacks[..][j].NoCallback?
      {
        var topic := topicCfgArr[i].name;
        var namespaceIndex := Browse(t, i, topic);
        assert namespaceIndex == ns[i] && topic == cfgs[i].name;
        FillSlot(i, topic, namespaceIndex);
        i := i + 1;
      }
    }

    /** The second half of createSubscription: the mallocs, then the loop. */
    method SetUp(t: Turn)
      requires Valid() && LegalListings(t)
      modifies `items, `subCallbacks, `contexts, `deleteCallbacks
      modifies monitorContext, items, subCallbacks, contexts, deleteCallbacks
      ensures Valid() && SameOrNew() && topicCfgArr[..] == old(topicCfgArr[..])
      ensures Owned() == Granted(old(Owned()), t.memory)
      ensures Routed(Look(), topicCfgArr[..], hasCallback, userFunc, AllFound(t, topicCfgArr[..]))
    {
      hide Routed, AllFound, Granted, Has, LegalListings;
      Allocate(t.memory);
      FillArrays(t);
    }

    /** createSubscription on the current session: a refused subscription changes nothing; an accepted one is
        recorded and every array is filled again from the topic configurations. */
    method CreateSubscription(t: Turn) returns (ok: bool)
      requires Valid() && LegalListings(t)
      modifies this, monitorContext, items, subCallbacks, contexts, deleteCallbacks
      ensures Valid() && SameOrNew() && topicCfgArr[..] == old(topicCfgArr[..])
      ensures ok <==> t.subscribeGood && old(link).session.Active?
      ensures !ok ==> link == old(link) && Look() == old(Look())
      ensures ok ==> link == old(link).(created := old(link).created + [old(link).session.id])
      ensures ok ==> Owned() == Granted(old(Owned()), t.memory)
      ensures ok ==> Routed(Look(), topicCfgArr[..], hasCallback, userFunc, AllFound(t, topicCfgArr[..]))
    {
      hide Routed, AllFound, Granted, Has, LegalListings;
      if !t.subscribeGood || !link.session.Active? {
        return false;
      }
      link := link.(created := link.created + [link.session.id]);
      SetUp(t);
      ok := true;
    }

    /** clientSubscribe: copy the configurations, subscribe, start the client thread. */
    method ClientSubscribe(topicConfigs: seq<TopicConfig>, cb: bool, pyxFunc: int, t: Turn, threadGood: bool) returns (ok: bool)
      requires LegalListings(t) && items == null && subCallbacks == null && contexts == null && deleteCallbacks == null
      modifies this
      ensures ok <==> old(client) && t.subscribeGood && old(link).session.Active? && threadGood
      ensures ok ==> Valid() && topicCfgArr[..] == topicConfigs && hasCallback == cb && userFunc == pyxFunc
      ensures link == if old(client) && t.subscribeGood && old(link).session.Active?
                      then old(link).(created := old(link).created + [old(link).session.id]) else old(link)
      ensures !old(client) ==> unchanged(this)
      ensures ok ==> fresh(topicCfgArr) && fresh(monitorContext) && (items != null ==> fresh(items))
                     && (subCallbacks != null ==> fresh(subCallbacks)) && (contexts != null ==> fresh(contexts))
                     && (deleteCallbacks != null ==> fresh(deleteCallbacks))
      ensures ok ==> Owned() == t.memory
      ensures ok ==> Routed(Look(), topicConfigs, cb, pyxFunc, AllFound(t, topicConfigs))
      ensures ok ==> Serves(Look(), topicConfigs, cb, pyxFunc)
    {
      if !client {
        return false;
      }
      userFunc := pyxFunc;
      hasCallback := cb;
      topicCfgArr := new TopicConfig[|topicConfigs|](_ => TopicConfig("", "", ""));
      monitorContext := new Trim.MonitorContext[|topicConfigs|](_ => Trim.MonitorContext(0, "", false, 0));
      CopyConfigs(topicConfigs);
      var created := CreateSubscription(t);
      if !created {
        return false;
      }
      assert RoutedAsGiven(Look(), topicConfigs, cb, pyxFunc);
      RoutedServes(Look(), topicConfigs, cb, pyxFunc);
      return threadGood;
    }

    method CopyConfigs(topicConfigs: seq<TopicConfig>)
      requires topicCfgArr.Length == |topicConfigs|
      modifies topicCfgArr
      ensures topicCfgArr[..] == topicConfigs
    {
      for i := 0 to |topicConfigs|
        invariant topicCfgArr[..i] == topicConfigs[..i]
      {
        topicCfgArr[i] := topicConfigs[i];
      }
    }

    /** The connect and resubscribe part of runClient's loop. */
    method Reconnect(t: Turn) returns (o: Outcome)
      requires Valid() && LegalListings(t) && RoutedAsGiven(Look(), topicCfgArr[..], hasCallback, userFunc)
      requires link.session == Closed
      modifies this, monitorContext, items, subCallbacks, contexts, deleteCallbacks
      ensures Valid() && SameOrNew() && topicCfgArr[..] == old(topicCfgArr[..])
      ensures (link, o) == Reopened(old(link), t)
      ensures Owned() == Provided(old(Owned()), old(link), t)
      ensures RoutedAsGiven(Look(), topicCfgArr[..], hasCallback, userFunc)
    {
      hide Routed, AllFound, Granted, Has, LegalListings;
      link := Connect(link, t);
      if !t.connectGood {
        return Retry;
      }
      if link.session.Active? {
        var ok := CreateSubscription(t);
        if !ok {
          return Stop;
        }
        link := link.(session := Drop(link.session, t.during));
      }
      return Iterate;
    }

    /** One turn of runClient's loop. */
    method RunTurn(t: Turn) returns (o: Outcome)
      requires Valid() && LegalListings(t) && RoutedAsGiven(Look(), topicCfgArr[..], hasCallback, userFunc)
      modifies this, monitorContext, items, subCallbacks, contexts, deleteCallbacks
      ensures Valid() && SameOrNew() && topicCfgArr[..] == old(topicCfgArr[..])
      ensures (link, o) == Turned(old(link), t)
      ensures Owned() == Provided(old(Owned()), old(link), t)
      ensures RoutedAsGiven(Look(), topicCfgArr[..], hasCallback, userFunc)
    {
      hide Granted, RoutedAsGiven, Has, LegalListings;
      link := link.(session := Drop(link.session, t.before));
      o := Iterate;
      if link.session == Closed {
        o := Reconnect(t);
      }
    }

    /** runClient: whatever happens to the connection, in every view at an iterate call all arrays agree, position
        by position, with the configurations given to clientSubscribe. */
    method RunClient(turns: seq<Turn>) returns (trace: seq<View>)
      requires Valid() && RoutedAsGiven(Look(), topicCfgArr[..], hasCallback, userFunc)
      requires forall k | 0 <= k < |turns| :: LegalListings(turns[k])
      modifies this, monitorContext, items, subCallbacks, contexts, deleteCallbacks
      ensures old(link).session != Pending && NetworkReturns(turns) ==> trace != [] && trace[|trace| - 1].link.session.Active?
      ensures Links(trace) == Iterates(old(link), turns) && Arrays(trace) == Provisions(old(Owned()), old(link), turns)
      ensures topicCfgArr == old(topicCfgArr) && topicCfgArr[..] == old(topicCfgArr[..])
      ensures forall k | 0 <= k < |trace| :: RoutedAsGiven(trace[k].table, topicCfgArr[..], old(hasCallback), old(userFunc))
    {
      hide Turned, RoutedAsGiven, Follows, Supplied, Iterates, Provisions, Provided, Has, LegalListings, NetworkReturns;
      trace := [];
      ghost var cfgs, hc, uf, have := topicCfgArr[..], hasCallback, userFunc, Owned();
      var n := 0;
      NothingYet(have, link, turns);
      while n < |turns|
        invariant 0 <= n <= |turns| && Valid() && SameOrNew()
        invariant topicCfgArr[..] == cfgs && RoutedAsGiven(Look(), cfgs, hc, uf)
        invariant Follows(old(link), turns, n, trace, link)
        invariant Supplied(have, old(link), turns, n, trace, Owned(), link)
        invariant forall k | 0 <= k < |trace| :: RoutedAsGiven(trace[k].table, cfgs, hc, uf)
      {
        ghost var before, had := link, Owned();
        var o := RunTurn(turns[n]);
        FollowsStep(old(link), turns, n, trace, before, View(link, Look()), o);
        SuppliedStep(have, old(link), turns, n, trace, had, before, View(link, Look()), o);
        if o.Stop? {
          TraceRecovers(old(link), turns, trace);
          return;
        }
        if o.Iterate? {
          trace := trace + [View(link, Look())];
        }
        n := n + 1;
      }
      AllDone(have, old(link), turns, trace, Owned(), link);
      TraceRecovers(old(link), turns, trace);
    }

    /** clientSubscribe and the client thread it starts, after a first connect: at every iterate call of the thread
        the arrays agree with the configurations given, and an active session has its one subscription. */
    method SubscribeAndRun(topicConfigs: seq<TopicConfig>, cb: bool, pyxFunc: int, t: Turn, threadGood: bool, turns: seq<Turn>)
      returns (ok: bool, trace: seq<View>)
      requires client && link.created == [] && (link.session.Active? ==> link.session.id < link.connects)
      requires items == null && subCallbacks == null && contexts == null && deleteCallbacks == null
      requires LegalListings(t) && forall k | 0 <= k < |turns| :: LegalListings(turns[k]) && LegalTurn(turns[k])
      modifies this
      ensures ok <==> t.subscribeGood && old(link).session.Active? && threadGood
      ensures !ok ==> trace == []
      ensures forall k | 0 <= k < |trace| :: RoutedAsGiven(trace[k].table, topicConfigs, cb, pyxFunc)
      ensures forall k | 0 <= k < |trace| && trace[k].link.session.Active? ::
                Count(trace[k].link.created, trace[k].link.session.id) == 1
      ensures forall k | 0 <= k < |trace| :: Within(t.memory, Has(trace[k].table))
      ensures forall k | 0 <= k < |trace| :: Serves(trace[k].table, topicConfigs, cb, pyxFunc)
      ensures ok && NetworkReturns(turns) ==> trace != [] && trace[|trace| - 1].link.session.Active?
    {
      ok := ClientSubscribe(topicConfigs, cb, pyxFunc, t, threadGood);
      trace := [];
      if ok {
        ghost var l := link;
        assert RoutedAsGiven(Look(), topicCfgArr[..], hasCallback, userFunc);
        trace := RunClient(turns);
        ProvisionsStay(t.memory, l, turns);
        forall k | 0 <= k < |trace| ensures Serves(trace[k].table, topicConfigs, cb, pyxFunc) {
          RoutedServes(trace[k].table, topicConfigs, cb, pyxFunc);
        }
        forall k | 0 <= k < |trace| ensures Within(t.memory, Has(trace[k].table)) {
          assert Arrays(trace)[k] == Has(trace[k].table);
        }
        forall k | 0 <= k < |trace| && trace[k].link.session.Active?
          ensures Count(trace[k].link.created, trace[k].link.session.id) == 1
        {
          assert Links(trace)[k] == trace[k].link;
          OneSubscriptionPerSession(l, l.session.id, turns, k);
        }
      }
    }
  }

  /** After `n` turns from `l0` the views so far are `trace` and the link is `l`. */
  ghost predicate Follows(l0: Link, turns: seq<Turn>, n: nat, trace: seq<View>, l: Link) {
    n <= |turns| && Iterates(l0, turns) == Links(trace) + Iterates(l, turns[n..])
  }

  /** After `n` turns the views so far had these arrays and now there are `m`. */
  ghost predicate Supplied(m0: Memory, l0: Link, turns: seq<Turn>, n: nat, trace: seq<View>, m: Memory, l: Link) {
    n <= |turns| && Provisions(m0, l0, turns) == Arrays(trace) + Provisions(m, l, turns[n..])
  }

  lemma TraceRecovers(l: Link, turns: seq<Turn>, trace: seq<View>)
    requires Links(trace) == Iterates(l, turns)
    ensures l.session != Pending && NetworkReturns(turns) ==> trace != [] && trace[|trace| - 1].link.session.Active?
  {
    if l.session != Pending && NetworkReturns(turns) {
      Recovers(l, turns);
      assert Links(trace)[|trace| - 1] == trace[|trace| - 1].link;
    }
  }

  lemma NothingYet(m: Memory, l: Link, turns: seq<Turn>)
    ensures Follows(l, turns, 0, [], l) && Supplied(m, l, turns, 0, [], m, l)
  {
    assert turns[0..] == turns;
    assert Links([]) + Iterates(l, turns) == Iterates(l, turns);
    assert Arrays([]) + Provisions(m, l, turns) == Provisions(m, l, turns);
  }

  lemma AllDone(m0: Memory, l0: Link, turns: seq<Turn>, trace: seq<View>, m: Memory, l: Link)
    requires Follows(l0, turns, |turns|, trace, l) && Supplied(m0, l0, turns, |turns|, trace, m, l)
    ensures Iterates(l0, turns) == Links(trace) && Provisions(m0, l0, turns) == Arrays(trace)
  {
  }

  lemma SuppliedStep(m0: Memory, l0: Link, turns: seq<Turn>, n: nat, trace: seq<View>, m: Memory, l: Link,
                     v: View, o: Outcome)
    requires n < |turns| && Supplied(m0, l0, turns, n, trace, m, l)
    requires (v.link, o) == Turned(l, turns[n]) && Has(v.table) == Provided(m, l, turns[n])
    ensures o == Stop ==> Provisions(m0, l0, turns) == Arrays(trace)
    ensures o == Retry ==> Supplied(m0, l0, turns, n + 1, trace, Has(v.table), v.link)
    ensures o == Iterate ==> Supplied(m0, l0, turns, n + 1, trace + [v], Has(v.table), v.link)
  {
    hide Turned, Provided, Has;
    assert turns[n..][0] == turns[n] && turns[n..][1..] == turns[n + 1..];
    var rest := Provisions(Has(v.table), v.link, turns[n + 1..]);
    assert Arrays(trace + [v]) == Arrays(trace) + [Has(v.table)];
    assert Arrays(trace) + ([Has(v.table)] + rest) == Arrays(trace) + [Has(v.table)] + rest;
  }

  lemma FollowsStep(l0: Link, turns: seq<Turn>, n: nat, trace: seq<View>, l: Link, v: View, o: Outcome)
    requires n < |turns| && Follows(l0, turns, n, trace, l) && (v.link, o) == Turned(l, turns[n])
    ensures o == Stop ==> Iterates(l0, turns) == Links(trace)
    ensures o == Retry ==> Follows(l0, turns, n + 1, trace, v.link)
    ensures o == Iterate ==> Follows(l0, turns, n + 1, trace + [v], v.link)
  {
    hide Turned;
    assert turns[n..][0] == turns[n] && turns[n..][1..] == turns[n + 1..];
    assert Links(trace + [v]) == Links(trace) + [v.link];
    assert Links(trace) + ([v.link] + Iterates(v.link, turns[n + 1..])) == Links(trace) + [v.link] + Iterates(v.link, turns[n + 1..]);
  }
}
