/** The server's topic registry.  Whether a topic is already there is decided from `topicContext`, one cached
    string that keeps its old content when the node looked up does not exist. */
module Registry {
  import opened CStrings

  datatype NodeId = NodeId(ns: nat, id: string)
  datatype Node = Node(nodeId: NodeId, context: string)

  /** What the library keeps of the server: its namespace table and the variable nodes, in the order added. */
  datatype Space = Space(namespaces: seq<string>, nodes: seq<Node>)

  /** `gServerContext.topicContext`: NULL, freshly allocated and never written, or a node's context. */
  datatype Cache = Null | Unwritten | Cached(topic: string)

  /** Whether the two library calls that may fail succeed. */
  datatype Env = Env(namespaceOk: bool, nodeOk: bool)

  datatype Registry = Registry(space: Space, cache: Cache)

  function IndexOf(names: seq<string>, name: string): (i: Option<nat>)
    ensures i.Some? ==> i.value < |names| && names[i.value] == name
    ensures i.None? ==> name !in names
  {
    if names == [] then None
    else if names[0] == name then Some(0)
    else match IndexOf(names[1..], name) case None => None case Some(k) => Some(k + 1)
  }

  /** UA_Server_getNodeContext's answer, if the node is known. */
  function ContextOf(nodes: seq<Node>, nodeId: NodeId): Option<string> {
    if nodes == [] then None
    else if nodes[|nodes| - 1].nodeId == nodeId then Some(nodes[|nodes| - 1].context)
    else ContextOf(nodes[..|nodes| - 1], nodeId)
  }

  predicate HasNode(nodes: seq<Node>, nodeId: NodeId) {
    ContextOf(nodes, nodeId).Some?
  }

  /** The topic has a node in the namespace of that name. */
  predicate Known(space: Space, ns: string, topic: string) {
    var i := IndexOf(space.namespaces, ns);
    i.Some? && HasNode(space.nodes, NodeId(i.value, topic))
  }

  /** The cached context after looking a node up: overwritten only if the node is known. */
  function Looked(nodes: seq<Node>, cache: Cache, nodeId: NodeId): Cache {
    var context := ContextOf(nodes, nodeId);
    if context.Some? then Cached(context.value) else cache
  }

  datatype Added = Added(space: Space, cache: Cache, nsIndex: nat)

  /** addTopicDataSourceVariable as a function of the server, the cached context and the library's luck. */
  function AddTopic(space: Space, cache: Cache, ns: string, topic: string, env: Env): Added {
    var found := IndexOf(space.namespaces, ns);
    if found.None? && !env.namespaceOk then Added(space, cache, 0)
    else
      var nsIndex := if found.Some? then found.value else |space.namespaces|;
      var space' := if found.Some? then space else space.(namespaces := space.namespaces + [ns]);
      var nodeId := NodeId(nsIndex, topic);
      var cache' := Looked(space.nodes, cache, nodeId);
      if cache' == Cached(topic) || !env.nodeOk then Added(space', cache', nsIndex)
      else Added(space'.(nodes := space'.nodes + [Node(nodeId, topic)]), cache', nsIndex)
  }

  datatype Pub = Pub(ns: string, topic: string, env: Env)

  /** The registry after one serverPublish. */
  function Publish(r: Registry, p: Pub): Registry {
    var a := AddTopic(r.space, if r.cache.Null? then Unwritten else r.cache, p.ns, p.topic, p.env);
    Registry(a.space, a.cache)
  }

  /** The registry after a history of publishes to a fresh server whose library namespaces are `base`. */
  function Run(base: seq<string>, h: seq<Pub>): Registry {
    if h == [] then Registry(Space(base, []), Null) else Publish(Run(base, h[..|h| - 1]), h[|h| - 1])
  }

  datatype Status = Good | Bad(code: string)

  /** The publisher's globals. */
  class ServerContext {
    var server: Option<Space>
    var topicContext: Cache
    const dataToPublish: array<char>

    constructor (namespaces: seq<string>)
      ensures server == Some(Space(namespaces, [])) && topicContext == Null
      ensures fresh(dataToPublish) && dataToPublish.Length == PUBLISH_DATA_SIZE
      ensures NUL in dataToPublish[..] && CStrAt(dataToPublish[..], 0) == ""
    {
      server := Some(Space(namespaces, []));
      topicContext := Null;
      dataToPublish := new char[PUBLISH_DATA_SIZE](_ => NUL);
      new;
      assert dataToPublish[..][0] == NUL;
    }

    method AddTopicDataSourceVariable(ns: string, topic: string, env: Env) returns (nsIndex: nat)
      requires server.Some?
      modifies `server, `topicContext
      ensures server.Some?
      ensures Added(server.value, topicContext, nsIndex) == AddTopic(old(server.value), old(topicContext), ns, topic, env)
      ensures if IndexOf(server.value.namespaces, ns).Some? then nsIndex == IndexOf(server.value.namespaces, ns).value
              else !env.namespaceOk && nsIndex == 0
    {
      var space := server.value;
      var found := IndexOf(space.namespaces, ns);
      if found.Some? {
        nsIndex := found.value;
      } else {
        if !env.namespaceOk {
          nsIndex := 0;
          return;
        }
        nsIndex := |space.namespaces|;
        IndexOfAppend(space.namespaces, ns, ns);
        server := Some(space.(namespaces := space.namespaces + [ns]));
      }
      var currentNodeId := NodeId(nsIndex, topic);
      var context := ContextOf(server.value.nodes, currentNodeId);
      if context.Some? {
        topicContext := Cached(context.value);
      }
      if topicContext == Cached(topic) {
        return;
      }
      if env.nodeOk {
        server := Some(server.value.(nodes := server.value.nodes + [Node(currentNodeId, topic)]));
      }
    }

    /** The first part of serverPublish: allocate the cached context if there is none, then register the topic. */
    method Register(ns: string, topic: string, env: Env) returns (nsIndex: nat)
      requires server.Some?
      modifies `server, `topicContext
      ensures server.Some?
      ensures Registry(server.value, topicContext) == Publish(Registry(old(server.value), old(topicContext)), Pub(ns, topic, env))
      ensures if IndexOf(server.value.namespaces, ns).Some? then nsIndex == IndexOf(server.value.namespaces, ns).value
              else !env.namespaceOk && nsIndex == 0
    {
      if topicContext.Null? {
        topicContext := Unwritten;
      }
      nsIndex := AddTopicDataSourceVariable(ns, topic, env);
    }

    /** The second part: overwrite the one buffer. */
    method StoreData(data: string)
      requires NUL !in data && dataToPublish.Length == PUBLISH_DATA_SIZE
      modifies dataToPublish
      ensures NUL in dataToPublish[..]
      ensures |data| + 1 < PUBLISH_DATA_SIZE ==> CStrAt(dataToPublish[..], 0) == data
    {
      DbaStrcpy(dataToPublish, data);
    }

    /** serverPublish: register, overwrite the one buffer, write the node `target`.  The buffer is overwritten whether
        or not the registration and the write succeed; without a server nothing happens. */
    method ServerPublish(ns: string, topic: string, data: string, env: Env, written: Status)
      returns (ret: Status, target: Option<NodeId>)
      requires NUL !in data && dataToPublish.Length == PUBLISH_DATA_SIZE
      modifies this, dataToPublish
      ensures old(server).None? ==> ret.Bad? && target == None && server == None && topicContext == old(topicContext)
                                    && dataToPublish[..] == old(dataToPublish[..])
      ensures old(server).Some? ==>
                && ret == written && server.Some?
                && Registry(server.value, topicContext) == Publish(Registry(old(server.value), old(topicContext)), Pub(ns, topic, env))
                && (var i := IndexOf(server.value.namespaces, ns);
                    target == Some(NodeId(if i.Some? then i.value else 0, topic)))
                && NUL in dataToPublish[..] && (|data| + 1 < PUBLISH_DATA_SIZE ==> CStrAt(dataToPublish[..], 0) == data)
    {
      if server.None? {
        return Bad("UA_Server instance is not instantiated"), None;
      }
      var nsIndex := Register(ns, topic, env);
      StoreData(data);
      target := Some(NodeId(nsIndex, topic));
      ret := written;
    }

    /** readPublishedData: whatever node is read, the bytes of the one buffer up to its terminator. */
    method ReadPublishedData(nodeId: NodeId) returns (value: string)
      requires NUL in dataToPublish[..]
      ensures value == CStrAt(dataToPublish[..], 0)
    {
      var n := StrLen(dataToPublish);
      value := dataToPublish[..n];
    }
  }

  // ---------------------------------------------------------------------------------------------------------
  // The shape of every reachable registry.

  ghost predicate Inv(space: Space) {
    && (forall n | n in space.nodes :: n.context == n.nodeId.id && n.nodeId.ns < |space.namespaces|)
    && (forall i, j | 0 <= i < j < |space.nodes| :: space.nodes[i].nodeId != space.nodes[j].nodeId)
  }

  lemma {:induction false} HasNodeIff(nodes: seq<Node>, nodeId: NodeId)
    ensures HasNode(nodes, nodeId) <==> exists i | 0 <= i < |nodes| :: nodes[i].nodeId == nodeId
  {
    if nodes == [] {
    } else {
      HasNodeIff(nodes[..|nodes| - 1], nodeId);
    }
  }

  lemma {:induction false} ContextIsName(nodes: seq<Node>, nodeId: NodeId)
    requires forall n | n in nodes :: n.context == n.nodeId.id
    ensures HasNode(nodes, nodeId) ==> ContextOf(nodes, nodeId) == Some(nodeId.id)
  {
    if nodes == [] {
    } else {
      ContextIsName(nodes[..|nodes| - 1], nodeId);
    }
  }

  lemma {:induction false} IndexOfAppend(names: seq<string>, more: string, name: string)
    ensures IndexOf(names + [more], name)
            == if name in names then IndexOf(names, name) else if name == more then Some(|names|) else None
  {
    if names == [] {
    } else {
      assert (names + [more])[1..] == names[1..] + [more];
      IndexOfAppend(names[1..], more, name);
    }
  }

  lemma AddNodeKnown(nodes: seq<Node>, n: Node, nodeId: NodeId)
    ensures HasNode(nodes + [n], nodeId) <==> HasNode(nodes, nodeId) || n.nodeId == nodeId
  {
    assert (nodes + [n])[..|nodes|] == nodes;
  }

  lemma AddNamespaceEffect(space: Space, ns: string)
    requires Inv(space) && ns !in space.namespaces
    ensures var s := space.(namespaces := space.namespaces + [ns]);
            && Inv(s) && IndexOf(s.namespaces, ns) == Some(|space.namespaces|)
            && !HasNode(space.nodes, NodeId(|space.namespaces|, ""))
            && forall m, t :: Known(s, m, t) <==> Known(space, m, t)
  {
    var s := space.(namespaces := space.namespaces + [ns]);
    IndexOfAppend(space.namespaces, ns, ns);
    forall t ensures !HasNode(space.nodes, NodeId(|space.namespaces|, t)) {
      HasNodeIff(space.nodes, NodeId(|space.namespaces|, t));
    }
    forall m, t ensures Known(s, m, t) <==> Known(space, m, t) {
      IndexOfAppend(space.namespaces, ns, m);
    }
  }

  lemma AddNodeEffect(space: Space, ns: string, topic: string)
    requires Inv(space) && IndexOf(space.namespaces, ns).Some? && !Known(space, ns, topic)
    ensures var n := Node(NodeId(IndexOf(space.namespaces, ns).value, topic), topic);
            var s := space.(nodes := space.nodes + [n]);
            Inv(s) && forall m, t :: Known(s, m, t) <==> Known(space, m, t) || (m == ns && t == topic)
  {
    var n := Node(NodeId(IndexOf(space.namespaces, ns).value, topic), topic);
    var s := space.(nodes := space.nodes + [n]);
    HasNodeIff(space.nodes, n.nodeId);
    forall m, t ensures Known(s, m, t) <==> Known(space, m, t) || (m == ns && t == topic) {
      if IndexOf(space.namespaces, m).Some? {
        AddNodeKnown(space.nodes, n, NodeId(IndexOf(space.namespaces, m).value, t));
      }
    }
  }

  const OK := Env(true, true)

  /** The server with the namespace present, as the second half of AddTopic sees it. */
  function WithNamespace(space: Space, ns: string): Space {
    if IndexOf(space.namespaces, ns).Some? then space else space.(namespaces := space.namespaces + [ns])
  }

  lemma WithNamespaceEffect(space: Space, ns: string)
    requires Inv(space)
    ensures var s := WithNamespace(space, ns);
            Inv(s) && IndexOf(s.namespaces, ns).Some? && s.nodes == space.nodes
            && forall m, t :: Known(s, m, t) <==> Known(space, m, t)
  {
    if IndexOf(space.namespaces, ns).None? {
      AddNamespaceEffect(space, ns);
    }
  }

  /** `s'` knows what `s` knows, and perhaps also `topic` in `ns`. */
  ghost predicate Extends(s: Space, s': Space, ns: string, topic: string, now: bool) {
    Inv(s') && forall m, t :: Known(s', m, t) <==> Known(s, m, t) || (now && m == ns && t == topic)
  }

  /** A known topic is recognised, and its name is cached. */
  lemma PublishKnown(r: Registry, ns: string, topic: string, env: Env)
    requires Inv(r.space) && Known(r.space, ns, topic)
    ensures Publish(r, Pub(ns, topic, env)) == Registry(r.space, Cached(topic))
  {
    ContextIsName(r.space.nodes, NodeId(IndexOf(r.space.namespaces, ns).value, topic));
  }

  /** An unknown topic is added, and the cache is left as it was, unless the cache happens to hold its name. */
  lemma PublishUnknown(r: Registry, ns: string, topic: string, env: Env)
    requires Inv(r.space) && !Known(r.space, ns, topic)
    ensures var r' := Publish(r, Pub(ns, topic, env));
            && (env == OK ==> Extends(r.space, r'.space, ns, topic, r.cache != Cached(topic)))
            && Extends(r.space, r'.space, ns, topic, Known(r'.space, ns, topic))
            && r'.cache == if r.cache.Null? then Unwritten else r.cache
  {
    var s := WithNamespace(r.space, ns);
    WithNamespaceEffect(r.space, ns);
    assert !Known(s, ns, topic);
    AddNodeEffect(s, ns, topic);
    assert Extends(r.space, r.space, ns, topic, false);
    assert Extends(r.space, s, ns, topic, false);
    var a := s.(nodes := s.nodes + [Node(NodeId(IndexOf(s.namespaces, ns).value, topic), topic)]);
    assert Extends(r.space, a, ns, topic, true);
  }

  /** A publish that is not misled by the cache: the topic is known afterwards, and nothing else changes. */
  lemma PublishStep(r: Registry, p: Pub)
    requires Inv(r.space) && p.env == OK
    requires Known(r.space, p.ns, p.topic) || r.cache != Cached(p.topic)
    ensures Extends(r.space, Publish(r, p).space, p.ns, p.topic, true)
    ensures Publish(r, p).cache
            == if Known(r.space, p.ns, p.topic) then Cached(p.topic) else if r.cache.Null? then Unwritten else r.cache
  {
    if Known(r.space, p.ns, p.topic) {
      PublishKnown(r, p.ns, p.topic, p.env);
    } else {
      PublishUnknown(r, p.ns, p.topic, p.env);
    }
  }

  /** Unless the cache misleads it, the registration leaves the topic with a node exactly if it had one or both library
      calls it needs succeed; it touches no other topic; and the index it returns is the namespace's, under which the
      topic's node then stands. */
  lemma RegisteredAfterIff(space: Space, cache: Cache, ns: string, topic: string, env: Env)
    requires Inv(space) && (Known(space, ns, topic) || cache != Cached(topic))
    ensures var a := AddTopic(space, cache, ns, topic, env);
            && (Known(a.space, ns, topic) <==>
                  Known(space, ns, topic) || (env.nodeOk && (env.namespaceOk || ns in space.namespaces)))
            && Extends(space, a.space, ns, topic, Known(a.space, ns, topic))
            && (ns in a.space.namespaces <==> ns in space.namespaces || env.namespaceOk)
            && (IndexOf(a.space.namespaces, ns) == if ns in a.space.namespaces then Some(a.nsIndex) else None)
            && (Known(a.space, ns, topic) ==> exists i :: 0 <= i < |a.space.nodes| && a.space.nodes[i].nodeId == NodeId(a.nsIndex, topic))
  {
    var r := Registry(space, if cache.Null? then Unwritten else cache);
    var a := AddTopic(space, cache, ns, topic, env);
    IndexOfAppend(space.namespaces, ns, ns);
    if Known(space, ns, topic) {
      PublishKnown(r, ns, topic, env);
    } else {
      UnknownIsAdded(space, cache, ns, topic, env);
    }
    HasNodeIff(a.space.nodes, NodeId(a.nsIndex, topic));
  }

  lemma UnknownIsAdded(space: Space, cache: Cache, ns: string, topic: string, env: Env)
    requires Inv(space) && !Known(space, ns, topic) && cache != Cached(topic)
    ensures var a := AddTopic(space, cache, ns, topic, env);
            Extends(space, a.space, ns, topic, env.nodeOk && (env.namespaceOk || ns in space.namespaces))
  {
    var s := WithNamespace(space, ns);
    WithNamespaceEffect(space, ns);
    AddNodeEffect(s, ns, topic);
    assert Extends(space, space, ns, topic, false) && Extends(space, s, ns, topic, false);
  }

  // ---------------------------------------------------------------------------------------------------------
  // One namespace, with library calls that may fail: the cached string answers the membership question.

  predicate OneNamespace(h: seq<Pub>, ns: string) {
    h == [] || (OneNamespace(h[..|h| - 1], ns) && h[|h| - 1].ns == ns)
  }

  /** The test made for `topic` on the next publish. */
  predicate SaysExists(r: Registry, ns: string, topic: string) {
    var i := IndexOf(r.space.namespaces, ns);
    Looked(r.space.nodes, r.cache, NodeId(if i.Some? then i.value else |r.space.namespaces|, topic)) == Cached(topic)
  }

  lemma {:induction false} CacheIsRegistered(base: seq<string>, h: seq<Pub>, ns: string)
    requires OneNamespace(h, ns)
    ensures var r := Run(base, h);
            Inv(r.space) && (r.cache.Cached? ==> Known(r.space, ns, r.cache.topic))
  {
    hide Publish;
    if h == [] {
    } else {
      var r, p := Run(base, h[..|h| - 1]), h[|h| - 1];
      CacheIsRegistered(base, h[..|h| - 1], ns);
      if Known(r.space, ns, p.topic) {
        PublishKnown(r, ns, p.topic, p.env);
      } else {
        PublishUnknown(r, ns, p.topic, p.env);
      }
    }
  }

  /** After any history of publishes to one namespace, the string comparison tells exactly whether the topic has a
      node; so a publish whose library calls succeed leaves it with one. */
  lemma ExistsTestIsMembership(base: seq<string>, h: seq<Pub>, ns: string, topic: string)
    requires OneNamespace(h, ns)
    ensures SaysExists(Run(base, h), ns, topic) <==> Known(Run(base, h).space, ns, topic)
    ensures Known(Run(base, h + [Pub(ns, topic, OK)]).space, ns, topic)
  {
    hide Publish;
    var r := Run(base, h);
    CacheIsRegistered(base, h, ns);
    assert (h + [Pub(ns, topic, OK)])[..|h|] == h;
    var i := IndexOf(r.space.namespaces, ns);
    if Known(r.space, ns, topic) {
      PublishKnown(r, ns, topic, OK);
      ContextIsName(r.space.nodes, NodeId(i.value, topic));
    } else {
      PublishUnknown(r, ns, topic, OK);
      HasNodeIff(r.space.nodes, NodeId(|r.space.namespaces|, topic));
    }
  }

  predicate AllOk(h: seq<Pub>) {
    h == [] || (AllOk(h[..|h| - 1]) && h[|h| - 1].env == OK)
  }

  /** First occurrences, in order. */
  function Distinct(ts: seq<string>): seq<string> {
    if ts == [] then []
    else if ts[|ts| - 1] in ts[..|ts| - 1] then Distinct(ts[..|ts| - 1])
    else Distinct(ts[..|ts| - 1]) + [ts[|ts| - 1]]
  }

  function TopicsOf(h: seq<Pub>): seq<string> {
    seq(|h|, k requires 0 <= k < |h| => h[k].topic)
  }

  function Nodes(nsIndex: nat, topics: seq<string>): seq<Node> {
    seq(|topics|, k requires 0 <= k < |topics| => Node(NodeId(nsIndex, topics[k]), topics[k]))
  }

  /** The namespace's index is fixed by its first publish. */
  lemma IndexStays(r: Registry, ns: string, topic: string)
    ensures var i := IndexOf(WithNamespace(r.space, ns).namespaces, ns);
            i.Some? && IndexOf(Publish(r, Pub(ns, topic, OK)).space.namespaces, ns) == i
  {
    IndexOfAppend(r.space.namespaces, ns, ns);
  }

  lemma NodeAdded(r: Registry, ns: string, topic: string)
    requires Inv(r.space)
    ensures var i := IndexOf(WithNamespace(r.space, ns).namespaces, ns);
            var r' := Publish(r, Pub(ns, topic, OK));
            i.Some? && r'.space.nodes == if SaysExists(r, ns, topic) then r.space.nodes
                                         else r.space.nodes + [Node(NodeId(i.value, topic), topic)]
  {
    IndexOfAppend(r.space.namespaces, ns, ns);
  }

  lemma DistinctSnoc(ts: seq<string>, t: string)
    ensures Distinct(ts + [t]) == if t in ts then Distinct(ts) else Distinct(ts) + [t]
  {
    assert (ts + [t])[..|ts|] == ts;
  }

  /** The index `ns` has once a history of publishes to it has begun. */
  function NsIndex(base: seq<string>, ns: string): nat {
    match IndexOf(base, ns) case Some(i) => i case None => |base|
  }

  lemma NodesSnoc(n: nat, ts: seq<string>, t: string)
    ensures Nodes(n, ts + [t]) == Nodes(n, ts) + [Node(NodeId(n, t), t)]
  {
  }

  lemma AddedOnceStep(r: Registry, ns: string, n: nat, ts: seq<string>, t: string)
    requires Inv(r.space) && r.space.nodes == Nodes(n, Distinct(ts))
    requires IndexOf(WithNamespace(r.space, ns).namespaces, ns) == Some(n)
    requires SaysExists(r, ns, t) <==> t in ts
    ensures Publish(r, Pub(ns, t, OK)).space.nodes == Nodes(n, Distinct(ts + [t]))
  {
    NodeAdded(r, ns, t);
    DistinctSnoc(ts, t);
    NodesSnoc(n, Distinct(ts), t);
  }

  /** After a history of publishes to one namespace, that namespace has the one index it got at the start, and its
      topics are known exactly if they were published. */
  lemma {:induction false} KnownIsPublished(base: seq<string>, h: seq<Pub>, ns: string)
    requires OneNamespace(h, ns) && AllOk(h)
    ensures IndexOf(WithNamespace(Run(base, h).space, ns).namespaces, ns) == Some(NsIndex(base, ns))
    ensures h != [] ==> IndexOf(Run(base, h).space.namespaces, ns) == Some(NsIndex(base, ns))
    ensures forall t :: Known(Run(base, h).space, ns, t) <==> t in TopicsOf(h)
  {
    IndexOfAppend(base, ns, ns);
    hide Publish;
    if h == [] {
    } else {
      var g, p := h[..|h| - 1], h[|h| - 1];
      var r := Run(base, g);
      KnownIsPublished(base, g, ns);
      CacheIsRegistered(base, g, ns);
      PublishStep(r, p);
      IndexStays(r, ns, p.topic);
      assert p == Pub(ns, p.topic, OK);
      assert TopicsOf(h) == TopicsOf(g) + [p.topic];
    }
  }

  /** Each topic is added exactly once, at its first publish, under that index. */
  lemma {:induction false} EachTopicAddedOnce(base: seq<string>, h: seq<Pub>, ns: string)
    requires OneNamespace(h, ns) && AllOk(h)
    ensures Run(base, h).space.nodes == Nodes(NsIndex(base, ns), Distinct(TopicsOf(h)))
  {
    hide Publish;
    if h == [] {
    } else {
      var g, p := h[..|h| - 1], h[|h| - 1];
      EachTopicAddedOnce(base, g, ns);
      KnownIsPublished(base, g, ns);
      CacheIsRegistered(base, g, ns);
      ExistsTestIsMembership(base, g, ns, p.topic);
      assert p == Pub(ns, p.topic, OK);
      assert TopicsOf(h) == TopicsOf(g) + [p.topic];
      AddedOnceStep(Run(base, g), ns, NsIndex(base, ns), TopicsOf(g), p.topic);
    }
  }

  // ---------------------------------------------------------------------------------------------------------
  // Several namespaces: exactly when the cache is good enough.

  /** The topic of the last publish that repeated an earlier one: what the cache holds while it is right. */
  function LastRepeat(h: seq<Pub>): Option<string> {
    if h == [] then None
    else if h[|h| - 1] in h[..|h| - 1] then Some(h[|h| - 1].topic)
    else LastRepeat(h[..|h| - 1])
  }

  /** No publish of a new topic comes while the last repetition was of the same topic name (in another namespace). */
  predicate NoStaleHit(h: seq<Pub>) {
    h == [] || (NoStaleHit(h[..|h| - 1]) && !StaleHit(h[..|h| - 1], h[|h| - 1]))
  }

  predicate StaleHit(g: seq<Pub>, p: Pub) {
    p !in g && LastRepeat(g) == Some(p.topic)
  }

  ghost predicate Knows(space: Space, h: seq<Pub>) {
    forall ns, t :: Known(space, ns, t) <==> Pub(ns, t, OK) in h
  }

  ghost predicate Synced(r: Registry, h: seq<Pub>) {
    Inv(r.space) && Knows(r.space, h) && forall t :: r.cache == Cached(t) <==> LastRepeat(h) == Some(t)
  }

  lemma SyncedStep(r: Registry, g: seq<Pub>, p: Pub)
    requires Synced(r, g) && p.env == OK
    ensures !StaleHit(g, p) ==> Synced(Publish(r, p), g + [p])
    ensures StaleHit(g, p) ==> !Knows(Publish(r, p).space, g + [p])
  {
    assert p == Pub(p.ns, p.topic, OK);
    assert (g + [p])[..|g|] == g;
    if StaleHit(g, p) {
      PublishUnknown(r, p.ns, p.topic, OK);
      assert p in g + [p];
    } else {
      PublishStep(r, p);
    }
  }

  lemma {:induction false} NoStaleHitSynced(base: seq<string>, h: seq<Pub>)
    requires AllOk(h) && NoStaleHit(h)
    ensures Synced(Run(base, h), h)
  {
    hide Publish;
    if h == [] {
    } else {
      var g, p := h[..|h| - 1], h[|h| - 1];
      NoStaleHitSynced(base, g);
      SyncedStep(Run(base, g), g, p);
      assert h == g + [p];
    }
  }

  /** At every moment of a history the server knows exactly what has been published. */
  ghost predicate KnowsThroughout(base: seq<string>, h: seq<Pub>) {
    Knows(Run(base, h).space, h) && (h == [] || KnowsThroughout(base, h[..|h| - 1]))
  }

  /** The registry follows the publishes throughout a history if and only if the history has no stale hit. */
  lemma {:induction false} RegistryAgreesIff(base: seq<string>, h: seq<Pub>)
    requires AllOk(h)
    ensures KnowsThroughout(base, h) <==> NoStaleHit(h)
  {
    hide Publish;
    if h == [] {
      NoStaleHitSynced(base, h);
    } else {
      var g, p := h[..|h| - 1], h[|h| - 1];
      RegistryAgreesIff(base, g);
      if NoStaleHit(g) {
        NoStaleHitSynced(base, g);
        SyncedStep(Run(base, g), g, p);
        assert h == g + [p];
      }
    }
  }

  /** Publishing a topic twice in one namespace and then in another: the third publish adds nothing. */
  lemma SecondNamespaceIsMissed(base: seq<string>, a: string, b: string, t: string)
    requires a != b
    ensures var h := [Pub(a, t, OK), Pub(a, t, OK), Pub(b, t, OK)];
            !Knows(Run(base, h).space, h)
  {
    hide Publish;
    var x, y := Pub(a, t, OK), Pub(b, t, OK);
    Snoc([], x);
    assert [] + [x] == [x];
    Snoc([x], x);
    assert [x] + [x] == [x, x];
    NoStaleHitSynced(base, [x, x]);
    SyncedStep(Run(base, [x, x]), [x, x], y);
    var h := [x, x, y];
    assert h[..2] == [x, x] && h == [x, x] + [y];
  }

  lemma Snoc(g: seq<Pub>, p: Pub)
    ensures AllOk(g + [p]) <==> AllOk(g) && p.env == OK
    ensures NoStaleHit(g + [p]) <==> NoStaleHit(g) && !StaleHit(g, p)
    ensures LastRepeat(g + [p]) == if p in g then Some(p.topic) else LastRepeat(g)
  {
    assert (g + [p])[..|g|] == g;
  }
}
