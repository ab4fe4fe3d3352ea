/** The client's search of the browse result for the node of a topic, and when it agrees with the server's
    registry. */
module Lookup {
  import opened CStrings
  import opened Registry

  /** A reference below the objects folder: a node with a string identifier, or any other node. */
  datatype Ref = StringRef(ns: nat, id: string) | OtherRef

  /** What is left of an identifier in the 100-byte `nodeIdentifier`. */
  function Truncated(id: string): string {
    id[..Min(|id|, NAMESPACE_SIZE - 1)]
  }

  predicate Matches(r: Ref, topic: string) {
    r.StringRef? && Truncated(r.id) == topic
  }

  function FirstMatch(refs: seq<Ref>, topic: string): nat {
    if refs == [] then 0
    else if Matches(refs[0], topic) then refs[0].ns
    else FirstMatch(refs[1..], topic)
  }

  function Flat(results: seq<seq<Ref>>): seq<Ref> {
    if results == [] then [] else results[0] + Flat(results[1..])
  }

  /** Identifiers are C strings that DBA_STRNCPY may be given for a buffer smaller than its own limit. */
  predicate Copyable(r: Ref) {
    r.StringRef? ==> NUL !in r.id && |r.id| < PUBLISH_DATA_SIZE
  }

  /** getNamespaceIndex over the browse response. */
  method GetNamespaceIndex(results: seq<seq<Ref>>, topic: string) returns (nsIndex: nat)
    requires forall i, j | 0 <= i < |results| && 0 <= j < |results[i]| :: Copyable(results[i][j])
    ensures nsIndex == FirstMatch(Flat(results), topic)
  {
    var nodeIdentifier := new char[NAMESPACE_SIZE];
    var i := 0;
    while i < |results|
      invariant 0 <= i <= |results|
      invariant FirstMatch(Flat(results), topic) == FirstMatch(Flat(results[i..]), topic)
    {
      ghost var rest := Flat(results[i + 1..]);
      assert results[i..][0] == results[i] && results[i..][1..] == results[i + 1..];
      var refs := results[i];
      var j := 0;
      assert refs[0..] == refs;
      while j < |refs|
        invariant 0 <= j <= |refs|
        invariant FirstMatch(Flat(results), topic) == FirstMatch(refs[j..] + rest, topic)
      {
        assert (refs[j..] + rest)[0] == refs[j] && (refs[j..] + rest)[1..] == refs[j + 1..] + rest;
        if refs[j].StringRef? {
          assert Copyable(results[i][j]);
          DbaStrncpy(nodeIdentifier, refs[j].id, |refs[j].id|);
          if CStrAt(nodeIdentifier[..], 0) == topic {
            return refs[j].ns;
          }
        }
        j := j + 1;
      }
      assert refs[j..] + rest == rest;
      i := i + 1;
    }
    assert results[i..] == [];
    return 0;
  }

  // ---------------------------------------------------------------------------------------------------------
  // Agreement with the registry.

  /** The response lists the server's string-identified nodes, in any order and grouping, among other nodes. */
  ghost predicate Lists(refs: seq<Ref>, nodes: seq<Node>) {
    && (forall r | r in refs && r.StringRef? :: HasNode(nodes, NodeId(r.ns, r.id)))
    && (forall n | n in nodes :: StringRef(n.nodeId.ns, n.nodeId.id) in refs)
  }

  /** For any references: the answer is the index of the first string node whose cut identifier is the topic. */
  lemma {:induction false} FirstMatchAt(refs: seq<Ref>, topic: string, k: nat)
    requires k < |refs| && refs[k].StringRef? && Truncated(refs[k].id) == topic
    requires forall j | 0 <= j < k && refs[j].StringRef? :: Truncated(refs[j].id) != topic
    ensures FirstMatch(refs, topic) == refs[k].ns
  {
    if k == 0 {
    } else {
      assert refs[0].StringRef? ==> Truncated(refs[0].id) != topic;
      FirstMatchAt(refs[1..], topic, k - 1);
    }
  }

  /** And 0 if there is no such node. */
  lemma {:induction false} NoMatchIsZero(refs: seq<Ref>, topic: string)
    requires forall r | r in refs && r.StringRef? :: Truncated(r.id) != topic
    ensures FirstMatch(refs, topic) == 0
  {
    if refs == [] {
    } else {
      assert refs[0] in refs;
      NoMatchIsZero(refs[1..], topic);
    }
  }

  lemma {:induction false} FirstMatchIs(refs: seq<Ref>, topic: string, n: nat)
    requires forall r | r in refs && Matches(r, topic) :: r.ns == n
    ensures FirstMatch(refs, topic) == if (exists r :: r in refs && Matches(r, topic)) then n else 0
  {
    if refs == [] {
    } else {
      FirstMatchIs(refs[1..], topic, n);
      assert forall r :: r in refs <==> r == refs[0] || r in refs[1..];
    }
  }

  /** A published topic too long for `nodeIdentifier` whose first 99 characters are this topic. */
  predicate Shadows(long: string, topic: string) {
    |long| >= NAMESPACE_SIZE && long[..NAMESPACE_SIZE - 1] == topic
  }

  lemma TruncatedIs(t: string, topic: string)
    ensures Truncated(t) == topic <==> (t == topic && |topic| < NAMESPACE_SIZE) || Shadows(t, topic)
  {
  }

  /** The answer a client should get: the index chosen at registration, or 0 for a topic never published. */
  function Expected(base: seq<string>, h: seq<Pub>, ns: string, topic: string): nat {
    if topic in TopicsOf(h) then NsIndex(base, ns) else 0
  }

  /** After any history of publishes to one namespace, the search gives the expected answer exactly when the topic,
      if published, fits `nodeIdentifier`, and, if not, is not the beginning of a published topic that does not fit. */
  lemma LookupAgreesIff(base: seq<string>, h: seq<Pub>, ns: string, refs: seq<Ref>, topic: string)
    requires OneNamespace(h, ns) && AllOk(h) && Lists(refs, Run(base, h).space.nodes)
    requires NsIndex(base, ns) > 0
    ensures FirstMatch(refs, topic) == Expected(base, h, ns, topic)
            <==> if topic in TopicsOf(h) then |topic| < NAMESPACE_SIZE
                 else forall t | t in TopicsOf(h) :: !Shadows(t, topic)
  {
    hide Run;
    var n, nodes := NsIndex(base, ns), Run(base, h).space.nodes;
    EachTopicAddedOnce(base, h, ns);
    forall r | r in refs && r.StringRef? ensures r.ns == n && r.id in TopicsOf(h) {
      HasNodeIff(nodes, NodeId(r.ns, r.id));
      var k :| 0 <= k < |nodes| && nodes[k].nodeId == NodeId(r.ns, r.id);
      DistinctMembers(TopicsOf(h), Distinct(TopicsOf(h))[k]);
    }
    forall t | t in TopicsOf(h) ensures StringRef(n, t) in refs {
      DistinctMembers(TopicsOf(h), t);
      var k :| 0 <= k < |Distinct(TopicsOf(h))| && Distinct(TopicsOf(h))[k] == t;
      assert nodes[k] in nodes;
    }
    FirstMatchIs(refs, topic, n);
    MatchesIff(refs, n, TopicsOf(h), topic);
  }

  lemma MatchesIff(refs: seq<Ref>, n: nat, ts: seq<string>, topic: string)
    requires forall r | r in refs && r.StringRef? :: r.ns == n && r.id in ts
    requires forall t | t in ts :: StringRef(n, t) in refs
    ensures (exists r :: r in refs && Matches(r, topic))
            <==> (topic in ts && |topic| < NAMESPACE_SIZE) || exists t :: t in ts && Shadows(t, topic)
  {
    forall t ensures Truncated(t) == topic <==> (t == topic && |topic| < NAMESPACE_SIZE) || Shadows(t, topic) {
      TruncatedIs(t, topic);
    }
    if t :| t in ts && Truncated(t) == topic {
      assert StringRef(n, t) in refs && Matches(StringRef(n, t), topic);
    }
  }

  lemma {:induction false} DistinctMembers(ts: seq<string>, t: string)
    ensures t in Distinct(ts) <==> t in ts
  {
    if ts == [] {
    } else {
      DistinctMembers(ts[..|ts| - 1], t);
      assert ts == ts[..|ts| - 1] + [ts[|ts| - 1]];
    }
  }

  // ---------------------------------------------------------------------------------------------------------
  // Several namespaces: the search does not look at the namespace it is asked for.

  /** Every node stands under the index of a namespace. */
  ghost predicate Indexed(space: Space) {
    forall n | n in space.nodes :: InSomeNamespace(space, n)
  }

  ghost predicate InSomeNamespace(space: Space, n: Node) {
    exists ns :: IndexOf(space.namespaces, ns) == Some(n.nodeId.ns)
  }

  lemma PublishKeepsIndexed(space: Space, cache: Cache, p: Pub)
    requires Indexed(space)
    ensures var t := AddTopic(space, cache, p.ns, p.topic, p.env).space;
            Indexed(t) && space.namespaces <= t.namespaces
  {
    var s, t := space, AddTopic(space, cache, p.ns, p.topic, p.env).space;
    IndexOfAppend(s.namespaces, p.ns, p.ns);
    forall n | n in t.nodes ensures InSomeNamespace(t, n) {
      if n in s.nodes {
        assert InSomeNamespace(s, n);
        var ns :| IndexOf(s.namespaces, ns) == Some(n.nodeId.ns);
        IndexOfAppend(s.namespaces, p.ns, ns);
        assert IndexOf(t.namespaces, ns) == Some(n.nodeId.ns);
      } else {
        assert IndexOf(t.namespaces, p.ns) == Some(n.nodeId.ns);
      }
    }
  }

  lemma {:induction false} RunIsIndexed(base: seq<string>, h: seq<Pub>)
    ensures Indexed(Run(base, h).space) && base <= Run(base, h).space.namespaces
  {
    hide AddTopic, Indexed;
    if h == [] {
      NoNodesIndexed(base);
    } else {
      var r, p := Run(base, h[..|h| - 1]), h[|h| - 1];
      RunIsIndexed(base, h[..|h| - 1]);
      PublishKeepsIndexed(r.space, if r.cache.Null? then Unwritten else r.cache, p);
    }
  }

  lemma NoNodesIndexed(base: seq<string>)
    ensures Indexed(Space(base, []))
  {
  }

  /** What the client should get for a topic of the namespace `ns`. */
  function ExpectedIn(space: Space, h: seq<Pub>, ns: string, topic: string): nat {
    if Pub(ns, topic, OK) !in h then 0
    else match IndexOf(space.namespaces, ns) case Some(i) => i case None => 0
  }

  /** A published topic fits the identifier buffer, and whatever publish is cut to its name is of its own namespace; an
      unpublished one is what no published name is cut to. */
  ghost predicate Unambiguous(h: seq<Pub>, ns: string, topic: string) {
    if Pub(ns, topic, OK) in h
    then |topic| < NAMESPACE_SIZE && forall p | p in h && Truncated(p.topic) == topic :: p.ns == ns
    else forall p | p in h :: Truncated(p.topic) != topic
  }

  /** The registered nodes are those of the published topics. */
  ghost predicate NodesOf(space: Space, h: seq<Pub>) {
    && (forall n | n in space.nodes :: IsPublished(space, h, n))
    && (forall p | p in h :: IsRegistered(space, p))
  }

  ghost predicate IsPublished(space: Space, h: seq<Pub>, n: Node) {
    exists p :: p in h && Registered(space, p) == Some(n.nodeId)
  }

  ghost predicate IsRegistered(space: Space, p: Pub) {
    Registered(space, p).Some? && exists n :: n in space.nodes && Registered(space, p) == Some(n.nodeId)
  }

  function Registered(space: Space, p: Pub): Option<NodeId> {
    match IndexOf(space.namespaces, p.ns) case Some(i) => Some(NodeId(i, p.topic)) case None => None
  }

  lemma HistoryNodes(base: seq<string>, h: seq<Pub>)
    requires AllOk(h) && NoStaleHit(h)
    ensures NodesOf(Run(base, h).space, h)
  {
    hide Run;
    var space := Run(base, h).space;
    NoStaleHitSynced(base, h);
    RunIsIndexed(base, h);
    forall n | n in space.nodes ensures IsPublished(space, h, n) {
      assert InSomeNamespace(space, n);
      var ns :| IndexOf(space.namespaces, ns) == Some(n.nodeId.ns);
      HasNodeIff(space.nodes, n.nodeId);
      assert Known(space, ns, n.nodeId.id);
      assert Registered(space, Pub(ns, n.nodeId.id, OK)) == Some(n.nodeId);
    }
    AllOkAll(h);
    forall p | p in h ensures IsRegistered(space, p) {
      assert p == Pub(p.ns, p.topic, OK);
      assert Known(space, p.ns, p.topic);
      var nodeId := NodeId(IndexOf(space.namespaces, p.ns).value, p.topic);
      HasNodeIff(space.nodes, nodeId);
      var k :| 0 <= k < |space.nodes| && space.nodes[k].nodeId == nodeId;
      assert space.nodes[k] in space.nodes;
    }
  }

  lemma {:induction false} AllOkAll(h: seq<Pub>)
    requires AllOk(h)
    ensures forall p | p in h :: p.env == OK
  {
    if h == [] {
    } else {
      AllOkAll(h[..|h| - 1]);
      assert h == h[..|h| - 1] + [h[|h| - 1]];
    }
  }

  /** The library's own namespace, the first one, is not published to. */
  ghost predicate OwnNamespaces(space: Space, h: seq<Pub>) {
    forall p | p in h :: IndexOf(space.namespaces, p.ns) != Some(0)
  }

  function RefOf(n: Node): Ref {
    StringRef(n.nodeId.ns, n.nodeId.id)
  }

  lemma NodeOf(space: Space, h: seq<Pub>, p: Pub) returns (n: Node)
    requires NodesOf(space, h) && p in h
    ensures n in space.nodes && Registered(space, p) == Some(n.nodeId)
  {
    hide IsPublished;
    assert IsRegistered(space, p);
    n :| n in space.nodes && Registered(space, p) == Some(n.nodeId);
  }

  lemma PubOf(space: Space, h: seq<Pub>, refs: seq<Ref>, r: Ref) returns (p: Pub)
    requires NodesOf(space, h) && Lists(refs, space.nodes) && r in refs && r.StringRef?
    ensures p in h && Registered(space, p) == Some(NodeId(r.ns, r.id))
  {
    hide IsRegistered;
    HasNodeIff(space.nodes, NodeId(r.ns, r.id));
    var k :| 0 <= k < |space.nodes| && space.nodes[k].nodeId == NodeId(r.ns, r.id);
    assert IsPublished(space, h, space.nodes[k]);
    p :| p in h && Registered(space, p) == Some(NodeId(r.ns, r.id));
  }

  lemma UnambiguousAgrees(space: Space, h: seq<Pub>, ns: string, topic: string, refs: seq<Ref>)
    requires NodesOf(space, h) && Lists(refs, space.nodes) && Unambiguous(h, ns, topic)
    ensures FirstMatch(refs, topic) == ExpectedIn(space, h, ns, topic)
  {
    hide NodesOf, Lists, IndexOf, FirstMatch, Truncated;
    forall r | r in refs && Matches(r, topic) ensures r.ns == ExpectedIn(space, h, ns, topic) && Pub(ns, topic, OK) in h {
      var p := PubOf(space, h, refs, r);
    }
    FirstMatchIs(refs, topic, ExpectedIn(space, h, ns, topic));
    if Pub(ns, topic, OK) in h {
      var n := NodeOf(space, h, Pub(ns, topic, OK));
      ListedAs(refs, space.nodes, n);
      FitsWhole(topic);
      assert Matches(RefOf(n), topic);
    }
  }

  lemma FitsWhole(topic: string)
    ensures Truncated(topic) == topic <==> |topic| < NAMESPACE_SIZE
  {
  }

  lemma ListedAs(refs: seq<Ref>, nodes: seq<Node>, n: Node)
    requires Lists(refs, nodes) && n in nodes
    ensures RefOf(n) in refs
  {
  }

  /** A response that lists one node first. */
  function Listing(first: Node, nodes: seq<Node>): seq<Ref> {
    [RefOf(first)] + seq(|nodes|, k requires 0 <= k < |nodes| => RefOf(nodes[k]))
  }

  lemma ListingLists(first: Node, nodes: seq<Node>)
    requires first in nodes
    ensures Lists(Listing(first, nodes), nodes)
  {
    var refs := Listing(first, nodes);
    forall r | r in refs ensures HasNode(nodes, NodeId(r.ns, r.id)) {
      HasNodeIff(nodes, NodeId(r.ns, r.id));
    }
    forall n | n in nodes ensures RefOf(n) in refs {
      var k :| 0 <= k < |nodes| && nodes[k] == n;
      assert refs[k + 1] == RefOf(n);
    }
  }

  /** A listing that misleads the search, if the topic is ambiguous. */
  lemma AmbiguousMisleads(space: Space, h: seq<Pub>, ns: string, topic: string) returns (refs: seq<Ref>)
    requires NodesOf(space, h) && OwnNamespaces(space, h) && !Unambiguous(h, ns, topic)
    ensures Lists(refs, space.nodes) && FirstMatch(refs, topic) != ExpectedIn(space, h, ns, topic)
  {
    hide NodesOf, Lists, IndexOf, FirstMatch, Truncated;
    var n;
    if Pub(ns, topic, OK) in h && |topic| >= NAMESPACE_SIZE {
      n := NodeOf(space, h, Pub(ns, topic, OK));
      refs := Listing(n, space.nodes);
      TooLongIsNotFound(refs, topic);
    } else {
      var p :| p in h && Truncated(p.topic) == topic && (Pub(ns, topic, OK) in h ==> p.ns != ns);
      n := NodeOf(space, h, p);
      refs := Listing(n, space.nodes);
      FirstMatchAt(refs, topic, 0);
      if Pub(ns, topic, OK) in h {
        var own := NodeOf(space, h, Pub(ns, topic, OK));
      }
    }
    ListingLists(n, space.nodes);
  }

  lemma TooLongIsNotFound(refs: seq<Ref>, topic: string)
    requires |topic| >= NAMESPACE_SIZE
    ensures FirstMatch(refs, topic) == 0
  {
    NoMatchIsZero(refs, topic);
  }

  /** After a history over any namespaces in which the registry is right, the search agrees with it, whatever the order
      of the listing, exactly if the topic is unambiguous. */
  lemma LookupAgreesThroughoutIff(base: seq<string>, h: seq<Pub>, ns: string, topic: string)
    requires AllOk(h) && NoStaleHit(h) && base != [] && forall p | p in h :: p.ns != base[0]
    ensures var space := Run(base, h).space;
            (forall refs | Lists(refs, space.nodes) :: FirstMatch(refs, topic) == ExpectedIn(space, h, ns, topic))
            <==> Unambiguous(h, ns, topic)
  {
    hide Run;
    var space := Run(base, h).space;
    HistoryNodes(base, h);
    RunIsIndexed(base, h);
    assert space.namespaces[0] == base[0];
    assert OwnNamespaces(space, h);
    if Unambiguous(h, ns, topic) {
      forall refs | Lists(refs, space.nodes) ensures FirstMatch(refs, topic) == ExpectedIn(space, h, ns, topic) {
        UnambiguousAgrees(space, h, ns, topic, refs);
      }
    } else {
      var refs := AmbiguousMisleads(space, h, ns, topic);
    }
  }
}
