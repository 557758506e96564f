/**
 One node's side of the mesh protocol as code on its registry: the beacons it sends and
 hears, the state it hands to peers that ask, and the pushes of a publication. Gossip runs
 the same operations on values.
 */
module MeshNode {
  import opened Options
  import opened TopicHash
  import opened Subscriptions
  import opened Routing
  import opened PeerRegistry
  import opened Gossip

  /** What a node does with a beacon: its own and other clusters' are ignored. */
  function Heard(self: PeerId, cluster: string, peers: Peers, a: Announcement, now: int): (Peers, bool) {
    if a.uuid == self || a.cluster != cluster then (peers, false) else Upsert(peers, a, now)
  }

  /** In the mesh, receiving a beacon is hearing it, and a wanted sync becomes a request. */
  lemma {:induction false} ProcessIsHearing(w: World, n: PeerId, a: Announcement, now: int)
    requires n in w.nodes
    ensures var (peers, sync) := Heard(n, w.nodes[n].cluster, w.nodes[n].peers, a, now);
            Process(w, n, a, now)
            == WithNode(w, n, w.nodes[n].(peers := peers)).(requests := w.requests + if sync then [(n, a.uuid)] else [])
  {}

  function Outcome(peers: Peers, target: PeerId): Option<string> {
    if target in peers then Some(peers[target].endpoint) else None
  }

  function Pushes(outcomes: seq<Option<string>>): (n: nat)
    ensures n <= |outcomes|
    decreases |outcomes|
  {
    if outcomes == [] then 0
    else Pushes(outcomes[..|outcomes| - 1]) + (if outcomes[|outcomes| - 1].Some? then 1 else 0)
  }

  /** In the mesh, looking up the next target of a publication records that target's outcome, and only that. */
  lemma {:induction false} LookIsOutcome(w: World, k: nat)
    requires k in w.publications && w.publications[k].origin in w.nodes
    requires |w.publications[k].outcomes| < |w.publications[k].targets|
    ensures var (pub, pubs) := (w.publications[k], w.publications);
            var outcome := Outcome(w.nodes[pub.origin].peers, pub.targets[|pub.outcomes|]);
            && Look(w, k) == w.(publications := pubs[k := pub.(outcomes := pub.outcomes + [outcome])])
            && Pushes(pub.outcomes + [outcome]) == Pushes(pub.outcomes) + if outcome.Some? then 1 else 0
  {
    var pub := w.publications[k];
    var outcome := Outcome(w.nodes[pub.origin].peers, pub.targets[|pub.outcomes|]);
    assert (pub.outcomes + [outcome])[..|pub.outcomes|] == pub.outcomes;
  }

  lemma {:induction false} LastRemoved(ids: set<PeerId>, targets: seq<PeerId>)
    requires multiset(targets) == multiset(ids) && targets != []
    ensures var x := targets[|targets| - 1];
            x in ids && multiset(targets[..|targets| - 1]) == multiset(ids - {x})
  {
    var (init, x) := (targets[..|targets| - 1], targets[|targets| - 1]);
    assert targets == init + [x];
    assert multiset(init) == multiset(targets) - multiset{x};
    assert x in multiset(targets) && multiset(ids) - multiset{x} == multiset(ids - {x});
  }

  /** One push for each routed peer that is known. */
  lemma {:induction false} PushesKnown(
      peers: Peers, ids: set<PeerId>, targets: seq<PeerId>, outcomes: seq<Option<string>>)
    requires multiset(targets) == multiset(ids) && |outcomes| == |targets|
    requires forall i :: 0 <= i < |targets| ==> outcomes[i] == Outcome(peers, targets[i])
    ensures Pushes(outcomes) == |ids * peers.Keys|
    decreases |targets|
  {
    if targets == [] {
      assert forall x :: x in ids ==> x in multiset(ids);
    } else {
      var n := |targets| - 1;
      var x := targets[n];
      LastRemoved(ids, targets);
      PushesKnown(peers, ids - {x}, targets[..n], outcomes[..n]);
      if x in peers {
        assert ids * peers.Keys == (ids - {x}) * peers.Keys + {x};
      } else {
        assert ids * peers.Keys == (ids - {x}) * peers.Keys;
      }
    }
  }

  class DiscoveryAgent {
    const registry: PeerRegistry
    const clusterId: string
    var endpoint: string

    constructor (registry: PeerRegistry, clusterId: string, endpoint: string)
      ensures this.registry == registry && this.clusterId == clusterId && this.endpoint == endpoint
    {
      this.registry, this.clusterId, this.endpoint := registry, clusterId, endpoint;
    }

    /** A beacon carries the sender's identity and the hash of its present topics. */
    method SendBeacon() returns (beacon: Announcement)
      requires registry.Valid()
      modifies registry`cachedHash, registry`hashDirty
      ensures registry.Valid()
      ensures beacon == Announcement(registry.localNodeId, clusterId, endpoint, HashOf(registry.index.Keys))
    {
      var hash := registry.GetLocalTopicHash();
      beacon := Announcement(registry.localNodeId, clusterId, endpoint, hash);
    }

    /** Returns the peer to sync with, if the beacon calls for it. */
    method ProcessBeacon(beacon: Announcement, now: int) returns (sync: Option<PeerId>)
      requires registry.Valid()
      modifies registry`peers
      ensures registry.Valid()
      ensures (registry.peers, sync.Some?) == Heard(registry.localNodeId, clusterId, old(registry.peers), beacon, now)
      ensures sync.Some? ==> sync.value == beacon.uuid && !registry.peers[beacon.uuid].synced
    {
      sync := None;
      if beacon.uuid == registry.localNodeId || beacon.cluster != clusterId {
        return;
      }
      var needsSync := registry.UpsertPeer(beacon, now);
      if needsSync {
        sync := Some(beacon.uuid);
      }
    }
  }

  /** The state a node hands out: its topics, each once, and their hash. */
  method GetNodeState(registry: PeerRegistry) returns (state: Reply)
    requires registry.Valid()
    modifies registry`cachedHash, registry`hashDirty
    ensures registry.Valid() && state.from == registry.localNodeId
    ensures Lists(state.topics, registry.index.Keys) && state.hash == HashOf(Elements(state.topics))
  {
    var topics := registry.GetLocalTopics();
    var hash := registry.GetLocalTopicHash();
    state := Reply(registry.localNodeId, topics, hash);
    ListedElements(topics, registry.index.Keys);
  }

  /** The peers a topic is routed to, in some order. */
  method GetRemoteSubscribers(registry: PeerRegistry, topic: Topic) returns (targets: seq<PeerId>)
    ensures multiset(targets) == multiset(IdsFor(registry.routes, topic))
  {
    targets := [];
    var ids := IdsFor(registry.routes, topic);
    var todo := ids;
    while todo != {}
      invariant todo <= ids && multiset(targets) == multiset(ids - todo)
      decreases |todo|
    {
      var id :| id in todo;
      targets := targets + [id];
      assert ids - (todo - {id}) == (ids - todo) + {id};
      todo := todo - {id};
    }
    assert ids - todo == ids;
  }

  /** Push to every routed peer that is still known, once each. */
  method ForwardToPeers(registry: PeerRegistry, topic: Topic)
    returns (targets: seq<PeerId>, outcomes: seq<Option<string>>, count: nat)
    ensures multiset(targets) == multiset(IdsFor(registry.routes, topic))
    ensures |outcomes| == |targets|
    ensures forall i :: 0 <= i < |targets| ==> outcomes[i] == Outcome(registry.peers, targets[i])
    ensures count == Pushes(outcomes) == |IdsFor(registry.routes, topic) * registry.peers.Keys|
  {
    targets := GetRemoteSubscribers(registry, topic);
    outcomes, count := [], 0;
    var i := 0;
    while i < |targets|
      invariant 0 <= i <= |targets| && |outcomes| == i && count == Pushes(outcomes)
      invariant forall j :: 0 <= j < i ==> outcomes[j] == Outcome(registry.peers, targets[j])
    {
      var outcome := None;
      if targets[i] in registry.peers {
        outcome := Some(registry.peers[targets[i]].endpoint);
        count := count + 1;
      }
      assert (outcomes + [outcome])[..i] == outcomes;
      outcomes := outcomes + [outcome];
      i := i + 1;
    }
    PushesKnown(registry.peers, IdsFor(registry.routes, topic), targets, outcomes);
  }
}
