/**
 The mesh: nodes that advertise the hash of their topics, pull the topics of a peer whose
 hash is new, and route publications by what they pulled.

 A beacon or reply, once sent, may be delivered to any node at any later time, any number
 of times, or never: loss, duplication and reordering are all runs. A reply is an atomic
 snapshot of its sender's topics and hash, and reaches the requester with its sender's own
 id. Rebuilding routes is a step of its own, taken at any time.
 */
module Gossip {
  import opened Options
  import opened TopicHash
  import opened Subscriptions
  import opened Routing

  datatype Node = Node(cluster: string, endpoint: string, service: Service, peers: Peers, routes: Routes)

  datatype Reply = Reply(from: PeerId, topics: seq<Topic>, hash: bv64)

  /** A publication looks its targets up one by one; a known target is pushed to at its endpoint. */
  datatype Publication = Publication(origin: PeerId, topic: Topic, targets: seq<PeerId>, outcomes: seq<Option<string>>)

  datatype World = World(
    nodes: map<PeerId, Node>,
    beacons: set<Announcement>,
    requests: seq<(PeerId, PeerId)>,
    replies: set<Reply>,
    publications: map<nat, Publication>,
    received: set<(nat, nat)>)

  datatype MeshStep =
    | Local(node: PeerId, step: Subscriptions.Step)
    | Move(node: PeerId, endpoint: string)
    | SendBeacon(node: PeerId)
    | ReceiveBeacon(node: PeerId, beacon: Announcement, now: int)
    | Respond(node: PeerId, listing: seq<Topic>)
    | ReceiveReply(node: PeerId, reply: Reply)
    | Refresh(node: PeerId)
    | Forget(node: PeerId, gone: set<PeerId>)        // reaping and removal
    | Publish(id: nat, node: PeerId, topic: Topic, targets: seq<PeerId>)
    | LookUp(id: nat)
    | ReceivePush(id: nat, i: nat, notes: seq<(Id, nat)>)

  function Topics(n: Node): set<Topic> {
    n.service.subs.index.Keys
  }

  function Elements(s: seq<Topic>): set<Topic> {
    set t | t in s
  }

  ghost predicate Enabled(w: World, step: MeshStep) {
    match step
    case Local(n, s) => n in w.nodes && WellFormed(s)
    case Move(n, _) => n in w.nodes
    case SendBeacon(n) => n in w.nodes
    case ReceiveBeacon(n, a, _) => n in w.nodes && a in w.beacons
    case Respond(n, listing) => n in w.nodes && Lists(listing, Topics(w.nodes[n]))
    case ReceiveReply(n, r) => n in w.nodes && r in w.replies
    case Refresh(n) => n in w.nodes
    case Forget(n, _) => n in w.nodes
    case Publish(k, n, t, targets) =>
      n in w.nodes && k !in w.publications && multiset(targets) == multiset(IdsFor(w.nodes[n].routes, t))
    case LookUp(k) =>
      && k in w.publications && w.publications[k].origin in w.nodes
      && |w.publications[k].outcomes| < |w.publications[k].targets|
    case ReceivePush(k, i, _) =>
      && k in w.publications && i < |w.publications[k].outcomes| <= |w.publications[k].targets|
      && w.publications[k].outcomes[i].Some? && w.publications[k].targets[i] in w.nodes
  }

  function WithNode(w: World, n: PeerId, node: Node): World {
    w.(nodes := w.nodes[n := node])
  }

  /** The bouncer: own beacons and other clusters' are ignored; a new hash is recorded and requested. */
  function Process(w: World, n: PeerId, a: Announcement, now: int): World
    requires n in w.nodes
  {
    var node := w.nodes[n];
    if a.uuid == n || a.cluster != node.cluster then w
    else
      var (peers', needsSync) := Upsert(node.peers, a, now);
      WithNode(w, n, node.(peers := peers')).(requests := if needsSync then w.requests + [(n, a.uuid)] else w.requests)
  }

  function Look(w: World, k: nat): World
    requires k in w.publications && w.publications[k].origin in w.nodes
    requires |w.publications[k].outcomes| < |w.publications[k].targets|
  {
    var pub := w.publications[k];
    var (peers, target) := (w.nodes[pub.origin].peers, pub.targets[|pub.outcomes|]);
    var outcome := if target in peers then Some(peers[target].endpoint) else None;
    w.(publications := w.publications[k := pub.(outcomes := pub.outcomes + [outcome])])
  }

  /** The target delivers a push to its own subscribers and notes sequences for those that took it. */
  function Receive(w: World, k: nat, i: nat, notes: seq<(Id, nat)>): World
    requires k in w.publications && i < |w.publications[k].targets| && w.publications[k].targets[i] in w.nodes
  {
    var p := w.publications[k].targets[i];
    WithNode(w, p, w.nodes[p].(service := Noted(w.nodes[p].service, notes))).(received := w.received + {(k, i)})
  }

  ghost function Advertised(w: World, n: PeerId): Announcement
    requires n in w.nodes
  {
    Announcement(n, w.nodes[n].cluster, w.nodes[n].endpoint, HashOf(Topics(w.nodes[n])))
  }

  /** A step that is not enabled changes nothing. */
  ghost function NextWorld(w: World, step: MeshStep): World {
    if !Enabled(w, step) then w
    else match step
      case Local(n, s) => WithNode(w, n, w.nodes[n].(service := Subscriptions.Next(w.nodes[n].service, s)))
      case Move(n, e) => WithNode(w, n, w.nodes[n].(endpoint := e))
      case SendBeacon(n) => w.(beacons := w.beacons + {Advertised(w, n)})
      case ReceiveBeacon(n, a, now) => Process(w, n, a, now)
      case Respond(n, listing) => w.(replies := w.replies + {Reply(n, listing, HashOf(Topics(w.nodes[n])))})
      case ReceiveReply(n, r) =>
        WithNode(w, n, w.nodes[n].(peers := UpdateState(w.nodes[n].peers, r.from, r.topics, r.hash)))
      case Refresh(n) => WithNode(w, n, w.nodes[n].(routes := Rebuild(w.nodes[n].peers)))
      case Forget(n, gone) => WithNode(w, n, w.nodes[n].(peers := w.nodes[n].peers - gone))
      case Publish(k, n, t, targets) => w.(publications := w.publications[k := Publication(n, t, targets, [])])
      case LookUp(k) => Look(w, k)
      case ReceivePush(k, i, notes) => Receive(w, k, i, notes)
  }

  ghost function RunWorld(w: World, steps: seq<MeshStep>): World
    decreases |steps|
  {
    if steps == [] then w else NextWorld(RunWorld(w, steps[..|steps| - 1]), steps[|steps| - 1])
  }

  /** Nodes that know nobody yet, with whatever subscriptions, and an empty network. */
  ghost predicate Initial(w: World) {
    && (forall n :: n in w.nodes ==> w.nodes[n].peers == map[] && w.nodes[n].routes == map[])
    && w.beacons == {} && w.requests == [] && w.replies == {} && w.publications == map[] && w.received == {}
  }

  // ---------------------------------------------------------------------------
  // History
  // ---------------------------------------------------------------------------

  /** Node p's topic set was S after the first j steps. */
  ghost predicate HadAt(w: World, steps: seq<MeshStep>, j: nat, p: PeerId, topics: set<Topic>)
    requires j <= |steps|
  {
    p in RunWorld(w, steps[..j]).nodes && Topics(RunWorld(w, steps[..j]).nodes[p]) == topics
  }

  ghost predicate Had(w: World, steps: seq<MeshStep>, p: PeerId, topics: set<Topic>) {
    exists j: nat :: j <= |steps| && HadAt(w, steps, j, p, topics)
  }

  lemma {:induction false} HadStays(w: World, steps: seq<MeshStep>, step: MeshStep, p: PeerId, topics: set<Topic>)
    requires Had(w, steps, p, topics)
    ensures Had(w, steps + [step], p, topics)
  {
    var j: nat :| j <= |steps| && HadAt(w, steps, j, p, topics);
    assert (steps + [step])[..j] == steps[..j];
    assert HadAt(w, steps + [step], j, p, topics);
  }

  lemma {:induction false} HasNow(w: World, steps: seq<MeshStep>, p: PeerId)
    requires p in RunWorld(w, steps).nodes
    ensures Had(w, steps, p, Topics(RunWorld(w, steps).nodes[p]))
  {
    assert steps[..|steps|] == steps;
    assert HadAt(w, steps, |steps|, p, Topics(RunWorld(w, steps).nodes[p]));
  }

  lemma {:induction false} ListedElements(s: seq<Topic>, topics: set<Topic>)
    requires Lists(s, topics)
    ensures Elements(s) == topics
  {
    forall t ensures t in s <==> t in topics {
      assert t in s <==> t in multiset(s);
      assert t in topics <==> t in multiset(topics);
    }
  }
}
