/**
 Safety of the mesh over every run: no route is invented, records marked synced are
 consistent, and nothing crosses clusters.
 */
module GossipSafety {
  import opened Options
  import opened TopicHash
  import opened Subscriptions
  import opened Routing
  import opened Gossip

  // ---------------------------------------------------------------------------
  // What every step keeps
  // ---------------------------------------------------------------------------

  /** Pairs of a node and a topic set it once had. */
  type Past = iset<(PeerId, set<Topic>)>

  /** Node p once had topic t. */
  ghost predicate Real(past: Past, p: PeerId, t: Topic) {
    exists topics :: (p, topics) in past && t in topics
  }

  /** Another node of n's own cluster. */
  ghost predicate Mate(w: World, n: PeerId, p: PeerId) {
    p != n && n in w.nodes && p in w.nodes && w.nodes[p].cluster == w.nodes[n].cluster
  }

  ghost predicate RecordOk(p: PeerId, info: PeerInfo, past: Past) {
    && (info.topics != [] || info.synced ==> (p, Elements(info.topics)) in past)
    && (info.synced ==> info.hash == HashOf(Elements(info.topics)))
  }

  ghost predicate PeersOk(w: World, n: PeerId, past: Past)
    requires n in w.nodes
  {
    forall p :: p in w.nodes[n].peers ==> Mate(w, n, p) && RecordOk(p, w.nodes[n].peers[p], past)
  }

  ghost predicate RoutesOk(w: World, n: PeerId, past: Past)
    requires n in w.nodes
  {
    forall t, p :: Routed(w.nodes[n].routes, t, p) ==> Mate(w, n, p) && Real(past, p, t)
  }

  ghost predicate NodesOk(w: World, past: Past) {
    forall n :: n in w.nodes ==> PeersOk(w, n, past) && RoutesOk(w, n, past)
  }

  ghost predicate BeaconsOk(w: World) {
    forall a :: a in w.beacons ==> a.uuid in w.nodes && a.cluster == w.nodes[a.uuid].cluster
  }

  ghost predicate RepliesOk(w: World, past: Past) {
    forall r :: r in w.replies ==> (r.from, Elements(r.topics)) in past && r.hash == HashOf(Elements(r.topics))
  }

  ghost predicate PublicationOk(w: World, pub: Publication, past: Past) {
    && |pub.outcomes| <= |pub.targets|
    && (forall i, j :: 0 <= i < j < |pub.targets| ==> pub.targets[i] != pub.targets[j])
    && (forall i :: 0 <= i < |pub.targets| ==>
           Mate(w, pub.origin, pub.targets[i]) && Real(past, pub.targets[i], pub.topic))
  }

  ghost predicate PublicationsOk(w: World, past: Past) {
    && (forall k :: k in w.publications ==> PublicationOk(w, w.publications[k], past))
    && (forall k, i :: (k, i) in w.received ==>
          k in w.publications && i < |w.publications[k].outcomes| && w.publications[k].outcomes[i].Some?)
  }

  ghost predicate Honest(w: World, past: Past) {
    NodesOk(w, past) && BeaconsOk(w) && RepliesOk(w, past) && PublicationsOk(w, past)
  }

  ghost predicate Present(w: World, past: Past) {
    forall n :: n in w.nodes ==> (n, Topics(w.nodes[n])) in past
  }

  /** The same nodes in the same clusters. */
  ghost predicate SameMesh(w: World, w': World) {
    w.nodes.Keys == w'.nodes.Keys && forall n :: n in w.nodes ==> w.nodes[n].cluster == w'.nodes[n].cluster
  }

  lemma {:induction false} RealStays(past: Past, past': Past)
    requires past <= past'
    ensures forall p, t :: Real(past, p, t) ==> Real(past', p, t)
  {}

  /** Everything a step leaves alone stays honest as the past grows. */
  lemma {:induction false} Carry(w: World, w': World, past: Past, past': Past, n: PeerId)
    requires Honest(w, past) && SameMesh(w, w') && past <= past'
    requires forall m :: m in w.nodes && m != n ==>
               w'.nodes[m].peers == w.nodes[m].peers && w'.nodes[m].routes == w.nodes[m].routes
    ensures forall m :: m in w'.nodes && m != n ==> PeersOk(w', m, past') && RoutesOk(w', m, past')
    ensures n in w.nodes && w'.nodes[n].peers == w.nodes[n].peers ==> PeersOk(w', n, past')
    ensures n in w.nodes && w'.nodes[n].routes == w.nodes[n].routes ==> RoutesOk(w', n, past')
    ensures w'.beacons == w.beacons ==> BeaconsOk(w')
    ensures w'.replies == w.replies ==> RepliesOk(w', past')
    ensures w'.publications == w.publications && w'.received == w.received ==> PublicationsOk(w', past')
  {}

  ghost predicate Kept(w: World, w': World, past': Past) {
    Honest(w', past') && SameMesh(w, w')
  }

  /** A step that changes one node keeps honesty if that node's new peers and routes are honest. */
  lemma {:induction false} NodeKept(w: World, n: PeerId, node: Node, past: Past, past': Past)
    requires Honest(w, past) && past <= past' && n in w.nodes && node.cluster == w.nodes[n].cluster
    requires forall p :: p in node.peers ==> Mate(w, n, p) && RecordOk(p, node.peers[p], past')
    requires forall t, p :: Routed(node.routes, t, p) ==> Mate(w, n, p) && Real(past', p, t)
    ensures Kept(w, WithNode(w, n, node), past')
  {
    var w' := WithNode(w, n, node);
    Carry(w, w', past, past', n);
    forall m, p | Mate(w, m, p) ensures Mate(w', m, p) {}
  }

  lemma {:induction false} PeersStay(w: World, n: PeerId, past: Past, past': Past)
    requires Honest(w, past) && past <= past' && n in w.nodes
    ensures forall p :: p in w.nodes[n].peers ==> Mate(w, n, p) && RecordOk(p, w.nodes[n].peers[p], past')
    ensures forall t, p :: Routed(w.nodes[n].routes, t, p) ==> Mate(w, n, p) && Real(past', p, t)
  {}

  lemma {:induction false} LocalKept(w: World, n: PeerId, node: Node, past: Past, past': Past)
    requires Honest(w, past) && past <= past' && n in w.nodes
    requires node.cluster == w.nodes[n].cluster && node.peers == w.nodes[n].peers && node.routes == w.nodes[n].routes
    ensures Kept(w, WithNode(w, n, node), past')
  {
    PeersStay(w, n, past, past');
    NodeKept(w, n, node, past, past');
  }

  lemma {:induction false} SendKept(w: World, w': World, past: Past, past': Past)
    requires Honest(w, past) && past <= past'
    requires w' == w.(beacons := w'.beacons, replies := w'.replies, requests := w'.requests)
    requires BeaconsOk(w') && RepliesOk(w', past')
    ensures Kept(w, w', past')
  {}

  lemma {:induction false} RespondKept(w: World, n: PeerId, listing: seq<Topic>, past: Past, past': Past)
    requires Honest(w, past) && Present(w, past) && past <= past' && n in w.nodes && Lists(listing, Topics(w.nodes[n]))
    ensures Kept(w, w.(replies := w.replies + {Reply(n, listing, HashOf(Topics(w.nodes[n])))}), past')
  {
    ListedElements(listing, Topics(w.nodes[n]));
    SendKept(w, w.(replies := w.replies + {Reply(n, listing, HashOf(Topics(w.nodes[n])))}), past, past');
  }

  lemma {:induction false} UpsertOk(peers: Peers, a: Announcement, now: int, past: Past)
    requires forall p :: p in peers ==> RecordOk(p, peers[p], past)
    ensures forall p :: p in Upsert(peers, a, now).0 ==>
              (p in peers || p == a.uuid) && RecordOk(p, Upsert(peers, a, now).0[p], past)
  {}

  lemma {:induction false} RequestsFree(w: World, requests: seq<(PeerId, PeerId)>, past: Past)
    requires Honest(w, past)
    ensures Kept(w, w.(requests := requests), past)
  {}

  lemma {:induction false} BeaconKept(w: World, n: PeerId, a: Announcement, now: int, past: Past, past': Past)
    requires Honest(w, past) && past <= past' && n in w.nodes && a in w.beacons
    ensures Kept(w, Process(w, n, a, now), past')
  {
    var node := w.nodes[n];
    if a.uuid == n || a.cluster != node.cluster {
      SendKept(w, w, past, past');
    } else {
      PeersStay(w, n, past, past');
      UpsertOk(node.peers, a, now, past');
      assert Mate(w, n, a.uuid);
      var w' := WithNode(w, n, node.(peers := Upsert(node.peers, a, now).0));
      NodeKept(w, n, node.(peers := Upsert(node.peers, a, now).0), past, past');
      RequestsFree(w', Process(w, n, a, now).requests, past');
    }
  }

  lemma {:induction false} ReplyKept(w: World, n: PeerId, r: Reply, past: Past, past': Past)
    requires Honest(w, past) && past <= past' && n in w.nodes && r in w.replies
    ensures var peers := UpdateState(w.nodes[n].peers, r.from, r.topics, r.hash);
            Kept(w, WithNode(w, n, w.nodes[n].(peers := peers)), past')
  {
    PeersStay(w, n, past, past');
    NodeKept(w, n, w.nodes[n].(peers := UpdateState(w.nodes[n].peers, r.from, r.topics, r.hash)), past, past');
  }

  lemma {:induction false} RefreshKept(w: World, n: PeerId, past: Past, past': Past)
    requires Honest(w, past) && past <= past' && n in w.nodes
    ensures Kept(w, WithNode(w, n, w.nodes[n].(routes := Rebuild(w.nodes[n].peers))), past')
  {
    var node := w.nodes[n];
    PeersStay(w, n, past, past');
    RebuildRoutes(node.peers);
    forall t, p | Routed(Rebuild(node.peers), t, p) ensures Mate(w, n, p) && Real(past', p, t) {
      assert (p, Elements(node.peers[p].topics)) in past' && t in Elements(node.peers[p].topics);
    }
    NodeKept(w, n, node.(routes := Rebuild(node.peers)), past, past');
  }

  lemma {:induction false} ForgetKept(w: World, n: PeerId, gone: set<PeerId>, past: Past, past': Past)
    requires Honest(w, past) && past <= past' && n in w.nodes
    ensures Kept(w, WithNode(w, n, w.nodes[n].(peers := w.nodes[n].peers - gone)), past')
  {
    PeersStay(w, n, past, past');
    NodeKept(w, n, w.nodes[n].(peers := w.nodes[n].peers - gone), past, past');
  }

  lemma {:induction false} TwiceInMultiset(s: seq<PeerId>, i: nat, j: nat)
    requires i < j < |s| && s[i] == s[j]
    ensures multiset(s)[s[i]] >= 2
  {
    assert s == s[..i] + [s[i]] + s[i + 1..j] + [s[j]] + s[j + 1..];
  }

  lemma {:induction false} NoRepeats(targets: seq<PeerId>, ids: set<PeerId>)
    requires multiset(targets) == multiset(ids)
    ensures forall i, j :: 0 <= i < j < |targets| ==> targets[i] != targets[j]
    ensures forall i :: 0 <= i < |targets| ==> targets[i] in ids
  {
    forall i | 0 <= i < |targets| ensures targets[i] in ids {
      assert targets[i] in multiset(targets);
    }
    forall i, j | 0 <= i < j < |targets| ensures targets[i] != targets[j] {
      if targets[i] == targets[j] {
        TwiceInMultiset(targets, i, j);
      }
    }
  }

  /** A step that changes one publication, or records a received push. */
  lemma {:induction false} PublicationKept(w: World, w': World, k: nat, past: Past, past': Past)
    requires Honest(w, past) && past <= past'
    requires w' == w.(publications := w'.publications, received := w'.received)
    requires k in w'.publications && w'.publications == w.publications[k := w'.publications[k]]
    requires PublicationOk(w, w'.publications[k], past')
    requires forall j, i :: (j, i) in w'.received ==>
               j in w'.publications && i < |w'.publications[j].outcomes| && w'.publications[j].outcomes[i].Some?
    ensures Kept(w, w', past')
  {}

  lemma {:induction false} PublishKept(
      w: World, k: nat, n: PeerId, t: Topic, targets: seq<PeerId>, past: Past, past': Past)
    requires Honest(w, past) && past <= past' && n in w.nodes && k !in w.publications
    requires multiset(targets) == multiset(IdsFor(w.nodes[n].routes, t))
    ensures Kept(w, w.(publications := w.publications[k := Publication(n, t, targets, [])]), past')
  {
    NoRepeats(targets, IdsFor(w.nodes[n].routes, t));
    PeersStay(w, n, past, past');
    forall i | 0 <= i < |targets| ensures Mate(w, n, targets[i]) && Real(past', targets[i], t) {
      assert Routed(w.nodes[n].routes, t, targets[i]);
    }
    PublicationKept(w, w.(publications := w.publications[k := Publication(n, t, targets, [])]), k, past, past');
  }

  lemma {:induction false} LookKept(w: World, k: nat, past: Past, past': Past)
    requires Honest(w, past) && past <= past' && Enabled(w, LookUp(k))
    ensures Kept(w, Look(w, k), past')
  {
    RealStays(past, past');
    assert PublicationOk(w, w.publications[k], past);
    PublicationKept(w, Look(w, k), k, past, past');
  }

  lemma {:induction false} ReceiptKept(w: World, k: nat, i: nat, past: Past)
    requires Honest(w, past) && k in w.publications && i < |w.publications[k].outcomes|
    requires w.publications[k].outcomes[i].Some?
    ensures Kept(w, w.(received := w.received + {(k, i)}), past)
  {
    assert PublicationOk(w, w.publications[k], past);
    PublicationKept(w, w.(received := w.received + {(k, i)}), k, past, past);
  }

  lemma {:induction false} PushKept(w: World, k: nat, i: nat, notes: seq<(Id, nat)>, past: Past, past': Past)
    requires Honest(w, past) && past <= past' && Enabled(w, ReceivePush(k, i, notes))
    ensures Kept(w, Receive(w, k, i, notes), past')
  {
    var p := w.publications[k].targets[i];
    var node := w.nodes[p].(service := Noted(w.nodes[p].service, notes));
    LocalKept(w, p, node, past, past');
    ReceiptKept(WithNode(w, p, node), k, i, past');
  }

  ghost predicate Peering(step: MeshStep) {
    step.ReceiveBeacon? || step.ReceiveReply? || step.Refresh? || step.Forget?
  }

  ghost predicate Publishing(step: MeshStep) {
    step.Publish? || step.LookUp? || step.ReceivePush?
  }

  lemma {:induction false} PeeringKept(w: World, step: MeshStep, past: Past, past': Past)
    requires Honest(w, past) && past <= past' && Enabled(w, step) && Peering(step)
    ensures Kept(w, NextWorld(w, step), past')
  {
    match step
    case ReceiveBeacon(n, a, now) => BeaconKept(w, n, a, now, past, past');
    case ReceiveReply(n, r) => ReplyKept(w, n, r, past, past');
    case Refresh(n) => RefreshKept(w, n, past, past');
    case Forget(n, gone) => ForgetKept(w, n, gone, past, past');
  }

  lemma {:induction false} PublishingKept(w: World, step: MeshStep, past: Past, past': Past)
    requires Honest(w, past) && past <= past' && Enabled(w, step) && Publishing(step)
    ensures Kept(w, NextWorld(w, step), past')
  {
    match step
    case Publish(k, n, t, targets) => PublishKept(w, k, n, t, targets, past, past');
    case LookUp(k) => LookKept(w, k, past, past');
    case ReceivePush(k, i, notes) => PushKept(w, k, i, notes, past, past');
  }

  lemma {:induction false} SendingKept(w: World, step: MeshStep, past: Past, past': Past)
    requires Honest(w, past) && Present(w, past) && past <= past' && Enabled(w, step)
    requires !Peering(step) && !Publishing(step)
    ensures Kept(w, NextWorld(w, step), past')
  {
    match step
    case Local(n, s) => LocalKept(w, n, w.nodes[n].(service := Subscriptions.Next(w.nodes[n].service, s)), past, past');
    case Move(n, e) => LocalKept(w, n, w.nodes[n].(endpoint := e), past, past');
    case SendBeacon(n) => SendKept(w, w.(beacons := w.beacons + {Advertised(w, n)}), past, past');
    case Respond(n, listing) => RespondKept(w, n, listing, past, past');
  }

  lemma {:induction false} StepKept(w: World, step: MeshStep, past: Past, past': Past)
    requires Honest(w, past) && Present(w, past) && past <= past'
    ensures Kept(w, NextWorld(w, step), past')
  {
    if !Enabled(w, step) {
      SendKept(w, w, past, past');
    } else if Peering(step) {
      PeeringKept(w, step, past, past');
    } else if Publishing(step) {
      PublishingKept(w, step, past, past');
    } else {
      SendingKept(w, step, past, past');
    }
  }

  // ---------------------------------------------------------------------------
  // Every run
  // ---------------------------------------------------------------------------

  /** Every topic set any node had at any point of a run. */
  ghost function PastOf(w: World, steps: seq<MeshStep>): Past {
    iset p: PeerId, topics: set<Topic> | Had(w, steps, p, topics) :: (p, topics)
  }

  lemma {:induction false} PastGrows(w: World, steps: seq<MeshStep>, step: MeshStep)
    ensures PastOf(w, steps) <= PastOf(w, steps + [step])
  {
    forall p: PeerId, topics: set<Topic> | (p, topics) in PastOf(w, steps)
      ensures (p, topics) in PastOf(w, steps + [step])
    {
      HadStays(w, steps, step, p, topics);
    }
  }

  lemma {:induction false} PastPresent(w: World, steps: seq<MeshStep>)
    ensures Present(RunWorld(w, steps), PastOf(w, steps))
  {
    forall n | n in RunWorld(w, steps).nodes ensures (n, Topics(RunWorld(w, steps).nodes[n])) in PastOf(w, steps) {
      HasNow(w, steps, n);
    }
  }

  lemma {:induction false} RunHonest(w: World, steps: seq<MeshStep>)
    requires Initial(w)
    ensures Honest(RunWorld(w, steps), PastOf(w, steps)) && SameMesh(w, RunWorld(w, steps))
    decreases |steps|
  {
    if steps != [] {
      var (before, last) := (steps[..|steps| - 1], steps[|steps| - 1]);
      assert before + [last] == steps;
      RunHonest(w, before);
      PastPresent(w, before);
      PastGrows(w, before, last);
      StepKept(RunWorld(w, before), last, PastOf(w, before), PastOf(w, steps));
    }
  }

  /**
   No run invents a route. Whatever is lost, repeated, reordered or stale, a node that routes
   topic t to p is not p, shares p's cluster, and p really had t at some earlier moment.
   */
  lemma {:induction false} NoInventedRoutes(w: World, steps: seq<MeshStep>, n: PeerId, t: Topic, p: PeerId)
    requires Initial(w) && n in RunWorld(w, steps).nodes
    requires Routed(RunWorld(w, steps).nodes[n].routes, t, p)
    ensures Mate(w, n, p)
    ensures exists topics :: Had(w, steps, p, topics) && t in topics
  {
    RunHonest(w, steps);
    assert RoutesOk(RunWorld(w, steps), n, PastOf(w, steps));
    var topics :| (p, topics) in PastOf(w, steps) && t in topics;
    assert Had(w, steps, p, topics);
  }

  /**
   In every reachable state every record is of another node of the same cluster, and a record
   marked synced holds topics its peer had all at once, whose hash is the recorded hash.
   */
  lemma {:induction false} SyncConsistent(w: World, steps: seq<MeshStep>, n: PeerId, p: PeerId)
    requires Initial(w) && n in RunWorld(w, steps).nodes && p in RunWorld(w, steps).nodes[n].peers
    ensures Mate(w, n, p)
    ensures var info := RunWorld(w, steps).nodes[n].peers[p];
            info.synced ==> info.hash == HashOf(Elements(info.topics)) && Had(w, steps, p, Elements(info.topics))
  {
    RunHonest(w, steps);
    assert PeersOk(RunWorld(w, steps), n, PastOf(w, steps));
  }

  // ---------------------------------------------------------------------------
  // Publications
  // ---------------------------------------------------------------------------

  /** Step j publishes: the publisher routes the topic, at that moment, to exactly the targets. */
  ghost predicate PublishedAt(w: World, steps: seq<MeshStep>, j: nat, k: nat, pub: Publication) {
    && j < |steps| && steps[j] == Publish(k, pub.origin, pub.topic, pub.targets)
    && var now := RunWorld(w, steps[..j]);
       && k !in now.publications && pub.origin in now.nodes
       && multiset(pub.targets) == multiset(IdsFor(now.nodes[pub.origin].routes, pub.topic))
  }

  /** Step j is a look-up of publication k that takes effect. */
  ghost predicate Looks(w: World, steps: seq<MeshStep>, j: nat, k: nat) {
    j < |steps| && steps[j] == LookUp(k) && Enabled(RunWorld(w, steps[..j]), LookUp(k))
  }

  /** Step j looks up target i: it is pushed to, at its recorded endpoint, if and only if it is known at that moment. */
  ghost predicate LookedUpAt(w: World, steps: seq<MeshStep>, j: nat, k: nat, pub: Publication, i: nat) {
    && Looks(w, steps, j, k) && i < |pub.outcomes| <= |pub.targets|
    && pub.origin in RunWorld(w, steps[..j]).nodes
    && var peers := RunWorld(w, steps[..j]).nodes[pub.origin].peers;
       && (pub.outcomes[i].Some? <==> pub.targets[i] in peers)
       && (pub.outcomes[i].Some? ==> pub.outcomes[i].value == peers[pub.targets[i]].endpoint)
  }

  /** Steps looks[0] < looks[1] < ... look up the targets one after another. */
  ghost predicate AllLookedUp(w: World, steps: seq<MeshStep>, k: nat, pub: Publication, looks: seq<nat>) {
    && |looks| == |pub.outcomes|
    && (forall i, j :: 0 <= i < j < |looks| ==> looks[i] < looks[j])
    && (forall i :: 0 <= i < |looks| ==> LookedUpAt(w, steps, looks[i], k, pub, i))
  }

  ghost predicate NoOtherLooks(w: World, steps: seq<MeshStep>, k: nat, looks: seq<nat>) {
    forall j: nat :: Looks(w, steps, j, k) ==> j in looks
  }

  /** The steps that made a publication what it is: its publishing, and then all its look-ups. */
  ghost predicate Traced(w: World, steps: seq<MeshStep>, k: nat, pub: Publication, at: nat, looks: seq<nat>) {
    && PublishedAt(w, steps, at, k, pub)
    && (forall i :: 0 <= i < |looks| ==> at < looks[i])
    && AllLookedUp(w, steps, k, pub, looks)
    && NoOtherLooks(w, steps, k, looks)
  }

  lemma {:induction false} PublishedBefore(
      w: World, steps: seq<MeshStep>, step: MeshStep, j: nat, k: nat, pub: Publication, pub': Publication)
    requires PublishedAt(w, steps, j, k, pub) && pub' == pub.(outcomes := pub'.outcomes)
    ensures PublishedAt(w, steps + [step], j, k, pub')
  {
    assert (steps + [step])[..j] == steps[..j];
  }

  lemma {:induction false} LooksBefore(w: World, steps: seq<MeshStep>, step: MeshStep, j: nat, k: nat)
    requires j < |steps|
    ensures Looks(w, steps + [step], j, k) <==> Looks(w, steps, j, k)
  {
    assert (steps + [step])[..j] == steps[..j];
  }

  lemma {:induction false} LookedUpBefore(
      w: World, steps: seq<MeshStep>, step: MeshStep, j: nat, k: nat, pub: Publication, pub': Publication, i: nat)
    requires LookedUpAt(w, steps, j, k, pub, i)
    requires pub' == pub.(outcomes := pub'.outcomes) && pub.outcomes <= pub'.outcomes
        && |pub'.outcomes| <= |pub.targets|
    ensures LookedUpAt(w, steps + [step], j, k, pub', i)
  {
    assert (steps + [step])[..j] == steps[..j];
  }

  lemma {:induction false} LooksLast(w: World, steps: seq<MeshStep>, step: MeshStep, k: nat)
    ensures Looks(w, steps + [step], |steps|, k) <==> step == LookUp(k) && Enabled(RunWorld(w, steps), step)
  {
    assert (steps + [step])[..|steps|] == steps;
  }

  lemma {:induction false} LookedUpLast(w: World, steps: seq<MeshStep>, k: nat)
    requires Enabled(RunWorld(w, steps), LookUp(k))
    ensures var pub := RunWorld(w, steps).publications[k];
            LookedUpAt(w, steps + [LookUp(k)], |steps|, k, Look(RunWorld(w, steps), k).publications[k], |pub.outcomes|)
  {
    LooksLast(w, steps, LookUp(k), k);
    assert (steps + [LookUp(k)])[..|steps|] == steps;
  }

  lemma {:induction false} LooksStay(
      w: World, steps: seq<MeshStep>, step: MeshStep, k: nat, pub: Publication, looks: seq<nat>)
    requires AllLookedUp(w, steps, k, pub, looks)
    ensures AllLookedUp(w, steps + [step], k, pub, looks)
  {
    forall i | 0 <= i < |looks| ensures LookedUpAt(w, steps + [step], looks[i], k, pub, i) {
      LookedUpBefore(w, steps, step, looks[i], k, pub, pub, i);
    }
  }

  lemma {:induction false} OtherLooks(w: World, steps: seq<MeshStep>, step: MeshStep, k: nat, looks: seq<nat>)
    requires NoOtherLooks(w, steps, k, looks)
    ensures var looks' := if step == LookUp(k) && Enabled(RunWorld(w, steps), step) then looks + [|steps|] else looks;
            NoOtherLooks(w, steps + [step], k, looks')
  {
    LooksLast(w, steps, step, k);
    forall j: nat | Looks(w, steps + [step], j, k) && j < |steps| ensures j in looks {
      LooksBefore(w, steps, step, j, k);
    }
  }

  /** A step that does not look up publication k leaves its trace as it is. */
  lemma {:induction false} TracedStays(
      w: World, steps: seq<MeshStep>, step: MeshStep, k: nat, pub: Publication, at: nat, looks: seq<nat>)
    requires Traced(w, steps, k, pub, at, looks) && !(step == LookUp(k) && Enabled(RunWorld(w, steps), step))
    ensures Traced(w, steps + [step], k, pub, at, looks)
  {
    PublishedBefore(w, steps, step, at, k, pub, pub);
    LooksStay(w, steps, step, k, pub, looks);
    OtherLooks(w, steps, step, k, looks);
  }

  lemma {:induction false} OneMoreLook(
      w: World, steps: seq<MeshStep>, k: nat, pub: Publication, pub': Publication, looks: seq<nat>)
    requires AllLookedUp(w, steps, k, pub, looks)
    requires pub' == pub.(outcomes := pub'.outcomes) && |pub'.outcomes| == |pub.outcomes| + 1 <= |pub.targets|
    requires pub.outcomes <= pub'.outcomes
    requires LookedUpAt(w, steps + [LookUp(k)], |steps|, k, pub', |pub.outcomes|)
    ensures AllLookedUp(w, steps + [LookUp(k)], k, pub', looks + [|steps|])
  {
    forall i | 0 <= i < |looks| ensures LookedUpAt(w, steps + [LookUp(k)], looks[i], k, pub', i) && looks[i] < |steps| {
      LookedUpBefore(w, steps, LookUp(k), looks[i], k, pub, pub', i);
    }
  }

  lemma {:induction false} TracedLook(w: World, steps: seq<MeshStep>, k: nat, at: nat, looks: seq<nat>)
    requires Enabled(RunWorld(w, steps), LookUp(k))
        && Traced(w, steps, k, RunWorld(w, steps).publications[k], at, looks)
    ensures Traced(w, steps + [LookUp(k)], k, Look(RunWorld(w, steps), k).publications[k], at, looks + [|steps|])
  {
    var (pub, pub') := (RunWorld(w, steps).publications[k], Look(RunWorld(w, steps), k).publications[k]);
    PublishedBefore(w, steps, LookUp(k), at, k, pub, pub');
    LookedUpLast(w, steps, k);
    OneMoreLook(w, steps, k, pub, pub', looks);
    OtherLooks(w, steps, LookUp(k), k, looks);
  }

  lemma {:induction false} NotYet(w: World, steps: seq<MeshStep>, k: nat, j: nat)
    requires k !in RunWorld(w, steps).publications && j <= |steps|
    ensures k !in RunWorld(w, steps[..j]).publications
    decreases |steps|
  {
    if j == |steps| {
      assert steps[..j] == steps;
    } else {
      var before := steps[..|steps| - 1];
      if k in RunWorld(w, before).publications {
        PublicationStep(RunWorld(w, before), steps[|steps| - 1], k);
      }
      NotYet(w, before, k, j);
      assert before[..j] == steps[..j];
    }
  }

  /** A publication is never looked up before it exists. */
  lemma {:induction false} NoEarlyLooks(w: World, steps: seq<MeshStep>, k: nat)
    requires k !in RunWorld(w, steps).publications
    ensures NoOtherLooks(w, steps, k, [])
  {
    forall j: nat | j < |steps| ensures !Looks(w, steps, j, k) {
      NotYet(w, steps, k, j);
    }
  }

  lemma {:induction false} TracedPublish(
      w: World, steps: seq<MeshStep>, k: nat, n: PeerId, t: Topic, targets: seq<PeerId>)
    requires Enabled(RunWorld(w, steps), Publish(k, n, t, targets))
    ensures Traced(w, steps + [Publish(k, n, t, targets)], k, Publication(n, t, targets, []), |steps|, [])
  {
    var (step, pub) := (Publish(k, n, t, targets), Publication(n, t, targets, []));
    assert (steps + [step])[..|steps|] == steps;
    NoEarlyLooks(w, steps, k);
    OtherLooks(w, steps, step, k, []);
  }

  lemma {:induction false} RunTraced(w: World, steps: seq<MeshStep>, k: nat) returns (at: nat, looks: seq<nat>)
    requires Initial(w) && k in RunWorld(w, steps).publications
    ensures Traced(w, steps, k, RunWorld(w, steps).publications[k], at, looks)
    decreases |steps|
  {
    var (before, last) := (steps[..|steps| - 1], steps[|steps| - 1]);
    var now := RunWorld(w, before);
    assert before + [last] == steps;
    if k !in now.publications {
      PublishesOnly(now, last, k);
      TracedPublish(w, before, k, last.node, last.topic, last.targets);
      at, looks := |before|, [];
    } else {
      at, looks := RunTraced(w, before, k);
      PublicationStep(now, last, k);
      if last == LookUp(k) && Enabled(now, last) {
        TracedLook(w, before, k, at, looks);
        looks := looks + [|before|];
      } else {
        TracedStays(w, before, last, k, now.publications[k], at, looks);
      }
    }
  }

  /** Only publishing creates a publication. */
  lemma {:induction false} PublishesOnly(w: World, step: MeshStep, k: nat)
    requires k !in w.publications && k in NextWorld(w, step).publications
    ensures step.Publish? && step.id == k && Enabled(w, step)
    ensures NextWorld(w, step).publications[k] == Publication(step.node, step.topic, step.targets, [])
  {}

  /** Only its own look-ups change a publication. */
  lemma {:induction false} PublicationStep(w: World, step: MeshStep, k: nat)
    requires k in w.publications
    ensures k in NextWorld(w, step).publications
    ensures NextWorld(w, step).publications[k]
         == if step == LookUp(k) && Enabled(w, step) then Look(w, k).publications[k] else w.publications[k]
  {}

  /**
   A publication's targets list, each once, exactly the peers its topic was routed to when it
   was published; after that they are looked up one by one, each once and in order, and pushed
   to if and only if known at their look-up. The targets are other nodes of the publisher's
   cluster that had the topic at some moment, and a push is received only where one was made.
   */
  lemma {:induction false} PublishReaches(w: World, steps: seq<MeshStep>, k: nat) returns (at: nat, looks: seq<nat>)
    requires Initial(w) && k in RunWorld(w, steps).publications
    ensures Traced(w, steps, k, RunWorld(w, steps).publications[k], at, looks)
    ensures var pub := RunWorld(w, steps).publications[k];
            && (forall i, j :: 0 <= i < j < |pub.targets| ==> pub.targets[i] != pub.targets[j])
            && (forall i :: 0 <= i < |pub.targets| ==> Mate(w, pub.origin, pub.targets[i]))
            && (forall i :: 0 <= i < |pub.targets| ==> Real(PastOf(w, steps), pub.targets[i], pub.topic))
            && (forall i :: (k, i) in RunWorld(w, steps).received ==> i < |pub.outcomes| && pub.outcomes[i].Some?)
  {
    RunHonest(w, steps);
    at, looks := RunTraced(w, steps, k);
    assert PublicationOk(RunWorld(w, steps), RunWorld(w, steps).publications[k], PastOf(w, steps));
  }

  // ---------------------------------------------------------------------------
  // Single hop
  // ---------------------------------------------------------------------------

  function WithoutReceipts(steps: seq<MeshStep>): (r: seq<MeshStep>)
    ensures forall step :: step in r <==> step in steps && !step.ReceivePush?
    decreases |steps|
  {
    if steps == [] then []
    else WithoutReceipts(steps[..|steps| - 1]) + (if steps[|steps| - 1].ReceivePush? then [] else [steps[|steps| - 1]])
  }

  lemma {:induction false} RunWorldSnoc(w: World, steps: seq<MeshStep>, step: MeshStep)
    ensures RunWorld(w, steps + [step]) == NextWorld(RunWorld(w, steps), step)
  {
    assert (steps + [step])[..|steps|] == steps;
  }

  /** The same node up to the last sequences of its subscriptions. */
  ghost predicate AlikeNode(a: Node, b: Node) {
    a == b.(service := a.service) && Alike(a.service, b.service)
  }

  ghost predicate AlikeNodes(a: map<PeerId, Node>, b: map<PeerId, Node>) {
    a.Keys == b.Keys && forall n :: n in a ==> AlikeNode(a[n], b[n])
  }

  /** The same mesh up to last sequences and the record of what was received. */
  ghost predicate AlikeWorld(w: World, v: World) {
    && AlikeNodes(w.nodes, v.nodes)
    && w.beacons == v.beacons && w.requests == v.requests && w.replies == v.replies && w.publications == v.publications
  }

  lemma {:induction false} EnabledAlike(w: World, v: World, step: MeshStep)
    requires AlikeWorld(w, v) && !step.ReceivePush?
    ensures Enabled(w, step) <==> Enabled(v, step)
  {}

  lemma {:induction false} WithNodeAlike(w: World, v: World, n: PeerId, a: Node, b: Node)
    requires AlikeWorld(w, v) && AlikeNode(a, b)
    ensures AlikeWorld(WithNode(w, n, a), WithNode(v, n, b))
  {}

  lemma {:induction false} LocalAlike(w: World, v: World, step: MeshStep)
    requires AlikeWorld(w, v) && Enabled(w, step) && Enabled(v, step) && step.Local?
    ensures AlikeWorld(NextWorld(w, step), NextWorld(v, step))
  {
    var n := step.node;
    NextAlike(w.nodes[n].service, v.nodes[n].service, step.step);
    WithNodeAlike(w, v, n, NextWorld(w, step).nodes[n], NextWorld(v, step).nodes[n]);
  }

  lemma {:induction false} NodeStepAlike(w: World, v: World, step: MeshStep)
    requires AlikeWorld(w, v) && Enabled(w, step) && Enabled(v, step)
    requires step.Local? || step.Move? || step.ReceiveReply? || step.Refresh? || step.Forget?
    ensures AlikeWorld(NextWorld(w, step), NextWorld(v, step))
  {
    if step.Local? {
      LocalAlike(w, v, step);
    } else {
      var n := step.node;
      WithNodeAlike(w, v, n, NextWorld(w, step).nodes[n], NextWorld(v, step).nodes[n]);
    }
  }

  lemma {:induction false} BeaconAlike(w: World, v: World, n: PeerId, a: Announcement, now: int)
    requires AlikeWorld(w, v) && n in w.nodes && n in v.nodes
    ensures AlikeWorld(Process(w, n, a, now), Process(v, n, a, now))
  {
    WithNodeAlike(w, v, n, Process(w, n, a, now).nodes[n], Process(v, n, a, now).nodes[n]);
  }

  lemma {:induction false} SendAlike(w: World, v: World, step: MeshStep)
    requires AlikeWorld(w, v) && Enabled(w, step) && Enabled(v, step) && (step.SendBeacon? || step.Respond?)
    ensures AlikeWorld(NextWorld(w, step), NextWorld(v, step))
  {
    var n := step.node;
    assert Topics(w.nodes[n]) == Topics(v.nodes[n]);
  }

  lemma {:induction false} PublishAlike(w: World, v: World, step: MeshStep)
    requires AlikeWorld(w, v) && Enabled(w, step) && Enabled(v, step) && step.Publish?
    ensures AlikeWorld(NextWorld(w, step), NextWorld(v, step))
  {
    NewAlike(w, v, w.publications[step.id := Publication(step.node, step.topic, step.targets, [])]);
  }

  lemma {:induction false} NewAlike(w: World, v: World, publications: map<nat, Publication>)
    requires AlikeWorld(w, v)
    ensures AlikeWorld(w.(publications := publications), v.(publications := publications))
  {}

  lemma {:induction false} LookAlike(w: World, v: World, k: nat)
    requires AlikeWorld(w, v) && Enabled(w, LookUp(k)) && Enabled(v, LookUp(k))
    ensures AlikeWorld(Look(w, k), Look(v, k))
  {
    var n := w.publications[k].origin;
    assert AlikeNode(w.nodes[n], v.nodes[n]);
    assert w.nodes[n].peers == v.nodes[n].peers;
    assert Look(w, k).nodes == w.nodes && Look(v, k).nodes == v.nodes;
  }

  lemma {:induction false} StepAlike(w: World, v: World, step: MeshStep)
    requires AlikeWorld(w, v) && !step.ReceivePush?
    ensures AlikeWorld(NextWorld(w, step), NextWorld(v, step))
  {
    EnabledAlike(w, v, step);
    if !Enabled(w, step) {
      assert NextWorld(w, step) == w && NextWorld(v, step) == v;
    } else if step.ReceiveBeacon? {
      BeaconAlike(w, v, step.node, step.beacon, step.now);
    } else if step.SendBeacon? || step.Respond? {
      SendAlike(w, v, step);
    } else if step.LookUp? {
      LookAlike(w, v, step.id);
    } else if step.Publish? {
      PublishAlike(w, v, step);
    } else {
      NodeStepAlike(w, v, step);
    }
  }

  lemma {:induction false} ReceiveAlike(w: World, v: World, k: nat, i: nat, notes: seq<(Id, nat)>)
    requires AlikeWorld(w, v) && Enabled(w, ReceivePush(k, i, notes))
    ensures AlikeWorld(Receive(w, k, i, notes), v)
  {
    var p := w.publications[k].targets[i];
    var service := w.nodes[p].service;
    NotedAlike(service, notes);
    AlikeThrough(Noted(service, notes), service, v.nodes[p].service);
    WithNodeAlike(w, v, p, w.nodes[p].(service := Noted(service, notes)), v.nodes[p]);
    assert WithNode(v, p, v.nodes[p]) == v;
  }

  lemma {:induction false} ReceiptAlike(w: World, v: World, step: MeshStep)
    requires AlikeWorld(w, v) && step.ReceivePush?
    ensures AlikeWorld(NextWorld(w, step), v)
  {
    if Enabled(w, step) {
      ReceiveAlike(w, v, step.id, step.i, step.notes);
    }
  }

  /**
   A received push causes no further push. Deleting all receipts from a run changes nothing
   that any node sends, asks, answers, publishes, records or routes, nor its subscriptions
   and topics; only the sequences noted for its subscribers and the record of receipts differ.
   */
  lemma {:induction false} SingleHop(w: World, steps: seq<MeshStep>)
    ensures AlikeWorld(RunWorld(w, steps), RunWorld(w, WithoutReceipts(steps)))
    decreases |steps|
  {
    if steps != [] {
      var (before, last) := (steps[..|steps| - 1], steps[|steps| - 1]);
      SingleHop(w, before);
      if last.ReceivePush? {
        assert WithoutReceipts(before) + [] == WithoutReceipts(before);
        ReceiptAlike(RunWorld(w, before), RunWorld(w, WithoutReceipts(before)), last);
      } else {
        RunWorldSnoc(w, WithoutReceipts(before), last);
        StepAlike(RunWorld(w, before), RunWorld(w, WithoutReceipts(before)), last);
      }
    }
  }
}
