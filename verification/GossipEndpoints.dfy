/**
 Where pushes go: over every run of the mesh, no endpoint in a beacon, a record or a push is
 invented. Each is one that the node it stands for really had.
 */
module GossipEndpoints {
  import opened Options
  import opened TopicHash
  import opened Subscriptions
  import opened Routing
  import opened Gossip
  import opened GossipSafety
  import PausedRuns

  // ---------------------------------------------------------------------------
  // History
  // ---------------------------------------------------------------------------

  /** Node p had the endpoint after the first j steps. */
  ghost predicate WasAt(w: World, steps: seq<MeshStep>, j: nat, p: PeerId, endpoint: string)
    requires j <= |steps|
  {
    p in RunWorld(w, steps[..j]).nodes && RunWorld(w, steps[..j]).nodes[p].endpoint == endpoint
  }

  ghost predicate Was(w: World, steps: seq<MeshStep>, p: PeerId, endpoint: string) {
    exists j: nat :: j <= |steps| && WasAt(w, steps, j, p, endpoint)
  }

  /** Pairs of a node and an endpoint it once had. */
  type Places = iset<(PeerId, string)>

  ghost function PlacesOf(w: World, steps: seq<MeshStep>): Places {
    iset p: PeerId, e: string | Was(w, steps, p, e) :: (p, e)
  }

  lemma {:induction false} WasStays(w: World, steps: seq<MeshStep>, step: MeshStep, p: PeerId, e: string)
    requires Was(w, steps, p, e)
    ensures Was(w, steps + [step], p, e)
  {
    var j: nat :| j <= |steps| && WasAt(w, steps, j, p, e);
    assert (steps + [step])[..j] == steps[..j];
    assert WasAt(w, steps + [step], j, p, e);
  }

  lemma {:induction false} PlacesGrow(w: World, steps: seq<MeshStep>, step: MeshStep)
    ensures PlacesOf(w, steps) <= PlacesOf(w, steps + [step])
  {
    forall p: PeerId, e: string | (p, e) in PlacesOf(w, steps) ensures (p, e) in PlacesOf(w, steps + [step]) {
      WasStays(w, steps, step, p, e);
    }
  }

  ghost predicate Here(w: World, places: Places) {
    forall n :: n in w.nodes ==> (n, w.nodes[n].endpoint) in places
  }

  lemma {:induction false} PlacesHere(w: World, steps: seq<MeshStep>)
    ensures Here(RunWorld(w, steps), PlacesOf(w, steps))
  {
    assert steps[..|steps|] == steps;
    forall n | n in RunWorld(w, steps).nodes
      ensures (n, RunWorld(w, steps).nodes[n].endpoint) in PlacesOf(w, steps)
    {
      assert WasAt(w, steps, |steps|, n, RunWorld(w, steps).nodes[n].endpoint);
    }
  }

  // ---------------------------------------------------------------------------
  // What every step keeps
  // ---------------------------------------------------------------------------

  /** A node's records have real endpoints, and its own cluster. */
  ghost predicate NodePlaced(node: Node, places: Places) {
    forall p :: p in node.peers ==> (p, node.peers[p].endpoint) in places && node.peers[p].cluster == node.cluster
  }

  ghost predicate NodesPlaced(w: World, places: Places) {
    forall n :: n in w.nodes ==> NodePlaced(w.nodes[n], places)
  }

  ghost predicate BeaconsPlaced(w: World, places: Places) {
    forall a :: a in w.beacons ==> (a.uuid, a.endpoint) in places
  }

  /** Every push of a publication goes to an endpoint its target had. */
  ghost predicate PushesPlaced(pub: Publication, places: Places) {
    forall i :: 0 <= i < |pub.outcomes| && pub.outcomes[i].Some? ==>
      i < |pub.targets| && (pub.targets[i], pub.outcomes[i].value) in places
  }

  ghost predicate PublicationsPlaced(w: World, places: Places) {
    forall k :: k in w.publications ==> PushesPlaced(w.publications[k], places)
  }

  ghost predicate Placed(w: World, places: Places) {
    NodesPlaced(w, places) && BeaconsPlaced(w, places) && PublicationsPlaced(w, places)
  }

  lemma {:induction false} PlacedGrows(w: World, places: Places, places': Places)
    requires Placed(w, places) && places <= places'
    ensures Placed(w, places')
  {
    forall n | n in w.nodes ensures NodePlaced(w.nodes[n], places') {
      assert NodePlaced(w.nodes[n], places);
    }
    forall k | k in w.publications ensures PushesPlaced(w.publications[k], places') {
      assert PushesPlaced(w.publications[k], places);
    }
  }

  lemma {:induction false} WithNodePlaced(w: World, n: PeerId, node: Node, places: Places)
    requires Placed(w, places) && NodePlaced(node, places)
    ensures Placed(WithNode(w, n, node), places)
  {}

  lemma {:induction false} UpsertPlaced(node: Node, a: Announcement, now: int, places: Places)
    requires NodePlaced(node, places) && (a.uuid, a.endpoint) in places && a.cluster == node.cluster
    ensures NodePlaced(node.(peers := Upsert(node.peers, a, now).0), places)
  {}

  lemma {:induction false} ProcessPlaced(w: World, n: PeerId, a: Announcement, now: int, places: Places)
    requires Placed(w, places) && n in w.nodes && a in w.beacons
    ensures Placed(Process(w, n, a, now), places)
  {
    var node := w.nodes[n];
    if a.uuid != n && a.cluster == node.cluster {
      UpsertPlaced(node, a, now, places);
      WithNodePlaced(w, n, node.(peers := Upsert(node.peers, a, now).0), places);
    }
  }

  lemma {:induction false} LookPlaced(w: World, k: nat, places: Places)
    requires Placed(w, places) && Enabled(w, LookUp(k))
    ensures Placed(Look(w, k), places)
  {
    var pub := w.publications[k];
    assert PushesPlaced(pub, places) && NodePlaced(w.nodes[pub.origin], places);
    assert PushesPlaced(Look(w, k).publications[k], places);
  }

  lemma {:induction false} NodeStepPlaced(w: World, step: MeshStep, places: Places)
    requires Placed(w, places) && Enabled(w, step)
    requires step.Local? || step.Move? || step.ReceiveReply? || step.Refresh? || step.Forget?
    ensures Placed(NextWorld(w, step), places)
  {
    var node := NextWorld(w, step).nodes[step.node];
    assert NodePlaced(w.nodes[step.node], places);
    assert NodePlaced(node, places);
    WithNodePlaced(w, step.node, node, places);
  }

  lemma {:induction false} OtherPlaced(w: World, step: MeshStep, places: Places)
    requires Placed(w, places) && Here(w, places) && Enabled(w, step)
    requires step.SendBeacon? || step.Respond? || step.Publish?
    ensures Placed(NextWorld(w, step), places)
  {}

  lemma {:induction false} ReceivePlaced(w: World, step: MeshStep, places: Places)
    requires Placed(w, places) && Enabled(w, step) && step.ReceivePush?
    ensures Placed(NextWorld(w, step), places)
  {
    var p := w.publications[step.id].targets[step.i];
    assert NodePlaced(w.nodes[p], places);
    WithNodePlaced(w, p, w.nodes[p].(service := Noted(w.nodes[p].service, step.notes)), places);
  }

  lemma {:induction false} StepPlaced(w: World, step: MeshStep, places: Places)
    requires Placed(w, places) && Here(w, places)
    ensures Placed(NextWorld(w, step), places)
  {
    if Enabled(w, step) {
      if step.ReceiveBeacon? {
        ProcessPlaced(w, step.node, step.beacon, step.now, places);
      } else if step.LookUp? {
        LookPlaced(w, step.id, places);
      } else if step.ReceivePush? {
        ReceivePlaced(w, step, places);
      } else if step.SendBeacon? || step.Respond? || step.Publish? {
        OtherPlaced(w, step, places);
      } else {
        NodeStepPlaced(w, step, places);
      }
    }
  }

  lemma {:induction false} RunPlaced(w: World, steps: seq<MeshStep>)
    requires Initial(w)
    ensures Placed(RunWorld(w, steps), PlacesOf(w, steps))
    decreases |steps|
  {
    if steps != [] {
      var (before, last) := (steps[..|steps| - 1], steps[|steps| - 1]);
      assert before + [last] == steps;
      RunPlaced(w, before);
      PlacesHere(w, before);
      StepPlaced(RunWorld(w, before), last, PlacesOf(w, before));
      PlacesGrow(w, before, last);
      PlacedGrows(RunWorld(w, steps), PlacesOf(w, before), PlacesOf(w, steps));
    }
  }

  // ---------------------------------------------------------------------------
  // No invented endpoints
  // ---------------------------------------------------------------------------

  /** In every run, a beacon carries an endpoint its sender had at some moment. */
  lemma {:induction false} BeaconFromSender(w: World, steps: seq<MeshStep>, a: Announcement)
    requires Initial(w) && a in RunWorld(w, steps).beacons
    ensures Was(w, steps, a.uuid, a.endpoint)
  {
    RunPlaced(w, steps);
    assert (a.uuid, a.endpoint) in PlacesOf(w, steps);
  }

  /** In every run, a record of p has an endpoint p had at some moment, and p's own cluster. */
  lemma {:induction false} RecordOfPeer(w: World, steps: seq<MeshStep>, n: PeerId, p: PeerId)
    requires Initial(w) && n in RunWorld(w, steps).nodes && p in RunWorld(w, steps).nodes[n].peers
    ensures var info := RunWorld(w, steps).nodes[n].peers[p];
            Was(w, steps, p, info.endpoint) && p in w.nodes && info.cluster == w.nodes[p].cluster
  {
    RunPlaced(w, steps);
    RunHonest(w, steps);
    SyncConsistent(w, steps, n, p);
    assert NodePlaced(RunWorld(w, steps).nodes[n], PlacesOf(w, steps));
  }

  /** In every run, a push goes to an endpoint its target had at some moment. */
  lemma {:induction false} PushToTarget(w: World, steps: seq<MeshStep>, k: nat, i: nat)
    requires Initial(w) && k in RunWorld(w, steps).publications
    requires i < |RunWorld(w, steps).publications[k].outcomes| && RunWorld(w, steps).publications[k].outcomes[i].Some?
    ensures var pub := RunWorld(w, steps).publications[k];
            i < |pub.targets| && Was(w, steps, pub.targets[i], pub.outcomes[i].value)
  {
    RunPlaced(w, steps);
    assert PushesPlaced(RunWorld(w, steps).publications[k], PlacesOf(w, steps));
  }

  /** A beacon says who and where its sender is at that moment, even right after a move. */
  lemma {:induction false} BeaconIsPresent(w: World, steps: seq<MeshStep>, n: PeerId, endpoint: string)
    requires n in RunWorld(w, steps).nodes
    ensures exists a :: a in RunWorld(w, steps + [SendBeacon(n)]).beacons
                     && a.uuid == n && a.endpoint == RunWorld(w, steps).nodes[n].endpoint
    ensures forall a :: a in RunWorld(w, steps + [SendBeacon(n)]).beacons && a !in RunWorld(w, steps).beacons ==>
              && a.uuid == n && a.endpoint == RunWorld(w, steps).nodes[n].endpoint
              && a.cluster == RunWorld(w, steps).nodes[n].cluster
    ensures exists a :: a in RunWorld(w, steps + [Move(n, endpoint)] + [SendBeacon(n)]).beacons
                     && a.uuid == n && a.endpoint == endpoint
  {
    RunWorldSnoc(w, steps, SendBeacon(n));
    RunWorldSnoc(w, steps, Move(n, endpoint));
    RunWorldSnoc(w, steps + [Move(n, endpoint)], SendBeacon(n));
    assert Advertised(RunWorld(w, steps), n) in RunWorld(w, steps + [SendBeacon(n)]).beacons;
    var moved := RunWorld(w, steps + [Move(n, endpoint)]);
    assert Advertised(moved, n) in RunWorld(w, steps + [Move(n, endpoint)] + [SendBeacon(n)]).beacons;
  }

  /** What a node forgot it neither knows nor, once rebuilt, routes to. */
  lemma {:induction false} ForgottenUnrouted(w: World, n: PeerId, gone: set<PeerId>, p: PeerId)
    requires n in w.nodes && p in gone
    ensures var w' := NextWorld(NextWorld(w, Forget(n, gone)), Refresh(n));
            && n in w'.nodes && p !in w'.nodes[n].peers
            && forall t :: !Routed(w'.nodes[n].routes, t, p)
    ensures forall q :: q !in gone && q in w.nodes[n].peers ==> q in NextWorld(w, Forget(n, gone)).nodes[n].peers
  {
    RebuildRoutes(NextWorld(w, Forget(n, gone)).nodes[n].peers);
  }

  // ---------------------------------------------------------------------------
  // Receipts
  // ---------------------------------------------------------------------------

  /** Step j delivers push i of publication k to its target. */
  ghost predicate Receives(w: World, steps: seq<MeshStep>, j: nat, k: nat, i: nat) {
    && j < |steps| && steps[j].ReceivePush? && steps[j].id == k && steps[j].i == i
    && Enabled(RunWorld(w, steps[..j]), steps[j])
  }

  lemma {:induction false} ReceivedStep(w: World, step: MeshStep, k: nat, i: nat)
    ensures (k, i) in NextWorld(w, step).received <==>
            (k, i) in w.received || (step.ReceivePush? && step.id == k && step.i == i && Enabled(w, step))
  {}

  /** In every run, exactly the pushes that some step delivered are on record as received. */
  lemma {:induction false} ReceivedIff(w: World, steps: seq<MeshStep>, k: nat, i: nat)
    requires Initial(w)
    ensures (k, i) in RunWorld(w, steps).received <==> exists j :: Receives(w, steps, j, k, i)
    decreases |steps|
  {
    if steps != [] {
      var (before, last) := (steps[..|steps| - 1], steps[|steps| - 1]);
      ReceivedIff(w, before, k, i);
      ReceivedStep(RunWorld(w, before), last, k, i);
      forall j: nat | j < |before| ensures Receives(w, steps, j, k, i) <==> Receives(w, before, j, k, i) {
        assert before[..j] == steps[..j];
      }
      assert Receives(w, steps, |before|, k, i) <==>
             last.ReceivePush? && last.id == k && last.i == i && Enabled(RunWorld(w, before), last);
      if j: nat :| Receives(w, before, j, k, i) {
        assert Receives(w, steps, j, k, i);
      }
      if j: nat :| Receives(w, steps, j, k, i) {
        assert j < |before| ==> Receives(w, before, j, k, i);
      }
    }
  }

  /** A receipt saves, for each active subscription of the target, the last sequence noted for it, and no more. */
  lemma {:induction false} ReceiptNotes(w: World, step: MeshStep, id: Id)
    requires step.ReceivePush? && Enabled(w, step)
    requires id in w.nodes[w.publications[step.id].targets[step.i]].service.subs.active
    ensures var p := w.publications[step.id].targets[step.i];
            var (sub, note) := (w.nodes[p].service.subs.active[id], PausedRuns.LastIn(step.notes, id));
            && id in NextWorld(w, step).nodes[p].service.subs.active
            && NextWorld(w, step).nodes[p].service.subs.active[id]
               == if note.Some? then sub.(lastSequence := note.value) else sub
  {
    PausedRuns.NotedSaves(w.nodes[w.publications[step.id].targets[step.i]].service, step.notes, id);
  }
}
