/**
 Known peers and the routing table rebuilt from them. Mutating the peer table and rebuilding
 the routes happen under separate locks, so the second half of this module runs them as
 separate steps of any number of threads.
 */
module Routing {
  import opened TopicHash
  import opened Subscriptions

  type PeerId = string

  /** The peer's health status is not modelled: it is always "alive". */
  datatype PeerInfo = PeerInfo(
    cluster: string, endpoint: string, hash: bv64, topics: seq<Topic>, lastSeen: int, synced: bool)

  /** What a beacon says about its sender. */
  datatype Announcement = Announcement(uuid: PeerId, cluster: string, endpoint: string, hash: bv64)

  type Peers = map<PeerId, PeerInfo>

  type Routes = map<Topic, set<PeerId>>

  function Upsert(peers: Peers, a: Announcement, now: int): (Peers, bool) {
    if a.uuid !in peers then
      (peers[a.uuid := PeerInfo(a.cluster, a.endpoint, a.hash, [], now, false)], true)
    else
      var old_ := peers[a.uuid];
      var changed := old_.hash != a.hash;
      var synced := old_.synced && !changed;
      (peers[a.uuid := old_.(endpoint := a.endpoint, hash := a.hash, lastSeen := now, synced := synced)], changed)
  }

  function UpdateState(peers: Peers, id: PeerId, topics: seq<Topic>, hash: bv64): Peers {
    if id in peers then peers[id := peers[id].(topics := topics, hash := hash, synced := true)] else peers
  }

  function Dead(peers: Peers, now: int, timeout: int): set<PeerId> {
    set id | id in peers && now - peers[id].lastSeen > timeout
  }

  function SyncedTopics(peers: Peers): set<Topic> {
    set id, t | id in peers && peers[id].synced && t in peers[id].topics :: t
  }

  /** The routing table that the peer table calls for: every topic of every synced peer. */
  function Rebuild(peers: Peers): Routes {
    map t | t in SyncedTopics(peers) :: set id | id in peers && peers[id].synced && t in peers[id].topics
  }

  ghost predicate Routed(routes: Routes, t: Topic, id: PeerId) {
    id in IdsFor(routes, t)
  }

  lemma {:induction false} RebuildRoutes(peers: Peers)
    ensures forall t, id :: Routed(Rebuild(peers), t, id) <==> id in peers && peers[id].synced && t in peers[id].topics
    ensures forall t :: t in Rebuild(peers) ==> Rebuild(peers)[t] != {}
  {}

  ghost predicate NoEmptyEntry(routes: Routes) {
    forall t :: t in routes ==> routes[t] != {}
  }

  lemma {:induction false} EnteredRoutes(routes: Routes, topics: seq<Topic>, id: PeerId)
    requires NoEmptyEntry(routes)
    ensures NoEmptyEntry(Entered(routes, topics, id))
    ensures forall t, x :: Routed(Entered(routes, topics, id), t, x) <==>
              Routed(routes, t, x) || (x == id && t in topics)
  {}

  /** A table without empty entries is determined by the pairs it routes. */
  lemma {:induction false} SameRoutes(a: Routes, b: Routes)
    requires NoEmptyEntry(a) && NoEmptyEntry(b)
    requires forall t, x :: Routed(a, t, x) <==> Routed(b, t, x)
    ensures a == b
  {
    forall t ensures IdsFor(a, t) == IdsFor(b, t) {
      forall x ensures x in IdsFor(a, t) <==> x in IdsFor(b, t) {
        assert Routed(a, t, x) <==> Routed(b, t, x);
      }
    }
    forall t ensures t in a <==> t in b {
      assert t in a <==> IdsFor(a, t) != {};
      assert t in b <==> IdsFor(b, t) != {};
    }
    assert a.Keys == b.Keys;
    forall t | t in a ensures a[t] == b[t] {
      assert IdsFor(a, t) == IdsFor(b, t);
    }
  }

  lemma {:induction false} RebuildOneSynced(peers: Peers, id: PeerId, info: PeerInfo)
    requires id !in peers && info.synced
    ensures Rebuild(peers[id := info]) == Entered(Rebuild(peers), info.topics, id)
  {
    var (lhs, base) := (Rebuild(peers[id := info]), Rebuild(peers));
    RebuildRoutes(peers[id := info]);
    RebuildRoutes(peers);
    EnteredRoutes(base, info.topics, id);
    SameRoutes(lhs, Entered(base, info.topics, id));
  }

  lemma {:induction false} RebuildOneMore(peers: Peers, id: PeerId, info: PeerInfo)
    requires id !in peers
    ensures Rebuild(peers[id := info]) == if info.synced then Entered(Rebuild(peers), info.topics, id)
        else Rebuild(peers)
  {
    if info.synced {
      RebuildOneSynced(peers, id, info);
    } else {
      RebuildRoutes(peers[id := info]);
      RebuildRoutes(peers);
      SameRoutes(Rebuild(peers[id := info]), Rebuild(peers));
    }
  }

  // ---------------------------------------------------------------------------
  // Lock-scoped interleavings
  // ---------------------------------------------------------------------------

  /** `owing` maps each thread between its mutation and its own rebuild to the peers it touched. */
  datatype Registry = Registry(peers: Peers, routes: Routes, owing: map<nat, set<PeerId>>)

  datatype Step =
    | Beacon(a: Announcement, now: int)
    | RemovePeer(thread: nat, id: PeerId)
    | Sync(thread: nat, id: PeerId, topics: seq<Topic>, hash: bv64)
    | ReapPeers(thread: nat, now: int, timeout: int)
    | FinishRebuild(thread: nat)

  function Owe(r: Registry, thread: nat, peers: Peers, touched: set<PeerId>): Registry {
    Registry(peers, r.routes, r.owing[thread := touched])
  }

  function Next(r: Registry, step: Step): Registry {
    match step
    case Beacon(a, now) => r.(peers := Upsert(r.peers, a, now).0)
    case RemovePeer(th, id) => if th in r.owing then r else Owe(r, th, r.peers - {id}, {id})
    case Sync(th, id, topics, hash) => if th in r.owing then r
        else Owe(r, th, UpdateState(r.peers, id, topics, hash), {id})
    case ReapPeers(th, now, timeout) =>
      var dead := Dead(r.peers, now, timeout);
      if th in r.owing || dead == {} then r else Owe(r, th, r.peers - dead, dead)
    case FinishRebuild(th) =>
      if th !in r.owing then r else Registry(r.peers, Rebuild(r.peers), r.owing - {th})
  }

  function Run(steps: seq<Step>): Registry
    decreases |steps|
  {
    if steps == [] then Registry(map[], map[], map[])
    else Next(Run(steps[..|steps| - 1]), steps[|steps| - 1])
  }

  ghost predicate Untouched(r: Registry, id: PeerId) {
    forall th :: th in r.owing ==> id !in r.owing[th]
  }

  /** Which topics of one peer the routes must and may name. */
  ghost predicate Between(r: Registry, id: PeerId) {
    && (forall t :: id in r.peers && r.peers[id].synced && t in r.peers[id].topics ==> Routed(r.routes, t, id))
    && (forall t :: Routed(r.routes, t, id) ==> id in r.peers && t in r.peers[id].topics)
  }

  ghost predicate Coherent(r: Registry) {
    && (forall t :: t in r.routes ==> r.routes[t] != {})
    && (forall id :: Untouched(r, id) ==> Between(r, id))
  }

  lemma {:induction false} OweCoherent(r: Registry, thread: nat, peers: Peers, touched: set<PeerId>)
    requires Coherent(r) && thread !in r.owing
    requires forall id :: id !in touched ==>
              (id in peers <==> id in r.peers) && (id in peers ==> peers[id] == r.peers[id])
    ensures Coherent(Owe(r, thread, peers, touched))
  {
    var r' := Owe(r, thread, peers, touched);
    forall id | Untouched(r', id) ensures Between(r', id) {
      assert thread in r'.owing && id !in r'.owing[thread];
      forall th | th in r.owing ensures id !in r.owing[th] {
        assert th in r'.owing && r'.owing[th] == r.owing[th];
      }
      assert Between(r, id);
    }
  }

  lemma {:induction false} BeaconCoherent(r: Registry, a: Announcement, now: int)
    requires Coherent(r)
    ensures Coherent(Next(r, Beacon(a, now)))
  {
    var r' := Next(r, Beacon(a, now));
    forall id | Untouched(r', id) ensures Between(r', id) {
      assert Untouched(r, id) && Between(r, id);
    }
  }

  lemma {:induction false} StepCoherent(r: Registry, step: Step)
    requires Coherent(r)
    ensures Coherent(Next(r, step))
  {
    match step
    case Beacon(a, now) => BeaconCoherent(r, a, now);
    case RemovePeer(th, id) => if th !in r.owing { OweCoherent(r, th, r.peers - {id}, {id}); }
    case Sync(th, id, topics, hash) =>
      if th !in r.owing {
        OweCoherent(r, th, UpdateState(r.peers, id, topics, hash), {id});
      }
    case ReapPeers(th, now, timeout) =>
      var dead := Dead(r.peers, now, timeout);
      if th !in r.owing && dead != {} {
        OweCoherent(r, th, r.peers - dead, dead);
      }
    case FinishRebuild(th) => RebuildRoutes(r.peers);
  }

  /** The last step was a rebuild owed by its thread. */
  ghost predicate Rebuilt(steps: seq<Step>) {
    steps != [] && steps[|steps| - 1].FinishRebuild? && steps[|steps| - 1].thread in Run(steps[..|steps| - 1]).owing
  }

  /**
   In every interleaving, for every peer no thread is still working on, the routes name all
   its topics if it is synced, and only topics recorded for it; no entry is empty. With no
   thread mid-operation this holds of all peers. Right after a rebuild the routes are exactly
   the topics of the synced peers.
   */
  lemma {:induction false} RunCoherent(steps: seq<Step>)
    ensures Coherent(Run(steps))
    ensures Run(steps).owing == map[] ==> forall id :: Between(Run(steps), id)
    ensures Rebuilt(steps) ==> forall t, id ::
              Routed(Run(steps).routes, t, id) <==>
              id in Run(steps).peers && Run(steps).peers[id].synced && t in Run(steps).peers[id].topics
    decreases |steps|
  {
    if steps != [] {
      RunCoherent(steps[..|steps| - 1]);
      StepCoherent(Run(steps[..|steps| - 1]), steps[|steps| - 1]);
      RebuildRoutes(Run(steps).peers);
    }
    if Run(steps).owing == map[] {
      forall id ensures Between(Run(steps), id) { assert Untouched(Run(steps), id); }
    }
  }

  // ---------------------------------------------------------------------------
  // Liveness of peers
  // ---------------------------------------------------------------------------

  ghost predicate IsBeacon(step: Step, id: PeerId) {
    step.Beacon? && step.a.uuid == id
  }

  /** Step i is the latest beacon of a peer. */
  ghost predicate Latest(steps: seq<Step>, i: nat, id: PeerId) {
    i < |steps| && IsBeacon(steps[i], id) && forall j :: i < j < |steps| ==> !IsBeacon(steps[j], id)
  }

  ghost predicate AsHeard(info: PeerInfo, step: Step)
    requires step.Beacon?
  {
    info.endpoint == step.a.endpoint && info.lastSeen == step.now
  }

  lemma {:induction false} LaterLatest(steps: seq<Step>, i: nat, id: PeerId)
    requires steps != [] && !IsBeacon(steps[|steps| - 1], id) && Latest(steps[..|steps| - 1], i, id)
    ensures Latest(steps, i, id) && steps[i] == steps[..|steps| - 1][i]
  {}

  /** No step but a beacon of the peer's own makes it known, or changes its endpoint and last-seen time. */
  lemma {:induction false} KeptByOthers(r: Registry, step: Step, id: PeerId)
    requires !IsBeacon(step, id) && id in Next(r, step).peers
    ensures id in r.peers && Next(r, step).peers[id].endpoint == r.peers[id].endpoint
    ensures Next(r, step).peers[id].lastSeen == r.peers[id].lastSeen
  {}

  /** In every interleaving, a known peer's endpoint and last-seen time are those of its latest beacon. */
  lemma {:induction false} RecordIsLatestBeacon(steps: seq<Step>, id: PeerId) returns (i: nat)
    requires id in Run(steps).peers
    ensures Latest(steps, i, id) && AsHeard(Run(steps).peers[id], steps[i])
    decreases |steps|
  {
    var (before, last) := (steps[..|steps| - 1], steps[|steps| - 1]);
    if IsBeacon(last, id) {
      i := |steps| - 1;
    } else {
      KeptByOthers(Run(before), last, id);
      i := RecordIsLatestBeacon(before, id);
      LaterLatest(steps, i, id);
    }
  }

  lemma {:induction false} LatestUnique(steps: seq<Step>, i: nat, j: nat, id: PeerId)
    requires Latest(steps, i, id) && Latest(steps, j, id)
    ensures i == j
  {}

  /** Reaping forgets a known peer if and only if its latest beacon is older than the timeout. */
  lemma {:induction false} ReapsTheSilent(steps: seq<Step>, thread: nat, now: int, timeout: int, id: PeerId, i: nat)
    requires thread !in Run(steps).owing && id in Run(steps).peers && Latest(steps, i, id)
    ensures id !in Run(steps + [ReapPeers(thread, now, timeout)]).peers <==> now - steps[i].now > timeout
  {
    var latest := RecordIsLatestBeacon(steps, id);
    LatestUnique(steps, i, latest, id);
    assert (steps + [ReapPeers(thread, now, timeout)])[..|steps|] == steps;
    assert id in Dead(Run(steps).peers, now, timeout) <==> now - steps[i].now > timeout;
  }

  /** A peer that is not known stays unknown until it is heard again. */
  lemma {:induction false} UnknownUntilHeard(steps: seq<Step>, n: nat, id: PeerId)
    requires n <= |steps| && id !in Run(steps[..n]).peers
    requires forall j :: n <= j < |steps| ==> !IsBeacon(steps[j], id)
    ensures id !in Run(steps).peers
    decreases |steps|
  {
    if n == |steps| {
      assert steps[..n] == steps;
    } else {
      var (before, last) := (steps[..|steps| - 1], steps[|steps| - 1]);
      assert before[..n] == steps[..n];
      UnknownUntilHeard(before, n, id);
      assert !IsBeacon(last, id);
      if id in Run(steps).peers {
        KeptByOthers(Run(before), last, id);
      }
    }
  }

  /** In every interleaving, a removed peer is forgotten until its next beacon. */
  lemma {:induction false} RemovedUntilHeard(steps: seq<Step>, n: nat, thread: nat, id: PeerId)
    requires n < |steps| && steps[n] == RemovePeer(thread, id) && thread !in Run(steps[..n]).owing
    requires forall j :: n < j < |steps| ==> !IsBeacon(steps[j], id)
    ensures id !in Run(steps).peers
  {
    assert steps[..n + 1][..n] == steps[..n];
    UnknownUntilHeard(steps, n + 1, id);
  }

  /** Step i updates the record of a known peer. */
  ghost predicate Takes(steps: seq<Step>, i: nat, id: PeerId)
    requires i < |steps|
  {
    && steps[i].Sync? && steps[i].id == id && steps[i].thread !in Run(steps[..i]).owing
    && id in Run(steps[..i]).peers
  }

  lemma {:induction false} TopicsKept(r: Registry, step: Step, id: PeerId)
    requires id in r.peers && id in Next(r, step).peers
    requires !(step.Sync? && step.id == id && step.thread !in r.owing)
    ensures Next(r, step).peers[id].topics == r.peers[id].topics
  {}

  /** In every interleaving, the topics of a peer known ever since are those of the latest update it got. */
  lemma {:induction false} TopicsAreLatestUpdate(steps: seq<Step>, i: nat, id: PeerId)
    requires i < |steps| && Takes(steps, i, id)
    requires forall j :: i < j < |steps| ==> !Takes(steps, j, id)
    requires forall j :: i < j <= |steps| ==> id in Run(steps[..j]).peers
    ensures id in Run(steps).peers && Run(steps).peers[id].topics == steps[i].topics
    decreases |steps|
  {
    assert steps[..|steps|] == steps;
    var before := steps[..|steps| - 1];
    if i < |steps| - 1 {
      forall j | 0 <= j <= |before| ensures before[..j] == steps[..j] {}
      forall j | 0 <= j < |before| ensures Takes(before, j, id) <==> Takes(steps, j, id) {
        assert before[..j] == steps[..j];
      }
      TopicsAreLatestUpdate(before, i, id);
      assert !Takes(steps, |steps| - 1, id);
      TopicsKept(Run(before), steps[|steps| - 1], id);
    }
  }
}
