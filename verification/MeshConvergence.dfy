/**
 How routes come to agree with the mesh, and what keeps them from it. A sync of one pair is a
 beacon, the answer to the request it raised if it raised one, and a rebuild.
 */
module MeshConvergence {
  import opened TopicHash
  import opened Subscriptions
  import opened Routing
  import opened Gossip
  import opened GossipSafety

  // ---------------------------------------------------------------------------
  // Syncing one pair
  // ---------------------------------------------------------------------------

  ghost function TopicsOf(w: World, p: PeerId): set<Topic>
    requires p in w.nodes
  {
    Topics(w.nodes[p])
  }

  /** The topics a record makes routable. */
  ghost function Routable(info: PeerInfo): set<Topic> {
    if info.synced then Elements(info.topics) else {}
  }

  /** Node n's record of p carries p's hash, so that p's beacons ask for nothing. */
  ghost predicate HashMatches(w: World, n: PeerId, p: PeerId)
    requires n in w.nodes && p in w.nodes
  {
    p in w.nodes[n].peers && w.nodes[n].peers[p].hash == HashOf(TopicsOf(w, p))
  }

  /** Node n's record of p makes exactly p's topics routable, under p's hash. */
  ghost predicate Current(w: World, n: PeerId, p: PeerId)
    requires n in w.nodes && p in w.nodes
  {
    HashMatches(w, n, p) && Routable(w.nodes[n].peers[p]) == TopicsOf(w, p)
  }

  /** No record of p on n hides behind a matching hash. */
  ghost predicate Open(w: World, n: PeerId, p: PeerId)
    requires n in w.nodes && p in w.nodes
  {
    HashMatches(w, n, p) ==> Current(w, n, p)
  }

  ghost function Answered(w: World, n: PeerId, p: PeerId, listing: seq<Topic>): World {
    if p !in w.nodes then w
    else NextWorld(NextWorld(w, Respond(p, listing)), ReceiveReply(n, Reply(p, listing, HashOf(TopicsOf(w, p)))))
  }

  ghost function Beaconed(w: World, n: PeerId, p: PeerId, now: int): World {
    if p !in w.nodes then w
    else NextWorld(NextWorld(w, SendBeacon(p)), ReceiveBeacon(n, Advertised(w, p), now))
  }

  ghost function Synced(w: World, n: PeerId, p: PeerId, listing: seq<Topic>, now: int): World {
    var heard := Beaconed(w, n, p, now);
    var told := if heard.requests == w.requests + [(n, p)] then Answered(heard, n, p, listing) else heard;
    NextWorld(told, Refresh(n))
  }

  /** Only n's record of p, n's routes and the network differ. */
  ghost predicate OnlyPair(w: World, w': World, n: PeerId, p: PeerId)
    requires n in w.nodes
  {
    && w'.nodes.Keys == w.nodes.Keys
    && (forall m :: m in w.nodes && m != n ==> w'.nodes[m] == w.nodes[m])
    && w'.nodes[n] == w.nodes[n].(peers := w'.nodes[n].peers, routes := w'.nodes[n].routes)
    && p in w'.nodes[n].peers
    && w'.nodes[n].peers == w.nodes[n].peers[p := w'.nodes[n].peers[p]]
  }

  /**
   A beacon is asked about exactly when the record's hash is not the sender's; the record then
   has the sender's hash, and is unsynced if it was asked about.
   */
  lemma {:induction false} BeaconAsksIff(w: World, n: PeerId, p: PeerId, now: int)
    requires Mate(w, n, p)
    ensures var w' := Beaconed(w, n, p, now);
            && OnlyPair(w, w', n, p) && w'.nodes[n].routes == w.nodes[n].routes
            && w'.requests == (if HashMatches(w, n, p) then w.requests else w.requests + [(n, p)])
            && HashMatches(w', n, p)
            && (w'.nodes[n].peers[p].synced <==> HashMatches(w, n, p) && w.nodes[n].peers[p].synced)
            && (p in w.nodes[n].peers ==> w'.nodes[n].peers[p].topics == w.nodes[n].peers[p].topics)
  {}

  lemma {:induction false} AnswerApplies(w: World, n: PeerId, p: PeerId, listing: seq<Topic>)
    requires Mate(w, n, p) && p in w.nodes[n].peers && Lists(listing, TopicsOf(w, p))
    ensures var w' := Answered(w, n, p, listing);
            OnlyPair(w, w', n, p) && Current(w', n, p)
  {
    ListedElements(listing, TopicsOf(w, p));
  }

  lemma {:induction false} RefreshApplies(w: World, n: PeerId)
    requires n in w.nodes
    ensures var w' := NextWorld(w, Refresh(n));
            && w'.nodes == w.nodes[n := w.nodes[n].(routes := Rebuild(w.nodes[n].peers))]
            && forall t, p :: Routed(w'.nodes[n].routes, t, p)
                 <==> p in w.nodes[n].peers && t in Routable(w.nodes[n].peers[p])
  {}

  lemma {:induction false} OnlyPairCurrent(w: World, w': World, n: PeerId, p: PeerId, m: PeerId, q: PeerId)
    requires n in w.nodes && p in w.nodes && n != p && m in w.nodes && q in w.nodes
    requires OnlyPair(w, w', n, p) && (m, q) != (n, p)
    ensures HashMatches(w', m, q) == HashMatches(w, m, q) && Current(w', m, q) == Current(w, m, q)
  {}

  /**
   After a sync of (n, p) node n routes to p exactly p's topics, if and only if the sync was
   not skipped because a record that does not show p's topics already had their hash.
   */
  lemma {:induction false} SyncRoutesIff(w: World, n: PeerId, p: PeerId, listing: seq<Topic>, now: int)
    requires Mate(w, n, p) && Lists(listing, TopicsOf(w, p))
    ensures var w' := Synced(w, n, p, listing, now);
            && OnlyPair(w, w', n, p)
            && w'.nodes[n].routes == Rebuild(w'.nodes[n].peers)
            && HashMatches(w', n, p)
            && (Current(w', n, p) <==> Open(w, n, p))
            && (Current(w', n, p) <==> forall t :: Routed(w'.nodes[n].routes, t, p) <==> t in TopicsOf(w, p))
  {
    var heard := Beaconed(w, n, p, now);
    BeaconAsksIff(w, n, p, now);
    if HashMatches(w, n, p) {
      assert heard.requests == w.requests;
      SyncEnds(w, heard, n, p);
    } else {
      AnswerApplies(heard, n, p, listing);
      SyncEnds(w, Answered(heard, n, p, listing), n, p);
    }
  }

  lemma {:induction false} SyncEnds(w: World, told: World, n: PeerId, p: PeerId)
    requires Mate(w, n, p) && OnlyPair(w, told, n, p) && HashMatches(told, n, p)
    ensures var w' := NextWorld(told, Refresh(n));
            && OnlyPair(w, w', n, p)
            && w'.nodes[n].peers == told.nodes[n].peers
            && w'.nodes[n].routes == Rebuild(w'.nodes[n].peers)
            && (Current(w', n, p) <==> Current(told, n, p))
            && (Current(told, n, p) <==> forall t :: Routed(w'.nodes[n].routes, t, p) <==> t in TopicsOf(w, p))
  {
    RefreshApplies(told, n);
    var w' := NextWorld(told, Refresh(n));
    var routable := Routable(told.nodes[n].peers[p]);
    assert forall t :: Routed(w'.nodes[n].routes, t, p) <==> t in routable;
    if forall t :: Routed(w'.nodes[n].routes, t, p) <==> t in TopicsOf(w, p) {
      assert forall t :: t in routable <==> t in TopicsOf(w, p);
    }
  }

  // ---------------------------------------------------------------------------
  // Syncing the mesh
  // ---------------------------------------------------------------------------

  ghost function Fold<W, P>(f: (W, P) -> W, w: W, items: seq<P>): W
    decreases |items|
  {
    if items == [] then w else f(Fold(f, w, items[..|items| - 1]), items[|items| - 1])
  }

  lemma {:induction false} FoldKeeps<W(!new), P(!new)>(
      f: (W, P) -> W, ok: (W, seq<P>) -> bool, good: P -> bool, w: W, items: seq<P>)
    requires ok(w, []) && forall i :: 0 <= i < |items| ==> good(items[i])
    requires forall w', done, x :: ok(w', done) && good(x) ==> ok(f(w', x), done + [x])
    ensures ok(Fold(f, w, items), items)
    decreases |items|
  {
    if items != [] {
      var (before, last) := (items[..|items| - 1], items[|items| - 1]);
      FoldKeeps(f, ok, good, w, before);
      assert before + [last] == items;
    }
  }

  ghost function SyncPair(listings: PeerId -> seq<Topic>, now: int): (World, (PeerId, PeerId)) -> World {
    (w: World, pair: (PeerId, PeerId)) => Synced(w, pair.0, pair.1, listings(pair.1), now)
  }

  /** Every pair synced in turn, each sender listing its topics in some order. */
  ghost function Round(w: World, pairs: seq<(PeerId, PeerId)>, listings: PeerId -> seq<Topic>, now: int): World {
    Fold(SyncPair(listings, now), w, pairs)
  }

  ghost predicate Listings(w: World, listings: PeerId -> seq<Topic>) {
    forall p :: p in w.nodes ==> Lists(listings(p), TopicsOf(w, p))
  }

  /** The same nodes with the same clusters and topics. */
  ghost predicate SameTopics(w: World, w': World) {
    && w'.nodes.Keys == w.nodes.Keys
    && forall m :: m in w.nodes ==> w'.nodes[m].cluster == w.nodes[m].cluster && TopicsOf(w', m) == TopicsOf(w, m)
  }

  ghost predicate AllMates(w: World, pairs: seq<(PeerId, PeerId)>) {
    forall i :: 0 <= i < |pairs| ==> Mate(w, pairs[i].0, pairs[i].1)
  }

  /** Node n has heard p's hash, and its routes are those of its peers. */
  ghost predicate Settled(w: World, n: PeerId, p: PeerId) {
    n in w.nodes && p in w.nodes && HashMatches(w, n, p) && w.nodes[n].routes == Rebuild(w.nodes[n].peers)
  }

  ghost predicate AllSettled(w: World, pairs: seq<(PeerId, PeerId)>) {
    forall i :: 0 <= i < |pairs| ==> Settled(w, pairs[i].0, pairs[i].1)
  }

  ghost predicate SameOpen(w: World, w': World)
    requires SameTopics(w, w')
  {
    forall n, p :: Mate(w, n, p) ==> (Open(w', n, p) <==> Open(w, n, p))
  }

  lemma {:induction false} StaysOpen(w: World, w': World, n: PeerId, p: PeerId)
    requires Mate(w, n, p) && SameTopics(w, w') && OnlyPair(w, w', n, p) && (Open(w', n, p) <==> Open(w, n, p))
    ensures SameOpen(w, w')
  {
    forall m, q | Mate(w, m, q) ensures Open(w', m, q) <==> Open(w, m, q) {
      if (m, q) != (n, p) {
        OnlyPairCurrent(w, w', n, p, m, q);
      }
    }
  }

  lemma {:induction false} StaysSettled(w: World, w': World, n: PeerId, p: PeerId, m: PeerId, q: PeerId)
    requires Mate(w, n, p) && OnlyPair(w, w', n, p) && Settled(w', n, p) && Settled(w, m, q)
    ensures Settled(w', m, q)
  {}

  lemma {:induction false} OneMoreSettled(w: World, w': World, done: seq<(PeerId, PeerId)>, n: PeerId, p: PeerId)
    requires Mate(w, n, p) && OnlyPair(w, w', n, p) && Settled(w', n, p) && AllSettled(w, done)
    ensures AllSettled(w', done + [(n, p)])
  {
    forall i | 0 <= i < |done| ensures Settled(w', done[i].0, done[i].1) {
      StaysSettled(w, w', n, p, done[i].0, done[i].1);
    }
  }

  lemma {:induction false} RoundStep(
      w: World, done: seq<(PeerId, PeerId)>, n: PeerId, p: PeerId, listing: seq<Topic>, now: int)
    requires AllSettled(w, done) && Mate(w, n, p) && Lists(listing, TopicsOf(w, p))
    ensures var w' := Synced(w, n, p, listing, now);
            SameTopics(w, w') && SameOpen(w, w') && AllSettled(w', done + [(n, p)])
  {
    var w' := Synced(w, n, p, listing, now);
    SyncRoutesIff(w, n, p, listing, now);
    assert Settled(w', n, p) && (Open(w', n, p) <==> Open(w, n, p));
    StaysOpen(w, w', n, p);
    OneMoreSettled(w, w', done, n, p);
  }

  lemma {:induction false} SameTopicsMates(w: World, w': World, n: PeerId, p: PeerId)
    requires SameTopics(w, w') && Mate(w, n, p)
    ensures Mate(w', n, p) && TopicsOf(w', p) == TopicsOf(w, p)
  {}

  lemma {:induction false} SameThrough(w: World, w': World, w'': World)
    requires SameTopics(w, w') && SameOpen(w, w') && SameTopics(w', w'') && SameOpen(w', w'')
    ensures SameTopics(w, w'') && SameOpen(w, w'')
  {}

  ghost predicate RoundOk(w: World, w': World, pairs: seq<(PeerId, PeerId)>) {
    SameTopics(w, w') && SameOpen(w, w') && AllSettled(w', pairs)
  }

  ghost function RoundOkFrom(w: World): (World, seq<(PeerId, PeerId)>) -> bool {
    (w': World, pairs: seq<(PeerId, PeerId)>) => RoundOk(w, w', pairs)
  }

  ghost function MatesIn(w: World): ((PeerId, PeerId)) -> bool {
    (pair: (PeerId, PeerId)) => Mate(w, pair.0, pair.1)
  }

  lemma {:induction false} RoundMore(
      w: World, w': World, done: seq<(PeerId, PeerId)>, n: PeerId, p: PeerId, listing: seq<Topic>, now: int)
    requires RoundOk(w, w', done) && Mate(w, n, p) && Lists(listing, TopicsOf(w, p))
    ensures RoundOk(w, Synced(w', n, p, listing, now), done + [(n, p)])
  {
    SameTopicsMates(w, w', n, p);
    RoundStep(w', done, n, p, listing, now);
    SameThrough(w, w', Synced(w', n, p, listing, now));
  }

  /** What a settled pair's routes say. */
  lemma {:induction false} SettledRoutes(w: World, n: PeerId, p: PeerId)
    requires Settled(w, n, p)
    ensures (forall t :: Routed(w.nodes[n].routes, t, p) <==> t in TopicsOf(w, p)) <==> Open(w, n, p)
  {}

  lemma {:induction false} RoundExact(w: World, w': World, pairs: seq<(PeerId, PeerId)>)
    requires RoundOk(w, w', pairs) && AllMates(w, pairs)
    ensures forall i :: 0 <= i < |pairs| ==>
              var (n, p) := pairs[i];
              ((forall t :: Routed(w'.nodes[n].routes, t, p) <==> t in TopicsOf(w, p)) <==> Open(w, n, p))
  {
    forall i | 0 <= i < |pairs|
      ensures Mate(w, pairs[i].0, pairs[i].1) && Settled(w', pairs[i].0, pairs[i].1)
      ensures (forall t :: Routed(w'.nodes[pairs[i].0].routes, t, pairs[i].1) <==> t in TopicsOf(w, pairs[i].1))
              <==> Open(w, pairs[i].0, pairs[i].1)
    {
      SettledRoutes(w', pairs[i].0, pairs[i].1);
    }
  }

  /**
   One sync of every listed pair, in any order and with repeats, leaves each listed node routing
   to each listed peer exactly that peer's topics, if and only if the node's record of that peer
   did not hide behind a matching hash beforehand. Later syncs do not undo earlier ones.
   */
  lemma {:induction false} MeshConvergesIff(
      w: World, pairs: seq<(PeerId, PeerId)>, listings: PeerId -> seq<Topic>, now: int)
    requires Listings(w, listings) && AllMates(w, pairs)
    ensures var w' := Round(w, pairs, listings, now);
            && SameTopics(w, w')
            && forall i :: 0 <= i < |pairs| ==>
                 var (n, p) := pairs[i];
                 ((forall t :: Routed(w'.nodes[n].routes, t, p) <==> t in TopicsOf(w, p)) <==> Open(w, n, p))
  {
    var (sync, ok, good) := (SyncPair(listings, now), RoundOkFrom(w), MatesIn(w));
    forall w', done, pair | ok(w', done) && good(pair) ensures ok(sync(w', pair), done + [pair]) {
      RoundMore(w, w', done, pair.0, pair.1, listings(pair.1), now);
    }
    FoldKeeps(sync, ok, good, w, pairs);
    RoundExact(w, Round(w, pairs, listings, now), pairs);
  }

  // ---------------------------------------------------------------------------
  // What never recovers by itself
  // ---------------------------------------------------------------------------

  /** No reply from p reaches n, n does not forget p, and p's beacons to n carry hash h. */
  ghost predicate Quiet(step: MeshStep, n: PeerId, p: PeerId, h: bv64) {
    match step
    case ReceiveReply(m, r) => !(m == n && r.from == p)
    case Forget(m, gone) => !(m == n && p in gone)
    case ReceiveBeacon(m, a, _) => m == n && a.uuid == p ==> a.hash == h
    case _ => true
  }

  ghost predicate Frozen(w: World, w': World, n: PeerId, p: PeerId)
    requires n in w.nodes && p in w.nodes[n].peers
  {
    && n in w'.nodes && p in w'.nodes[n].peers
    && w'.nodes[n].peers[p].hash == w.nodes[n].peers[p].hash
    && w'.nodes[n].peers[p].topics == w.nodes[n].peers[p].topics
    && w'.nodes[n].peers[p].synced == w.nodes[n].peers[p].synced
    && |w'.requests| >= |w.requests|
    && (forall i :: |w.requests| <= i < |w'.requests| ==> w'.requests[i] != (n, p))
  }

  lemma {:induction false} FrozenStep(w: World, w': World, step: MeshStep, n: PeerId, p: PeerId)
    requires n in w.nodes && p in w.nodes[n].peers && Frozen(w, w', n, p) && Quiet(step, n, p, w.nodes[n].peers[p].hash)
    ensures Frozen(w, NextWorld(w', step), n, p)
  {}

  /**
   While p's beacons to n repeat the recorded hash and no reply arrives, n's record of p and the
   routes any rebuild makes from it never change, and n never asks p again. An unsynced record therefore stays
   unsynced: the sync whose reply was lost is not retried.
   */
  lemma {:induction false} FrozenRecord(w: World, steps: seq<MeshStep>, n: PeerId, p: PeerId)
    requires n in w.nodes && p in w.nodes[n].peers
    requires forall i :: 0 <= i < |steps| ==> Quiet(steps[i], n, p, w.nodes[n].peers[p].hash)
    ensures Frozen(w, RunWorld(w, steps), n, p)
    ensures forall t :: Routed(Rebuild(RunWorld(w, steps).nodes[n].peers), t, p) <==> t in Routable(w.nodes[n].peers[p])
    decreases |steps|
  {
    if steps != [] {
      FrozenRecord(w, steps[..|steps| - 1], n, p);
      FrozenStep(w, RunWorld(w, steps[..|steps| - 1]), steps[|steps| - 1], n, p);
    }
    RebuildRoutes(RunWorld(w, steps).nodes[n].peers);
  }

  /**
   In every reachable state a record whose hash matches but which does not show its peer's
   topics is either waiting for a reply or shows a different topic set with the same hash.
   */
  lemma {:induction false} BlockedReason(w: World, steps: seq<MeshStep>, n: PeerId, p: PeerId)
    requires Initial(w) && Mate(RunWorld(w, steps), n, p)
    requires !Open(RunWorld(w, steps), n, p)
    ensures var (now, info) := (RunWorld(w, steps), RunWorld(w, steps).nodes[n].peers[p]);
            || !info.synced
            || (Elements(info.topics) != TopicsOf(now, p) && HashOf(Elements(info.topics)) == HashOf(TopicsOf(now, p)))
  {
    SyncConsistent(w, steps, n, p);
  }

  // ---------------------------------------------------------------------------
  // Convergence inside any run
  // ---------------------------------------------------------------------------

  ghost predicate Has(w: World, p: PeerId, topics: set<Topic>) {
    p in w.nodes && Topics(w.nodes[p]) == topics
  }

  ghost predicate FreshReply(r: Reply, topics: set<Topic>) {
    Elements(r.topics) == topics && r.hash == HashOf(topics)
  }

  /**
   What a step after p's topics settled must not do: change them, make n forget p, or bring n a
   beacon or a reply of p from before then (`old`) that does not show them. It may bring old
   traffic that does, and anything p sends from then on.
   */
  ghost predicate Settling(w: World, step: MeshStep, n: PeerId, p: PeerId, topics: set<Topic>, old_: World) {
    Enabled(w, step) ==>
      match step
      case Local(_, _) => Has(NextWorld(w, step), p, topics)
      case Forget(m, gone) => !(m == n && p in gone)
      case ReceiveBeacon(m, a, _) => m == n && a.uuid == p && a in old_.beacons ==> a.hash == HashOf(topics)
      case ReceiveReply(m, r) => m == n && r.from == p && r in old_.replies ==> FreshReply(r, topics)
      case _ => true
  }

  /** All traffic of p that is not old shows its settled topics. */
  ghost predicate NewIsFresh(w: World, p: PeerId, topics: set<Topic>, old_: World) {
    && Has(w, p, topics)
    && (forall a :: a in w.beacons && a.uuid == p ==> a in old_.beacons || a.hash == HashOf(topics))
    && (forall r :: r in w.replies && r.from == p ==> r in old_.replies || FreshReply(r, topics))
  }

  /** Nothing stale of p reaches n, and n does not forget p. */
  ghost predicate Calm(step: MeshStep, n: PeerId, p: PeerId, topics: set<Topic>) {
    match step
    case Forget(m, gone) => !(m == n && p in gone)
    case ReceiveBeacon(m, a, _) => m == n && a.uuid == p ==> a.hash == HashOf(topics)
    case ReceiveReply(m, r) => m == n && r.from == p ==> FreshReply(r, topics)
    case _ => true
  }

  lemma {:induction false} HasStays(w: World, step: MeshStep, n: PeerId, p: PeerId, topics: set<Topic>, old_: World)
    requires Has(w, p, topics) && Settling(w, step, n, p, topics, old_)
    ensures Has(NextWorld(w, step), p, topics)
  {
    if step.ReceivePush? && Enabled(w, step) {
      var q := w.publications[step.id].targets[step.i];
      NotedAlike(w.nodes[q].service, step.notes);
    }
  }

  lemma {:induction false} SentIsFresh(w: World, step: MeshStep, p: PeerId, topics: set<Topic>)
    requires Has(w, p, topics)
    ensures forall a :: a in NextWorld(w, step).beacons && a !in w.beacons && a.uuid == p ==> a.hash == HashOf(topics)
    ensures forall r :: r in NextWorld(w, step).replies && r !in w.replies && r.from == p ==> FreshReply(r, topics)
  {
    if step.Respond? && Enabled(w, step) {
      ListedElements(step.listing, Topics(w.nodes[step.node]));
    }
  }

  lemma {:induction false} FreshStays(w: World, step: MeshStep, n: PeerId, p: PeerId, topics: set<Topic>, old_: World)
    requires NewIsFresh(w, p, topics, old_) && Settling(w, step, n, p, topics, old_)
    ensures NewIsFresh(NextWorld(w, step), p, topics, old_)
  {
    HasStays(w, step, n, p, topics, old_);
    SentIsFresh(w, step, p, topics);
  }

  /** A settling step that takes effect brings n nothing stale, as what is not old is fresh. */
  lemma {:induction false} SettlingIsCalm(
      w: World, step: MeshStep, n: PeerId, p: PeerId, topics: set<Topic>, old_: World)
    requires NewIsFresh(w, p, topics, old_) && Settling(w, step, n, p, topics, old_) && Enabled(w, step)
    ensures Calm(step, n, p, topics)
  {}

  ghost predicate Knows(w: World, n: PeerId, p: PeerId) {
    n in w.nodes && p in w.nodes[n].peers
  }

  ghost predicate Shows(w: World, n: PeerId, p: PeerId, topics: set<Topic>) {
    && Knows(w, n, p)
    && w.nodes[n].peers[p].hash == HashOf(topics) && w.nodes[n].peers[p].synced
    && Elements(w.nodes[n].peers[p].topics) == topics
  }

  ghost predicate RoutesExactly(w: World, n: PeerId, p: PeerId, topics: set<Topic>) {
    n in w.nodes && forall t :: Routed(w.nodes[n].routes, t, p) <==> t in topics
  }

  /** A reply of p reaches n. */
  ghost predicate Tells(w: World, step: MeshStep, n: PeerId, p: PeerId) {
    step.ReceiveReply? && Enabled(w, step) && step.node == n && step.reply.from == p
  }

  /** A beacon of p that n receives and does not ignore. */
  ghost predicate Introduces(w: World, step: MeshStep, n: PeerId, p: PeerId) {
    && step.ReceiveBeacon? && Enabled(w, step) && step.node == n && step.beacon.uuid == p && n != p
    && step.beacon.cluster == w.nodes[n].cluster
  }

  lemma {:induction false} CalmKnows(w: World, step: MeshStep, n: PeerId, p: PeerId, topics: set<Topic>)
    requires Knows(w, n, p) && Calm(step, n, p, topics)
    ensures Knows(NextWorld(w, step), n, p)
  {}

  lemma {:induction false} Informed(w: World, step: MeshStep, n: PeerId, p: PeerId, topics: set<Topic>)
    requires Knows(w, n, p) && Calm(step, n, p, topics) && Tells(w, step, n, p)
    ensures Shows(NextWorld(w, step), n, p, topics)
  {}

  lemma {:induction false} CalmShows(w: World, step: MeshStep, n: PeerId, p: PeerId, topics: set<Topic>)
    requires Shows(w, n, p, topics) && Calm(step, n, p, topics)
    ensures Shows(NextWorld(w, step), n, p, topics)
  {
    if !Enabled(w, step) {
      assert NextWorld(w, step) == w;
    } else if Tells(w, step, n, p) {
      Informed(w, step, n, p, topics);
    } else {
      FrozenStep(w, w, step, n, p);
    }
  }

  lemma {:induction false} Introduced(w: World, step: MeshStep, n: PeerId, p: PeerId, topics: set<Topic>)
    requires Introduces(w, step, n, p) && Calm(step, n, p, topics)
    ensures Knows(NextWorld(w, step), n, p) && NextWorld(w, step).nodes[n].peers[p].hash == HashOf(topics)
  {}

  // Properties of one node's record that settling steps keep

  /** From step i on, every step is ok in the state that finds it. */
  ghost predicate AllOk<W(!new), S(!new)>(f: (W, S) -> W, w: W, steps: seq<S>, i: nat, ok: (W, S) -> bool) {
    forall j :: i <= j < |steps| ==> ok(Fold(f, w, steps[..j]), steps[j])
  }

  lemma {:induction false} OkPrefix<W(!new), S(!new)>(
      f: (W, S) -> W, w: W, steps: seq<S>, i: nat, l: nat, ok: (W, S) -> bool)
    requires i <= l <= |steps| && AllOk(f, w, steps, i, ok)
    ensures AllOk(f, w, steps[..l], i, ok)
  {
    forall j | i <= j < l ensures ok(Fold(f, w, steps[..l][..j]), steps[..l][j]) {
      assert steps[..l][..j] == steps[..j];
    }
  }

  /** A property that ok steps keep, once true, stays true to the end. */
  lemma {:induction false} StaysTrue<W(!new), S(!new)>(
      f: (W, S) -> W, w: W, steps: seq<S>, i: nat, good: W -> bool, ok: (W, S) -> bool)
    requires i <= |steps| && good(Fold(f, w, steps[..i])) && AllOk(f, w, steps, i, ok)
    requires forall x, step :: good(x) && ok(x, step) ==> good(f(x, step))
    ensures good(Fold(f, w, steps))
    decreases |steps|
  {
    if i == |steps| {
      assert steps[..i] == steps;
    } else {
      var before := steps[..|steps| - 1];
      assert before[..i] == steps[..i];
      OkPrefix(f, w, steps, i, |before|, ok);
      StaysTrue(f, w, before, i, good, ok);
    }
  }

  /** A property that an event makes of one that ok steps keep, and that they keep too, holds at the end. */
  lemma {:induction false} TrueSince<W(!new), S(!new)>(
      f: (W, S) -> W, w: W, steps: seq<S>, i: nat, e: nat,
      pre: W -> bool, good: W -> bool, event: (W, S) -> bool, ok: (W, S) -> bool)
    requires i <= e < |steps| && pre(Fold(f, w, steps[..i])) && AllOk(f, w, steps, i, ok)
    requires event(Fold(f, w, steps[..e]), steps[e])
    requires forall x, step :: pre(x) && ok(x, step) ==> pre(f(x, step))
    requires forall x, step :: pre(x) && ok(x, step) && event(x, step) ==> good(f(x, step))
    requires forall x, step :: good(x) && ok(x, step) ==> good(f(x, step))
    ensures good(Fold(f, w, steps))
  {
    OkPrefix(f, w, steps, i, e, ok);
    assert steps[..e][..i] == steps[..i];
    StaysTrue(f, w, steps[..e], i, pre, ok);
    assert steps[..e + 1][..e] == steps[..e];
    assert good(Fold(f, w, steps[..e + 1]));
    StaysTrue(f, w, steps, e + 1, good, ok);
  }

  lemma {:induction false} RunIsFold(w: World, steps: seq<MeshStep>)
    ensures RunWorld(w, steps) == Fold(NextWorld, w, steps)
    decreases |steps|
  {
    if steps != [] {
      RunIsFold(w, steps[..|steps| - 1]);
    }
  }

  /** All that a settled run is about: who, which topics, and the world when they settled. */
  datatype Pair = Pair(n: PeerId, p: PeerId, topics: set<Topic>, old_: World)

  ghost function SettlingFor(c: Pair): (World, MeshStep) -> bool {
    (w: World, step: MeshStep) => Settling(w, step, c.n, c.p, c.topics, c.old_)
  }

  ghost function FreshFor(c: Pair): World -> bool {
    (w: World) => NewIsFresh(w, c.p, c.topics, c.old_)
  }

  ghost function KnowsFor(c: Pair): World -> bool {
    (w: World) => NewIsFresh(w, c.p, c.topics, c.old_) && Knows(w, c.n, c.p)
  }

  ghost function ShowsFor(c: Pair): World -> bool {
    (w: World) => NewIsFresh(w, c.p, c.topics, c.old_) && Shows(w, c.n, c.p, c.topics)
  }

  /** From step i on, every step is a settling one. */
  ghost predicate AllSettling(w: World, steps: seq<MeshStep>, i: nat, c: Pair) {
    forall j :: i <= j < |steps| ==> Settling(RunWorld(w, steps[..j]), steps[j], c.n, c.p, c.topics, c.old_)
  }

  lemma {:induction false} SettlingFolds(w: World, steps: seq<MeshStep>, i: nat, c: Pair)
    requires AllSettling(w, steps, i, c)
    ensures forall l :: i <= l ==> AllOk(NextWorld, w, steps, l, SettlingFor(c))
  {
    forall j | i <= j < |steps| ensures SettlingFor(c)(Fold(NextWorld, w, steps[..j]), steps[j]) {
      RunIsFold(w, steps[..j]);
    }
  }

  lemma {:induction false} FreshKept(c: Pair)
    ensures forall w, step :: FreshFor(c)(w) && SettlingFor(c)(w, step) ==> FreshFor(c)(NextWorld(w, step))
  {
    forall w, step | FreshFor(c)(w) && SettlingFor(c)(w, step) ensures FreshFor(c)(NextWorld(w, step)) {
      FreshStays(w, step, c.n, c.p, c.topics, c.old_);
    }
  }

  lemma {:induction false} KnowsKept(c: Pair)
    ensures forall w, step :: KnowsFor(c)(w) && SettlingFor(c)(w, step) ==> KnowsFor(c)(NextWorld(w, step))
  {
    forall w, step | KnowsFor(c)(w) && SettlingFor(c)(w, step) ensures KnowsFor(c)(NextWorld(w, step)) {
      FreshStays(w, step, c.n, c.p, c.topics, c.old_);
      if Enabled(w, step) {
        SettlingIsCalm(w, step, c.n, c.p, c.topics, c.old_);
        CalmKnows(w, step, c.n, c.p, c.topics);
      }
    }
  }

  lemma {:induction false} ShowsKept(c: Pair)
    ensures forall w, step :: ShowsFor(c)(w) && SettlingFor(c)(w, step) ==> ShowsFor(c)(NextWorld(w, step))
  {
    forall w, step | ShowsFor(c)(w) && SettlingFor(c)(w, step) ensures ShowsFor(c)(NextWorld(w, step)) {
      FreshStays(w, step, c.n, c.p, c.topics, c.old_);
      if Enabled(w, step) {
        SettlingIsCalm(w, step, c.n, c.p, c.topics, c.old_);
        CalmShows(w, step, c.n, c.p, c.topics);
      }
    }
  }

  ghost function TellsFor(c: Pair): (World, MeshStep) -> bool {
    (w: World, step: MeshStep) => Tells(w, step, c.n, c.p)
  }

  lemma {:induction false} ToldShows(c: Pair)
    ensures forall w, step :: KnowsFor(c)(w) && SettlingFor(c)(w, step) && TellsFor(c)(w, step) ==>
              ShowsFor(c)(NextWorld(w, step))
  {
    forall w, step | KnowsFor(c)(w) && SettlingFor(c)(w, step) && TellsFor(c)(w, step)
      ensures ShowsFor(c)(NextWorld(w, step))
    {
      SettlingIsCalm(w, step, c.n, c.p, c.topics, c.old_);
      FreshStays(w, step, c.n, c.p, c.topics, c.old_);
      Informed(w, step, c.n, c.p, c.topics);
    }
  }

  /** n's record of p routes what it did in world v, and has p's hash. */
  ghost function FrozenFor(c: Pair, v: World): World -> bool {
    (w: World) => && NewIsFresh(w, c.p, c.topics, c.old_) && Knows(v, c.n, c.p) && Frozen(v, w, c.n, c.p)
                  && v.nodes[c.n].peers[c.p].hash == HashOf(c.topics)
  }

  ghost function SettlingUntold(c: Pair): (World, MeshStep) -> bool {
    (w: World, step: MeshStep) => Settling(w, step, c.n, c.p, c.topics, c.old_) && !Tells(w, step, c.n, c.p)
  }

  lemma {:induction false} FrozenKept(c: Pair, v: World)
    ensures forall w, step :: FrozenFor(c, v)(w) && SettlingUntold(c)(w, step) ==> FrozenFor(c, v)(NextWorld(w, step))
  {
    forall w, step | FrozenFor(c, v)(w) && SettlingUntold(c)(w, step) ensures FrozenFor(c, v)(NextWorld(w, step)) {
      FreshStays(w, step, c.n, c.p, c.topics, c.old_);
      if Enabled(w, step) {
        SettlingIsCalm(w, step, c.n, c.p, c.topics, c.old_);
        FrozenStep(v, w, step, c.n, c.p);
      }
    }
  }

  lemma {:induction false} FreshAt(w: World, steps: seq<MeshStep>, settled: nat, l: nat, c: Pair)
    requires settled <= l <= |steps| && AllSettling(w, steps, settled, c)
    requires c.old_ == RunWorld(w, steps[..settled]) && Has(c.old_, c.p, c.topics)
    ensures FreshFor(c)(RunWorld(w, steps[..l]))
  {
    SettlingFolds(w, steps, settled, c);
    OkPrefix(NextWorld, w, steps, settled, l, SettlingFor(c));
    FreshKept(c);
    RunIsFold(w, steps[..settled]);
    RunIsFold(w, steps[..l]);
    assert steps[..l][..settled] == steps[..settled];
    StaysTrue(NextWorld, w, steps[..l], settled, FreshFor(c), SettlingFor(c));
  }

  lemma {:induction false} AfterStep(w: World, steps: seq<MeshStep>, i: nat)
    requires i < |steps|
    ensures RunWorld(w, steps[..i + 1]) == NextWorld(RunWorld(w, steps[..i]), steps[i])
  {
    assert steps[..i + 1][..i] == steps[..i];
  }

  lemma {:induction false} KnownAfterBeacon(w: World, steps: seq<MeshStep>, settled: nat, beacon: nat, c: Pair)
    requires settled <= beacon < |steps| && AllSettling(w, steps, settled, c)
    requires c.old_ == RunWorld(w, steps[..settled]) && Has(c.old_, c.p, c.topics)
    requires Introduces(RunWorld(w, steps[..beacon]), steps[beacon], c.n, c.p)
    ensures KnowsFor(c)(RunWorld(w, steps[..beacon + 1]))
    ensures RunWorld(w, steps[..beacon + 1]).nodes[c.n].peers[c.p].hash == HashOf(c.topics)
  {
    FreshAt(w, steps, settled, beacon, c);
    FreshAt(w, steps, settled, beacon + 1, c);
    AfterStep(w, steps, beacon);
    SettlingIsCalm(RunWorld(w, steps[..beacon]), steps[beacon], c.n, c.p, c.topics, c.old_);
    Introduced(RunWorld(w, steps[..beacon]), steps[beacon], c.n, c.p, c.topics);
  }

  lemma {:induction false} KnownLater(w: World, steps: seq<MeshStep>, known: nat, c: Pair)
    requires known <= |steps| && AllSettling(w, steps, known, c) && KnowsFor(c)(RunWorld(w, steps[..known]))
    ensures KnowsFor(c)(RunWorld(w, steps))
  {
    SettlingFolds(w, steps, known, c);
    KnowsKept(c);
    RunIsFold(w, steps[..known]);
    RunIsFold(w, steps);
    StaysTrue(NextWorld, w, steps, known, KnowsFor(c), SettlingFor(c));
  }

  lemma {:induction false} ShownAfterReply(w: World, steps: seq<MeshStep>, known: nat, reply: nat, c: Pair)
    requires known <= reply < |steps| && AllSettling(w, steps, known, c)
    requires KnowsFor(c)(RunWorld(w, steps[..known])) && TellsFor(c)(RunWorld(w, steps[..reply]), steps[reply])
    ensures ShowsFor(c)(RunWorld(w, steps))
  {
    SettlingFolds(w, steps, known, c);
    KnowsKept(c);
    ToldShows(c);
    ShowsKept(c);
    RunIsFold(w, steps[..known]);
    RunIsFold(w, steps[..reply]);
    RunIsFold(w, steps);
    TrueSince(NextWorld, w, steps, known, reply, KnowsFor(c), ShowsFor(c), TellsFor(c), SettlingFor(c));
  }

  lemma {:induction false} UntoldFolds(w: World, steps: seq<MeshStep>, i: nat, c: Pair)
    requires AllSettling(w, steps, i, c)
    requires forall j :: i <= j < |steps| ==> !Tells(RunWorld(w, steps[..j]), steps[j], c.n, c.p)
    ensures AllOk(NextWorld, w, steps, i, SettlingUntold(c))
  {
    forall j | i <= j < |steps| ensures SettlingUntold(c)(Fold(NextWorld, w, steps[..j]), steps[j]) {
      RunIsFold(w, steps[..j]);
    }
  }

  lemma {:induction false} FrozenLater(w: World, steps: seq<MeshStep>, i: nat, c: Pair)
    requires i <= |steps| && AllSettling(w, steps, i, c) && KnowsFor(c)(RunWorld(w, steps[..i]))
    requires RunWorld(w, steps[..i]).nodes[c.n].peers[c.p].hash == HashOf(c.topics)
    requires forall j :: i <= j < |steps| ==> !Tells(RunWorld(w, steps[..j]), steps[j], c.n, c.p)
    ensures Frozen(RunWorld(w, steps[..i]), RunWorld(w, steps), c.n, c.p)
  {
    var v := RunWorld(w, steps[..i]);
    UntoldFolds(w, steps, i, c);
    FrozenKept(c, v);
    RunIsFold(w, steps[..i]);
    RunIsFold(w, steps);
    StaysTrue(NextWorld, w, steps, i, FrozenFor(c, v), SettlingUntold(c));
  }

  /** A rebuild makes routable exactly what the record shows. */
  lemma {:induction false} RefreshExactIff(w: World, n: PeerId, p: PeerId, topics: set<Topic>)
    requires Knows(w, n, p)
    ensures RoutesExactly(NextWorld(w, Refresh(n)), n, p, topics) <==> Routable(w.nodes[n].peers[p]) == topics
  {
    RefreshApplies(w, n);
    var (w', routable) := (NextWorld(w, Refresh(n)), Routable(w.nodes[n].peers[p]));
    assert forall t :: Routed(w'.nodes[n].routes, t, p) <==> t in routable;
    if RoutesExactly(w', n, p, topics) {
      assert forall t :: t in routable <==> t in topics;
    }
  }

  /** n was told of p's topics between the two steps. */
  ghost predicate ToldBetween(w: World, steps: seq<MeshStep>, i: nat, l: nat, n: PeerId, p: PeerId)
    requires l <= |steps|
  {
    exists j: nat :: i <= j < l && Tells(RunWorld(w, steps[..j]), steps[j], n, p)
  }

  lemma {:induction false} RecordBeforeRefresh(w: World, steps: seq<MeshStep>, known: nat, c: Pair)
    requires known <= |steps| && AllSettling(w, steps, known, c) && KnowsFor(c)(RunWorld(w, steps[..known]))
    requires RunWorld(w, steps[..known]).nodes[c.n].peers[c.p].hash == HashOf(c.topics)
    ensures Knows(RunWorld(w, steps), c.n, c.p)
    ensures Routable(RunWorld(w, steps).nodes[c.n].peers[c.p]) == c.topics
       <==> ToldBetween(w, steps, known, |steps|, c.n, c.p)
            || Routable(RunWorld(w, steps[..known]).nodes[c.n].peers[c.p]) == c.topics
  {
    KnownLater(w, steps, known, c);
    if ToldBetween(w, steps, known, |steps|, c.n, c.p) {
      var j: nat :| known <= j < |steps| && Tells(RunWorld(w, steps[..j]), steps[j], c.n, c.p);
      ShownAfterReply(w, steps, known, j, c);
    } else {
      FrozenLater(w, steps, known, c);
    }
  }

  /**
   From step `settled` on, p keeps its topics, n does not forget p, and n hears nothing from
   before then that does not show them. A beacon of p reaches n, and later n rebuilds; anything
   else may be interleaved. Then n's routes to p are exactly p's topics if and only if a reply
   of p reached n in between, or n's record showed them already when the beacon had come.
   */
  lemma {:induction false} ConvergesInAnyRun(
      w: World, steps: seq<MeshStep>, n: PeerId, p: PeerId, topics: set<Topic>, settled: nat, beacon: nat)
    requires settled <= beacon < |steps| && Has(RunWorld(w, steps[..settled]), p, topics)
    requires AllSettling(w, steps, settled, Pair(n, p, topics, RunWorld(w, steps[..settled])))
    requires Introduces(RunWorld(w, steps[..beacon]), steps[beacon], n, p)
    ensures var (heard, last) := (RunWorld(w, steps[..beacon + 1]), NextWorld(RunWorld(w, steps), Refresh(n)));
            && Knows(heard, n, p) && Has(RunWorld(w, steps), p, topics)
            && (RoutesExactly(last, n, p, topics)
                <==> ToldBetween(w, steps, beacon + 1, |steps|, n, p) || Routable(heard.nodes[n].peers[p]) == topics)
  {
    var c := Pair(n, p, topics, RunWorld(w, steps[..settled]));
    FreshAt(w, steps, settled, |steps|, c);
    assert steps[..|steps|] == steps;
    KnownAfterBeacon(w, steps, settled, beacon, c);
    assert AllSettling(w, steps, beacon + 1, c);
    RecordBeforeRefresh(w, steps, beacon + 1, c);
    RefreshExactIff(RunWorld(w, steps), n, p, topics);
  }
}
