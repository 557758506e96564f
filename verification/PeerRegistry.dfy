/**
 The registry as the object the daemon updates in place: peers and routes, local
 subscriptions with their inverted index, and the cached topic hash. Each method is the
 source's method run without interruption.
 */
module PeerRegistry {
  import opened Options
  import opened Crc64
  import opened TopicHash
  import opened Subscriptions
  import opened Routing

  lemma {:induction false} EnteredNone(index: Index, id: Id)
    ensures Entered(index, [], id) == index && Struck(index, [], id) == index
  {
    var e := Entered(index, [], id);
    assert e.Keys == index.Keys;
    forall t | t in index ensures e[t] == index[t] {}
  }

  lemma {:induction false} EnteredOneMore(index: Index, topics: seq<Topic>, t: Topic, id: Id)
    ensures var before := Entered(index, topics, id);
            Entered(index, topics + [t], id) == before[t := IdsFor(before, t) + {id}]
  {
    var before := Entered(index, topics, id);
    var (after, expected) := (Entered(index, topics + [t], id), before[t := IdsFor(before, t) + {id}]);
    forall x ensures x in topics + [t] <==> x in topics || x == t {
      assert (topics + [t])[|topics|] == t;
    }
    assert after.Keys == expected.Keys;
    forall x | x in after ensures after[x] == expected[x] {
      if x == t {
        assert IdsFor(before, t) + {id} == IdsFor(index, t) + {id};
      }
    }
  }

  lemma {:induction false} StruckOneMore(index: Index, topics: seq<Topic>, t: Topic, id: Id)
    ensures var before := Struck(index, topics, id);
            Struck(index, topics + [t], id)
            == if t !in before then before
               else if before[t] - {id} == {} then before - {t}
               else before[t := before[t] - {id}]
  {
    var before := Struck(index, topics, id);
    var after := Struck(index, topics + [t], id);
    forall x | x != t ensures x in topics + [t] <==> x in topics {}
    assert t in topics + [t] by { assert (topics + [t])[|topics|] == t; }
    if t in before {
      assert before[t] - {id} == index[t] - {id};
    }
  }

  /** Entering an id under its topics one by one. */
  method EnterAll(index: Index, topics: seq<Topic>, id: Id) returns (r: Index)
    ensures r == Entered(index, topics, id)
  {
    r := index;
    EnteredNone(index, id);
    var i := 0;
    while i < |topics|
      invariant 0 <= i <= |topics| && r == Entered(index, topics[..i], id)
    {
      EnteredOneMore(index, topics[..i], topics[i], id);
      assert topics[..i + 1] == topics[..i] + [topics[i]];
      r := r[topics[i] := IdsFor(r, topics[i]) + {id}];
      i := i + 1;
    }
    assert topics[..i] == topics;
  }

  /** Striking an id from its topics one by one, dropping a topic that has no id left. */
  method StrikeAll(index: Index, topics: seq<Topic>, id: Id) returns (r: Index)
    ensures r == Struck(index, topics, id)
  {
    r := index;
    EnteredNone(index, id);
    var i := 0;
    while i < |topics|
      invariant 0 <= i <= |topics| && r == Struck(index, topics[..i], id)
    {
      var t := topics[i];
      StruckOneMore(index, topics[..i], t, id);
      assert topics[..i + 1] == topics[..i] + [t];
      if t in r {
        var ids := r[t] - {id};
        r := if ids == {} then r - {t} else r[t := ids];
      }
      i := i + 1;
    }
    assert topics[..i] == topics;
  }

  /** The keys of a map in some order. */
  method ListTopics(topics: set<Topic>) returns (s: seq<Topic>)
    ensures Lists(s, topics)
  {
    s := [];
    var todo := topics;
    while todo != {}
      invariant todo <= topics && multiset(s) == multiset(topics - todo)
      decreases |todo|
    {
      var t :| t in todo;
      s := s + [t];
      assert topics - (todo - {t}) == (topics - todo) + {t};
      todo := todo - {t};
    }
    assert topics - todo == topics;
  }

  class PeerRegistry {
    const localNodeId: PeerId
    var peers: Peers
    var routes: Routes
    var active: map<Id, Subscription>
    var index: Index
    var paused: map<Id, PausedSubscription>
    var cachedHash: bv64
    var hashDirty: bool

    ghost function Subs(): Subscriptions.State
      reads this
    {
      State(active, index, paused)
    }

    /** A clean cache holds the hash of the present topic set; no index entry is empty. */
    ghost predicate Valid()
      reads this
    {
      && (!hashDirty ==> cachedHash == HashOf(index.Keys))
      && (forall t :: t in index ==> index[t] != {})
    }

    constructor (localNodeId: PeerId)
      ensures Valid() && this.localNodeId == localNodeId
      ensures peers == map[] && routes == map[] && Subs() == NO_SUBSCRIPTIONS
    {
      this.localNodeId := localNodeId;
      peers, routes, active, index, paused := map[], map[], map[], map[], map[];
      cachedHash, hashDirty := 0, true;
    }

    // Peers and routes

    method UpsertPeer(a: Announcement, now: int) returns (needsSync: bool)
      requires Valid()
      modifies this`peers
      ensures Valid() && (peers, needsSync) == Upsert(old(peers), a, now)
    {
      needsSync := false;
      if a.uuid !in peers {
        peers := peers[a.uuid := PeerInfo(a.cluster, a.endpoint, a.hash, [], now, false)];
        needsSync := true;
      } else {
        var peer := peers[a.uuid];
        if peer.hash != a.hash {
          needsSync := true;
          peer := peer.(synced := false);
        }
        peers := peers[a.uuid := peer.(endpoint := a.endpoint, hash := a.hash, lastSeen := now)];
      }
    }

    method RebuildRoutingTable()
      requires Valid()
      modifies this`routes
      ensures Valid() && routes == Rebuild(peers)
    {
      routes := map[];
      var todo := peers.Keys;
      ghost var done: Peers := map[];
      while todo != {}
        invariant Valid() && todo <= peers.Keys && done == peers - todo && routes == Rebuild(done)
        decreases |todo|
      {
        var id :| id in todo;
        RebuildOneMore(done, id, peers[id]);
        if peers[id].synced {
          routes := EnterAll(routes, peers[id].topics, id);
        }
        done := done[id := peers[id]];
        todo := todo - {id};
      }
      assert peers - todo == peers;
    }

    method RemovePeer(id: PeerId)
      requires Valid()
      modifies this`peers, this`routes
      ensures Valid() && peers == old(peers) - {id} && routes == Rebuild(peers)
    {
      peers := peers - {id};
      RebuildRoutingTable();
    }

    method UpdatePeerState(id: PeerId, topics: seq<Topic>, hash: bv64)
      requires Valid()
      modifies this`peers, this`routes
      ensures Valid() && peers == UpdateState(old(peers), id, topics, hash) && routes == Rebuild(peers)
    {
      if id in peers {
        peers := peers[id := peers[id].(topics := topics, hash := hash, synced := true)];
      }
      RebuildRoutingTable();
    }

    method ReapDeadPeers(now: int, timeout: int) returns (dead: set<PeerId>)
      requires Valid()
      modifies this`peers, this`routes
      ensures Valid() && dead == Dead(old(peers), now, timeout) && peers == old(peers) - dead
      ensures routes == if dead == {} then old(routes) else Rebuild(peers)
    {
      dead := {};
      var todo := peers.Keys;
      while todo != {}
        invariant Valid() && todo <= peers.Keys && routes == old(routes)
        invariant dead == (set id | id in old(peers) && id !in todo && now - old(peers)[id].lastSeen > timeout)
        invariant peers == old(peers) - dead
        decreases |todo|
      {
        var id :| id in todo;
        if now - peers[id].lastSeen > timeout {
          dead := dead + {id};
          peers := peers - {id};
        }
        todo := todo - {id};
      }
      if dead != {} {
        RebuildRoutingTable();
      }
    }

    // Local subscriptions

    method AddLocalSubscription(
        id: Id, clientId: string, topics: seq<Topic>, maxBuffer: int, now: int) returns (ok: bool)
      requires Valid()
      modifies this`active, this`index, this`hashDirty
      ensures Valid() && (Subs(), ok) == Add(old(Subs()), id, clientId, topics, maxBuffer, now)
    {
      if id in active {
        return false;
      }
      active := active[id := Subscription(clientId, topics, maxBuffer, now, 0)];
      index := EnterAll(index, topics, id);
      hashDirty := true;
      ok := true;
    }

    method RemoveLocalSubscription(id: Id, pause: bool, ttl: int, now: int) returns (ok: bool)
      requires Valid()
      modifies this`active, this`index, this`paused, this`hashDirty
      ensures Valid() && (Subs(), ok) == Remove(old(Subs()), id, pause, ttl, now)
    {
      if id !in active {
        return false;
      }
      var sub := active[id];
      if pause {
        paused := paused[id := Pause(sub, ttl, now)];
      }
      index := StrikeAll(index, sub.topics, id);
      active := active - {id};
      hashDirty := true;
      ok := true;
    }

    method ResumeSubscription(id: Id, now: int) returns (saved: Option<PausedSubscription>)
      requires Valid()
      modifies this`active, this`index, this`paused, this`hashDirty
      ensures Valid() && (Subs(), saved) == Resume(old(Subs()), id, now)
    {
      if id !in paused {
        return None;
      }
      if now > paused[id].expiresAt {
        paused := paused - {id};
        return None;
      }
      saved := Some(paused[id]);
      active := active[id := Revive(paused[id], now)];
      index := EnterAll(index, paused[id].topics, id);
      paused := paused - {id};
      hashDirty := true;
    }

    method ClearExpiredPausedSubscriptions(now: int) returns (count: nat)
      requires Valid()
      modifies this`paused
      ensures Valid() && Subs() == ClearExpired(old(Subs()), now)
      ensures count == |old(paused)| - |paused|
    {
      count := 0;
      var todo := paused.Keys;
      while todo != {}
        invariant Valid() && todo <= paused.Keys <= old(paused).Keys
        invariant forall id :: id in paused ==> paused[id] == old(paused)[id]
        invariant forall id :: id in old(paused) && id !in todo ==> (id in paused <==> now <= old(paused)[id].expiresAt)
        invariant count + |paused| == |old(paused)|
        decreases |todo|
      {
        var id :| id in todo;
        if now > paused[id].expiresAt {
          assert (paused - {id}).Keys == paused.Keys - {id};
          paused := paused - {id};
          count := count + 1;
        }
        todo := todo - {id};
      }
    }

    method UpdateSubscriptionSequence(id: Id, sequence: nat)
      requires Valid()
      modifies this`active
      ensures Valid() && Subs() == UpdateSequence(old(Subs()), id, sequence)
    {
      if id in active {
        active := active[id := active[id].(lastSequence := sequence)];
      }
    }

    // The topic hash

    method GetLocalTopics() returns (topics: seq<Topic>)
      ensures Lists(topics, index.Keys)
    {
      topics := ListTopics(index.Keys);
    }

    method ComputeLocalTopicHash() returns (hash: bv64)
      ensures hash == HashOf(index.Keys)
    {
      var topics := ListTopics(index.Keys);
      HashIgnoresOrder(topics, index.Keys);
      hash := ComputeStrings(Sort(topics));
    }

    /** Taken as one step, the cache never shows: every call returns the hash of the present topics. */
    method GetLocalTopicHash() returns (hash: bv64)
      requires Valid()
      modifies this`cachedHash, this`hashDirty
      ensures Valid() && hash == HashOf(index.Keys)
    {
      if hashDirty {
        cachedHash := ComputeLocalTopicHash();
        hashDirty := false;
      }
      hash := cachedHash;
    }
  }
}
