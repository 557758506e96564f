/**
 The thread-safe manager of all replay rings; each method is one critical section of its
 mutex. Rings are stored by value in the table, as in the source.
 */
module TopicMessageBuffer {
  import opened Options
  import opened Crc64
  import opened TopicHash
  import opened TopicBuffer
  import opened ReplayStore

  /** The table of rings that a store's logs stand for. */
  function RingsOf(capacity: nat, logs: map<Topic, Log>): (rings: map<Topic, Ring>)
    ensures rings.Keys == logs.Keys
  {
    map t | t in logs :: RingOf(capacity, t, logs[t])
  }

  lemma {:induction false} RingsOfErased(capacity: nat, logs: map<Topic, Log>, t: Topic)
    ensures RingsOf(capacity, logs - {t}) == RingsOf(capacity, logs) - {t}
  {}

  lemma {:induction false} RingsOfUpdated(capacity: nat, logs: map<Topic, Log>, t: Topic, log: Log)
    ensures RingsOf(capacity, logs[t := log]) == RingsOf(capacity, logs)[t := RingOf(capacity, t, log)]
  {}

  class TopicMessageBuffer {
    const limits: Limits
    var buffers: map<Topic, Ring>
    var total: nat
    ghost var logs: map<Topic, Log>

    ghost function Value(): Store
      reads this
    {
      Store(logs, total)
    }

    ghost predicate Valid()
      reads this
    {
      buffers == RingsOf(limits.capacity, logs) && ReplayStore.Valid(limits, Value())
    }

    constructor (limits: Limits)
      ensures this.limits == limits && buffers == map[] && Value() == EMPTY_STORE
      ensures limits.capacity > 0 ==> Valid()
    {
      this.limits := limits;
      buffers, total, logs := map[], 0, map[];
    }

    method EraseTopic(topic: Topic)
      requires Valid() && topic in buffers
      modifies this
      ensures Valid() && Value() == Erase(limits, old(Value()), topic)
    {
      EraseValid(limits, Value(), topic);
      RingsOfErased(limits.capacity, logs, topic);
      total := total - buffers[topic].totalBytes;
      buffers := buffers - {topic};
      logs := logs - {topic};
    }

    method ClearTopic(topic: Topic)
      requires Valid()
      modifies this
      ensures Valid() && Value() == Erase(limits, old(Value()), topic)
    {
      if topic in buffers {
        EraseTopic(topic);
      }
    }

    method Clear()
      requires Valid()
      modifies this
      ensures Valid() && Value() == EMPTY_STORE
    {
      buffers, total, logs := map[], 0, map[];
    }

    /** The first non-empty topic in iteration order; every ring in the table is non-empty. */
    method PickTopic(order: seq<Topic>) returns (t: Topic)
      requires Valid()
      ensures t == FirstTopic(order, logs)
    {
      t := [];
      var i := 0;
      while i < |order|
        invariant 0 <= i <= |order|
        invariant FirstTopic(order, logs) == FirstTopic(order[i..], logs)
      {
        assert order[i..][1..] == order[i + 1..];
        if order[i] in buffers && |buffers[order[i]].messages| > 0 {
          return order[i];
        }
        i := i + 1;
      }
    }

    method MakeSpace(needed: nat, order: seq<Topic>) returns (ok: bool)
      requires Valid() && Covers(order, logs)
      modifies this
      ensures Valid() && (Value(), ok) == MakeRoom(limits, old(Value()), needed, order)
    {
      if limits.maxBytes == 0 || total + needed <= limits.maxBytes {
        return true;
      }
      var target := Minus(limits.maxBytes, needed);
      while total > target && buffers != map[]
        invariant Valid() && Covers(order, logs)
        invariant Evict(limits, Value(), target, order) == Evict(limits, old(Value()), target, order)
        decreases |logs|
      {
        var t := PickTopic(order);
        if t == [] {
          return false;
        }
        assert t in buffers by {
          var some :| some in buffers;
          assert some in order;
        }
        FewerTopics(logs, t);
        EraseTopic(t);
      }
      ok := total + needed <= limits.maxBytes;
    }

    /** The topic's ring, or a new one. */
    method GetRing(topic: Topic) returns (ring: Ring)
      requires Valid()
      ensures ring == RingOf(limits.capacity, topic, LogOf(Value(), topic))
    {
      NewRingIsEmptyLog(limits.capacity, topic);
      ring := if topic in buffers then buffers[topic] else NewRing(limits.capacity);
    }

    /** Put a ring that was pushed onto back, and carry the change of its byte total over. */
    method StoreRing(topic: Topic, oldBytes: nat, ring: Ring, ghost e: LogEntry)
      requires Valid() && (limits.maxBytes > 0 ==> total + |e.payload| <= limits.maxBytes)
      requires oldBytes == RingOf(limits.capacity, topic, LogOf(Value(), topic)).totalBytes
      requires ring == RingOf(limits.capacity, topic, LogOf(Value(), topic) + [e])
      modifies this
      ensures Valid() && Value() == Push(limits, old(Value()), topic, e)
    {
      ghost var log := LogOf(Value(), topic);
      PushValid(limits, Value(), topic, e);
      RingsOfUpdated(limits.capacity, logs, topic, log + [e]);
      HeldWithinTotal(limits, Value(), topic);
      buffers := buffers[topic := ring];
      total := total - oldBytes + ring.totalBytes;
      logs := logs[topic := log + [e]];
    }

    /** Get or create the topic's ring, push, and put it back. */
    method PushInto(topic: Topic, payload: Bytes, now: int) returns (sequence: nat)
      requires Valid() && (limits.maxBytes > 0 ==> total + |payload| <= limits.maxBytes)
      modifies this
      ensures Valid() && Value() == Push(limits, old(Value()), topic, LogEntry(payload, now))
      ensures sequence == |LogOf(old(Value()), topic)| + 1
    {
      var ring := GetRing(topic);
      var pushed;
      pushed, sequence := PushRing(ring, topic, payload, now, LogOf(Value(), topic));
      StoreRing(topic, ring.totalBytes, pushed, LogEntry(payload, now));
    }

    method BufferMessage(topic: Topic, payload: Bytes, now: int, order: seq<Topic>) returns (sequence: nat)
      requires Valid() && Covers(order, logs)
      modifies this
      ensures Valid()
      ensures (Value(), sequence)
           == ReplayStore.BufferMessage(limits, old(Value()), topic, LogEntry(payload, now), order)
    {
      RoomValid(limits, Value(), |payload|, order);
      var ok := MakeSpace(|payload|, order);
      if !ok {
        return 0;
      }
      sequence := PushInto(topic, payload, now);
    }

    method GetMessagesForReplay(topic: Topic, after: nat) returns (r: seq<Message>, gap: bool, missed: nat)
      requires Valid()
      ensures Replay(r, gap, missed) == GetReplay(limits, Value(), topic, after)
    {
      gap, missed, r := false, 0, [];
      if topic in buffers {
        r, gap, missed := ReplayRing(buffers[topic], after, topic, logs[topic]);
      }
    }

    /** The latest message, which is also what a client that saw nothing is replayed. */
    method GetRetainedMessage(topic: Topic) returns (r: Option<Message>)
      requires Valid()
      ensures (if r.Some? then [r.value] else []) == GetReplay(limits, Value(), topic, 0).messages
    {
      r := None;
      if topic in buffers {
        r := buffers[topic].Latest();
        Observers(limits.capacity, topic, logs[topic], 0);
      }
    }
  }

  /** Push onto one topic's ring, given the log it stands for. */
  method PushRing(ring: Ring, topic: Topic, payload: Bytes, now: int, ghost log: Log)
    returns (r: Ring, sequence: nat)
    requires ring.maxSize > 0 && ring == RingOf(ring.maxSize, topic, log)
    ensures r == RingOf(ring.maxSize, topic, log + [LogEntry(payload, now)]) && sequence == |log| + 1
  {
    var buffer := new TopicBuffer.From(ring);
    sequence := buffer.Push(topic, payload, now, log);
    r := buffer.Value();
  }

  /** Replay from one topic's ring, given the log it stands for. */
  method ReplayRing(buffer: Ring, after: nat, ghost topic: Topic, ghost log: Log)
    returns (r: seq<Message>, gap: bool, missed: nat)
    requires buffer.maxSize > 0 && log != [] && buffer == RingOf(buffer.maxSize, topic, log)
    ensures Replay(r, gap, missed) == ReplayLog(buffer.maxSize, topic, log, after)
  {
    gap, missed, r := false, 0, [];
    Observers(buffer.maxSize, topic, log, after);
    if after == 0 {
      var latest := buffer.Latest();
      r := if latest.Some? then [latest.value] else [];
      assert r == Numbered(topic, log, |log| - 1);
      return;
    }
    var oldest := buffer.OldestSequence();
    if after >= buffer.CurrentSequence() {
      return;
    }
    if after < oldest {
      gap := true;
      missed := oldest - after - 1;
    }
    var ring := new TopicBuffer.From(buffer);
    r := ring.GetMessagesAfter(after, topic, log);
  }
}
