/**
 All topics' replay rings under one byte budget. The specification state keeps the whole
 log of each topic since its ring was created, an epoch, and the byte counter the code
 maintains; what a ring retains is a function of its log.

 Erasing a topic, by eviction or clearing, ends its epoch: numbering restarts at 1.
 */
module ReplayStore {
  import opened Crc64
  import opened TopicHash
  import opened TopicBuffer

  /** 2^64, the modulus of size_t arithmetic. */
  const SIZE_MODULUS := 0x1_0000_0000_0000_0000

  /** Messages per topic, at least one, and the byte budget; no budget if zero. */
  datatype Limits = Limits(capacity: nat, maxBytes: nat)

  datatype Store = Store(logs: map<Topic, Log>, total: nat)

  const EMPTY_STORE := Store(map[], 0)

  /** Bytes a topic's ring holds. */
  function Held(capacity: nat, topic: Topic, log: Log): nat {
    TotalSize(Retained(capacity, topic, log))
  }

  function Minus(a: nat, b: nat): nat {
    if a >= b then a - b else a + SIZE_MODULUS - b % SIZE_MODULUS
  }

  function Erase(limits: Limits, s: Store, topic: Topic): Store {
    if topic !in s.logs then s
    else Store(s.logs - {topic}, Minus(s.total, Held(limits.capacity, topic, s.logs[topic])))
  }

  /** `order` is the hash table's iteration order: it names every topic. */
  ghost predicate Covers(order: seq<Topic>, logs: map<Topic, Log>) {
    forall t :: t in logs ==> t in order
  }

  /** The first topic of the iteration, or the empty name if there is none. */
  function FirstTopic(order: seq<Topic>, logs: map<Topic, Log>): (t: Topic)
    ensures t in logs || (t == [] && forall x :: x in order ==> x !in logs)
    decreases |order|
  {
    if order == [] then [] else if order[0] in logs then order[0] else FirstTopic(order[1..], logs)
  }

  /** The unsigned subtraction max - needed wraps for an oversized payload. */
  function Target(limits: Limits, needed: nat): nat {
    Minus(limits.maxBytes, needed)
  }

  /** Erase whole topics until the counter is at the target; give up at the empty name. */
  function Evict(limits: Limits, s: Store, target: nat, order: seq<Topic>): (Store, bool)
    decreases |s.logs|
  {
    if s.total <= target || s.logs == map[] then (s, true)
    else
      var t := FirstTopic(order, s.logs);
      if t == [] then (s, false)
      else
        assert s.logs.Keys - {t} == (s.logs - {t}).Keys && |s.logs.Keys| == |(s.logs.Keys - {t}) + {t}|;
        Evict(limits, Erase(limits, s, t), target, order)
  }

  function EvictForSpace(limits: Limits, s: Store, needed: nat, order: seq<Topic>): (Store, bool) {
    if limits.maxBytes == 0 then (s, true)
    else
      var (s', ok) := Evict(limits, s, Target(limits, needed), order);
      (s', ok && s'.total + needed <= limits.maxBytes)
  }

  function LogOf(s: Store, topic: Topic): Log {
    if topic in s.logs then s.logs[topic] else []
  }

  function Push(limits: Limits, s: Store, topic: Topic, e: LogEntry): Store {
    var log := LogOf(s, topic);
    Store(s.logs[topic := log + [e]],
          Minus(s.total, Held(limits.capacity, topic, log)) + Held(limits.capacity, topic, log + [e]))
  }

  /** Evict only if the payload would exceed a non-zero budget. */
  function MakeRoom(limits: Limits, s: Store, size: nat, order: seq<Topic>): (Store, bool) {
    if limits.maxBytes > 0 && s.total + size > limits.maxBytes then EvictForSpace(limits, s, size, order)
    else (s, true)
  }

  /** Buffer one message: its sequence number, or 0 if it was turned away. */
  function BufferMessage(limits: Limits, s: Store, topic: Topic, e: LogEntry, order: seq<Topic>): (Store, nat) {
    var (s', ok) := MakeRoom(limits, s, |e.payload|, order);
    if ok then (Push(limits, s', topic, e), |LogOf(s', topic)| + 1) else (s', 0)
  }

  // ---------------------------------------------------------------------------
  // The byte counter
  // ---------------------------------------------------------------------------

  ghost function BufferedBytes(capacity: nat, logs: map<Topic, Log>): nat
    decreases |logs|
  {
    if logs == map[] then 0
    else
      var t :| t in logs;
      assert |logs.Keys| == |(logs.Keys - {t}) + {t}| && (logs - {t}).Keys == logs.Keys - {t};
      Held(capacity, t, logs[t]) + BufferedBytes(capacity, logs - {t})
  }

  lemma {:induction false} FewerTopics(logs: map<Topic, Log>, t: Topic)
    requires t in logs
    ensures |logs - {t}| < |logs|
  {}

  lemma {:induction false} BytesSome(capacity: nat, logs: map<Topic, Log>) returns (u: Topic)
    requires logs != map[]
    ensures u in logs && BufferedBytes(capacity, logs)
        == Held(capacity, u, logs[u]) + BufferedBytes(capacity, logs - {u})
  {
    u :| u in logs && BufferedBytes(capacity, logs) == Held(capacity, u, logs[u]) + BufferedBytes(capacity, logs - {u});
  }

  lemma {:induction false} BytesWithout(capacity: nat, logs: map<Topic, Log>, t: Topic)
    requires t in logs
    ensures BufferedBytes(capacity, logs) == Held(capacity, t, logs[t]) + BufferedBytes(capacity, logs - {t})
    decreases |logs|
  {
    var u := BytesSome(capacity, logs);
    if u != t {
      FewerTopics(logs, u);
      FewerTopics(logs, t);
      BytesWithout(capacity, logs - {u}, t);
      BytesWithout(capacity, logs - {t}, u);
      assert logs - {u} - {t} == logs - {t} - {u};
    }
  }

  lemma {:induction false} BytesWith(capacity: nat, logs: map<Topic, Log>, t: Topic, log: Log)
    ensures BufferedBytes(capacity, logs[t := log]) == Held(capacity, t, log) + BufferedBytes(capacity, logs - {t})
  {
    BytesWithout(capacity, logs[t := log], t);
    assert logs[t := log] - {t} == logs - {t};
  }

  ghost predicate Valid(limits: Limits, s: Store) {
    && limits.capacity > 0
    && s.total == BufferedBytes(limits.capacity, s.logs)
    && (limits.maxBytes > 0 ==> s.total <= limits.maxBytes)
    && forall t :: t in s.logs ==> s.logs[t] != []
  }

  lemma {:induction false} EraseValid(limits: Limits, s: Store, t: Topic)
    requires Valid(limits, s)
    ensures Valid(limits, Erase(limits, s, t))
    ensures t in s.logs ==> Erase(limits, s, t).total == s.total - Held(limits.capacity, t, s.logs[t])
    ensures Erase(limits, s, t).total <= s.total
  {
    if t in s.logs {
      BytesWithout(limits.capacity, s.logs, t);
    }
  }

  lemma {:induction false} HeldWithinTotal(limits: Limits, s: Store, t: Topic)
    requires Valid(limits, s)
    ensures Held(limits.capacity, t, LogOf(s, t)) <= s.total
  {
    if t in s.logs {
      BytesWithout(limits.capacity, s.logs, t);
    }
  }

  lemma {:induction false} HeldGrows(capacity: nat, t: Topic, log: Log, e: LogEntry)
    requires capacity > 0
    ensures Held(capacity, t, log + [e]) <= Held(capacity, t, log) + |e.payload|
  {
    RetainedGrows(capacity, t, log, e);
    var ms := Retained(capacity, t, log);
    var m := Message(|log| + 1, t, e.payload, e.timestamp);
    TotalSizeSnoc(ms, m);
    TotalSizeSnoc(if |ms| >= capacity then ms[1..] else ms, m);
  }

  lemma {:induction false} PushValid(limits: Limits, s: Store, t: Topic, e: LogEntry)
    requires Valid(limits, s) && (limits.maxBytes > 0 ==> s.total + |e.payload| <= limits.maxBytes)
    ensures Valid(limits, Push(limits, s, t, e))
  {
    var log := LogOf(s, t);
    BytesWith(limits.capacity, s.logs, t, log + [e]);
    HeldGrows(limits.capacity, t, log, e);
    if t in s.logs {
      BytesWithout(limits.capacity, s.logs, t);
    } else {
      assert s.logs - {t} == s.logs;
      assert Held(limits.capacity, t, []) == 0;
    }
  }

  /** Eviction keeps the counter right, never raises it, and only ever erases whole topics. */
  lemma {:induction false} EvictValid(limits: Limits, s: Store, target: nat, order: seq<Topic>)
    requires Valid(limits, s)
    ensures var (s', ok) := Evict(limits, s, target, order);
            && Valid(limits, s') && s'.total <= s.total
            && forall t :: t in s'.logs ==> t in s.logs && s'.logs[t] == s.logs[t]
    decreases |s.logs|
  {
    if s.total > target && s.logs != map[] {
      var t := FirstTopic(order, s.logs);
      if t != [] {
        EraseValid(limits, s, t);
        FewerTopics(s.logs, t);
        EvictValid(limits, Erase(limits, s, t), target, order);
      }
    }
  }

  /** Unless a topic is named "", eviction always reaches its target. */
  lemma {:induction false} EvictReaches(limits: Limits, s: Store, target: nat, order: seq<Topic>)
    requires Valid(limits, s) && [] !in s.logs && Covers(order, s.logs)
    ensures var (s', ok) := Evict(limits, s, target, order); ok && s'.total <= target
    decreases |s.logs|
  {
    if s.total > target && s.logs != map[] {
      var some :| some in s.logs;
      var t := FirstTopic(order, s.logs);
      assert t in s.logs;
      EraseValid(limits, s, t);
      FewerTopics(s.logs, t);
      EvictReaches(limits, Erase(limits, s, t), target, order);
    }
  }

  // ---------------------------------------------------------------------------
  // Runs
  // ---------------------------------------------------------------------------

  datatype Step =
    | Buffer(topic: Topic, entry: LogEntry, order: seq<Topic>)
    | ClearTopic(topic: Topic)
    | ClearAll

  function Next(limits: Limits, s: Store, step: Step): Store {
    match step
    case Buffer(t, e, order) => BufferMessage(limits, s, t, e, order).0
    case ClearTopic(t) => Erase(limits, s, t)
    case ClearAll => EMPTY_STORE
  }

  function Run(limits: Limits, steps: seq<Step>): Store
    decreases |steps|
  {
    if steps == [] then EMPTY_STORE
    else Next(limits, Run(limits, steps[..|steps| - 1]), steps[|steps| - 1])
  }

  lemma {:induction false} RoomValid(limits: Limits, s: Store, size: nat, order: seq<Topic>)
    requires Valid(limits, s)
    ensures var (s', ok) := MakeRoom(limits, s, size, order);
            && Valid(limits, s') && (ok && limits.maxBytes > 0 ==> s'.total + size <= limits.maxBytes)
            && forall t :: t in s'.logs ==> t in s.logs && s'.logs[t] == s.logs[t]
  {
    EvictValid(limits, s, Target(limits, size), order);
  }

  lemma {:induction false} BufferValid(limits: Limits, s: Store, t: Topic, e: LogEntry, order: seq<Topic>)
    requires Valid(limits, s)
    ensures var (s', seqno) := BufferMessage(limits, s, t, e, order);
            && Valid(limits, s')
            && (seqno > 0 ==> t in s'.logs && |s'.logs[t]| == seqno && s'.logs[t][seqno - 1] == e)
  {
    RoomValid(limits, s, |e.payload|, order);
    var (s', ok) := MakeRoom(limits, s, |e.payload|, order);
    if ok {
      PushValid(limits, s', t, e);
    }
  }

  /**
   Over every run the byte counter equals the bytes actually buffered, never underflows,
   and stays within a non-zero budget.
   */
  lemma {:induction false} RunValid(limits: Limits, steps: seq<Step>)
    requires limits.capacity > 0
    ensures Valid(limits, Run(limits, steps))
    decreases |steps|
  {
    if steps != [] {
      var before, step := steps[..|steps| - 1], steps[|steps| - 1];
      RunValid(limits, before);
      match step
      case Buffer(t, e, order) => BufferValid(limits, Run(limits, before), t, e, order);
      case ClearTopic(t) => EraseValid(limits, Run(limits, before), t);
      case ClearAll =>
    }
  }

  // ---------------------------------------------------------------------------
  // Acceptance
  // ---------------------------------------------------------------------------

  /** An oversized payload is turned away with nothing evicted, although the target wrapped. */
  lemma {:induction false} OversizedRefused(limits: Limits, s: Store, t: Topic, e: LogEntry, order: seq<Topic>)
    requires Valid(limits, s) && 0 < limits.maxBytes < |e.payload| < SIZE_MODULUS
    ensures BufferMessage(limits, s, t, e, order) == (s, 0)
  {}

  lemma {:induction false} FittingAccepted(limits: Limits, s: Store, t: Topic, e: LogEntry, order: seq<Topic>)
    requires Valid(limits, s) && Covers(order, s.logs)
    requires limits.maxBytes == 0 || |e.payload| <= limits.maxBytes
    requires limits.maxBytes == 0 || s.total + |e.payload| <= limits.maxBytes || [] !in s.logs
    ensures BufferMessage(limits, s, t, e, order).1 > 0
  {
    if limits.maxBytes > 0 && s.total + |e.payload| > limits.maxBytes {
      EvictReaches(limits, s, Target(limits, |e.payload|), order);
    }
  }

  /** With the topic named "" first in iteration order, eviction gives up at once. */
  lemma {:induction false} EmptyNameRefused(limits: Limits, s: Store, t: Topic, e: LogEntry) returns (order: seq<Topic>)
    requires Valid(limits, s) && limits.maxBytes > 0 && [] in s.logs
    requires |e.payload| <= limits.maxBytes < s.total + |e.payload|
    ensures Covers(order, s.logs) && BufferMessage(limits, s, t, e, order) == (s, 0)
  {
    order := [[]] + SortedListing(s.logs.Keys);
    ListingCovers(s.logs);
    assert FirstTopic(order, s.logs) == [];
  }

  lemma {:induction false} ListingCovers(logs: map<Topic, Log>)
    ensures Covers(SortedListing(logs.Keys), logs)
  {
    forall t | t in logs ensures t in SortedListing(logs.Keys) {
      assert t in multiset(logs.Keys);
      assert t in multiset(SortedListing(logs.Keys));
    }
  }

  /**
   A payload is accepted under every iteration order exactly when there is no budget, or it
   fits the budget and either needs no eviction or no buffered topic is named "".
   */
  lemma {:induction false} AlwaysAcceptedIff(limits: Limits, s: Store, t: Topic, e: LogEntry)
    requires Valid(limits, s) && |e.payload| < SIZE_MODULUS
    ensures (forall order :: Covers(order, s.logs) ==> BufferMessage(limits, s, t, e, order).1 > 0)
       <==> limits.maxBytes == 0 ||
            (|e.payload| <= limits.maxBytes && (s.total + |e.payload| <= limits.maxBytes || [] !in s.logs))
  {
    if limits.maxBytes > 0 && |e.payload| > limits.maxBytes {
      ListingCovers(s.logs);
      OversizedRefused(limits, s, t, e, SortedListing(s.logs.Keys));
    } else if limits.maxBytes > 0 && s.total + |e.payload| > limits.maxBytes && [] in s.logs {
      var order := EmptyNameRefused(limits, s, t, e);
    } else {
      forall order | Covers(order, s.logs) ensures BufferMessage(limits, s, t, e, order).1 > 0 {
        FittingAccepted(limits, s, t, e, order);
      }
    }
  }

  // ---------------------------------------------------------------------------
  // Replay
  // ---------------------------------------------------------------------------

  datatype Replay = Replay(messages: seq<Message>, gap: bool, missed: nat)

  const NOTHING := Replay([], false, 0)

  /** What a client that last saw sequence `after` of this log is sent. */
  function ReplayLog(capacity: nat, topic: Topic, log: Log, after: nat): Replay {
    var (n, floor) := (|log|, Floor(capacity, |log|));
    if log == [] then NOTHING
    else if after == 0 then Replay(Numbered(topic, log, n - 1), false, 0)
    else if after >= n then NOTHING
    else
      var missed := if after <= floor then floor - after else 0;
      Replay(Numbered(topic, log, Start(floor, n, after)), after <= floor, missed)
  }

  function GetReplay(limits: Limits, s: Store, topic: Topic, after: nat): Replay {
    ReplayLog(limits.capacity, topic, LogOf(s, topic), after)
  }

  function Min(a: nat, b: nat): nat {
    if a <= b then a else b
  }

  /**
   Exact recovery: a client that saw the first s >= 1 messages of an epoch and missed the k
   after them is sent exactly the last min(k, capacity) of those in order; missed plus
   replayed is k; and the gap flag is raised exactly when k reaches the capacity, which
   includes the case where nothing is missing.
   */
  lemma {:induction false} ReplayExact(limits: Limits, s: Store, topic: Topic, seen: Log, unseen: Log)
    requires limits.capacity > 0 && |seen| > 0 && LogOf(s, topic) == seen + unseen
    ensures var (k, r) := (|unseen|, GetReplay(limits, s, topic, |seen|));
            && r.messages == Numbered(topic, seen + unseen, |seen| + k - Min(k, limits.capacity))
            && |r.messages| == Min(k, limits.capacity)
            && r.missed + |r.messages| == k
            && (r.gap <==> k >= limits.capacity)
            && (r.missed > 0 ==> r.gap)
  {}

  /**
   What a replay accounts for, as sent or as missed, is exactly the messages numbered beyond the
   client's sequence; a client at or ahead of the present numbering gets nothing at all.
   */
  lemma {:induction false} ReplayAccounts(limits: Limits, s: Store, topic: Topic, after: nat)
    requires limits.capacity > 0 && after > 0
    ensures var (n, r) := (|LogOf(s, topic)|, GetReplay(limits, s, topic, after));
            && r.missed + |r.messages| == (if after < n then n - after else 0)
            && (r == NOTHING <==> after >= n)
  {
    var log := LogOf(s, topic);
    if after < |log| {
      assert |GetReplay(limits, s, topic, after).messages| > 0;
    }
  }
}
