/**
 One topic's replay ring. Its specification is the log of everything pushed since the ring
 was created: the ring holds the last `capacity` entries of that log, numbered from 1.
 */
module TopicBuffer {
  import opened Options
  import opened Crc64
  import opened TopicHash

  datatype LogEntry = LogEntry(payload: Bytes, timestamp: int)

  type Log = seq<LogEntry>

  datatype Message = Message(sequence: nat, topic: Topic, payload: Bytes, timestamp: int)

  /** The index of the oldest retained entry of a log of length n. */
  function Floor(capacity: nat, n: nat): (f: nat)
    ensures f <= n && n - f <= capacity
    ensures f > 0 ==> n - f == capacity
  {
    if n <= capacity then 0 else n - capacity
  }

  /** Entries from index `from` on, as numbered messages. */
  function Numbered(topic: Topic, log: Log, from: nat): (r: seq<Message>)
    requires from <= |log|
    ensures |r| == |log| - from
    ensures forall i :: 0 <= i < |r| ==>
              r[i] == Message(from + i + 1, topic, log[from + i].payload, log[from + i].timestamp)
  {
    seq(|log| - from, i requires 0 <= i < |log| - from =>
        Message(from + i + 1, topic, log[from + i].payload, log[from + i].timestamp))
  }

  /** What a ring of this capacity holds after this log. */
  function Retained(capacity: nat, topic: Topic, log: Log): (r: seq<Message>)
    ensures |r| == |log| - Floor(capacity, |log|)
  {
    Numbered(topic, log, Floor(capacity, |log|))
  }

  function TotalSize(ms: seq<Message>): nat
    decreases |ms|
  {
    if ms == [] then 0 else |ms[0].payload| + TotalSize(ms[1..])
  }

  lemma {:induction false} TotalSizeSnoc(ms: seq<Message>, m: Message)
    ensures TotalSize(ms + [m]) == TotalSize(ms) + |m.payload|
    decreases |ms|
  {
    if ms != [] {
      assert (ms + [m])[1..] == ms[1..] + [m];
      TotalSizeSnoc(ms[1..], m);
    }
  }

  lemma {:induction false} RetainedGrows(capacity: nat, topic: Topic, log: Log, e: LogEntry)
    requires capacity > 0
    ensures var (old_, new_) := (Retained(capacity, topic, log), Retained(capacity, topic, log + [e]));
            new_ == (if |old_| >= capacity then old_[1..] else old_)
                + [Message(|log| + 1, topic, e.payload, e.timestamp)]
  {}

  /** The messages of a sequence numbered above s. */
  function Above(ms: seq<Message>, s: nat): seq<Message>
    decreases |ms|
  {
    if ms == [] then []
    else if ms[0].sequence > s then [ms[0]] + Above(ms[1..], s)
    else Above(ms[1..], s)
  }

  /** Where the entries beyond sequence s start, in a log of length n kept from `floor` on. */
  function Start(floor: nat, n: nat, s: nat): (k: nat)
    requires floor <= n
    ensures floor <= k <= n
  {
    if s <= floor then floor else if s >= n then n else s
  }

  lemma {:induction false} AllAbove(ms: seq<Message>, s: nat)
    requires forall i :: 0 <= i < |ms| ==> ms[i].sequence > s
    ensures Above(ms, s) == ms
    decreases |ms|
  {
    if ms != [] {
      AllAbove(ms[1..], s);
    }
  }

  /** Filtering contiguously numbered messages by sequence number yields a suffix. */
  lemma {:induction false} AboveIsSuffix(ms: seq<Message>, floor: nat, s: nat)
    requires forall i :: 0 <= i < |ms| ==> ms[i].sequence == floor + i + 1
    ensures Above(ms, s) == ms[Start(floor, floor + |ms|, s) - floor..]
    decreases |ms|
  {
    if s <= floor {
      AllAbove(ms, s);
    } else if ms != [] {
      AboveIsSuffix(ms[1..], floor + 1, s);
    }
  }

  lemma {:induction false} NumberedSuffix(topic: Topic, log: Log, floor: nat, k: nat)
    requires floor <= k <= |log|
    ensures Numbered(topic, log, floor)[k - floor..] == Numbered(topic, log, k)
  {}

  lemma {:induction false} AboveRetained(capacity: nat, topic: Topic, log: Log, s: nat)
    ensures Above(Retained(capacity, topic, log), s)
         == Numbered(topic, log, Start(Floor(capacity, |log|), |log|, s))
  {
    var floor := Floor(capacity, |log|);
    var ms := Numbered(topic, log, floor);
    AboveIsSuffix(ms, floor, s);
    NumberedSuffix(topic, log, floor, Start(floor, |log|, s));
  }

  // ---------------------------------------------------------------------------
  // The ring
  // ---------------------------------------------------------------------------

  datatype Ring = Ring(maxSize: nat, nextSequence: nat, messages: seq<Message>, totalBytes: nat) {

    function Latest(): Option<Message> {
      if messages == [] then None else Some(messages[|messages| - 1])
    }

    function CurrentSequence(): int {
      nextSequence - 1
    }

    function OldestSequence(): nat {
      if messages == [] then 0 else messages[0].sequence
    }

    predicate HasSequence(s: nat) {
      messages != [] && messages[0].sequence <= s <= messages[|messages| - 1].sequence
    }
  }

  function NewRing(maxSize: nat): Ring {
    Ring(maxSize, 1, [], 0)
  }

  /** The ring after a push; the size of a ring must be at least one. */
  function Pushed(r: Ring, topic: Topic, payload: Bytes, now: int): Ring {
    var full := |r.messages| >= r.maxSize && r.messages != [];
    var kept := if full then r.messages[1..] else r.messages;
    var bytes := if full && r.totalBytes >= |r.messages[0].payload| then r.totalBytes - |r.messages[0].payload|
        else r.totalBytes;
    Ring(r.maxSize, r.nextSequence + 1, kept + [Message(r.nextSequence, topic, payload, now)], bytes + |payload|)
  }

  /** The ring that a log of pushes leaves behind. */
  function RingOf(capacity: nat, topic: Topic, log: Log): Ring {
    var ms := Retained(capacity, topic, log);
    Ring(capacity, |log| + 1, ms, TotalSize(ms))
  }

  /** A push appends to the log: the ring never forgets more than it must, and its byte total stays right. */
  lemma {:induction false} PushAppends(capacity: nat, topic: Topic, log: Log, e: LogEntry)
    requires capacity > 0
    ensures Pushed(RingOf(capacity, topic, log), topic, e.payload, e.timestamp) == RingOf(capacity, topic, log + [e])
  {
    RetainedGrows(capacity, topic, log, e);
    var ms := Retained(capacity, topic, log);
    TotalSizeSnoc(if |ms| >= capacity then ms[1..] else ms, Message(|log| + 1, topic, e.payload, e.timestamp));
  }

  lemma {:induction false} NewRingIsEmptyLog(capacity: nat, topic: Topic)
    ensures NewRing(capacity) == RingOf(capacity, topic, [])
  {}

  /** What the observers say of a log: the newest entry, its number, the oldest number kept, and the kept range. */
  lemma {:induction false} Observers(capacity: nat, topic: Topic, log: Log, s: nat)
    requires capacity > 0
    ensures var (r, n) := (RingOf(capacity, topic, log), |log|);
            && r.CurrentSequence() == n
            && (log == [] <==> r.Latest() == None)
            && (log != [] ==> r.Latest() == Some(Message(n, topic, log[n - 1].payload, log[n - 1].timestamp)))
            && r.OldestSequence() == (if log == [] then 0 else Floor(capacity, n) + 1)
            && (r.HasSequence(s) <==> Floor(capacity, n) < s <= n)
            && (r.HasSequence(s) <==> exists m :: m in r.messages && m.sequence == s)
  {
    var r := RingOf(capacity, topic, log);
    if r.HasSequence(s) {
      assert r.messages[s - r.messages[0].sequence].sequence == s;
    }
  }

  /** The ring as the object the source updates in place. */
  class TopicBuffer {
    const maxSize: nat
    var nextSequence: nat
    var messages: seq<Message>
    var totalBytes: nat

    function Value(): Ring
      reads this
    {
      Ring(maxSize, nextSequence, messages, totalBytes)
    }

    constructor (maxSize: nat)
      ensures Value() == NewRing(maxSize)
    {
      this.maxSize := maxSize;
      nextSequence, messages, totalBytes := 1, [], 0;
    }

    /** The ring held by value in a table, taken out to be worked on. */
    constructor From(ring: Ring)
      ensures Value() == ring
    {
      maxSize := ring.maxSize;
      nextSequence, messages, totalBytes := ring.nextSequence, ring.messages, ring.totalBytes;
    }

    method Push(topic: Topic, payload: Bytes, now: int, ghost log: Log) returns (sequence: nat)
      requires maxSize > 0 && Value() == RingOf(maxSize, topic, log)
      modifies this
      ensures Value() == RingOf(maxSize, topic, log + [LogEntry(payload, now)])
      ensures sequence == |log| + 1
    {
      PushAppends(maxSize, topic, log, LogEntry(payload, now));
      sequence := nextSequence;
      nextSequence := nextSequence + 1;
      if |messages| >= maxSize {
        totalBytes := totalBytes - |messages[0].payload|;
        messages := messages[1..];
      }
      messages := messages + [Message(sequence, topic, payload, now)];
      totalBytes := totalBytes + |payload|;
    }

    method GetMessagesAfter(after: nat, ghost topic: Topic, ghost log: Log) returns (r: seq<Message>)
      requires Value() == RingOf(maxSize, topic, log)
      ensures r == Above(messages, after)
      ensures r == Numbered(topic, log, Start(Floor(maxSize, |log|), |log|, after))
    {
      r := [];
      var i := 0;
      while i < |messages|
        invariant 0 <= i <= |messages| && r + Above(messages[i..], after) == Above(messages, after)
      {
        assert messages[i..][1..] == messages[i + 1..];
        if messages[i].sequence > after {
          r := r + [messages[i]];
        }
        i := i + 1;
      }
      AboveRetained(maxSize, topic, log, after);
    }
  }
}
