/**
 The per-subscriber queue: a bounded FIFO with three backpressure policies, time to live and
 statistics. Each value function below is the effect of one critical section; the class
 carries the same sections as methods on mutable fields.

 Times are milliseconds of the steady clock and enter as parameters. Counters are unbounded.
 */
module SubscriberQueue {

  import opened Options

  datatype Policy = DropOldest | DropNewest | Block

  datatype Config = Config(limit: nat, policy: Policy, defaultTtl: int)

  datatype Expiry = Never | At(time: int)

  datatype Entry<+T> = Entry(message: T, expiry: Expiry, enqueuedAt: int)

  datatype Stats = Stats(
    enqueued: nat, delivered: nat, droppedOldest: nat, droppedNewest: nat,
    droppedTtl: nat, blockTimeouts: nat, highWatermark: nat)

  datatype State<+T> = State(messages: seq<Entry<T>>, stats: Stats, closed: bool)

  /** How one pass through the locked part of enqueue ends. */
  datatype Verdict = Accepted | Rejected | Parked

  const NO_STATS := Stats(0, 0, 0, 0, 0, 0, 0)

  function Empty<T>(): State<T> {
    State([], NO_STATS, false)
  }

  predicate Expired<T>(e: Entry<T>, now: int) {
    e.expiry.At? && e.expiry.time <= now
  }

  /** A positive publisher TTL wins over the default; no positive TTL means no expiry. */
  function Stamp<T>(cfg: Config, msg: T, ttl: int, now: int): (e: Entry<T>)
    ensures e.message == msg && e.enqueuedAt == now
    ensures e.expiry.Never? <==> ttl <= 0 && cfg.defaultTtl <= 0
    ensures forall t :: Expired(e, t) <==>
              if ttl > 0 then t - now >= ttl else cfg.defaultTtl > 0 && t - now >= cfg.defaultTtl
  {
    var effective := if ttl > 0 then ttl else cfg.defaultTtl;
    Entry(msg, if effective > 0 then At(now + effective) else Never, now)
  }

  /** The length of the longest prefix of expired entries. */
  function ExpiredPrefix<T>(s: seq<Entry<T>>, now: int): (n: nat)
    ensures n <= |s|
    ensures forall i :: 0 <= i < n ==> Expired(s[i], now)
    ensures n < |s| ==> !Expired(s[n], now)
    decreases |s|
  {
    if s == [] || !Expired(s[0], now) then 0
    else
      var m := ExpiredPrefix(s[1..], now);
      assert forall i :: 0 < i < m + 1 ==> s[i] == s[1..][i - 1];
      m + 1
  }

  predicate Full<T>(cfg: Config, s: State<T>) {
    cfg.limit > 0 && |s.messages| >= cfg.limit
  }

  function Append<T>(s: State<T>, e: Entry<T>): State<T> {
    var depth := |s.messages| + 1;
    s.(messages := s.messages + [e],
       stats := s.stats.(enqueued := s.stats.enqueued + 1,
                         highWatermark := if depth > s.stats.highWatermark then depth else s.stats.highWatermark))
  }

  function DropFront<T>(s: State<T>): State<T> {
    if s.messages == [] then s
    else s.(messages := s.messages[1..], stats := s.stats.(droppedOldest := s.stats.droppedOldest + 1))
  }

  /** The locked part of enqueue, up to a wait. */
  function EnqueueLocked<T>(cfg: Config, s: State<T>, e: Entry<T>): (State<T>, Verdict) {
    if !Full(cfg, s) then (Append(s, e), Accepted)
    else match cfg.policy
      case DropOldest => (Append(DropFront(s), e), Accepted)
      case DropNewest => (s.(stats := s.stats.(droppedNewest := s.stats.droppedNewest + 1)), Rejected)
      case Block => (s, Parked)
  }

  predicate SpaceOrClosed<T>(cfg: Config, s: State<T>) {
    s.closed || |s.messages| < cfg.limit
  }

  /** The rest of enqueue after a wait: no space, or a closed queue, falls back to dropping the oldest. */
  function EnqueueAfterWait<T>(cfg: Config, s: State<T>, e: Entry<T>): State<T> {
    if !SpaceOrClosed(cfg, s) || s.closed then
      Append(DropFront(s.(stats := s.stats.(blockTimeouts := s.stats.blockTimeouts + 1))), e)
    else
      Append(s, e)
  }

  function SkipExpired<T>(s: State<T>, now: int): State<T> {
    var n := ExpiredPrefix(s.messages, now);
    if n == 0 then s
    else s.(messages := s.messages[n..], stats := s.stats.(droppedTtl := s.stats.droppedTtl + n))
  }

  function Dequeue<T>(s: State<T>, now: int): (State<T>, Option<T>) {
    var s' := SkipExpired(s, now);
    if s'.messages == [] then (s', None)
    else (s'.(messages := s'.messages[1..], stats := s'.stats.(delivered := s'.stats.delivered + 1)),
          Some(s'.messages[0].message))
  }

  function Close<T>(s: State<T>): State<T> {
    s.(closed := true)
  }

  lemma {:induction false} ExpiredPrefixSplits<T>(s: seq<Entry<T>>, k: nat, now: int)
    requires k <= |s| && forall i :: 0 <= i < k ==> Expired(s[i], now)
    ensures ExpiredPrefix(s, now) == k + ExpiredPrefix(s[k..], now)
  {}

  /** Dequeue hands out the oldest live message and forgets the expired ones before it, and nothing else. */
  lemma {:induction false} DequeueOldestLive<T>(s: State<T>, now: int, k: nat)
    requires k <= |s.messages| && forall i :: 0 <= i < k ==> Expired(s.messages[i], now)
    requires k < |s.messages| ==> !Expired(s.messages[k], now)
    ensures var (s', m) := Dequeue(s, now);
            && s'.stats.droppedTtl == s.stats.droppedTtl + k
            && (k == |s.messages| ==> m == None && s'.messages == [])
            && (k < |s.messages| ==> m == Some(s.messages[k].message) && s'.messages == s.messages[k + 1..])
  {}

  class Queue<T> {
    const cfg: Config
    var messages: seq<Entry<T>>
    var stats: Stats
    var closed: bool

    ghost function Value(): State<T>
      reads this
    {
      State(messages, stats, closed)
    }

    constructor (cfg: Config)
      ensures this.cfg == cfg && Value() == Empty()
    {
      this.cfg := cfg;
      messages, stats, closed := [], NO_STATS, false;
    }

    /** The unlocked prologue of enqueue: a closed queue refuses, an open one stamps the message. */
    method Admit(msg: T, ttl: int, now: int) returns (e: Option<Entry<T>>)
      ensures closed ==> e == None
      ensures !closed ==> e == Some(Stamp(cfg, msg, ttl, now))
    {
      if closed {
        return None;
      }
      e := Some(Stamp(cfg, msg, ttl, now));
    }

    method Push(e: Entry<T>)
      modifies this
      ensures Value() == Append(old(Value()), e)
    {
      messages := messages + [e];
      stats := stats.(enqueued := stats.enqueued + 1);
      if |messages| > stats.highWatermark {
        stats := stats.(highWatermark := |messages|);
      }
    }

    method PopOldest()
      modifies this
      ensures Value() == DropFront(old(Value()))
    {
      if messages != [] {
        messages := messages[1..];
        stats := stats.(droppedOldest := stats.droppedOldest + 1);
      }
    }

    method TryEnqueue(e: Entry<T>) returns (verdict: Verdict)
      modifies this
      ensures (Value(), verdict) == EnqueueLocked(cfg, old(Value()), e)
    {
      if cfg.limit > 0 && |messages| >= cfg.limit {
        match cfg.policy {
          case DropOldest =>
            PopOldest();
          case DropNewest =>
            stats := stats.(droppedNewest := stats.droppedNewest + 1);
            return Rejected;
          case Block =>
            return Parked;
        }
      }
      Push(e);
      verdict := Accepted;
    }

    method FinishEnqueue(e: Entry<T>)
      modifies this
      ensures Value() == EnqueueAfterWait(cfg, old(Value()), e)
    {
      var gotSpace := closed || |messages| < cfg.limit;
      if !gotSpace || closed {
        stats := stats.(blockTimeouts := stats.blockTimeouts + 1);
        PopOldest();
      }
      Push(e);
    }

    method ReapExpired(now: int) returns (count: nat)
      modifies this
      ensures Value() == SkipExpired(old(Value()), now)
      ensures count == ExpiredPrefix(old(messages), now)
    {
      count := 0;
      while messages != [] && Expired(messages[0], now)
        invariant count <= |old(messages)| && messages == old(messages)[count..]
        invariant forall i :: 0 <= i < count ==> Expired(old(messages)[i], now)
        invariant stats == old(stats).(droppedTtl := old(stats).droppedTtl + count)
        invariant closed == old(closed)
        decreases |messages|
      {
        messages := messages[1..];
        count := count + 1;
        stats := stats.(droppedTtl := stats.droppedTtl + 1);
      }
      ExpiredPrefixSplits(old(messages), count, now);
    }

    method Take(now: int) returns (m: Option<T>)
      modifies this
      ensures (Value(), m) == Dequeue(old(Value()), now)
    {
      var skipped := ReapExpired(now);
      if messages == [] {
        return None;
      }
      m := Some(messages[0].message);
      messages := messages[1..];
      stats := stats.(delivered := stats.delivered + 1);
    }

    method Shut()
      modifies this
      ensures Value() == Close(old(Value()))
    {
      closed := true;
    }
  }
}
