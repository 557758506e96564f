/**
 One subscriber stream as an object: the two methods that drive it, each run without
 interruption. Interleavings of the same steps are the subject of WritePump.
 */
module SubscribeStream {
  import opened Options
  import opened SubscriberQueue
  import opened WritePump

  /** The only thread advances k times. */
  function Spin<T>(cfg: Config, p: Pump<T>, now: int, k: nat): Pump<T>
    decreases k
  {
    if k == 0 then p else Spin(cfg, Next(cfg, p, Advance(0, now)), now, k - 1)
  }

  /** enqueueMessage from entry to return: at most five critical points, the first of which stamps the message. */
  function CallAlone<T>(cfg: Config, p: Pump<T>, msg: T, ttl: int, now: int, later: int): Pump<T> {
    Spin(cfg, Next(cfg, Next(cfg, p, Call(msg, ttl)), Advance(0, now)), later, 4).(threads := [])
  }

  function WriteDoneAlone<T>(cfg: Config, p: Pump<T>, ok: bool, now: int): Pump<T> {
    Spin(cfg, Next(cfg, p, WriteDone(ok)), now, 3).(threads := [])
  }

  /** The same step k times, as a run. */
  function Repeated<T>(step: Step<T>, k: nat): seq<Step<T>> {
    seq(k, i => step)
  }

  lemma {:induction false} RunMore<T>(cfg: Config, p: Pump<T>, steps: seq<Step<T>>, step: Step<T>, k: nat)
    requires k > 0
    ensures Run(cfg, p, steps + Repeated(step, k)) == Run(cfg, p, (steps + [step]) + Repeated(step, k - 1))
  {
    assert steps + Repeated(step, k) == (steps + [step]) + Repeated(step, k - 1);
  }

  /** Running alone is one of the interleavings. */
  lemma {:induction false} SpinIsRun<T>(cfg: Config, p: Pump<T>, steps: seq<Step<T>>, now: int, k: nat)
    ensures Spin(cfg, Run(cfg, p, steps), now, k) == Run(cfg, p, steps + Repeated(Advance(0, now), k))
    decreases k
  {
    var step := Advance(0, now);
    if k == 0 {
      assert steps + Repeated(step, 0) == steps;
    } else {
      RunSnoc(cfg, p, steps, step);
      SpinIsRun(cfg, p, steps + [step], now, k - 1);
      RunMore(cfg, p, steps, step, k);
    }
  }

  lemma {:induction false} SpinDone<T>(cfg: Config, p: Pump<T>, now: int, k: nat)
    requires p.threads == [] || p.threads == [Done]
    ensures Spin(cfg, p, now, k) == p
    decreases k
  {
    if k > 0 {
      assert p.threads == [Done] ==> p.threads[0 := Done] == p.threads;
      SpinDone(cfg, p, now, k - 1);
    }
  }

  class Stream<T> {
    const queue: Queue<T>
    var writing: bool
    var active: bool
    var outstanding: nat
    var finished: bool

    ghost function Value(): Pump<T>
      reads this, queue
    {
      Pump(queue.Value(), writing, active, outstanding, finished, [])
    }

    constructor (cfg: Config)
      ensures Value() == Fresh(0, false) && queue.cfg == cfg && fresh(queue)
    {
      queue := new Queue<T>(cfg);
      writing, active, outstanding, finished := false, true, 0, false;
    }

    /** Dequeue and start writing what was dequeued. */
    method WriteNext(now: int) returns (wrote: bool)
      modifies this`outstanding, queue
      ensures var (q, m) := Dequeue(old(queue.Value()), now);
              && queue.Value() == q && q.stats.enqueued == old(queue.stats.enqueued)
              && wrote == m.Some? && outstanding == old(outstanding) + (if wrote then 1 else 0)
    {
      var m := queue.Take(now);
      wrote := m.Some?;
      if wrote {
        outstanding := outstanding + 1;
      }
    }

    method Accept(msg: T, ttl: int, now: int) returns (accepted: bool)
      modifies queue
      ensures old(queue.closed) ==> !accepted && queue.Value() == old(queue.Value())
      ensures !old(queue.closed) ==>
                var e := Stamp(queue.cfg, msg, ttl, now);
                var (q, verdict) := EnqueueLocked(queue.cfg, old(queue.Value()), e);
                && accepted == (verdict != Rejected)
                && queue.Value() == if verdict == Parked then EnqueueAfterWait(queue.cfg, q, e) else q
      ensures accepted <==>
                !old(queue.closed) && !(queue.cfg.policy == DropNewest && Full(queue.cfg, old(queue.Value())))
      ensures queue.stats.enqueued == old(queue.stats.enqueued) + (if accepted then 1 else 0)
    {
      var e := queue.Admit(msg, ttl, now);
      if e.None? {
        return false;
      }
      var verdict := queue.TryEnqueue(e.value);
      if verdict == Parked {
        queue.FinishEnqueue(e.value);
      }
      accepted := verdict != Rejected;
    }

    /** Raise the flag, and write if it was down. */
    method StartIfIdle(now: int)
      modifies this, queue
      ensures Value() == Spin(queue.cfg, old(Value()).(threads := [Announce]), now, 3).(threads := [])
      ensures queue.stats.enqueued == old(queue.stats.enqueued)
    {
      ghost var p := Value();
      var wasWriting := writing;
      writing := true;
      if !wasWriting {
        if queue.messages != [] {
          var wrote := WriteNext(now);
        } else {
          writing := false;
        }
      }
      AnnounceAlone(queue.cfg, p, now, Value());
    }

    /** A closed queue refuses; the pump's streams are never closed. */
    method EnqueueMessage(msg: T, ttl: int, now: int, later: int) returns (accepted: bool)
      modifies this, queue
      ensures old(queue.closed) ==> !accepted && Value() == old(Value())
      ensures !old(queue.closed) ==> Value() == CallAlone(queue.cfg, old(Value()), msg, ttl, now, later)
      ensures !old(queue.closed) ==>
                (accepted <==> old(active) && !(queue.cfg.policy == DropNewest && Full(queue.cfg, old(queue.Value()))))
      ensures queue.stats.enqueued == old(queue.stats.enqueued) + (if accepted then 1 else 0)
    {
      ghost var p0 := Value();
      if !active {
        SpinDone(queue.cfg, p0, later, 4);
        return false;
      }
      accepted := Accept(msg, ttl, now);
      ghost var p := Value();
      if !old(queue.closed) {
        CallEnqueues(queue.cfg, p0, p, msg, ttl, now, later, accepted);
      }
      if accepted {
        StartIfIdle(later);
      }
    }

    method OnWriteDone(ok: bool, now: int)
      requires outstanding > 0
      modifies this, queue
      ensures Value() == WriteDoneAlone(queue.cfg, old(Value()), ok, now)
    {
      ghost var p0 := Value();
      outstanding := outstanding - 1;
      if !ok || !active {
        finished := true;
        SpinDone(queue.cfg, Value(), now, 3);
        return;
      }
      ghost var p := Value();
      var wrote := false;
      if queue.messages != [] {
        wrote := WriteNext(now);
      }
      if !wrote {
        writing := false;
      }
      CallbackAlone(queue.cfg, p, now, Value());
      assert Next(queue.cfg, p0, WriteDone(ok)) == p.(threads := [Callback]);
    }
  }

  /** The first critical section, and the wait of a blocked producer, with nobody else about. */
  lemma {:induction false} CallEnqueues<T>(
      cfg: Config, p0: Pump<T>, p: Pump<T>, msg: T, ttl: int, now: int, later: int, accepted: bool)
    requires p0.threads == [] && p0.active
    requires var e := Stamp(cfg, msg, ttl, now);
             var (q, verdict) := EnqueueLocked(cfg, p0.q, e);
             && accepted == (verdict != Rejected)
             && p == p0.(q := if verdict == Parked then EnqueueAfterWait(cfg, q, e) else q)
    ensures !accepted ==> CallAlone(cfg, p0, msg, ttl, now, later) == p
    ensures accepted ==>
              CallAlone(cfg, p0, msg, ttl, now, later)
              == Spin(cfg, p.(threads := [Announce]), later, 3).(threads := [])
  {
    var entered := Next(cfg, p0, Call(msg, ttl));
    assert entered.threads == [Entering(msg, ttl)];
    var e := Stamp(cfg, msg, ttl, now);
    var (q, verdict) := EnqueueLocked(cfg, p0.q, e);
    var at := Next(cfg, entered, Advance(0, now));
    if verdict == Rejected {
      assert at == p.(threads := [Done]);
      SpinDone(cfg, at, later, 4);
    } else if verdict == Parked {
      assert at == p0.(q := q, threads := [Blocked(e)]);
      assert Next(cfg, at, Advance(0, later)) == p.(threads := [Announce]);
    } else {
      assert at == p.(threads := [Announce]);
      FourthIsIdle(cfg, at, later);
    }
  }

  /** Announcing, checking and taking is all that is left of a call: a fourth advance changes nothing. */
  lemma {:induction false} FourthIsIdle<T>(cfg: Config, p: Pump<T>, now: int)
    requires p.threads == [Announce]
    ensures Spin(cfg, p, now, 4) == Spin(cfg, p, now, 3)
  {}

  lemma {:induction false} SpinThree<T>(cfg: Config, p: Pump<T>, now: int)
    ensures var p3 := Next(cfg, Next(cfg, Next(cfg, p, Advance(0, now)), Advance(0, now)), Advance(0, now));
            Spin(cfg, p, now, 3) == p3 && Spin(cfg, p, now, 4) == Spin(cfg, p3, now, 1)
  {}

  lemma {:induction false} AnnounceAlone<T>(cfg: Config, p: Pump<T>, now: int, p': Pump<T>)
    requires p.threads == []
    requires if p.writing then p' == p
             else if p.q.messages == [] then p' == p.(writing := false)
             else var (q, m) := Dequeue(p.q, now);
                  p' == p.(writing := true, q := q, outstanding := p.outstanding + (if m.Some? then 1 else 0))
    ensures Spin(cfg, p.(threads := [Announce]), now, 3).(threads := []) == p'
  {}

  lemma {:induction false} CallbackAlone<T>(cfg: Config, p: Pump<T>, now: int, p': Pump<T>)
    requires p.threads == []
    requires var (q, m) := Dequeue(p.q, now);
             if p.q.messages == [] then p' == p.(writing := false)
             else if m.Some? then p' == p.(q := q, outstanding := p.outstanding + 1)
             else p' == p.(q := q, writing := false)
    ensures Spin(cfg, p.(threads := [Callback]), now, 3).(threads := []) == p'
  {
    var p0 := p.(threads := [Callback]);
    SpinThree(cfg, p0, now);
    var p1 := Next(cfg, p0, Advance(0, now));
    assert p1 == p.(threads := [if p.q.messages != [] then CallbackTake else CallbackClear]);
    var p2 := Next(cfg, p1, Advance(0, now));
    assert p2.threads == [Done] || p2.threads == [CallbackClear];
    assert Next(cfg, p2, Advance(0, now)).threads == [Done];
  }
}
