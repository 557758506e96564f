/**
 The write pump and the queue under it: every run of a stream is, as far as its queue is
 concerned, a run of the queue, and what the stream writes is what that run gives out.
 */
module PumpQueue {
  import opened Options
  import opened SubscriberQueue
  import Pumps = WritePump
  import Queues = QueueRuns

  /** The message a pump step starts to write, if any. */
  function Written<T>(p: Pumps.Pump<T>, step: Pumps.Step<T>): seq<T> {
    if step.Advance? && step.thread < |p.threads|
       && (p.threads[step.thread].KickTake? || p.threads[step.thread].CallbackTake?)
       && Dequeue(p.q, step.now).1.Some?
    then [Dequeue(p.q, step.now).1.value] else []
  }

  /** All messages written in a run from idle, in order. */
  function WrittenIn<T>(cfg: Config, steps: seq<Pumps.Step<T>>): seq<T>
    decreases |steps|
  {
    if steps == [] then []
    else
      var before := steps[..|steps| - 1];
      WrittenIn(cfg, before) + Written(Pumps.Run(cfg, Pumps.Fresh(0, false), before), steps[|steps| - 1])
  }

  /** The entry a pump step puts into the queue, if any: that of a call that finds room, or whose wait ends. */
  function Taken<T>(cfg: Config, p: Pumps.Pump<T>, step: Pumps.Step<T>): seq<Entry<T>> {
    if !step.Advance? || step.thread >= |p.threads| then []
    else
      match p.threads[step.thread]
      case Entering(msg, ttl) =>
        var e := Stamp(cfg, msg, ttl, step.now);
        if Pumps.MutexFree(p) && EnqueueLocked(cfg, p.q, e).1 == Accepted then [e] else []
      case Blocked(e) => [e]
      case _ => []
  }

  /** All entries that the calls of a run from idle put into the queue, in order. */
  function TakenIn<T>(cfg: Config, steps: seq<Pumps.Step<T>>): seq<Entry<T>>
    decreases |steps|
  {
    if steps == [] then []
    else
      var before := steps[..|steps| - 1];
      TakenIn(cfg, before) + Taken(cfg, Pumps.Run(cfg, Pumps.Fresh(0, false), before), steps[|steps| - 1])
  }

  /** A queue run that stands for a pump: the same queue, and the blocked threads are its waiting producers. */
  ghost predicate StandsFor<T>(w: Queues.World<T>, p: Pumps.Pump<T>) {
    && w.q == p.q && !w.q.closed
    && (forall i: nat :: i in w.producers <==> i < |p.threads| && p.threads[i].Blocked?)
    && (forall i: nat :: i in w.producers ==> w.producers[i] == Queues.Waiting(p.threads[i].entry))
  }

  /** The queue steps one pump step amounts to. */
  function QueueSteps<T>(p: Pumps.Pump<T>, step: Pumps.Step<T>): seq<Queues.Step<T>> {
    match step
    case Reap(now) => [Queues.Reap(now)]
    case Advance(i, now) =>
      if i >= |p.threads| then []
      else (match p.threads[i]
            case Entering(msg, ttl) =>
              if Pumps.MutexFree(p) then [Queues.Begin(i, msg, ttl, now), Queues.Lock(i)] else []
            case Blocked(_) => [Queues.Wake(i)]
            case KickTake => [Queues.Consume(now)]
            case CallbackTake => [Queues.Consume(now)]
            case _ => [])
    case _ => []
  }

  /** The queue steps of a whole run from idle. */
  function QueueStepsIn<T>(cfg: Config, steps: seq<Pumps.Step<T>>): seq<Queues.Step<T>>
    decreases |steps|
  {
    if steps == [] then []
    else
      var before := steps[..|steps| - 1];
      QueueStepsIn(cfg, before) + QueueSteps(Pumps.Run(cfg, Pumps.Fresh(0, false), before), steps[|steps| - 1])
  }

  function Gave<T>(out: Queues.Output<T>): seq<T> {
    if out.Gave? && out.result.Some? then [out.result.value] else []
  }

  function Took<T>(out: Queues.Output<T>): seq<Entry<T>> {
    if out.Took? then [out.entry] else []
  }

  lemma {:induction false} RunOne<T>(cfg: Config, steps: seq<Queues.Step<T>>, step: Queues.Step<T>)
    ensures Queues.Run(cfg, steps + [step]) == Queues.Next(cfg, Queues.Run(cfg, steps), step).0
    ensures var out := Queues.Next(cfg, Queues.Run(cfg, steps), step).1;
            var (o, o') := (Queues.Outputs(cfg, steps), Queues.Outputs(cfg, steps + [step]));
            && Queues.DeliveredIn(o') == Queues.DeliveredIn(o) + Gave(out)
            && Queues.AcceptedIn(o') == Queues.AcceptedIn(o) + Took(out)
  {
    assert (steps + [step])[..|steps|] == steps;
    Queues.OutputsSnoc(cfg, steps + [step]);
  }

  lemma {:induction false} EnterStands<T>(cfg: Config, w: Queues.World<T>, p: Pumps.Pump<T>, i: nat, now: int)
    requires StandsFor(w, p) && i < |p.threads| && p.threads[i].Entering? && Pumps.MutexFree(p)
    ensures var (w1, o1) := Queues.Next(cfg, w, Queues.Begin(i, p.threads[i].msg, p.threads[i].ttl, now));
            var (w2, o2) := Queues.Next(cfg, w1, Queues.Lock(i));
            && StandsFor(w2, Pumps.AdvanceThread(cfg, p, i, now))
            && o1.Silent? && !o2.Gave? && Took(o2) == Taken(cfg, p, Pumps.Advance(i, now))
  {}

  lemma {:induction false} WakeStands<T>(cfg: Config, w: Queues.World<T>, p: Pumps.Pump<T>, i: nat, now: int)
    requires StandsFor(w, p) && i < |p.threads| && p.threads[i].Blocked?
    ensures var (w', o) := Queues.Next(cfg, w, Queues.Wake(i));
            && StandsFor(w', Pumps.AdvanceThread(cfg, p, i, now))
            && !o.Gave? && Took(o) == Taken(cfg, p, Pumps.Advance(i, now))
  {}

  /** A thread that is not blocked moves to where it is not blocked, with a new queue on both sides. */
  lemma {:induction false} MoveStands<T>(w: Queues.World<T>, p: Pumps.Pump<T>, p': Pumps.Pump<T>, i: nat, q: State<T>)
    requires StandsFor(w, p) && i < |p.threads| == |p'.threads| && p'.q == q && !q.closed
    requires !p.threads[i].Blocked? && !p'.threads[i].Blocked?
    requires forall j :: 0 <= j < |p.threads| && j != i ==> p'.threads[j] == p.threads[j]
    ensures StandsFor(w.(q := q), p')
  {}

  lemma {:induction false} TakeStands<T>(cfg: Config, w: Queues.World<T>, p: Pumps.Pump<T>, i: nat, now: int)
    requires StandsFor(w, p) && i < |p.threads| && (p.threads[i].KickTake? || p.threads[i].CallbackTake?)
    ensures var (w', o) := Queues.Next(cfg, w, Queues.Consume(now));
            && StandsFor(w', Pumps.AdvanceThread(cfg, p, i, now))
            && o.Gave? && Written(p, Pumps.Advance(i, now)) == Gave(o) && Taken(cfg, p, Pumps.Advance(i, now)) == []
  {
    MoveStands(w, p, Pumps.AdvanceThread(cfg, p, i, now), i, Dequeue(p.q, now).0);
  }

  lemma {:induction false} OtherStands<T>(cfg: Config, w: Queues.World<T>, p: Pumps.Pump<T>, step: Pumps.Step<T>)
    requires StandsFor(w, p) && QueueSteps(p, step) == []
    ensures StandsFor(w, Pumps.Next(cfg, p, step)) && Written(p, step) == [] && Taken(cfg, p, step) == []
  {
    if step.Advance? && step.thread < |p.threads| {
      IdleStands(cfg, w, p, step.thread, step.now);
    } else if !step.Advance? {
      OutsideStands(cfg, w, p, step);
    }
  }

  lemma {:induction false} IdleStands<T>(cfg: Config, w: Queues.World<T>, p: Pumps.Pump<T>, i: nat, now: int)
    requires StandsFor(w, p) && i < |p.threads| && QueueSteps(p, Pumps.Advance(i, now)) == []
    ensures StandsFor(w, Pumps.AdvanceThread(cfg, p, i, now))
  {
    if !p.threads[i].Entering? {
      MoveStands(w, p, Pumps.AdvanceThread(cfg, p, i, now), i, p.q);
    }
  }

  lemma {:induction false} OutsideStands<T>(cfg: Config, w: Queues.World<T>, p: Pumps.Pump<T>, step: Pumps.Step<T>)
    requires StandsFor(w, p) && (step.Call? || step.WriteDone? || step.Cancel?)
    ensures StandsFor(w, Pumps.Next(cfg, p, step))
  {
    var p' := Pumps.Next(cfg, p, step);
    if step.Call? && p.active {
      GrowStands(w, p, p', Pumps.Entering(step.msg, step.ttl));
    } else if step.WriteDone? && p'.threads != p.threads {
      GrowStands(w, p, p', Pumps.Callback);
    }
  }

  lemma {:induction false} GrowStands<T>(w: Queues.World<T>, p: Pumps.Pump<T>, p': Pumps.Pump<T>, pc: Pumps.Pc<T>)
    requires StandsFor(w, p) && p'.q == p.q && p'.threads == p.threads + [pc] && !pc.Blocked?
    ensures StandsFor(w, p')
  {}

  /** Pump and queue run agree after the pump step and its queue steps. */
  ghost predicate Agree<T>(
      cfg: Config, qsteps: seq<Queues.Step<T>>, more: seq<Queues.Step<T>>, p: Pumps.Pump<T>, step: Pumps.Step<T>)
  {
    var (o, o') := (Queues.Outputs(cfg, qsteps), Queues.Outputs(cfg, qsteps + more));
    && StandsFor(Queues.Run(cfg, qsteps + more), Pumps.Next(cfg, p, step))
    && Queues.DeliveredIn(o') == Queues.DeliveredIn(o) + Written(p, step)
    && Queues.AcceptedIn(o') == Queues.AcceptedIn(o) + Taken(cfg, p, step)
  }

  lemma {:induction false} OneAgrees<T>(
      cfg: Config, qsteps: seq<Queues.Step<T>>, q: Queues.Step<T>, p: Pumps.Pump<T>, step: Pumps.Step<T>)
    requires var (w', o) := Queues.Next(cfg, Queues.Run(cfg, qsteps), q);
             && StandsFor(w', Pumps.Next(cfg, p, step))
             && Written(p, step) == Gave(o) && Taken(cfg, p, step) == Took(o)
    ensures Agree(cfg, qsteps, [q], p, step)
  {
    RunOne(cfg, qsteps, q);
  }

  lemma {:induction false} EnterAgrees<T>(
      cfg: Config, qsteps: seq<Queues.Step<T>>, p: Pumps.Pump<T>, i: nat, now: int)
    requires StandsFor(Queues.Run(cfg, qsteps), p)
    requires i < |p.threads| && p.threads[i].Entering? && Pumps.MutexFree(p)
    ensures Agree(cfg, qsteps, QueueSteps(p, Pumps.Advance(i, now)), p, Pumps.Advance(i, now))
  {
    var begin, lock := Queues.Begin(i, p.threads[i].msg, p.threads[i].ttl, now), Queues.Lock(i);
    EnterStands(cfg, Queues.Run(cfg, qsteps), p, i, now);
    RunOne(cfg, qsteps, begin);
    RunOne(cfg, qsteps + [begin], lock);
    assert qsteps + [begin, lock] == qsteps + [begin] + [lock];
  }

  /** One pump step, and the queue steps it amounts to, on both sides. */
  lemma {:induction false} StepStands<T>(
      cfg: Config, qsteps: seq<Queues.Step<T>>, p: Pumps.Pump<T>, step: Pumps.Step<T>)
    requires StandsFor(Queues.Run(cfg, qsteps), p)
    ensures Agree(cfg, qsteps, QueueSteps(p, step), p, step)
  {
    var (w, more) := (Queues.Run(cfg, qsteps), QueueSteps(p, step));
    if more == [] {
      assert qsteps + [] == qsteps;
      OtherStands(cfg, w, p, step);
    } else if step.Reap? {
      OneAgrees(cfg, qsteps, Queues.Reap(step.now), p, step);
    } else if p.threads[step.thread].Entering? {
      EnterAgrees(cfg, qsteps, p, step.thread, step.now);
    } else if p.threads[step.thread].Blocked? {
      WakeStands(cfg, w, p, step.thread, step.now);
      OneAgrees(cfg, qsteps, Queues.Wake(step.thread), p, step);
    } else {
      TakeStands(cfg, w, p, step.thread, step.now);
      OneAgrees(cfg, qsteps, Queues.Consume(step.now), p, step);
    }
  }

  /**
   A stream's own steps are, as far as its queue is concerned, the queue steps they amount to:
   the same contents and counters, the entries its calls put in are what that run accepts, and
   what it writes is what that run gives out.
   */
  lemma {:induction false} PumpIsQueueRun<T>(cfg: Config, steps: seq<Pumps.Step<T>>)
    ensures var (qsteps, o) := (QueueStepsIn(cfg, steps), Queues.Outputs(cfg, QueueStepsIn(cfg, steps)));
            && StandsFor(Queues.Run(cfg, qsteps), Pumps.Run(cfg, Pumps.Fresh(0, false), steps))
            && Queues.AcceptedIn(o) == TakenIn(cfg, steps)
            && Queues.DeliveredIn(o) == WrittenIn(cfg, steps)
    decreases |steps|
  {
    if steps != [] {
      var before := steps[..|steps| - 1];
      PumpIsQueueRun(cfg, before);
      StepStands(cfg, QueueStepsIn(cfg, before), Pumps.Run(cfg, Pumps.Fresh(0, false), before), steps[|steps| - 1]);
    }
  }

  /**
   In every interleaving of a stream from idle, the entries its own calls put into the queue are
   a removed prefix, each delivered, overwritten or timed out by a step that justifies it, and
   then the present contents; and the messages the stream writes are exactly the delivered ones:
   in the order they were put in, each once, and one at a time.
   */
  lemma {:induction false} WritesInOrder<T>(cfg: Config, steps: seq<Pumps.Step<T>>)
    returns (fates: seq<Queues.Fate>, at: seq<nat>)
    ensures var p := Pumps.Run(cfg, Pumps.Fresh(0, false), steps);
            && p.outstanding <= 1
            && Queues.Explains(TakenIn(cfg, steps), WrittenIn(cfg, steps), p.q, fates)
            && Queues.Justified(cfg, QueueStepsIn(cfg, steps), TakenIn(cfg, steps), fates, at)
  {
    PumpIsQueueRun(cfg, steps);
    fates, at := Queues.RunRefinesLog(cfg, QueueStepsIn(cfg, steps));
    Pumps.PumpFromIdle(cfg, steps);
  }
}
