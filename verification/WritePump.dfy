/**
 The protocol that drives one subscriber stream: any number of enqueueMessage threads, the
 completion callback of the write in flight, the background reaper and cancellation, all
 interleaved at the granularity of the write mutex and the atomic `writing` flag.

 Reactor lifetimes and gRPC itself are not modelled: StartWrite raises the number of
 outstanding writes, and a completion may follow at any later point.
 */
module WritePump {
  import opened Options
  import opened SubscriberQueue

  datatype Pc<+T> =
    | Entering(msg: T, ttl: int)   // enqueueMessage, before its first critical section
    | Blocked(entry: Entry<T>)     // waiting for space inside that section, write mutex held
    | Announce                     // enqueued; about to exchange the writing flag
    | Kick                         // won the exchange; before the second critical section
    | KickTake                     // saw a non-empty queue; mutex held
    | KickClear                    // saw an empty queue; mutex held
    | Callback                     // OnWriteDone, before its critical section
    | CallbackTake                 // saw a non-empty queue; mutex held
    | CallbackClear                // nothing to send; mutex held
    | Done

  datatype Pump<T> = Pump(
    q: State<T>, writing: bool, active: bool, outstanding: nat, finished: bool, threads: seq<Pc<T>>)

  datatype Step<+T> =
    | Call(msg: T, ttl: int)
    | Advance(thread: nat, now: int)
    | WriteDone(ok: bool)
    | Reap(now: int)
    | Cancel

  predicate Holds<T>(pc: Pc<T>) {
    pc.Blocked? || pc.KickTake? || pc.KickClear? || pc.CallbackTake? || pc.CallbackClear?
  }

  /** Threads that own the right to write which a raised `writing` flag stands for. */
  predicate Owns<T>(pc: Pc<T>) {
    pc.Kick? || pc.KickTake? || pc.KickClear? || pc.Callback? || pc.CallbackTake? || pc.CallbackClear?
  }

  predicate MutexFree<T>(p: Pump<T>) {
    forall i :: 0 <= i < |p.threads| ==> !Holds(p.threads[i])
  }

  function Goto<T>(p: Pump<T>, i: nat, pc: Pc<T>): Pump<T>
    requires i < |p.threads|
  {
    p.(threads := p.threads[i := pc])
  }

  /** A dequeue that finds a live message starts a write; otherwise control goes to `none`. */
  function TakeAndWrite<T>(p: Pump<T>, i: nat, now: int, none: Pc<T>): Pump<T>
    requires i < |p.threads|
  {
    var (q', m) := Dequeue(p.q, now);
    if m.Some? then Goto(p.(q := q', outstanding := p.outstanding + 1), i, Done)
    else Goto(p.(q := q'), i, none)
  }

  /** Thread i runs to its next scheduling point. */
  function AdvanceThread<T>(cfg: Config, p: Pump<T>, i: nat, now: int): Pump<T>
    requires i < |p.threads|
  {
    match p.threads[i]
    case Entering(msg, ttl) =>
      if !MutexFree(p) then p
      else
        var e := Stamp(cfg, msg, ttl, now);
        var (q', verdict) := EnqueueLocked(cfg, p.q, e);
        Goto(p.(q := q'), i, if verdict == Accepted then Announce else if verdict == Rejected then Done else Blocked(e))
    case Blocked(e) => Goto(p.(q := EnqueueAfterWait(cfg, p.q, e)), i, Announce)
    case Announce => Goto(p.(writing := true), i, if p.writing then Done else Kick)
    case Kick => if !MutexFree(p) then p else Goto(p, i, if p.q.messages != [] then KickTake else KickClear)
    case KickTake => TakeAndWrite(p, i, now, Done)
    case KickClear => Goto(p.(writing := false), i, Done)
    case Callback => if !MutexFree(p) then p else Goto(p, i, if p.q.messages != [] then CallbackTake else CallbackClear)
    case CallbackTake => TakeAndWrite(p, i, now, CallbackClear)
    case CallbackClear => Goto(p.(writing := false), i, Done)
    case Done => p
  }

  function Next<T>(cfg: Config, p: Pump<T>, step: Step<T>): Pump<T> {
    match step
    case Call(msg, ttl) => if p.active then p.(threads := p.threads + [Entering(msg, ttl)]) else p
    case Advance(i, now) => if i < |p.threads| then AdvanceThread(cfg, p, i, now) else p
    case WriteDone(ok) =>
      if p.outstanding == 0 then p
      else if !ok || !p.active then p.(outstanding := p.outstanding - 1, finished := true)
      else p.(outstanding := p.outstanding - 1, threads := p.threads + [Callback])
    case Reap(now) => p.(q := SkipExpired(p.q, now))
    case Cancel => p.(active := false)
  }

  function Run<T>(cfg: Config, p: Pump<T>, steps: seq<Step<T>>): Pump<T>
    decreases |steps|
  {
    if steps == [] then p
    else Next(cfg, Run(cfg, p, steps[..|steps| - 1]), steps[|steps| - 1])
  }

  /** A stream with no thread in it. The reactor's constructor leaves (1, false). */
  function Fresh<T>(outstanding: nat, writing: bool): Pump<T> {
    Pump(Empty(), writing, true, outstanding, false, [])
  }

  /**
   How a call's first critical section ends. On a full queue that drops the newest the call is
   over and the contents stay; on a full blocking queue it waits; otherwise its message is in,
   in place of the oldest if the queue was full, and it goes on to start the writing.
   */
  lemma {:induction false} EnteringOutcome<T>(cfg: Config, p: Pump<T>, i: nat, now: int)
    requires i < |p.threads| && p.threads[i].Entering? && MutexFree(p)
    ensures var p' := Next(cfg, p, Advance(i, now));
            var (full, pc) := (cfg.limit > 0 && |p.q.messages| >= cfg.limit, p'.threads[i]);
            && (pc == Done <==> full && cfg.policy == DropNewest)
            && (pc.Blocked? <==> full && cfg.policy == Block)
            && (pc == Announce <==> !full || cfg.policy == DropOldest)
            && (pc != Announce ==> p'.q.messages == p.q.messages)
            && (pc == Announce ==>
                  p'.q.messages == (if full then p.q.messages[1..] else p.q.messages)
                                   + [Stamp(cfg, p.threads[i].msg, p.threads[i].ttl, now)])
            && p'.outstanding == p.outstanding && p'.writing == p.writing
            && forall j :: 0 <= j < |p.threads| && j != i ==> p'.threads[j] == p.threads[j]
  {
    assert cfg.limit > 0 && |p.q.messages| >= cfg.limit ==> p.q.messages != [];
  }

  // ---------------------------------------------------------------------------
  // One write at a time
  // ---------------------------------------------------------------------------

  ghost predicate OneHolder<T>(p: Pump<T>) {
    forall i, j :: 0 <= i < |p.threads| && 0 <= j < |p.threads| && Holds(p.threads[i]) && Holds(p.threads[j]) ==> i == j
  }

  ghost predicate OneOwner<T>(p: Pump<T>) {
    && p.outstanding <= 1
    && (p.outstanding == 1 ==> p.writing)
    && (forall i :: 0 <= i < |p.threads| && Owns(p.threads[i]) ==> p.writing && p.outstanding == 0)
    && (forall i, j :: 0 <= i < |p.threads| && 0 <= j < |p.threads| && Owns(p.threads[i]) && Owns(p.threads[j])
         ==> i == j)
  }

  ghost predicate Sane<T>(p: Pump<T>) {
    && OneHolder(p)
    && OneOwner(p)
    && !p.q.closed
    && (forall i :: 0 <= i < |p.threads| && (p.threads[i].KickClear? || p.threads[i].CallbackClear?)
         ==> p.q.messages == [])
  }

  /** What a move of one thread must respect to keep the mutex and the right to write exclusive. */
  lemma {:induction false} MoveSane<T>(p: Pump<T>, i: nat, p': Pump<T>)
    requires Sane(p) && i < |p.threads| == |p'.threads|
    requires forall j :: 0 <= j < |p.threads| && j != i ==> p'.threads[j] == p.threads[j]
    requires !p'.q.closed
    requires p'.q.messages != [] ==> p.q.messages != [] || MutexFree(p) || Holds(p.threads[i])
    requires p'.threads[i].KickClear? || p'.threads[i].CallbackClear? ==> p'.q.messages == []
    requires Holds(p'.threads[i]) ==> Holds(p.threads[i]) || MutexFree(p)
    requires Owns(p'.threads[i]) ==> p'.writing && p'.outstanding == 0 && (Owns(p.threads[i]) || !p.writing)
    requires p'.outstanding == p.outstanding || (p'.outstanding == 1 && p'.writing && Owns(p.threads[i])
        && !Owns(p'.threads[i]))
    requires p.writing ==> p'.writing || (Owns(p.threads[i]) && !Owns(p'.threads[i]))
    ensures Sane(p')
  {}

  lemma {:induction false} EnqueueSane<T>(cfg: Config, p: Pump<T>, i: nat, now: int)
    requires Sane(p) && i < |p.threads| && (p.threads[i].Entering? || p.threads[i].Blocked?)
    ensures Sane(AdvanceThread(cfg, p, i, now))
  {
    if Holds(p.threads[i]) || MutexFree(p) {
      MoveSane(p, i, AdvanceThread(cfg, p, i, now));
    }
  }

  lemma {:induction false} FlagSane<T>(cfg: Config, p: Pump<T>, i: nat, now: int)
    requires Sane(p) && i < |p.threads| && (p.threads[i].Announce? || p.threads[i].KickClear?
        || p.threads[i].CallbackClear?)
    ensures Sane(AdvanceThread(cfg, p, i, now))
  {}

  lemma {:induction false} CheckSane<T>(cfg: Config, p: Pump<T>, i: nat, now: int)
    requires Sane(p) && i < |p.threads| && (p.threads[i].Kick? || p.threads[i].Callback?)
    ensures Sane(AdvanceThread(cfg, p, i, now))
  {}

  lemma {:induction false} TakeSane<T>(cfg: Config, p: Pump<T>, i: nat, now: int)
    requires Sane(p) && i < |p.threads| && (p.threads[i].KickTake? || p.threads[i].CallbackTake?)
    ensures Sane(AdvanceThread(cfg, p, i, now))
  {
    MoveSane(p, i, AdvanceThread(cfg, p, i, now));
  }

  lemma {:induction false} AdvanceSane<T>(cfg: Config, p: Pump<T>, i: nat, now: int)
    requires Sane(p) && i < |p.threads|
    ensures Sane(AdvanceThread(cfg, p, i, now))
  {
    match p.threads[i]
    case Entering(_, _) => EnqueueSane(cfg, p, i, now);
    case Blocked(_) => EnqueueSane(cfg, p, i, now);
    case Announce => FlagSane(cfg, p, i, now);
    case KickClear => FlagSane(cfg, p, i, now);
    case CallbackClear => FlagSane(cfg, p, i, now);
    case Kick => CheckSane(cfg, p, i, now);
    case Callback => CheckSane(cfg, p, i, now);
    case KickTake => TakeSane(cfg, p, i, now);
    case CallbackTake => TakeSane(cfg, p, i, now);
    case Done =>
  }

  lemma {:induction false} CallSane<T>(cfg: Config, p: Pump<T>, step: Step<T>)
    requires Sane(p) && step.Call?
    ensures Sane(Next(cfg, p, step))
  {}

  lemma {:induction false} WriteDoneSane<T>(cfg: Config, p: Pump<T>, step: Step<T>)
    requires Sane(p) && step.WriteDone?
    ensures Sane(Next(cfg, p, step))
  {}

  lemma {:induction false} StepSane<T>(cfg: Config, p: Pump<T>, step: Step<T>)
    requires Sane(p)
    ensures Sane(Next(cfg, p, step))
  {
    match step
    case Advance(i, now) =>
      if i < |p.threads| {
        AdvanceSane(cfg, p, i, now);
      }
    case Call(_, _) => CallSane(cfg, p, step);
    case WriteDone(_) => WriteDoneSane(cfg, p, step);
    case Reap(_) =>
    case Cancel =>
  }

  lemma {:induction false} RunSane<T>(cfg: Config, p: Pump<T>, steps: seq<Step<T>>)
    requires Sane(p)
    ensures Sane(Run(cfg, p, steps))
    decreases |steps|
  {
    if steps != [] {
      RunSane(cfg, p, steps[..|steps| - 1]);
      StepSane(cfg, Run(cfg, p, steps[..|steps| - 1]), steps[|steps| - 1]);
    }
  }

  ghost predicate AtMostOneWrite(cfg: Config, outstanding: nat, writing: bool) {
    forall steps: seq<Step<int>> :: Run(cfg, Fresh(outstanding, writing), steps).outstanding <= 1
  }

  lemma {:induction false} RunSnoc<T>(cfg: Config, p: Pump<T>, steps: seq<Step<T>>, step: Step<T>)
    ensures Run(cfg, p, steps + [step]) == Next(cfg, Run(cfg, p, steps), step)
  {}

  /** The four steps of a lone enqueueMessage on an empty queue, whatever is in flight. */
  lemma {:induction false} LoneCall(cfg: Config, n: nat)
    ensures var e := Stamp(cfg, 7, 0, 0);
            var at := (writing: bool, pc: Pc<int>) => Pump(Append(Empty(), e), writing, true, n, false, [pc]);
            && Next(cfg, Pump(Empty(), false, true, n, false, [Entering(7, 0)]), Advance(0, 0)) == at(false, Announce)
            && Next(cfg, at(false, Announce), Advance(0, 0)) == at(true, Kick)
            && Next(cfg, at(true, Kick), Advance(0, 0)) == at(true, KickTake)
            && Next(cfg, at(true, KickTake), Advance(0, 0)).outstanding == n + 1
  {}

  /** From a stream with one write in flight and the flag down, one ordinary call starts a second write. */
  lemma {:induction false} SecondWrite(cfg: Config) returns (steps: seq<Step<int>>)
    ensures Run(cfg, Fresh(1, false), steps).outstanding == 2
  {
    var p0: Pump<int> := Fresh(1, false);
    LoneCall(cfg, 1);
    steps := [] + [Call(7, 0)];
    RunSnoc(cfg, p0, [], Call(7, 0));
    assert Run(cfg, p0, steps) == Pump(Empty(), false, true, 1, false, [Entering(7, 0)]);
    for k := 0 to 4
      invariant Run(cfg, p0, steps) == Iterated(cfg, k)
    {
      RunSnoc(cfg, p0, steps, Advance(0, 0));
      steps := steps + [Advance(0, 0)];
    }
    assert Iterated(cfg, 4) == Next(cfg, Iterated(cfg, 3), Advance(0, 0));
    assert Iterated(cfg, 3) == Next(cfg, Iterated(cfg, 2), Advance(0, 0));
    assert Iterated(cfg, 2) == Next(cfg, Iterated(cfg, 1), Advance(0, 0));
    assert Iterated(cfg, 1) == Next(cfg, Iterated(cfg, 0), Advance(0, 0));
  }

  function Iterated(cfg: Config, k: nat): Pump<int>
    decreases k
  {
    if k == 0 then Pump(Empty(), false, true, 1, false, [Entering(7, 0)])
    else Next(cfg, Iterated(cfg, k - 1), Advance(0, 0))
  }

  /**
   No run of a stream ever has two writes outstanding, exactly when the stream starts either
   with no write in flight or with one that the flag stands for. The constructor's first
   write, issued with the flag down, is the failing case.
   */
  lemma {:induction false} AtMostOneWriteIff(cfg: Config, outstanding: nat, writing: bool)
    ensures AtMostOneWrite(cfg, outstanding, writing) <==> outstanding == 0 || (outstanding == 1 && writing)
  {
    var p: Pump<int> := Fresh(outstanding, writing);
    if outstanding == 0 || (outstanding == 1 && writing) {
      forall steps: seq<Step<int>> ensures Run(cfg, p, steps).outstanding <= 1 {
        RunSane(cfg, p, steps);
      }
    } else if outstanding == 1 {
      var steps := SecondWrite(cfg);
    } else {
      assert Run(cfg, p, []).outstanding > 1;
    }
  }

  // ---------------------------------------------------------------------------
  // Nothing is stranded
  // ---------------------------------------------------------------------------

  /** The flag is up, but no write is in flight and no thread will lower it or write. */
  ghost predicate Stuck<T>(p: Pump<T>) {
    && p.writing && p.outstanding == 0 && !p.finished
    && forall i :: 0 <= i < |p.threads| ==> !Owns(p.threads[i])
  }

  /** The step in which enqueueMessage, holding the right to write, dequeues and gets nothing. */
  ghost predicate EmptyKick<T>(p: Pump<T>, step: Step<T>) {
    && step.Advance? && step.thread < |p.threads| && p.threads[step.thread].KickTake?
    && Dequeue(p.q, step.now).1.None?
  }

  ghost predicate HadEmptyKick<T>(cfg: Config, p: Pump<T>, steps: seq<Step<T>>)
    decreases |steps|
  {
    steps != [] &&
    (HadEmptyKick(cfg, p, steps[..|steps| - 1]) || EmptyKick(Run(cfg, p, steps[..|steps| - 1]), steps[|steps| - 1]))
  }

  ghost predicate Announced<T>(p: Pump<T>) {
    p.q.messages != [] ==> p.writing || exists i :: 0 <= i < |p.threads| && p.threads[i].Announce?
  }

  ghost predicate FinishedForGood<T>(p: Pump<T>) {
    p.finished ==> p.writing && p.outstanding == 0 && forall i :: 0 <= i < |p.threads| ==> !Owns(p.threads[i])
  }

  lemma {:induction false} AdvanceAnnounced<T>(cfg: Config, p: Pump<T>, i: nat, now: int)
    requires Sane(p) && Announced(p) && i < |p.threads|
    ensures Announced(AdvanceThread(cfg, p, i, now))
  {
    var p' := AdvanceThread(cfg, p, i, now);
    if p'.q.messages != [] && !p'.writing && !p'.threads[i].Announce? {
      assert p.q.messages != [] && !p.writing && !p.threads[i].Announce?;
      var k :| 0 <= k < |p.threads| && p.threads[k].Announce?;
      assert p'.threads[k].Announce?;
    }
  }

  lemma {:induction false} StepAnnounced<T>(cfg: Config, p: Pump<T>, step: Step<T>)
    requires Sane(p) && Announced(p)
    ensures Announced(Next(cfg, p, step))
  {
    var p' := Next(cfg, p, step);
    if step.Advance? {
      if step.thread < |p.threads| {
        AdvanceAnnounced(cfg, p, step.thread, step.now);
      }
    } else if p'.q.messages != [] && !p'.writing {
      var i :| 0 <= i < |p.threads| && p.threads[i].Announce?;
      assert p'.threads[i].Announce?;
    }
  }

  lemma {:induction false} StepFinished<T>(cfg: Config, p: Pump<T>, step: Step<T>)
    requires Sane(p) && FinishedForGood(p)
    ensures FinishedForGood(Next(cfg, p, step))
  {}

  /** Once stuck, always stuck: no continuation starts a write again. */
  lemma {:induction false} StuckStays<T>(cfg: Config, p: Pump<T>, step: Step<T>)
    requires Stuck(p)
    ensures Stuck(Next(cfg, p, step))
  {}

  lemma {:induction false} EmptyKickSticks<T>(cfg: Config, p: Pump<T>, step: Step<T>)
    requires Sane(p) && FinishedForGood(p) && EmptyKick(p, step)
    ensures Stuck(Next(cfg, p, step))
  {}

  lemma {:induction false} AdvanceFree<T>(cfg: Config, p: Pump<T>, i: nat, now: int)
    requires Sane(p) && !Stuck(p) && i < |p.threads| && !EmptyKick(p, Advance(i, now))
    ensures !Stuck(AdvanceThread(cfg, p, i, now))
  {
    var p' := AdvanceThread(cfg, p, i, now);
    if p'.writing && p'.outstanding == 0 && !p'.finished && !Owns(p'.threads[i]) {
      assert p.outstanding == 0 && !p.finished;
      if p.writing {
        var k :| 0 <= k < |p.threads| && Owns(p.threads[k]);
        assert Owns(p'.threads[k]);
      }
    }
  }

  lemma {:induction false} StepFree<T>(cfg: Config, p: Pump<T>, step: Step<T>)
    requires Sane(p) && FinishedForGood(p) && !Stuck(p) && !EmptyKick(p, step)
    ensures !Stuck(Next(cfg, p, step))
  {
    var p' := Next(cfg, p, step);
    if step.Advance? {
      if step.thread < |p.threads| {
        AdvanceFree(cfg, p, step.thread, step.now);
      }
    } else if step.WriteDone? {
      if p.outstanding > 0 && step.ok && p.active {
        assert Owns(p'.threads[|p.threads|]);
      }
    } else if p.writing && p.outstanding == 0 && !p.finished {
      var k :| 0 <= k < |p.threads| && Owns(p.threads[k]);
      assert Owns(p'.threads[k]);
    }
  }

  ghost predicate Quiet<T>(p: Pump<T>) {
    forall i :: 0 <= i < |p.threads| ==> p.threads[i].Done?
  }

  /**
   From idle, in every interleaving: at most one write is outstanding; the stream is stuck
   exactly when some enqueueMessage dequeued nothing while it held the right to write; and
   unless it is stuck or the stream ended, a queue with messages and no thread mid-call
   always has its write in flight.
   */
  lemma {:induction false} PumpFromIdle<T>(cfg: Config, steps: seq<Step<T>>)
    ensures var p := Run(cfg, Fresh(0, false), steps);
            && Sane(p) && FinishedForGood(p) && Announced(p)
            && (Stuck(p) <==> HadEmptyKick(cfg, Fresh(0, false), steps))
            && (Quiet(p) && p.q.messages != [] ==> p.outstanding == 1 || p.finished || Stuck(p))
    decreases |steps|
  {
    if steps != [] {
      var before, step := steps[..|steps| - 1], steps[|steps| - 1];
      var p: Pump<T> := Run(cfg, Fresh(0, false), before);
      PumpFromIdle(cfg, before);
      StepSane(cfg, p, step);
      StepFinished(cfg, p, step);
      StepAnnounced(cfg, p, step);
      if Stuck(p) {
        StuckStays(cfg, p, step);
      } else if EmptyKick(p, step) {
        EmptyKickSticks(cfg, p, step);
      } else {
        StepFree(cfg, p, step);
      }
    }
  }

  // ---------------------------------------------------------------------------
  // Messages that never expire
  // ---------------------------------------------------------------------------

  ghost predicate Undying<T>(e: Entry<T>) {
    e.expiry.Never?
  }

  ghost predicate ThreadNoTtl<T>(cfg: Config, q: State<T>, pc: Pc<T>) {
    match pc
    case Entering(_, ttl) => ttl <= 0
    case Blocked(e) => Undying(e) && Full(cfg, q)
    case KickTake => q.messages != []
    case _ => true
  }

  ghost predicate AllUndying<T>(q: State<T>) {
    forall k :: 0 <= k < |q.messages| ==> Undying(q.messages[k])
  }

  /** No TTL anywhere, and what follows for threads inside the write mutex. */
  ghost predicate NoTtl<T>(cfg: Config, p: Pump<T>) {
    && cfg.defaultTtl <= 0
    && AllUndying(p.q)
    && forall i :: 0 <= i < |p.threads| ==> ThreadNoTtl(cfg, p.q, p.threads[i])
  }

  ghost predicate NoTtlStep<T>(step: Step<T>) {
    step.Call? ==> step.ttl <= 0
  }

  lemma {:induction false} EnqueueNoTtl<T>(cfg: Config, p: Pump<T>, i: nat, now: int)
    requires Sane(p) && NoTtl(cfg, p) && i < |p.threads| && (p.threads[i].Entering? || p.threads[i].Blocked?)
    ensures NoTtl(cfg, AdvanceThread(cfg, p, i, now))
  {}

  lemma {:induction false} TakeNoTtl<T>(cfg: Config, p: Pump<T>, i: nat, now: int)
    requires Sane(p) && NoTtl(cfg, p) && i < |p.threads| && (p.threads[i].KickTake? || p.threads[i].CallbackTake?)
    ensures NoTtl(cfg, AdvanceThread(cfg, p, i, now))
  {}

  lemma {:induction false} FlagNoTtl<T>(cfg: Config, p: Pump<T>, i: nat, now: int)
    requires Sane(p) && NoTtl(cfg, p) && i < |p.threads|
    requires var pc := p.threads[i]; !pc.Entering? && !pc.Blocked? && !pc.KickTake? && !pc.CallbackTake?
    ensures NoTtl(cfg, AdvanceThread(cfg, p, i, now))
  {}

  lemma {:induction false} AdvanceNoTtl<T>(cfg: Config, p: Pump<T>, i: nat, now: int)
    requires Sane(p) && NoTtl(cfg, p) && i < |p.threads|
    ensures NoTtl(cfg, AdvanceThread(cfg, p, i, now))
  {
    if p.threads[i].Entering? || p.threads[i].Blocked? {
      EnqueueNoTtl(cfg, p, i, now);
    } else if p.threads[i].KickTake? || p.threads[i].CallbackTake? {
      TakeNoTtl(cfg, p, i, now);
    } else {
      FlagNoTtl(cfg, p, i, now);
    }
  }

  lemma {:induction false} EnvironmentNoTtl<T>(cfg: Config, p: Pump<T>, step: Step<T>)
    requires NoTtl(cfg, p) && NoTtlStep(step) && !step.Advance? && !step.Reap?
    ensures NoTtl(cfg, Next(cfg, p, step))
  {}

  lemma {:induction false} ReapNoTtl<T>(cfg: Config, p: Pump<T>, now: int)
    requires NoTtl(cfg, p)
    ensures NoTtl(cfg, Next(cfg, p, Reap(now)))
  {}

  lemma {:induction false} StepNoTtl<T>(cfg: Config, p: Pump<T>, step: Step<T>)
    requires Sane(p) && NoTtl(cfg, p) && NoTtlStep(step)
    ensures NoTtl(cfg, Next(cfg, p, step))
  {
    if step.Advance? {
      if step.thread < |p.threads| {
        AdvanceNoTtl(cfg, p, step.thread, step.now);
      }
    } else if step.Reap? {
      ReapNoTtl(cfg, p, step.now);
    } else {
      EnvironmentNoTtl(cfg, p, step);
    }
  }

  lemma {:induction false} NoEmptyKick<T>(cfg: Config, p: Pump<T>, step: Step<T>)
    requires NoTtl(cfg, p)
    ensures !EmptyKick(p, step)
  {}

  ghost predicate NoTtlRun<T>(steps: seq<Step<T>>) {
    forall i :: 0 <= i < |steps| ==> NoTtlStep(steps[i])
  }

  lemma {:induction false} RunNoTtl<T>(cfg: Config, steps: seq<Step<T>>)
    requires cfg.defaultTtl <= 0 && NoTtlRun(steps)
    ensures NoTtl(cfg, Run(cfg, Fresh(0, false), steps))
    ensures !HadEmptyKick(cfg, Fresh(0, false), steps)
    decreases |steps|
  {
    if steps != [] {
      var before, step := steps[..|steps| - 1], steps[|steps| - 1];
      var p: Pump<T> := Run(cfg, Fresh(0, false), before);
      RunNoTtl(cfg, before);
      RunSane(cfg, Fresh(0, false), before);
      StepNoTtl(cfg, p, step);
      NoEmptyKick(cfg, p, step);
    }
  }

  /** With no TTL nothing is ever stranded: messages waiting with no thread mid-call have a write in flight. */
  lemma {:induction false} NothingStranded<T>(cfg: Config, steps: seq<Step<T>>)
    requires cfg.defaultTtl <= 0 && NoTtlRun(steps)
    ensures var p := Run(cfg, Fresh(0, false), steps);
            Quiet(p) && p.q.messages != [] && !p.finished ==> p.outstanding == 1
  {
    PumpFromIdle(cfg, steps);
    RunNoTtl(cfg, steps);
  }

  /** A lone call whose message expires between the kick's check and its dequeue, step by step. */
  lemma {:induction false} ExpiringCall(cfg: Config, ttl: int, life: int)
    requires life > 0 && life == if ttl > 0 then ttl else cfg.defaultTtl
    ensures var e := Stamp(cfg, 7, ttl, 0);
            var at := (writing: bool, pc: Pc<int>) => Pump(Append(Empty(), e), writing, true, 0, false, [pc]);
            && Next(cfg, Fresh(0, false), Call(7, ttl)) == Pump(Empty(), false, true, 0, false, [Entering(7, ttl)])
            && Next(cfg, Pump(Empty(), false, true, 0, false, [Entering(7, ttl)]), Advance(0, 0)) == at(false, Announce)
            && Next(cfg, at(false, Announce), Advance(0, 0)) == at(true, Kick)
            && Next(cfg, at(true, Kick), Advance(0, 0)) == at(true, KickTake)
            && Stuck(Next(cfg, at(true, KickTake), Advance(0, life)))
  {}

  /** A run of one call that leaves the stream stuck, for every configuration and every lifetime. */
  lemma {:induction false} StuckRun(cfg: Config, ttl: int, life: int) returns (steps: seq<Step<int>>)
    requires life > 0 && life == if ttl > 0 then ttl else cfg.defaultTtl
    ensures steps == [Call(7, ttl), Advance(0, 0), Advance(0, 0), Advance(0, 0), Advance(0, life)]
    ensures Stuck(Run(cfg, Fresh(0, false), steps))
  {
    var p0: Pump<int>, c: Step<int>, a: Step<int> := Fresh(0, false), Call(7, ttl), Advance(0, 0);
    ExpiringCall(cfg, ttl, life);
    steps := [c, a, a, a, Advance(0, life)];
    RunSnoc(cfg, p0, [], c);
    RunSnoc(cfg, p0, [c], a);
    RunSnoc(cfg, p0, [c, a], a);
    RunSnoc(cfg, p0, [c, a, a], a);
    RunSnoc(cfg, p0, [c, a, a, a], Advance(0, life));
    assert [] + [c] == [c] && [c] + [a] == [c, a] && [c, a] + [a] == [c, a, a];
    assert [c, a, a] + [a] == [c, a, a, a] && [c, a, a, a] + [Advance(0, life)] == steps;
  }

  /** No stream of publishers without a TTL ever gets stuck, exactly when there is no default TTL either. */
  lemma {:induction false} NeverStuckIff(cfg: Config)
    ensures (forall steps: seq<Step<int>> :: NoTtlRun(steps) ==> !Stuck(Run(cfg, Fresh(0, false), steps)))
       <==> cfg.defaultTtl <= 0
  {
    if cfg.defaultTtl <= 0 {
      forall steps: seq<Step<int>> | NoTtlRun(steps) ensures !Stuck(Run(cfg, Fresh(0, false), steps)) {
        PumpFromIdle(cfg, steps);
        RunNoTtl(cfg, steps);
      }
    } else {
      var steps := StuckRun(cfg, 0, cfg.defaultTtl);
      assert NoTtlRun(steps);
    }
  }

  /**
   A producer that blocks inside enqueueMessage waits with the write mutex held, so no
   consumer can run: without TTL, whenever its wait ends there is still no space, and it
   falls back to dropping the oldest message.
   */
  lemma {:induction false} BlockedNeverGetsSpace<T>(cfg: Config, steps: seq<Step<T>>, i: nat)
    requires cfg.defaultTtl <= 0 && NoTtlRun(steps)
    ensures var p := Run(cfg, Fresh(0, false), steps);
            i < |p.threads| && p.threads[i].Blocked? ==>
              && !SpaceOrClosed(cfg, p.q) && p.q.messages != []
              && forall now :: var q' := AdvanceThread(cfg, p, i, now).q;
                   && q'.stats.blockTimeouts == p.q.stats.blockTimeouts + 1
                   && q'.messages == p.q.messages[1..] + [p.threads[i].entry]
  {
    var p: Pump<T> := Run(cfg, Fresh(0, false), steps);
    RunNoTtl(cfg, steps);
    RunSane(cfg, Fresh(0, false), steps);
    if i < |p.threads| && p.threads[i].Blocked? {
      assert ThreadNoTtl(cfg, p.q, p.threads[i]);
    }
  }

  /**
   While it waits, every thread that could consume is kept out: only its own step, or the reaper,
   touches the queue.
   */
  lemma {:induction false} BlockedKeepsConsumersOut<T>(cfg: Config, steps: seq<Step<T>>, i: nat, step: Step<T>)
    requires var p := Run(cfg, Fresh(0, false), steps); i < |p.threads| && p.threads[i].Blocked?
    ensures var p := Run(cfg, Fresh(0, false), steps);
            step.Reap? || (step.Advance? && step.thread == i) || Next(cfg, p, step).q == p.q
  {
    var p: Pump<T> := Run(cfg, Fresh(0, false), steps);
    RunSane(cfg, Fresh(0, false), steps);
    assert Holds(p.threads[i]);
    if step.Advance? && step.thread < |p.threads| && step.thread != i {
      assert !Holds(p.threads[step.thread]);
    }
  }
}
