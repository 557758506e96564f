/**
 What cancelling a stream does to its calls and completions, over every run from idle.
 */
module Cancellation {
  import opened SubscriberQueue
  import opened WritePump
  import opened PumpQueue

  ghost predicate Cancelled<T>(steps: seq<Step<T>>) {
    exists i :: 0 <= i < |steps| && steps[i].Cancel?
  }

  function After<T>(cfg: Config, steps: seq<Step<T>>): Pump<T> {
    Run(cfg, Fresh(0, false), steps)
  }

  lemma {:induction false} AdvanceKeepsCount<T>(cfg: Config, p: Pump<T>, i: nat, now: int)
    requires i < |p.threads|
    ensures var p' := AdvanceThread(cfg, p, i, now);
            |p'.threads| == |p.threads| && p'.active == p.active && p'.finished == p.finished
    ensures p.threads[i].Done? ==> AdvanceThread(cfg, p, i, now) == p
  {}

  lemma {:induction false} CancelledSnoc<T>(steps: seq<Step<T>>)
    requires steps != []
    ensures Cancelled(steps) <==> Cancelled(steps[..|steps| - 1]) || steps[|steps| - 1].Cancel?
  {
    var before := steps[..|steps| - 1];
    forall i | 0 <= i < |before| ensures before[i] == steps[i] {}
    if steps[|steps| - 1].Cancel? {
      assert Cancelled(steps);
    } else if Cancelled(steps) {
      var i :| 0 <= i < |steps| && steps[i].Cancel?;
      assert before[i].Cancel?;
    }
  }

  /** A stream is active until it is cancelled, and never again. */
  lemma {:induction false} ActiveIff<T>(cfg: Config, steps: seq<Step<T>>)
    ensures After(cfg, steps).active <==> !Cancelled(steps)
    decreases |steps|
  {
    if steps != [] {
      ActiveIff(cfg, steps[..|steps| - 1]);
      CancelledSnoc(steps);
    }
  }

  /** A call gets into the stream if and only if it was not cancelled before. */
  lemma {:induction false} CallEntersIff<T>(cfg: Config, steps: seq<Step<T>>, msg: T, ttl: int)
    ensures var (p, p') := (After(cfg, steps), After(cfg, steps + [Call(msg, ttl)]));
            if Cancelled(steps) then p' == p else p' == p.(threads := p.threads + [Entering(msg, ttl)])
  {
    ActiveIff(cfg, steps);
    RunSnoc(cfg, Fresh(0, false), steps, Call(msg, ttl));
  }

  /**
   A completion goes on to the next message, in a callback of its own, if and only if the write
   succeeded and the stream was not cancelled before; otherwise it finishes the stream, and
   starts nothing.
   */
  lemma {:induction false} CompletionGoesOnIff<T>(cfg: Config, steps: seq<Step<T>>, ok: bool)
    requires After(cfg, steps).outstanding > 0
    ensures var (p, p') := (After(cfg, steps), After(cfg, steps + [WriteDone(ok)]));
            && p'.q == p.q && p'.outstanding == p.outstanding - 1
            && if ok && !Cancelled(steps) then p'.threads == p.threads + [Callback] && p'.finished == p.finished
               else p'.threads == p.threads && p'.finished
  {
    ActiveIff(cfg, steps);
    RunSnoc(cfg, Fresh(0, false), steps, WriteDone(ok));
  }

  /** Once cancelled, a stream starts no thread: neither a call nor a completion gets one. */
  lemma {:induction false} NoThreadAfterCancel<T>(cfg: Config, steps: seq<Step<T>>, c: nat)
    requires c < |steps| && steps[c].Cancel?
    ensures |After(cfg, steps).threads| == |After(cfg, steps[..c]).threads|
    decreases |steps|
  {
    var (before, last) := (steps[..|steps| - 1], steps[|steps| - 1]);
    if c < |before| {
      assert before[..c] == steps[..c];
      NoThreadAfterCancel(cfg, before, c);
      assert before[c].Cancel?;
      ActiveIff(cfg, before);
      if last.Advance? && last.thread < |After(cfg, before).threads| {
        AdvanceKeepsCount(cfg, After(cfg, before), last.thread, last.now);
      }
    }
  }

  lemma {:induction false} QuietStep<T>(cfg: Config, p: Pump<T>, step: Step<T>)
    requires Quiet(p) && !p.active
    ensures Next(cfg, p, step).threads == p.threads && !Next(cfg, p, step).active && Written(p, step) == []
  {
    if step.Advance? && step.thread < |p.threads| {
      AdvanceKeepsCount(cfg, p, step.thread, step.now);
    }
  }

  /** A stream cancelled while no call is inside never writes again, whatever completes or is called afterwards. */
  lemma {:induction false} CancelledWritesNothing<T>(cfg: Config, steps: seq<Step<T>>, c: nat)
    requires c < |steps| && steps[c].Cancel? && Quiet(After(cfg, steps[..c]))
    ensures WrittenIn(cfg, steps) == WrittenIn(cfg, steps[..c])
    ensures Quiet(After(cfg, steps)) && !After(cfg, steps).active
    decreases |steps|
  {
    var (before, last) := (steps[..|steps| - 1], steps[|steps| - 1]);
    if c < |before| {
      assert before[..c] == steps[..c];
      CancelledWritesNothing(cfg, before, c);
      QuietStep(cfg, After(cfg, before), last);
    } else {
      assert before == steps[..c];
    }
  }

  /** And its first completion finishes it. */
  lemma {:induction false} CancelledFinishes<T>(cfg: Config, steps: seq<Step<T>>, ok: bool)
    requires Cancelled(steps) && After(cfg, steps).outstanding > 0
    ensures var p' := After(cfg, steps + [WriteDone(ok)]);
            p'.finished && p'.outstanding == 0 && p'.threads == After(cfg, steps).threads
  {
    CompletionGoesOnIff(cfg, steps, ok);
    PumpFromIdle(cfg, steps);
  }
}
