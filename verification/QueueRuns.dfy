/**
 Whole runs of one subscriber queue: any number of producers, each between its unlocked
 prologue and its locked section or parked in a wait, interleaved with the consumer, the
 background reaper and close. A step that is not enabled leaves the world as it is.
 */
module QueueRuns {
  import opened Options
  import opened SubscriberQueue

  /** Where a producer stands: past the closed check, or waiting for space. */
  datatype Producer<+T> = Admitted(entry: Entry<T>) | Waiting(entry: Entry<T>)

  datatype World<T> = World(q: State<T>, producers: map<nat, Producer<T>>)

  datatype Step<+T> =
    | Begin(id: nat, msg: T, ttl: int, time: int)
    | Lock(id: nat)
    | Wake(id: nat)          // notified, timed out or spurious: the predicate is read again
    | Consume(now: int)
    | Reap(now: int)
    | Shut

  /** What a step shows to the outside. */
  datatype Output<+T> = Silent | Took(entry: Entry<T>) | Refused | Gave(result: Option<T>)

  function Next<T>(cfg: Config, w: World<T>, step: Step<T>): (World<T>, Output<T>) {
    match step
    case Begin(id, msg, ttl, time) =>
      if w.q.closed || id in w.producers then (w, Silent)
      else (w.(producers := w.producers[id := Admitted(Stamp(cfg, msg, ttl, time))]), Silent)
    case Lock(id) =>
      if id !in w.producers || !w.producers[id].Admitted? then (w, Silent)
      else
        var e := w.producers[id].entry;
        var (q', verdict) := EnqueueLocked(cfg, w.q, e);
        (match verdict
         case Accepted => (World(q', w.producers - {id}), Took(e))
         case Rejected => (World(q', w.producers - {id}), Refused)
         case Parked => (World(q', w.producers[id := Waiting(e)]), Silent))
    case Wake(id) =>
      if id !in w.producers || !w.producers[id].Waiting? then (w, Silent)
      else
        var e := w.producers[id].entry;
        (World(EnqueueAfterWait(cfg, w.q, e), w.producers - {id}), Took(e))
    case Consume(now) =>
      var (q', m) := Dequeue(w.q, now);
      (w.(q := q'), Gave(m))
    case Reap(now) => (w.(q := SkipExpired(w.q, now)), Silent)
    case Shut => (w.(q := Close(w.q)), Silent)
  }

  function Run<T>(cfg: Config, steps: seq<Step<T>>): World<T>
    decreases |steps|
  {
    if steps == [] then World(Empty(), map[])
    else Next(cfg, Run(cfg, steps[..|steps| - 1]), steps[|steps| - 1]).0
  }

  /** The outputs of a run, in order. */
  function Outputs<T>(cfg: Config, steps: seq<Step<T>>): (o: seq<Output<T>>)
    ensures |o| == |steps|
    decreases |steps|
  {
    if steps == [] then []
    else Outputs(cfg, steps[..|steps| - 1]) + [Next(cfg, Run(cfg, steps[..|steps| - 1]), steps[|steps| - 1]).1]
  }

  /** Everything the queue ever accepted. */
  function AcceptedIn<T>(o: seq<Output<T>>): seq<Entry<T>>
    decreases |o|
  {
    if o == [] then []
    else
      var last := o[|o| - 1];
      AcceptedIn(o[..|o| - 1]) + (if last.Took? then [last.entry] else [])
  }

  /** The messages handed to the consumer. */
  function DeliveredIn<T>(o: seq<Output<T>>): seq<T>
    decreases |o|
  {
    if o == [] then []
    else
      var last := o[|o| - 1];
      DeliveredIn(o[..|o| - 1]) + (if last.Gave? && last.result.Some? then [last.result.value] else [])
  }

  /** The result of every dequeue, empty ones included. */
  function ResultsIn<T>(o: seq<Output<T>>): seq<Option<T>>
    decreases |o|
  {
    if o == [] then []
    else
      var last := o[|o| - 1];
      ResultsIn(o[..|o| - 1]) + (if last.Gave? then [last.result] else [])
  }

  /** Enqueue calls that ran to their end on an open queue. */
  function CompletedIn<T>(o: seq<Output<T>>): nat
    decreases |o|
  {
    if o == [] then 0
    else
      var last := o[|o| - 1];
      CompletedIn(o[..|o| - 1]) + (if last.Took? || last.Refused? then 1 else 0)
  }

  lemma {:induction false} OutputsSnoc<T>(cfg: Config, steps: seq<Step<T>>)
    requires steps != []
    ensures var o := Outputs(cfg, steps);
            && o[..|o| - 1] == Outputs(cfg, steps[..|steps| - 1])
            && o[|o| - 1] == Next(cfg, Run(cfg, steps[..|steps| - 1]), steps[|steps| - 1]).1
  {}

  // ---------------------------------------------------------------------------
  // Refinement: a prefix is gone, each element for one reason; the rest is the queue
  // ---------------------------------------------------------------------------

  datatype Fate = Delivered | Overwritten | TimedOut

  function Count(fates: seq<Fate>, f: Fate): nat
    decreases |fates|
  {
    if fates == [] then 0
    else Count(fates[..|fates| - 1], f) + (if fates[|fates| - 1] == f then 1 else 0)
  }

  /** The messages of the entries whose fate is Delivered. */
  function Pick<T>(entries: seq<Entry<T>>, fates: seq<Fate>): seq<T>
    requires |fates| <= |entries|
    decreases |fates|
  {
    if fates == [] then []
    else
      var i := |fates| - 1;
      Pick(entries, fates[..i]) + (if fates[i] == Delivered then [entries[i].message] else [])
  }

  ghost predicate Explains<T>(accepted: seq<Entry<T>>, delivered: seq<T>, s: State<T>, fates: seq<Fate>) {
    && |fates| + |s.messages| == |accepted|
    && accepted[|fates|..] == s.messages
    && delivered == Pick(accepted, fates)
    && s.stats.enqueued == |accepted|
    && s.stats.delivered == Count(fates, Delivered)
    && s.stats.droppedOldest == Count(fates, Overwritten)
    && s.stats.droppedTtl == Count(fates, TimedOut)
  }

  /**
   What justifies an entry's fate in the world and step that removed it. Delivered: a dequeue
   before its time gave it out. Timed out: a dequeue or a reap came at or after its time.
   Overwritten: it was the oldest, and a producer met a full queue that drops the oldest, or
   woke without space or to a closed queue.
   */
  ghost predicate Due<T>(cfg: Config, w: World<T>, step: Step<T>, e: Entry<T>, fate: Fate) {
    && e in w.q.messages
    && match fate
       case Delivered =>
         step.Consume? && !(e.expiry.At? && e.expiry.time <= step.now) && Next(cfg, w, step).1 == Gave(Some(e.message))
       case TimedOut => (step.Consume? || step.Reap?) && e.expiry.At? && e.expiry.time <= step.now
       case Overwritten =>
         && e == w.q.messages[0] && Next(cfg, w, step).1.Took?
         && ((step.Lock? && cfg.policy == DropOldest && 0 < cfg.limit <= |w.q.messages|)
             || (step.Wake? && (w.q.closed || cfg.limit <= |w.q.messages|)))
  }

  /** Fate i was decided by step at[i], and fates were decided in order. */
  ghost predicate Justified<T>(
      cfg: Config, steps: seq<Step<T>>, accepted: seq<Entry<T>>, fates: seq<Fate>, at: seq<nat>)
  {
    && |at| == |fates| <= |accepted|
    && (forall i, j :: 0 <= i < j < |at| ==> at[i] <= at[j])
    && (forall i :: 0 <= i < |at| ==>
           at[i] < |steps| && Due(cfg, Run(cfg, steps[..at[i]]), steps[at[i]], accepted[i], fates[i]))
  }

  lemma {:induction false} PickPrefix<T>(entries: seq<Entry<T>>, more: seq<Entry<T>>, fates: seq<Fate>)
    requires |fates| <= |entries|
    ensures Pick(entries + more, fates) == Pick(entries, fates)
    decreases |fates|
  {
    if fates != [] {
      PickPrefix(entries, more, fates[..|fates| - 1]);
    }
  }

  lemma {:induction false} ExplainAppend<T>(
      accepted: seq<Entry<T>>, delivered: seq<T>, s: State<T>, fates: seq<Fate>, e: Entry<T>)
    requires Explains(accepted, delivered, s, fates)
    ensures Explains(accepted + [e], delivered, Append(s, e), fates)
  {
    PickPrefix(accepted, [e], fates);
    assert (accepted + [e])[|fates|..] == accepted[|fates|..] + [e];
  }

  lemma {:induction false} ExplainPop<T>(accepted: seq<Entry<T>>, delivered: seq<T>, s: State<T>, fates: seq<Fate>,
                                         s': State<T>, f: Fate)
    requires Explains(accepted, delivered, s, fates) && s.messages != []
    requires s'.messages == s.messages[1..]
    requires s'.stats.enqueued == s.stats.enqueued
    requires s'.stats.delivered == s.stats.delivered + (if f == Delivered then 1 else 0)
    requires s'.stats.droppedOldest == s.stats.droppedOldest + (if f == Overwritten then 1 else 0)
    requires s'.stats.droppedTtl == s.stats.droppedTtl + (if f == TimedOut then 1 else 0)
    ensures Explains(accepted, delivered + (if f == Delivered then [s.messages[0].message] else []), s', fates + [f])
  {}

  lemma {:induction false} SkipOne<T>(s: State<T>, now: int)
    requires s.messages != [] && Expired(s.messages[0], now)
    ensures SkipExpired(s, now)
         == SkipExpired(s.(messages := s.messages[1..], stats := s.stats.(droppedTtl := s.stats.droppedTtl + 1)), now)
  {}

  /** Accepted entries without a fate are in the queue. */
  lemma {:induction false} StillQueued<T>(accepted: seq<Entry<T>>, delivered: seq<T>, s: State<T>, fates: seq<Fate>)
    requires Explains(accepted, delivered, s, fates)
    ensures forall i :: |fates| <= i < |accepted| ==> accepted[i] in s.messages
  {
    forall i | |fates| <= i < |accepted| ensures accepted[i] in s.messages {
      assert s.messages[i - |fates|] == accepted[i];
    }
  }

  lemma {:induction false} ExplainSkip<T>(
      accepted: seq<Entry<T>>, delivered: seq<T>, s: State<T>, fates: seq<Fate>, now: int)
    returns (fates': seq<Fate>)
    requires Explains(accepted, delivered, s, fates)
    ensures Explains(accepted, delivered, SkipExpired(s, now), fates')
    ensures fates <= fates'
    ensures forall i :: |fates| <= i < |fates'| ==>
              fates'[i] == TimedOut && accepted[i].expiry.At? && accepted[i].expiry.time <= now
    decreases |s.messages|
  {
    if s.messages == [] || !Expired(s.messages[0], now) {
      fates' := fates;
      assert s.messages[0..] == s.messages;
    } else {
      var s' := s.(messages := s.messages[1..], stats := s.stats.(droppedTtl := s.stats.droppedTtl + 1));
      ExplainPop(accepted, delivered, s, fates, s', TimedOut);
      assert delivered + [] == delivered;
      fates' := ExplainSkip(accepted, delivered, s', fates + [TimedOut], now);
      SkipOne(s, now);
    }
  }

  /**
   Extending the run and the accepted entries leaves old fates justified, and new ones are justified
   by the last step.
   */
  lemma {:induction false} JustifiedMore<T>(
      cfg: Config, steps: seq<Step<T>>, accepted: seq<Entry<T>>, more: seq<Entry<T>>,
      fates: seq<Fate>, fates': seq<Fate>, at: seq<nat>) returns (at': seq<nat>)
    requires steps != [] && Justified(cfg, steps[..|steps| - 1], accepted, fates, at)
    requires fates <= fates' && |fates'| <= |accepted|
    requires forall i :: |fates| <= i < |fates'| ==>
               Due(cfg, Run(cfg, steps[..|steps| - 1]), steps[|steps| - 1], accepted[i], fates'[i])
    ensures Justified(cfg, steps, accepted + more, fates', at')
  {
    at' := at + seq(|fates'| - |fates|, i => |steps| - 1);
    var before := steps[..|steps| - 1];
    forall i | 0 <= i < |at'|
      ensures at'[i] < |steps| && Due(cfg, Run(cfg, steps[..at'[i]]), steps[at'[i]], (accepted + more)[i], fates'[i])
    {
      if i < |at| {
        assert before[..at[i]] == steps[..at[i]] && fates'[i] == fates[i];
      }
    }
  }

  /**
   In every run, what the queue accepted is a removed prefix, each element of which was
   delivered, overwritten as the oldest or timed out, by a step that justifies it, followed by
   exactly the present contents; the delivered ones are what the consumer got, in order, and
   the counters count the three fates.
   */
  lemma {:induction false} RunRefinesLog<T>(cfg: Config, steps: seq<Step<T>>) returns (fates: seq<Fate>, at: seq<nat>)
    ensures var o := Outputs(cfg, steps);
            && Explains(AcceptedIn(o), DeliveredIn(o), Run(cfg, steps).q, fates)
            && Justified(cfg, steps, AcceptedIn(o), fates, at)
    decreases |steps|
  {
    if steps == [] {
      fates, at := [], [];
    } else {
      var before, step := steps[..|steps| - 1], steps[|steps| - 1];
      OutputsSnoc(cfg, steps);
      var (accepted, out) := (AcceptedIn(Outputs(cfg, before)), Next(cfg, Run(cfg, before), step).1);
      var fates0, at0 := RunRefinesLog(cfg, before);
      fates := StepRefinesLog(cfg, Run(cfg, before), step, accepted, DeliveredIn(Outputs(cfg, before)), fates0);
      at := JustifiedMore(cfg, steps, accepted, if out.Took? then [out.entry] else [], fates0, fates, at0);
    }
  }

  lemma {:induction false} StepRefinesLog<T>(cfg: Config, w: World<T>, step: Step<T>,
                                             accepted: seq<Entry<T>>, delivered: seq<T>, fates: seq<Fate>)
    returns (fates': seq<Fate>)
    requires Explains(accepted, delivered, w.q, fates)
    ensures var (w', out) := Next(cfg, w, step);
            Explains(accepted + (if out.Took? then [out.entry] else []),
                     delivered + (if out.Gave? && out.result.Some? then [out.result.value] else []), w'.q, fates')
    ensures fates <= fates' && |fates'| <= |accepted|
    ensures forall i :: |fates| <= i < |fates'| ==> Due(cfg, w, step, accepted[i], fates'[i])
  {
    var (w', out) := Next(cfg, w, step);
    fates' := fates;
    assert accepted + [] == accepted && delivered + [] == delivered;
    match step
    case Begin(_, _, _, _) =>
    case Shut =>
    case Reap(now) =>
      StillQueued(accepted, delivered, w.q, fates);
      fates' := ExplainSkip(accepted, delivered, w.q, fates, now);
    case Consume(now) =>
      fates' := ConsumeRefinesLog(cfg, w, now, accepted, delivered, fates);
    case Lock(id) =>
      if out.Took? {
        fates' := PushRefinesLog(w.q, Full(cfg, w.q), out.entry, accepted, delivered, fates);
      }
    case Wake(id) =>
      if out.Took? {
        fates' := WakeRefinesLog(cfg, w, id, accepted, delivered, fates);
      }
  }

  lemma {:induction false} WakeRefinesLog<T>(cfg: Config, w: World<T>, id: nat,
                                             accepted: seq<Entry<T>>, delivered: seq<T>, fates: seq<Fate>)
    returns (fates': seq<Fate>)
    requires Explains(accepted, delivered, w.q, fates) && id in w.producers && w.producers[id].Waiting?
    ensures Explains(accepted + [w.producers[id].entry], delivered,
        EnqueueAfterWait(cfg, w.q, w.producers[id].entry), fates')
    ensures fates <= fates' && |fates'| <= |accepted|
    ensures forall i :: |fates| <= i < |fates'| ==> Due(cfg, w, Wake(id), accepted[i], fates'[i])
  {
    var e := w.producers[id].entry;
    if !SpaceOrClosed(cfg, w.q) || w.q.closed {
      var s := w.q.(stats := w.q.stats.(blockTimeouts := w.q.stats.blockTimeouts + 1));
      fates' := PushRefinesLog(s, true, e, accepted, delivered, fates);
    } else {
      fates' := PushRefinesLog(w.q, false, e, accepted, delivered, fates);
    }
  }

  lemma {:induction false} ConsumeRefinesLog<T>(cfg: Config, w: World<T>, now: int,
                                                accepted: seq<Entry<T>>, delivered: seq<T>, fates: seq<Fate>)
    returns (fates': seq<Fate>)
    requires Explains(accepted, delivered, w.q, fates)
    ensures var (q', m) := Dequeue(w.q, now);
            Explains(accepted, delivered + (if m.Some? then [m.value] else []), q', fates')
    ensures fates <= fates' && |fates'| <= |accepted|
    ensures forall i :: |fates| <= i < |fates'| ==> Due(cfg, w, Consume(now), accepted[i], fates'[i])
  {
    assert delivered + [] == delivered;
    StillQueued(accepted, delivered, w.q, fates);
    fates' := ExplainSkip(accepted, delivered, w.q, fates, now);
    var s := SkipExpired(w.q, now);
    if s.messages != [] {
      HeadDue(cfg, w, now);
      assert accepted[|fates'|] == s.messages[0];
      ExplainPop(accepted, delivered, s, fates', Dequeue(w.q, now).0, Delivered);
      fates' := fates' + [Delivered];
    }
  }

  lemma {:induction false} HeadDue<T>(cfg: Config, w: World<T>, now: int)
    requires SkipExpired(w.q, now).messages != []
    ensures Due(cfg, w, Consume(now), SkipExpired(w.q, now).messages[0], Delivered)
  {
    var n := ExpiredPrefix(w.q.messages, now);
    assert SkipExpired(w.q, now).messages[0] == w.q.messages[n];
  }

  lemma {:induction false} PushRefinesLog<T>(s: State<T>, drop: bool, e: Entry<T>,
                                             accepted: seq<Entry<T>>, delivered: seq<T>, fates: seq<Fate>)
    returns (fates': seq<Fate>)
    requires Explains(accepted, delivered, s, fates)
    ensures Explains(accepted + [e], delivered, Append(if drop then DropFront(s) else s, e), fates')
    ensures if drop && s.messages != [] then fates' == fates + [Overwritten] && accepted[|fates|] == s.messages[0]
        else fates' == fates
  {
    fates' := fates;
    if drop && s.messages != [] {
      ExplainPop(accepted, delivered, s, fates, DropFront(s), Overwritten);
      assert delivered + [] == delivered;
      fates' := fates + [Overwritten];
    }
    ExplainAppend(accepted, delivered, if drop then DropFront(s) else s, fates', e);
  }

  lemma {:induction false} CountsPartition(fates: seq<Fate>)
    ensures Count(fates, Delivered) + Count(fates, Overwritten) + Count(fates, TimedOut) == |fates|
    decreases |fates|
  {
    if fates != [] {
      CountsPartition(fates[..|fates| - 1]);
    }
  }

  /** Nothing is lost unaccounted: total_enqueued = depth + delivered + dropped_oldest + dropped_ttl. */
  lemma {:induction false} Conservation<T>(cfg: Config, steps: seq<Step<T>>)
    ensures var s := Run(cfg, steps).q;
            s.stats.enqueued == |s.messages| + s.stats.delivered + s.stats.droppedOldest + s.stats.droppedTtl
  {
    var fates, at := RunRefinesLog(cfg, steps);
    CountsPartition(fates);
  }

  /** Completed calls are counted by enqueued + dropped_newest. */
  lemma {:induction false} CompletedCalls<T>(cfg: Config, steps: seq<Step<T>>)
    ensures var s := Run(cfg, steps).q.stats;
            CompletedIn(Outputs(cfg, steps)) == s.enqueued + s.droppedNewest
    decreases |steps|
  {
    if steps != [] {
      OutputsSnoc(cfg, steps);
      CompletedCalls(cfg, steps[..|steps| - 1]);
      StepCompletes(cfg, Run(cfg, steps[..|steps| - 1]), steps[|steps| - 1]);
    }
  }

  lemma {:induction false} StepCompletes<T>(cfg: Config, w: World<T>, step: Step<T>)
    ensures var (w', out) := Next(cfg, w, step);
            w'.q.stats.enqueued + w'.q.stats.droppedNewest
            == w.q.stats.enqueued + w.q.stats.droppedNewest + (if out.Took? || out.Refused? then 1 else 0)
  {}

  /** Step j is a call on an open queue, for this message, and the entry carries its time of expiry. */
  ghost predicate CalledAt<T>(cfg: Config, steps: seq<Step<T>>, j: nat, e: Entry<T>) {
    && j < |steps| && steps[j].Begin? && !Run(cfg, steps[..j]).q.closed
    && e.message == steps[j].msg && e.enqueuedAt == steps[j].time
    && e.expiry == if steps[j].ttl > 0 then At(steps[j].time + steps[j].ttl)
                   else if cfg.defaultTtl > 0 then At(steps[j].time + cfg.defaultTtl)
                   else Never
  }

  ghost predicate Called<T>(cfg: Config, steps: seq<Step<T>>, e: Entry<T>) {
    exists j :: CalledAt(cfg, steps, j, e)
  }

  lemma {:induction false} CalledStays<T>(cfg: Config, steps: seq<Step<T>>, step: Step<T>, e: Entry<T>)
    requires Called(cfg, steps, e)
    ensures Called(cfg, steps + [step], e)
  {
    var j: nat :| CalledAt(cfg, steps, j, e);
    assert (steps + [step])[..j] == steps[..j];
    assert CalledAt(cfg, steps + [step], j, e);
  }

  lemma {:induction false} CalledNow<T>(cfg: Config, steps: seq<Step<T>>, msg: T, ttl: int, time: int, id: nat)
    requires !Run(cfg, steps).q.closed
    ensures Called(cfg, steps + [Begin(id, msg, ttl, time)], Stamp(cfg, msg, ttl, time))
  {
    var all := steps + [Begin(id, msg, ttl, time)];
    assert all[..|steps|] == steps;
    assert CalledAt(cfg, all, |steps|, Stamp(cfg, msg, ttl, time));
  }

  /** Who is inside the queue's code, or just got a message in, came with an entry that had been there before. */
  lemma {:induction false} OldEntries<T>(cfg: Config, w: World<T>, step: Step<T>, id: nat)
    ensures var (w', out) := Next(cfg, w, step);
            && (id in w'.producers && !(step.Begin? && step.id == id && id !in w.producers) ==>
                  id in w.producers && w'.producers[id].entry == w.producers[id].entry)
            && (out.Took? ==> exists x :: x in w.producers && w.producers[x].entry == out.entry)
  {}

  lemma {:induction false} ProducersCalled<T>(cfg: Config, steps: seq<Step<T>>, id: nat)
    requires id in Run(cfg, steps).producers
    ensures Called(cfg, steps, Run(cfg, steps).producers[id].entry)
    decreases |steps|
  {
    var (before, step) := (steps[..|steps| - 1], steps[|steps| - 1]);
    assert before + [step] == steps;
    var w := Run(cfg, before);
    OldEntries(cfg, w, step, id);
    if step.Begin? && step.id == id && id !in w.producers {
      CalledNow(cfg, before, step.msg, step.ttl, step.time, id);
    } else {
      ProducersCalled(cfg, before, id);
      CalledStays(cfg, before, step, w.producers[id].entry);
    }
  }

  /** In every run, whatever the queue accepted is the message of a call on the open queue, stamped with its expiry. */
  lemma {:induction false} AcceptedAsCalled<T>(cfg: Config, steps: seq<Step<T>>, i: nat)
    requires i < |AcceptedIn(Outputs(cfg, steps))|
    ensures Called(cfg, steps, AcceptedIn(Outputs(cfg, steps))[i])
    decreases |steps|
  {
    var (before, step) := (steps[..|steps| - 1], steps[|steps| - 1]);
    assert before + [step] == steps;
    OutputsSnoc(cfg, steps);
    var (w, accepted) := (Run(cfg, before), AcceptedIn(Outputs(cfg, before)));
    if i < |accepted| {
      AcceptedAsCalled(cfg, before, i);
      CalledStays(cfg, before, step, accepted[i]);
    } else {
      var out := Next(cfg, w, step).1;
      OldEntries(cfg, w, step, 0);
      var x :| x in w.producers && w.producers[x].entry == out.entry;
      ProducersCalled(cfg, before, x);
      CalledStays(cfg, before, step, out.entry);
    }
  }

  ghost predicate Bounded<T>(cfg: Config, s: State<T>) {
    && |s.messages| <= s.stats.highWatermark
    && (cfg.limit > 0 ==> s.stats.highWatermark <= cfg.limit)
  }

  lemma {:induction false} StepBounded<T>(cfg: Config, w: World<T>, step: Step<T>)
    requires Bounded(cfg, w.q)
    ensures Bounded(cfg, Next(cfg, w, step).0.q)
  {}

  /** Under every interleaving, the depth stays within the watermark and the watermark within the limit. */
  lemma {:induction false} DepthBounded<T>(cfg: Config, steps: seq<Step<T>>)
    ensures Bounded(cfg, Run(cfg, steps).q)
    decreases |steps|
  {
    if steps != [] {
      DepthBounded(cfg, steps[..|steps| - 1]);
      StepBounded(cfg, Run(cfg, steps[..|steps| - 1]), steps[|steps| - 1]);
    }
  }

  function DepthAt<T>(cfg: Config, steps: seq<Step<T>>, j: nat): nat
    requires j <= |steps|
  {
    |Run(cfg, steps[..j]).q.messages|
  }

  /** A step moves the watermark only to a new depth above it. */
  lemma {:induction false} StepPeak<T>(cfg: Config, w: World<T>, step: Step<T>)
    requires |w.q.messages| <= w.q.stats.highWatermark
    ensures var (q, q') := (w.q, Next(cfg, w, step).0.q);
            q'.stats.highWatermark
            == if |q'.messages| > q.stats.highWatermark then |q'.messages| else q.stats.highWatermark
  {}

  /** In every run the watermark is the largest depth the queue ever had: none exceeds it, and `peak` attains it. */
  lemma {:induction false} WatermarkIsPeak<T>(cfg: Config, steps: seq<Step<T>>) returns (peak: nat)
    ensures forall j: nat :: j <= |steps| ==> DepthAt(cfg, steps, j) <= Run(cfg, steps).q.stats.highWatermark
    ensures peak <= |steps| && DepthAt(cfg, steps, peak) == Run(cfg, steps).q.stats.highWatermark
    decreases |steps|
  {
    assert steps[..|steps|] == steps;
    if steps == [] {
      peak := 0;
    } else {
      var before := steps[..|steps| - 1];
      peak := WatermarkIsPeak(cfg, before);
      DepthBounded(cfg, before);
      StepPeak(cfg, Run(cfg, before), steps[|steps| - 1]);
      forall j: nat | j < |steps| ensures DepthAt(cfg, steps, j) == DepthAt(cfg, before, j) {
        assert steps[..j] == before[..j];
      }
      if Run(cfg, before).q.stats.highWatermark < DepthAt(cfg, steps, |steps|) {
        peak := |steps|;
      }
    }
  }

  /** When the drop counters move: at most one of them, by one, on exactly these steps. */
  lemma {:induction false} DropsExactly<T>(cfg: Config, w: World<T>, step: Step<T>)
    ensures var (s, s') := (w.q.stats, Next(cfg, w, step).0.q.stats);
            var full := cfg.limit > 0 && |w.q.messages| >= cfg.limit;
            var locks := step.Lock? && step.id in w.producers && w.producers[step.id].Admitted? && full;
            var wakes := step.Wake? && step.id in w.producers && w.producers[step.id].Waiting?
                         && (w.q.closed || |w.q.messages| >= cfg.limit);
            && s'.droppedNewest == s.droppedNewest + (if locks && cfg.policy == DropNewest then 1 else 0)
            && s'.blockTimeouts == s.blockTimeouts + (if wakes then 1 else 0)
            && s'.droppedOldest == s.droppedOldest
                 + (if (locks && cfg.policy == DropOldest) || (wakes && w.q.messages != []) then 1 else 0)
  {}

  // ---------------------------------------------------------------------------
  // The background reaper and what the consumer sees
  // ---------------------------------------------------------------------------

  predicate Timed<T>(step: Step<T>) {
    step.Consume? || step.Reap?
  }

  /** The clock that consumers and the reaper read never goes back. */
  ghost predicate Monotone<T>(steps: seq<Step<T>>) {
    forall i, j :: 0 <= i < j < |steps| && Timed(steps[i]) && Timed(steps[j]) ==> steps[i].now <= steps[j].now
  }

  function WithoutReaps<T>(steps: seq<Step<T>>): (r: seq<Step<T>>)
    ensures forall i :: 0 <= i < |r| ==> !r[i].Reap? && r[i] in steps
    decreases |steps|
  {
    if steps == [] then []
    else
      var last := steps[|steps| - 1];
      WithoutReaps(steps[..|steps| - 1]) + (if last.Reap? then [] else [last])
  }

  function Results<T>(cfg: Config, steps: seq<Step<T>>): seq<Option<T>> {
    ResultsIn(Outputs(cfg, steps))
  }

  ghost predicate ExpiredBy<T>(e: Entry<T>, steps: seq<Step<T>>) {
    exists j :: 0 <= j < |steps| && Timed(steps[j]) && Expired(e, steps[j].now)
  }

  /**
   How an unreaped world lags a reaped one: it holds the same entries behind a surplus of
   ones that expired by some step already taken.
   */
  ghost predicate Lags<T>(reaped: World<T>, lazy: World<T>, steps: seq<Step<T>>) {
    && reaped.producers == lazy.producers
    && reaped.q.closed == lazy.q.closed
    && |reaped.q.messages| <= |lazy.q.messages|
    && var k := |lazy.q.messages| - |reaped.q.messages|;
       && lazy.q.messages[k..] == reaped.q.messages
       && forall i :: 0 <= i < k ==> ExpiredBy(lazy.q.messages[i], steps)
  }

  ghost predicate ReaperHarmless(cfg: Config) {
    cfg.limit == 0 || cfg.policy == DropOldest
  }

  lemma {:induction false} LagGrows<T>(reaped: World<T>, lazy: World<T>, steps: seq<Step<T>>, step: Step<T>)
    requires Lags(reaped, lazy, steps)
    ensures Lags(reaped, lazy, steps + [step])
  {
    var k := |lazy.q.messages| - |reaped.q.messages|;
    forall i | 0 <= i < k ensures ExpiredBy(lazy.q.messages[i], steps + [step]) {
      assert ExpiredBy(lazy.q.messages[i], steps);
      var j :| 0 <= j < |steps| && Timed(steps[j]) && Expired(lazy.q.messages[i], steps[j].now);
      assert (steps + [step])[j] == steps[j];
    }
  }

  lemma {:induction false} ReapLags<T>(reaped: World<T>, lazy: World<T>, steps: seq<Step<T>>, now: int)
    requires Lags(reaped, lazy, steps) && steps != [] && steps[|steps| - 1] == Reap(now)
    ensures Lags(reaped.(q := SkipExpired(reaped.q, now)), lazy, steps)
  {
    var (n, k) := (ExpiredPrefix(reaped.q.messages, now), |lazy.q.messages| - |reaped.q.messages|);
    assert lazy.q.messages[k + n..] == reaped.q.messages[n..];
    forall i | k <= i < k + n ensures ExpiredBy(lazy.q.messages[i], steps) {
      assert lazy.q.messages[i] == reaped.q.messages[i - k];
      assert Timed(steps[|steps| - 1]) && Expired(lazy.q.messages[i], steps[|steps| - 1].now);
    }
  }

  lemma {:induction false} ExpiredByNow<T>(e: Entry<T>, steps: seq<Step<T>>, now: int)
    requires ExpiredBy(e, steps) && Monotone(steps + [Consume(now)])
    ensures Expired(e, now)
  {
    var j :| 0 <= j < |steps| && Timed(steps[j]) && Expired(e, steps[j].now);
    var all := steps + [Consume(now)];
    assert all[j] == steps[j] && Timed(all[|steps|]);
  }

  lemma {:induction false} SurplusSkipped<T>(reaped: State<T>, lazy: State<T>, k: nat, now: int)
    requires k <= |lazy.messages| && lazy.messages[k..] == reaped.messages && reaped.closed == lazy.closed
    requires forall i :: 0 <= i < k ==> Expired(lazy.messages[i], now)
    ensures SkipExpired(reaped, now).messages == SkipExpired(lazy, now).messages
  {}

  lemma {:induction false} ConsumeLags<T>(reaped: World<T>, lazy: World<T>, steps: seq<Step<T>>, now: int)
    requires Lags(reaped, lazy, steps)
    requires Monotone(steps + [Consume(now)])
    ensures var ((r, x), (l, y)) := (Dequeue(reaped.q, now), Dequeue(lazy.q, now));
            x == y && r.messages == l.messages && r.closed == l.closed
  {
    var k := |lazy.q.messages| - |reaped.q.messages|;
    forall i | 0 <= i < k ensures Expired(lazy.q.messages[i], now) {
      ExpiredByNow(lazy.q.messages[i], steps, now);
    }
    SurplusSkipped(reaped.q, lazy.q, k, now);
  }

  lemma {:induction false} LockLags<T>(cfg: Config, reaped: World<T>, lazy: World<T>, steps: seq<Step<T>>, e: Entry<T>)
    requires ReaperHarmless(cfg) && Lags(reaped, lazy, steps)
    requires cfg.limit > 0 ==> |lazy.q.messages| <= cfg.limit
    ensures var ((r, v), (l, u)) := (EnqueueLocked(cfg, reaped.q, e), EnqueueLocked(cfg, lazy.q, e));
            v == u == Accepted && Lags(reaped.(q := r), lazy.(q := l), steps)
  {
    var k := |lazy.q.messages| - |reaped.q.messages|;
    var (r, l) := (EnqueueLocked(cfg, reaped.q, e).0, EnqueueLocked(cfg, lazy.q, e).0);
    if Full(cfg, lazy.q) {
      assert lazy.q.messages != [];
      if k > 0 {
        assert l.messages[k - 1..] == lazy.q.messages[k..] + [e];
      } else {
        assert lazy.q.messages[0..] == lazy.q.messages;
      }
    } else {
      assert l.messages[k..] == lazy.q.messages[k..] + [e];
    }
  }

  ghost predicate NobodyWaits<T>(w: World<T>) {
    forall id :: id in w.producers ==> w.producers[id].Admitted?
  }

  lemma {:induction false} HarmlessNobodyWaits<T>(cfg: Config, steps: seq<Step<T>>)
    requires ReaperHarmless(cfg)
    ensures NobodyWaits(Run(cfg, steps))
    decreases |steps|
  {
    if steps != [] {
      HarmlessNobodyWaits(cfg, steps[..|steps| - 1]);
    }
  }

  /** One step that is not a reap, taken on both sides. */
  lemma {:induction false} StepLags<T>(
      cfg: Config, reaped: World<T>, lazy: World<T>, steps: seq<Step<T>>, step: Step<T>)
    requires ReaperHarmless(cfg) && Lags(reaped, lazy, steps) && !step.Reap?
    requires Monotone(steps + [step])
    requires NobodyWaits(reaped) && Bounded(cfg, lazy.q)
    ensures Next(cfg, reaped, step).1 == Next(cfg, lazy, step).1
    ensures Lags(Next(cfg, reaped, step).0, Next(cfg, lazy, step).0, steps + [step])
  {
    LagGrows(reaped, lazy, steps, step);
    match step
    case Begin(_, _, _, _) =>
    case Shut =>
    case Wake(_) =>
    case Consume(now) =>
      ConsumeLags(reaped, lazy, steps, now);
    case Lock(id) =>
      if id in reaped.producers {
        LockLags(cfg, reaped, lazy, steps + [step], reaped.producers[id].entry);
      }
  }

  lemma {:induction false} ResultsSnoc<T>(cfg: Config, steps: seq<Step<T>>, step: Step<T>)
    ensures Run(cfg, steps + [step]) == Next(cfg, Run(cfg, steps), step).0
    ensures var (out, results) := (Next(cfg, Run(cfg, steps), step).1, Results(cfg, steps));
            Results(cfg, steps + [step]) == if out.Gave? then results + [out.result] else results
  {}

  lemma {:induction false} WithoutReapsSnoc<T>(steps: seq<Step<T>>, step: Step<T>)
    ensures WithoutReaps(steps + [step]) == if step.Reap? then WithoutReaps(steps) else WithoutReaps(steps) + [step]
  {}

  lemma {:induction false} WithoutReapsConcat<T>(a: seq<Step<T>>, b: seq<Step<T>>)
    ensures WithoutReaps(a + b) == WithoutReaps(a) + WithoutReaps(b)
    decreases |b|
  {
    if b == [] {
      assert a + b == a;
    } else {
      assert (a + b)[..|a + b| - 1] == a + b[..|b| - 1];
      WithoutReapsConcat(a, b[..|b| - 1]);
    }
  }

  lemma {:induction false} ReapFree<T>(steps: seq<Step<T>>)
    requires forall i :: 0 <= i < |steps| ==> !steps[i].Reap?
    ensures WithoutReaps(steps) == steps
    decreases |steps|
  {
    if steps != [] {
      ReapFree(steps[..|steps| - 1]);
    }
  }

  lemma {:induction false} MonotonePrefix<T>(steps: seq<Step<T>>, step: Step<T>)
    requires Monotone(steps + [step])
    ensures Monotone(steps)
  {
    var all := steps + [step];
    forall i, j | 0 <= i < j < |steps| && Timed(steps[i]) && Timed(steps[j]) ensures steps[i].now <= steps[j].now {
      assert all[i] == steps[i] && all[j] == steps[j];
    }
  }

  lemma {:induction false} RunLags<T>(cfg: Config, steps: seq<Step<T>>)
    requires ReaperHarmless(cfg) && Monotone(steps)
    ensures Lags(Run(cfg, steps), Run(cfg, WithoutReaps(steps)), steps)
    ensures Results(cfg, steps) == Results(cfg, WithoutReaps(steps))
    decreases |steps|
  {
    if steps != [] {
      var before, step := steps[..|steps| - 1], steps[|steps| - 1];
      assert steps == before + [step];
      MonotonePrefix(before, step);
      RunLags(cfg, before);
      if step.Reap? {
        RunLagsReap(cfg, before, step.now);
      } else {
        RunLagsStep(cfg, before, step);
      }
    }
  }

  lemma {:induction false} RunLagsReap<T>(cfg: Config, before: seq<Step<T>>, now: int)
    requires Lags(Run(cfg, before), Run(cfg, WithoutReaps(before)), before)
    requires Results(cfg, before) == Results(cfg, WithoutReaps(before))
    ensures var all := before + [Reap(now)];
            && Lags(Run(cfg, all), Run(cfg, WithoutReaps(all)), all)
            && Results(cfg, all) == Results(cfg, WithoutReaps(all))
  {
    var a, b := Run(cfg, before), Run(cfg, WithoutReaps(before));
    ResultsSnoc(cfg, before, Reap(now));
    WithoutReapsSnoc(before, Reap(now));
    LagGrows(a, b, before, Reap(now));
    ReapLags(a, b, before + [Reap(now)], now);
  }

  lemma {:induction false} RunLagsStep<T>(cfg: Config, before: seq<Step<T>>, step: Step<T>)
    requires ReaperHarmless(cfg) && Monotone(before + [step]) && !step.Reap?
    requires Lags(Run(cfg, before), Run(cfg, WithoutReaps(before)), before)
    requires Results(cfg, before) == Results(cfg, WithoutReaps(before))
    ensures var all := before + [step];
            && Lags(Run(cfg, all), Run(cfg, WithoutReaps(all)), all)
            && Results(cfg, all) == Results(cfg, WithoutReaps(all))
  {
    var kept := WithoutReaps(before);
    HarmlessNobodyWaits(cfg, before);
    DepthBounded(cfg, kept);
    StepLags(cfg, Run(cfg, before), Run(cfg, kept), before, step);
    WithoutReapsSnoc(before, step);
    ResultsSnoc(cfg, before, step);
    ResultsSnoc(cfg, kept, step);
  }

  /** The reaper is invisible if deleting all its steps from any run changes no dequeue result. */
  ghost predicate ReaperInvisible(cfg: Config) {
    forall steps: seq<Step<int>> :: Monotone(steps) ==> Results(cfg, steps) == Results(cfg, WithoutReaps(steps))
  }

  /** A quiet world holding n messages that expire at time 1. */
  ghost predicate Filled(w: World<int>, n: nat) {
    && w.producers == map[] && !w.q.closed && |w.q.messages| == n
    && forall i :: 0 <= i < n ==> w.q.messages[i] == Entry(0, At(1), 0)
  }

  lemma {:induction false} FillOne(cfg: Config, w: World<int>, n: nat)
    requires n < cfg.limit && Filled(w, n)
    ensures var (w1, o1) := Next(cfg, w, Begin(n, 0, 1, 0));
            var (w2, o2) := Next(cfg, w1, Lock(n));
            Filled(w2, n + 1) && !o1.Gave? && !o2.Gave?
  {}

  lemma {:induction false} FillRun(cfg: Config, n: nat) returns (steps: seq<Step<int>>)
    requires n <= cfg.limit
    ensures Filled(Run(cfg, steps), n) && Results(cfg, steps) == []
    ensures forall i :: 0 <= i < |steps| ==> !Timed(steps[i])
    decreases n
  {
    if n == 0 {
      steps := [];
    } else {
      var before := FillRun(cfg, n - 1);
      FillOne(cfg, Run(cfg, before), n - 1);
      ResultsSnoc(cfg, before, Begin(n - 1, 0, 1, 0));
      ResultsSnoc(cfg, before + [Begin(n - 1, 0, 1, 0)], Lock(n - 1));
      steps := before + [Begin(n - 1, 0, 1, 0)] + [Lock(n - 1)];
    }
  }

  /** A late message that outlives time 1, and then one dequeue at time 1. */
  function LateMessage(id: nat): seq<Step<int>> {
    [Begin(id, 7, 0, 1), Lock(id), Consume(1)]
  }

  lemma {:induction false} LateSteps(cfg: Config, w: World<int>, id: nat)
    requires w.producers == map[] && !w.q.closed
    ensures var (w1, o1) := Next(cfg, w, Begin(id, 7, 0, 1));
            var (w2, o2) := Next(cfg, w1, Lock(id));
            && !o1.Gave? && !o2.Gave?
            && w2.q == EnqueueLocked(cfg, w.q, Stamp(cfg, 7, 0, 1)).0
  {}

  lemma {:induction false} LateRun(cfg: Config, before: seq<Step<int>>, id: nat)
    requires var w := Run(cfg, before); w.producers == map[] && !w.q.closed
    ensures var w := Run(cfg, before);
            Results(cfg, before + LateMessage(id))
            == Results(cfg, before) + [Dequeue(EnqueueLocked(cfg, w.q, Stamp(cfg, 7, 0, 1)).0, 1).1]
  {
    var b, l, c := Begin(id, 7, 0, 1), Lock(id), Consume(1);
    LateSteps(cfg, Run(cfg, before), id);
    ResultsSnoc(cfg, before, b);
    ResultsSnoc(cfg, before + [b], l);
    ResultsSnoc(cfg, before + [b] + [l], c);
    assert before + LateMessage(id) == before + [b] + [l] + [c];
  }

  lemma {:induction false} WithReap(cfg: Config, fill: seq<Step<int>>)
    requires cfg.limit > 0 && Filled(Run(cfg, fill), cfg.limit) && Results(cfg, fill) == []
    ensures Results(cfg, fill + [Reap(1)] + LateMessage(cfg.limit)) == [Some(7)]
  {
    ResultsSnoc(cfg, fill, Reap(1));
    LateRun(cfg, fill + [Reap(1)], cfg.limit);
  }

  lemma {:induction false} WithoutReap(cfg: Config, fill: seq<Step<int>>)
    requires !ReaperHarmless(cfg) && Filled(Run(cfg, fill), cfg.limit) && Results(cfg, fill) == []
    ensures Results(cfg, fill + LateMessage(cfg.limit)) == [None]
  {
    LateRun(cfg, fill, cfg.limit);
  }

  lemma {:induction false} OneReapRemoved(fill: seq<Step<int>>, late: seq<Step<int>>)
    requires forall i :: 0 <= i < |fill| ==> !Timed(fill[i])
    requires forall i :: 0 <= i < |late| ==> !late[i].Reap? && (Timed(late[i]) ==> late[i].now == 1)
    ensures WithoutReaps(fill + [Reap(1)] + late) == fill + late
    ensures Monotone(fill + [Reap(1)] + late)
  {
    ReapFree(fill);
    ReapFree(late);
    WithoutReapsSnoc(fill, Reap(1));
    WithoutReapsConcat(fill + [Reap(1)], late);
  }

  /** A full queue of expired messages makes the other two policies turn a message away. */
  lemma {:induction false} ReaperMatters(cfg: Config) returns (steps: seq<Step<int>>)
    requires !ReaperHarmless(cfg)
    ensures Monotone(steps) && Results(cfg, steps) == [Some(7)] && Results(cfg, WithoutReaps(steps)) == [None]
  {
    var fill := FillRun(cfg, cfg.limit);
    steps := fill + [Reap(1)] + LateMessage(cfg.limit);
    WithReap(cfg, fill);
    WithoutReap(cfg, fill);
    OneReapRemoved(fill, LateMessage(cfg.limit));
  }

  /**
   The background reaper never changes what any consumer gets, in any run, exactly for
   unlimited queues and for the drop-oldest policy.
   */
  lemma {:induction false} ReaperInvisibleIff(cfg: Config)
    ensures ReaperInvisible(cfg) <==> cfg.limit == 0 || cfg.policy == DropOldest
  {
    if ReaperHarmless(cfg) {
      forall steps: seq<Step<int>> | Monotone(steps) ensures Results(cfg, steps) == Results(cfg, WithoutReaps(steps)) {
        RunLags(cfg, steps);
      }
    } else {
      var steps := ReaperMatters(cfg);
      assert Results(cfg, steps)[0] != Results(cfg, WithoutReaps(steps))[0];
    }
  }

  // ---------------------------------------------------------------------------
  // The sum one unit test equates with the calls made
  // ---------------------------------------------------------------------------

  /** In every run, enqueued + dropped_oldest + dropped_newest is the number of completed calls. */
  ghost predicate TestedSum(cfg: Config) {
    forall steps: seq<Step<int>> ::
      var s := Run(cfg, steps).q.stats;
      s.enqueued + s.droppedOldest + s.droppedNewest == CompletedIn(Outputs(cfg, steps))
  }

  lemma {:induction false} NothingOverwritten<T>(cfg: Config, steps: seq<Step<T>>)
    requires cfg.limit == 0 || cfg.policy == DropNewest
    ensures NobodyWaits(Run(cfg, steps)) && Run(cfg, steps).q.stats.droppedOldest == 0
    decreases |steps|
  {
    if steps != [] {
      NothingOverwritten(cfg, steps[..|steps| - 1]);
    }
  }

  /** A call on a full queue that drops its oldest message, at once or when its wait ends. */
  lemma {:induction false} OverwritingRun(cfg: Config) returns (steps: seq<Step<int>>)
    requires cfg.limit > 0 && cfg.policy != DropNewest
    ensures Run(cfg, steps).q.stats.droppedOldest > 0
  {
    var fill := FillRun(cfg, cfg.limit);
    var (b, l, k) := (Begin(0, 0, 0, 0), Lock(0), Wake(0));
    steps := fill + [b] + [l] + [k];
    ResultsSnoc(cfg, fill, b);
    ResultsSnoc(cfg, fill + [b], l);
    ResultsSnoc(cfg, fill + [b] + [l], k);
  }

  /** The sum counts the calls in every run exactly for unlimited queues and for the drop-newest policy. */
  lemma {:induction false} TestedSumIff(cfg: Config)
    ensures TestedSum(cfg) <==> cfg.limit == 0 || cfg.policy == DropNewest
  {
    forall steps: seq<Step<int>>
      ensures var s := Run(cfg, steps).q.stats;
              s.enqueued + s.droppedOldest + s.droppedNewest == CompletedIn(Outputs(cfg, steps)) <==>
              s.droppedOldest == 0
    {
      CompletedCalls(cfg, steps);
    }
    if cfg.limit == 0 || cfg.policy == DropNewest {
      forall steps: seq<Step<int>> ensures Run(cfg, steps).q.stats.droppedOldest == 0 {
        NothingOverwritten(cfg, steps);
      }
    } else {
      var steps := OverwritingRun(cfg);
    }
  }

  // ---------------------------------------------------------------------------
  // Closing
  // ---------------------------------------------------------------------------

  lemma {:induction false} OneFewer<T>(producers: map<nat, Producer<T>>, id: nat, p: Producer<T>)
    requires id in producers
    ensures |producers - {id}| == |producers| - 1 && |producers[id := p]| == |producers|
  {
    var (rest, all) := (producers - {id}, producers[id := p]);
    assert producers.Keys == rest.Keys + {id} && all.Keys == producers.Keys;
    assert |producers.Keys| == |rest.Keys| + 1;
  }

  lemma {:induction false} ClosedStep<T>(cfg: Config, w: World<T>, step: Step<T>)
    requires w.q.closed
    ensures var (w', out) := Next(cfg, w, step);
            && w'.q.closed
            && |w'.producers| + (if out.Took? || out.Refused? then 1 else 0) == |w.producers|
  {
    if (step.Lock? || step.Wake?) && step.id in w.producers {
      OneFewer(w.producers, step.id, Waiting(w.producers[step.id].entry));
    }
  }

  /** Calls inside the queue and calls completed. */
  function Calls<T>(cfg: Config, steps: seq<Step<T>>): nat {
    |Run(cfg, steps).producers| + CompletedIn(Outputs(cfg, steps))
  }

  lemma {:induction false} ClosedCalls<T>(cfg: Config, steps: seq<Step<T>>)
    requires steps != [] && Run(cfg, steps[..|steps| - 1]).q.closed
    ensures Run(cfg, steps).q.closed && Calls(cfg, steps) == Calls(cfg, steps[..|steps| - 1])
  {
    OutputsSnoc(cfg, steps);
    ClosedStep(cfg, Run(cfg, steps[..|steps| - 1]), steps[|steps| - 1]);
  }

  /**
   Once closed, a queue stays closed and completes only the calls that were inside when it was
   closed, each at most once.
   */
  lemma {:induction false} ClosedAdmitsNobody<T>(cfg: Config, steps: seq<Step<T>>, n: nat)
    requires 0 < n <= |steps| && steps[n - 1].Shut?
    ensures Run(cfg, steps).q.closed && Calls(cfg, steps) == Calls(cfg, steps[..n])
    decreases |steps|
  {
    if n == |steps| {
      assert steps[..n] == steps;
    } else {
      var before := steps[..|steps| - 1];
      assert before[..n] == steps[..n];
      ClosedAdmitsNobody(cfg, before, n);
      ClosedCalls(cfg, steps);
    }
  }
}
