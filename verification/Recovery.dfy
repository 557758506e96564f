/**
 Recovery end to end: a subscription is paused, messages keep arriving and other
 subscriptions come and go, and the subscription is resumed and replayed what it missed.
 Steps of the subscription tables and of the replay store interleave freely.
 */
module Recovery {
  import opened Options
  import opened TopicHash
  import opened TopicBuffer
  import opened ReplayStore
  import opened TopicMessageBuffer
  import Subs = Subscriptions
  import PausedRuns

  // ---------------------------------------------------------------------------
  // What a resumed stream is sent
  // ---------------------------------------------------------------------------

  datatype Mode = NoRecovery | RetainedOnly | ReplayBuffer

  function TopicReplay(limits: Limits, s: Store, topic: Topic, after: nat, mode: Mode): Replay {
    match mode
    case NoRecovery => NOTHING
    case RetainedOnly => GetReplay(limits, s, topic, 0)
    case ReplayBuffer => GetReplay(limits, s, topic, after)
  }

  /** One replay, then another. */
  function Both(a: Replay, b: Replay): Replay {
    Replay(a.messages + b.messages, a.gap || b.gap, a.missed + b.missed)
  }

  /** All topics of a subscription in turn, with one sequence for all of them. */
  function Recovered(limits: Limits, s: Store, topics: seq<Topic>, after: nat, mode: Mode): Replay
    decreases |topics|
  {
    if topics == [] then NOTHING
    else
      var (sofar, more) := (Recovered(limits, s, topics[..|topics| - 1], after, mode),
                            TopicReplay(limits, s, topics[|topics| - 1], after, mode));
      Replay(sofar.messages + more.messages, sofar.gap || more.gap, sofar.missed + more.missed)
  }

  /** What a resume sends: from the requested sequence if there is one, else from the saved one. */
  function ResumeReplay(limits: Limits, s: Store, topics: seq<Topic>, requested: nat, saved: nat, mode: Mode): Replay {
    Recovered(limits, s, topics, if requested == 0 then saved else requested, mode)
  }

  /** The messages of some topics numbered beyond a sequence. */
  function Beyond(s: Store, topics: seq<Topic>, after: nat): nat
    decreases |topics|
  {
    if topics == [] then 0
    else
      var n := |LogOf(s, topics[|topics| - 1])|;
      Beyond(s, topics[..|topics| - 1], after) + (if after < n then n - after else 0)
  }

  lemma {:induction false} TopicGapIff(limits: Limits, s: Store, topic: Topic, after: nat)
    requires limits.capacity > 0 && after > 0
    ensures GetReplay(limits, s, topic, after).gap <==> |LogOf(s, topic)| >= after + limits.capacity
  {
    var log := LogOf(s, topic);
    if after <= |log| {
      assert log == log[..after] + log[after..];
      ReplayExact(limits, s, topic, log[..after], log[after..]);
    }
  }

  /**
   A replay of any topics accounts, as sent or missed, for exactly what is numbered beyond the
   sequence in each, and reports a gap if and only if one of them has a capacity of it or more.
   */
  lemma {:induction false} TopicsAccounted(limits: Limits, s: Store, topics: seq<Topic>, after: nat)
    requires limits.capacity > 0 && after > 0
    ensures var r := Recovered(limits, s, topics, after, ReplayBuffer);
            && r.missed + |r.messages| == Beyond(s, topics, after)
            && (r.gap <==> exists i :: 0 <= i < |topics| && |LogOf(s, topics[i])| >= after + limits.capacity)
    decreases |topics|
  {
    if topics != [] {
      var (before, last) := (topics[..|topics| - 1], topics[|topics| - 1]);
      TopicsAccounted(limits, s, before, after);
      ReplayAccounts(limits, s, last, after);
      TopicGapIff(limits, s, last, after);
      forall i | 0 <= i < |before| ensures before[i] == topics[i] {}
    }
  }

  lemma {:induction false} BothTurns(a: Replay, b: Replay, c: Replay)
    ensures Both(a, Both(b, c)) == Both(Both(a, b), c) && Both(NOTHING, c) == c == Both(c, NOTHING)
  {
    assert a.messages + (b.messages + c.messages) == (a.messages + b.messages) + c.messages;
    assert [] + c.messages == c.messages == c.messages + [];
  }

  lemma {:induction false} OneTopicMore(limits: Limits, s: Store, topics: seq<Topic>, t: Topic, after: nat, mode: Mode)
    ensures Recovered(limits, s, topics + [t], after, mode)
         == Both(Recovered(limits, s, topics, after, mode), TopicReplay(limits, s, t, after, mode))
  {
    assert (topics + [t])[..|topics|] == topics;
  }

  /** Topics are served in turn: what some topics get comes before what later ones get, and each gets its own replay. */
  lemma {:induction false} TopicsInTurn(
      limits: Limits, s: Store, topics: seq<Topic>, later: seq<Topic>, after: nat, mode: Mode)
    ensures Recovered(limits, s, topics + later, after, mode)
         == Both(Recovered(limits, s, topics, after, mode), Recovered(limits, s, later, after, mode))
    decreases |later|
  {
    var a := Recovered(limits, s, topics, after, mode);
    if later == [] {
      assert topics + later == topics;
      BothTurns(a, NOTHING, a);
    } else {
      var (init, t) := (later[..|later| - 1], later[|later| - 1]);
      assert later == init + [t] && topics + later == (topics + init) + [t];
      TopicsInTurn(limits, s, topics, init, after, mode);
      OneTopicMore(limits, s, topics + init, t, after, mode);
      OneTopicMore(limits, s, init, t, after, mode);
      BothTurns(a, Recovered(limits, s, init, after, mode), TopicReplay(limits, s, t, after, mode));
    }
  }

  /** The other modes send, per topic, nothing or the latest message, and never report a gap. */
  lemma {:induction false} OtherModes(limits: Limits, s: Store, topics: seq<Topic>, after: nat, mode: Mode)
    requires !mode.ReplayBuffer?
    ensures var r := Recovered(limits, s, topics, after, mode);
            && !r.gap && r.missed == 0
            && (mode.NoRecovery? ==> r.messages == [])
            && (forall m :: m in r.messages ==>
                  m.topic in topics && m.sequence == |LogOf(s, m.topic)| > 0
                  && m.payload == LogOf(s, m.topic)[m.sequence - 1].payload)
            && (mode.RetainedOnly? ==>
                  forall t :: t in topics && LogOf(s, t) != [] ==> exists m :: m in r.messages && m.topic == t)
    decreases |topics|
  {
    if topics != [] {
      var (before, last) := (topics[..|topics| - 1], topics[|topics| - 1]);
      OtherModes(limits, s, before, after, mode);
      assert topics == before + [last];
      var (log, more) := (LogOf(s, last), TopicReplay(limits, s, last, after, mode).messages);
      if mode.RetainedOnly? && log != [] {
        assert |more| == 1 && more[0].topic == last;
      }
      var (r0, r) := (Recovered(limits, s, before, after, mode), Recovered(limits, s, topics, after, mode));
      forall t | mode.RetainedOnly? && t in topics && LogOf(s, t) != []
        ensures exists m :: m in r.messages && m.topic == t
      {
        if t == last {
          assert more[0] in r.messages;
        } else {
          var m :| m in r0.messages && m.topic == t;
          assert m in r.messages;
        }
      }
    }
  }

  /** A missed count never comes without the gap flag. */
  lemma {:induction false} GapFlagged(limits: Limits, s: Store, topics: seq<Topic>, after: nat, mode: Mode)
    ensures Recovered(limits, s, topics, after, mode).missed > 0 ==> Recovered(limits, s, topics, after, mode).gap
    decreases |topics|
  {
    if topics != [] {
      GapFlagged(limits, s, topics[..|topics| - 1], after, mode);
    }
  }

  method RecoverTopic(buffer: TopicMessageBuffer, topic: Topic, after: nat, mode: Mode)
    returns (messages: seq<Message>, gap: bool, missed: nat)
    requires buffer.Valid() && !mode.NoRecovery?
    ensures Replay(messages, gap, missed) == TopicReplay(buffer.limits, buffer.Value(), topic, after, mode)
    ensures !gap ==> missed == 0
  {
    messages, gap, missed := [], false, 0;
    if mode.RetainedOnly? {
      var retained := buffer.GetRetainedMessage(topic);
      messages := if retained.Some? then [retained.value] else [];
    } else {
      messages, gap, missed := buffer.GetMessagesForReplay(topic, after);
    }
  }

  lemma {:induction false} OneMoreTopic(limits: Limits, s: Store, topics: seq<Topic>, i: nat, after: nat, mode: Mode)
    requires i < |topics|
    ensures var (sofar, more) := (Recovered(limits, s, topics[..i], after, mode),
        TopicReplay(limits, s, topics[i], after, mode));
            Recovered(limits, s, topics[..i + 1], after, mode)
            == Replay(sofar.messages + more.messages, sofar.gap || more.gap, sofar.missed + more.missed)
  {
    assert topics[..i + 1][..i] == topics[..i];
  }

  method RecoverGaps(buffer: TopicMessageBuffer, topics: seq<Topic>, requested: nat, saved: nat, mode: Mode)
    returns (pending: seq<Message>, gap: bool, missed: nat)
    requires buffer.Valid()
    ensures Replay(pending, gap, missed)
         == ResumeReplay(buffer.limits, buffer.Value(), topics, requested, saved, mode)
    ensures requested >= 1 ==>
              Replay(pending, gap, missed) == Recovered(buffer.limits, buffer.Value(), topics, requested, mode)
    ensures requested == 0 ==>
              Replay(pending, gap, missed) == Recovered(buffer.limits, buffer.Value(), topics, saved, mode)
  {
    pending, gap, missed := [], false, 0;
    ghost var (limits, store) := (buffer.limits, buffer.Value());
    ghost var after := if requested >= 1 then requested else saved;
    if mode.NoRecovery? {
      NothingRecovered(limits, store, topics, after);
      return;
    }
    var i := 0;
    while i < |topics|
      invariant 0 <= i <= |topics|
      invariant Replay(pending, gap, missed) == Recovered(limits, store, topics[..i], after, mode)
    {
      var lastSeq := requested;
      if lastSeq == 0 {
        lastSeq := saved;
      }
      var messages, topicGap, topicMissed := RecoverTopic(buffer, topics[i], lastSeq, mode);
      pending := pending + messages;
      if topicGap {
        gap, missed := true, missed + topicMissed;
      }
      OneMoreTopic(limits, store, topics, i, after, mode);
      i := i + 1;
    }
    assert topics[..i] == topics;
  }

  lemma {:induction false} NothingRecovered(limits: Limits, s: Store, topics: seq<Topic>, after: nat)
    ensures Recovered(limits, s, topics, after, NoRecovery) == NOTHING
    decreases |topics|
  {
    if topics != [] {
      NothingRecovered(limits, s, topics[..|topics| - 1], after);
    }
  }

  // ---------------------------------------------------------------------------
  // Runs of the daemon
  // ---------------------------------------------------------------------------

  datatype Daemon = Daemon(service: Subs.Service, store: Store)

  datatype DaemonStep = OfService(service: Subs.Step) | OfStore(store: ReplayStore.Step)

  function NextDaemon(limits: Limits, d: Daemon, step: DaemonStep): Daemon {
    match step
    case OfService(s) => if Subs.WellFormed(s) then d.(service := Subs.Next(d.service, s)) else d
    case OfStore(s) => d.(store := ReplayStore.Next(limits, d.store, s))
  }

  function RunDaemon(limits: Limits, d: Daemon, steps: seq<DaemonStep>): Daemon
    decreases |steps|
  {
    if steps == [] then d
    else NextDaemon(limits, RunDaemon(limits, d, steps[..|steps| - 1]), steps[|steps| - 1])
  }

  function ServiceSteps(steps: seq<DaemonStep>): seq<Subs.Step>
    decreases |steps|
  {
    if steps == [] then []
    else
      ServiceSteps(steps[..|steps| - 1])
      + (if steps[|steps| - 1].OfService? then [steps[|steps| - 1].service] else [])
  }

  /** The message of a topic that one step buffers, if any. */
  function Accepted(limits: Limits, s: Store, step: DaemonStep, topic: Topic): Log {
    if step.OfStore? && step.store.Buffer? && step.store.topic == topic
       && BufferMessage(limits, s, topic, step.store.entry, step.store.order).1 > 0
    then [step.store.entry] else []
  }

  /** The messages of a topic that a run buffers. */
  function Arrived(limits: Limits, d: Daemon, steps: seq<DaemonStep>, topic: Topic): Log
    decreases |steps|
  {
    if steps == [] then []
    else
      var (before, last) := (steps[..|steps| - 1], steps[|steps| - 1]);
      Arrived(limits, d, before, topic) + Accepted(limits, RunDaemon(limits, d, before).store, last, topic)
  }

  /** A step that does not evict or clear the topic, if it is there. */
  ghost predicate Spares(limits: Limits, s: Store, step: ReplayStore.Step, topic: Topic) {
    topic in s.logs ==>
      match step
      case Buffer(_, e, order) => topic in MakeRoom(limits, s, |e.payload|, order).0.logs
      case ClearTopic(t) => t != topic
      case ClearAll => false
  }

  ghost predicate NeverErased(limits: Limits, d: Daemon, steps: seq<DaemonStep>, topic: Topic) {
    forall i :: 0 <= i < |steps| && steps[i].OfStore? ==>
      Spares(limits, RunDaemon(limits, d, steps[..i]).store, steps[i].store, topic)
  }

  lemma {:induction false} BufferedLog(limits: Limits, s: Store, t: Topic, e: LogEntry, order: seq<Topic>, topic: Topic)
    requires Valid(limits, s)
    ensures var (s', seqno) := BufferMessage(limits, s, t, e, order);
            && Valid(limits, s')
            && LogOf(s', topic) == (if topic in MakeRoom(limits, s, |e.payload|, order).0.logs then LogOf(s, topic)
                 else [])
                                   + (if t == topic && seqno > 0 then [e] else [])
  {
    RoomValid(limits, s, |e.payload|, order);
    BufferValid(limits, s, t, e, order);
  }

  /** A step keeps a topic's log if it spares the topic, else empties it, and appends what it buffers. */
  lemma {:induction false} StepLog(limits: Limits, d: Daemon, step: DaemonStep, topic: Topic)
    requires Valid(limits, d.store)
    ensures var s := NextDaemon(limits, d, step).store;
            && Valid(limits, s)
            && LogOf(s, topic) == (if step.OfStore? && !Spares(limits, d.store, step.store, topic) then []
                 else LogOf(d.store, topic))
                                  + Accepted(limits, d.store, step, topic)
  {
    if step.OfStore? {
      match step.store
      case Buffer(t, e, order) => BufferedLog(limits, d.store, t, e, order, topic);
      case ClearTopic(t) => EraseValid(limits, d.store, t);
      case ClearAll =>
    }
  }

  ghost predicate Grown(limits: Limits, d: Daemon, s: Store, topic: Topic, more: Log) {
    Valid(limits, s) && LogOf(s, topic) == LogOf(d.store, topic) + more
  }

  lemma {:induction false} GrownMore(limits: Limits, d: Daemon, d': Daemon, more: Log, step: DaemonStep, topic: Topic)
    requires Grown(limits, d, d'.store, topic, more) && (step.OfStore? ==> Spares(limits, d'.store, step.store, topic))
    ensures Grown(limits, d, NextDaemon(limits, d', step).store, topic, more + Accepted(limits, d'.store, step, topic))
  {
    StepLog(limits, d', step, topic);
    var (log, last) := (LogOf(d.store, topic), Accepted(limits, d'.store, step, topic));
    assert (log + more) + last == log + (more + last);
  }

  /** A topic that is never erased has the log it had, followed by what arrived. */
  lemma {:induction false} LogGrows(limits: Limits, d: Daemon, steps: seq<DaemonStep>, topic: Topic)
    requires Valid(limits, d.store) && NeverErased(limits, d, steps, topic)
    ensures Grown(limits, d, RunDaemon(limits, d, steps).store, topic, Arrived(limits, d, steps, topic))
    decreases |steps|
  {
    if steps == [] {
      assert LogOf(d.store, topic) + [] == LogOf(d.store, topic);
    } else {
      var (before, last) := (steps[..|steps| - 1], steps[|steps| - 1]);
      NeverErasedSnoc(limits, d, steps, topic);
      LogGrows(limits, d, before, topic);
      GrownMore(limits, d, RunDaemon(limits, d, before), Arrived(limits, d, before, topic), last, topic);
    }
  }

  /** The steps before the last, and the last, decide whether a run erases a topic. */
  lemma {:induction false} NeverErasedSnoc(limits: Limits, d: Daemon, steps: seq<DaemonStep>, topic: Topic)
    requires steps != []
    ensures var (before, last) := (steps[..|steps| - 1], steps[|steps| - 1]);
            NeverErased(limits, d, steps, topic)
            <==> NeverErased(limits, d, before, topic)
                 && (last.OfStore? ==> Spares(limits, RunDaemon(limits, d, before).store, last.store, topic))
  {
    var before := steps[..|steps| - 1];
    forall i | 0 <= i < |before| ensures before[..i] == steps[..i] && before[i] == steps[i] {}
  }

  /** The last messages of `all` are exactly `log`. */
  ghost predicate Tail(all: Log, log: Log) {
    |log| <= |all| && all[|all| - |log|..] == log
  }

  lemma {:induction false} TailStep(limits: Limits, d: Daemon, arrived: Log, step: DaemonStep, topic: Topic)
    requires Valid(limits, d.store)
    requires (step.OfStore? ==> Spares(limits, d.store, step.store, topic)) ==> Tail(arrived, LogOf(d.store, topic))
    ensures Tail(arrived + Accepted(limits, d.store, step, topic), LogOf(NextDaemon(limits, d, step).store, topic))
  {
    StepLog(limits, d, step, topic);
  }

  lemma {:induction false} RunStoreValid(limits: Limits, d: Daemon, steps: seq<DaemonStep>)
    requires Valid(limits, d.store)
    ensures Valid(limits, RunDaemon(limits, d, steps).store)
    decreases |steps|
  {
    if steps != [] {
      RunStoreValid(limits, d, steps[..|steps| - 1]);
      StepLog(limits, RunDaemon(limits, d, steps[..|steps| - 1]), steps[|steps| - 1], []);
    }
  }

  /** After an erasure the log holds only what arrived since: a last part of what arrived in all. */
  lemma {:induction false} LogAfterErasure(limits: Limits, d: Daemon, steps: seq<DaemonStep>, topic: Topic)
    requires Valid(limits, d.store) && !NeverErased(limits, d, steps, topic)
    ensures Tail(Arrived(limits, d, steps, topic), LogOf(RunDaemon(limits, d, steps).store, topic))
    decreases |steps|
  {
    var (before, last) := (steps[..|steps| - 1], steps[|steps| - 1]);
    NeverErasedSnoc(limits, d, steps, topic);
    if !NeverErased(limits, d, before, topic) {
      LogAfterErasure(limits, d, before, topic);
    }
    RunStoreValid(limits, d, before);
    TailStep(limits, RunDaemon(limits, d, before), Arrived(limits, d, before, topic), last, topic);
  }

  /** The log never holds more than it held and what arrived, and less once it was erased. */
  lemma {:induction false} LogBound(limits: Limits, d: Daemon, steps: seq<DaemonStep>, topic: Topic)
    requires Valid(limits, d.store)
    ensures var (n, all) := (|LogOf(RunDaemon(limits, d, steps).store, topic)|,
                             |LogOf(d.store, topic)| + |Arrived(limits, d, steps, topic)|);
            n <= all && (!NeverErased(limits, d, steps, topic) ==> n < all)
    decreases |steps|
  {
    if steps != [] {
      var (before, last) := (steps[..|steps| - 1], steps[|steps| - 1]);
      NeverErasedSnoc(limits, d, steps, topic);
      LogBound(limits, d, before, topic);
      RunStoreValid(limits, d, before);
      StepLog(limits, RunDaemon(limits, d, before), last, topic);
    }
  }

  lemma {:induction false} ServiceRun(limits: Limits, d: Daemon, steps: seq<DaemonStep>)
    requires forall i :: 0 <= i < |ServiceSteps(steps)| ==> Subs.WellFormed(ServiceSteps(steps)[i])
    ensures RunDaemon(limits, d, steps).service == Subs.Run(d.service, ServiceSteps(steps))
    decreases |steps|
  {
    if steps != [] {
      var (before, last) := (steps[..|steps| - 1], steps[|steps| - 1]);
      var (all, some) := (ServiceSteps(steps), ServiceSteps(before));
      assert forall i :: 0 <= i < |some| ==> all[i] == some[i];
      ServiceRun(limits, d, before);
      if last.OfService? {
        assert all[|all| - 1] == last.service && all[..|all| - 1] == some;
      } else {
        assert all == some;
      }
    }
  }

  // ---------------------------------------------------------------------------
  // Exact recovery
  // ---------------------------------------------------------------------------

  /** Message i of the last m of a log. */
  function LastOf(topic: Topic, log: Log, m: nat, i: nat): Message
    requires i < m <= |log|
  {
    var at := |log| - m + i;
    Message(at + 1, topic, log[at].payload, log[at].timestamp)
  }

  /** What a replay of the k messages `unseen` must be. */
  ghost predicate Exact(limits: Limits, topic: Topic, seen: Log, unseen: Log, r: Replay) {
    var (k, m) := (|unseen|, Min(|unseen|, limits.capacity));
    && |r.messages| == m
    && (forall i :: 0 <= i < m ==> r.messages[i] == LastOf(topic, seen + unseen, m, i))
    && r.missed + m == k
    && (r.gap <==> k >= limits.capacity)
  }

  lemma {:induction false} OneTopic(limits: Limits, s: Store, topic: Topic, seen: Log, unseen: Log)
    requires limits.capacity > 0 && |seen| > 0 && LogOf(s, topic) == seen + unseen
    ensures Exact(limits, topic, seen, unseen, Recovered(limits, s, [topic], |seen|, ReplayBuffer))
  {
    ReplayExact(limits, s, topic, seen, unseen);
    OneMoreTopic(limits, s, [topic], 0, |seen|, ReplayBuffer);
    assert [topic][..0] == [] && [topic][..1] == [topic];
    assert Recovered(limits, s, [], |seen|, ReplayBuffer) == NOTHING;
  }

  /** Pausing as a daemon step. */
  function Paused(limits: Limits, d: Daemon, id: Subs.Id, ttl: int, now: int): Daemon {
    NextDaemon(limits, d, OfService(Subs.Unsubscribe(id, true, ttl, now)))
  }

  /** Steps in which a subscription paused until `until` stays resumable. */
  ghost predicate StaysPaused(steps: seq<DaemonStep>, id: Subs.Id, until: int) {
    PausedRuns.Others(ServiceSteps(steps), id) && PausedRuns.NoLaterSweep(ServiceSteps(steps), until)
  }

  lemma {:induction false} ResumedAsSaved(
      limits: Limits, d: Daemon, id: Subs.Id, ttl: int, pausedAt: int, steps: seq<DaemonStep>, resumedAt: int)
    requires Subs.Consistent(d.service) && id in d.service.subs.active
    requires resumedAt <= pausedAt + ttl && StaysPaused(steps, id, pausedAt + ttl)
    ensures var sub := d.service.subs.active[id];
            var d2 := RunDaemon(limits, Paused(limits, d, id, ttl, pausedAt), steps);
            var (subs, saved) := Subs.Resume(d2.service.subs, id, resumedAt);
            && id in subs.active && subs.active[id] == sub.(createdAt := resumedAt)
            && saved.Some? && saved.value.topics == sub.topics && saved.value.lastSequence == sub.lastSequence
  {
    ServiceRun(limits, Paused(limits, d, id, ttl, pausedAt), steps);
    PausedRuns.ResumedIff(d.service, id, ttl, pausedAt, ServiceSteps(steps), resumedAt);
  }

  lemma {:induction false} SplitLog(log: Log, more: Log, a: nat)
    requires a <= |log|
    ensures log + more == log[..a] + (log[a..] + more)
  {}

  lemma {:induction false} GrownReplay(limits: Limits, d: Daemon, s: Store, topic: Topic, a: nat, more: Log)
    requires 1 <= a <= |LogOf(d.store, topic)| && Grown(limits, d, s, topic, more)
    ensures var log := LogOf(d.store, topic);
            Exact(limits, topic, log[..a], log[a..] + more, Recovered(limits, s, [topic], a, ReplayBuffer))
  {
    var log := LogOf(d.store, topic);
    SplitLog(log, more, a);
    OneTopic(limits, s, topic, log[..a], log[a..] + more);
  }

  lemma {:induction false} ReplayedAsMissed(limits: Limits, d: Daemon, topic: Topic, a: nat, steps: seq<DaemonStep>)
    requires Valid(limits, d.store) && 1 <= a <= |LogOf(d.store, topic)| && NeverErased(limits, d, steps, topic)
    ensures var log := LogOf(d.store, topic);
            Exact(limits, topic, log[..a], log[a..] + Arrived(limits, d, steps, topic),
                  Recovered(limits, RunDaemon(limits, d, steps).store, [topic], a, ReplayBuffer))
  {
    LogGrows(limits, d, steps, topic);
    GrownReplay(limits, d, RunDaemon(limits, d, steps).store, topic, a, Arrived(limits, d, steps, topic));
  }

  lemma {:induction false} OneTopicAccounts(limits: Limits, s: Store, topic: Topic, a: nat)
    requires limits.capacity > 0 && a > 0
    ensures var (n, r) := (|LogOf(s, topic)|, Recovered(limits, s, [topic], a, ReplayBuffer));
            && r.missed + |r.messages| == (if a < n then n - a else 0)
            && (a >= n ==> r == NOTHING)
  {
    ReplayAccounts(limits, s, topic, a);
    OneMoreTopic(limits, s, [topic], 0, a, ReplayBuffer);
    assert [topic][..0] == [] && [topic][..1] == [topic];
    assert Recovered(limits, s, [], a, ReplayBuffer) == NOTHING;
  }

  /**
   If the topic was erased, the client is sent or told of only what the new numbering has beyond
   its old sequence. At least one message is lost without a trace, unless there was none; when the
   new numbering has passed the client, they include the first a of the new epoch.
   */
  lemma {:induction false} ErasureLoses(limits: Limits, d: Daemon, topic: Topic, a: nat, steps: seq<DaemonStep>)
    requires Valid(limits, d.store) && 1 <= a <= |LogOf(d.store, topic)| && !NeverErased(limits, d, steps, topic)
    ensures var k := |LogOf(d.store, topic)| - a + |Arrived(limits, d, steps, topic)|;
            var n := |LogOf(RunDaemon(limits, d, steps).store, topic)|;
            var r := Recovered(limits, RunDaemon(limits, d, steps).store, [topic], a, ReplayBuffer);
            && r.missed + |r.messages| == (if a < n then n - a else 0)
            && r.missed + |r.messages| + Min(a, n) <= k
            && (r.missed + |r.messages| == k <==> k == 0)
            && (k == 0 ==> r == NOTHING)
  {
    LogAfterErasure(limits, d, steps, topic);
    RunStoreValid(limits, d, steps);
    OneTopicAccounts(limits, RunDaemon(limits, d, steps).store, topic, a);
  }

  /** From sequence 0 the latest message is all there is, and no gap. */
  lemma {:induction false} FromZero(limits: Limits, s: Store, topic: Topic)
    ensures var (log, r) := (LogOf(s, topic), Recovered(limits, s, [topic], 0, ReplayBuffer));
            && !r.gap && r.missed == 0
            && r.messages == if log == [] then [] else [LastOf(topic, log, 1, 0)]
  {
    OneMoreTopic(limits, s, [topic], 0, 0, ReplayBuffer);
    assert [topic][..0] == [] && [topic][..1] == [topic];
    assert Recovered(limits, s, [], 0, ReplayBuffer) == NOTHING;
    var log := LogOf(s, topic);
    if log != [] {
      assert Numbered(topic, log, |log| - 1) == [LastOf(topic, log, 1, 0)];
    }
  }

  /** A client that has seen nothing is served exactly only if there was nothing, or one message and room for two. */
  lemma {:induction false} ZeroExactIff(limits: Limits, d: Daemon, topic: Topic, steps: seq<DaemonStep>)
    requires Valid(limits, d.store)
    ensures var unseen := LogOf(d.store, topic) + Arrived(limits, d, steps, topic);
            Exact(limits, topic, [], unseen,
                  Recovered(limits, RunDaemon(limits, d, steps).store, [topic], 0, ReplayBuffer))
            <==> unseen == [] || (NeverErased(limits, d, steps, topic) && |unseen| == 1 && limits.capacity > 1)
  {
    var s := RunDaemon(limits, d, steps).store;
    var unseen := LogOf(d.store, topic) + Arrived(limits, d, steps, topic);
    FromZero(limits, s, topic);
    LogBound(limits, d, steps, topic);
    if NeverErased(limits, d, steps, topic) {
      LogGrows(limits, d, steps, topic);
      assert [] + unseen == unseen;
    }
  }

  /** Of a log, what a client with sequence a has seen and has not; nothing of it, if it is ahead of the log. */
  function Seen(log: Log, a: nat): Log {
    if a <= |log| then log[..a] else []
  }

  function Unseen(log: Log, a: nat): Log {
    if a <= |log| then log[a..] else log
  }

  /**
   A client ahead of its topic's log is sent or told of only what the numbering reaches beyond
   its sequence, which is all there was only if there was nothing.
   */
  lemma {:induction false} AheadLoses(limits: Limits, d: Daemon, topic: Topic, a: nat, steps: seq<DaemonStep>)
    requires Valid(limits, d.store) && a > |LogOf(d.store, topic)|
    ensures var k := |LogOf(d.store, topic)| + |Arrived(limits, d, steps, topic)|;
            var n := |LogOf(RunDaemon(limits, d, steps).store, topic)|;
            var r := Recovered(limits, RunDaemon(limits, d, steps).store, [topic], a, ReplayBuffer);
            && r.missed + |r.messages| == (if a < n then n - a else 0)
            && (r.missed + |r.messages| == k <==> k == 0)
            && (k == 0 ==> r == NOTHING)
  {
    LogBound(limits, d, steps, topic);
    RunStoreValid(limits, d, steps);
    OneTopicAccounts(limits, RunDaemon(limits, d, steps).store, topic, a);
  }

  /**
   When a client with sequence a is served exactly: nothing was missed, or it was not ahead of
   the log, the topic was not erased, and a is not 0 unless one message was missed and there is
   room for two.
   */
  ghost predicate ServedExactly(limits: Limits, log: Log, a: nat, unseen: Log, erased: bool) {
    unseen == [] || (a <= |log| && !erased && (a == 0 ==> |unseen| == 1 && limits.capacity > 1))
  }

  lemma {:induction false} ReplayExactIff(limits: Limits, d: Daemon, topic: Topic, a: nat, steps: seq<DaemonStep>)
    requires Valid(limits, d.store)
    ensures var log := LogOf(d.store, topic);
            var unseen := Unseen(log, a) + Arrived(limits, d, steps, topic);
            Exact(limits, topic, Seen(log, a), unseen,
                  Recovered(limits, RunDaemon(limits, d, steps).store, [topic], a, ReplayBuffer))
            <==> ServedExactly(limits, log, a, unseen, !NeverErased(limits, d, steps, topic))
  {
    var log := LogOf(d.store, topic);
    if a == 0 {
      ZeroExactIff(limits, d, topic, steps);
      assert log[..0] == [] && log[0..] == log;
    } else if a > |log| {
      AheadLoses(limits, d, topic, a, steps);
    } else if NeverErased(limits, d, steps, topic) {
      ReplayedAsMissed(limits, d, topic, a, steps);
    } else {
      ErasureLoses(limits, d, topic, a, steps);
    }
  }

  lemma {:induction false} RunDaemonConcat(limits: Limits, d: Daemon, a: seq<DaemonStep>, b: seq<DaemonStep>)
    ensures RunDaemon(limits, d, a + b) == RunDaemon(limits, RunDaemon(limits, d, a), b)
    decreases |b|
  {
    if b == [] {
      assert a + b == a;
    } else {
      assert (a + b)[..|a + b| - 1] == a + b[..|b| - 1];
      RunDaemonConcat(limits, d, a, b[..|b| - 1]);
    }
  }

  /** The daemon's steps from a delivery to a resume: some, the pause, and more. */
  function UntilResume(before: seq<DaemonStep>, id: Subs.Id, ttl: int, now: int, steps: seq<DaemonStep>)
    : seq<DaemonStep>
  {
    before + [OfService(Subs.Unsubscribe(id, true, ttl, now))] + steps
  }

  lemma {:induction false} RunPaused(
      limits: Limits, d: Daemon, before: seq<DaemonStep>, id: Subs.Id, ttl: int, now: int, steps: seq<DaemonStep>)
    ensures RunDaemon(limits, d, UntilResume(before, id, ttl, now, steps))
         == RunDaemon(limits, Paused(limits, RunDaemon(limits, d, before), id, ttl, now), steps)
  {
    var pause := OfService(Subs.Unsubscribe(id, true, ttl, now));
    RunDaemonConcat(limits, d, before + [pause], steps);
    RunDaemonSnoc(limits, d, before, pause);
  }

  /**
   A single-topic subscription has sequence a saved, noted by its last delivery. The daemon takes
   any steps that leave it active and note nothing for it, it is paused, the daemon takes any
   steps that leave it resumable, and it is resumed before it expires. Then it is restored; and it
   is sent, in order, exactly the last min(k, capacity) of the k messages of its topic after the
   a-th, whether they came before or during the pause, with missed plus replayed equal to k and
   a gap reported exactly when k reaches the capacity, if and only if k is 0, or the topic was
   not erased since and either a >= 1, or k is 1 and below the capacity.

   A client that names a sequence of its own has that for a. If it is ahead of the log, nothing
   of the log counts as seen, and it is served exactly only if k is 0.
   */
  lemma {:induction false} ExactRecovery(
      limits: Limits, d: Daemon, id: Subs.Id, topic: Topic, before: seq<DaemonStep>, ttl: int, pausedAt: int,
      steps: seq<DaemonStep>, resumedAt: int, requested: nat)
    requires Valid(limits, d.store) && Subs.Consistent(d.service)
    requires id in d.service.subs.active && d.service.subs.active[id].topics == [topic]
    requires StaysActive(before, id) && LastNote(before, id) == None
    requires resumedAt <= pausedAt + ttl && StaysPaused(steps, id, pausedAt + ttl)
    ensures var a := if requested >= 1 then requested else d.service.subs.active[id].lastSequence;
            var all := UntilResume(before, id, ttl, pausedAt, steps);
            var d' := RunDaemon(limits, d, all);
            var (subs, saved) := Subs.Resume(d'.service.subs, id, resumedAt);
            var log := LogOf(d.store, topic);
            var unseen := Unseen(log, a) + Arrived(limits, d, all, topic);
            && id in subs.active && subs.active[id] == d.service.subs.active[id].(createdAt := resumedAt)
            && saved.Some?
            && var (topics, sequence) := (saved.value.topics, saved.value.lastSequence);
               (Exact(limits, topic, Seen(log, a), unseen,
                      ResumeReplay(limits, d'.store, topics, requested, sequence, ReplayBuffer))
                <==> ServedExactly(limits, log, a, unseen, !NeverErased(limits, d, all, topic)))
  {
    var all := UntilResume(before, id, ttl, pausedAt, steps);
    SavedIsLastNote(limits, d, before, id);
    RunPaused(limits, d, before, id, ttl, pausedAt, steps);
    ResumedAsSaved(limits, RunDaemon(limits, d, before), id, ttl, pausedAt, steps, resumedAt);
    var a := if requested >= 1 then requested else d.service.subs.active[id].lastSequence;
    ReplayExactIff(limits, d, topic, a, all);
  }

  /** Without a byte budget only clearing erases a topic. */
  lemma {:induction false} UnlimitedNeverErases(limits: Limits, d: Daemon, steps: seq<DaemonStep>, topic: Topic)
    requires limits.maxBytes == 0
    requires forall i :: 0 <= i < |steps| && steps[i].OfStore? ==>
               steps[i].store.Buffer? || (steps[i].store.ClearTopic? && steps[i].store.topic != topic)
    ensures NeverErased(limits, d, steps, topic)
    decreases |steps|
  {
    if steps != [] {
      UnlimitedNeverErases(limits, d, steps[..|steps| - 1], topic);
      NeverErasedSnoc(limits, d, steps, topic);
    }
  }

  // ---------------------------------------------------------------------------
  // A saved sequence of 0
  // ---------------------------------------------------------------------------

  /**
   Whatever happens in a pause before which the saved sequence is 0, a resume that names no
   sequence is sent at most one message and told of no gap.
   */
  lemma {:induction false} ZeroForgets(
      limits: Limits, d: Daemon, id: Subs.Id, topic: Topic, ttl: int, pausedAt: int,
      steps: seq<DaemonStep>, resumedAt: int)
    requires Subs.Consistent(d.service) && id in d.service.subs.active
    requires d.service.subs.active[id].topics == [topic] && d.service.subs.active[id].lastSequence == 0
    requires resumedAt <= pausedAt + ttl && StaysPaused(steps, id, pausedAt + ttl)
    ensures var d2 := RunDaemon(limits, Paused(limits, d, id, ttl, pausedAt), steps);
            var saved := Subs.Resume(d2.service.subs, id, resumedAt).1;
            && saved.Some? && saved.value.lastSequence == 0
            && var (topics, sequence) := (saved.value.topics, saved.value.lastSequence);
               var r := ResumeReplay(limits, d2.store, topics, 0, sequence, ReplayBuffer);
               !r.gap && r.missed == 0 && |r.messages| <= 1
  {
    ResumedAsSaved(limits, d, id, ttl, pausedAt, steps, resumedAt);
    FromZero(limits, RunDaemon(limits, Paused(limits, d, id, ttl, pausedAt), steps).store, topic);
  }

  /** A run that buffers k empty messages of a topic. */
  function Empties(topic: Topic, k: nat): seq<DaemonStep> {
    seq(k, i => OfStore(Buffer(topic, LogEntry([], 0), [])))
  }

  lemma {:induction false} EmptiesArrive(limits: Limits, d: Daemon, topic: Topic, k: nat)
    requires Valid(limits, d.store)
    ensures Valid(limits, RunDaemon(limits, d, Empties(topic, k)).store)
    ensures |Arrived(limits, d, Empties(topic, k), topic)| == k && NeverErased(limits, d, Empties(topic, k), topic)
    ensures ServiceSteps(Empties(topic, k)) == []
    decreases k
  {
    if k > 0 {
      EmptiesArrive(limits, d, topic, k - 1);
      assert Empties(topic, k)[..k - 1] == Empties(topic, k - 1);
      NeverErasedSnoc(limits, d, Empties(topic, k), topic);
      StepLog(limits, RunDaemon(limits, d, Empties(topic, k - 1)), Empties(topic, k)[k - 1], topic);
    }
  }

  function Subscribed(limits: Limits, d: Daemon, topic: Topic, suffix: string, now: int): Daemon {
    NextDaemon(limits, d, OfService(Subs.Subscribe("", [topic], 0, suffix, now)))
  }

  lemma {:induction false} FreshSavesZero(limits: Limits, d: Daemon, topic: Topic, suffix: string, now: int)
    requires Subs.Consistent(d.service) && |suffix| == 8
    ensures var d' := Subscribed(limits, d, topic, suffix, now);
            var id := Subs.GenerateId(d.service.counter, suffix);
            && d'.store == d.store && Subs.Consistent(d'.service) && id in d'.service.subs.active
            && d'.service.subs.active[id].topics == [topic] && d'.service.subs.active[id].lastSequence == 0
  {
    Subs.FreshId(d.service.counter, suffix);
    Subs.StepConsistent(d.service, Subs.Subscribe("", [topic], 0, suffix, now));
  }

  /**
   The run that shows it: from any state a client subscribes and is paused before its first
   delivery, any number k of messages arrive and none is erased, and on resuming it is sent at
   most one of them and told of no gap.
   */
  lemma {:induction false} FreshSubscriberLoses(
      limits: Limits, d: Daemon, topic: Topic, suffix: string, now: int, ttl: int, k: nat)
    requires Valid(limits, d.store) && Subs.Consistent(d.service) && |suffix| == 8 && ttl >= 0
    ensures var id := Subs.GenerateId(d.service.counter, suffix);
            var d1 := Paused(limits, Subscribed(limits, d, topic, suffix, now), id, ttl, now);
            var d2 := RunDaemon(limits, d1, Empties(topic, k));
            var saved := Subs.Resume(d2.service.subs, id, now).1;
            && |Arrived(limits, d1, Empties(topic, k), topic)| == k && NeverErased(limits, d1, Empties(topic, k), topic)
            && saved.Some?
            && var (topics, sequence) := (saved.value.topics, saved.value.lastSequence);
               var r := ResumeReplay(limits, d2.store, topics, 0, sequence, ReplayBuffer);
               !r.gap && r.missed == 0 && |r.messages| <= 1
  {
    var id := Subs.GenerateId(d.service.counter, suffix);
    var d0 := Subscribed(limits, d, topic, suffix, now);
    FreshSavesZero(limits, d, topic, suffix, now);
    EmptiesArrive(limits, Paused(limits, d0, id, ttl, now), topic, k);
    ZeroForgets(limits, d0, id, topic, ttl, now, Empties(topic, k), now);
  }

  // ---------------------------------------------------------------------------
  // The sequence a delivery saves
  // ---------------------------------------------------------------------------

  /** Buffering a message and, later, noting its sequence for a subscription are separate steps. */
  function Buffered(limits: Limits, d: Daemon, topic: Topic, e: LogEntry, order: seq<Topic>): Daemon {
    NextDaemon(limits, d, OfStore(Buffer(topic, e, order)))
  }

  function Noted(limits: Limits, d: Daemon, id: Subs.Id, sequence: nat): Daemon {
    NextDaemon(limits, d, OfService(Subs.Deliver(id, sequence)))
  }

  /** A delivery with nothing in between. */
  function Delivered(limits: Limits, d: Daemon, id: Subs.Id, topic: Topic, e: LogEntry, order: seq<Topic>): Daemon {
    Noted(limits, Buffered(limits, d, topic, e, order), id, BufferMessage(limits, d.store, topic, e, order).1)
  }

  ghost predicate StaysActive(steps: seq<DaemonStep>, id: Subs.Id) {
    forall i :: 0 <= i < |steps| && steps[i].OfService?
        ==> !(steps[i].service.Unsubscribe? && steps[i].service.id == id)
  }

  lemma {:induction false} ActiveAfter(limits: Limits, d: Daemon, steps: seq<DaemonStep>, id: Subs.Id)
    requires id in d.service.subs.active && StaysActive(steps, id)
    ensures id in RunDaemon(limits, d, steps).service.subs.active
    decreases |steps|
  {
    if steps != [] {
      ActiveAfter(limits, d, steps[..|steps| - 1], id);
    }
  }

  /**
   Whatever happens between buffering a message and noting it, the noted sequence is the saved
   one; and if the topic is not erased in between, it is the end of the topic's log if and only
   if no other message of the topic was buffered in between.
   */
  lemma {:induction false} DeliveryNoted(
      limits: Limits, d: Daemon, id: Subs.Id, topic: Topic, e: LogEntry, order: seq<Topic>, between: seq<DaemonStep>)
    requires Valid(limits, d.store) && id in d.service.subs.active && StaysActive(between, id)
    ensures var (d1, sequence) := (Buffered(limits, d, topic, e, order),
        BufferMessage(limits, d.store, topic, e, order).1);
            var d3 := Noted(limits, RunDaemon(limits, d1, between), id, sequence);
            && id in d3.service.subs.active && d3.service.subs.active[id].lastSequence == sequence
            && (sequence > 0 && NeverErased(limits, d1, between, topic) ==>
                  (sequence == |LogOf(d3.store, topic)| <==> Arrived(limits, d1, between, topic) == []))
  {
    var (d1, sequence) := (Buffered(limits, d, topic, e, order), BufferMessage(limits, d.store, topic, e, order).1);
    ActiveAfter(limits, d1, between, id);
    BufferValid(limits, d.store, topic, e, order);
    if sequence > 0 && NeverErased(limits, d1, between, topic) {
      LogGrows(limits, d1, between, topic);
    }
  }

  /** The last sequence a run notes for a subscription, if any. */
  function LastNote(steps: seq<DaemonStep>, id: Subs.Id): Option<nat>
    decreases |steps|
  {
    if steps == [] then None
    else
      var last := steps[|steps| - 1];
      if last.OfService? && last.service.Deliver? && last.service.id == id then Some(last.service.sequence)
      else LastNote(steps[..|steps| - 1], id)
  }

  lemma {:induction false} SavedStep(v: Subs.Service, step: Subs.Step, id: Subs.Id)
    requires Subs.Consistent(v) && id in v.subs.active && Subs.WellFormed(step)
    requires !(step.Unsubscribe? && step.id == id)
    ensures id in Subs.Next(v, step).subs.active
    ensures Subs.Next(v, step).subs.active[id]
         == if step.Deliver? && step.id == id then v.subs.active[id].(lastSequence := step.sequence)
            else v.subs.active[id]
  {}

  lemma {:induction false} NoteStep(limits: Limits, d: Daemon, step: DaemonStep, id: Subs.Id)
    requires Subs.Consistent(d.service) && id in d.service.subs.active
    requires step.OfService? ==> !(step.service.Unsubscribe? && step.service.id == id)
    ensures var d' := NextDaemon(limits, d, step);
            && Subs.Consistent(d'.service) && id in d'.service.subs.active
            && d'.service.subs.active[id]
               == if step.OfService? && step.service.Deliver? && step.service.id == id
                  then d.service.subs.active[id].(lastSequence := step.service.sequence) else d.service.subs.active[id]
  {
    if step.OfService? && Subs.WellFormed(step.service) {
      SavedStep(d.service, step.service, id);
      Subs.StepConsistent(d.service, step.service);
    }
  }

  /** However deliveries interleave, a subscription's saved sequence is the last one noted, not the largest. */
  lemma {:induction false} SavedIsLastNote(limits: Limits, d: Daemon, steps: seq<DaemonStep>, id: Subs.Id)
    requires Subs.Consistent(d.service) && id in d.service.subs.active && StaysActive(steps, id)
    ensures var (d', sub) := (RunDaemon(limits, d, steps), d.service.subs.active[id]);
            && Subs.Consistent(d'.service) && id in d'.service.subs.active
            && d'.service.subs.active[id]
               == if LastNote(steps, id).Some? then sub.(lastSequence := LastNote(steps, id).value) else sub
    decreases |steps|
  {
    if steps != [] {
      var (before, last) := (steps[..|steps| - 1], steps[|steps| - 1]);
      SavedIsLastNote(limits, d, before, id);
      NoteStep(limits, RunDaemon(limits, d, before), last, id);
    }
  }

  lemma {:induction false} RunDaemonSnoc(limits: Limits, d: Daemon, steps: seq<DaemonStep>, step: DaemonStep)
    ensures RunDaemon(limits, d, steps + [step]) == NextDaemon(limits, RunDaemon(limits, d, steps), step)
  {
    assert (steps + [step])[..|steps|] == steps;
  }

  /** Two deliveries of a topic that buffer in one order and note in the other. */
  function Crossed(topic: Topic, e: LogEntry, f: LogEntry, order: seq<Topic>, id: Subs.Id, n: nat): seq<DaemonStep> {
    [OfStore(Buffer(topic, e, order)), OfStore(Buffer(topic, f, order)),
     OfService(Subs.Deliver(id, n + 2)), OfService(Subs.Deliver(id, n + 1))]
  }

  lemma {:induction false} RunCrossed(
      limits: Limits, d: Daemon, topic: Topic, e: LogEntry, f: LogEntry, order: seq<Topic>, id: Subs.Id, n: nat)
    ensures RunDaemon(limits, d, Crossed(topic, e, f, order, id, n))
         == var both := Buffered(limits, Buffered(limits, d, topic, e, order), topic, f, order);
            Noted(limits, Noted(limits, both, id, n + 2), id, n + 1)
  {
    var steps := Crossed(topic, e, f, order, id, n);
    RunDaemonSnoc(limits, d, [], steps[0]);
    RunDaemonSnoc(limits, d, [steps[0]], steps[1]);
    RunDaemonSnoc(limits, d, [steps[0], steps[1]], steps[2]);
    RunDaemonSnoc(limits, d, [steps[0], steps[1], steps[2]], steps[3]);
    assert [] + [steps[0]] == [steps[0]] && [steps[0]] + [steps[1]] == [steps[0], steps[1]];
    assert [steps[0], steps[1]] + [steps[2]] == [steps[0], steps[1], steps[2]];
    assert [steps[0], steps[1], steps[2]] + [steps[3]] == steps;
  }

  /**
   Such deliveries send the saved sequence back: both messages were delivered, the saved
   sequence is one short of the log, and a replay would send the second message again.
   */
  lemma {:induction false} CrossedNotesRegress(
      limits: Limits, d: Daemon, topic: Topic, e: LogEntry, f: LogEntry, order: seq<Topic>, id: Subs.Id)
    requires Valid(limits, d.store) && limits.maxBytes == 0 && id in d.service.subs.active
    ensures var n := |LogOf(d.store, topic)|;
            var d' := RunDaemon(limits, d, Crossed(topic, e, f, order, id, n));
            && BufferMessage(limits, d.store, topic, e, order).1 == n + 1
            && BufferMessage(limits, Buffered(limits, d, topic, e, order).store, topic, f, order).1 == n + 2
            && |LogOf(d'.store, topic)| == n + 2
            && id in d'.service.subs.active && d'.service.subs.active[id].lastSequence == n + 1
            && Exact(limits, topic, LogOf(d.store, topic) + [e], [f],
                 Recovered(limits, d'.store, [topic], n + 1, ReplayBuffer))
  {
    var log := LogOf(d.store, topic);
    RunCrossed(limits, d, topic, e, f, order, id, |log|);
    var d' := RunDaemon(limits, d, Crossed(topic, e, f, order, id, |log|));
    assert LogOf(d'.store, topic) == (log + [e]) + [f];
    OneTopic(limits, d'.store, topic, log + [e], [f]);
  }

  /**
   A delivery saves a positive sequence under every iteration order if and only if there is no
   budget, or the payload fits it and needs no eviction or no topic is named "".
   */
  lemma {:induction false} SavedPositiveIff(limits: Limits, d: Daemon, id: Subs.Id, topic: Topic, e: LogEntry)
    requires Valid(limits, d.store) && id in d.service.subs.active && |e.payload| < SIZE_MODULUS
    ensures (forall order :: Covers(order, d.store.logs) ==>
               Delivered(limits, d, id, topic, e, order).service.subs.active[id].lastSequence > 0)
       <==> limits.maxBytes == 0 ||
            (|e.payload| <= limits.maxBytes && (d.store.total + |e.payload| <= limits.maxBytes || [] !in d.store.logs))
  {
    AlwaysAcceptedIff(limits, d.store, topic, e);
    forall order
      ensures Delivered(limits, d, id, topic, e, order).service.subs.active[id].lastSequence
           == BufferMessage(limits, d.store, topic, e, order).1
    {}
  }

  lemma {:induction false} OversizedSavesZero(
      limits: Limits, d: Daemon, id: Subs.Id, topic: Topic, e: LogEntry, order: seq<Topic>)
    requires Valid(limits, d.store) && Subs.Consistent(d.service) && id in d.service.subs.active
    requires 0 < limits.maxBytes < |e.payload| < SIZE_MODULUS
    ensures var d' := Delivered(limits, d, id, topic, e, order);
            && d'.store == d.store && Subs.Consistent(d'.service) && id in d'.service.subs.active
            && d'.service.subs.active[id] == d.service.subs.active[id].(lastSequence := 0)
  {
    OversizedRefused(limits, d.store, topic, e, order);
    Subs.StepConsistent(d.service, Subs.Deliver(id, 0));
  }

  /**
   An oversized message is delivered but not buffered, and saves 0. Whatever happens in a pause
   that follows, the replay sends at most one message and reports no gap.
   */
  lemma {:induction false} OversizedForgets(
      limits: Limits, d: Daemon, id: Subs.Id, topic: Topic, e: LogEntry, order: seq<Topic>, ttl: int, pausedAt: int,
      steps: seq<DaemonStep>, resumedAt: int)
    requires Valid(limits, d.store) && Subs.Consistent(d.service)
    requires id in d.service.subs.active && d.service.subs.active[id].topics == [topic]
    requires 0 < limits.maxBytes < |e.payload| < SIZE_MODULUS
    requires resumedAt <= pausedAt + ttl && StaysPaused(steps, id, pausedAt + ttl)
    ensures var d1 := Paused(limits, Delivered(limits, d, id, topic, e, order), id, ttl, pausedAt);
            var d2 := RunDaemon(limits, d1, steps);
            var saved := Subs.Resume(d2.service.subs, id, resumedAt).1;
            && saved.Some? && saved.value.lastSequence == 0
            && var (topics, sequence) := (saved.value.topics, saved.value.lastSequence);
               var r := ResumeReplay(limits, d2.store, topics, 0, sequence, ReplayBuffer);
               !r.gap && r.missed == 0 && |r.messages| <= 1
  {
    OversizedSavesZero(limits, d, id, topic, e, order);
    ZeroForgets(limits, Delivered(limits, d, id, topic, e, order), id, topic, ttl, pausedAt, steps, resumedAt);
  }

  /** And there are such pauses in which any number k of messages are missed. */
  lemma {:induction false} OversizedLosesAny(
      limits: Limits, d: Daemon, id: Subs.Id, topic: Topic, e: LogEntry, order: seq<Topic>,
      ttl: int, pausedAt: int, k: nat)
    requires Valid(limits, d.store) && Subs.Consistent(d.service) && id in d.service.subs.active
    requires 0 < limits.maxBytes < |e.payload| < SIZE_MODULUS
    ensures var d1 := Paused(limits, Delivered(limits, d, id, topic, e, order), id, ttl, pausedAt);
            && |Arrived(limits, d1, Empties(topic, k), topic)| == k && NeverErased(limits, d1, Empties(topic, k), topic)
            && StaysPaused(Empties(topic, k), id, pausedAt + ttl)
  {
    OversizedSavesZero(limits, d, id, topic, e, order);
    EmptiesArrive(limits, Paused(limits, Delivered(limits, d, id, topic, e, order), id, ttl, pausedAt), topic, k);
  }
}
