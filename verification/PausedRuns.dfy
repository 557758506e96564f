/**
 Subscriptions over whole runs: when a paused one can be resumed, when it is gone for good,
 and where an active one's terms come from.
 */
module PausedRuns {
  import opened Options
  import opened TopicHash
  import opened Subscriptions

  // ---------------------------------------------------------------------------
  // Gone for good
  // ---------------------------------------------------------------------------

  /** An id that was issued and is neither active nor paused. */
  ghost predicate Gone(v: Service, id: Id) {
    id !in v.subs.active && id !in v.subs.paused && Issued(id, v.counter)
  }

  ghost predicate AllWellFormed(steps: seq<Step>) {
    forall i :: 0 <= i < |steps| ==> WellFormed(steps[i])
  }

  lemma {:induction false} GoneStep(v: Service, step: Step, id: Id)
    requires Consistent(v) && Gone(v, id) && WellFormed(step)
    ensures Gone(Next(v, step), id)
  {
    if step.Subscribe? {
      FreshId(v.counter, step.suffix);
      IssuedStays(id, v.counter);
    }
  }

  /** No service ever brings a gone id back. */
  lemma {:induction false} GoneStays(v: Service, steps: seq<Step>, id: Id)
    requires Consistent(v) && Gone(v, id) && AllWellFormed(steps)
    ensures Consistent(Run(v, steps)) && Gone(Run(v, steps), id)
    decreases |steps|
  {
    if steps != [] {
      var (before, step) := (steps[..|steps| - 1], steps[|steps| - 1]);
      GoneStays(v, before, id);
      StepConsistent(Run(v, before), step);
      GoneStep(Run(v, before), step, id);
    }
  }

  /** After a plain unsubscribe no resume, in any continuation and at any time, finds the id. */
  lemma {:induction false} UnsubscribedForGood(v: Service, id: Id, ttl: int, at: int, steps: seq<Step>, now: int)
    requires Consistent(v) && id in v.subs.active && AllWellFormed(steps)
    ensures var w := Run(Next(v, Unsubscribe(id, false, ttl, at)), steps);
            id !in w.subs.active && id !in w.subs.paused && Resume(w.subs, id, now) == (w.subs, None)
  {
    StepConsistent(v, Unsubscribe(id, false, ttl, at));
    GoneStays(Next(v, Unsubscribe(id, false, ttl, at)), steps, id);
  }

  // ---------------------------------------------------------------------------
  // When a resume succeeds
  // ---------------------------------------------------------------------------

  /** Steps that do not themselves resume `id`. */
  ghost predicate Others(steps: seq<Step>, id: Id) {
    forall i :: 0 <= i < |steps| ==> WellFormed(steps[i]) && !(steps[i].ResumeSubscribe? && steps[i].id == id)
  }

  /** No sweep of expired subscriptions comes later than `until`. */
  ghost predicate NoLaterSweep(steps: seq<Step>, until: int) {
    forall i :: 0 <= i < |steps| && steps[i].ExpirePaused? ==> steps[i].now <= until
  }

  lemma {:induction false} PausedOrSwept(v: Service, step: Step, id: Id)
    requires Consistent(v) && id in v.subs.paused && WellFormed(step)
    requires !(step.ResumeSubscribe? && step.id == id)
    ensures if step.ExpirePaused? && step.now > v.subs.paused[id].expiresAt then Gone(Next(v, step), id)
            else id in Next(v, step).subs.paused && Next(v, step).subs.paused[id] == v.subs.paused[id]
  {}

  lemma {:induction false} SweepSnoc(steps: seq<Step>, until: int)
    requires steps != []
    ensures var (before, step) := (steps[..|steps| - 1], steps[|steps| - 1]);
            NoLaterSweep(steps, until) <==> NoLaterSweep(before, until) && (step.ExpirePaused? ==> step.now <= until)
  {
    var before := steps[..|steps| - 1];
    forall i | 0 <= i < |before| ensures before[i] == steps[i] {}
  }

  /** A paused subscription stays as it is until a sweep later than its expiry, and is then gone for good. */
  lemma {:induction false} PausedFate(v: Service, steps: seq<Step>, id: Id)
    requires Consistent(v) && id in v.subs.paused && Others(steps, id)
    ensures var (w, p) := (Run(v, steps), v.subs.paused[id]);
            && Consistent(w)
            && if NoLaterSweep(steps, p.expiresAt) then id in w.subs.paused && w.subs.paused[id] == p else Gone(w, id)
    decreases |steps|
  {
    if steps != [] {
      var (before, step) := (steps[..|steps| - 1], steps[|steps| - 1]);
      PausedFate(v, before, id);
      StepConsistent(Run(v, before), step);
      SweepSnoc(steps, v.subs.paused[id].expiresAt);
      if NoLaterSweep(before, v.subs.paused[id].expiresAt) {
        PausedOrSwept(Run(v, before), step, id);
      } else {
        GoneStep(Run(v, before), step, id);
      }
    }
  }

  /** The subscription paused at `at`, after `steps`, and resumed at `now`. */
  function Resumed(v: Service, id: Id, ttl: int, at: int, steps: seq<Step>, now: int)
    : (State, Option<PausedSubscription>)
    requires AllWellFormed(steps)
  {
    Resume(Run(Next(v, Unsubscribe(id, true, ttl, at)), steps).subs, id, now)
  }

  /**
   A subscription paused at `at` for `ttl` can be resumed at `now`, whatever the service does to
   other subscriptions in between, if and only if `now` is not later than at + ttl and neither
   was any sweep of expired subscriptions. Then it is active again as it was, with all it had
   saved; otherwise it is neither active nor paused.
   */
  lemma {:induction false} ResumedIff(v: Service, id: Id, ttl: int, at: int, steps: seq<Step>, now: int)
    requires Consistent(v) && id in v.subs.active && Others(steps, id)
    ensures var (s, saved) := Resumed(v, id, ttl, at, steps, now);
            var sub := v.subs.active[id];
            && (saved.Some? <==> now <= at + ttl && NoLaterSweep(steps, at + ttl))
            && id !in s.paused && (id in s.active <==> saved.Some?)
            && (saved.Some? ==>
                  && s.active[id] == sub.(createdAt := now)
                  && saved.value == PausedSubscription(
                       sub.clientId, sub.topics, sub.maxBuffer, sub.lastSequence, at, at + ttl))
  {
    StepConsistent(v, Unsubscribe(id, true, ttl, at));
    PausedFate(Next(v, Unsubscribe(id, true, ttl, at)), steps, id);
  }

  /** A resume that came too late leaves the id unresumable in every continuation. */
  lemma {:induction false} TooLateForGood(
      v: Service, id: Id, ttl: int, at: int, steps: seq<Step>, now: int, more: seq<Step>, again: int)
    requires Consistent(v) && id in v.subs.active && Others(steps, id) && AllWellFormed(more)
    requires now > at + ttl || !NoLaterSweep(steps, at + ttl)
    ensures var v2 := Run(Next(v, Unsubscribe(id, true, ttl, at)), steps);
            var w := Run(Next(v2, ResumeSubscribe(id, now)), more);
            id !in w.subs.active && id !in w.subs.paused && Resume(w.subs, id, again) == (w.subs, None)
  {
    var v1 := Next(v, Unsubscribe(id, true, ttl, at));
    StepConsistent(v, Unsubscribe(id, true, ttl, at));
    PausedFate(v1, steps, id);
    StepConsistent(Run(v1, steps), ResumeSubscribe(id, now));
    GoneStays(Next(Run(v1, steps), ResumeSubscribe(id, now)), more, id);
  }

  // ---------------------------------------------------------------------------
  // Where a subscription's terms come from
  // ---------------------------------------------------------------------------

  ghost function From(steps: seq<Step>): Service
    requires AllWellFormed(steps)
  {
    Run(Service(0, NO_SUBSCRIPTIONS), steps)
  }

  /** Step i subscribed, and was given the id. */
  ghost predicate Subscribes(steps: seq<Step>, i: nat, id: Id)
    requires AllWellFormed(steps)
  {
    && i < |steps| && steps[i].Subscribe?
    && id == GenerateId(From(steps[..i]).counter, steps[i].suffix)
  }

  /** An id, active or paused, has the terms its subscribe step asked for. */
  ghost predicate AsAsked(steps: seq<Step>, i: nat, v: Service, id: Id)
    requires i < |steps| && steps[i].Subscribe?
  {
    && (id in v.subs.active ==>
          && v.subs.active[id].clientId == steps[i].clientId && v.subs.active[id].topics == steps[i].topics
          && v.subs.active[id].maxBuffer == steps[i].maxBuffer)
    && (id in v.subs.paused ==>
          && v.subs.paused[id].clientId == steps[i].clientId && v.subs.paused[id].topics == steps[i].topics
          && v.subs.paused[id].maxBuffer == steps[i].maxBuffer)
  }

  lemma {:induction false} TermsStep(v: Service, step: Step, id: Id)
    requires Consistent(v) && WellFormed(step) && (id in v.subs.active || id in v.subs.paused)
    ensures var w := Next(v, step);
            && (id in w.subs.active ==>
                  if id in v.subs.active
                  then w.subs.active[id] == v.subs.active[id].(lastSequence := w.subs.active[id].lastSequence)
                  else w.subs.active[id] == Revive(v.subs.paused[id], step.now) && step.ResumeSubscribe?)
            && (id in w.subs.paused ==>
                  if id in v.subs.paused then w.subs.paused[id] == v.subs.paused[id]
                  else step.Unsubscribe? && w.subs.paused[id] == Pause(v.subs.active[id], step.ttl, step.now))
  {
    if step.Subscribe? {
      FreshId(v.counter, step.suffix);
    }
  }

  lemma {:induction false} NewcomerStep(v: Service, step: Step, id: Id)
    requires Consistent(v) && WellFormed(step) && id !in v.subs.active && id !in v.subs.paused
    requires id in Next(v, step).subs.active || id in Next(v, step).subs.paused
    ensures step.Subscribe? && id == GenerateId(v.counter, step.suffix) && id !in Next(v, step).subs.paused
    ensures Next(v, step).subs.active[id] == Subscription(step.clientId, step.topics, step.maxBuffer, step.now, 0)
  {}

  lemma {:induction false} SubscribesLater(steps: seq<Step>, i: nat, id: Id)
    requires AllWellFormed(steps) && steps != [] && i < |steps| - 1
    ensures Subscribes(steps, i, id) <==> Subscribes(steps[..|steps| - 1], i, id)
  {
    assert steps[..|steps| - 1][..i] == steps[..i];
  }

  /** In every run an active or paused subscription has the client, topics and buffer size it was subscribed with. */
  lemma {:induction false} TermsKept(steps: seq<Step>, id: Id) returns (i: nat)
    requires AllWellFormed(steps)
    requires id in From(steps).subs.active || id in From(steps).subs.paused
    ensures Subscribes(steps, i, id) && AsAsked(steps, i, From(steps), id)
    decreases |steps|
  {
    var (before, step) := (steps[..|steps| - 1], steps[|steps| - 1]);
    RunConsistent(before);
    var v := From(before);
    if id in v.subs.active || id in v.subs.paused {
      i := TermsKept(before, id);
      SubscribesLater(steps, i, id);
      assert steps[i] == before[i];
      TermsStep(v, step, id);
    } else {
      NewcomerStep(v, step, id);
      i := |before|;
    }
  }

  /** Step j made the id active, and it has been since. */
  ghost predicate ActiveSince(steps: seq<Step>, j: nat, id: Id)
    requires AllWellFormed(steps)
  {
    && j < |steps| && id !in From(steps[..j]).subs.active
    && forall l :: j < l <= |steps| ==> id in From(steps[..l]).subs.active
  }

  lemma {:induction false} ActiveStill(steps: seq<Step>, j: nat, id: Id)
    requires AllWellFormed(steps) && steps != [] && ActiveSince(steps[..|steps| - 1], j, id)
    requires id in From(steps).subs.active
    ensures ActiveSince(steps, j, id)
  {
    var before := steps[..|steps| - 1];
    assert before[..j] == steps[..j];
    forall l | j < l <= |steps| ensures id in From(steps[..l]).subs.active {
      if l < |steps| {
        assert before[..l] == steps[..l];
      } else {
        assert steps[..l] == steps;
      }
    }
  }

  lemma {:induction false} ActiveNow(steps: seq<Step>, id: Id)
    requires AllWellFormed(steps) && steps != []
    requires id !in From(steps[..|steps| - 1]).subs.active && id in From(steps).subs.active
    ensures ActiveSince(steps, |steps| - 1, id)
  {
    assert steps[..|steps|] == steps;
  }

  /** What the last step does to the creation time of an id that is active after it. */
  lemma {:induction false} CreatedStep(v: Service, step: Step, id: Id)
    requires Consistent(v) && WellFormed(step) && id in Next(v, step).subs.active
    ensures if id in v.subs.active then Next(v, step).subs.active[id].createdAt == v.subs.active[id].createdAt
            else (step.Subscribe? || step.ResumeSubscribe?) && Next(v, step).subs.active[id].createdAt == step.now
  {
    if id in v.subs.active || id in v.subs.paused {
      TermsStep(v, step, id);
    } else {
      NewcomerStep(v, step, id);
    }
  }

  /** The creation time of an active subscription is when it last became active. */
  lemma {:induction false} CreatedWhenActive(steps: seq<Step>, id: Id) returns (j: nat)
    requires AllWellFormed(steps) && id in From(steps).subs.active
    ensures ActiveSince(steps, j, id) && (steps[j].Subscribe? || steps[j].ResumeSubscribe?)
    ensures From(steps).subs.active[id].createdAt == steps[j].now
    decreases |steps|
  {
    var (before, step) := (steps[..|steps| - 1], steps[|steps| - 1]);
    RunConsistent(before);
    CreatedStep(From(before), step, id);
    if id in From(before).subs.active {
      j := CreatedWhenActive(before, id);
      ActiveStill(steps, j, id);
    } else {
      j := |before|;
      ActiveNow(steps, id);
    }
  }

  // ---------------------------------------------------------------------------
  // What ids look like
  // ---------------------------------------------------------------------------

  /** The number a string of digits stands for. */
  function Parse(s: string): nat
    decreases |s|
  {
    if s == [] then 0
    else 10 * Parse(s[..|s| - 1]) + (if '0' <= s[|s| - 1] <= '9' then (s[|s| - 1] - '0') as int else 0)
  }

  lemma {:induction false} ParseDecimal(n: nat)
    ensures Parse(Decimal(n)) == n
  {
    var s := Decimal(n);
    if n >= 10 {
      ParseDecimal(n / 10);
      assert s[..|s| - 1] == Decimal(n / 10);
    } else {
      assert s[..0] == [];
    }
  }

  /** "sub-", the counter in decimal, a dash, and the eight random characters. */
  lemma {:induction false} IdShape(counter: nat, suffix: string)
    requires |suffix| == 8
    ensures var id := GenerateId(counter, suffix);
            && id[..4] == "sub-" && Parse(id[4..|id| - 9]) == counter
            && id[|id| - 9] == '-' && id[|id| - 8..] == suffix
  {
    var id := GenerateId(counter, suffix);
    ParseDecimal(counter);
    assert id[4..|id| - 9] == Decimal(counter);
  }

  // ---------------------------------------------------------------------------
  // Noted sequences
  // ---------------------------------------------------------------------------

  /** The last sequence noted for an id, if any. */
  function LastIn(notes: seq<(Id, nat)>, id: Id): Option<nat>
    decreases |notes|
  {
    if notes == [] then None
    else if notes[|notes| - 1].0 == id then Some(notes[|notes| - 1].1)
    else LastIn(notes[..|notes| - 1], id)
  }

  /** Noting changes an active subscription only by its last note, and no other. */
  lemma {:induction false} NotedSaves(v: Service, notes: seq<(Id, nat)>, id: Id)
    requires id in v.subs.active
    ensures id in Noted(v, notes).subs.active
    ensures Noted(v, notes).subs.active[id]
         == if LastIn(notes, id).Some? then v.subs.active[id].(lastSequence := LastIn(notes, id).value)
            else v.subs.active[id]
    decreases |notes|
  {
    if notes != [] {
      NotedSaves(v, notes[..|notes| - 1], id);
    }
  }
}
