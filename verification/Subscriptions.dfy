/**
 Local subscriptions: active ones, paused ones, and the inverted index from topics to
 subscription ids, under the steps the sidecar service takes on them. Delivery callbacks
 are not modelled.
 */
module Subscriptions {
  import opened Options
  import opened TopicHash

  type Id = string

  datatype Subscription = Subscription(
    clientId: string, topics: seq<Topic>, maxBuffer: int, createdAt: int, lastSequence: nat)

  datatype PausedSubscription = PausedSubscription(
    clientId: string, topics: seq<Topic>, maxBuffer: int, lastSequence: nat, pausedAt: int, expiresAt: int)

  type Index = map<Topic, set<Id>>

  datatype State = State(active: map<Id, Subscription>, index: Index, paused: map<Id, PausedSubscription>)

  const NO_SUBSCRIPTIONS := State(map[], map[], map[])

  function IdsFor(index: Index, t: Topic): set<Id> {
    if t in index then index[t] else {}
  }

  /** The index with an id entered under each of its topics. */
  function Entered(index: Index, topics: seq<Topic>, id: Id): Index {
    map t | t in index.Keys + (set x | x in topics) :: IdsFor(index, t) + (if t in topics then {id} else {})
  }

  /** The index with an id struck from its topics, and topics left without ids dropped. */
  function Struck(index: Index, topics: seq<Topic>, id: Id): Index {
    map t | t in index && (t in topics ==> index[t] - {id} != {}) :: if t in topics then index[t] - {id} else index[t]
  }

  function Add(s: State, id: Id, clientId: string, topics: seq<Topic>, maxBuffer: int, now: int): (State, bool) {
    if id in s.active then (s, false)
    else (s.(active := s.active[id := Subscription(clientId, topics, maxBuffer, now, 0)],
             index := Entered(s.index, topics, id)), true)
  }

  function Pause(sub: Subscription, ttl: int, now: int): PausedSubscription {
    PausedSubscription(sub.clientId, sub.topics, sub.maxBuffer, sub.lastSequence, now, now + ttl)
  }

  function Remove(s: State, id: Id, pause: bool, ttl: int, now: int): (State, bool) {
    if id !in s.active then (s, false)
    else
      var sub := s.active[id];
      (State(s.active - {id}, Struck(s.index, sub.topics, id),
             if pause then s.paused[id := Pause(sub, ttl, now)] else s.paused), true)
  }

  function Revive(p: PausedSubscription, now: int): Subscription {
    Subscription(p.clientId, p.topics, p.maxBuffer, now, p.lastSequence)
  }

  function Resume(s: State, id: Id, now: int): (State, Option<PausedSubscription>) {
    if id !in s.paused then (s, None)
    else if now > s.paused[id].expiresAt then (s.(paused := s.paused - {id}), None)
    else
      var p := s.paused[id];
      (State(s.active[id := Revive(p, now)], Entered(s.index, p.topics, id), s.paused - {id}), Some(p))
  }

  function ClearExpired(s: State, now: int): State {
    s.(paused := map id | id in s.paused && now <= s.paused[id].expiresAt :: s.paused[id])
  }

  function UpdateSequence(s: State, id: Id, sequence: nat): State {
    if id in s.active then s.(active := s.active[id := s.active[id].(lastSequence := sequence)]) else s
  }

  // ---------------------------------------------------------------------------
  // Generated ids
  // ---------------------------------------------------------------------------

  const DIGITS := "0123456789"

  function Decimal(n: nat): (s: string)
    ensures |s| > 0
  {
    if n < 10 then [DIGITS[n]] else Decimal(n / 10) + [DIGITS[n % 10]]
  }

  lemma {:induction false} DigitsDiffer(m: nat, n: nat)
    requires m < 10 && n < 10 && DIGITS[m] == DIGITS[n]
    ensures m == n
  {}

  lemma {:induction false} DecimalInjective(m: nat, n: nat)
    requires Decimal(m) == Decimal(n)
    ensures m == n
  {
    var (s, t) := (Decimal(m), Decimal(n));
    assert s[|s| - 1] == DIGITS[m % 10] && t[|t| - 1] == DIGITS[n % 10];
    DigitsDiffer(m % 10, n % 10);
    if m >= 10 && n >= 10 {
      assert s[..|s| - 1] == Decimal(m / 10) && t[..|t| - 1] == Decimal(n / 10);
      DecimalInjective(m / 10, n / 10);
    }
  }

  /** "sub-", the counter, and eight characters of a fresh UUID. */
  function GenerateId(counter: nat, suffix: string): (id: Id)
    requires |suffix| == 8
    ensures |id| > 13
  {
    "sub-" + Decimal(counter) + "-" + suffix
  }

  /** Whatever the random part, ids from different counter values differ. */
  lemma {:induction false} GeneratedIdsDiffer(c: nat, x: string, d: nat, y: string)
    requires |x| == |y| == 8 && GenerateId(c, x) == GenerateId(d, y)
    ensures c == d
  {
    var (i, j) := (GenerateId(c, x), GenerateId(d, y));
    assert i[4..|i| - 9] == Decimal(c) && j[4..|j| - 9] == Decimal(d);
    DecimalInjective(c, d);
  }

  // ---------------------------------------------------------------------------
  // Service runs
  // ---------------------------------------------------------------------------

  datatype Service = Service(counter: nat, subs: State)

  datatype Step =
    | Subscribe(clientId: string, topics: seq<Topic>, maxBuffer: int, suffix: string, now: int)
    | Unsubscribe(id: Id, pause: bool, ttl: int, now: int)
    | ResumeSubscribe(id: Id, now: int)
    | ExpirePaused(now: int)
    | Deliver(id: Id, sequence: nat)

  predicate WellFormed(step: Step) {
    step.Subscribe? ==> |step.suffix| == 8
  }

  function Next(v: Service, step: Step): Service
    requires WellFormed(step)
  {
    match step
    case Subscribe(client, topics, max, suffix, now) =>
      Service(v.counter + 1, Add(v.subs, GenerateId(v.counter, suffix), client, topics, max, now).0)
    case Unsubscribe(id, pause, ttl, now) => v.(subs := Remove(v.subs, id, pause, ttl, now).0)
    case ResumeSubscribe(id, now) => v.(subs := Resume(v.subs, id, now).0)
    case ExpirePaused(now) => v.(subs := ClearExpired(v.subs, now))
    case Deliver(id, sequence) => v.(subs := UpdateSequence(v.subs, id, sequence))
  }

  function Run(v: Service, steps: seq<Step>): Service
    requires forall i :: 0 <= i < |steps| ==> WellFormed(steps[i])
    decreases |steps|
  {
    if steps == [] then v
    else Next(Run(v, steps[..|steps| - 1]), steps[|steps| - 1])
  }

  /** The index holds exactly the pairs of an active subscription and one of its topics, and no empty sets. */
  ghost predicate Inverse(index: Index, active: map<Id, Subscription>) {
    && (forall t, id :: id in IdsFor(index, t) <==> id in active && t in active[id].topics)
    && (forall t :: t in index ==> index[t] != {})
  }

  ghost predicate Issued(id: Id, counter: nat) {
    exists c: nat, x :: c < counter && |x| == 8 && id == GenerateId(c, x)
  }

  ghost predicate Consistent(v: Service) {
    && Inverse(v.subs.index, v.subs.active)
    && v.subs.active.Keys !! v.subs.paused.Keys
    && (forall id :: id in v.subs.active || id in v.subs.paused ==> Issued(id, v.counter))
  }

  lemma {:induction false} FreshId(counter: nat, suffix: string)
    requires |suffix| == 8
    ensures !Issued(GenerateId(counter, suffix), counter)
    ensures Issued(GenerateId(counter, suffix), counter + 1)
  {
    var id := GenerateId(counter, suffix);
    if Issued(id, counter) {
      var c: nat, x :| c < counter && |x| == 8 && id == GenerateId(c, x);
      GeneratedIdsDiffer(c, x, counter, suffix);
    }
  }

  lemma {:induction false} IssuedStays(id: Id, counter: nat)
    requires Issued(id, counter)
    ensures Issued(id, counter + 1)
  {}

  lemma {:induction false} EnteredInverse(index: Index, active: map<Id, Subscription>, id: Id, sub: Subscription)
    requires Inverse(index, active) && id !in active
    ensures Inverse(Entered(index, sub.topics, id), active[id := sub])
  {
    var index' := Entered(index, sub.topics, id);
    forall t, x ensures x in IdsFor(index', t) <==> x in active[id := sub] && t in active[id := sub][x].topics {
      assert x in IdsFor(index, t) <==> x in active && t in active[x].topics;
    }
  }

  lemma {:induction false} StruckInverse(index: Index, active: map<Id, Subscription>, id: Id)
    requires Inverse(index, active) && id in active
    ensures Inverse(Struck(index, active[id].topics, id), active - {id})
  {
    var index' := Struck(index, active[id].topics, id);
    forall t, x ensures x in IdsFor(index', t) <==> x in active - {id} && t in (active - {id})[x].topics {
      assert x in IdsFor(index, t) <==> x in active && t in active[x].topics;
    }
  }

  lemma {:induction false} StepConsistent(v: Service, step: Step)
    requires WellFormed(step) && Consistent(v)
    ensures Consistent(Next(v, step))
  {
    match step
    case Subscribe(client, topics, max, suffix, now) =>
      var id := GenerateId(v.counter, suffix);
      FreshId(v.counter, suffix);
      forall x | Issued(x, v.counter) ensures Issued(x, v.counter + 1) { IssuedStays(x, v.counter); }
      EnteredInverse(v.subs.index, v.subs.active, id, Subscription(client, topics, max, now, 0));
    case Unsubscribe(id, _, _, _) =>
      if id in v.subs.active {
        StruckInverse(v.subs.index, v.subs.active, id);
      }
    case ResumeSubscribe(id, now) =>
      if id in v.subs.paused && now <= v.subs.paused[id].expiresAt {
        EnteredInverse(v.subs.index, v.subs.active, id, Revive(v.subs.paused[id], now));
      }
    case ExpirePaused(_) =>
    case Deliver(id, sequence) =>
      if id in v.subs.active {
        var active' := UpdateSequence(v.subs, id, sequence).active;
        assert forall x :: x in active' ==> x in v.subs.active && active'[x].topics == v.subs.active[x].topics;
      }
  }

  /**
   Over every run of the service, active and paused ids are disjoint and the index is
   exactly the inverse of the active subscriptions' topics, without empty sets.
   */
  lemma {:induction false} RunConsistent(steps: seq<Step>)
    requires forall i :: 0 <= i < |steps| ==> WellFormed(steps[i])
    ensures Consistent(Run(Service(0, NO_SUBSCRIPTIONS), steps))
    decreases |steps|
  {
    if steps != [] {
      RunConsistent(steps[..|steps| - 1]);
      StepConsistent(Run(Service(0, NO_SUBSCRIPTIONS), steps[..|steps| - 1]), steps[|steps| - 1]);
    }
  }

  // ---------------------------------------------------------------------------
  // Pausing and resuming
  // ---------------------------------------------------------------------------

  function Time(step: Step): Option<int> {
    match step
    case Subscribe(_, _, _, _, now) => Some(now)
    case Unsubscribe(_, _, _, now) => Some(now)
    case ResumeSubscribe(_, now) => Some(now)
    case ExpirePaused(now) => Some(now)
    case Deliver(_, _) => None
  }

  /** Steps that happen no later than `until` and do not themselves resume `id`. */
  ghost predicate Before(steps: seq<Step>, id: Id, until: int) {
    forall i :: 0 <= i < |steps| ==>
      && WellFormed(steps[i])
      && (Time(steps[i]).Some? ==> Time(steps[i]).value <= until)
      && !(steps[i].ResumeSubscribe? && steps[i].id == id)
  }

  lemma {:induction false} PausedStep(v: Service, step: Step, id: Id, until: int)
    requires Consistent(v) && id in v.subs.paused && until <= v.subs.paused[id].expiresAt
    requires Before([step], id, until)
    ensures WellFormed(step) && id in Next(v, step).subs.paused && Next(v, step).subs.paused[id] == v.subs.paused[id]
  {
    assert WellFormed([step][0]);
  }

  lemma {:induction false} PausedStays(v: Service, steps: seq<Step>, id: Id, until: int)
    requires Consistent(v) && id in v.subs.paused && until <= v.subs.paused[id].expiresAt
    requires Before(steps, id, until)
    ensures var w := Run(v, steps);
            Consistent(w) && id in w.subs.paused && w.subs.paused[id] == v.subs.paused[id]
    decreases |steps|
  {
    if steps != [] {
      var before, step := steps[..|steps| - 1], steps[|steps| - 1];
      PausedStays(v, before, id, until);
      StepConsistent(Run(v, before), step);
      PausedStep(Run(v, before), step, id, until);
    }
  }

  lemma {:induction false} ResumeRestores(v: Service, p: PausedSubscription, id: Id, now: int)
    requires Consistent(v) && id in v.subs.paused && p == v.subs.paused[id] && now <= p.expiresAt
    ensures var (s, saved) := Resume(v.subs, id, now);
            && saved == Some(p) && s.active == v.subs.active[id := Revive(p, now)]
            && Inverse(s.index, s.active)
  {
    StepConsistent(v, ResumeSubscribe(id, now));
  }

  /**
   Pausing a subscription and resuming it before it expires restores its client, topics,
   buffer size and last delivered sequence, and its index entries, whatever the service
   does to other subscriptions in between; and the whole index, if the others end as they were.
   */
  lemma {:induction false} PauseThenResume(v: Service, id: Id, ttl: int, paused: int, steps: seq<Step>, resumed: int)
    requires Consistent(v) && id in v.subs.active
    requires resumed <= paused + ttl && Before(steps, id, resumed)
    ensures var v1 := Next(v, Unsubscribe(id, true, ttl, paused));
            var v2 := Run(v1, steps);
            var (s3, saved) := Resume(v2.subs, id, resumed);
            && saved == Some(Pause(v.subs.active[id], ttl, paused))
            && id in s3.active && s3.active[id] == v.subs.active[id].(createdAt := resumed)
            && (forall t :: id in IdsFor(s3.index, t) <==> id in IdsFor(v.subs.index, t))
            && (v2.subs.active == v1.subs.active ==> s3.index == v.subs.index)
  {
    var p := Pause(v.subs.active[id], ttl, paused);
    var unsubscribe := Unsubscribe(id, true, ttl, paused);
    var v1 := Next(v, unsubscribe);
    assert v1.subs.active == v.subs.active - {id} && id in v1.subs.paused && v1.subs.paused[id] == p;
    StepConsistent(v, unsubscribe);
    PausedStays(v1, steps, id, resumed);
    var v2 := Run(v1, steps);
    ResumeRestores(v2, p, id, resumed);
    var s3 := Resume(v2.subs, id, resumed).0;
    assert s3.active[id] == Revive(p, resumed) == v.subs.active[id].(createdAt := resumed);
    SameEntries(s3, v.subs, id);
    if v2.subs.active == v1.subs.active {
      InverseUnique(s3.index, s3.active, v.subs.index, v.subs.active);
    }
  }

  lemma {:induction false} SameEntries(s: State, s': State, id: Id)
    requires Inverse(s.index, s.active) && Inverse(s'.index, s'.active)
    requires id in s.active && id in s'.active && s.active[id].topics == s'.active[id].topics
    ensures forall t :: id in IdsFor(s.index, t) <==> id in IdsFor(s'.index, t)
  {}

  /** The index is determined by which topics each active subscription has. */
  lemma {:induction false} InverseUnique(i: Index, a: map<Id, Subscription>, j: Index, b: map<Id, Subscription>)
    requires Inverse(i, a) && Inverse(j, b)
    requires a.Keys == b.Keys && forall id :: id in a ==> a[id].topics == b[id].topics
    ensures i == j
  {
    forall t ensures IdsFor(i, t) == IdsFor(j, t) {
      forall id ensures id in IdsFor(i, t) <==> id in IdsFor(j, t) {
        assert id in IdsFor(i, t) <==> id in a && t in a[id].topics;
        assert id in IdsFor(j, t) <==> id in b && t in b[id].topics;
      }
    }
    assert i.Keys == j.Keys by {
      forall t ensures t in i <==> t in j {
        assert t in i <==> IdsFor(i, t) != {};
        assert t in j <==> IdsFor(j, t) != {};
      }
    }
    forall t | t in i ensures i[t] == j[t] {
      assert IdsFor(i, t) == IdsFor(j, t);
    }
  }

  // ---------------------------------------------------------------------------
  // Why ids must be fresh
  // ---------------------------------------------------------------------------

  /**
   Adding does not look at the paused table. If an id is both active and paused, resuming it
   keeps the index an inverse exactly when the paused topics include the active ones.
   */
  lemma {:induction false} ResumeKeepsInverseIff(s: State, id: Id, now: int)
    requires Inverse(s.index, s.active) && id in s.paused && now <= s.paused[id].expiresAt
    ensures var s' := Resume(s, id, now).0;
            Inverse(s'.index, s'.active)
            <==> (id in s.active ==> forall t :: t in s.active[id].topics ==> t in s.paused[id].topics)
  {
    var (s', p) := (Resume(s, id, now).0, s.paused[id]);
    if id !in s.active {
      EnteredInverse(s.index, s.active, id, Revive(p, now));
    } else if t :| t in s.active[id].topics && t !in p.topics {
      assert id in IdsFor(s.index, t);
      assert id in IdsFor(s'.index, t) && t !in s'.active[id].topics;
    } else {
      forall t, x ensures x in IdsFor(s'.index, t) <==> x in s'.active && t in s'.active[x].topics {
        assert x in IdsFor(s.index, t) <==> x in s.active && t in s.active[x].topics;
      }
    }
  }

  /**
   Whatever the id, adding is refused if and only if it is active, and removing if and only if
   it is not; a refusal changes nothing, and removing at once undoes an addition completely.
   */
  lemma {:induction false} AddThenRemove(
      s: State, id: Id, clientId: string, topics: seq<Topic>, maxBuffer: int, at: int, pause: bool, ttl: int, now: int)
    requires Inverse(s.index, s.active)
    ensures var (s', added) := Add(s, id, clientId, topics, maxBuffer, at);
            && (added <==> id !in s.active)
            && (added ==> Inverse(s'.index, s'.active) && Remove(s', id, false, ttl, now) == (s, true))
            && (!added ==> s' == s)
    ensures Remove(s, id, pause, ttl, now).1 <==> id in s.active
    ensures id !in s.active ==> Remove(s, id, pause, ttl, now).0 == s
  {
    if id !in s.active {
      var sub := Subscription(clientId, topics, maxBuffer, at, 0);
      var (active, index) := (s.active[id := sub], Entered(s.index, topics, id));
      EnteredInverse(s.index, s.active, id, sub);
      StruckInverse(index, active, id);
      assert active - {id} == s.active;
      InverseUnique(Struck(index, topics, id), active - {id}, s.index, s.active);
    }
  }

  // ---------------------------------------------------------------------------
  // What noted sequences leave alone
  // ---------------------------------------------------------------------------

  /** The same subscription up to its last sequence. */
  ghost predicate AlikeActive(a: map<Id, Subscription>, b: map<Id, Subscription>) {
    a.Keys == b.Keys && forall id :: id in a ==> a[id] == b[id].(lastSequence := a[id].lastSequence)
  }

  ghost predicate AlikePaused(a: map<Id, PausedSubscription>, b: map<Id, PausedSubscription>) {
    a.Keys == b.Keys && forall id :: id in a ==> a[id] == b[id].(lastSequence := a[id].lastSequence)
  }

  /** The same service up to the last sequences of its subscriptions. */
  ghost predicate Alike(v: Service, w: Service) {
    && v.counter == w.counter && v.subs.index == w.subs.index
    && AlikeActive(v.subs.active, w.subs.active) && AlikePaused(v.subs.paused, w.subs.paused)
  }

  /** Noting sequences one after another. */
  function Noted(v: Service, notes: seq<(Id, nat)>): Service
    decreases |notes|
  {
    if notes == [] then v
    else Next(Noted(v, notes[..|notes| - 1]), Deliver(notes[|notes| - 1].0, notes[|notes| - 1].1))
  }

  lemma {:induction false} NotedAlike(v: Service, notes: seq<(Id, nat)>)
    ensures Alike(Noted(v, notes), v)
    decreases |notes|
  {
    if notes != [] {
      NotedAlike(v, notes[..|notes| - 1]);
    }
  }

  lemma {:induction false} AlikeThrough(u: Service, v: Service, w: Service)
    requires Alike(u, v) && Alike(v, w)
    ensures Alike(u, w)
  {}

  lemma {:induction false} RemoveAlike(v: Service, w: Service, step: Step)
    requires Alike(v, w) && step.Unsubscribe?
    ensures Alike(Next(v, step), Next(w, step))
  {}

  lemma {:induction false} ResumeAlike(v: Service, w: Service, step: Step)
    requires Alike(v, w) && step.ResumeSubscribe?
    ensures Alike(Next(v, step), Next(w, step))
  {}

  lemma {:induction false} ExpireAlike(v: Service, w: Service, step: Step)
    requires Alike(v, w) && step.ExpirePaused?
    ensures Alike(Next(v, step), Next(w, step))
  {}

  /** No step looks at a last sequence except to copy it. */
  lemma {:induction false} NextAlike(v: Service, w: Service, step: Step)
    requires WellFormed(step) && Alike(v, w)
    ensures Alike(Next(v, step), Next(w, step))
  {
    match step
    case Subscribe(_, _, _, _, _) =>
    case Deliver(_, _) =>
    case Unsubscribe(_, _, _, _) => RemoveAlike(v, w, step);
    case ResumeSubscribe(_, _) => ResumeAlike(v, w, step);
    case ExpirePaused(_) => ExpireAlike(v, w, step);
  }
}
