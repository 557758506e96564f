/**
 The cached topic hash read without a lock: checking the dirty flag, computing, storing the
 value and clearing the flag are separate steps of any number of readers. Changing the topics
 and setting the flag happen under one lock and are one step.
 */
module HashCache {
  import opened TopicHash
  import opened Crc64

  datatype Reader = Checked | Computed(hash: bv64) | Stored

  datatype Cache = Cache(topics: set<Topic>, value: bv64, dirty: bool, readers: map<nat, Reader>)

  datatype Step =
    | Change(topics: set<Topic>)
    | Check(reader: nat)
    | Compute(reader: nat)
    | Store(reader: nat)
    | Clear(reader: nat)

  ghost function Next(c: Cache, step: Step): Cache {
    match step
    case Change(topics) => c.(topics := topics, dirty := true)
    case Check(r) => if r !in c.readers && c.dirty then c.(readers := c.readers[r := Checked]) else c
    case Compute(r) =>
      if r in c.readers && c.readers[r].Checked? then c.(readers := c.readers[r := Computed(HashOf(c.topics))]) else c
    case Store(r) =>
      if r in c.readers && c.readers[r].Computed?
      then c.(value := c.readers[r].hash, readers := c.readers[r := Stored]) else c
    case Clear(r) =>
      if r in c.readers && c.readers[r].Stored? then c.(dirty := false, readers := c.readers - {r}) else c
  }

  ghost function Run(c: Cache, steps: seq<Step>): Cache
    decreases |steps|
  {
    if steps == [] then c else Next(Run(c, steps[..|steps| - 1]), steps[|steps| - 1])
  }

  /** What a call that finds the flag clear returns is the hash of the present topics. */
  ghost predicate Fresh(c: Cache) {
    !c.dirty ==> c.value == HashOf(c.topics)
  }

  /** No reader is between computing and clearing. */
  ghost predicate Settled(c: Cache) {
    forall r :: r in c.readers ==> c.readers[r].Checked?
  }

  /** Topics only change while no reader is between computing and clearing. */
  ghost predicate Undisturbed(c: Cache, steps: seq<Step>) {
    forall i :: 0 <= i < |steps| && steps[i].Change? ==> Settled(Run(c, steps[..i]))
  }

  ghost predicate Coherent(c: Cache) {
    && Fresh(c)
    && (forall r :: r in c.readers && c.readers[r].Computed? ==> c.readers[r].hash == HashOf(c.topics))
    && (forall r :: r in c.readers && c.readers[r].Stored? ==> c.value == HashOf(c.topics))
  }

  lemma {:induction false} StepCoherent(c: Cache, step: Step)
    requires Coherent(c) && (step.Change? ==> Settled(c))
    ensures Coherent(Next(c, step))
  {}

  /** With any number of readers, the cache stays right while changes keep out of reads in progress. */
  lemma {:induction false} UndisturbedIsFresh(c: Cache, steps: seq<Step>)
    requires Coherent(c) && Undisturbed(c, steps)
    ensures Coherent(Run(c, steps))
    decreases |steps|
  {
    if steps != [] {
      var before := steps[..|steps| - 1];
      forall i | 0 <= i < |before| && before[i].Change? ensures Settled(Run(c, before[..i])) {
        assert before[..i] == steps[..i] && steps[i].Change?;
      }
      UndisturbedIsFresh(c, before);
      StepCoherent(Run(c, before), steps[|steps| - 1]);
    }
  }

  /** One call whose computation is overtaken by a change to `later`. */
  function Overtaken(r: nat, later: set<Topic>): seq<Step> {
    [Check(r), Compute(r), Change(later), Store(r), Clear(r)]
  }

  lemma {:induction false} RunSnoc(c: Cache, steps: seq<Step>, step: Step)
    ensures Run(c, steps + [step]) == Next(Run(c, steps), step)
  {}

  lemma {:induction false} RunOvertaken(c: Cache, r: nat, later: set<Topic>)
    ensures var changed := Next(Next(Next(c, Check(r)), Compute(r)), Change(later));
            Run(c, Overtaken(r, later)) == Next(Next(changed, Store(r)), Clear(r))
  {
    var (s1, s2) := ([Check(r)], [Check(r), Compute(r)]);
    var (s3, s4) := (s2 + [Change(later)], s2 + [Change(later), Store(r)]);
    RunSnoc(c, [], Check(r));
    RunSnoc(c, s1, Compute(r));
    RunSnoc(c, s2, Change(later));
    RunSnoc(c, s3, Store(r));
    RunSnoc(c, s4, Clear(r));
    assert [] + [Check(r)] == s1 && s1 + [Compute(r)] == s2 && s3 + [Store(r)] == s4;
    assert s4 + [Clear(r)] == Overtaken(r, later);
  }

  /** The overtaken call leaves the cache right if and only if the two topic sets share their hash. */
  lemma {:induction false} OvertakenIsFreshIff(c: Cache, r: nat, later: set<Topic>)
    requires c.dirty && r !in c.readers
    ensures var c' := Run(c, Overtaken(r, later));
            && c' == Cache(later, HashOf(c.topics), false, c.readers)
            && (Fresh(c') <==> HashOf(c.topics) == HashOf(later))
  {
    RunOvertaken(c, r, later);
    var readers := c.readers[r := Stored];
    assert readers - {r} == c.readers;
  }

  /** A clean cache that nobody is reading stays as it is, right or wrong, until the topics change. */
  lemma {:induction false} CleanStays(c: Cache, steps: seq<Step>)
    requires !c.dirty && c.readers == map[] && forall i :: 0 <= i < |steps| ==> !steps[i].Change?
    ensures Run(c, steps) == c
    decreases |steps|
  {
    if steps != [] {
      CleanStays(c, steps[..|steps| - 1]);
    }
  }

  lemma {:induction false} SingleHash(x: Topic)
    ensures HashOf({x}) == Crc(x)
  {
    assert multiset({x}) == multiset([x]);
    SortedListingUnique([x], SortedListing({x}));
    assert Join([x]) == x + Join([]) == x;
  }

  /**
   The wrong outcome is real: replacing a topic by one of the same length that differs inside
   eight consecutive bytes leaves a clean cache that advertises a hash the topics do not have.
   */
  lemma {:induction false} OvertakenIsStale(c: Cache, r: nat, x: Topic, y: Topic, from: nat)
    requires c.dirty && r !in c.readers && c.topics == {x} && |x| == |y| && x != y
    requires forall i :: 0 <= i < |x| && x[i] != y[i] ==> from <= i < from + 8
    ensures !Fresh(Run(c, Overtaken(r, {y})))
  {
    OvertakenIsFreshIff(c, r, {y});
    SingleHash(x);
    SingleHash(y);
    CrcDetectsByteBursts(x, y, from);
  }

  // ---------------------------------------------------------------------------
  // When a change is safe, over all schedules
  // ---------------------------------------------------------------------------

  ghost predicate NoChange(steps: seq<Step>) {
    forall i :: 0 <= i < |steps| ==> !steps[i].Change?
  }

  /** Whatever the topics become, no continuation by any readers goes wrong before the next change. */
  ghost predicate SafeToChange(c: Cache) {
    forall topics, more :: NoChange(more) ==> Fresh(Run(Next(c, Change(topics)), more))
  }

  /** No value is the hash of every topic set. */
  lemma {:induction false} OtherHash(value: bv64) returns (topics: set<Topic>)
    ensures HashOf(topics) != value
  {
    SingleHash([0]);
    SingleHash([1]);
    CrcDetectsByteBursts([0], [1], 0);
    topics := if HashOf({[0]}) != value then {[0]} else {[1]};
  }

  /** A reader caught after computing goes on to store what it computed and to clear the flag. */
  lemma {:induction false} CaughtGoesStale(c: Cache, r: nat) returns (topics: set<Topic>, more: seq<Step>)
    requires r in c.readers && !c.readers[r].Checked?
    ensures NoChange(more) && !Fresh(Run(Next(c, Change(topics)), more))
  {
    topics := OtherHash(if c.readers[r].Computed? then c.readers[r].hash else c.value);
    var c' := Next(c, Change(topics));
    if c.readers[r].Computed? {
      more := [Store(r), Clear(r)];
      RunSnoc(c', [], Store(r));
      RunSnoc(c', [Store(r)], Clear(r));
      assert [] + [Store(r)] == [Store(r)] && [Store(r)] + [Clear(r)] == more;
    } else {
      more := [Clear(r)];
      RunSnoc(c', [], Clear(r));
      assert [] + [Clear(r)] == more;
    }
  }

  /**
   At every point of every run whose changes so far kept out of reads in progress, a change is
   safe under all continuations if and only if no reader is between computing and clearing.
   */
  lemma {:induction false} SafeToChangeIff(c: Cache, steps: seq<Step>)
    requires Coherent(c) && Undisturbed(c, steps)
    ensures SafeToChange(Run(c, steps)) <==> Settled(Run(c, steps))
  {
    UndisturbedIsFresh(c, steps);
    var now := Run(c, steps);
    if Settled(now) {
      forall topics, more | NoChange(more) ensures Fresh(Run(Next(now, Change(topics)), more)) {
        StepCoherent(now, Change(topics));
        UndisturbedIsFresh(Next(now, Change(topics)), more);
      }
    } else {
      var r :| r in now.readers && !now.readers[r].Checked?;
      var topics, more := CaughtGoesStale(now, r);
    }
  }
}
