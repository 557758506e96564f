/**
 How much eviction erases: the topics of a list in iteration order, each only because the
 space was still needed, and no more.
 */
module Eviction {
  import opened TopicHash
  import opened TopicBuffer
  import opened ReplayStore

  /** The logs that are left when the topics of a list are gone. */
  function Without(logs: map<Topic, Log>, gone: seq<Topic>): map<Topic, Log> {
    logs - (set t | t in gone)
  }

  /** The first of the remaining topics in the table's iteration order. */
  ghost predicate NextInOrder(order: seq<Topic>, left: map<Topic, Log>, t: Topic) {
    t in left && exists i :: 0 <= i < |order| && order[i] == t && forall j :: 0 <= j < i ==> order[j] !in left
  }

  /** The buffered bytes and the payload exceed the budget. */
  ghost predicate TooMuch(limits: Limits, left: map<Topic, Log>, size: nat) {
    limits.maxBytes > 0 && BufferedBytes(limits.capacity, left) + size > limits.maxBytes
  }

  /** Each topic of the list was next, and went while there was still too much. */
  ghost predicate EachNeeded(limits: Limits, logs: map<Topic, Log>, size: nat, order: seq<Topic>, gone: seq<Topic>) {
    forall i :: 0 <= i < |gone| ==>
      NextInOrder(order, Without(logs, gone[..i]), gone[i]) && TooMuch(limits, Without(logs, gone[..i]), size)
  }

  lemma {:induction false} FirstIsNext(order: seq<Topic>, logs: map<Topic, Log>)
    requires logs != map[] && Covers(order, logs)
    ensures NextInOrder(order, logs, FirstTopic(order, logs))
  {
    var some :| some in logs;
    assert some in order;
    var t := FirstTopic(order, logs);
    var i := IndexOfFirst(order, logs);
    assert order[i] == t;
  }

  lemma {:induction false} IndexOfFirst(order: seq<Topic>, logs: map<Topic, Log>) returns (i: nat)
    requires exists t :: t in order && t in logs
    ensures i < |order| && order[i] == FirstTopic(order, logs) && order[i] in logs
    ensures forall j :: 0 <= j < i ==> order[j] !in logs
    decreases |order|
  {
    if order[0] in logs {
      i := 0;
    } else {
      var t :| t in order && t in logs;
      assert t in order[1..];
      var k := IndexOfFirst(order[1..], logs);
      i := k + 1;
      forall j | 0 <= j < i ensures order[j] !in logs {
        if j > 0 {
          assert order[j] == order[1..][j - 1];
        }
      }
    }
  }

  lemma {:induction false} WithoutFirstGone(logs: map<Topic, Log>, t: Topic, gone: seq<Topic>)
    ensures Without(logs, [t] + gone) == Without(logs - {t}, gone)
  {
    forall x ensures x in [t] + gone <==> x == t || x in gone {
      assert ([t] + gone)[0] == t;
      assert x in gone ==> x in [t] + gone;
    }
  }

  lemma {:induction false} EachNeededCons(
      limits: Limits, logs: map<Topic, Log>, size: nat, order: seq<Topic>, t: Topic, gone: seq<Topic>)
    requires NextInOrder(order, logs, t) && TooMuch(limits, logs, size)
    requires EachNeeded(limits, logs - {t}, size, order, gone)
    ensures EachNeeded(limits, logs, size, order, [t] + gone)
  {
    var all := [t] + gone;
    forall i | 0 <= i < |all|
      ensures NextInOrder(order, Without(logs, all[..i]), all[i]) && TooMuch(limits, Without(logs, all[..i]), size)
    {
      if i == 0 {
        assert Without(logs, all[..0]) == logs;
      } else {
        assert all[..i] == [t] + gone[..i - 1];
        WithoutFirstGone(logs, t, gone[..i - 1]);
      }
    }
  }

  lemma {:induction false} EvictList(limits: Limits, s: Store, size: nat, order: seq<Topic>) returns (gone: seq<Topic>)
    requires Valid(limits, s) && Covers(order, s.logs) && 0 < limits.maxBytes && size <= limits.maxBytes
    ensures var (s', ok) := Evict(limits, s, limits.maxBytes - size, order);
            && s'.logs == Without(s.logs, gone) && EachNeeded(limits, s.logs, size, order, gone)
            && (ok <==> s'.total + size <= limits.maxBytes)
            && (ok ==> !TooMuch(limits, s'.logs, size))
            && (!ok ==> TooMuch(limits, s'.logs, size) && NextInOrder(order, s'.logs, []))
    decreases |s.logs|
  {
    if s.total <= limits.maxBytes - size || s.logs == map[] {
      gone := [];
      assert Without(s.logs, gone) == s.logs;
    } else {
      var t := FirstTopic(order, s.logs);
      FirstIsNext(order, s.logs);
      if t == [] {
        gone := [];
        assert Without(s.logs, gone) == s.logs;
      } else {
        EraseValid(limits, s, t);
        FewerTopics(s.logs, t);
        var rest := EvictList(limits, Erase(limits, s, t), size, order);
        gone := [t] + rest;
        WithoutFirstGone(s.logs, t, rest);
        EachNeededCons(limits, s.logs, size, order, t, rest);
      }
    }
  }

  /** From logs to what is left of them, by erasing what was needed, with or without success. */
  ghost predicate AsNeeded(
      limits: Limits, logs: map<Topic, Log>, size: nat, order: seq<Topic>, gone: seq<Topic>,
      left: map<Topic, Log>, ok: bool)
  {
    && left == Without(logs, gone) && EachNeeded(limits, logs, size, order, gone)
    && (ok <==> !TooMuch(limits, left, size))
    && (!ok ==> (size > limits.maxBytes && gone == []) || NextInOrder(order, left, []))
  }

  lemma {:induction false} NothingGone(limits: Limits, s: Store, size: nat, order: seq<Topic>)
    requires Valid(limits, s) && (TooMuch(limits, s.logs, size) ==> size > limits.maxBytes)
    ensures AsNeeded(limits, s.logs, size, order, [], s.logs, !TooMuch(limits, s.logs, size))
  {
    assert Without(s.logs, []) == s.logs;
  }

  lemma {:induction false} EvictAsNeeded(limits: Limits, s: Store, size: nat, order: seq<Topic>)
    returns (gone: seq<Topic>)
    requires Valid(limits, s) && Covers(order, s.logs) && 0 < limits.maxBytes && size <= limits.maxBytes
    ensures var (s', ok) := Evict(limits, s, limits.maxBytes - size, order);
            AsNeeded(limits, s.logs, size, order, gone, s'.logs, ok && s'.total + size <= limits.maxBytes)
  {
    gone := EvictList(limits, s, size, order);
  }

  /**
   Making room erases the topics of a list in iteration order. Before each erasure the buffered
   bytes and the payload exceeded the budget; after the last they do not, unless eviction gave
   up at a topic named "", or the payload alone is over the budget and nothing was erased.
   */
  lemma {:induction false} MinimalEviction(limits: Limits, s: Store, size: nat, order: seq<Topic>)
    returns (gone: seq<Topic>)
    requires Valid(limits, s) && Covers(order, s.logs)
    ensures var (s', ok) := MakeRoom(limits, s, size, order);
            AsNeeded(limits, s.logs, size, order, gone, s'.logs, ok)
  {
    if limits.maxBytes == 0 || s.total + size <= limits.maxBytes {
      gone := [];
      NothingGone(limits, s, size, order);
    } else if size > limits.maxBytes {
      gone := [];
      NothingGone(limits, s, size, order);
      OversizedUntouched(limits, s, size, order);
    } else {
      gone := EvictAsNeeded(limits, s, size, order);
      FittingTarget(limits, s, size, order);
    }
  }

  lemma {:induction false} WrappedTarget(limits: Limits, size: nat)
    requires size > limits.maxBytes
    ensures Target(limits, size) > limits.maxBytes
  {}

  lemma {:induction false} OversizedUntouched(limits: Limits, s: Store, size: nat, order: seq<Topic>)
    requires Valid(limits, s) && 0 < limits.maxBytes < size
    ensures MakeRoom(limits, s, size, order) == (s, false)
  {
    WrappedTarget(limits, size);
  }

  lemma {:induction false} FittingTarget(limits: Limits, s: Store, size: nat, order: seq<Topic>)
    requires 0 < limits.maxBytes && size <= limits.maxBytes < s.total + size
    ensures var (s', ok) := Evict(limits, s, limits.maxBytes - size, order);
            MakeRoom(limits, s, size, order) == (s', ok && s'.total + size <= limits.maxBytes)
  {
    assert Target(limits, size) == limits.maxBytes - size;
  }

  // ---------------------------------------------------------------------------
  // What becomes of each topic's log
  // ---------------------------------------------------------------------------

  /** The topics that come before t in the iteration. */
  function Before(order: seq<Topic>, t: Topic): seq<Topic>
    decreases |order|
  {
    if order == [] || order[0] == t then [] else [order[0]] + Before(order[1..], t)
  }

  /** When all that comes before t is gone, there is still too much. */
  ghost predicate NeededUpTo(limits: Limits, logs: map<Topic, Log>, size: nat, order: seq<Topic>, t: Topic) {
    TooMuch(limits, Without(logs, Before(order, t)), size)
  }

  /** Making room erases t: the space is needed up to it, and no topic named "" is in the way. */
  ghost predicate Goes(limits: Limits, logs: map<Topic, Log>, size: nat, order: seq<Topic>, t: Topic) {
    && size <= limits.maxBytes && NeededUpTo(limits, logs, size, order, t)
    && ([] in logs ==> t != [] && [] !in Before(order, t))
  }

  /** There is room in the end: at once, or by erasing topics that come before one named "". */
  ghost predicate RoomFor(limits: Limits, logs: map<Topic, Log>, size: nat, order: seq<Topic>) {
    || !TooMuch(limits, logs, size)
    || (size <= limits.maxBytes && ([] in logs ==> !NeededUpTo(limits, logs, size, order, [])))
  }

  lemma {:induction false} FirstComesFirst(order: seq<Topic>, logs: map<Topic, Log>, t: Topic)
    requires t in logs && t in order
    ensures var f := FirstTopic(order, logs);
            f in logs && (if f == t then Without(logs, Before(order, t)) == logs else f in Before(order, t))
    ensures forall x :: x in logs && x in Before(order, t) ==> FirstTopic(order, logs) != t
    decreases |order|
  {
    if order[0] == t {
      assert Without(logs, []) == logs;
    } else {
      assert t in order[1..];
      FirstComesFirst(order[1..], logs, t);
      if order[0] !in logs {
        assert forall x :: x in logs && x in Before(order, t) ==> x in Before(order[1..], t);
        assert forall x :: x in Before(order[1..], t) ==> x in Before(order, t);
      }
    }
  }

  lemma {:induction false} FewerBytes(capacity: nat, logs: map<Topic, Log>, gone: seq<Topic>)
    ensures BufferedBytes(capacity, Without(logs, gone)) <= BufferedBytes(capacity, logs)
    decreases |gone|
  {
    if gone == [] {
      assert Without(logs, gone) == logs;
    } else {
      var (rest, t) := (gone[1..], gone[0]);
      assert gone == [t] + rest;
      WithoutFirstGone(logs, t, rest);
      FewerBytes(capacity, logs - {t}, rest);
      if t in logs {
        BytesWithout(capacity, logs, t);
      } else {
        assert logs - {t} == logs;
      }
    }
  }

  lemma {:induction false} GoesWithout(
      limits: Limits, logs: map<Topic, Log>, size: nat, order: seq<Topic>, t: Topic, f: Topic)
    requires f != t && f != [] && f in Before(order, t)
    ensures Goes(limits, logs - {f}, size, order, t) <==> Goes(limits, logs, size, order, t)
    ensures NeededUpTo(limits, logs - {f}, size, order, t) <==> NeededUpTo(limits, logs, size, order, t)
  {
    assert Without(logs - {f}, Before(order, t)) == Without(logs, Before(order, t));
  }

  /** Eviction erases exactly the topics that have to go. */
  lemma {:induction false} EvictGoes(limits: Limits, s: Store, size: nat, order: seq<Topic>, t: Topic)
    requires Valid(limits, s) && Covers(order, s.logs) && t in s.logs
    requires 0 < limits.maxBytes && size <= limits.maxBytes
    ensures var s' := Evict(limits, s, limits.maxBytes - size, order).0;
            t !in s'.logs <==> Goes(limits, s.logs, size, order, t)
    decreases |s.logs|
  {
    if s.total <= limits.maxBytes - size {
      FewerBytes(limits.capacity, s.logs, Before(order, t));
    } else {
      var f := FirstTopic(order, s.logs);
      FirstComesFirst(order, s.logs, t);
      if [] in s.logs {
        FirstComesFirst(order, s.logs, []);
      }
      if f != [] {
        EraseValid(limits, s, f);
        FewerTopics(s.logs, f);
        EvictValid(limits, Erase(limits, s, f), limits.maxBytes - size, order);
        if f != t {
          EvictGoes(limits, Erase(limits, s, f), size, order, t);
          GoesWithout(limits, s.logs, size, order, t, f);
        }
      }
    }
  }

  /** Eviction makes room unless it gives up at the topic named "". */
  lemma {:induction false} EvictRoom(limits: Limits, s: Store, size: nat, order: seq<Topic>)
    requires Valid(limits, s) && Covers(order, s.logs) && 0 < limits.maxBytes && size <= limits.maxBytes
    ensures var (s', ok) := Evict(limits, s, limits.maxBytes - size, order);
            (ok && s'.total + size <= limits.maxBytes) <==> RoomFor(limits, s.logs, size, order)
    decreases |s.logs|
  {
    if s.total <= limits.maxBytes - size || s.logs == map[] {
    } else if [] !in s.logs {
      EvictReaches(limits, s, limits.maxBytes - size, order);
    } else {
      var f := FirstTopic(order, s.logs);
      FirstComesFirst(order, s.logs, []);
      if f != [] {
        EraseValid(limits, s, f);
        FewerTopics(s.logs, f);
        EvictRoom(limits, Erase(limits, s, f), size, order);
        GoesWithout(limits, s.logs, size, order, [], f);
        FewerBytes(limits.capacity, s.logs - {f}, Before(order, []));
      }
    }
  }

  lemma {:induction false} RoomExact(limits: Limits, s: Store, size: nat, order: seq<Topic>, t: Topic)
    requires Valid(limits, s) && Covers(order, s.logs)
    ensures var (s', ok) := MakeRoom(limits, s, size, order);
            && (ok <==> RoomFor(limits, s.logs, size, order))
            && LogOf(s', t) == if Goes(limits, s.logs, size, order, t) then [] else LogOf(s, t)
  {
    RoomValid(limits, s, size, order);
    if limits.maxBytes == 0 || s.total + size <= limits.maxBytes {
      FewerBytes(limits.capacity, s.logs, Before(order, t));
    } else if size > limits.maxBytes {
      OversizedUntouched(limits, s, size, order);
    } else {
      FittingTarget(limits, s, size, order);
      EvictRoom(limits, s, size, order);
      if t in s.logs {
        EvictGoes(limits, s, size, order, t);
      }
    }
  }

  /** A step ends the epoch of topic t. */
  ghost predicate Ends(limits: Limits, logs: map<Topic, Log>, step: Step, t: Topic) {
    match step
    case Buffer(_, e, order) => Goes(limits, logs, |e.payload|, order, t)
    case ClearTopic(x) => x == t
    case ClearAll => true
  }

  /** A step adds a message to topic t. */
  ghost predicate Adds(limits: Limits, logs: map<Topic, Log>, step: Step, t: Topic) {
    step.Buffer? && step.topic == t && RoomFor(limits, logs, |step.entry.payload|, step.order)
  }

  /**
   In every run and for every topic, a step restarts the topic's log if and only if it clears
   it or needs its space, and appends a message if and only if it is one of the topic there is
   room for; nothing else changes a log. The message is numbered by its place in the log.
   */
  lemma {:induction false} StepLogExact(limits: Limits, steps: seq<Step>, step: Step, t: Topic)
    requires limits.capacity > 0 && (step.Buffer? ==> Covers(step.order, Run(limits, steps).logs))
    ensures var (s, s') := (Run(limits, steps), Next(limits, Run(limits, steps), step));
            && LogOf(s', t) == (if Ends(limits, s.logs, step, t) then [] else LogOf(s, t))
                               + (if Adds(limits, s.logs, step, t) then [step.entry] else [])
            && (step.Buffer? && step.topic == t ==>
                  BufferMessage(limits, s, t, step.entry, step.order).1
                  == if Adds(limits, s.logs, step, t) then |LogOf(s', t)| else 0)
  {
    RunValid(limits, steps);
    var s := Run(limits, steps);
    if step.Buffer? {
      RoomExact(limits, s, |step.entry.payload|, step.order, t);
    }
  }
}
