/**
 A node's answer to a state request reads its topics and then their hash without a lock
 around the two. Here each read is a step of its own, among the steps of the mesh.
 */
module SplitReads {
  import opened TopicHash
  import opened Routing
  import opened Gossip
  import opened GossipSafety
  import opened MeshConvergence
  import Subs = Subscriptions

  /** `pending` holds the node and the topics read by each call that has not read the hash yet. */
  datatype Split = Split(world: World, pending: map<nat, (PeerId, seq<Topic>)>)

  datatype SplitStep =
    | Mesh(step: MeshStep)
    | ReadTopics(call: nat, node: PeerId, listing: seq<Topic>)
    | ReadHash(call: nat)

  ghost function ReplyOf(w: World, p: PeerId, listing: seq<Topic>): Reply
    requires p in w.nodes
  {
    Reply(p, listing, HashOf(TopicsOf(w, p)))
  }

  ghost function NextSplit(s: Split, step: SplitStep): Split {
    match step
    case Mesh(m) => s.(world := NextWorld(s.world, m))
    case ReadTopics(c, p, listing) =>
      if c !in s.pending && p in s.world.nodes && Lists(listing, TopicsOf(s.world, p))
          then s.(pending := s.pending[c := (p, listing)])
      else s
    case ReadHash(c) =>
      if c !in s.pending || s.pending[c].0 !in s.world.nodes then s
      else
        var (p, listing) := s.pending[c];
        Split(s.world.(replies := s.world.replies + {ReplyOf(s.world, p, listing)}), s.pending - {c})
  }

  ghost function RunSplit(s: Split, steps: seq<SplitStep>): Split
    decreases |steps|
  {
    if steps == [] then s else NextSplit(RunSplit(s, steps[..|steps| - 1]), steps[|steps| - 1])
  }

  // ---------------------------------------------------------------------------
  // Undisturbed reads are atomic answers
  // ---------------------------------------------------------------------------

  /** The topics a call read are still its node's topics. */
  ghost predicate StillTrue(s: Split, call: nat) {
    call in s.pending ==>
      s.pending[call].0 in s.world.nodes && Lists(s.pending[call].1, TopicsOf(s.world, s.pending[call].0))
  }

  /** Whenever a hash is read, the topics read before it are still true. */
  ghost predicate Undisturbed(s: Split, steps: seq<SplitStep>) {
    forall i :: 0 <= i < |steps| && steps[i].ReadHash? ==> StillTrue(RunSplit(s, steps[..i]), steps[i].call)
  }

  /** The mesh steps of a split run, with each answer given when its hash is read. */
  ghost function AtomicSteps(s: Split, steps: seq<SplitStep>): seq<MeshStep>
    decreases |steps|
  {
    if steps == [] then []
    else
      var (before, last) := (steps[..|steps| - 1], steps[|steps| - 1]);
      var now := RunSplit(s, before);
      AtomicSteps(s, before)
      + (match last
         case Mesh(m) => [m]
         case ReadTopics(_, _, _) => []
         case ReadHash(c) => if c in now.pending then [Respond(now.pending[c].0, now.pending[c].1)] else [])
  }

  lemma {:induction false} UndisturbedSnoc(s: Split, steps: seq<SplitStep>)
    requires steps != [] && Undisturbed(s, steps)
    ensures var (before, last) := (steps[..|steps| - 1], steps[|steps| - 1]);
            Undisturbed(s, before) && (last.ReadHash? ==> StillTrue(RunSplit(s, before), last.call))
  {
    var before := steps[..|steps| - 1];
    forall i | 0 <= i < |before| && before[i].ReadHash? ensures StillTrue(RunSplit(s, before[..i]), before[i].call) {
      assert before[..i] == steps[..i] && before[i] == steps[i];
    }
  }

  /** Undisturbed split runs are runs of the mesh with atomic answers, so all that is proved of those holds of them. */
  lemma {:induction false} SplitRefinesAtomic(s: Split, steps: seq<SplitStep>)
    requires Undisturbed(s, steps)
    ensures RunSplit(s, steps).world == RunWorld(s.world, AtomicSteps(s, steps))
    decreases |steps|
  {
    if steps != [] {
      var (before, last) := (steps[..|steps| - 1], steps[|steps| - 1]);
      UndisturbedSnoc(s, steps);
      SplitRefinesAtomic(s, before);
      var (now, atomic) := (RunSplit(s, before), AtomicSteps(s, before));
      match last
      case Mesh(m) => RunWorldSnoc(s.world, atomic, m);
      case ReadTopics(_, _, _) => assert atomic + [] == atomic;
      case ReadHash(c) =>
        if c in now.pending {
          RunWorldSnoc(s.world, atomic, Respond(now.pending[c].0, now.pending[c].1));
        } else {
          assert atomic + [] == atomic;
        }
    }
  }

  // ---------------------------------------------------------------------------
  // A disturbed read hides the record it makes
  // ---------------------------------------------------------------------------

  /** What a run does to one node's own subscriptions. */
  ghost function LocalSteps(steps: seq<SplitStep>, p: PeerId): (r: seq<Subs.Step>)
    ensures forall i :: 0 <= i < |r| ==> Subs.WellFormed(r[i])
    decreases |steps|
  {
    if steps == [] then []
    else
      var last := steps[|steps| - 1];
      LocalSteps(steps[..|steps| - 1], p)
      + (if last.Mesh? && last.step.Local? && last.step.node == p && Subs.WellFormed(last.step.step)
          then [last.step.step] else [])
  }

  /** A node's topics after those steps. */
  ghost function TopicsAfter(v: Subs.Service, steps: seq<SplitStep>, p: PeerId): set<Topic> {
    Subs.Run(v, LocalSteps(steps, p)).subs.index.Keys
  }

  lemma {:induction false} SubsRunSnoc(v: Subs.Service, steps: seq<Subs.Step>, step: Subs.Step)
    requires (forall i :: 0 <= i < |steps| ==> Subs.WellFormed(steps[i])) && Subs.WellFormed(step)
    ensures Subs.Run(v, steps + [step]) == Subs.Next(Subs.Run(v, steps), step)
  {
    assert (steps + [step])[..|steps|] == steps;
  }

  lemma {:induction false} StepKeepsMesh(w: World, step: MeshStep)
    ensures SameMesh(w, NextWorld(w, step))
  {}

  /** Up to noted sequences, only its own local steps change a node's subscriptions. */
  lemma {:induction false} StepKeepsService(w: World, step: MeshStep, p: PeerId)
    requires p in w.nodes && p in NextWorld(w, step).nodes
    ensures Subs.Alike(NextWorld(w, step).nodes[p].service,
                       if step.Local? && step.node == p && Subs.WellFormed(step.step)
                       then Subs.Next(w.nodes[p].service, step.step) else w.nodes[p].service)
  {
    if step.ReceivePush? && Enabled(w, step) {
      var q := w.publications[step.id].targets[step.i];
      Subs.NotedAlike(w.nodes[q].service, step.notes);
    }
  }

  lemma {:induction false} AlikeNext(u: Subs.Service, v: Subs.Service, w: Subs.Service, step: Subs.Step)
    requires Subs.WellFormed(step) && Subs.Alike(v, w) && Subs.Alike(u, Subs.Next(v, step))
    ensures Subs.Alike(u, Subs.Next(w, step))
  {
    Subs.NextAlike(v, w, step);
    Subs.AlikeThrough(u, Subs.Next(v, step), Subs.Next(w, step));
  }

  lemma {:induction false} LocalStepsSnoc(v: Subs.Service, steps: seq<SplitStep>, p: PeerId)
    requires steps != []
    ensures var (before, last) := (LocalSteps(steps[..|steps| - 1], p), steps[|steps| - 1]);
            Subs.Run(v, LocalSteps(steps, p))
            == if last.Mesh? && last.step.Local? && last.step.node == p && Subs.WellFormed(last.step.step)
               then Subs.Next(Subs.Run(v, before), last.step.step) else Subs.Run(v, before)
  {
    var (before, last) := (LocalSteps(steps[..|steps| - 1], p), steps[|steps| - 1]);
    if last.Mesh? && last.step.Local? && last.step.node == p && Subs.WellFormed(last.step.step) {
      SubsRunSnoc(v, before, last.step.step);
    } else {
      assert before + [] == before;
    }
  }

  /** One mesh step keeps a node's service like that of its local steps, `sofar`. */
  lemma {:induction false} StepStaysAlike(w: World, step: MeshStep, p: PeerId, sofar: Subs.Service)
    requires p in w.nodes && p in NextWorld(w, step).nodes && Subs.Alike(w.nodes[p].service, sofar)
    ensures Subs.Alike(NextWorld(w, step).nodes[p].service,
                       if step.Local? && step.node == p && Subs.WellFormed(step.step)
                       then Subs.Next(sofar, step.step) else sofar)
  {
    StepKeepsService(w, step, p);
    if step.Local? && step.node == p && Subs.WellFormed(step.step) {
      AlikeNext(NextWorld(w, step).nodes[p].service, w.nodes[p].service, sofar, step.step);
    } else {
      Subs.AlikeThrough(NextWorld(w, step).nodes[p].service, w.nodes[p].service, sofar);
    }
  }

  /** Only its own local steps change a node's topics, and no step changes who is in the mesh. */
  lemma {:induction false} RunKeepsNodes(s: Split, steps: seq<SplitStep>, p: PeerId)
    requires p in s.world.nodes
    ensures var w := RunSplit(s, steps).world;
            && SameMesh(s.world, w) && p in w.nodes
            && Subs.Alike(w.nodes[p].service, Subs.Run(s.world.nodes[p].service, LocalSteps(steps, p)))
    decreases |steps|
  {
    if steps != [] {
      var (before, last) := (steps[..|steps| - 1], steps[|steps| - 1]);
      RunKeepsNodes(s, before, p);
      var v := s.world.nodes[p].service;
      LocalStepsSnoc(v, steps, p);
      if last.Mesh? {
        StepKeepsMesh(RunSplit(s, before).world, last.step);
        StepStaysAlike(RunSplit(s, before).world, last.step, p, Subs.Run(v, LocalSteps(before, p)));
      }
    }
  }

  lemma {:induction false} ReadsKept(s: Split, steps: seq<SplitStep>, call: nat)
    requires call in s.pending && forall i :: 0 <= i < |steps| ==> steps[i] != ReadHash(call)
    ensures call in RunSplit(s, steps).pending && RunSplit(s, steps).pending[call] == s.pending[call]
    decreases |steps|
  {
    if steps != [] {
      ReadsKept(s, steps[..|steps| - 1], call);
    }
  }

  /** One call: the topics are read, anything happens, the hash is read, and the answer reaches n. */
  ghost function Told(s: Split, call: nat, p: PeerId, listing: seq<Topic>, between: seq<SplitStep>): Split {
    NextSplit(RunSplit(NextSplit(s, ReadTopics(call, p, listing)), between), ReadHash(call))
  }

  /** An answer delivered to a node that knows its sender. */
  lemma {:induction false} AnswerHidesIff(w: World, n: PeerId, p: PeerId, listing: seq<Topic>)
    requires Mate(w, n, p) && p in w.nodes[n].peers && ReplyOf(w, p, listing) in w.replies
    ensures var w' := NextWorld(w, ReceiveReply(n, ReplyOf(w, p, listing)));
            && n in w'.nodes && p in w'.nodes && HashMatches(w', n, p)
            && (Open(w', n, p) <==> Elements(listing) == TopicsOf(w, p))
  {}

  lemma {:induction false} ToldReply(s: Split, call: nat, p: PeerId, listing: seq<Topic>, between: seq<SplitStep>)
    requires call !in s.pending && p in s.world.nodes && Lists(listing, TopicsOf(s.world, p))
    requires forall i :: 0 <= i < |between| ==> between[i] != ReadHash(call)
    ensures var w := Told(s, call, p, listing, between).world;
            && SameMesh(s.world, w) && p in w.nodes && ReplyOf(w, p, listing) in w.replies
            && TopicsOf(w, p) == TopicsAfter(s.world.nodes[p].service, between, p)
  {
    var s1 := NextSplit(s, ReadTopics(call, p, listing));
    RunKeepsNodes(s1, between, p);
    ReadsKept(s1, between, call);
  }

  /**
   The record that a split answer leaves hides behind a matching hash, so that p's beacons never
   correct it, if and only if p's local steps between the two reads changed its topic set.
   */
  lemma {:induction false} SplitAnswerHidesIff(
      s: Split, call: nat, n: PeerId, p: PeerId, listing: seq<Topic>, between: seq<SplitStep>)
    requires call !in s.pending && Mate(s.world, n, p) && Lists(listing, TopicsOf(s.world, p))
    requires forall i :: 0 <= i < |between| ==> between[i] != ReadHash(call)
    requires Knows(Told(s, call, p, listing, between).world, n, p)
    ensures var w := Told(s, call, p, listing, between).world;
            && Mate(w, n, p)
            && var w' := NextWorld(w, ReceiveReply(n, ReplyOf(w, p, listing)));
               && n in w'.nodes && p in w'.nodes && HashMatches(w', n, p)
               && (!Open(w', n, p) <==> TopicsAfter(s.world.nodes[p].service, between, p) != TopicsOf(s.world, p))
  {
    ToldReply(s, call, p, listing, between);
    ListedElements(listing, TopicsOf(s.world, p));
    AnswerHidesIff(Told(s, call, p, listing, between).world, n, p, listing);
  }

  /** A subscription to a new topic between the reads. */
  function Overtaking(p: PeerId, topic: Topic, suffix: string): seq<SplitStep> {
    [Mesh(Local(p, Subs.Subscribe("", [topic], 0, suffix, 0)))]
  }

  lemma {:induction false} OvertakingAdds(v: Subs.Service, p: PeerId, topic: Topic, suffix: string)
    requires Subs.Consistent(v) && |suffix| == 8
    ensures TopicsAfter(v, Overtaking(p, topic, suffix), p) == v.subs.index.Keys + {topic}
  {
    var step := Subs.Subscribe("", [topic], 0, suffix, 0);
    assert Overtaking(p, topic, suffix)[..0] == [];
    assert LocalSteps(Overtaking(p, topic, suffix), p) == [step];
    assert [step][..0] == [];
    assert Subs.Run(v, [step]) == Subs.Next(v, step);
    Subs.FreshId(v.counter, suffix);
  }

  /** And so there is a run whose answer leaves a hidden record, from any state with two mates that know each other. */
  lemma {:induction false} OvertakenAnswerHides(
      s: Split, call: nat, n: PeerId, p: PeerId, listing: seq<Topic>, topic: Topic, suffix: string)
    requires call !in s.pending && Mate(s.world, n, p) && Knows(s.world, n, p) && Lists(listing, TopicsOf(s.world, p))
    requires Subs.Consistent(s.world.nodes[p].service) && |suffix| == 8 && topic !in TopicsOf(s.world, p)
    ensures var w := Told(s, call, p, listing, Overtaking(p, topic, suffix)).world;
            && Mate(w, n, p)
            && var w' := NextWorld(w, ReceiveReply(n, ReplyOf(w, p, listing)));
               n in w'.nodes && p in w'.nodes && !Open(w', n, p)
  {
    var between := Overtaking(p, topic, suffix);
    OvertakingKnows(s, call, n, p, listing, topic, suffix);
    OvertakingAdds(s.world.nodes[p].service, p, topic, suffix);
    SplitAnswerHidesIff(s, call, n, p, listing, between);
  }

  lemma {:induction false} OvertakingKnows(
      s: Split, call: nat, n: PeerId, p: PeerId, listing: seq<Topic>, topic: Topic, suffix: string)
    requires Knows(s.world, n, p)
    ensures Knows(Told(s, call, p, listing, Overtaking(p, topic, suffix)).world, n, p)
  {
    var between := Overtaking(p, topic, suffix);
    var s1 := NextSplit(s, ReadTopics(call, p, listing));
    assert between[..0] == [];
    assert RunSplit(s1, between) == NextSplit(s1, between[0]);
  }
}
