/**
 A drop from its start to its return: whom it takes and whom it spares, how long it goes on, what ends it,
 and what its caller can rely on afterwards. Also what an indication puts in the queue.
 */
module CdsRxDrops {
  import opened Basics
  import opened CdsRx
  import opened CdsRxFrames
  import opened CdsRxInvariant
  import opened CdsRxRuns

  // ----- what an indication carries -----

  /** `steps` has no step of producer `i`. */
  predicate LeavesProducer(steps: seq<Step>, i: nat) {
    forall k :: 0 <= k < |steps| ==> !(ProducerStep(steps[k]) && steps[k].i == i)
  }

  lemma OtherKeepsProducer(s: State, a: Step, i: nat)
    requires Enabled(s, a) && i in s.producers && !(ProducerStep(a) && a.i == i)
    ensures i in Next(s, a).producers && Next(s, a).producers[i] == s.producers[i]
  {
    if ProducerStep(a) {
      OtherProducerStep(s, a, i);
    } else {
      StepFramed(s, a);
    }
  }

  lemma OtherProducerStep(s: State, a: Step, i: nat)
    requires Enabled(s, a) && i in s.producers && ProducerStep(a) && a.i != i
    ensures i in Next(s, a).producers && Next(s, a).producers[i] == s.producers[i]
  {
  }

  lemma {:induction false} RunKeepsProducer(s: State, steps: seq<Step>, i: nat)
    requires Run(s, steps) && i in s.producers && LeavesProducer(steps, i)
    ensures i in End(s, steps).producers && End(s, steps).producers[i] == s.producers[i]
    decreases |steps|
  {
    if steps == [] {
    } else {
      OtherKeepsProducer(s, steps[0], i);
      RunKeepsProducer(Next(s, steps[0]), steps[1..], i);
    }
  }

  lemma AllocTakesFirst(s: State, i: nat, sta: nat)
    requires Enabled(s, Alloc(i, sta))
    ensures var s' := Next(s, Alloc(i, sta));
            i in s'.producers && s'.producers[i] == Filled(s.free[0], sta) && s'.free == s.free[1..]
  {
  }

  lemma AddQueuesLast(s: State, i: nat, slot: nat, sta: nat)
    requires i in s.producers && s.producers[i] == Filled(slot, sta)
    ensures Enabled(s, Add(i))
    ensures Next(s, Add(i)).queue == s.queue + [Pkt(slot, sta, s.indicated)]
    ensures Next(s, Add(i)).indicated == s.indicated + 1
  {
  }

  /** Whatever runs between a producer's allocation and its indication, the packet that comes to stand at
      the end of the queue has the container it got and the station it was for, and is the next in the
      order of indication. */
  lemma IndicationCarries(s: State, i: nat, sta: nat, steps: seq<Step>)
    requires Enabled(s, Alloc(i, sta)) && Run(Next(s, Alloc(i, sta)), steps) && LeavesProducer(steps, i)
    ensures var e := End(Next(s, Alloc(i, sta)), steps);
            && Enabled(e, Add(i))
            && Next(e, Add(i)).queue == e.queue + [Pkt(s.free[0], sta, e.indicated)]
  {
    AllocTakesFirst(s, i, sta);
    RunKeepsProducer(Next(s, Alloc(i, sta)), steps, i);
    AddQueuesLast(End(Next(s, Alloc(i, sta)), steps), i, s.free[0], sta);
  }

  // ----- whom a drop takes -----

  /** Whether a packet is one that a drop for `target` must take. */
  predicate MeantBy(target: Target, p: Pkt) {
    match target
    case Station(sta) => p.sta == sta
    case All => true
  }

  /** `part` is `q` without some of its packets, in the same order. */
  predicate Thinned(part: seq<Pkt>, q: seq<Pkt>) {
    if part == [] then true
    else if q == [] then false
    else if part[0] == q[0] then Thinned(part[1..], q[1..])
    else Thinned(part, q[1..])
  }

  lemma {:induction false} ThinnedBehind(part: seq<Pkt>, q: seq<Pkt>)
    requires q != [] && Thinned(part, q[1..]) && (part != [] ==> part[0] != q[0])
    ensures Thinned(part, q)
  {
  }

  lemma {:induction false} SiftedThins(q: seq<Pkt>, target: Target, hit: bool)
    ensures Thinned(Sifted(q, target, hit), q)
  {
    if q == [] {
    } else {
      var rest := Sifted(q[1..], target, hit);
      SiftedThins(q[1..], target, hit);
      if Hits(target, q[0]) == hit {
        assert ([q[0]] + rest)[1..] == rest;
      } else {
        assert Sifted(q, target, hit) == rest;
        SiftedMembers(q[1..], target, hit);
        assert rest != [] ==> rest[0] in rest;
      }
    }
  }

  /** A drop takes from the queue every packet it is meant for and no other: those of its station, or
      all. What it takes and what it leaves stand in the order they had. */
  lemma DropTakesExactly(s: State, j: nat, target: Target)
    requires Enabled(s, DropBegin(j, target))
    ensures var s' := Next(s, DropBegin(j, target));
            && (forall p :: p in s'.queue <==> p in s.queue && !MeantBy(target, p))
            && Thinned(s'.queue, s.queue)
            && (forall p :: p in LocalOf(s', j) <==> p in s.queue && MeantBy(target, p))
            && Thinned(LocalOf(s', j), s.queue)
            && s'.dropped == s.dropped
  {
    DropBegun(s, j, target);
    DropFramed(s, DropBegin(j, target));
    BeginDropsNothing(s, j, target);
    SiftedMembers(s.queue, target, true);
    SiftedMembers(s.queue, target, false);
    SiftedThins(s.queue, target, true);
    SiftedThins(s.queue, target, false);
  }

  lemma BeginDropsNothing(s: State, j: nat, target: Target)
    requires Enabled(s, DropBegin(j, target))
    ensures Next(s, DropBegin(j, target)).dropped == s.dropped
  {
  }

  // ----- how long a drop goes on -----

  /** Steps of its own before the drop has returned: a free for each packet and one to see that none is
      left, then polls every 10 ms for as long as 200 ms allow. */
  function OwnStepsLeft(d: Dropper): nat {
    match d
    case Freeing(_, local, _) => |local| + 23
    case Polling(_, timeout, _) => if timeout > 210 then 1 else (210 - timeout) / 10 + 1
    case Left(_, _, _) => 0
  }

  /** The step that dropper `j` makes next. */
  function OwnNext(d: Dropper, j: nat): Step
    requires !d.Left?
  {
    if d.Freeing? then DropFree(j) else DropPoll(j)
  }

  /** Timeouts come in steps of 10 and never pass 210. */
  predicate TimeoutSane(d: Dropper) {
    d.Polling? ==> d.timeout % 10 == 0 && d.timeout <= 210
  }

  lemma FreeEffect(s: State, j: nat)
    requires j in s.droppers && s.droppers[j].Freeing?
    ensures var d, s' := s.droppers[j], Next(s, DropFree(j));
            && j in s'.droppers
            && (d.local == [] ==> s'.droppers[j] == Polling(d.target, 0, d.cut) && s'.dropped == s.dropped)
            && (d.local != [] ==>
                  && s'.droppers[j] == Freeing(d.target, d.local[1..], d.cut)
                  && s'.dropped == s.dropped + [d.local[0]] && s'.free == s.free + [d.local[0].slot])
  {
  }

  /** A poll ends the drop at once when the mark is not on its station; otherwise it goes on, 10 ms later,
      until 200 ms have passed. A drop for all stations has no station to wait for. */
  lemma PollEffect(s: State, j: nat)
    requires j in s.droppers && s.droppers[j].Polling?
    ensures var d, s' := s.droppers[j], Next(s, DropPoll(j));
            && j in s'.droppers
            && s'.droppers[j] == if d.target.All? || s.active != Some(d.target.sta) then Left(d.target, d.cut, Clean)
                                 else if d.timeout > 200 then Left(d.target, d.cut, TimedOut)
                                 else Polling(d.target, d.timeout + 10, d.cut)
  {
  }

  lemma OwnStepShortens(s: State, j: nat)
    requires j in s.droppers && !s.droppers[j].Left? && TimeoutSane(s.droppers[j])
    ensures Enabled(s, OwnNext(s.droppers[j], j))
    ensures var d, s' := s.droppers[j], Next(s, OwnNext(s.droppers[j], j));
            && j in s'.droppers && TimeoutSane(s'.droppers[j])
            && OwnStepsLeft(s'.droppers[j]) < OwnStepsLeft(d)
            && s'.droppers[j].target == d.target && s'.droppers[j].cut == d.cut
  {
    if s.droppers[j].Freeing? {
      FreeEffect(s, j);
    } else {
      PollEffect(s, j);
      if s.droppers[j].timeout <= 200 {
        PollsLeft(s.droppers[j].timeout);
      }
    }
  }

  lemma PollsLeft(timeout: nat)
    requires timeout % 10 == 0 && timeout <= 200
    ensures (timeout + 10) % 10 == 0 && (210 - (timeout + 10)) / 10 + 1 == (210 - timeout) / 10
  {
  }

  function OwnSteps(steps: seq<Step>, j: nat): nat {
    if steps == [] then 0 else (if StepOf(steps[0], j) then 1 else 0) + OwnSteps(steps[1..], j)
  }

  lemma OwnStepIs(s: State, a: Step, j: nat)
    requires Enabled(s, a) && StepOf(a, j) && j in s.droppers
    ensures !s.droppers[j].Left? && a == OwnNext(s.droppers[j], j)
  {
  }

  /** Bounded drop: in every interleaving, the steps a drop has made and those left to it stay within the
      number left at the start, and it keeps its target and its cut. */
  lemma {:induction false} DropBound(s: State, steps: seq<Step>, j: nat)
    requires Run(s, steps) && j in s.droppers && TimeoutSane(s.droppers[j])
    ensures var d, e := s.droppers[j], End(s, steps);
            && j in e.droppers && e.droppers[j].target == d.target && e.droppers[j].cut == d.cut
            && TimeoutSane(e.droppers[j])
            && OwnSteps(steps, j) + OwnStepsLeft(e.droppers[j]) <= OwnStepsLeft(d)
    decreases |steps|
  {
    if steps == [] {
    } else {
      var a := steps[0];
      if StepOf(a, j) {
        OwnStepIs(s, a, j);
        OwnStepShortens(s, j);
      } else {
        StepFramed(s, a);
        OthersKeepDropper(s, a, Next(s, a), j);
      }
      DropBound(Next(s, a), steps[1..], j);
    }
  }

  // ----- from the call to the return -----

  /** A drop that finds packets queued has returned when it has made a step for each packet it took, and
      23 more; what it was given at the start, its target and the number of indications so far, it has
      at the end. */
  lemma DropReturns(s: State, j: nat, target: Target, steps: seq<Step>)
    requires Enabled(s, DropBegin(j, target)) && Run(Next(s, DropBegin(j, target)), steps)
    ensures var e := End(Next(s, DropBegin(j, target)), steps);
            && j in e.droppers && e.droppers[j].target == target && e.droppers[j].cut == s.indicated
            && (OwnSteps(steps, j) >= |s.queue| + 23 ==> e.droppers[j].Left?)
  {
    var s1 := Next(s, DropBegin(j, target));
    DropBegun(s, j, target);
    SiftedShorter(s.queue, target, true);
    DropBound(s1, steps, j);
  }

  lemma {:induction false} EarlyOnlyAtOnce(s: State, steps: seq<Step>, j: nat)
    requires Run(s, steps) && j in s.droppers && !(s.droppers[j].Left? && s.droppers[j].exit.Early?)
    ensures j in End(s, steps).droppers
    ensures !(End(s, steps).droppers[j].Left? && End(s, steps).droppers[j].exit.Early?)
    decreases |steps|
  {
    if steps == [] {
    } else {
      var a := steps[0];
      if StepOf(a, j) {
        OwnStepIs(s, a, j);
        if a.DropFree? {
          FreeEffect(s, j);
        } else {
          PollEffect(s, j);
        }
      } else {
        StepFramed(s, a);
        OthersKeepDropper(s, a, Next(s, a), j);
      }
      EarlyOnlyAtOnce(Next(s, a), steps[1..], j);
    }
  }

  /** The guarantee to a caller: a drop for a station that found packets queued and has returned without
      timing out leaves no packet of the station, indicated before it took the lock, to be delivered by
      any run. */
  lemma DropGuarantee(s: State, j: nat, sta: nat, steps: seq<Step>, after: seq<Step>)
    requires Inv(s) && Enabled(s, DropBegin(j, Station(sta))) && s.queue != []
    requires Run(Next(s, DropBegin(j, Station(sta))), steps)
    requires var e := End(Next(s, DropBegin(j, Station(sta))), steps);
             && j in e.droppers && e.droppers[j].Left? && !e.droppers[j].exit.TimedOut?
             && Run(e, after)
    ensures var e := End(Next(s, DropBegin(j, Station(sta))), steps);
            && e.delivered <= End(e, after).delivered
            && forall p :: p in End(e, after).delivered[|e.delivered|..] && p.sta == sta ==> p.msg >= s.indicated
  {
    var s1 := Next(s, DropBegin(j, Station(sta)));
    var e := End(s1, steps);
    DropBegun(s, j, Station(sta));
    DropReturns(s, j, Station(sta), steps);
    EarlyOnlyAtOnce(s1, steps, j);
    StepKeepsInv(s, DropBegin(j, Station(sta)));
    RunKeepsInv(s1, steps);
    DropIsFinal(e, after, j);
  }
}
