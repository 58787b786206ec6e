/**
 What one step of the OL-RX path can touch, by the kind of thread that makes it. The other proofs
 about steps start from these frames.
 */
module CdsRxFrames {
  import opened Basics
  import opened CdsRx

  /** The packets in the rx thread's hands. */
  function HeldBy(rx: Rx): seq<Pkt> {
    if rx.Holding? || rx.Calling? || rx.Returned? then [rx.pkt] else []
  }

  /** A producer may put one packet, numbered by the count of indications, behind the queue. */
  predicate QueueGrows(s: State, s': State) {
    && s'.indicated == s.indicated + 1
    && |s'.queue| == |s.queue| + 1 && s'.queue[..|s.queue|] == s.queue
    && s'.queue[|s.queue|].msg == s.indicated
  }

  predicate ByProducer(s: State, s': State) {
    && s'.rx == s.rx && s'.active == s.active && s'.droppers == s.droppers && s'.shutdown == s.shutdown
    && s'.delivered == s.delivered && s'.dropped == s.dropped
    && ((s'.queue == s.queue && s'.indicated == s.indicated) || QueueGrows(s, s'))
  }

  /** The rx thread may take the first packet off the queue; it blocks only on an empty queue. */
  predicate ByRx(s: State, s': State) {
    && s'.producers == s.producers && s'.droppers == s.droppers
    && s'.dropped == s.dropped && s'.indicated == s.indicated
    && (if s'.rx.Holding? then s.queue != [] && s'.queue == s.queue[1..] && s'.rx.pkt == s.queue[0]
        else s'.queue == s.queue)
    && (forall p :: p in HeldBy(s'.rx) ==> p in HeldBy(s.rx) || p in s.queue)
    && (s'.rx.Waiting? ==> s'.queue == [])
    && (s'.delivered == s.delivered || (s.rx.Holding? && s'.delivered == s.delivered + [s.rx.pkt]))
  }

  /** A dropper may take the packets it is meant to take off the queue. */
  predicate ByDropper(s: State, a: Step, s': State)
    requires DropStep(a)
  {
    && s'.rx == s.rx && s'.active == s.active && s'.producers == s.producers
    && s'.post == s.post && s'.shutdown == s.shutdown
    && s'.delivered == s.delivered && s'.indicated == s.indicated
    && s'.queue == (if a.DropBegin? then Sifted(s.queue, a.target, false) else s.queue)
    && a.j in s'.droppers && s'.droppers == s.droppers[a.j := s'.droppers[a.j]]
  }

  predicate ByClose(s: State, s': State) {
    s' == s.(post := s'.post, shutdown := s'.shutdown) && (s.post ==> s'.post)
  }

  predicate Framed(s: State, a: Step, s': State) {
    && (ProducerStep(a) ==> ByProducer(s, s'))
    && (RxStep(a) ==> ByRx(s, s'))
    && (DropStep(a) ==> ByDropper(s, a, s'))
    && (CloseStep(a) ==> ByClose(s, s'))
  }

  lemma TakeFramed(s: State)
    requires HeldBy(s.rx) == []
    ensures ByRx(s, TakeNext(s))
  {
  }

  lemma RxFramed(s: State, a: Step)
    requires RxStep(a) && Enabled(s, a)
    ensures ByRx(s, Next(s, a))
  {
    if a.RxPop? {
      TakeFramed(s);
    } else if a.RxRelock? {
      TakeFramed(s.(active := None));
    }
  }

  lemma CollectFramed(s: State, j: nat, target: Target)
    ensures ByDropper(s, DropBegin(j, target), Collected(s, j, target))
  {
  }

  lemma DropFreeFramed(s: State, j: nat)
    requires j in s.droppers && s.droppers[j].Freeing?
    ensures ByDropper(s, DropFree(j), AfterDropFree(s, j))
  {
  }

  lemma DropFramed(s: State, a: Step)
    requires DropStep(a) && Enabled(s, a)
    ensures ByDropper(s, a, Next(s, a))
  {
    match a {
      case DropBegin(j, target) => CollectFramed(s, j, target);
      case DropFree(j) => DropFreeFramed(s, j);
      case DropPoll(j) =>
    }
  }

  lemma ProducerFramed(s: State, a: Step)
    requires ProducerStep(a) && Enabled(s, a)
    ensures ByProducer(s, Next(s, a))
  {
  }

  lemma CloseFramed(s: State, a: Step)
    requires CloseStep(a) && Enabled(s, a)
    ensures ByClose(s, Next(s, a))
  {
  }

  lemma StepFramed(s: State, a: Step)
    requires Enabled(s, a)
    ensures Framed(s, a, Next(s, a))
  {
    if ProducerStep(a) {
      ProducerFramed(s, a);
    } else if RxStep(a) {
      RxFramed(s, a);
    } else if DropStep(a) {
      DropFramed(s, a);
    } else {
      CloseFramed(s, a);
    }
  }
}
