/**
 The OL-RX path over whole runs: order and at-most-once delivery, no lost wake-up, and what a drop
 guarantees.
 */
module CdsRxRuns {
  import opened Basics
  import opened CdsRx
  import opened CdsRxFrames
  import opened CdsRxInvariant
  import opened Places

  // ----- order -----

  predicate Increasing(q: seq<Pkt>) {
    forall i, j :: 0 <= i < j < |q| ==> q[i].msg < q[j].msg
  }

  function Poised(rx: Rx): seq<Pkt> {
    if rx.Holding? then [rx.pkt] else []
  }

  /** Packets delivered, in hand and queued, one after the other. */
  function Line(s: State): seq<Pkt> {
    s.delivered + Poised(s.rx) + s.queue
  }

  /** They stand in the order of their indication, so deliveries are a subsequence of it. */
  ghost predicate InOrder(s: State) {
    Increasing(Line(s)) && forall p :: p in Line(s) ==> p.msg < s.indicated
  }

  lemma {:induction false} SiftedMembers(q: seq<Pkt>, target: Target, hit: bool)
    ensures forall p :: p in Sifted(q, target, hit) <==> p in q && Hits(target, p) == hit
  {
    if q == [] {
    } else {
      SiftedMembers(q[1..], target, hit);
      assert q == [q[0]] + q[1..];
    }
  }

  lemma {:induction false} SiftedShorter(q: seq<Pkt>, target: Target, hit: bool)
    ensures |Sifted(q, target, hit)| <= |q|
  {
    if q == [] {
    } else {
      SiftedShorter(q[1..], target, hit);
    }
  }

  lemma {:induction false} SiftedOrder(q: seq<Pkt>, target: Target, hit: bool)
    requires Increasing(q)
    ensures Increasing(Sifted(q, target, hit))
  {
    if q == [] {
    } else {
      var r := Sifted(q[1..], target, hit);
      SiftedOrder(q[1..], target, hit);
      SiftedMembers(q[1..], target, hit);
      forall i | 0 <= i < |r| ensures q[0].msg < r[i].msg {
        assert r[i] in q[1..];
      }
    }
  }

  /** Thinning out the back of an increasing line leaves it increasing. */
  lemma ThinnedOrder(front: seq<Pkt>, q: seq<Pkt>, q': seq<Pkt>)
    requires Increasing(front + q) && Increasing(q') && forall p :: p in q' ==> p in q
    ensures Increasing(front + q')
  {
    forall i, k | 0 <= i < k < |front + q'| ensures (front + q')[i].msg < (front + q')[k].msg {
      if k < |front| {
        assert (front + q)[i].msg < (front + q)[k].msg;
      } else if i < |front| {
        assert q'[k - |front|] in q;
        var l :| 0 <= l < |q| && q[l] == q'[k - |front|];
        assert (front + q)[i].msg < (front + q)[|front| + l].msg;
      }
    }
  }

  lemma BackOrder(front: seq<Pkt>, q: seq<Pkt>)
    requires Increasing(front + q)
    ensures Increasing(q)
  {
    assert forall i :: 0 <= i < |q| ==> q[i] == (front + q)[|front| + i];
  }

  lemma SweepKeepsOrder(s: State, s': State, target: Target)
    requires InOrder(s) && s'.delivered == s.delivered && s'.rx == s.rx && s'.indicated == s.indicated
    requires s'.queue == Sifted(s.queue, target, false)
    ensures InOrder(s')
  {
    var front := s.delivered + Poised(s.rx);
    BackOrder(front, s.queue);
    SiftedOrder(s.queue, target, false);
    SiftedMembers(s.queue, target, false);
    ThinnedOrder(front, s.queue, s'.queue);
    forall p | p in Line(s') ensures p.msg < s.indicated {
      assert p in Line(s);
    }
  }

  lemma GrowthKeepsOrder(s: State, s': State)
    requires InOrder(s) && s'.delivered == s.delivered && s'.rx == s.rx && QueueGrows(s, s')
    ensures InOrder(s')
  {
    var p := s'.queue[|s.queue|];
    assert s'.queue == s.queue + [p];
    assert Line(s') == Line(s) + [p];
    forall k | 0 <= k < |Line(s)| ensures Line(s)[k].msg < p.msg {
      assert Line(s)[k] in Line(s);
    }
  }

  /** The rx thread only moves packets up the line. */
  lemma RxKeepsLine(s: State, a: Step)
    requires Enabled(s, a) && RxStep(a)
    ensures Line(Next(s, a)) == Line(s)
  {
    match a {
      case RxPop => TakeKeepsLine(s);
      case RxRelock => TakeKeepsLine(s.(active := None));
      case RxCall => assert s.delivered + [s.rx.pkt] + [] == s.delivered + [s.rx.pkt];
      case _ => QuietRxKeepsLine(s, a);
    }
  }

  lemma QuietRxKeepsLine(s: State, a: Step)
    requires Enabled(s, a) && RxStep(a) && !a.RxPop? && !a.RxRelock? && !a.RxCall?
    ensures Line(Next(s, a)) == Line(s)
  {
    var s' := Next(s, a);
    assert s'.delivered == s.delivered && s'.queue == s.queue && Poised(s'.rx) == Poised(s.rx) == [];
  }

  lemma TakeKeepsLine(s: State)
    requires !s.rx.Holding?
    ensures Line(TakeNext(s)) == Line(s)
  {
    if s.queue != [] {
      assert s.queue == [s.queue[0]] + s.queue[1..];
    }
  }

  lemma StepKeepsOrder(s: State, a: Step)
    requires InOrder(s) && Enabled(s, a)
    ensures InOrder(Next(s, a))
  {
    StepFramed(s, a);
    if RxStep(a) {
      RxKeepsLine(s, a);
      SameLineInOrder(s, Next(s, a));
    } else {
      OthersKeepOrder(s, a, Next(s, a));
    }
  }

  lemma SameLineInOrder(s: State, s': State)
    requires InOrder(s) && Line(s') == Line(s) && s'.indicated == s.indicated
    ensures InOrder(s')
  {
  }

  lemma OthersKeepOrder(s: State, a: Step, s': State)
    requires InOrder(s) && Framed(s, a, s') && !RxStep(a)
    ensures InOrder(s')
  {
    if a.DropBegin? {
      SweepKeepsOrder(s, s', a.target);
    } else if ProducerStep(a) && s'.indicated != s.indicated {
      GrowthKeepsOrder(s, s');
    } else {
      SameLineInOrder(s, s');
    }
  }

  // ----- wake-up -----

  /** A blocked rx thread with work has its bit set, or a producer is about to set it. */
  ghost predicate NoLostWakeup(s: State) {
    s.rx.Waiting? && s.queue != [] ==> s.post || exists i :: i in s.producers && s.producers[i].Added?
  }

  lemma ProducerKeepsWakeup(s: State, a: Step)
    requires NoLostWakeup(s) && Enabled(s, a) && ProducerStep(a)
    ensures NoLostWakeup(Next(s, a))
  {
    var s' := Next(s, a);
    if a.Add? {
      assert a.i in s'.producers && s'.producers[a.i].Added?;
    } else if a.Alloc? {
      assert forall i :: i in s.producers ==> i in s'.producers && s'.producers[i] == s.producers[i];
    }
  }

  lemma OthersKeepWakeup(s: State, a: Step, s': State)
    requires NoLostWakeup(s) && Framed(s, a, s') && !ProducerStep(a)
    ensures NoLostWakeup(s')
  {
    if a.DropBegin? {
      SiftedMembers(s.queue, a.target, false);
    }
  }

  lemma StepKeepsWakeup(s: State, a: Step)
    requires NoLostWakeup(s) && Enabled(s, a)
    ensures NoLostWakeup(Next(s, a))
  {
    if ProducerStep(a) {
      ProducerKeepsWakeup(s, a);
    } else {
      StepFramed(s, a);
      OthersKeepWakeup(s, a, Next(s, a));
    }
  }

  // ----- drops -----

  /** The active-station mark covers every packet in the rx thread's hands, and nothing else but
      the short stretch before the lock is taken again. */
  ghost predicate Marked(s: State) {
    && (HeldBy(s.rx) != [] ==> s.active == Some(s.rx.pkt.sta))
    && (HeldBy(s.rx) == [] && !s.rx.Relocking? ==> s.active.None?)
  }

  /** No packet of `target` indicated before `cut` is queued. */
  ghost predicate QueueQuiet(s: State, target: Target, cut: nat) {
    cut <= s.indicated && forall p :: p in s.queue && Hits(target, p) ==> p.msg >= cut
  }

  /** No packet of station `sta` indicated before `cut` is in the rx thread's hands. */
  ghost predicate HandsQuiet(s: State, sta: nat, cut: nat) {
    forall p :: p in HeldBy(s.rx) && p.sta == sta ==> p.msg >= cut
  }

  ghost predicate DropHonest(s: State, d: Dropper) {
    && (!(d.Left? && d.exit.Early?) ==> QueueQuiet(s, d.target, d.cut))
    && (d.Left? && d.exit.Clean? && d.target.Station? ==> HandsQuiet(s, d.target.sta, d.cut))
  }

  ghost predicate DropsHonest(s: State) {
    forall j :: j in s.droppers ==> DropHonest(s, s.droppers[j])
  }

  // What one step can change.

  lemma StepQueue(s: State, a: Step, s': State)
    requires Framed(s, a, s')
    ensures s.indicated <= s'.indicated
    ensures forall p :: p in s'.queue ==> p in s.queue || p.msg == s.indicated
  {
    if a.DropBegin? {
      SiftedMembers(s.queue, a.target, false);
    } else if ProducerStep(a) && s'.indicated != s.indicated {
      assert s'.queue == s.queue + [s'.queue[|s.queue|]];
    }
  }

  lemma StepHands(s: State, a: Step, s': State)
    requires Framed(s, a, s')
    ensures forall p :: p in HeldBy(s'.rx) ==> p in HeldBy(s.rx) || p in s.queue
  {
  }

  lemma StepDelivered(s: State, a: Step, s': State)
    requires Framed(s, a, s')
    ensures s'.delivered == s.delivered || (s.rx.Holding? && s'.delivered == s.delivered + [s.rx.pkt])
  {
  }

  predicate StepOf(a: Step, j: nat) {
    DropStep(a) && a.j == j
  }

  lemma OthersKeepDropper(s: State, a: Step, s': State, j: nat)
    requires Framed(s, a, s') && !StepOf(a, j)
    ensures j in s'.droppers <==> j in s.droppers
    ensures j in s.droppers ==> s'.droppers[j] == s.droppers[j]
  {
  }

  lemma StepLeft(s: State, a: Step, j: nat)
    requires Enabled(s, a) && j in s.droppers && s.droppers[j].Left?
    ensures j in Next(s, a).droppers && Next(s, a).droppers[j] == s.droppers[j]
  {
    StepFramed(s, a);
    OthersKeepDropper(s, a, Next(s, a), j);
  }

  lemma TakeMarks(s: State)
    requires HeldBy(s.rx) == [] && s.active.None?
    ensures Marked(TakeNext(s))
  {
  }

  lemma RxKeepsMark(s: State, a: Step)
    requires Marked(s) && Enabled(s, a) && RxStep(a)
    ensures Marked(Next(s, a))
  {
    if a.RxPop? {
      TakeMarks(s);
    } else if a.RxRelock? {
      TakeMarks(s.(active := None));
    }
  }

  lemma StepKeepsMark(s: State, a: Step)
    requires Marked(s) && Enabled(s, a)
    ensures Marked(Next(s, a))
  {
    if RxStep(a) {
      RxKeepsMark(s, a);
    } else {
      StepFramed(s, a);
      OthersKeepMark(s, a, Next(s, a));
    }
  }

  lemma OthersKeepMark(s: State, a: Step, s': State)
    requires Marked(s) && Framed(s, a, s') && !RxStep(a)
    ensures Marked(s')
  {
  }

  /** What is quiet stays quiet, whatever the other threads do. */
  lemma QuietStays(s: State, a: Step, s': State, d: Dropper)
    requires Framed(s, a, s') && DropHonest(s, d)
    ensures DropHonest(s', d)
  {
    StepQueue(s, a, s');
    StepHands(s, a, s');
  }

  /** The poll may end only when the station is no longer marked: then its packet is out of hand. */
  lemma PollIsHonest(s: State, d: Dropper)
    requires Marked(s) && d.Polling? && DropHonest(s, d)
    ensures DropHonest(s, Polled(d, s.active))
  {
  }

  lemma BeginIsHonest(s: State, s': State, d: Dropper)
    requires InOrder(s) && s'.queue == Sifted(s.queue, d.target, false) && s'.indicated == s.indicated
    requires d.cut == s.indicated && !(d.Left? && d.exit.Clean?)
    ensures DropHonest(s', d)
  {
    SiftedMembers(s.queue, d.target, false);
  }

  lemma DropBegun(s: State, j: nat, target: Target)
    requires Enabled(s, DropBegin(j, target))
    ensures var s' := Next(s, DropBegin(j, target));
            && j in s'.droppers
            && s'.droppers[j] == if s.queue == [] then Left(target, s.indicated, Early)
                                 else Freeing(target, Sifted(s.queue, target, true), s.indicated)
  {
  }

  /** A dropper's own step keeps its target and its cut. */
  lemma OwnStep(s: State, a: Step, j: nat)
    requires Enabled(s, a) && StepOf(a, j) && !a.DropBegin?
    ensures j in s.droppers && j in Next(s, a).droppers
    ensures var d, d' := s.droppers[j], Next(s, a).droppers[j];
            || (a.DropPoll? && d.Polling? && d' == Polled(d, s.active))
            || (d.Freeing? && (d'.Freeing? || d'.Polling?) && d'.target == d.target && d'.cut == d.cut)
  {
  }

  lemma StepKeepsDrop(s: State, a: Step, j: nat)
    requires InOrder(s) && Marked(s) && DropsHonest(s) && Enabled(s, a) && j in Next(s, a).droppers
    ensures DropHonest(Next(s, a), Next(s, a).droppers[j])
  {
    var s' := Next(s, a);
    StepFramed(s, a);
    if !StepOf(a, j) {
      OthersKeepDropper(s, a, s', j);
      QuietStays(s, a, s', s.droppers[j]);
    } else if a.DropBegin? {
      DropBegun(s, j, a.target);
      BeginIsHonest(s, s', s'.droppers[j]);
    } else {
      OwnStep(s, a, j);
      if a.DropPoll? {
        PollIsHonest(s, s.droppers[j]);
        QuietStays(s, a, s', Polled(s.droppers[j], s.active));
      } else {
        QuietStays(s, a, s', s.droppers[j]);
      }
    }
  }

  lemma StepKeepsDrops(s: State, a: Step)
    requires InOrder(s) && Marked(s) && DropsHonest(s) && Enabled(s, a)
    ensures DropsHonest(Next(s, a))
  {
    forall j | j in Next(s, a).droppers ensures DropHonest(Next(s, a), Next(s, a).droppers[j]) {
      StepKeepsDrop(s, a, j);
    }
  }

  // ----- all of it -----

  ghost predicate Inv(s: State) {
    SlotsConserved(s) && MsgsConserved(s) && InOrder(s) && NoLostWakeup(s) && Marked(s) && DropsHonest(s)
  }

  lemma StepKeepsInv(s: State, a: Step)
    requires Inv(s) && Enabled(s, a)
    ensures Inv(Next(s, a)) && Next(s, a).slotAt.Keys == s.slotAt.Keys
  {
    StepKeepsSlots(s, a);
    StepKeepsMsgs(s, a);
    StepKeepsOrder(s, a);
    StepKeepsWakeup(s, a);
    StepKeepsMark(s, a);
    StepKeepsDrops(s, a);
  }

  lemma {:induction false} RunKeepsInv(s: State, steps: seq<Step>)
    requires Inv(s) && Run(s, steps)
    ensures Inv(End(s, steps)) && End(s, steps).slotAt.Keys == s.slotAt.Keys
    decreases |steps|
  {
    if steps == [] {
    } else {
      StepKeepsInv(s, steps[0]);
      RunKeepsInv(Next(s, steps[0]), steps[1..]);
    }
  }

  lemma OpenedInv(pool: seq<nat>)
    requires NoDup(pool)
    ensures Inv(Opened(pool))
  {
    var s := Opened(pool);
    assert Partitioned(SlotsIn(s), s.slotAt) by {
      assert forall pl :: pl != Free ==> SlotsIn(s)(pl) == [];
    }
    assert Partitioned(MsgsIn(s), s.msgAt) by {
      assert forall pl :: MsgsIn(s)(pl) == [];
    }
  }

  /** Every reachable state of every interleaving, from opening with the containers of `pool`. */
  lemma ReachableInv(pool: seq<nat>, steps: seq<Step>)
    requires NoDup(pool) && Run(Opened(pool), steps)
    ensures Inv(End(Opened(pool), steps))
    ensures forall x :: x in End(Opened(pool), steps).slotAt <==> x in pool
  {
    OpenedInv(pool);
    RunKeepsInv(Opened(pool), steps);
  }

  /** Delivered packets come out in indication order, so none comes out twice. */
  lemma AtMostOnce(s: State, i: nat, j: nat)
    requires Inv(s) && i < j < |s.delivered|
    ensures s.delivered[i].msg < s.delivered[j].msg < s.indicated
  {
    assert Line(s)[i] == s.delivered[i] && Line(s)[j] == s.delivered[j];
    assert s.delivered[j] in Line(s);
  }

  /** A delivered packet is nowhere else: not dropped, not queued, not in hand for another delivery, and
      on no drop's list. */
  lemma DeliveredNowhereElse(s: State, j: nat)
    requires Inv(s) && j < |s.delivered|
    ensures var m := s.delivered[j].msg;
            && m !in MsgsOf(s.dropped) && m !in MsgsOf(s.queue) && m !in MsgsOf(Poised(s.rx))
            && forall k: nat :: m !in MsgsOf(LocalOf(s, k))
  {
    var f, m := MsgsIn(s), s.delivered[j].msg;
    assert f(Delivered)[j] == m && m in f(Delivered);
    assert s.msgAt[m] == Delivered;
    assert m in f(Dropped) <==> m in s.msgAt && s.msgAt[m] == Dropped;
    assert m in f(MsgQueued) <==> m in s.msgAt && s.msgAt[m] == MsgQueued;
    assert m in f(MsgAtRx) <==> m in s.msgAt && s.msgAt[m] == MsgAtRx;
    forall k: nat ensures m !in MsgsOf(LocalOf(s, k)) {
      assert m in f(MsgAtDropper(k)) <==> m in s.msgAt && s.msgAt[m] == MsgAtDropper(k);
    }
  }

  // ----- what is delivered after a drop -----

  /** A drop that has returned stays as it was, and what it established holds in every later state. */
  lemma {:induction false} VerdictStands(s: State, steps: seq<Step>, j: nat)
    requires Inv(s) && Run(s, steps) && j in s.droppers && s.droppers[j].Left?
    ensures j in End(s, steps).droppers && End(s, steps).droppers[j] == s.droppers[j]
    ensures DropHonest(End(s, steps), s.droppers[j])
    decreases |steps|
  {
    if steps == [] {
    } else {
      StepLeft(s, steps[0], j);
      StepKeepsInv(s, steps[0]);
      VerdictStands(Next(s, steps[0]), steps[1..], j);
    }
  }

  /** The packet in hand, its callback not yet entered, is one of `target` indicated before `cut`. */
  predicate InHand(s: State, target: Target, cut: nat) {
    s.rx.Holding? && Hits(target, s.rx.pkt) && s.rx.pkt.msg < cut
  }

  /** Nothing of `target` indicated before `cut` can be delivered any more: none is queued, and none is
      about to be handed to its callback. */
  ghost predicate Settled(s: State, target: Target, cut: nat) {
    QueueQuiet(s, target, cut) && !InHand(s, target, cut)
  }

  /** What was delivered between two states contains nothing of `target` indicated before `cut`. */
  ghost predicate NoneEarlier(s: State, e: State, target: Target, cut: nat) {
    && s.delivered <= e.delivered
    && forall p :: p in e.delivered[|s.delivered|..] && Hits(target, p) ==> p.msg >= cut
  }

  lemma StepKeepsSettled(s: State, a: Step, s': State, target: Target, cut: nat)
    requires Framed(s, a, s') && Settled(s, target, cut)
    ensures Settled(s', target, cut) && NoneEarlier(s, s', target, cut)
  {
    StepQueue(s, a, s');
    StepDelivered(s, a, s');
  }

  lemma NoneEarlierTwice(s: State, m: State, e: State, target: Target, cut: nat)
    requires NoneEarlier(s, m, target, cut) && NoneEarlier(m, e, target, cut)
    ensures NoneEarlier(s, e, target, cut)
  {
    var later := e.delivered[|s.delivered|..];
    assert later == m.delivered[|s.delivered|..] + e.delivered[|m.delivered|..];
  }

  lemma {:induction false} SettledDelivers(s: State, steps: seq<Step>, target: Target, cut: nat)
    requires Settled(s, target, cut) && Run(s, steps)
    ensures NoneEarlier(s, End(s, steps), target, cut)
    decreases |steps|
  {
    if steps == [] {
    } else {
      var s1 := Next(s, steps[0]);
      StepFramed(s, steps[0]);
      StepKeepsSettled(s, steps[0], s1, target, cut);
      SettledDelivers(s1, steps[1..], target, cut);
      NoneEarlierTwice(s, s1, End(s1, steps[1..]), target, cut);
    }
  }

  /** No run from `s` delivers a packet of `target` indicated before `cut`. */
  ghost predicate NeverDelivers(s: State, target: Target, cut: nat) {
    forall steps :: Run(s, steps) ==> NoneEarlier(s, End(s, steps), target, cut)
  }

  /** With none left in the queue, that is so exactly if none is in hand. */
  lemma NeverDeliversIff(s: State, target: Target, cut: nat)
    requires QueueQuiet(s, target, cut)
    ensures NeverDelivers(s, target, cut) <==> !InHand(s, target, cut)
  {
    if InHand(s, target, cut) {
      PoisedIsDelivered(s);
      assert Run(s, [RxCall]);
    } else {
      forall steps | Run(s, steps) ensures NoneEarlier(s, End(s, steps), target, cut) {
        SettledDelivers(s, steps, target, cut);
      }
    }
  }

  /** Every drop that swept the queue, for one station or for all, still at work, timed out or done: no
      run delivers a packet it was meant for, indicated before it took the lock, exactly if none is in
      hand with its callback not yet entered. */
  lemma SweptDropFinalIff(s: State, j: nat)
    requires Inv(s) && j in s.droppers && !(s.droppers[j].Left? && s.droppers[j].exit.Early?)
    ensures var d := s.droppers[j]; NeverDelivers(s, d.target, d.cut) <==> !InHand(s, d.target, d.cut)
  {
    var d := s.droppers[j];
    assert DropHonest(s, d);
    NeverDeliversIff(s, d.target, d.cut);
  }

  /** A drop for a station that waited its turn is final: whatever runs afterwards, no packet of the
      station indicated before the drop took the queue lock is delivered any more. */
  lemma DropIsFinal(s: State, steps: seq<Step>, j: nat)
    requires Inv(s) && Run(s, steps)
    requires j in s.droppers && s.droppers[j].Left? && s.droppers[j].exit.Clean? && s.droppers[j].target.Station?
    ensures s.delivered <= End(s, steps).delivered
    ensures forall p :: p in End(s, steps).delivered[|s.delivered|..] && p.sta == s.droppers[j].target.sta ==>
              p.msg >= s.droppers[j].cut
  {
    var d := s.droppers[j];
    assert DropHonest(s, d);
    assert s.rx.Holding? ==> s.rx.pkt in HeldBy(s.rx);
    SettledDelivers(s, steps, d.target, d.cut);
  }

  /** A drop that finds the queue empty returns at once. Its station is then out of the rx thread's
      hands exactly if the active mark is not on it (or the thread is past freeing). */
  lemma EarlyDropQuietIff(s: State, j: nat, sta: nat)
    requires Inv(s) && j !in s.droppers && s.queue == []
    ensures var s' := Next(s, DropBegin(j, Station(sta)));
            (forall p :: p in HeldBy(s'.rx) ==> p.sta != sta) <==> (s.active != Some(sta) || s.rx.Relocking?)
  {
    DropFramed(s, DropBegin(j, Station(sta)));
    if s.active == Some(sta) && !s.rx.Relocking? {
      assert s.rx.pkt in HeldBy(s.rx);
    }
  }

  /** After a drop that found the queue empty, no run delivers a packet it was meant for, indicated before
      it, exactly if none was popped whose callback is still to be entered. */
  lemma EarlyDropFinalIff(s: State, j: nat, target: Target)
    requires Inv(s) && j !in s.droppers && s.queue == []
    ensures NeverDelivers(Next(s, DropBegin(j, target)), target, s.indicated)
       <==> !(s.rx.Holding? && Hits(target, s.rx.pkt))
  {
    DropFramed(s, DropBegin(j, target));
    NeverDeliversIff(Next(s, DropBegin(j, target)), target, s.indicated);
    assert s.rx.Holding? ==> s.rx.pkt in Line(s);
  }

  lemma PoisedIsDelivered(s: State)
    requires s.rx.Holding?
    ensures Run(s, [RxCall]) && s.rx.pkt in End(s, [RxCall]).delivered[|s.delivered|..]
  {
    assert [RxCall][1..] == [];
    assert End(s, [RxCall]) == Next(s, RxCall);
    assert Next(s, RxCall).delivered[|s.delivered|..] == [s.rx.pkt];
  }
}
