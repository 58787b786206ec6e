/**
 Progress of the OL-RX path: the rx thread empties the queue, a packet waits a bounded number of the
 rx thread's steps whatever the other threads do, and closing loses no container.
 */
module CdsRxProgress {
  import opened Basics
  import opened CdsRx
  import opened CdsRxFrames
  import opened CdsRxInvariant
  import opened CdsRxRuns
  import opened Places

  // ----- the rx thread empties the queue -----

  /** The step the rx thread makes next, if it is not blocked. */
  function RxTurn(s: State): Option<Step> {
    match s.rx
    case Waiting => if s.post then Some(RxWake) else None
    case Woken => Some(RxClear)
    case Cleared => Some(RxCheck)
    case Popping => Some(RxPop)
    case Holding(_) => Some(RxCall)
    case Calling(_) => Some(RxReturn)
    case Returned(_) => Some(RxFree)
    case Relocking => Some(RxRelock)
    case Exited => None
  }

  /** Steps from the rx thread's position to its next look at the queue. */
  function Distance(rx: Rx): nat {
    match rx
    case Waiting => 4
    case Woken => 3
    case Cleared => 2
    case Popping => 1
    case Holding(_) => 4
    case Calling(_) => 3
    case Returned(_) => 2
    case Relocking => 1
    case Exited => 0
  }

  /** Between taking a packet and the look after it. */
  predicate InTurn(rx: Rx) {
    HeldBy(rx) != [] || rx.Relocking?
  }

  /** The thread comes one step closer to its look at the queue. */
  predicate Approaches(s: State, s': State) {
    && InTurn(s'.rx) == InTurn(s.rx)
    && Distance(s'.rx) == Distance(s.rx) - 1 && !s'.rx.Waiting? && !s'.rx.Exited? && !s'.rx.Holding?
    && s'.queue == s.queue && !s'.shutdown && s'.post == (s.post && !s.rx.Woken?)
  }

  /** The thread looks at the queue: it takes the first packet, or blocks. */
  predicate Looks(s: State, s': State) {
    && s'.shutdown == s.shutdown && s'.post == s.post
    && if s.queue == [] then s'.rx == Waiting && s'.queue == []
       else s'.rx == Holding(s.queue[0]) && s'.queue == s.queue[1..]
  }

  predicate Advances(s: State, s': State) {
    if Distance(s.rx) == 1 then Looks(s, s') else Approaches(s, s')
  }

  lemma TakeLooks(s: State)
    ensures Looks(s, TakeNext(s))
  {
  }

  lemma PopLooks(s: State)
    requires s.rx.Popping?
    ensures Looks(s, Next(s, RxPop))
  {
    TakeLooks(s);
  }

  lemma RelockLooks(s: State)
    requires s.rx.Relocking?
    ensures Looks(s, Next(s, RxRelock))
  {
    TakeLooks(s.(active := None));
  }

  lemma TurnApproaches(s: State)
    requires RxTurn(s).Some? && !s.shutdown && !s.rx.Popping? && !s.rx.Relocking?
    ensures Enabled(s, RxTurn(s).value) && Approaches(s, Next(s, RxTurn(s).value))
  {
    if s.rx.Holding? {
      CallApproaches(s);
    } else if s.rx.Calling? {
      ReturnApproaches(s);
    } else if s.rx.Returned? {
      FreeApproaches(s);
    } else {
      RoundApproaches(s);
    }
  }

  lemma RoundApproaches(s: State)
    requires RxTurn(s).Some? && !s.shutdown && (s.rx.Waiting? || s.rx.Woken? || s.rx.Cleared?)
    ensures Approaches(s, Next(s, RxTurn(s).value))
  {
  }

  lemma ReturnApproaches(s: State)
    requires s.rx.Calling? && !s.shutdown
    ensures Approaches(s, Next(s, RxReturn))
  {
  }

  lemma CallApproaches(s: State)
    requires s.rx.Holding? && !s.shutdown
    ensures Approaches(s, Next(s, RxCall))
  {
  }

  lemma FreeApproaches(s: State)
    requires s.rx.Returned? && !s.shutdown
    ensures Approaches(s, Next(s, RxFree))
  {
  }

  /** Each step brings the thread one closer to the queue; there it takes a packet or blocks. */
  lemma TurnEffect(s: State)
    requires RxTurn(s).Some? && !s.shutdown
    ensures Enabled(s, RxTurn(s).value) && RxStep(RxTurn(s).value)
    ensures Advances(s, Next(s, RxTurn(s).value))
  {
    if s.rx.Popping? {
      PopLooks(s);
    } else if s.rx.Relocking? {
      RelockLooks(s);
    } else {
      TurnApproaches(s);
    }
  }

  /** A measure of what is left for the thread to do by itself. */
  function Rank(s: State): nat {
    8 * |s.queue| +
    if s.rx.Waiting? then (if s.post then 20 else 0)
    else if s.rx.Woken? then 19
    else if s.rx.Exited? then 0
    else (if InTurn(s.rx) then 12 else 16) + Distance(s.rx) + if s.post then 30 else 0
  }

  ghost predicate Able(s: State) {
    !s.shutdown && !s.rx.Exited? && (s.rx.Waiting? ==> s.post || s.queue == [])
  }

  lemma TurnKeepsAble(s: State)
    requires Able(s) && RxTurn(s).Some?
    ensures Enabled(s, RxTurn(s).value) && Able(Next(s, RxTurn(s).value))
    ensures Rank(Next(s, RxTurn(s).value)) < Rank(s)
  {
    TurnEffect(s);
    EffectLowersRank(s, Next(s, RxTurn(s).value));
  }

  lemma EffectLowersRank(s: State, s': State)
    requires Able(s) && RxTurn(s).Some?
    requires Advances(s, s')
    ensures Able(s') && Rank(s') < Rank(s)
  {
  }

  /** The rx thread running by itself until it blocks. */
  ghost function RxAlone(s: State): State
    requires Able(s)
    decreases Rank(s)
  {
    if RxTurn(s).None? then s else
      TurnKeepsAble(s);
      RxAlone(Next(s, RxTurn(s).value))
  }

  /** Once awake the rx thread delivers everything that is queued, in order, and blocks again. */
  lemma {:induction false} RxAloneDrains(s: State)
    requires Able(s)
    ensures var e := RxAlone(s); e.rx.Waiting? && e.queue == [] && e.delivered == Line(s)
    decreases Rank(s)
  {
    if RxTurn(s).None? {
      assert s.delivered + [] + [] == s.delivered;
    } else {
      TurnKeepsAble(s);
      TurnEffect(s);
      RxKeepsLine(s, RxTurn(s).value);
      RxAloneDrains(Next(s, RxTurn(s).value));
    }
  }

  // ----- a round of the rx thread, packet by packet -----

  lemma {:induction false} RunSnoc(s: State, steps: seq<Step>, a: Step)
    requires Run(s, steps) && Enabled(End(s, steps), a)
    ensures Run(s, steps + [a]) && End(s, steps + [a]) == Next(End(s, steps), a)
    decreases |steps|
  {
    if steps == [] {
      assert steps + [a] == [a] && [a][1..] == [];
    } else {
      RunSnoc(Next(s, steps[0]), steps[1..], a);
      assert (steps + [a])[1..] == steps[1..] + [a];
    }
  }

  /** After `steps` the rx thread has delivered `out`, and what is in hand or queued is the rest of what
      was queued at the start. */
  ghost predicate Serves(s: State, steps: seq<Step>, out: seq<Pkt>) {
    && Run(s, steps)
    && var e := End(s, steps);
    && e.delivered == s.delivered + out && out + Poised(e.rx) + e.queue == s.queue
    && (e.rx.Holding? || (e.rx.Waiting? && e.queue == []))
  }

  lemma PopServes(s: State)
    requires s.rx.Popping?
    ensures Serves(s, [RxPop], [])
  {
    PopLooks(s);
    RunSnoc(s, [], RxPop);
    assert [] + [RxPop] == [RxPop];
    PopDeliversNothing(s);
  }

  lemma PopDeliversNothing(s: State)
    requires s.rx.Popping?
    ensures Next(s, RxPop).delivered == s.delivered
  {
  }

  const TURN: seq<Step> := [RxCall, RxReturn, RxFree, RxRelock]

  /** From one packet in hand to the next look at the queue. */
  lemma TurnEnds(c: State)
    requires c.rx.Holding?
    ensures Enabled(c, RxCall) && Enabled(Next(c, RxCall), RxReturn)
    ensures var c2 := Next(Next(c, RxCall), RxReturn);
            && Enabled(c2, RxFree) && Enabled(Next(c2, RxFree), RxRelock)
            && c2.free == c.free && c2.queue == c.queue && c2.post == c.post && c2.shutdown == c.shutdown
            && c2.active == c.active && c2.indicated == c.indicated
            && Next(c2, RxFree) == Released(c2.(rx := Relocking), c.rx.pkt)
            && Looks(c, Next(Next(c2, RxFree), RxRelock))
            && Next(Next(c2, RxFree), RxRelock).delivered == c.delivered + [c.rx.pkt]
  {
    var c3 := Next(Next(Next(c, RxCall), RxReturn), RxFree);
    RelockLooks(c3);
    RelockDeliversNothing(c3);
  }

  lemma RelockDeliversNothing(s: State)
    requires s.rx.Relocking?
    ensures Next(s, RxRelock).delivered == s.delivered
  {
  }

  lemma TurnServes(s: State, steps: seq<Step>, out: seq<Pkt>)
    requires Serves(s, steps, out) && End(s, steps).rx.Holding?
    ensures var c := End(s, steps);
            && Serves(s, steps + TURN, out + [c.rx.pkt])
            && End(s, steps + TURN) == Next(Next(Next(Next(c, RxCall), RxReturn), RxFree), RxRelock)
  {
    var c := End(s, steps);
    TurnEnds(c);
    RunSnoc(s, steps, RxCall);
    RunSnoc(s, steps + [RxCall], RxReturn);
    RunSnoc(s, steps + [RxCall] + [RxReturn], RxFree);
    RunSnoc(s, steps + [RxCall] + [RxReturn] + [RxFree], RxRelock);
    assert steps + [RxCall] + [RxReturn] + [RxFree] + [RxRelock] == steps + TURN;
    var e := End(s, steps + TURN);
    assert out + [c.rx.pkt] + Poised(e.rx) + e.queue == out + Poised(c.rx) + c.queue;
  }

  // ----- how long a packet waits -----

  /** Packet `m` is still to be delivered: queued, or popped with its callback not yet entered. */
  predicate Pending(s: State, m: nat) {
    Queued(s.queue, m) || (s.rx.Holding? && s.rx.pkt.msg == m)
  }

  predicate Queued(q: seq<Pkt>, m: nat) {
    q != [] && (q[0].msg == m || Queued(q[1..], m))
  }

  function Position(q: seq<Pkt>, m: nat): nat
    requires Queued(q, m)
  {
    if q[0].msg == m then 0 else 1 + Position(q[1..], m)
  }

  /** Steps of the rx thread before packet `m` is handed to its callback. */
  function StepsToGo(s: State, m: nat): nat
    requires Pending(s, m)
  {
    if s.rx.Holding? && s.rx.pkt.msg == m then 1 else Distance(s.rx) + 4 * Position(s.queue, m) + 1
  }

  lemma {:induction false} QueuedBehind(q: seq<Pkt>, p: Pkt, m: nat)
    requires Queued(q, m)
    ensures Queued(q + [p], m) && Position(q + [p], m) == Position(q, m)
  {
    assert (q + [p])[1..] == q[1..] + [p];
    if q[0].msg == m {
    } else {
      QueuedBehind(q[1..], p, m);
    }
  }

  lemma {:induction false} QueuedElsewhere(q: seq<Pkt>, p: Pkt, m: nat)
    requires p.msg != m && Queued(q + [p], m)
    ensures Queued(q, m)
    decreases |q|
  {
    if q == [] {
      assert (q + [p])[1..] == [];
    } else {
      assert (q + [p])[1..] == q[1..] + [p];
      if q[0].msg != m {
        QueuedElsewhere(q[1..], p, m);
      }
    }
  }

  lemma {:induction false} QueuedIff(q: seq<Pkt>, m: nat)
    ensures Queued(q, m) <==> exists p :: p in q && p.msg == m
  {
    if q == [] {
    } else {
      QueuedIff(q[1..], m);
      assert q == [q[0]] + q[1..];
      assert q[0] in q;
    }
  }

  /** A sweep can only move a packet up, or take it. */
  lemma {:induction false} SweptPosition(q: seq<Pkt>, target: Target, m: nat)
    requires Increasing(q) && Queued(Sifted(q, target, false), m)
    ensures Queued(q, m) && Position(Sifted(q, target, false), m) <= Position(q, m)
  {
    if q == [] {
    } else {
      var r := Sifted(q[1..], target, false);
      if Hits(target, q[0]) {
        assert Sifted(q, target, false) == r;
        QueuedIff(r, m);
        SiftedMembers(q[1..], target, false);
        assert q[0].msg != m;
      } else {
        assert Sifted(q, target, false) == [q[0]] + r && ([q[0]] + r)[1..] == r;
      }
      if q[0].msg != m {
        SweptPosition(q[1..], target, m);
      }
    }
  }

  /** No step of another thread makes a pending packet wait longer. */
  lemma OthersDelayNothing(s: State, a: Step, s': State, m: nat)
    requires InOrder(s) && Framed(s, a, s') && !RxStep(a) && m < s.indicated && Pending(s', m)
    ensures Pending(s, m) && StepsToGo(s', m) <= StepsToGo(s, m)
  {
    if s.rx.Holding? && s.rx.pkt.msg == m {
    } else if a.DropBegin? {
      BackOrder(s.delivered + Poised(s.rx), s.queue);
      SweptPosition(s.queue, a.target, m);
    } else if ProducerStep(a) && s'.indicated != s.indicated {
      var p := s'.queue[|s.queue|];
      assert s'.queue == s.queue + [p];
      QueuedElsewhere(s.queue, p, m);
      QueuedBehind(s.queue, p, m);
    }
  }

  /** Every step of the rx thread brings a pending packet one step closer, until it is delivered. */
  lemma EffectServes(s: State, s': State, m: nat)
    requires Increasing(Line(s)) && Pending(s, m) && Pending(s', m)
    requires Advances(s, s')
    ensures StepsToGo(s', m) == StepsToGo(s, m) - 1
  {
    var front := s.delivered + Poised(s.rx);
    BackOrder(front, s.queue);
    if s.rx.Holding? {
      // the packet in hand is delivered by this step, so `m` is a later one
      HandIsAhead(s, m);
    }
    if Distance(s.rx) == 1 && s.queue[0].msg == m {
      QueuedIff(s.queue[1..], m);
    }
  }

  lemma HandIsAhead(s: State, m: nat)
    requires Increasing(Line(s)) && s.rx.Holding? && Queued(s.queue, m)
    ensures s.rx.pkt.msg != m
  {
    QueuedIff(s.queue, m);
    var i :| 0 <= i < |s.queue| && s.queue[i].msg == m;
    var front := s.delivered + [s.rx.pkt];
    assert Line(s)[|front| - 1] == s.rx.pkt && Line(s)[|front| + i] == s.queue[i];
  }

  lemma RxServes(s: State, a: Step, m: nat)
    requires InOrder(s) && Enabled(s, a) && RxStep(a) && !s.shutdown && Pending(s, m) && Pending(Next(s, a), m)
    ensures StepsToGo(Next(s, a), m) == StepsToGo(s, m) - 1
  {
    assert RxTurn(s) == Some(a);
    TurnEffect(s);
    EffectServes(s, Next(s, a), m);
  }

  function RxSteps(steps: seq<Step>): nat {
    if steps == [] then 0 else (if RxStep(steps[0]) then 1 else 0) + RxSteps(steps[1..])
  }

  lemma StepAwaits(s: State, a: Step, m: nat)
    requires Inv(s) && Enabled(s, a) && !s.shutdown && a != CloseFlag && m < s.indicated && Pending(Next(s, a), m)
    ensures Pending(s, m) && !Next(s, a).shutdown && m < Next(s, a).indicated
    ensures StepsToGo(Next(s, a), m) + (if RxStep(a) then 1 else 0) <= StepsToGo(s, m)
  {
    StepFramed(s, a);
    if RxStep(a) {
      StillPending(s, Next(s, a), m);
      RxServes(s, a, m);
    } else {
      OthersDelayNothing(s, a, Next(s, a), m);
    }
    StaysOpen(s, a);
  }

  lemma StillPending(s: State, s': State, m: nat)
    requires ByRx(s, s') && Pending(s', m)
    ensures Pending(s, m)
  {
  }

  lemma StaysOpen(s: State, a: Step)
    requires Enabled(s, a) && !s.shutdown && a != CloseFlag
    ensures !Next(s, a).shutdown
  {
    if RxStep(a) {
      assert RxTurn(s) == Some(a);
      TurnEffect(s);
    } else {
      StepFramed(s, a);
    }
  }

  /** Bounded delivery in every interleaving without a shutdown: while a packet is pending, the steps
      the rx thread has made and those still to come are within the bound set at the start. */
  lemma {:induction false} PendingBound(s: State, steps: seq<Step>, m: nat)
    requires Inv(s) && Run(s, steps) && !s.shutdown && CloseFlag !in steps && m < s.indicated
    requires Pending(End(s, steps), m)
    ensures Pending(s, m) && RxSteps(steps) + StepsToGo(End(s, steps), m) <= StepsToGo(s, m)
    decreases |steps|
  {
    if steps == [] {
    } else {
      var s1 := Next(s, steps[0]);
      StepKeepsInv(s, steps[0]);
      StaysOpen(s, steps[0]);
      StepFramed(s, steps[0]);
      StepQueue(s, steps[0], s1);
      PendingBound(s1, steps[1..], m);
      StepAwaits(s, steps[0], m);
    }
  }

  /** So a packet at position `k` of the queue is delivered, or taken by a drop, by the time the rx
      thread has made `4k` steps and at most five more. */
  lemma ServedInTime(s: State, steps: seq<Step>, m: nat)
    requires Inv(s) && Run(s, steps) && !s.shutdown && CloseFlag !in steps
    requires Queued(s.queue, m) && m < s.indicated && RxSteps(steps) >= 4 * Position(s.queue, m) + 5
    ensures var e := End(s, steps);
            m in MsgsOf(e.delivered) || m in MsgsOf(e.dropped) || exists j: nat :: m in MsgsOf(LocalOf(e, j))
  {
    var e := End(s, steps);
    RunKeepsInv(s, steps);
    IndicatedGrows(s, steps);
    if Pending(e, m) {
      PendingBound(s, steps, m);
    }
    NotPendingWhere(e, m);
  }

  lemma {:induction false} IndicatedGrows(s: State, steps: seq<Step>)
    requires Run(s, steps)
    ensures s.indicated <= End(s, steps).indicated
    decreases |steps|
  {
    if steps == [] {
    } else {
      StepFramed(s, steps[0]);
      StepQueue(s, steps[0], Next(s, steps[0]));
      IndicatedGrows(Next(s, steps[0]), steps[1..]);
    }
  }

  lemma NotPendingWhere(e: State, m: nat)
    requires MsgsConserved(e) && m < e.indicated && !Pending(e, m)
    ensures m in MsgsOf(e.delivered) || m in MsgsOf(e.dropped) || exists j: nat :: m in MsgsOf(LocalOf(e, j))
  {
    var f := MsgsIn(e);
    assert m in f(e.msgAt[m]);
    QueuedIff(e.queue, m);
    assert m !in MsgsOf(e.queue) by {
      assert forall i :: 0 <= i < |e.queue| ==> e.queue[i] in e.queue && MsgsOf(e.queue)[i] == e.queue[i].msg;
    }
  }

  // ----- closing -----

  /** With nothing queued and nothing in anybody's hands, every container is in the free list, exactly
      once. */
  lemma IdleAllFree(s: State, x: nat)
    requires SlotsConserved(s) && s.queue == [] && HeldBy(s.rx) == []
    requires forall i :: FilledBy(s, i) == []
    requires forall j :: LocalOf(s, j) == []
    ensures NoDup(s.free) && (x in s.free <==> x in s.slotAt)
  {
    var f := SlotsIn(s);
    assert f(Free) == s.free;
    forall pl ensures pl != Free ==> f(pl) == [] {
    }
    assert x in s.slotAt ==> x in f(s.slotAt[x]);
  }

  /** `n` times the step that frees a packet of a drop. */
  function Frees(j: nat, n: nat): seq<Step> {
    if n == 0 then [] else [DropFree(j)] + Frees(j, n - 1)
  }

  /** The rest of dropper `j`'s list is freed, and nothing else changes hands. */
  ghost predicate Freed(s: State, e: State, j: nat)
    requires j in s.droppers && s.droppers[j].Freeing?
  {
    var d := s.droppers[j];
    && e.queue == s.queue && e.rx == s.rx && e.producers == s.producers && e.post == s.post && e.shutdown == s.shutdown
    && e.active == s.active && e.indicated == s.indicated
    && e.droppers == s.droppers[j := Freeing(d.target, [], d.cut)]
    && e.free == s.free + SlotsOf(d.local)
  }

  lemma {:induction false} FreesRun(s: State, j: nat)
    requires j in s.droppers && s.droppers[j].Freeing?
    ensures var steps := Frees(j, |s.droppers[j].local|); Run(s, steps) && Freed(s, End(s, steps), j)
    decreases |s.droppers[j].local|
  {
    var d := s.droppers[j];
    if d.local == [] {
      assert s.droppers == s.droppers[j := Freeing(d.target, [], d.cut)];
    } else {
      var s1, rest := Next(s, DropFree(j)), Frees(j, |d.local| - 1);
      FreeFirst(s, j);
      FreesRun(s1, j);
      RunCons(s, DropFree(j), rest);
      FreedCons(s, s1, End(s1, rest), j);
    }
  }

  lemma FreeFirst(s: State, j: nat)
    requires j in s.droppers && s.droppers[j].Freeing? && s.droppers[j].local != []
    ensures var d, s1 := s.droppers[j], Next(s, DropFree(j));
            && s1 == s.(free := s.free + [d.local[0].slot],
                        droppers := s.droppers[j := Freeing(d.target, d.local[1..], d.cut)],
                        dropped := s1.dropped, slotAt := s1.slotAt, msgAt := s1.msgAt)
  {
  }

  lemma FreedCons(s: State, s1: State, e: State, j: nat)
    requires j in s.droppers && s.droppers[j].Freeing? && s.droppers[j].local != []
    requires s1 == s.(free := s.free + [s.droppers[j].local[0].slot],
                      droppers := s.droppers[j := s.droppers[j].(local := s.droppers[j].local[1..])],
                      dropped := s1.dropped, slotAt := s1.slotAt, msgAt := s1.msgAt)
    requires Freed(s1, e, j)
    ensures Freed(s, e, j)
  {
    var l := s.droppers[j].local;
    assert l == [l[0]] + l[1..];
    KeysCons(l[0], l[1..], BySlot);
    assert s.free + [l[0].slot] + SlotsOf(l[1..]) == s.free + SlotsOf(l);
    assert s1.droppers[j := e.droppers[j]] == s.droppers[j := e.droppers[j]];
  }

  lemma RunCons(s: State, a: Step, rest: seq<Step>)
    requires Enabled(s, a) && Run(Next(s, a), rest)
    ensures Run(s, [a] + rest) && End(s, [a] + rest) == End(Next(s, a), rest)
  {
    assert ([a] + rest)[1..] == rest;
  }

  lemma RunPair(s: State, a: Step, b: Step)
    requires Enabled(s, a) && Enabled(Next(s, a), b)
    ensures Run(s, [a, b]) && End(s, [a, b]) == Next(Next(s, a), b)
  {
    RunSnoc(s, [], a);
    RunSnoc(s, [a], b);
    assert [] + [a] == [a] && [a] + [b] == [a, b];
  }

  lemma RunConsThree(s: State, a: Step, b: Step, c: Step, rest: seq<Step>)
    requires Enabled(s, a) && Enabled(Next(s, a), b) && Enabled(Next(Next(s, a), b), c)
    requires Run(Next(Next(Next(s, a), b), c), rest)
    ensures Run(s, [a, b, c] + rest) && End(s, [a, b, c] + rest) == End(Next(Next(Next(s, a), b), c), rest)
  {
    RunCons(Next(Next(s, a), b), c, rest);
    RunCons(Next(s, a), b, [c] + rest);
    RunCons(s, a, [b] + ([c] + rest));
    assert [a] + ([b] + ([c] + rest)) == [a, b, c] + rest;
  }

  lemma {:induction false} SiftedAll(q: seq<Pkt>)
    ensures Sifted(q, All, true) == q && Sifted(q, All, false) == []
  {
    if q == [] {
    } else {
      SiftedAll(q[1..]);
    }
  }

  /** What closing does once the thread is gone: drop everything queued. */
  function CloseRun(s: State, j: nat): seq<Step> {
    [DropBegin(j, All)] + Frees(j, |s.queue|)
  }

  /** Nobody but the queue and the free list has a container. */
  ghost predicate HandsEmpty(s: State) {
    HeldBy(s.rx) == [] && (forall i :: FilledBy(s, i) == []) && (forall j :: LocalOf(s, j) == [])
  }

  lemma CloseDrops(s: State, j: nat)
    requires j !in s.droppers && HandsEmpty(s)
    ensures Run(s, CloseRun(s, j)) && End(s, CloseRun(s, j)).queue == [] && HandsEmpty(End(s, CloseRun(s, j)))
  {
    var a := DropBegin(j, All);
    var s1 := Next(s, a);
    DropFramed(s, a);
    DropBegun(s, j, All);
    SiftedAll(s.queue);
    if s.queue != [] {
      FreesRun(s1, j);
    }
    RunCons(s, a, Frees(j, |s.queue|));
    var e := End(s, CloseRun(s, j));
    forall k ensures LocalOf(e, k) == [] {
      assert k != j ==> LocalOf(e, k) == LocalOf(s, k);
    }
    forall i ensures FilledBy(e, i) == [] {
      assert FilledBy(e, i) == FilledBy(s, i);
    }
  }

  /** Closing loses nothing: when the rx thread has left and no producer or dropper is at work, dropping
      what is queued brings every container of the pool back to the free list, exactly once. */
  lemma CloseLosesNothing(s: State, j: nat, x: nat)
    requires Inv(s) && s.rx.Exited? && j !in s.droppers
    requires forall i :: i in s.producers ==> !s.producers[i].Filled?
    requires forall k :: k in s.droppers ==> !s.droppers[k].Freeing?
    ensures Run(s, CloseRun(s, j))
    ensures var e := End(s, CloseRun(s, j)); NoDup(e.free) && (x in e.free <==> x in s.slotAt)
  {
    CloseDrops(s, j);
    RunKeepsInv(s, CloseRun(s, j));
    IdleAllFree(End(s, CloseRun(s, j)), x);
  }

  // ----- a close request reaches the rx thread -----

  /** A shutdown was requested, and the thread has not used the request up without leaving. */
  predicate Asked(s: State) {
    s.shutdown || s.rx.Exited?
  }

  lemma StepKeepsAsked(s: State, a: Step)
    requires Enabled(s, a) && Asked(s)
    ensures Asked(Next(s, a))
  {
    if RxStep(a) {
      RxKeepsAsked(s, a);
    } else {
      StepFramed(s, a);
      OthersKeepFlags(s, a);
    }
  }

  lemma RxKeepsAsked(s: State, a: Step)
    requires Enabled(s, a) && RxStep(a) && s.shutdown
    ensures Next(s, a).shutdown || Next(s, a).rx.Exited?
  {
  }

  lemma OthersKeepFlags(s: State, a: Step)
    requires Enabled(s, a) && !RxStep(a)
    ensures (s.shutdown ==> Next(s, a).shutdown) && (s.post ==> Next(s, a).post)
  {
  }

  lemma {:induction false} RunKeepsAsked(s: State, steps: seq<Step>)
    requires Run(s, steps) && Asked(s)
    ensures Asked(End(s, steps))
    decreases |steps|
  {
    if steps == [] {
    } else {
      StepKeepsAsked(s, steps[0]);
      RunKeepsAsked(Next(s, steps[0]), steps[1..]);
    }
  }

  /** The thread has left, or will see the request: it is out of its wait, or the bit that wakes it is set. */
  predicate Closing(s: State) {
    s.rx.Exited? || (s.shutdown && (s.post || s.rx.Woken? || s.rx.Cleared?))
  }

  /** Steps before the thread has left: what is queued is served first, unless it is about to test for
      the request. */
  function StepsToLeave(s: State): nat {
    match s.rx
    case Exited => 0
    case Cleared => 1
    case Woken => 2
    case Waiting => 3
    case _ => Distance(s.rx) + 4 * |s.queue| + 3
  }

  /** A thread that is asked to leave is never stuck, and each step brings it one closer to leaving. */
  lemma RxStepLeaves(s: State, a: Step)
    requires Closing(s) && Enabled(s, a) && RxStep(a)
    ensures Closing(Next(s, a)) && StepsToLeave(Next(s, a)) == StepsToLeave(s) - 1
  {
    if a.RxPop? {
      PopLooks(s);
    } else if a.RxRelock? {
      RelockLooks(s);
    } else {
      OtherRxStepLeaves(s, a);
    }
  }

  lemma OtherRxStepLeaves(s: State, a: Step)
    requires Closing(s) && Enabled(s, a) && RxStep(a) && !a.RxPop? && !a.RxRelock?
    ensures Closing(Next(s, a)) && StepsToLeave(Next(s, a)) == StepsToLeave(s) - 1
  {
  }

  lemma LeaverNotStuck(s: State)
    requires Closing(s) && !s.rx.Exited?
    ensures RxTurn(s).Some? && Enabled(s, RxTurn(s).value) && RxStep(RxTurn(s).value)
  {
  }

  lemma OthersDelayLeaving(s: State, a: Step)
    requires Closing(s) && Enabled(s, a) && !RxStep(a)
    ensures Closing(Next(s, a)) && StepsToLeave(Next(s, a)) <= StepsToLeave(s) + if a.Add? then 4 else 0
  {
    StepFramed(s, a);
    OthersKeepFlags(s, a);
    OtherQueue(s, a);
  }

  lemma OtherQueue(s: State, a: Step)
    requires Enabled(s, a) && !RxStep(a)
    ensures |Next(s, a).queue| <= |s.queue| + if a.Add? then 1 else 0
  {
    if a.DropBegin? {
      SiftedShorter(s.queue, a.target, false);
    }
  }

  function Adds(steps: seq<Step>): nat {
    if steps == [] then 0 else (if steps[0].Add? then 1 else 0) + Adds(steps[1..])
  }

  lemma {:induction false} LeavingBound(s: State, steps: seq<Step>)
    requires Run(s, steps) && Closing(s)
    ensures Closing(End(s, steps))
    ensures RxSteps(steps) + StepsToLeave(End(s, steps)) <= StepsToLeave(s) + 4 * Adds(steps)
    decreases |steps|
  {
    if steps == [] {
    } else {
      var a := steps[0];
      if RxStep(a) {
        RxStepLeaves(s, a);
      } else {
        OthersDelayLeaving(s, a);
      }
      LeavingBound(Next(s, a), steps[1..]);
    }
  }

  /** A close request reaches the thread in every interleaving: once flag and bit are set, the thread is
      never stuck, and has left when it has made four steps for each packet then queued, four more for
      each one that producers still add, and seven. */
  lemma CloseIsHeard(s: State, between: seq<Step>, steps: seq<Step>)
    requires Run(Next(s, CloseFlag), between)
    requires Run(Next(End(Next(s, CloseFlag), between), ClosePost), steps)
    ensures var p := Next(End(Next(s, CloseFlag), between), ClosePost);
            var e := End(p, steps);
            && (RxSteps(steps) >= 4 * |p.queue| + 4 * Adds(steps) + 7 ==> e.rx.Exited?)
            && (e.rx.Exited? || RxTurn(e).Some?)
  {
    RunKeepsAsked(Next(s, CloseFlag), between);
    var p := Next(End(Next(s, CloseFlag), between), ClosePost);
    assert Closing(p);
    LeavingBound(p, steps);
    var e := End(p, steps);
    if !e.rx.Exited? {
      LeaverNotStuck(e);
    }
  }

  // ----- a drop that returns early can miss a packet -----

  /** The run `steps` ends with a drop for the station of `p` that has returned early, while `p`,
      indicated before, is about to be handed to its callback. */
  ghost predicate Misses(s: State, steps: seq<Step>, p: Pkt) {
    && Run(s, steps)
    && var e := End(s, steps);
    && e.rx == Holding(p) && p.msg < s.indicated && e.delivered == s.delivered
    && 0 in e.droppers && e.droppers[0] == Left(Station(p.sta), s.indicated, Early)
  }

  ghost predicate Lone(s: State, p: Pkt) {
    s.queue == [p] && p.msg < s.indicated && 0 !in s.droppers && !s.shutdown
  }

  lemma DropMisses(s: State, p: Pkt)
    requires s.rx == Holding(p) && s.queue == [] && p.msg < s.indicated && 0 !in s.droppers
    ensures Misses(s, [DropBegin(0, Station(p.sta))], p)
  {
    var a := DropBegin(0, Station(p.sta));
    DropFramed(s, a);
    DropBegun(s, 0, Station(p.sta));
    RunCons(s, a, []);
    assert [a] + [] == [a];
  }

  lemma PopMisses(s: State, p: Pkt)
    requires Lone(s, p) && s.rx.Popping?
    ensures Misses(s, [RxPop, DropBegin(0, Station(p.sta))], p)
  {
    RxFramed(s, RxPop);
    PopLooks(s);
    PopDeliversNothing(s);
    DropMisses(Next(s, RxPop), p);
    RunCons(s, RxPop, [DropBegin(0, Station(p.sta))]);
    assert [RxPop] + [DropBegin(0, Station(p.sta))] == [RxPop, DropBegin(0, Station(p.sta))];
  }

  /** A step of the rx thread on the way to the queue. */
  lemma ApproachMisses(s: State, a: Step, s1: State, rest: seq<Step>, p: Pkt)
    requires Enabled(s, a) && Next(s, a) == s1 && s1.delivered == s.delivered && s1.indicated == s.indicated
    requires Misses(s1, rest, p)
    ensures Misses(s, [a] + rest, p)
  {
    RunCons(s, a, rest);
  }

  lemma WakeMisses(s: State, p: Pkt)
    requires Lone(s, p) && s.rx.Waiting? && s.post
    ensures Misses(s, [RxWake, RxClear, RxCheck, RxPop, DropBegin(0, Station(p.sta))], p)
  {
    var s1 := s.(rx := Woken);
    var s2 := s1.(post := false, rx := Cleared);
    var s3 := s2.(rx := Popping);
    var rest := [RxPop, DropBegin(0, Station(p.sta))];
    PopMisses(s3, p);
    ApproachMisses(s2, RxCheck, s3, rest, p);
    ApproachMisses(s1, RxClear, s2, [RxCheck] + rest, p);
    ApproachMisses(s, RxWake, s1, [RxClear] + ([RxCheck] + rest), p);
    assert [RxWake] + ([RxClear] + ([RxCheck] + rest)) ==
           [RxWake, RxClear, RxCheck, RxPop, DropBegin(0, Station(p.sta))];
  }

  /** Packet 0 of station 7 is popped; then a drop for the station finds the queue empty. */
  const MISS: seq<Step> := [Alloc(0, 7), Add(0), Post(0), RxWake, RxClear, RxCheck, RxPop, DropBegin(0, Station(7))]

  /** From `s` one packet, the first ever, can be indicated into an empty queue. */
  ghost predicate IndicatesFirst(s: State) {
    && s.delivered == [] && Enabled(s, Alloc(0, 7)) && Enabled(Next(s, Alloc(0, 7)), Add(0))
    && var s2 := Next(Next(s, Alloc(0, 7)), Add(0));
    && Enabled(s2, Post(0))
    && var s3 := Next(s2, Post(0));
    && Lone(s3, Pkt(0, 7, 0)) && s3.rx.Waiting? && s3.post && s3.indicated == 1 && s3.delivered == []
  }

  lemma OpenedIndicates()
    ensures IndicatesFirst(Opened([0]))
  {
  }

  /** The packet is in the rx thread's hands, and the drop for its station has returned early. */
  ghost predicate Missed(e: State) {
    && 0 in e.droppers && e.droppers[0] == Left(Station(7), 1, Early)
    && e.rx == Holding(Pkt(0, 7, 0)) && e.delivered == []
  }

  lemma FirstMisses(s: State)
    requires IndicatesFirst(s)
    ensures Run(s, MISS) && Missed(End(s, MISS))
  {
    var rest := [RxWake, RxClear, RxCheck, RxPop, DropBegin(0, Station(7))];
    WakeMisses(Next(Next(Next(s, Alloc(0, 7)), Add(0)), Post(0)), Pkt(0, 7, 0));
    RunConsThree(s, Alloc(0, 7), Add(0), Post(0), rest);
    assert MISS == [Alloc(0, 7), Add(0), Post(0)] + rest;
  }

  /** The failing case is reachable: the drop has returned early, and the station's packet, indicated
      before it, is delivered next. */
  lemma EarlyDropMisses()
    ensures Run(Opened([0]), MISS) && Missed(End(Opened([0]), MISS))
    ensures Enabled(End(Opened([0]), MISS), RxCall)
    ensures Next(End(Opened([0]), MISS), RxCall).delivered == [Pkt(0, 7, 0)]
  {
    OpenedIndicates();
    FirstMisses(Opened([0]));
    MissedIsDelivered(End(Opened([0]), MISS));
  }

  lemma MissedIsDelivered(e: State)
    requires Missed(e)
    ensures Enabled(e, RxCall) && Next(e, RxCall).delivered == [Pkt(0, 7, 0)]
  {
  }
}
