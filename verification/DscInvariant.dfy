/**
 Safety of DSC over every run: active transitions form an antichain of the tree, no waiter is
 stranded, and every node serves its requests first come, first served, each exactly once.
 */
module DscInvariant {
  import opened Basics
  import opened DscModel

  ghost predicate WellFormed(t: Tree) {
    && Driver in t
    && (forall p: nat, v: nat :: Vdev(p, v) in t ==> Psoc(p) in t)
  }

  /** No two active transitions on one root-to-leaf path. */
  ghost predicate Antichain(t: Tree) {
    forall a, b :: Active(t, a) && Active(t, b) ==> !Above(a, b)
  }

  /** What a waiter at `n` can be waiting for. */
  ghost predicate Excused(t: Tree, n: NodeId) {
    match n
    case Driver => exists m :: Active(t, m)
    case Psoc(_) => Busy(t, Driver) || Active(t, n) || ActiveBelow(t, n)
    case Vdev(p, _) => Busy(t, Driver) || Busy(t, Psoc(p)) || Active(t, n)
  }

  ghost predicate NoStranded(t: Tree) {
    forall n :: Queued(t, n) ==> Excused(t, n)
  }

  /** Requests are numbered in order of acceptance and leave in that order. */
  ghost predicate FifoTrans(tr: Trans) {
    && tr.accepted == |tr.resolved| + |tr.queue|
    && (forall i :: 0 <= i < |tr.resolved| ==> tr.resolved[i].ticket == i)
    && (forall j :: 0 <= j < |tr.queue| ==> tr.queue[j].ticket == |tr.resolved| + j)
  }

  ghost predicate Fifo(t: Tree) {
    forall n :: n in t ==> FifoTrans(t[n].trans)
  }

  ghost predicate Inv(t: Tree) {
    WellFormed(t) && Antichain(t) && NoStranded(t) && Fifo(t)
  }

  // ----- the declarative wake-up rule -----

  /** A waiter that nothing holds back: nothing on its path is active and no ancestor is queued. */
  ghost predicate Eligible(t: Tree, n: NodeId) {
    && Queued(t, n)
    && (forall m :: Active(t, m) ==> !Related(m, n))
    && (forall m :: Queued(t, m) ==> !Above(m, n))
  }

  lemma StrandedIsEligible(t: Tree)
    requires WellFormed(t)
    ensures NoStranded(t) <==> forall n :: !Eligible(t, n)
  {
    forall n ensures Queued(t, n) ==> (Excused(t, n) <==> !Eligible(t, n)) {
      if Queued(t, n) {
        match n {
          case Driver =>
          case Psoc(p) => assert Above(Driver, n);
          case Vdev(p, v) => assert Above(Driver, n) && Above(Psoc(p), n);
        }
      }
    }
  }

  /** `t1` is `t` with the transition of `n` stopped and nobody woken yet. */
  ghost predicate Halted(t: Tree, n: NodeId, t1: Tree) {
    && t1.Keys == t.Keys
    && (forall x :: Queued(t1, x) <==> Queued(t, x))
    && (forall x :: Active(t1, x) <==> x != n && Active(t, x))
  }

  lemma StopHalts(t: Tree, n: NodeId)
    requires n in t
    ensures Halted(t, n, WithTrans(t, n, Stopped(t[n].trans)))
  {
  }

  lemma DriverStopGrants(t: Tree, t1: Tree, m: NodeId)
    requires Inv(t) && Active(t, Driver) && Halted(t, Driver, t1)
    ensures Wakes(t1, Driver, m) && Queued(t1, m) <==> Eligible(t1, m)
  {
    OnlyDriverActive(t);
    match m {
      case Driver =>
      case Psoc(p) => assert Above(Driver, m);
      case Vdev(p, v) => assert Above(Driver, m) && Above(Psoc(p), m);
    }
  }

  /** Whatever waits beside the part of the tree that the stop concerns is not eligible. */
  lemma OthersStayExcused(t: Tree, n: NodeId, t1: Tree, m: NodeId)
    requires Inv(t) && Active(t, n) && Halted(t, n, t1) && Queued(t, m) && !Related(n, m)
    ensures !Eligible(t1, m)
  {
    StrandedIsEligible(t);
    assert !Eligible(t, m);
    assert (exists x :: Active(t, x) && Related(x, m)) || (exists x :: Queued(t, x) && Above(x, m));
  }

  lemma PsocStopGrants(t: Tree, t1: Tree, p: nat, m: NodeId)
    requires Inv(t) && Active(t, Psoc(p)) && Halted(t, Psoc(p), t1)
    ensures Wakes(t1, Psoc(p), m) && Queued(t1, m) <==> Eligible(t1, m)
  {
    if Queued(t, m) {
      if !Related(Psoc(p), m) {
        OthersStayExcused(t, Psoc(p), t1, m);
      } else if m == Driver {
        assert forall x :: Related(x, Driver);
      } else {
        PsocStopGrantsBelow(t, t1, p, m);
      }
    }
  }

  lemma PsocStopGrantsBelow(t: Tree, t1: Tree, p: nat, m: NodeId)
    requires Inv(t) && Active(t, Psoc(p)) && Halted(t, Psoc(p), t1)
    requires Queued(t, m) && (m == Psoc(p) || Above(Psoc(p), m))
    ensures Wakes(t1, Psoc(p), m) <==> Eligible(t1, m)
  {
    assert Above(Driver, Psoc(p)) && Above(Driver, m);
    assert !Active(t, Driver) && forall x :: Above(Psoc(p), x) ==> !Active(t, x);
  }

  lemma VdevStopGrants(t: Tree, t1: Tree, p: nat, v: nat, m: NodeId)
    requires Inv(t) && Active(t, Vdev(p, v)) && Halted(t, Vdev(p, v), t1)
    ensures Wakes(t1, Vdev(p, v), m) && Queued(t1, m) <==> Eligible(t1, m)
  {
    var n := Vdev(p, v);
    if Queued(t, m) {
      if !Related(n, m) {
        OthersStayExcused(t, n, t1, m);
      } else {
        assert Above(Driver, n) && Above(Psoc(p), n) && Above(Driver, Psoc(p));
        assert m == Driver || m == Psoc(p) || m == n;
        assert !Active(t, Driver) && !Active(t, Psoc(p));
        assert forall x :: Related(x, Driver);
      }
    }
  }

  /** Stopping a transition grants exactly the eligible waiters: the coded mix of checked and
      unchecked triggers is the greedy rule. */
  lemma StopGrantsExactlyEligible(t: Tree, n: NodeId, m: NodeId)
    requires Inv(t) && Active(t, n)
    ensures var t1 := WithTrans(t, n, Stopped(t[n].trans));
            Wakes(t1, n, m) && Queued(t1, m) <==> Eligible(t1, m)
  {
    var t1 := WithTrans(t, n, Stopped(t[n].trans));
    StopHalts(t, n);
    match n {
      case Driver => DriverStopGrants(t, t1, m);
      case Psoc(p) => PsocStopGrants(t, t1, p, m);
      case Vdev(p, v) => VdevStopGrants(t, t1, p, v, m);
    }
  }

  // ----- every step keeps the invariant -----

  /** `t'` is `t1` with exactly the eligible waiters granted, each from the head of its queue. */
  ghost predicate Served(t1: Tree, t': Tree) {
    && t'.Keys == t1.Keys
    && (forall m :: m in t1 ==> ServedAt(t1, t', m))
  }

  ghost predicate ServedAt(t1: Tree, t': Tree, m: NodeId)
    requires m in t1 && m in t'
  {
    t'[m] == if Eligible(t1, m) then t1[m].(trans := Triggered(t1[m].trans)) else t1[m]
  }

  lemma StopServes(t: Tree, n: NodeId)
    requires Inv(t) && Active(t, n)
    ensures Served(WithTrans(t, n, Stopped(t[n].trans)), Apply(t, TransStop(n)))
  {
    var t1, t' := WithTrans(t, n, Stopped(t[n].trans)), Apply(t, TransStop(n));
    assert t' == Woken(t1, n);
    forall m | m in t1 ensures ServedAt(t1, t', m) {
      StopGrantsExactlyEligible(t, n, m);
    }
  }

  /** Who is active and who waits once the eligible are granted. */
  lemma ServedFacts(t1: Tree, t': Tree, m: NodeId)
    requires Served(t1, t')
    ensures Active(t', m) <==> Active(t1, m) || Eligible(t1, m)
    ensures Queued(t', m) ==> Queued(t1, m)
    ensures Queued(t1, m) && !Eligible(t1, m) ==> Queued(t', m)
  {
    if m in t1 {
      assert ServedAt(t1, t', m);
    }
  }

  lemma ServedKeepsAntichain(t1: Tree, t': Tree)
    requires Antichain(t1) && Served(t1, t')
    ensures Antichain(t')
  {
    forall a, b | Active(t', a) && Active(t', b) ensures !Above(a, b) {
      ServedFacts(t1, t', a);
      ServedFacts(t1, t', b);
    }
  }

  lemma ServedKeepsNoStranded(t1: Tree, t': Tree)
    requires WellFormed(t1) && Served(t1, t')
    ensures NoStranded(t')
  {
    forall m ensures !Eligible(t', m) {
      if Queued(t', m) {
        ServedFacts(t1, t', m);
        if Eligible(t1, m) {
          assert Active(t', m) && Related(m, m);
        } else if x :| Active(t1, x) && Related(x, m) {
          ServedFacts(t1, t', x);
        } else {
          // an ancestor was queued; if it left its queue it is active
          var y :| Queued(t1, y) && Above(y, m);
          ServedFacts(t1, t', y);
          assert Queued(t', y) || (Active(t', y) && Related(y, m));
        }
      }
    }
    StrandedIsEligible(t');
  }

  lemma StopKeepsAntichain(t: Tree, n: NodeId)
    requires Inv(t) && Active(t, n)
    ensures Antichain(Apply(t, TransStop(n)))
  {
    var t1 := WithTrans(t, n, Stopped(t[n].trans));
    StopHalts(t, n);
    StopServes(t, n);
    ServedKeepsAntichain(t1, Apply(t, TransStop(n)));
  }

  /** After the triggers nobody who could go is left behind. */
  lemma StopKeepsNoStranded(t: Tree, n: NodeId)
    requires Inv(t) && Active(t, n)
    ensures NoStranded(Apply(t, TransStop(n)))
  {
    var t1 := WithTrans(t, n, Stopped(t[n].trans));
    StopServes(t, n);
    ServedKeepsNoStranded(t1, Apply(t, TransStop(n)));
  }

  lemma StopKeepsFifo(t: Tree, n: NodeId)
    requires Fifo(t) && Active(t, n)
    ensures Fifo(Apply(t, TransStop(n)))
  {
    var t1 := WithTrans(t, n, Stopped(t[n].trans));
    var t' := Woken(t1, n);
    forall m | m in t' ensures FifoTrans(t'[m].trans) {
      assert FifoTrans(t[m].trans);
      TriggerKeepsFifo(t1[m].trans);
    }
  }

  lemma TriggerKeepsFifo(tr: Trans)
    requires FifoTrans(tr)
    ensures FifoTrans(Triggered(tr))
  {
  }

  lemma StartKeepsInv(t: Tree, n: NodeId, desc: string, env: Env)
    requires Inv(t) && n in t && CanTrans(t, n, env) == Success
    ensures Inv(WithTrans(t, n, Started(t[n].trans, desc)))
  {
    var t' := WithTrans(t, n, Started(t[n].trans, desc));
    forall m | Queued(t', m) ensures Excused(t', m) {
      assert Excused(t, m);
    }
  }

  lemma EnqueueKeepsInv(t: Tree, n: NodeId, desc: string, env: Env)
    requires Inv(t) && n in t && CanTrans(t, n, env) == Again
    ensures Inv(WithTrans(t, n, Enqueued(t[n].trans, desc)))
  {
    var t' := WithTrans(t, n, Enqueued(t[n].trans, desc));
    assert forall m :: Active(t', m) <==> Active(t, m);
    assert forall m :: Queued(t', m) <==> Queued(t, m) || m == n;
    forall m | Queued(t', m) ensures Excused(t', m) {
      if m != n || Queued(t, m) {
        assert Excused(t, m);
      }
    }
  }

  /** A step that changes nobody's activity and only empties the queue of a childless node. */
  lemma EmptyingKeepsNoStranded(t: Tree, t': Tree, n: NodeId)
    requires NoStranded(t) && Childless(t, n)
    requires forall m :: Active(t', m) <==> Active(t, m)
    requires forall m :: Queued(t', m) ==> Queued(t, m)
    requires forall m :: m != n ==> (Queued(t', m) <==> Queued(t, m))
    ensures NoStranded(t')
  {
    forall m | Queued(t', m) ensures Excused(t', m) {
      assert Excused(t, m);
    }
  }

  lemma ShrinkKeepsInv(t: Tree, c: Call)
    requires Inv(t) && Legal(t, c) && (c.Abort? || c.Detach?)
    ensures Inv(Apply(t, c))
  {
    var t' := Apply(t, c);
    EmptyingKeepsNoStranded(t, t', c.n);
  }

  lemma QuietKeepsInv(t: Tree, c: Call)
    requires Inv(t) && Legal(t, c) && (c.Create? || c.OpStart? || c.OpStop? || c.OpsCheck?)
    ensures Inv(Apply(t, c))
  {
    var t' := Apply(t, c);
    assert forall m :: Active(t', m) <==> Active(t, m);
    assert forall m :: Queued(t', m) <==> Queued(t, m);
    forall m | Queued(t', m) ensures Excused(t', m) {
      assert Excused(t, m);
    }
  }

  lemma StepKeepsInv(t: Tree, c: Call)
    requires Inv(t) && Legal(t, c)
    ensures Inv(Apply(t, c))
  {
    match c
    case TransStop(n) =>
      StopKeepsAntichain(t, n);
      StopKeepsNoStranded(t, n);
      StopKeepsFifo(t, n);
    case TransStart(n, desc, env) =>
      if CanTrans(t, n, env) == Success { StartKeepsInv(t, n, desc, env); }
    case TransStartWait(n, desc, env) =>
      if CanTrans(t, n, env) == Success { StartKeepsInv(t, n, desc, env); }
      if CanTrans(t, n, env) == Again { EnqueueKeepsInv(t, n, desc, env); }
    case Abort(_) => ShrinkKeepsInv(t, c);
    case Detach(_) => ShrinkKeepsInv(t, c);
    case _ => QuietKeepsInv(t, c);
  }

  /** Safety over whole runs, for any number of psocs and vdevs. */
  lemma {:induction false} RunKeepsInv(t: Tree, cs: seq<Call>)
    requires Inv(t) && LegalRun(t, cs)
    ensures Inv(Final(t, cs))
    decreases |cs|
  {
    if cs == [] {
    } else {
      StepKeepsInv(t, cs[0]);
      RunKeepsInv(Apply(t, cs[0]), cs[1..]);
    }
  }

  lemma ReachableInv(cs: seq<Call>)
    requires LegalRun(INIT, cs)
    ensures Inv(Final(INIT, cs))
  {
    assert forall n :: !Busy(INIT, n);
    RunKeepsInv(INIT, cs);
  }

  /** A waiter anywhere means an active transition somewhere: when nothing is active, every
      queue is empty. */
  lemma WaiterImpliesActive(t: Tree, n: NodeId)
    requires Inv(t) && Queued(t, n)
    ensures exists m :: Active(t, m)
  {
    assert Excused(t, n);
    if n.Vdev? && Queued(t, Psoc(n.p)) { assert Excused(t, Psoc(n.p)); }
    if Queued(t, Driver) { assert Excused(t, Driver); }
  }

  lemma OnlyDriverActive(t: Tree)
    requires Antichain(t) && Active(t, Driver)
    ensures forall x :: Active(t, x) ==> x == Driver
  {
    forall x | Active(t, x) ensures x == Driver {
      assert !Above(Driver, x);
    }
  }

  /** The wake-up set of a driver stop: the next driver request if there is one; otherwise every
      psoc with a waiter, and every vdev with a waiter under a psoc that has none; each goes on
      with the head of its own queue. */
  lemma DriverStopWakeSet(t: Tree, m: NodeId)
    requires Inv(t) && Active(t, Driver)
    ensures var t' := Apply(t, TransStop(Driver));
            && (Active(t', m) <==>
                  && Queued(t, m)
                  && (if Queued(t, Driver) then m == Driver
                      else m.Psoc? || (m.Vdev? && !Queued(t, Psoc(m.p)))))
            && (Active(t', m) ==>
                  && t'[m].trans.active == Some(t[m].trans.queue[0].desc)
                  && t'[m].trans.queue == t[m].trans.queue[1..])
  {
    OnlyDriverActive(t);
    var t1, t' := WithTrans(t, Driver, Stopped(t[Driver].trans)), Apply(t, TransStop(Driver));
    StopHalts(t, Driver);
    StopServes(t, Driver);
    DriverStopGrants(t, t1, m);
    ServedFacts(t1, t', m);
    if m in t1 {
      assert ServedAt(t1, t', m);
    }
  }
}
