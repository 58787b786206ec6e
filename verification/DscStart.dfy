/**
 What a start comes to: a transition or operation is admitted, told to wait, or turned away, by what is
 active and queued around its node; and the books follow the answer. Over a run the operations counted
 at a node are those admitted there less those that ended.
 */
module DscStart {
  import opened Basics
  import opened DscModel
  import opened DscInvariant
  import opened DscOps

  /** Nothing on the path of `n` is active, neither `n` nor an ancestor has a waiter, and a vdev is not
      under recovery. */
  ghost predicate Unobstructed(t: Tree, n: NodeId, env: Env) {
    && (forall m :: Active(t, m) ==> !Related(m, n))
    && (forall m :: Queued(t, m) ==> m != n && !Above(m, n))
    && !(n.Vdev? && env.recovering)
  }

  /** The driver is busy above `n`, or `n` is a vdev during recovery, or during unload under a busy psoc. */
  ghost predicate Barred(t: Tree, n: NodeId, env: Env) {
    || (n != Driver && (Active(t, Driver) || Queued(t, Driver)))
    || (n.Vdev? && env.recovering)
    || (n.Vdev? && env.unloading && (Active(t, Psoc(n.p)) || Queued(t, Psoc(n.p))))
  }

  /** The three answers, and when each is given. */
  lemma Answers(t: Tree, n: NodeId, env: Env)
    requires WellFormed(t) && n in t
    ensures CanTrans(t, n, env) ==
            if Unobstructed(t, n, env) then Success else if Barred(t, n, env) then Invalid else Again
    ensures Unobstructed(t, n, env) ==> !Barred(t, n, env)
  {
    OpAdmittedIff(t, n, env);
    RefusedIff(t, n, env);
    BarredIs(t, n, env);
    OnlyThree(t, n, env);
  }

  lemma BarredIs(t: Tree, n: NodeId, env: Env)
    ensures Barred(t, n, env) <==>
              || (Busy(t, Driver) && Above(Driver, n))
              || (n.Vdev? && env.recovering)
              || (env.unloading && exists a :: Busy(t, a) && Above(a, n) && a.Psoc?)
  {
    if n.Vdev? {
      assert Above(Psoc(n.p), n);
      assert forall a :: Above(a, n) && a.Psoc? ==> a == Psoc(n.p);
    }
  }

  lemma OnlyThree(t: Tree, n: NodeId, env: Env)
    ensures CanTrans(t, n, env) in {Success, Again, Invalid}
  {
  }

  /** The tree differs at `n` alone, and there in the transition books alone. */
  ghost predicate OnlyBooks(t: Tree, t': Tree, n: NodeId) {
    && n in t && n in t' && t'.Keys == t.Keys
    && (forall m :: m in t && m != n ==> t'[m] == t[m])
    && t'[n].ops == t[n].ops && t'[n].opsEvent == t[n].opsEvent
  }

  /** `n` has a transition `desc` of its own, granted at once under the next ticket; its queue is as it was. */
  ghost predicate NowActive(t: Tree, t': Tree, n: NodeId, desc: string) {
    && OnlyBooks(t, t', n)
    && t'[n].trans.active == Some(desc) && t'[n].trans.queue == t[n].trans.queue
    && t'[n].trans.accepted == t[n].trans.accepted + 1
    && t'[n].trans.resolved == t[n].trans.resolved + [Granted(t[n].trans.accepted)]
  }

  /** A request `desc` stands behind the queue of `n`, with the next ticket; nothing else changed. */
  ghost predicate NowQueued(t: Tree, t': Tree, n: NodeId, desc: string) {
    && OnlyBooks(t, t', n)
    && t'[n].trans.active == t[n].trans.active && t'[n].trans.resolved == t[n].trans.resolved
    && t'[n].trans.accepted == t[n].trans.accepted + 1
    && |t'[n].trans.queue| == |t[n].trans.queue| + 1
    && t'[n].trans.queue[..|t[n].trans.queue|] == t[n].trans.queue
    && t'[n].trans.queue[|t[n].trans.queue|] == Tran(t[n].trans.accepted, desc)
  }

  lemma NotBoth(t: Tree, t': Tree, n: NodeId, desc: string)
    ensures !(NowActive(t, t', n, desc) && NowQueued(t, t', n, desc))
    ensures NowActive(t, t', n, desc) || NowQueued(t, t', n, desc) ==> t' != t
  {
  }

  /** A start that does not wait begins its transition when nothing is in the way, and otherwise does
      nothing at all. */
  lemma StartOutcome(t: Tree, n: NodeId, desc: string, env: Env)
    requires WellFormed(t) && n in t
    ensures var t' := Apply(t, TransStart(n, desc, env));
            if Unobstructed(t, n, env) then NowActive(t, t', n, desc) else t' == t
  {
    Answers(t, n, env);
  }

  /** A waiting start begins its transition when nothing is in the way, is turned away when it is barred,
      and in every other case is queued. */
  lemma WaitOutcome(t: Tree, n: NodeId, desc: string, env: Env)
    requires WellFormed(t) && n in t
    ensures var t' := Apply(t, TransStartWait(n, desc, env));
            if Unobstructed(t, n, env) then NowActive(t, t', n, desc)
            else if Barred(t, n, env) then t' == t
            else NowQueued(t, t', n, desc)
  {
    Answers(t, n, env);
  }

  /** A checked trigger runs when nothing is active on the path of its node and no ancestor has a waiter. */
  lemma TriggerableIff(t: Tree, n: NodeId)
    requires !n.Vdev?
    ensures CanTrigger(t, n) <==>
              (forall m :: Active(t, m) ==> !Related(m, n)) && (forall m :: Queued(t, m) ==> !Above(m, n))
  {
    assert n != Driver ==> Above(Driver, n);
    if ActiveBelow(t, n) {
      var m :| Active(t, m) && Above(n, m);
      assert Related(m, n);
    }
  }

  // ----- what one call undoes -----

  /** A node that was just created is idle, and destroying it leaves the tree as it was. */
  lemma CreateRoundTrip(t: Tree, n: NodeId)
    requires WellFormed(t) && Legal(t, Create(n))
    ensures n !in t && Legal(Apply(t, Create(n)), Detach(n))
    ensures Apply(Apply(t, Create(n)), Detach(n)) == t
  {
  }

  /** An operation that was admitted can be ended, and then the tree is as it was, but for the event that
      the last one to end leaves latched. */
  lemma OpRoundTrip(t: Tree, n: NodeId, env: Env)
    requires WellFormed(t) && n in t && Unobstructed(t, n, env)
    ensures Legal(Apply(t, OpStart(n, env)), OpStop(n))
    ensures Apply(Apply(t, OpStart(n, env)), OpStop(n)) == t[n := t[n].(opsEvent := t[n].opsEvent || t[n].ops == 0)]
  {
    Answers(t, n, env);
  }

  /** Where nothing is in the way of a start, nobody waits on the path of its node. */
  lemma NobodyWaits(t: Tree, n: NodeId, env: Env, m: NodeId)
    requires Inv(t) && Unobstructed(t, n, env) && Related(m, n)
    ensures !Queued(t, m)
  {
    assert Queued(t, m) ==> Excused(t, m);
    assert Related(Driver, n);
    assert Above(n, m) && m.Vdev? ==> Related(Psoc(m.p), n);
    assert forall x :: Above(n, m) && Above(m, x) ==> Related(x, n);
  }

  /** A transition that was admitted can be stopped; that wakes nobody, and leaves the tree as it was but
      for the record of the request at its node. */
  lemma TransRoundTrip(t: Tree, n: NodeId, desc: string, env: Env)
    requires Inv(t) && n in t && Unobstructed(t, n, env)
    ensures Legal(Apply(t, TransStart(n, desc, env)), TransStop(n))
    ensures var t' := Apply(Apply(t, TransStart(n, desc, env)), TransStop(n));
            && OnlyBooks(t, t', n)
            && t'[n].trans.active == t[n].trans.active == None && t'[n].trans.queue == t[n].trans.queue == []
            && t'[n].trans.accepted == t[n].trans.accepted + 1
            && t'[n].trans.resolved == t[n].trans.resolved + [Granted(t[n].trans.accepted)]
  {
    StartOutcome(t, n, desc, env);
    var t1 := Apply(t, TransStart(n, desc, env));
    assert Related(n, n) && !Active(t, n);
    NobodyWaits(t, n, env, n);
    var t2 := WithTrans(t1, n, Stopped(t1[n].trans));
    forall m | m in t2 && Wakes(t2, n, m) ensures !Queued(t2, m) {
      if Queued(t2, m) {
        assert Queued(t, m);
        WokenIsRelated(t2, n, m);
        NobodyWaits(t, n, env, m);
      }
    }
    assert Woken(t2, n) == t2;
  }

  lemma WokenIsRelated(t: Tree, n: NodeId, m: NodeId)
    requires Wakes(t, n, m)
    ensures Related(m, n)
  {
  }

  // ----- the operations at a node -----

  /** What a call adds to the operations in flight at `n`. */
  ghost function Counted(t: Tree, c: Call, n: NodeId): int {
    if c.OpStart? && c.n == n && Unobstructed(t, n, c.env) then 1
    else if c.OpStop? && c.n == n then -1
    else 0
  }

  ghost function CountedOver(t: Tree, cs: seq<Call>, n: NodeId): int
    requires LegalRun(t, cs)
    decreases |cs|
  {
    if cs == [] then 0 else Counted(t, cs[0], n) + CountedOver(Apply(t, cs[0]), cs[1..], n)
  }

  lemma StepCounts(t: Tree, c: Call, n: NodeId)
    requires WellFormed(t) && Legal(t, c) && n in t && n in Apply(t, c)
    ensures Apply(t, c)[n].ops == t[n].ops + Counted(t, c, n)
  {
    if c.OpStart? {
      Answers(t, c.n, c.env);
    }
    if c.TransStop? {
      StopKeepsOps(t, c.n, n);
    }
  }

  lemma StopKeepsOps(t: Tree, x: NodeId, n: NodeId)
    requires Active(t, x) && n in t
    ensures n in Apply(t, TransStop(x)) && Apply(t, TransStop(x))[n].ops == t[n].ops
  {
  }

  /** Conservation of operations: over any run during which the node stays, its count at the end is the
      count at the start, plus the operations admitted there, minus those that ended there. */
  lemma {:induction false} OpsConserved(t: Tree, cs: seq<Call>, n: NodeId)
    requires Inv(t) && LegalRun(t, cs) && Stays(t, cs, n)
    ensures n in Final(t, cs) && Final(t, cs)[n].ops == t[n].ops + CountedOver(t, cs, n)
    decreases |cs|
  {
    if cs == [] {
    } else {
      StepCounts(t, cs[0], n);
      StepKeepsInv(t, cs[0]);
      OpsConserved(Apply(t, cs[0]), cs[1..], n);
    }
  }
}
