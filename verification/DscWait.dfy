/**
 How long a DSC request waits. A request at position `k` of a node's queue is an exact number of stops
 away from its grant: the transitions active under the highest busy node on its path, the requests
 queued above it, and those in front of it. Only stops under that node count, and no call but a new
 request above can make the wait longer.
 */
module DscWait {
  import opened Basics
  import opened DscModel
  import opened DscInvariant

  /** The transitions active at `a` and below it. */
  ghost function ActiveIn(t: Tree, a: NodeId): set<NodeId> {
    set x | x in t && Active(t, x) && AtOrBelow(a, x)
  }

  /** The highest busy node on the path to `n`, or `n` itself. */
  function Top(t: Tree, n: NodeId): NodeId {
    if n == Driver || Busy(t, Driver) then Driver
    else if n.Vdev? && Busy(t, Psoc(n.p)) then Psoc(n.p)
    else n
  }

  function QueueLength(t: Tree, a: NodeId): nat {
    if a in t then |t[a].trans.queue| else 0
  }

  /** Requests queued at the ancestors of `n`. */
  function QueuedAbove(t: Tree, n: NodeId): nat {
    match n
    case Driver => 0
    case Psoc(_) => QueueLength(t, Driver)
    case Vdev(p, _) => QueueLength(t, Driver) + QueueLength(t, Psoc(p))
  }

  /** `tran` is at position `k` of the queue of `n`. */
  ghost predicate WaitsAt(t: Tree, n: NodeId, k: nat, tran: Tran) {
    n in t && k < |t[n].trans.queue| && t[n].trans.queue[k] == tran
  }

  /** Stops still to come before the request at position `k` of `n` is granted. */
  ghost function StopsToGo(t: Tree, n: NodeId, k: nat): nat {
    |ActiveIn(t, Top(t, n))| + QueuedAbove(t, n) + k
  }

  ghost predicate ClearAbove(t: Tree, a: NodeId) {
    forall b :: Above(b, a) ==> !Busy(t, b)
  }

  lemma TopFacts(t: Tree, n: NodeId)
    requires WellFormed(t) && Queued(t, n)
    ensures Busy(t, Top(t, n)) && AtOrBelow(Top(t, n), n) && ClearAbove(t, Top(t, n))
  {
  }

  /** What is unrelated to a node is unrelated to everything below it. */
  lemma UnrelatedBelow(top: NodeId, x: NodeId, m: NodeId)
    requires !Related(top, x) && AtOrBelow(top, m)
    ensures !Related(x, m)
  {
  }

  // ----- what leaves the wait as it is -----

  /** At `m`, `t'` differs from `t` at most by the stop of `x`. */
  ghost predicate CalmAt(t: Tree, t': Tree, x: Option<NodeId>, m: NodeId) {
    && (Active(t', m) <==> Active(t, m) && x != Some(m))
    && (Queued(t', m) <==> Queued(t, m))
    && QueueLength(t', m) == QueueLength(t, m)
  }

  /** On the path through `top` and below it, only `x`, if any, was stopped. */
  ghost predicate Calm(t: Tree, t': Tree, x: Option<NodeId>, top: NodeId) {
    forall m :: Related(top, m) ==> CalmAt(t, t', x, m)
  }

  lemma TopIs(t: Tree, n: NodeId, top: NodeId)
    requires AtOrBelow(top, n) && Busy(t, top) && ClearAbove(t, top)
    ensures Top(t, n) == top
  {
    assert top != Driver ==> Above(Driver, top);
    assert n.Vdev? && top == n ==> Above(Psoc(n.p), top);
  }

  lemma CalmQueues(t: Tree, t': Tree, x: Option<NodeId>, n: NodeId)
    requires AtOrBelow(Top(t, n), n) && Calm(t, t', x, Top(t, n))
    ensures QueuedAbove(t', n) == QueuedAbove(t, n)
  {
    if n != Driver {
      assert CalmAt(t, t', x, Driver);
    }
    if n.Vdev? {
      assert CalmAt(t, t', x, Psoc(n.p));
    }
  }

  lemma CalmActive(t: Tree, t': Tree, x: Option<NodeId>, top: NodeId)
    requires Calm(t, t', x, top)
    ensures ActiveIn(t', top) == if x.Some? then ActiveIn(t, top) - {x.value} else ActiveIn(t, top)
  {
    forall m | AtOrBelow(top, m) ensures Active(t', m) <==> Active(t, m) && x != Some(m) {
      assert CalmAt(t, t', x, m);
    }
  }

  lemma CalmTop(t: Tree, t': Tree, x: Option<NodeId>, n: NodeId)
    requires WellFormed(t) && Queued(t, n) && Calm(t, t', x, Top(t, n))
    requires x == Some(Top(t, n)) ==> Queued(t, Top(t, n))
    ensures Top(t', n) == Top(t, n)
  {
    var top := Top(t, n);
    TopFacts(t, n);
    assert CalmAt(t, t', x, top);
    forall a | Above(a, top) ensures !Busy(t', a) {
      assert CalmAt(t, t', x, a);
    }
    TopIs(t', n, top);
  }

  /** Unless the top itself was stopped, the wait is as it was, less the stop. */
  lemma CalmWait(t: Tree, t': Tree, x: Option<NodeId>, n: NodeId, k: nat)
    requires WellFormed(t) && Queued(t, n) && Calm(t, t', x, Top(t, n))
    requires x.Some? ==> x.value in ActiveIn(t, Top(t, n)) && (x.value == Top(t, n) ==> Queued(t, Top(t, n)))
    ensures StopsToGo(t', n, k) == StopsToGo(t, n, k) - if x.Some? then 1 else 0
  {
    TopFacts(t, n);
    CalmTop(t, t', x, n);
    CalmActive(t, t', x, Top(t, n));
    CalmQueues(t, t', x, n);
  }

  // ----- a stop -----

  /** `t1` is `t` with the transition of `x` stopped, `t'` the tree once everybody eligible is granted. */
  ghost predicate StopOf(t: Tree, x: NodeId, t1: Tree, t': Tree) {
    && Inv(t) && Active(t, x) && Halted(t, x, t1) && Served(t1, t')
    && forall m :: m in t ==> SameQueueAt(t, t1, m)
  }

  ghost predicate SameQueueAt(t: Tree, t1: Tree, m: NodeId) {
    m in t && m in t1 && t1[m].trans.queue == t[m].trans.queue && t1[m].trans.resolved == t[m].trans.resolved
  }

  lemma StopIs(t: Tree, x: NodeId)
    requires Inv(t) && Active(t, x)
    ensures StopOf(t, x, WithTrans(t, x, Stopped(t[x].trans)), Apply(t, TransStop(x)))
  {
    var t1 := WithTrans(t, x, Stopped(t[x].trans));
    StopHalts(t, x);
    StopServes(t, x);
    forall m | m in t ensures SameQueueAt(t, t1, m) {
    }
  }

  /** A node that is not granted keeps its queue, and its transition unless it is the one stopped. */
  lemma NotGranted(t: Tree, x: NodeId, t1: Tree, t': Tree, m: NodeId)
    requires StopOf(t, x, t1, t') && !Eligible(t1, m)
    ensures CalmAt(t, t', Some(x), m) && (m in t ==> SameQueueAt(t, t', m))
  {
    if m in t {
      assert SameQueueAt(t, t1, m) && ServedAt(t1, t', m);
    }
  }

  /** A stop beside the part of the tree that concerns a waiter at `n` grants nobody there. */
  lemma StopBeside(t: Tree, x: NodeId, t1: Tree, t': Tree, n: NodeId, m: NodeId)
    requires StopOf(t, x, t1, t') && Queued(t, n) && !AtOrBelow(Top(t, n), x) && Related(Top(t, n), m)
    ensures m != x && !Eligible(t1, m)
  {
    var top := Top(t, n);
    TopFacts(t, n);
    assert !Related(top, x);
    if AtOrBelow(top, m) {
      UnrelatedBelow(top, x, m);
      if Queued(t, m) {
        OthersStayExcused(t, x, t1, m);
      }
    }
  }

  lemma StopBesideKeeps(t: Tree, x: NodeId, t1: Tree, t': Tree, n: NodeId, k: nat, tran: Tran)
    requires StopOf(t, x, t1, t') && WaitsAt(t, n, k, tran) && !AtOrBelow(Top(t, n), x)
    ensures WaitsAt(t', n, k, tran) && StopsToGo(t', n, k) == StopsToGo(t, n, k)
  {
    var top := Top(t, n);
    TopFacts(t, n);
    forall m | Related(top, m) ensures CalmAt(t, t', None, m) {
      StopBeside(t, x, t1, t', n, m);
      NotGranted(t, x, t1, t', m);
    }
    CalmWait(t, t', None, n, k);
    StopBeside(t, x, t1, t', n, n);
    NotGranted(t, x, t1, t', n);
  }

  /** While two transitions are active under the top it is itself waiting. */
  lemma ManyBelowTop(t: Tree, n: NodeId, x: NodeId, y: NodeId)
    requires Inv(t) && Queued(t, n) && x in ActiveIn(t, Top(t, n)) && y in ActiveIn(t, Top(t, n)) && x != y
    ensures Queued(t, Top(t, n)) && Above(Top(t, n), x) && Above(Top(t, n), y)
  {
    TopFacts(t, n);
  }

  /** A stop that leaves others active under the top grants nobody there. */
  lemma StopOneOfMany(t: Tree, x: NodeId, t1: Tree, t': Tree, n: NodeId, y: NodeId, m: NodeId)
    requires StopOf(t, x, t1, t') && Queued(t, n) && x in ActiveIn(t, Top(t, n))
    requires y in ActiveIn(t, Top(t, n)) && y != x && Related(Top(t, n), m)
    ensures !Eligible(t1, m)
  {
    var top := Top(t, n);
    TopFacts(t, n);
    ManyBelowTop(t, n, x, y);
    assert Active(t1, y) && Related(y, top) && Queued(t1, top);
    assert Queued(t1, m) ==> Queued(t, m);
  }

  lemma StopOneOfManyCalm(t: Tree, x: NodeId, t1: Tree, t': Tree, n: NodeId)
    requires StopOf(t, x, t1, t') && Queued(t, n) && x in ActiveIn(t, Top(t, n)) && ActiveIn(t, Top(t, n)) != {x}
    ensures Queued(t, Top(t, n)) && Calm(t, t', Some(x), Top(t, n)) && SameQueueAt(t, t', n)
  {
    var top := Top(t, n);
    var y :| y in ActiveIn(t, top) && y != x;
    ManyBelowTop(t, n, x, y);
    forall m | Related(top, m) ensures CalmAt(t, t', Some(x), m) {
      StopOneOfMany(t, x, t1, t', n, y, m);
      NotGranted(t, x, t1, t', m);
    }
    TopFacts(t, n);
    StopOneOfMany(t, x, t1, t', n, y, n);
    NotGranted(t, x, t1, t', n);
  }

  lemma StopOneOfManyCounts(t: Tree, x: NodeId, t1: Tree, t': Tree, n: NodeId, k: nat, tran: Tran)
    requires StopOf(t, x, t1, t') && WaitsAt(t, n, k, tran)
    requires x in ActiveIn(t, Top(t, n)) && ActiveIn(t, Top(t, n)) != {x}
    ensures WaitsAt(t', n, k, tran) && StopsToGo(t', n, k) == StopsToGo(t, n, k) - 1 && StopsToGo(t, n, k) >= 2
  {
    StopOneOfManyCalm(t, x, t1, t', n);
    CalmWait(t, t', Some(x), n, k);
    MoreThanOne(ActiveIn(t, Top(t, n)), x);
  }

  lemma MoreThanOne(s: set<NodeId>, x: NodeId)
    requires x in s && s != {x}
    ensures |s| >= 2
  {
    var rest := s - {x};
    assert rest != {} && s == rest + {x};
    assert |s| == |rest| + 1 && |rest| > 0;
  }

  /** The stop of the last transition active under the top: the highest waiter on the path is granted. */
  lemma StopLastGrants(t: Tree, x: NodeId, t1: Tree, t': Tree, n: NodeId)
    requires StopOf(t, x, t1, t') && Queued(t, n) && ActiveIn(t, Top(t, n)) == {x}
    ensures var next := Top(t1, n);
            && Queued(t1, next) && Eligible(t1, next) && AtOrBelow(Top(t, n), next) && ClearAbove(t1, next)
            && forall m :: Related(next, m) && m != next ==> !Eligible(t1, m) && !Active(t1, m)
  {
    var top, next := Top(t, n), Top(t1, n);
    TopFacts(t, n);
    TopFacts(t1, n);
    NextIsBelow(t, x, t1, n);
    forall m | AtOrBelow(top, m) ensures !Active(t1, m) {
      assert Active(t, m) ==> m in ActiveIn(t, top);
    }
    TopIsEligible(t1, top, next);
  }

  /** A waiter with nothing busy above it and nothing active below it is the only one to be granted around. */
  lemma TopIsEligible(t1: Tree, top: NodeId, next: NodeId)
    requires Busy(t1, next) && ClearAbove(t1, next) && AtOrBelow(top, next)
    requires forall m :: AtOrBelow(top, m) ==> !Active(t1, m)
    ensures Queued(t1, next) && Eligible(t1, next)
    ensures forall m :: Related(next, m) && m != next ==> !Eligible(t1, m) && !Active(t1, m)
  {
    forall m | Related(m, next) ensures !Active(t1, m) {
      assert Above(m, next) || AtOrBelow(top, m);
    }
    forall m | Related(next, m) && m != next ensures !Eligible(t1, m) {
      assert Above(next, m) || Above(m, next);
    }
  }

  lemma NextIsBelow(t: Tree, x: NodeId, t1: Tree, n: NodeId)
    requires WellFormed(t) && Queued(t, n) && Halted(t, x, t1)
    ensures AtOrBelow(Top(t, n), Top(t1, n))
  {
    assert forall a :: Busy(t1, a) ==> Busy(t, a);
  }

  /** What the last stop under the top does around the node `next` that it grants. */
  ghost predicate Passes(t: Tree, t': Tree, next: NodeId) {
    && next in t && next in t' && t[next].trans.queue != []
    && t'[next].trans.active == Some(t[next].trans.queue[0].desc)
    && t'[next].trans.queue == t[next].trans.queue[1..]
    && t'[next].trans.resolved == t[next].trans.resolved + [Granted(t[next].trans.queue[0].ticket)]
    && ClearAbove(t', next)
    && (forall m :: Above(next, m) ==> !Active(t', m))
    && (forall m :: Related(next, m) && m != next ==> QueueLength(t', m) == QueueLength(t, m))
  }

  lemma StopLastPasses(t: Tree, x: NodeId, t1: Tree, t': Tree, n: NodeId)
    requires StopOf(t, x, t1, t') && Queued(t, n) && ActiveIn(t, Top(t, n)) == {x}
    ensures Passes(t, t', Top(t1, n))
  {
    var next := Top(t1, n);
    StopLastGrants(t, x, t1, t', n);
    forall m | Related(next, m) && m != next
      ensures !Active(t', m) && QueueLength(t', m) == QueueLength(t, m) && (Queued(t', m) <==> Queued(t1, m))
    {
      NotGranted(t, x, t1, t', m);
    }
    assert SameQueueAt(t, t1, next) && ServedAt(t1, t', next);
  }

  lemma PassedWait(t: Tree, t': Tree, n: NodeId, next: NodeId)
    requires AtOrBelow(next, n) && Passes(t, t', next)
    ensures Top(t', n) == next && ActiveIn(t', next) == {next}
    ensures next != n ==> QueuedAbove(t', n) == QueuedAbove(t, n) - 1
    ensures next == n ==> QueuedAbove(t', n) == QueuedAbove(t, n)
  {
    assert Active(t', next);
    TopIs(t', n, next);
    if n != Driver {
      assert Related(next, Driver);
    }
    if n.Vdev? {
      assert Related(next, Psoc(n.p));
    }
  }

  /** The request of `n` described by `tran` was granted between `t` and `t'`. */
  ghost predicate GrantedAt(t: Tree, t': Tree, n: NodeId, tran: Tran) {
    && n in t && n in t' && t'[n].trans.active == Some(tran.desc)
    && t'[n].trans.resolved == t[n].trans.resolved + [Granted(tran.ticket)]
  }

  /** A stop under the top brings the request exactly one stop closer: it is granted if that was the last. */
  ghost predicate OneCloser(t: Tree, t': Tree, n: NodeId, k: nat, tran: Tran) {
    && StopsToGo(t, n, k) >= 1
    && if StopsToGo(t, n, k) == 1 then GrantedAt(t, t', n, tran)
       else exists k': nat :: WaitsAt(t', n, k', tran) && StopsToGo(t', n, k') == StopsToGo(t, n, k) - 1
  }

  lemma NoQueueAbove(t: Tree, n: NodeId)
    requires forall a :: Above(a, n) ==> !Queued(t, a)
    ensures QueuedAbove(t, n) == 0
  {
    assert n != Driver ==> Above(Driver, n);
    assert n.Vdev? ==> Above(Psoc(n.p), n);
  }

  lemma StopLastCounts(t: Tree, x: NodeId, t1: Tree, t': Tree, n: NodeId, k: nat, tran: Tran)
    requires StopOf(t, x, t1, t') && WaitsAt(t, n, k, tran) && ActiveIn(t, Top(t, n)) == {x}
    ensures OneCloser(t, t', n, k, tran)
  {
    var next := Top(t1, n);
    StopLastPasses(t, x, t1, t', n);
    TopFacts(t1, n);
    PassedWait(t, t', n, next);
    assert StopsToGo(t, n, k) == 1 + QueuedAbove(t, n) + k;
    if next == n {
      NoQueueAbove(t, n);
      if k > 0 {
        assert WaitsAt(t', n, k - 1, tran) && StopsToGo(t', n, k - 1) == StopsToGo(t, n, k) - 1;
      }
    } else {
      StopLastGrants(t, x, t1, t', n);
      NotGranted(t, x, t1, t', n);
      assert WaitsAt(t', n, k, tran) && StopsToGo(t', n, k) == StopsToGo(t, n, k) - 1;
    }
  }

  /** Every stop either does not concern a waiter, or brings it exactly one stop closer. */
  lemma StopCounts(t: Tree, x: NodeId, n: NodeId, k: nat, tran: Tran)
    requires Inv(t) && Active(t, x) && WaitsAt(t, n, k, tran)
    ensures var t' := Apply(t, TransStop(x));
            if AtOrBelow(Top(t, n), x) then OneCloser(t, t', n, k, tran)
            else WaitsAt(t', n, k, tran) && StopsToGo(t', n, k) == StopsToGo(t, n, k)
  {
    var t1, t' := WithTrans(t, x, Stopped(t[x].trans)), Apply(t, TransStop(x));
    StopIs(t, x);
    if !AtOrBelow(Top(t, n), x) {
      StopBesideKeeps(t, x, t1, t', n, k, tran);
    } else if ActiveIn(t, Top(t, n)) == {x} {
      StopLastCounts(t, x, t1, t', n, k, tran);
    } else {
      assert x in ActiveIn(t, Top(t, n));
      StopOneOfManyCounts(t, x, t1, t', n, k, tran);
    }
  }

  // ----- any other call -----

  /** The call puts a request into the queue of a node above `n`. */
  ghost predicate QueuesAbove(t: Tree, c: Call, n: NodeId) {
    c.TransStartWait? && Above(c.n, n) && CanTrans(t, c.n, c.env) == Again
  }

  /** The calls that leave the wait at `n` alone: all but stops, aborts at `n`, and requests that are
      queued above `n`. */
  ghost predicate Harmless(t: Tree, c: Call, n: NodeId) {
    !c.TransStop? && c != Abort(n) && !QueuesAbove(t, c, n)
  }

  /** While something waits under a top, a transition is active there. */
  lemma TopIsHeld(t: Tree, n: NodeId)
    requires Inv(t) && Queued(t, n)
    ensures ActiveIn(t, Top(t, n)) != {}
  {
    var top := Top(t, n);
    TopFacts(t, n);
    StrandedIsEligible(t);
    if !Active(t, top) {
      assert !Eligible(t, top);
      var x :| Active(t, x) && Related(x, top);
      assert x in ActiveIn(t, top);
    } else {
      assert top in ActiveIn(t, top);
    }
  }

  /** An admitted start is unrelated to the top of any waiter. */
  lemma StartIsBeside(t: Tree, m: NodeId, env: Env, n: NodeId)
    requires Inv(t) && Queued(t, n) && m in t && CanTrans(t, m, env) == Success
    ensures !Related(Top(t, n), m)
  {
    var top := Top(t, n);
    TopFacts(t, n);
    TopIsHeld(t, n);
    var x :| x in ActiveIn(t, top);
    AdmittedIsClear(t, m, env);
    assert Above(m, top) ==> Related(x, m);
  }

  lemma AdmittedIsClear(t: Tree, m: NodeId, env: Env)
    requires WellFormed(t) && m in t && CanTrans(t, m, env) == Success
    ensures forall x :: Active(t, x) ==> !Related(x, m)
    ensures forall x :: Queued(t, x) ==> !AtOrBelow(x, m)
  {
    match m {
      case Driver =>
      case Psoc(p) => assert Above(Driver, m);
      case Vdev(p, v) => assert Above(Driver, m) && Above(Psoc(p), m);
    }
  }

  lemma StartKeepsWait(t: Tree, m: NodeId, desc: string, env: Env, n: NodeId, k: nat, tran: Tran)
    requires Inv(t) && WaitsAt(t, n, k, tran) && m in t && CanTrans(t, m, env) == Success
    ensures var t' := WithTrans(t, m, Started(t[m].trans, desc));
            WaitsAt(t', n, k, tran) && StopsToGo(t', n, k) == StopsToGo(t, n, k)
  {
    var t' := WithTrans(t, m, Started(t[m].trans, desc));
    StartIsBeside(t, m, env, n);
    TopFacts(t, n);
    forall y | Related(Top(t, n), y) ensures CalmAt(t, t', None, y) {
    }
    CalmWait(t, t', None, n, k);
  }

  lemma EnqueueKeepsWait(t: Tree, m: NodeId, desc: string, n: NodeId, k: nat, tran: Tran)
    requires Inv(t) && WaitsAt(t, n, k, tran) && m in t && !Above(m, n)
    ensures var t' := WithTrans(t, m, Enqueued(t[m].trans, desc));
            WaitsAt(t', n, k, tran) && StopsToGo(t', n, k) == StopsToGo(t, n, k)
  {
    var t' := WithTrans(t, m, Enqueued(t[m].trans, desc));
    assert forall a :: Above(a, n) ==> a != m;
    OtherQueuesGrow(t, t', n, k);
  }

  /** Nothing starts or stops, and the queues above `n` stay as they are. */
  lemma OtherQueuesGrow(t: Tree, t': Tree, n: NodeId, k: nat)
    requires WellFormed(t) && Queued(t, n) && Queued(t', n)
    requires forall x :: Active(t', x) <==> Active(t, x)
    requires forall a :: Above(a, n) ==> QueueLength(t', a) == QueueLength(t, a) && (Queued(t', a) <==> Queued(t, a))
    ensures StopsToGo(t', n, k) == StopsToGo(t, n, k)
  {
    assert n != Driver ==> Above(Driver, n);
    assert n.Vdev? ==> Above(Psoc(n.p), n);
    assert Top(t', n) == Top(t, n);
    assert ActiveIn(t', Top(t, n)) == ActiveIn(t, Top(t, n));
  }

  lemma QuietKeepsWait(t: Tree, c: Call, n: NodeId, k: nat, tran: Tran)
    requires Inv(t) && WaitsAt(t, n, k, tran) && Legal(t, c) && c != Abort(n)
    requires c.Create? || c.Abort? || c.Detach? || c.OpStart? || c.OpStop? || c.OpsCheck?
    ensures WaitsAt(Apply(t, c), n, k, tran) && StopsToGo(Apply(t, c), n, k) == StopsToGo(t, n, k)
  {
    var t' := Apply(t, c);
    QuietEffect(t, c, n);
    OtherQueuesGrow(t, t', n, k);
  }

  lemma QuietEffect(t: Tree, c: Call, n: NodeId)
    requires WellFormed(t) && Queued(t, n) && Legal(t, c) && c != Abort(n)
    requires c.Create? || c.Abort? || c.Detach? || c.OpStart? || c.OpStop? || c.OpsCheck?
    ensures var t' := Apply(t, c);
            && (forall x :: Active(t', x) <==> Active(t, x))
            && n in t' && t'[n].trans == t[n].trans
            && forall a :: Above(a, n) ==> QueueLength(t', a) == QueueLength(t, a) && (Queued(t', a) <==> Queued(t, a))
  {
    var t' := Apply(t, c);
    forall a | Above(a, n) ensures a in t' && a in t && t'[a].trans == t[a].trans {
      assert a == Driver || a == Psoc(n.p);
    }
  }

  lemma HarmlessKeepsWait(t: Tree, c: Call, n: NodeId, k: nat, tran: Tran)
    requires Inv(t) && WaitsAt(t, n, k, tran) && Legal(t, c) && Harmless(t, c, n)
    ensures WaitsAt(Apply(t, c), n, k, tran) && StopsToGo(Apply(t, c), n, k) == StopsToGo(t, n, k)
  {
    match c
    case TransStart(m, desc, env) =>
      if CanTrans(t, m, env) == Success { StartKeepsWait(t, m, desc, env, n, k, tran); }
    case TransStartWait(m, desc, env) =>
      if CanTrans(t, m, env) == Success { StartKeepsWait(t, m, desc, env, n, k, tran); }
      if CanTrans(t, m, env) == Again { EnqueueKeepsWait(t, m, desc, n, k, tran); }
    case _ => QuietKeepsWait(t, c, n, k, tran);
  }

  // ----- runs -----

  /** No call of the run makes a waiter at `n` wait longer. */
  ghost predicate Fair(t: Tree, cs: seq<Call>, n: NodeId)
    requires LegalRun(t, cs)
    decreases |cs|
  {
    cs == [] || ((cs[0].TransStop? || Harmless(t, cs[0], n)) && Fair(Apply(t, cs[0]), cs[1..], n))
  }

  /** How many stops of the run are made under the top of `n` as it is at the time. */
  ghost function StopsUnderTop(t: Tree, cs: seq<Call>, n: NodeId): nat
    requires LegalRun(t, cs)
    decreases |cs|
  {
    if cs == [] then 0
    else
      (if cs[0].TransStop? && AtOrBelow(Top(t, n), cs[0].n) then 1 else 0)
      + StopsUnderTop(Apply(t, cs[0]), cs[1..], n)
  }

  /** Along any fair run a waiting request is exactly `StopsToGo` stops under its top from its grant:
      before that it still waits, with one stop less to go for each such stop. */
  lemma {:induction false} StillWaits(t: Tree, n: NodeId, k: nat, tran: Tran, cs: seq<Call>) returns (k': nat)
    requires Inv(t) && WaitsAt(t, n, k, tran) && LegalRun(t, cs) && Fair(t, cs, n)
    requires StopsUnderTop(t, cs, n) < StopsToGo(t, n, k)
    ensures Inv(Final(t, cs)) && WaitsAt(Final(t, cs), n, k', tran)
    ensures StopsToGo(Final(t, cs), n, k') == StopsToGo(t, n, k) - StopsUnderTop(t, cs, n)
    decreases |cs|
  {
    if cs == [] {
      k' := k;
    } else {
      var c, t1 := cs[0], Apply(t, cs[0]);
      StepKeepsInv(t, c);
      var k1 := OneCall(t, n, k, tran, c);
      k' := StillWaits(t1, n, k1, tran, cs[1..]);
    }
  }

  lemma OneCall(t: Tree, n: NodeId, k: nat, tran: Tran, c: Call) returns (k': nat)
    requires Inv(t) && WaitsAt(t, n, k, tran) && Legal(t, c) && (c.TransStop? || Harmless(t, c, n))
    requires c.TransStop? && AtOrBelow(Top(t, n), c.n) ==> StopsToGo(t, n, k) > 1
    ensures WaitsAt(Apply(t, c), n, k', tran)
    ensures StopsToGo(Apply(t, c), n, k')
         == StopsToGo(t, n, k) - if c.TransStop? && AtOrBelow(Top(t, n), c.n) then 1 else 0
  {
    k' := k;
    if c.TransStop? {
      StopCounts(t, c.n, n, k, tran);
      if AtOrBelow(Top(t, n), c.n) {
        k' :| WaitsAt(Apply(t, c), n, k', tran) && StopsToGo(Apply(t, c), n, k') == StopsToGo(t, n, k) - 1;
      }
    } else {
      HarmlessKeepsWait(t, c, n, k, tran);
    }
  }

  /** ... and the stop under the top that exhausts the count grants it. */
  lemma GrantedOnTime(t: Tree, n: NodeId, k: nat, tran: Tran, cs: seq<Call>, x: NodeId)
    requires Inv(t) && WaitsAt(t, n, k, tran) && LegalRun(t, cs) && Fair(t, cs, n)
    requires StopsUnderTop(t, cs, n) == StopsToGo(t, n, k) - 1
    requires Active(Final(t, cs), x) && AtOrBelow(Top(Final(t, cs), n), x)
    ensures GrantedAt(Final(t, cs), Apply(Final(t, cs), TransStop(x)), n, tran)
  {
    var k' := StillWaits(t, n, k, tran, cs);
    StopCounts(Final(t, cs), x, n, k', tran);
  }
}
