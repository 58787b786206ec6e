/**
 Progress of DSC: requests are conserved (each stop retires exactly one), a pile of requests
 drains in as many stops as there are requests, and a driver request waits an exact number
 of stops.
 */
module DscProgress {
  import opened Basics
  import opened DscModel
  import opened DscInvariant
  import opened DscWait

  // ----- conservation of requests -----

  /** Requests a node holds: the active one and the waiting ones. */
  function NodeLoad(nd: Node): nat {
    (if nd.trans.active.Some? then 1 else 0) + |nd.trans.queue|
  }

  ghost function LoadOf(t: Tree, ns: set<NodeId>): nat
    requires ns <= t.Keys
  {
    if ns == {} then 0 else
      var n :| n in ns;
      NodeLoad(t[n]) + LoadOf(t, ns - {n})
  }

  ghost function Load(t: Tree): nat {
    LoadOf(t, t.Keys)
  }

  lemma {:induction false} LoadSplit(t: Tree, ns: set<NodeId>, x: NodeId)
    requires ns <= t.Keys && x in ns
    ensures LoadOf(t, ns) == NodeLoad(t[x]) + LoadOf(t, ns - {x})
    decreases ns
  {
    var n :| n in ns && LoadOf(t, ns) == NodeLoad(t[n]) + LoadOf(t, ns - {n});
    if n == x {
    } else {
      LoadSplit(t, ns - {n}, x);
      LoadSplit(t, ns - {x}, n);
      assert ns - {n} - {x} == ns - {x} - {n};
    }
  }

  lemma {:induction false} LoadCongruent(t: Tree, t': Tree, ns: set<NodeId>)
    requires ns <= t.Keys && ns <= t'.Keys
    requires forall n :: n in ns ==> NodeLoad(t'[n]) == NodeLoad(t[n])
    ensures LoadOf(t', ns) == LoadOf(t, ns)
    decreases ns
  {
    if ns == {} {
    } else {
      var n :| n in ns;
      LoadSplit(t, ns, n);
      LoadSplit(t', ns, n);
      LoadCongruent(t, t', ns - {n});
    }
  }

  /** Only node `x` may change its load. */
  lemma LoadChangesAt(t: Tree, t': Tree, x: NodeId)
    requires t'.Keys == t.Keys && x in t
    requires forall n :: n in t && n != x ==> NodeLoad(t'[n]) == NodeLoad(t[n])
    ensures Load(t') - Load(t) == NodeLoad(t'[x]) - NodeLoad(t[x])
  {
    LoadSplit(t, t.Keys, x);
    LoadSplit(t', t.Keys, x);
    LoadCongruent(t, t', t.Keys - {x});
  }

  /** One step of the books: +1 for an accepted request, -1 for a stop or an aborted waiter,
      however many waiters the stop wakes. */
  ghost function Balance(t: Tree, c: Call): int
    requires Legal(t, c)
  {
    if c.TransStop? then -1
    else if c.Abort? && Queued(t, c.n) then -1
    else if (c.TransStart? || c.TransStartWait?) && Apply(t, c) != t then 1
    else 0
  }

  lemma StopLoad(t: Tree, n: NodeId)
    requires Inv(t) && Active(t, n)
    ensures Load(Apply(t, TransStop(n))) == Load(t) - 1
  {
    var t' := Apply(t, TransStop(n));
    var t1 := WithTrans(t, n, Stopped(t[n].trans));
    assert Woken(t1, n) == t';
    forall m | m in t ensures NodeLoad(t'[m]) == NodeLoad(t1[m]) {
      StopGrantsExactlyEligible(t, n, m);
      if Wakes(t1, n, m) && Queued(t1, m) {
        assert Related(m, m);
        assert !Active(t1, m);
      }
    }
    LoadChangesAt(t, t', n);
  }

  lemma GrowLoad(t: Tree, n: NodeId)
    requires n !in t
    ensures Load(t[n := EMPTY_NODE]) == Load(t)
  {
    var t' := t[n := EMPTY_NODE];
    LoadSplit(t', t'.Keys, n);
    assert t'.Keys - {n} == t.Keys;
    LoadCongruent(t, t', t.Keys);
  }

  lemma ShrinkLoad(t: Tree, n: NodeId)
    requires n in t && !Busy(t, n)
    ensures Load(t - {n}) == Load(t)
  {
    var t' := t - {n};
    LoadSplit(t, t.Keys, n);
    assert t.Keys - {n} == t'.Keys;
    LoadCongruent(t, t', t'.Keys);
  }

  /** A step on node `n` alone, replacing its record by `nd`. */
  lemma UpdateLoad(t: Tree, n: NodeId, nd: Node)
    requires n in t
    ensures Load(t[n := nd]) == Load(t) + NodeLoad(nd) - NodeLoad(t[n])
  {
    assert t[n := nd].Keys == t.Keys;
    LoadChangesAt(t, t[n := nd], n);
  }

  lemma StartLoad(t: Tree, n: NodeId, desc: string, env: Env)
    requires n in t && CanTrans(t, n, env) == Success
    ensures var t' := WithTrans(t, n, Started(t[n].trans, desc)); Load(t') == Load(t) + 1 && t' != t
  {
    var t' := WithTrans(t, n, Started(t[n].trans, desc));
    assert t'[n].trans.accepted != t[n].trans.accepted;
    assert !Active(t, n);
    UpdateLoad(t, n, t'[n]);
  }

  lemma EnqueueLoad(t: Tree, n: NodeId, desc: string)
    requires n in t
    ensures var t' := WithTrans(t, n, Enqueued(t[n].trans, desc)); Load(t') == Load(t) + 1 && t' != t
  {
    var t' := WithTrans(t, n, Enqueued(t[n].trans, desc));
    assert t'[n].trans.accepted != t[n].trans.accepted;
    UpdateLoad(t, n, t'[n]);
  }

  lemma StepLoad(t: Tree, c: Call)
    requires Inv(t) && Legal(t, c)
    ensures Load(Apply(t, c)) == Load(t) + Balance(t, c)
  {
    match c {
      case Create(n) => GrowLoad(t, n);
      case Detach(n) => ShrinkLoad(t, n);
      case TransStop(n) => StopLoad(t, n);
      case TransStart(n, desc, env) =>
        if CanTrans(t, n, env) == Success { StartLoad(t, n, desc, env); }
      case TransStartWait(n, desc, env) =>
        if CanTrans(t, n, env) == Success { StartLoad(t, n, desc, env); }
        if CanTrans(t, n, env) == Again { EnqueueLoad(t, n, desc); }
      case Abort(n) => UpdateLoad(t, n, t[n].(trans := AbortedOne(t[n].trans)));
      case OpStart(n, env) =>
        if CanTrans(t, n, env) == Success { UpdateLoad(t, n, t[n].(ops := t[n].ops + 1)); }
      case OpStop(n) => UpdateLoad(t, n, Apply(t, c)[n]);
      case OpsCheck(n) => UpdateLoad(t, n, t[n].(opsEvent := false));
    }
  }

  ghost function RunBalance(t: Tree, cs: seq<Call>): int
    requires LegalRun(t, cs)
    decreases |cs|
  {
    if cs == [] then 0 else Balance(t, cs[0]) + RunBalance(Apply(t, cs[0]), cs[1..])
  }

  /** Conservation over every run: what is pending at the end is what was pending at the start,
      plus the accepted requests, minus the stops and aborts. */
  lemma {:induction false} RunLoad(t: Tree, cs: seq<Call>)
    requires Inv(t) && LegalRun(t, cs)
    ensures Load(Final(t, cs)) == Load(t) + RunBalance(t, cs)
    decreases |cs|
  {
    if cs == [] {
    } else {
      StepLoad(t, cs[0]);
      StepKeepsInv(t, cs[0]);
      RunLoad(Apply(t, cs[0]), cs[1..]);
    }
  }

  /** Nothing is active and nothing waits. */
  ghost predicate Idle(t: Tree) {
    forall n :: !Busy(t, n)
  }

  lemma LoadZero(t: Tree)
    ensures Load(t) == 0 <==> Idle(t)
  {
    if Load(t) == 0 {
      forall n | n in t ensures !Busy(t, n) { LoadSplit(t, t.Keys, n); }
    }
    if Idle(t) {
      forall n | n in t ensures NodeLoad(t[n]) == 0 { assert !Busy(t, n); }
      NoLoad(t, t.Keys);
    }
  }

  lemma {:induction false} NoLoad(t: Tree, ns: set<NodeId>)
    requires ns <= t.Keys && forall n :: n in ns ==> NodeLoad(t[n]) == 0
    ensures LoadOf(t, ns) == 0
    decreases ns
  {
    if ns == {} {
    } else {
      var n :| n in ns;
      LoadSplit(t, ns, n);
      NoLoad(t, ns - {n});
    }
  }

  /** No deadlock: while a request is pending some transition is active, so a stop is possible. */
  lemma StopPossible(t: Tree)
    requires Inv(t) && Load(t) > 0
    ensures exists n :: Active(t, n)
  {
    LoadZero(t);
    var n :| Busy(t, n);
    if Queued(t, n) { WaiterImpliesActive(t, n); }
  }

  /** Whichever active transition is stopped at each turn, the pending requests are all served
      after exactly as many stops as there are requests, and not before. */
  lemma {:induction false} StopsDrain(t: Tree, cs: seq<Call>)
    requires Inv(t) && LegalRun(t, cs)
    requires forall i :: 0 <= i < |cs| ==> cs[i].TransStop?
    ensures |cs| <= Load(t)
    ensures |cs| == Load(t) <==> Idle(Final(t, cs))
    decreases |cs|
  {
    if cs == [] {
      assert Final(t, cs) == t;
      LoadZero(Final(t, cs));
    } else {
      StepLoad(t, cs[0]);
      StepKeepsInv(t, cs[0]);
      assert Load(Apply(t, cs[0])) == Load(t) - 1;
      StopsDrain(Apply(t, cs[0]), cs[1..]);
      assert Final(t, cs) == Final(Apply(t, cs[0]), cs[1..]);
    }
  }

  // ----- the wait of a driver request -----

  /** While a driver request waits, a call other than a stop changes neither who is active nor
      the request's place in line. */
  lemma NonStopKeepsPlace(t: Tree, k: nat, tran: Tran, c: Call)
    requires Inv(t) && WaitsAt(t, Driver, k, tran)
    requires Legal(t, c) && !c.TransStop? && c != Abort(Driver)
    ensures ActiveIn(Apply(t, c), Driver) == ActiveIn(t, Driver)
    ensures WaitsAt(Apply(t, c), Driver, k, tran)
  {
    if c.TransStart? || c.TransStartWait? {
      NothingStarts(t, c.n, c.env);
      QueueingStartsNothing(t, c);
    } else {
      QuietEffect(t, c, Driver);
    }
  }

  lemma QueueingStartsNothing(t: Tree, c: Call)
    requires Legal(t, c) && (c.TransStart? || c.TransStartWait?) && CanTrans(t, c.n, c.env) != Success && Driver in t
    ensures var t' := Apply(t, c);
            && (forall n :: Active(t', n) <==> Active(t, n))
            && Driver in t' && t[Driver].trans.queue <= t'[Driver].trans.queue
  {
  }

  /** While the driver is waiting, no start is admitted anywhere. */
  lemma NothingStarts(t: Tree, n: NodeId, env: Env)
    requires Inv(t) && Queued(t, Driver) && n in t
    ensures CanTrans(t, n, env) != Success
  {
  }

  lemma LastStopGrantsDriver(t: Tree, k: nat, tran: Tran, n: NodeId)
    requires Inv(t) && WaitsAt(t, Driver, k, tran) && ActiveIn(t, Driver) == {n}
    ensures var t' := Apply(t, TransStop(n));
            && ActiveIn(t', Driver) == {Driver}
            && t'[Driver].trans == Triggered(Stopped(t[Driver].trans))
  {
    var t1, t' := WithTrans(t, n, Stopped(t[n].trans)), Apply(t, TransStop(n));
    assert n in ActiveIn(t, Driver);
    StopIs(t, n);
    StopLastGrants(t, n, t1, t', Driver);
    StopLastPasses(t, n, t1, t', Driver);
    assert ServedAt(t1, t', Driver);
    DriverAlone(t');
  }

  lemma DriverAlone(t: Tree)
    requires Active(t, Driver) && forall m :: Above(Driver, m) ==> !Active(t, m)
    ensures ActiveIn(t, Driver) == {Driver}
  {
    forall m ensures Active(t, m) <==> m == Driver {
      assert m != Driver ==> Above(Driver, m);
    }
  }

  lemma EarlierStopGrantsNobody(t: Tree, k: nat, tran: Tran, n: NodeId)
    requires Inv(t) && WaitsAt(t, Driver, k, tran) && Active(t, n) && ActiveIn(t, Driver) != {n}
    ensures var t' := Apply(t, TransStop(n));
            && ActiveIn(t', Driver) == ActiveIn(t, Driver) - {n}
            && WaitsAt(t', Driver, k, tran)
  {
    var t1, t' := WithTrans(t, n, Stopped(t[n].trans)), Apply(t, TransStop(n));
    StopIs(t, n);
    assert n in ActiveIn(t, Driver);
    StopOneOfManyCalm(t, n, t1, t', Driver);
    CalmActive(t, t', Some(n), Driver);
  }

  /** A stop brings the request exactly one stop closer (it is granted now if this was the last one),
      and only the driver itself can have become active. */
  lemma StopAdvances(t: Tree, k: nat, tran: Tran, n: NodeId)
    requires Inv(t) && WaitsAt(t, Driver, k, tran) && Active(t, n)
    ensures var t' := Apply(t, TransStop(n));
            OneCloser(t, t', Driver, k, tran) && ActiveIn(t', Driver) <= ActiveIn(t, Driver) - {n} + {Driver}
  {
    StopCounts(t, n, Driver, k, tran);
    assert n in ActiveIn(t, Driver);
    if ActiveIn(t, Driver) == {n} {
      LastStopGrantsDriver(t, k, tran, n);
    } else {
      EarlierStopGrantsNobody(t, k, tran, n);
    }
  }

  function Stops(cs: seq<Call>): nat {
    if cs == [] then 0 else (if cs[0].TransStop? then 1 else 0) + Stops(cs[1..])
  }

  /** For the driver every stop counts, and nobody can queue above it. */
  lemma {:induction false} EveryStopCounts(t: Tree, cs: seq<Call>)
    requires LegalRun(t, cs) && Abort(Driver) !in cs
    ensures Fair(t, cs, Driver) && StopsUnderTop(t, cs, Driver) == Stops(cs)
    decreases |cs|
  {
    if cs == [] {
    } else {
      EveryStopCounts(Apply(t, cs[0]), cs[1..]);
    }
  }

  /** While a driver request waits, no psoc or vdev becomes active. */
  lemma {:induction false} OnlyDriverStarts(t: Tree, k: nat, tran: Tran, cs: seq<Call>)
    requires Inv(t) && WaitsAt(t, Driver, k, tran) && LegalRun(t, cs) && Abort(Driver) !in cs
    requires Stops(cs) < StopsToGo(t, Driver, k)
    ensures ActiveIn(Final(t, cs), Driver) <= ActiveIn(t, Driver) + {Driver}
    decreases |cs|
  {
    if cs == [] {
    } else {
      var c := cs[0];
      StepKeepsInv(t, c);
      var k1 := OneCall(t, Driver, k, tran, c);
      if c.TransStop? {
        StopAdvances(t, k, tran, c.n);
      } else {
        NonStopKeepsPlace(t, k, tran, c);
      }
      OnlyDriverStarts(Apply(t, c), k1, tran, cs[1..]);
    }
  }

  /** Along any run, a waiting driver request is exactly `StopsToGo` stops from its grant: before
      that it is still in line, with one stop less to go for every stop made, and no psoc or
      vdev has become active meanwhile. */
  lemma DriverStillWaits(t: Tree, k: nat, tran: Tran, cs: seq<Call>) returns (k': nat)
    requires Inv(t) && WaitsAt(t, Driver, k, tran) && LegalRun(t, cs)
    requires Abort(Driver) !in cs
    requires Stops(cs) < StopsToGo(t, Driver, k)
    ensures Inv(Final(t, cs)) && WaitsAt(Final(t, cs), Driver, k', tran)
    ensures StopsToGo(Final(t, cs), Driver, k') == StopsToGo(t, Driver, k) - Stops(cs)
    ensures ActiveIn(Final(t, cs), Driver) <= ActiveIn(t, Driver) + {Driver}
  {
    EveryStopCounts(t, cs);
    OnlyDriverStarts(t, k, tran, cs);
    k' := StillWaits(t, Driver, k, tran, cs);
  }

  /** ... and the stop that exhausts the count, wherever it is made, grants it. */
  lemma DriverGrantedOnTime(t: Tree, k: nat, tran: Tran, cs: seq<Call>, n: NodeId)
    requires Inv(t) && WaitsAt(t, Driver, k, tran) && LegalRun(t, cs)
    requires Abort(Driver) !in cs
    requires Stops(cs) == StopsToGo(t, Driver, k) - 1 && Active(Final(t, cs), n)
    ensures GrantedAt(Final(t, cs), Apply(Final(t, cs), TransStop(n)), Driver, tran)
  {
    EveryStopCounts(t, cs);
    GrantedOnTime(t, Driver, k, tran, cs, n);
  }

  // ----- the result a waiter sees -----

  /** `__dsc_tran_wait`: blocked until the request is resolved, then its outcome. */
  function TranWait(tr: Trans, ticket: nat): Option<Outcome> {
    if ticket < |tr.resolved| then Some(tr.resolved[ticket]) else None
  }

  /** Exactly-once resolution: the outcome reported for a request is that request's own, it is
      never revised, and an accepted request is either resolved or still in the queue, never both. */
  lemma ResolvedExactlyOnce(t: Tree, c: Call, n: NodeId, ticket: nat)
    requires Inv(t) && Legal(t, c) && n in t && n in Apply(t, c)
    requires ticket < t[n].trans.accepted
    ensures var tr, tr' := t[n].trans, Apply(t, c)[n].trans;
            && (TranWait(tr, ticket).Some? ==> TranWait(tr, ticket).value.ticket == ticket)
            && (TranWait(tr, ticket).Some? ==> TranWait(tr', ticket) == TranWait(tr, ticket))
            && (TranWait(tr, ticket).None? <==> exists x :: x in tr.queue && x.ticket == ticket)
            && (TranWait(tr, ticket).None? && TranWait(tr', ticket).Some? ==>
                  && tr.queue != [] && tr.queue[0].ticket == ticket
                  && (TranWait(tr', ticket) == Some(Granted(ticket)) ==> tr'.active == Some(tr.queue[0].desc))
                  && (TranWait(tr', ticket) == Some(Aborted(ticket)) <==> c == Abort(n)))
  {
    var tr, tr' := t[n].trans, Apply(t, c)[n].trans;
    StepResolves(t, c, n);
    if TranWait(tr, ticket).None? {
      assert tr.queue[ticket - |tr.resolved|].ticket == ticket;
    }
  }

  /** Over the life of a waiter: outcomes once given are never revised, whatever runs afterwards. */
  lemma {:induction false} OutcomesAreFinal(t: Tree, cs: seq<Call>, n: NodeId)
    requires Inv(t) && LegalRun(t, cs) && Stays(t, cs, n)
    ensures n in Final(t, cs) && t[n].trans.resolved <= Final(t, cs)[n].trans.resolved
    ensures t[n].trans.accepted <= Final(t, cs)[n].trans.accepted
    decreases |cs|
  {
    if cs == [] {
    } else {
      var t1 := Apply(t, cs[0]);
      StepKeepsInv(t, cs[0]);
      StepResolves(t, cs[0], n);
      StepAccepts(t, cs[0], n);
      OutcomesAreFinal(t1, cs[1..], n);
    }
  }

  lemma StepAccepts(t: Tree, c: Call, n: NodeId)
    requires Legal(t, c) && n in t && n in Apply(t, c) && (c.Create? ==> c.n != n)
    ensures t[n].trans.accepted <= Apply(t, c)[n].trans.accepted
  {
  }

  /** A request accepted at any time is, at the end of any run, either still in the queue or resolved
      with an outcome of its own; an outcome it had before is the outcome it has. */
  lemma ResolvedOnceForAll(t: Tree, cs: seq<Call>, n: NodeId, ticket: nat)
    requires Inv(t) && LegalRun(t, cs) && Stays(t, cs, n) && ticket < t[n].trans.accepted
    ensures n in Final(t, cs)
    ensures var tr, tr' := t[n].trans, Final(t, cs)[n].trans;
            && (TranWait(tr, ticket).Some? ==> TranWait(tr', ticket) == TranWait(tr, ticket))
            && (TranWait(tr', ticket).Some? ==> TranWait(tr', ticket).value.ticket == ticket)
            && (TranWait(tr', ticket).None? <==> exists x :: x in tr'.queue && x.ticket == ticket)
  {
    OutcomesAreFinal(t, cs, n);
    RunKeepsInv(t, cs);
    QueuedOrResolved(Final(t, cs)[n].trans, ticket);
  }

  lemma QueuedOrResolved(tr: Trans, ticket: nat)
    requires FifoTrans(tr) && ticket < tr.accepted
    ensures TranWait(tr, ticket).Some? ==> TranWait(tr, ticket).value.ticket == ticket
    ensures TranWait(tr, ticket).None? <==> exists x :: x in tr.queue && x.ticket == ticket
  {
    if TranWait(tr, ticket).None? {
      assert tr.queue[ticket - |tr.resolved|].ticket == ticket;
    }
  }

  /** A step resolves at most one request of a node: a fresh one, or the head of the queue. */
  lemma StepResolves(t: Tree, c: Call, n: NodeId)
    requires Inv(t) && Legal(t, c) && n in t && n in Apply(t, c)
    ensures var tr, tr' := t[n].trans, Apply(t, c)[n].trans;
            || (tr'.resolved == tr.resolved && (c == Abort(n) ==> tr.queue == []))
            || (tr.queue == [] && tr'.resolved == tr.resolved + [Granted(tr.accepted)] && c != Abort(n))
            || (tr.queue != [] && tr'.resolved == tr.resolved + [Granted(tr.queue[0].ticket)]
                && tr'.active == Some(tr.queue[0].desc) && c != Abort(n))
            || (tr.queue != [] && tr'.resolved == tr.resolved + [Aborted(tr.queue[0].ticket)] && c == Abort(n))
  {
    if c.TransStop? {
      assert Apply(t, c) == Woken(WithTrans(t, c.n, Stopped(t[c.n].trans)), c.n);
    }
  }
}
