/**
 The Driver Synchronization Core (DSC) as a state machine on values.

 A tree of nodes (one driver, psocs under it, vdevs under psocs) is a finite map from node
 identities to node records. Every DSC entry point runs under the one driver lock, so one call
 is one atomic step: `Legal` says what the caller must respect, `Apply` is the new tree.

 Child lists only ever grow at the back, so identities are numbered in list order: a new psoc or
 vdev gets a number above those of its present siblings.
 */
module DscModel {
  import opened Basics

  datatype NodeId = Driver | Psoc(p: nat) | Vdev(p: nat, v: nat)

  /** A waiting transition. The ticket numbers the requests accepted by a node: 0, 1, 2, ... */
  datatype Tran = Tran(ticket: nat, desc: string)

  /** How a request left the node's hands: granted, or aborted when the node is torn down. */
  datatype Outcome = Granted(ticket: nat) | Aborted(ticket: nat)

  /** Transition bookkeeping of a node, with the history of its requests:
      `accepted` counts them, `resolved` lists the outcomes in the order they happened. */
  datatype Trans = Trans(active: Option<string>, queue: seq<Tran>, accepted: nat, resolved: seq<Outcome>)

  /** A tree node: transitions, operations in flight, and the latched "no more ops" event. */
  datatype Node = Node(trans: Trans, ops: nat, opsEvent: bool)

  type Tree = map<NodeId, Node>

  datatype Status = Success | Again | Invalid | Pending

  /** Platform state read by a call: firmware recovery and driver unload in progress. */
  datatype Env = Env(recovering: bool, unloading: bool)

  datatype Call =
    | Create(n: NodeId)
    | Abort(n: NodeId)
    | Detach(n: NodeId)
    | TransStart(n: NodeId, desc: string, env: Env)
    | TransStartWait(n: NodeId, desc: string, env: Env)
    | TransStop(n: NodeId)
    | OpStart(n: NodeId, env: Env)
    | OpStop(n: NodeId)
    | OpsCheck(n: NodeId)

  const EMPTY_TRANS := Trans(None, [], 0, [])
  const EMPTY_NODE := Node(EMPTY_TRANS, 0, false)
  const INIT: Tree := map[Driver := EMPTY_NODE]

  // ----- transition bookkeeping of one node -----

  function Started(tr: Trans, desc: string): Trans {
    tr.(active := Some(desc), accepted := tr.accepted + 1, resolved := tr.resolved + [Granted(tr.accepted)])
  }

  function Stopped(tr: Trans): Trans {
    tr.(active := None)
  }

  function Enqueued(tr: Trans, desc: string): Trans {
    tr.(queue := tr.queue + [Tran(tr.accepted, desc)], accepted := tr.accepted + 1)
  }

  function Triggered(tr: Trans): Trans {
    if tr.queue == [] then tr
    else tr.(active := Some(tr.queue[0].desc), queue := tr.queue[1..],
             resolved := tr.resolved + [Granted(tr.queue[0].ticket)])
  }

  function AbortedOne(tr: Trans): Trans {
    if tr.queue == [] then tr
    else tr.(queue := tr.queue[1..], resolved := tr.resolved + [Aborted(tr.queue[0].ticket)])
  }

  // ----- the tree -----

  predicate Active(t: Tree, n: NodeId) {
    n in t && t[n].trans.active.Some?
  }

  predicate Queued(t: Tree, n: NodeId) {
    n in t && t[n].trans.queue != []
  }

  predicate Busy(t: Tree, n: NodeId) {
    Active(t, n) || Queued(t, n)
  }

  /** Strict ancestry, read off the identities. */
  predicate Above(a: NodeId, b: NodeId) {
    match a
    case Driver => b != Driver
    case Psoc(p) => b.Vdev? && b.p == p
    case Vdev(_, _) => false
  }

  /** `x` is in the subtree of `a`. */
  predicate AtOrBelow(a: NodeId, x: NodeId) {
    a == x || Above(a, x)
  }

  predicate Related(a: NodeId, b: NodeId) {
    a == b || Above(a, b) || Above(b, a)
  }

  ghost predicate ActiveBelow(t: Tree, n: NodeId) {
    exists m :: Above(n, m) && Active(t, m)
  }

  ghost predicate Childless(t: Tree, n: NodeId) {
    forall m :: m in t ==> !Above(n, m)
  }

  /** May a transition (or an operation) begin at `n` now? */
  ghost function CanTrans(t: Tree, n: NodeId, env: Env): Status {
    match n
    case Driver =>
      if Busy(t, Driver) || ActiveBelow(t, Driver) then Again else Success
    case Psoc(p) =>
      if Busy(t, Driver) then Invalid
      else if Busy(t, n) || ActiveBelow(t, n) then Again
      else Success
    case Vdev(p, _) =>
      if Busy(t, Driver) || env.recovering then Invalid
      else if Busy(t, Psoc(p)) then (if env.unloading then Invalid else Again)
      else if Busy(t, n) then Again
      else Success
  }

  /** May a queued transition of `n` be triggered now? (Checked triggers only.) */
  ghost predicate CanTrigger(t: Tree, n: NodeId) {
    && !Active(t, n)
    && !ActiveBelow(t, n)
    && (n != Driver ==> !Busy(t, Driver))
  }

  /** The nodes whose trigger runs when `n` has just been stopped, as the stop paths are coded.
      Triggers at `n` itself and below it are unchecked. */
  ghost predicate Wakes(t: Tree, n: NodeId, m: NodeId) {
    match n
    case Driver =>
      if Queued(t, Driver) then m == Driver
      else m.Psoc? || (m.Vdev? && !Queued(t, Psoc(m.p)))
    case Psoc(p) =>
      if Queued(t, Driver) then m == Driver && CanTrigger(t, Driver)
      else if Queued(t, n) then m == n
      else m.Vdev? && m.p == p
    case Vdev(p, _) =>
      if Queued(t, Driver) then m == Driver && CanTrigger(t, Driver)
      else if Queued(t, Psoc(p)) then m == Psoc(p) && CanTrigger(t, Psoc(p))
      else m == n
  }

  function WithTrans(t: Tree, n: NodeId, tr: Trans): Tree
    requires n in t
  {
    t[n := t[n].(trans := tr)]
  }

  ghost function Woken(t: Tree, n: NodeId): Tree {
    map m | m in t :: if Wakes(t, n, m) then t[m].(trans := Triggered(t[m].trans)) else t[m]
  }

  // ----- calls -----

  /** What the caller of a step must respect. */
  ghost predicate Legal(t: Tree, c: Call) {
    match c
    case Create(n) =>
      && n != Driver
      && (n.Vdev? ==> Psoc(n.p) in t)
      && (n.Psoc? ==> forall q: nat :: Psoc(q) in t ==> q < n.p)
      && (n.Vdev? ==> forall w: nat :: Vdev(n.p, w) in t ==> w < n.v)
    case Abort(n) => n in t && Childless(t, n)
    case Detach(n) => n != Driver && n in t && Childless(t, n) && !Busy(t, n) && t[n].ops == 0
    case TransStart(n, _, _) => n in t
    case TransStartWait(n, _, _) => n in t
    case TransStop(n) => Active(t, n)
    case OpStart(n, _) => n in t
    case OpStop(n) => n in t && t[n].ops > 0
    case OpsCheck(n) => n in t
  }

  ghost function AfterStart(t: Tree, n: NodeId, desc: string, env: Env): Tree
    requires n in t
  {
    if CanTrans(t, n, env) == Success then WithTrans(t, n, Started(t[n].trans, desc)) else t
  }

  ghost function AfterStartWait(t: Tree, n: NodeId, desc: string, env: Env): Tree
    requires n in t
  {
    match CanTrans(t, n, env)
    case Success => WithTrans(t, n, Started(t[n].trans, desc))
    case Again => WithTrans(t, n, Enqueued(t[n].trans, desc))
    case _ => t
  }

  ghost function AfterStop(t: Tree, n: NodeId): Tree
    requires n in t
  {
    Woken(WithTrans(t, n, Stopped(t[n].trans)), n)
  }

  ghost function AfterOpStart(t: Tree, n: NodeId, env: Env): Tree
    requires n in t
  {
    if CanTrans(t, n, env) == Success then t[n := t[n].(ops := t[n].ops + 1)] else t
  }

  ghost function AfterOpStop(t: Tree, n: NodeId): Tree
    requires n in t && t[n].ops > 0
  {
    t[n := t[n].(ops := t[n].ops - 1, opsEvent := t[n].opsEvent || t[n].ops == 1)]
  }

  ghost function AfterOpsCheck(t: Tree, n: NodeId): Tree
    requires n in t
  {
    if t[n].ops > 0 then t[n := t[n].(opsEvent := false)] else t
  }

  ghost function Apply(t: Tree, c: Call): Tree
    requires Legal(t, c)
  {
    match c
    case Create(n) => t[n := EMPTY_NODE]
    case Abort(n) => WithTrans(t, n, AbortedOne(t[n].trans))
    case Detach(n) => t - {n}
    case TransStart(n, desc, env) => AfterStart(t, n, desc, env)
    case TransStartWait(n, desc, env) => AfterStartWait(t, n, desc, env)
    case TransStop(n) => AfterStop(t, n)
    case OpStart(n, env) => AfterOpStart(t, n, env)
    case OpStop(n) => AfterOpStop(t, n)
    case OpsCheck(n) => AfterOpsCheck(t, n)
  }

  // ----- runs -----

  ghost predicate LegalRun(t: Tree, cs: seq<Call>)
    decreases |cs|
  {
    cs == [] || (Legal(t, cs[0]) && LegalRun(Apply(t, cs[0]), cs[1..]))
  }

  ghost function Final(t: Tree, cs: seq<Call>): Tree
    requires LegalRun(t, cs)
    decreases |cs|
  {
    if cs == [] then t else Final(Apply(t, cs[0]), cs[1..])
  }

  /** `n` is in the tree before every call of the run, and after it. */
  ghost predicate Stays(t: Tree, cs: seq<Call>, n: NodeId)
    requires LegalRun(t, cs)
    decreases |cs|
  {
    n in t && (cs == [] || Stays(Apply(t, cs[0]), cs[1..], n))
  }

  lemma {:induction false} RunSnoc(t: Tree, cs: seq<Call>, c: Call)
    requires LegalRun(t, cs) && Legal(Final(t, cs), c)
    ensures LegalRun(t, cs + [c]) && Final(t, cs + [c]) == Apply(Final(t, cs), c)
    decreases |cs|
  {
    if cs == [] {
      assert [c][1..] == [] && Final(Apply(t, c), []) == Apply(t, c);
    } else {
      RunSnoc(Apply(t, cs[0]), cs[1..], c);
      assert (cs + [c])[1..] == cs[1..] + [c];
    }
  }
}
