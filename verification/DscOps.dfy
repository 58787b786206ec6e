/**
 Operations in flight: an active transition freezes the operation counts along its path, a waiter
 on a node's operations cannot miss its wake-up, and waiting for operations at a node under a
 transition held there or above drains the node's subtree.
 */
module DscOps {
  import opened Basics
  import opened DscModel
  import opened DscInvariant

  function OpsAt(t: Tree, m: NodeId): nat {
    if m in t then t[m].ops else 0
  }

  /** An active transition at `n` rejects new operations at `n`, above it and below it. */
  lemma ActiveFreezesOps(t: Tree, c: Call, n: NodeId, m: NodeId)
    requires Inv(t) && Legal(t, c) && Active(t, n) && Related(n, m)
    ensures OpsAt(Apply(t, c), m) <= OpsAt(t, m)
  {
  }

  /** `n` has an active transition before every step of the run (hand-over to the next waiter
      on `n` included). */
  ghost predicate ActiveThroughout(t: Tree, cs: seq<Call>, n: NodeId)
    requires LegalRun(t, cs)
    decreases |cs|
  {
    cs == [] || (Active(t, n) && ActiveThroughout(Apply(t, cs[0]), cs[1..], n))
  }

  lemma {:induction false} RunFreezesOps(t: Tree, cs: seq<Call>, n: NodeId, m: NodeId)
    requires Inv(t) && LegalRun(t, cs) && ActiveThroughout(t, cs, n) && Related(n, m)
    ensures OpsAt(Final(t, cs), m) <= OpsAt(t, m)
    decreases |cs|
  {
    if cs == [] {
    } else {
      ActiveFreezesOps(t, cs[0], n, m);
      StepKeepsInv(t, cs[0]);
      RunFreezesOps(Apply(t, cs[0]), cs[1..], n, m);
    }
  }

  /** The condition under which an operation may start, stated without the per-level code: nothing
      on the node's path is active, neither the node nor an ancestor has a waiter, and a vdev is
      not under recovery. */
  lemma OpAdmittedIff(t: Tree, n: NodeId, env: Env)
    requires WellFormed(t) && n in t
    ensures CanTrans(t, n, env) == Success <==>
              && (forall m :: Active(t, m) ==> !Related(m, n))
              && (forall m :: Queued(t, m) ==> m != n && !Above(m, n))
              && !(n.Vdev? && env.recovering)
  {
    match n {
      case Driver => assert Related(n, n);
      case Psoc(p) => assert Above(Driver, n) && Related(n, n);
      case Vdev(p, v) => assert Above(Driver, n) && Above(Psoc(p), n) && Related(n, n);
    }
  }

  /** When a request is turned away for good instead of being told to wait: the driver is busy above
      it, or, for a vdev, during recovery, or during unload while its psoc is busy. */
  lemma RefusedIff(t: Tree, n: NodeId, env: Env)
    requires WellFormed(t) && n in t
    ensures CanTrans(t, n, env) == Invalid <==>
              || (Busy(t, Driver) && Above(Driver, n))
              || (n.Vdev? && env.recovering)
              || (env.unloading && exists a :: Busy(t, a) && Above(a, n) && a.Psoc?)
  {
    if n.Vdev? {
      assert Above(Psoc(n.p), n);
      assert forall a :: Above(a, n) && a.Psoc? ==> a == Psoc(n.p);
    }
  }

  // ----- waiting for operations -----

  /** Position in the nested child lists: a node precedes its children and its later siblings. */
  predicate Before(a: NodeId, b: NodeId) {
    match a
    case Driver => b != Driver
    case Psoc(p) => (b.Psoc? && p < b.p) || (b.Vdev? && p <= b.p)
    case Vdev(p, v) => (b.Psoc? && p < b.p) || (b.Vdev? && (p < b.p || (p == b.p && v < b.v)))
  }

  /** The walk of a wait for operations over the subtree of `root`: about to look at a node, blocked on
      its event, past it, or finished. */
  datatype Walk = Looking(at: NodeId) | Blocked(at: NodeId) | Past(at: NodeId) | Finished

  /** The root of the walk, the tree, the nodes some thread is blocked on, the walk, and the nodes
      created since it began. */
  datatype Drain = Drain(root: NodeId, tree: Tree, waiting: set<NodeId>, walk: Walk, young: set<NodeId>)

  datatype DrainStep =
    | Api(c: Call)              // any other thread's call
    | OtherLook(n: NodeId)      // another thread's wait_for_ops on a node nobody waits on
    | OtherWake(n: NodeId)
    | Look                      // the walk's locked section
    | Wake                      // the walk's wait returns
    | Advance(next: NodeId)     // the walk follows the child lists, without the lock
    | Finish

  /** The next node on the walk: nodes skipped in between can only be ones linked in after the
      walk started, since the lists are read while others append to them. */
  ghost predicate IsNext(d: Drain, at: NodeId, next: NodeId) {
    && next in d.tree && AtOrBelow(d.root, next) && Before(at, next)
    && (forall m :: m in d.tree && AtOrBelow(d.root, m) && Before(at, m) && Before(m, next) ==> m in d.young)
  }

  ghost predicate DrainLegal(d: Drain, s: DrainStep) {
    match s
    case Api(c) =>
      && Legal(d.tree, c) && !c.OpsCheck?
      // a node being waited on or walked is not freed
      && (c.Detach? ==> c.n !in d.waiting && (d.walk.Finished? || d.walk.at != c.n))
    case OtherLook(n) => n in d.tree && n !in d.waiting
    case OtherWake(n) => n in d.waiting && n in d.tree && d.tree[n].opsEvent && d.walk != Blocked(n)
    case Look => d.walk.Looking? && d.walk.at in d.tree && d.walk.at !in d.waiting
    case Wake => d.walk.Blocked? && d.walk.at in d.tree && d.tree[d.walk.at].opsEvent
    case Advance(next) => d.walk.Past? && IsNext(d, d.walk.at, next)
    case Finish =>
      d.walk.Past? && forall m :: m in d.tree && AtOrBelow(d.root, m) && Before(d.walk.at, m) ==> m in d.young
  }

  ghost function DrainApply(d: Drain, s: DrainStep): Drain
    requires DrainLegal(d, s)
  {
    match s
    case Api(c) =>
      d.(tree := Apply(d.tree, c), young := if c.Create? then d.young + {c.n} else d.young)
    case OtherLook(n) =>
      d.(tree := Apply(d.tree, OpsCheck(n)),
         waiting := if d.tree[n].ops > 0 then d.waiting + {n} else d.waiting)
    case OtherWake(n) => d.(waiting := d.waiting - {n})
    case Look =>
      var n := d.walk.at;
      if d.tree[n].ops > 0 then
        d.(tree := Apply(d.tree, OpsCheck(n)), waiting := d.waiting + {n}, walk := Blocked(n))
      else
        d.(walk := Past(n))
    case Wake => d.(waiting := d.waiting - {d.walk.at}, walk := Past(d.walk.at))
    case Advance(next) => d.(walk := Looking(next))
    case Finish => d.(walk := Finished)
  }

  /** No wake-up is lost: whoever is blocked on a node has either a latched event waiting for it
      or an operation still running whose end will latch one. */
  ghost predicate NoLostWakeup(d: Drain) {
    && (forall n :: n in d.waiting ==> n in d.tree && (d.tree[n].opsEvent || d.tree[n].ops > 0))
    && (d.walk.Blocked? ==> d.walk.at in d.waiting)
  }

  /** What the walk knows of node `m`: nothing runs there if it was born under the transition, or lies
      behind the walk. */
  ghost predicate DrainedAt(d: Drain, m: NodeId) {
    m in d.tree && AtOrBelow(d.root, m)
    && (m in d.young || d.walk.Finished? || Before(m, d.walk.at) || d.walk == Past(m)) ==>
      d.tree[m].ops == 0
  }

  /** Behind the walk nothing runs; nodes born under the transition never ran anything; and an event
      seen by the blocked walk means its node is idle for good. */
  ghost predicate DrainedBehind(d: Drain) {
    && (forall m :: DrainedAt(d, m))
    && (d.walk.Finished? || (d.walk.at in d.tree && AtOrBelow(d.root, d.walk.at)))
    && (d.walk.Blocked? ==> d.tree[d.walk.at].opsEvent ==> d.tree[d.walk.at].ops == 0)
  }

  lemma StepKeepsWakeup(d: Drain, s: DrainStep)
    requires NoLostWakeup(d) && DrainLegal(d, s)
    ensures NoLostWakeup(DrainApply(d, s))
  {
  }

  lemma BeforeTotal(a: NodeId, b: NodeId)
    ensures Before(a, b) || Before(b, a) || a == b
    ensures !(Before(a, b) && Before(b, a))
  {
  }

  /** A transition is active at the root of the walk or above it. */
  ghost predicate HeldAbove(t: Tree, root: NodeId) {
    exists h :: Active(t, h) && AtOrBelow(h, root)
  }

  lemma HeldFreezes(t: Tree, c: Call, root: NodeId, m: NodeId)
    requires Inv(t) && Legal(t, c) && HeldAbove(t, root) && AtOrBelow(root, m)
    ensures OpsAt(Apply(t, c), m) <= OpsAt(t, m)
  {
    var h :| Active(t, h) && AtOrBelow(h, root);
    assert Related(h, m);
    ActiveFreezesOps(t, c, h, m);
  }

  lemma ApiKeepsDrainedAt(d: Drain, c: Call, m: NodeId)
    requires Inv(d.tree) && HeldAbove(d.tree, d.root) && DrainedAt(d, m) && DrainLegal(d, Api(c))
    ensures DrainedAt(DrainApply(d, Api(c)), m)
  {
    if AtOrBelow(d.root, m) {
      HeldFreezes(d.tree, c, d.root, m);
      CreateIsNew(d.tree, c, m);
    }
  }

  /** What a call creates was not there before, and is idle. */
  lemma CreateIsNew(t: Tree, c: Call, m: NodeId)
    requires Legal(t, c)
    ensures c == Create(m) ==> m !in t
    ensures m !in t && m in Apply(t, c) ==> c == Create(m) && Apply(t, c)[m].ops == 0
  {
  }

  lemma ApiKeepsDrained(d: Drain, c: Call)
    requires Inv(d.tree) && HeldAbove(d.tree, d.root)
    requires DrainedBehind(d) && DrainLegal(d, Api(c))
    ensures DrainedBehind(DrainApply(d, Api(c)))
  {
    forall m ensures DrainedAt(DrainApply(d, Api(c)), m) {
      ApiKeepsDrainedAt(d, c, m);
    }
    if !d.walk.Finished? {
      ApiKeepsEvent(d.tree, c, d.walk.at);
      HeldFreezes(d.tree, c, d.root, d.walk.at);
    }
  }

  /** An event that becomes set is set by the end of the last operation. */
  lemma ApiKeepsEvent(t: Tree, c: Call, n: NodeId)
    requires Legal(t, c) && n in t && !(c.Detach? && c.n == n) && c != Create(n)
    ensures n in Apply(t, c)
    ensures Apply(t, c)[n].opsEvent ==> t[n].opsEvent || Apply(t, c)[n].ops == 0
  {
  }

  lemma WalkKeepsDrainedAt(d: Drain, s: DrainStep, m: NodeId)
    requires DrainedBehind(d) && NoLostWakeup(d) && DrainLegal(d, s) && !s.Api?
    ensures DrainedAt(DrainApply(d, s), m)
  {
    assert DrainedAt(d, m);
    if s.Advance? || s.Finish? {
      BeforeTotal(m, d.walk.at);
    }
  }

  lemma WalkKeepsDrained(d: Drain, s: DrainStep)
    requires DrainedBehind(d) && NoLostWakeup(d) && DrainLegal(d, s) && !s.Api?
    ensures DrainedBehind(DrainApply(d, s))
  {
    forall m ensures DrainedAt(DrainApply(d, s), m) {
      WalkKeepsDrainedAt(d, s, m);
    }
  }

  // ----- runs of the walk against everything else -----

  ghost predicate DrainRun(d: Drain, ss: seq<DrainStep>)
    decreases |ss|
  {
    ss == [] || (DrainLegal(d, ss[0]) && DrainRun(DrainApply(d, ss[0]), ss[1..]))
  }

  ghost function DrainFinal(d: Drain, ss: seq<DrainStep>): Drain
    requires DrainRun(d, ss)
    decreases |ss|
  {
    if ss == [] then d else DrainFinal(DrainApply(d, ss[0]), ss[1..])
  }

  /** A transition at the root or above it is active before every step of the run, and at its end. */
  ghost predicate Held(d: Drain, ss: seq<DrainStep>)
    requires DrainRun(d, ss)
    decreases |ss|
  {
    HeldAbove(d.tree, d.root) && (ss != [] ==> Held(DrainApply(d, ss[0]), ss[1..]))
  }

  lemma DrainKeepsInv(d: Drain, s: DrainStep)
    requires Inv(d.tree) && DrainLegal(d, s)
    ensures Inv(DrainApply(d, s).tree)
  {
    match s {
      case Api(c) => StepKeepsInv(d.tree, c);
      case OtherLook(n) => StepKeepsInv(d.tree, OpsCheck(n));
      case Look => StepKeepsInv(d.tree, OpsCheck(d.walk.at));
      case _ =>
    }
  }

  /** No lost operation wake-up in any run, with or without transitions. */
  lemma {:induction false} RunKeepsWakeup(d: Drain, ss: seq<DrainStep>)
    requires NoLostWakeup(d) && DrainRun(d, ss)
    ensures NoLostWakeup(DrainFinal(d, ss))
    decreases |ss|
  {
    if ss == [] {
    } else {
      StepKeepsWakeup(d, ss[0]);
      RunKeepsWakeup(DrainApply(d, ss[0]), ss[1..]);
    }
  }

  lemma {:induction false} RunKeepsDrained(d: Drain, ss: seq<DrainStep>)
    requires Inv(d.tree) && NoLostWakeup(d) && DrainedBehind(d)
    requires DrainRun(d, ss) && Held(d, ss)
    ensures DrainedBehind(DrainFinal(d, ss))
    decreases |ss|
  {
    if ss == [] {
    } else {
      var s := ss[0];
      DrainKeepsInv(d, s);
      StepKeepsWakeup(d, s);
      if s.Api? { ApiKeepsDrained(d, s.c); } else { WalkKeepsDrained(d, s); }
      RunKeepsDrained(DrainApply(d, s), ss[1..]);
    }
  }

  /** The start of a wait for operations at `root`. */
  function WaitStarts(t: Tree, waiting: set<NodeId>, root: NodeId): Drain {
    Drain(root, t, waiting, Looking(root), {})
  }

  /** Draining a subtree: when waiting for operations at a node returns under a transition held
      throughout at that node or above it, no operation is in flight in its subtree, although every
      node was looked at in its own lock section while operations ended and nodes came and went. */
  lemma WaitForOpsDrains(t: Tree, waiting: set<NodeId>, root: NodeId, ss: seq<DrainStep>, m: NodeId)
    requires Inv(t) && root in t && NoLostWakeup(WaitStarts(t, waiting, root))
    requires DrainRun(WaitStarts(t, waiting, root), ss) && Held(WaitStarts(t, waiting, root), ss)
    requires DrainFinal(WaitStarts(t, waiting, root), ss).walk.Finished? && AtOrBelow(root, m)
    ensures OpsAt(DrainFinal(WaitStarts(t, waiting, root), ss).tree, m) == 0
  {
    var d := WaitStarts(t, waiting, root);
    forall x ensures DrainedAt(d, x) {
      assert AtOrBelow(root, x) ==> !Before(x, root);
    }
    RunKeepsDrained(d, ss);
    RootStays(d, ss);
    assert DrainedAt(DrainFinal(d, ss), m);
  }

  lemma {:induction false} RootStays(d: Drain, ss: seq<DrainStep>)
    requires DrainRun(d, ss)
    ensures DrainFinal(d, ss).root == d.root
    decreases |ss|
  {
    if ss == [] {
    } else {
      RootStays(DrainApply(d, ss[0]), ss[1..]);
    }
  }

  /** The whole tree, for a wait at the driver. */
  lemma WaitForOpsDrainsTree(t: Tree, waiting: set<NodeId>, ss: seq<DrainStep>, m: NodeId)
    requires Inv(t)
    requires NoLostWakeup(WaitStarts(t, waiting, Driver))
    requires DrainRun(WaitStarts(t, waiting, Driver), ss)
    requires Held(WaitStarts(t, waiting, Driver), ss)
    requires DrainFinal(WaitStarts(t, waiting, Driver), ss).walk.Finished?
    ensures OpsAt(DrainFinal(WaitStarts(t, waiting, Driver), ss).tree, m) == 0
  {
    WaitForOpsDrains(t, waiting, Driver, ss, m);
  }

  // ----- the walk comes to an end -----

  /** No operation is in flight in the subtree that is walked. */
  ghost predicate SubtreeIdle(d: Drain) {
    forall m :: m in d.tree && AtOrBelow(d.root, m) ==> d.tree[m].ops == 0
  }

  /** Nodes of the subtree that the walk has not come to. */
  ghost function Ahead(d: Drain): set<NodeId>
    requires !d.walk.Finished?
  {
    set m | m in d.tree && AtOrBelow(d.root, m) && Before(d.walk.at, m)
  }

  /** Steps left to the walk when nothing is in flight: a look (or a wake-up) and a move for each node. */
  ghost function StepsLeft(d: Drain): nat {
    if d.walk.Finished? then 0 else 2 * |Ahead(d)| + if d.walk.Past? then 1 else 2
  }

  predicate WalkStep(s: DrainStep) {
    s.Look? || s.Wake? || s.Advance? || s.Finish?
  }

  function WalkSteps(ss: seq<DrainStep>): nat {
    if ss == [] then 0 else (if WalkStep(ss[0]) then 1 else 0) + WalkSteps(ss[1..])
  }

  /** The step creates a node in the subtree of `root`. */
  predicate Bears(s: DrainStep, root: NodeId) {
    s.Api? && s.c.Create? && AtOrBelow(root, s.c.n)
  }

  lemma BeforeTransitive(a: NodeId, b: NodeId, c: NodeId)
    requires Before(a, b) && Before(b, c)
    ensures Before(a, c)
  {
  }

  lemma SmallerSet(s: set<NodeId>, s': set<NodeId>, x: NodeId)
    requires s' <= s - {x} && x in s
    ensures |s'| < |s|
  {
    SubsetSize(s', s - {x});
    assert |s - {x}| == |s| - 1;
  }

  lemma {:induction false} SubsetSize(s: set<NodeId>, u: set<NodeId>)
    requires s <= u
    ensures |s| <= |u|
    decreases s
  {
    if s == {} {
    } else {
      var x :| x in s;
      SubsetSize(s - {x}, u - {x});
    }
  }

  lemma AdvanceShrinks(d: Drain, next: NodeId)
    requires DrainLegal(d, Advance(next))
    ensures |Ahead(DrainApply(d, Advance(next)))| < |Ahead(d)|
  {
    var d' := DrainApply(d, Advance(next));
    forall m | m in Ahead(d') ensures m in Ahead(d) - {next} {
      BeforeTransitive(d.walk.at, next, m);
    }
    SmallerSet(Ahead(d), Ahead(d'), next);
  }

  /** Every step of the walk over an idle subtree brings it one step closer to its end. */
  lemma WalkStepCounts(d: Drain, s: DrainStep)
    requires SubtreeIdle(d) && DrainLegal(d, s) && WalkStep(s)
    requires !d.walk.Finished? ==> AtOrBelow(d.root, d.walk.at)
    ensures StepsLeft(DrainApply(d, s)) < StepsLeft(d)
  {
    if s.Advance? {
      AdvanceShrinks(d, s.next);
    } else if !s.Finish? {
      assert Ahead(DrainApply(d, s)) == Ahead(d);
    }
  }

  lemma ApiTreeKeys(t: Tree, c: Call, m: NodeId)
    requires Legal(t, c) && m in Apply(t, c) && c != Create(m)
    ensures m in t
  {
  }

  /** No other step puts anything in the way of the walk. */
  lemma OtherStepCounts(d: Drain, s: DrainStep)
    requires DrainLegal(d, s) && !WalkStep(s) && !Bears(s, d.root)
    ensures StepsLeft(DrainApply(d, s)) <= StepsLeft(d)
  {
    var d' := DrainApply(d, s);
    if !d.walk.Finished? {
      forall m | m in Ahead(d') ensures m in Ahead(d) {
        if s.Api? {
          ApiTreeKeys(d.tree, s.c, m);
        }
      }
      SubsetSize(Ahead(d'), Ahead(d));
    }
  }

  lemma StepKeepsIdle(d: Drain, s: DrainStep)
    requires Inv(d.tree) && HeldAbove(d.tree, d.root) && SubtreeIdle(d) && DrainLegal(d, s)
    ensures SubtreeIdle(DrainApply(d, s))
  {
    var d' := DrainApply(d, s);
    forall m | m in d'.tree && AtOrBelow(d.root, m) ensures d'.tree[m].ops == 0 {
      if s.Api? {
        HeldFreezes(d.tree, s.c, d.root, m);
      }
    }
  }

  lemma StepKeepsPlace(d: Drain, s: DrainStep)
    requires DrainLegal(d, s) && (!d.walk.Finished? ==> AtOrBelow(d.root, d.walk.at))
    ensures var d' := DrainApply(d, s); d'.root == d.root && (!d'.walk.Finished? ==> AtOrBelow(d'.root, d'.walk.at))
  {
  }

  /** Bounded walk: under a transition held throughout, once the operations of the subtree have ended and
      while no node is created in it, the steps the walk has made and those left to it stay within the
      number left at the start, whatever the other threads do. */
  lemma {:induction false} WalkBound(d: Drain, ss: seq<DrainStep>)
    requires Inv(d.tree) && SubtreeIdle(d) && (!d.walk.Finished? ==> AtOrBelow(d.root, d.walk.at))
    requires DrainRun(d, ss) && Held(d, ss) && forall i :: 0 <= i < |ss| ==> !Bears(ss[i], d.root)
    ensures WalkSteps(ss) + StepsLeft(DrainFinal(d, ss)) <= StepsLeft(d)
    decreases |ss|
  {
    if ss == [] {
    } else {
      var s := ss[0];
      DrainKeepsInv(d, s);
      StepKeepsIdle(d, s);
      StepKeepsPlace(d, s);
      if WalkStep(s) {
        WalkStepCounts(d, s);
      } else {
        OtherStepCounts(d, s);
      }
      WalkBound(DrainApply(d, s), ss[1..]);
    }
  }

  /** So a wait that starts over an idle subtree has returned when its walk has made two steps for every
      node of the subtree. */
  lemma WaitForOpsReturns(t: Tree, waiting: set<NodeId>, root: NodeId, ss: seq<DrainStep>)
    requires Inv(t) && root in t && SubtreeIdle(WaitStarts(t, waiting, root))
    requires DrainRun(WaitStarts(t, waiting, root), ss) && Held(WaitStarts(t, waiting, root), ss)
    requires forall i :: 0 <= i < |ss| ==> !Bears(ss[i], root)
    requires WalkSteps(ss) >= 2 * |set m | m in t && AtOrBelow(root, m)|
    ensures DrainFinal(WaitStarts(t, waiting, root), ss).walk.Finished?
  {
    var d := WaitStarts(t, waiting, root);
    var all := set m | m in t && AtOrBelow(root, m);
    forall m | m in Ahead(d) ensures m in all - {root} {
      BeforeTotal(root, m);
    }
    SmallerSet(all, Ahead(d), root);
    WalkBound(d, ss);
  }

  /** The first of a set of nodes in the order of the walk. */
  lemma {:induction false} FirstOf(s: set<NodeId>) returns (first: NodeId)
    requires s != {}
    ensures first in s && forall m :: m in s ==> !Before(m, first)
    decreases s
  {
    var x :| x in s;
    if s == {x} {
      first := x;
      BeforeTotal(x, x);
    } else {
      var rest := s - {x};
      assert s == rest + {x};
      var y := FirstOf(rest);
      if Before(x, y) {
        first := x;
        forall m | m in s ensures !Before(m, x) {
          BeforeTotal(m, x);
          if Before(m, x) {
            BeforeTransitive(m, x, y);
          }
        }
      } else {
        first := y;
      }
    }
  }

  /** The walk is never stuck over an idle subtree: it can make a step, or the thread that waits at its
      node is about to leave. */
  lemma WalkNotStuck(d: Drain)
    requires SubtreeIdle(d) && NoLostWakeup(d) && DrainedBehind(d) && !d.walk.Finished?
    ensures (exists s :: WalkStep(s) && DrainLegal(d, s)) || DrainLegal(d, OtherWake(d.walk.at))
  {
    match d.walk {
      case Looking(at) =>
        if at !in d.waiting {
          assert WalkStep(Look) && DrainLegal(d, Look);
        }
      case Blocked(at) => assert WalkStep(Wake) && DrainLegal(d, Wake);
      case Past(at) =>
        var settled := set m | m in Ahead(d) && m !in d.young;
        if settled == {} {
          assert forall m :: m in d.tree && AtOrBelow(d.root, m) && Before(at, m) ==> m in Ahead(d);
          assert forall m :: m in Ahead(d) ==> m in d.young by {
            assert forall m :: m in Ahead(d) && m !in d.young ==> m in settled;
          }
          assert WalkStep(Finish) && DrainLegal(d, Finish);
        } else {
          var next := FirstOf(settled);
          forall m | m in d.tree && AtOrBelow(d.root, m) && Before(at, m) && Before(m, next) ensures m in d.young {
            assert m in Ahead(d);
            assert m !in settled;
          }
          assert WalkStep(Advance(next)) && DrainLegal(d, Advance(next));
        }
    }
  }

  // ----- tearing a node down -----

  /** Nobody but `n` has an active transition that holds the waiter at `a` back. */
  ghost predicate HeldOnlyBy(t: Tree, a: NodeId, n: NodeId) {
    && Above(a, n) && Queued(t, a) && (a != Driver ==> !Busy(t, Driver))
    && forall m :: Active(t, m) && Related(m, a) ==> m == n
  }

  /** `n` is the only active transition that some queued ancestor of `n` is held back by. */
  ghost predicate LastObstacle(t: Tree, n: NodeId) {
    exists a :: HeldOnlyBy(t, a, n)
  }

  /** `t'` is `t` without the childless node `n`. */
  ghost predicate Removed(t: Tree, n: NodeId, t': Tree) {
    && WellFormed(t')
    && (forall m :: Active(t', m) <==> Active(t, m) && m != n)
    && (forall m :: Queued(t', m) <==> Queued(t, m) && m != n)
  }

  lemma DetachRemoves(t: Tree, n: NodeId)
    requires WellFormed(t) && n != Driver && n in t && Childless(t, n)
    ensures Removed(t, n, t - {n})
  {
    assert n.Psoc? ==> forall v: nat :: Vdev(n.p, v) in t ==> Above(n, Vdev(n.p, v));
  }

  /** Whom the removal sets free is held back by the removed node alone. */
  lemma FreedIff(t: Tree, n: NodeId, t': Tree, a: NodeId)
    requires Inv(t) && Active(t, n) && Childless(t, n) && Removed(t, n, t')
    ensures Eligible(t', a) <==> HeldOnlyBy(t, a, n)
  {
    StrandedIsEligible(t);
    assert !Eligible(t, a);
    assert a != Driver ==> Above(Driver, a);
    assert Above(a, n) ==> forall b :: Above(b, a) ==> b == Driver;
    if Eligible(t', a) {
      assert Related(n, a) && a != n;
    }
  }

  /** Tear-down clears an active transition without waking anyone. That is harmless exactly when
      the node is not the last obstacle of a queued ancestor. */
  lemma DetachActiveSafeIff(t: Tree, n: NodeId)
    requires Inv(t) && n != Driver && n in t && Childless(t, n) && Active(t, n)
    ensures NoStranded(t - {n}) <==> !LastObstacle(t, n)
  {
    DetachRemoves(t, n);
    StrandedIsEligible(t - {n});
    forall a ensures Eligible(t - {n}, a) <==> HeldOnlyBy(t, a, n) {
      FreedIff(t, n, t - {n}, a);
    }
  }

  // The failing family is inhabited: a vdev torn down in mid-transition strands its psoc's waiter.

  const VDEV := Vdev(0, 0)
  const ENV := Env(false, false)
  const STRANDING: seq<Call> :=
    [Create(Psoc(0)), Create(VDEV), TransStart(VDEV, "vdev", ENV), TransStartWait(Psoc(0), "psoc", ENV)]

  const HELD := EMPTY_NODE.(trans := Started(EMPTY_TRANS, "vdev"))
  const WAITING := EMPTY_NODE.(trans := Enqueued(EMPTY_TRANS, "psoc"))

  lemma VdevStarts(t: Tree)
    requires t == map[Driver := EMPTY_NODE, Psoc(0) := EMPTY_NODE, VDEV := EMPTY_NODE]
    ensures Apply(t, TransStart(VDEV, "vdev", ENV)) == t[VDEV := HELD]
  {
    assert forall m :: !Busy(t, m);
  }

  lemma PsocWaits(t: Tree)
    requires t == map[Driver := EMPTY_NODE, Psoc(0) := EMPTY_NODE, VDEV := HELD]
    ensures Apply(t, TransStartWait(Psoc(0), "psoc", ENV)) == t[Psoc(0) := WAITING]
  {
    assert Active(t, VDEV) && Above(Psoc(0), VDEV);
    assert ActiveBelow(t, Psoc(0));
  }

  lemma StrandingRun()
    ensures LegalRun(INIT, STRANDING)
    ensures Final(INIT, STRANDING) == map[Driver := EMPTY_NODE, Psoc(0) := WAITING, VDEV := HELD]
  {
    var t1 := INIT[Psoc(0) := EMPTY_NODE];
    var t2 := t1[VDEV := EMPTY_NODE];
    var t3 := t2[VDEV := HELD];
    var t4 := t3[Psoc(0) := WAITING];
    VdevStarts(t2);
    PsocWaits(t3);
    LegalPair(t2, TransStart(VDEV, "vdev", ENV), TransStartWait(Psoc(0), "psoc", ENV));
    assert STRANDING[2..] == [TransStart(VDEV, "vdev", ENV), TransStartWait(Psoc(0), "psoc", ENV)];
    LegalCons(t1, Create(VDEV), STRANDING[2..]);
    LegalCons(INIT, Create(Psoc(0)), STRANDING[1..]);
  }

  lemma LegalCons(t: Tree, c: Call, rest: seq<Call>)
    requires Legal(t, c) && LegalRun(Apply(t, c), rest)
    ensures LegalRun(t, [c] + rest) && Final(t, [c] + rest) == Final(Apply(t, c), rest)
  {
    assert ([c] + rest)[1..] == rest;
  }

  lemma LegalPair(t: Tree, c: Call, c': Call)
    requires Legal(t, c) && Legal(Apply(t, c), c')
    ensures LegalRun(t, [c, c']) && Final(t, [c, c']) == Apply(Apply(t, c), c')
  {
    LegalCons(Apply(t, c), c', []);
    LegalCons(t, c, [c']);
    assert [c] + [c'] == [c, c'] && [c'] + [] == [c'];
  }

  /** Four calls reach a tree in which tearing the vdev down leaves its psoc's waiter stranded. */
  lemma DetachActiveStrandsWaiter()
    ensures LegalRun(INIT, STRANDING)
    ensures var t := Final(INIT, STRANDING);
            && VDEV in t && Childless(t, VDEV) && Active(t, VDEV) && t[VDEV].ops == 0 && !Queued(t, VDEV)
            && !NoStranded(t - {VDEV})
  {
    StrandingRun();
    var t := Final(INIT, STRANDING);
    assert forall m :: Active(t - {VDEV}, m) ==> false;
    assert Queued(t - {VDEV}, Psoc(0)) && !Excused(t - {VDEV}, Psoc(0));
  }
}
