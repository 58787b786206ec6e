/**
 DSC as the C code runs it: contexts reached by handle, child lists, and transition and operation
 records updated in place, with the nested list loops of the trigger paths. Every locked section of
 the entry points is proved to take the contexts through one step of DscModel, so what is proved of
 runs of DscModel holds of this code. The walk of a wait for operations, which holds no lock between
 its sections, is in DscOps.
 */
module DscObjects {
  import opened Basics
  import opened DscModel
  import opened DscInvariant
  import opened DscStart

  predicate Ascending(s: seq<nat>) {
    forall i, j :: 0 <= i < j < |s| ==> s[i] < s[j]
  }

  /** A list without one of its elements. */
  function Without(s: seq<nat>, x: nat): seq<nat> {
    if s == [] then []
    else if s[0] == x then s[1..]
    else [s[0]] + Without(s[1..], x)
  }

  lemma {:induction false} WithoutMembers(s: seq<nat>, x: nat)
    requires Ascending(s)
    ensures Ascending(Without(s, x)) && forall y :: y in Without(s, x) <==> y in s && y != x
  {
    if s == [] {
    } else {
      WithoutMembers(s[1..], x);
      assert s == [s[0]] + s[1..] && s[0] !in s[1..];
      if s[0] != x {
        AscendingCons(s[0], s[1..], Without(s[1..], x));
      }
    }
  }

  lemma AscendingCons(x: nat, s: seq<nat>, r: seq<nat>)
    requires Ascending([x] + s) && Ascending(r) && forall y :: y in r ==> y in s
    ensures Ascending([x] + r)
  {
    forall i | 0 <= i < |r| ensures x < r[i] {
      assert r[i] in s;
      var j :| 0 <= j < |s| && s[j] == r[i];
      assert ([x] + s)[0] < ([x] + s)[j + 1];
    }
  }

  /** A number above the last element goes to the back of an ascending list. */
  lemma AboveAll(s: seq<nat>)
    requires Ascending(s)
    ensures var x := if s == [] then 0 else s[|s| - 1] + 1;
            (forall y :: y in s ==> y < x) && Ascending(s + [x]) && forall y :: y in s + [x] <==> y in s || y == x
  {
  }

  /** The child lists say which contexts there are, in ascending order. */
  ghost predicate Shape(t: Tree, psocs: seq<nat>, vdevs: map<nat, seq<nat>>) {
    && Driver in t
    && Ascending(psocs)
    && (forall p: nat :: Psoc(p) in t <==> p in psocs)
    && (forall p: nat :: p in vdevs <==> p in psocs)
    && (forall p :: p in vdevs ==> Ascending(vdevs[p]))
    && (forall p: nat, v: nat :: Vdev(p, v) in t <==> p in vdevs && v in vdevs[p])
  }

  lemma ShapeIsWellFormed(t: Tree, psocs: seq<nat>, vdevs: map<nat, seq<nat>>)
    requires Shape(t, psocs, vdevs)
    ensures WellFormed(t)
  {
  }

  lemma PsocCreated(t: Tree, psocs: seq<nat>, vdevs: map<nat, seq<nat>>, p: nat)
    requires Shape(t, psocs, vdevs) && p == if psocs == [] then 0 else psocs[|psocs| - 1] + 1
    ensures Legal(t, Create(Psoc(p))) && Shape(t[Psoc(p) := EMPTY_NODE], psocs + [p], vdevs[p := []])
  {
    AboveAll(psocs);
    assert p !in psocs && p !in vdevs;
    assert forall v: nat :: Vdev(p, v) !in t;
    var t', vdevs' := t[Psoc(p) := EMPTY_NODE], vdevs[p := []];
    assert forall q: nat, v: nat :: Vdev(q, v) in t' <==> Vdev(q, v) in t;
    assert forall q: nat :: q in vdevs' <==> q in vdevs || q == p;
  }

  lemma VdevCreated(t: Tree, psocs: seq<nat>, vdevs: map<nat, seq<nat>>, p: nat, v: nat)
    requires Shape(t, psocs, vdevs) && p in psocs && v == if vdevs[p] == [] then 0 else vdevs[p][|vdevs[p]| - 1] + 1
    ensures Legal(t, Create(Vdev(p, v))) && Shape(t[Vdev(p, v) := EMPTY_NODE], psocs, vdevs[p := vdevs[p] + [v]])
  {
    AboveAll(vdevs[p]);
    var t', vdevs' := t[Vdev(p, v) := EMPTY_NODE], vdevs[p := vdevs[p] + [v]];
    assert forall q: nat :: Psoc(q) in t' <==> Psoc(q) in t;
    assert forall q: nat :: q in vdevs' <==> q in vdevs;
  }

  lemma PsocDetached(t: Tree, psocs: seq<nat>, vdevs: map<nat, seq<nat>>, p: nat)
    requires Shape(t, psocs, vdevs) && Legal(t, Detach(Psoc(p)))
    ensures Shape(t - {Psoc(p)}, Without(psocs, p), vdevs - {p})
  {
    WithoutMembers(psocs, p);
    assert forall v: nat :: Vdev(p, v) in t ==> Above(Psoc(p), Vdev(p, v));
    var t', vdevs' := t - {Psoc(p)}, vdevs - {p};
    assert forall q: nat, v: nat :: Vdev(q, v) in t' <==> Vdev(q, v) in t;
    assert forall q: nat :: q in vdevs' <==> q in vdevs && q != p;
  }

  lemma VdevDetached(t: Tree, psocs: seq<nat>, vdevs: map<nat, seq<nat>>, p: nat, v: nat)
    requires Shape(t, psocs, vdevs) && Vdev(p, v) in t
    ensures Shape(t - {Vdev(p, v)}, psocs, vdevs[p := Without(vdevs[p], v)])
  {
    WithoutMembers(vdevs[p], v);
    var t', vdevs' := t - {Vdev(p, v)}, vdevs[p := Without(vdevs[p], v)];
    assert forall q: nat :: Psoc(q) in t' <==> Psoc(q) in t;
    assert forall q: nat :: q in vdevs' <==> q in vdevs;
  }

  // ----- triggering along lists, on values -----

  function TriggeredNode(nd: Node): Node {
    nd.(trans := Triggered(nd.trans))
  }

  function Fired(t: Tree, n: NodeId): Tree {
    if n in t then t[n := TriggeredNode(t[n])] else t
  }

  function FiredVdevs(t: Tree, p: nat, vs: seq<nat>): Tree {
    if vs == [] then t else Fired(FiredVdevs(t, p, vs[..|vs| - 1]), Vdev(p, vs[|vs| - 1]))
  }

  /** The nested loop of a driver stop, over the psocs `ps`. */
  function FiredTree(t: Tree, ps: seq<nat>, vdevs: map<nat, seq<nat>>): Tree
    requires forall p :: p in ps ==> p in vdevs
  {
    if ps == [] then t else
      FiredPsoc(FiredTree(t, ps[..|ps| - 1], vdevs), ps[|ps| - 1], vdevs[ps[|ps| - 1]])
  }

  function FiredPsoc(t: Tree, p: nat, vs: seq<nat>): Tree {
    if Queued(t, Psoc(p)) then Fired(t, Psoc(p)) else FiredVdevs(t, p, vs)
  }

  lemma FiredVdevsStep(t: Tree, p: nat, vs: seq<nat>, k: nat)
    requires k < |vs|
    ensures var u := FiredVdevs(t, p, vs[..k]);
            FiredVdevs(t, p, vs[..k + 1]) == if Queued(u, Vdev(p, vs[k])) then Fired(u, Vdev(p, vs[k])) else u
  {
    assert vs[..k + 1][..k] == vs[..k];
  }

  lemma FiredTreeStep(t: Tree, ps: seq<nat>, i: nat, vdevs: map<nat, seq<nat>>)
    requires i < |ps| && forall p :: p in ps[..i + 1] ==> p in vdevs
    ensures ps[i] in vdevs && forall p :: p in ps[..i] ==> p in ps[..i + 1]
    ensures FiredTree(t, ps[..i + 1], vdevs) == FiredPsoc(FiredTree(t, ps[..i], vdevs), ps[i], vdevs[ps[i]])
  {
    assert ps[..i + 1][i] == ps[i];
    assert ps[..i + 1][..i] == ps[..i];
  }

  lemma {:induction false} FiredVdevsAt(t: Tree, p: nat, vs: seq<nat>)
    requires Ascending(vs)
    ensures FiredVdevs(t, p, vs).Keys == t.Keys
    ensures forall m :: m in t ==>
              FiredVdevs(t, p, vs)[m] == if m.Vdev? && m.p == p && m.v in vs then TriggeredNode(t[m]) else t[m]
  {
    if vs == [] {
    } else {
      var k := |vs| - 1;
      FiredVdevsAt(t, p, vs[..k]);
      assert vs == vs[..k] + [vs[k]];
      assert vs[k] !in vs[..k];
      FiredOneMore(t, FiredVdevs(t, p, vs[..k]), p, vs[..k], vs[k]);
    }
  }

  lemma FiredOneMore(t: Tree, u: Tree, p: nat, vs: seq<nat>, v: nat)
    requires u.Keys == t.Keys && v !in vs
    requires forall m :: m in t ==> u[m] == if m.Vdev? && m.p == p && m.v in vs then TriggeredNode(t[m]) else t[m]
    ensures var u' := Fired(u, Vdev(p, v));
            && u'.Keys == t.Keys
            && forall m :: m in t ==>
                 u'[m] == if m.Vdev? && m.p == p && m.v in vs + [v] then TriggeredNode(t[m]) else t[m]
  {
  }

  /** The loop comes to a vdev that it has not touched. */
  lemma VdevTurnReady(t: Tree, p: nat, vs: seq<nat>, k: nat)
    requires Ascending(vs) && k < |vs| && forall m :: Above(Psoc(p), m) ==> !Active(t, m)
    ensures var u, n := FiredVdevs(t, p, vs[..k]), Vdev(p, vs[k]);
            !Active(u, n) && FiredVdevs(t, p, vs[..k + 1]) == if Queued(u, n) then Fired(u, n) else u
  {
    var n := Vdev(p, vs[k]);
    assert vs[k] !in vs[..k] && Above(Psoc(p), n);
    FiredVdevsAt(t, p, vs[..k]);
    FiredVdevsStep(t, p, vs, k);
  }

  /** `m` is triggered in the turn of psoc `p` with the vdevs `vs`. */
  predicate TakesTurn(t: Tree, p: nat, vs: seq<nat>, m: NodeId) {
    m == Psoc(p) || (m.Vdev? && m.p == p && m.v in vs && !Queued(t, Psoc(p)))
  }

  lemma FiredPsocAt(t: Tree, p: nat, vs: seq<nat>)
    requires Ascending(vs) && Psoc(p) in t
    ensures FiredPsoc(t, p, vs).Keys == t.Keys
    ensures forall m :: m in t ==>
              FiredPsoc(t, p, vs)[m] == if TakesTurn(t, p, vs, m) then TriggeredNode(t[m]) else t[m]
  {
    if !Queued(t, Psoc(p)) {
      FiredVdevsAt(t, p, vs);
    }
  }

  /** `m` has had its turn once the loop has passed the psocs `ps`. */
  predicate HadTurn(t: Tree, ps: seq<nat>, m: NodeId) {
    m != Driver && m.p in ps && (m.Psoc? || !Queued(t, Psoc(m.p)))
  }

  ghost predicate Lists(t: Tree, ps: seq<nat>, vdevs: map<nat, seq<nat>>) {
    && Ascending(ps)
    && (forall p :: p in ps ==> p in vdevs && Ascending(vdevs[p]) && Psoc(p) in t)
    && (forall p, v :: p in ps && Vdev(p, v) in t ==> v in vdevs[p])
  }

  lemma {:induction false} FiredTreeAt(t: Tree, ps: seq<nat>, vdevs: map<nat, seq<nat>>)
    requires Lists(t, ps, vdevs)
    ensures FiredTree(t, ps, vdevs).Keys == t.Keys
    ensures forall m :: m in t ==>
              FiredTree(t, ps, vdevs)[m] == if HadTurn(t, ps, m) then TriggeredNode(t[m]) else t[m]
  {
    if ps == [] {
    } else {
      var k, p := |ps| - 1, ps[|ps| - 1];
      assert ps == ps[..k] + [p];
      assert p !in ps[..k];
      FiredTreeAt(t, ps[..k], vdevs);
      var u := FiredTree(t, ps[..k], vdevs);
      assert u[Psoc(p)] == t[Psoc(p)];
      FiredPsocAt(u, p, vdevs[p]);
      forall m | m in t
        ensures FiredTree(t, ps, vdevs)[m] == if HadTurn(t, ps, m) then TriggeredNode(t[m]) else t[m]
      {
        assert HadTurn(t, ps, m) <==> HadTurn(t, ps[..k], m) || TakesTurn(u, p, vdevs[p], m);
        assert HadTurn(t, ps[..k], m) ==> m.p != p;
      }
    }
  }

  /** The loop comes to a psoc whose part of the tree it has not touched. */
  lemma TurnReady(t: Tree, ps: seq<nat>, i: nat, vdevs: map<nat, seq<nat>>)
    requires i < |ps| && Lists(t, ps[..i], vdevs) && Lists(t, ps[..i + 1], vdevs) && forall m :: !Active(t, m)
    ensures ps[i] in vdevs && forall p :: p in ps[..i] ==> p in ps[..i + 1]
    ensures var u := FiredTree(t, ps[..i], vdevs);
            && !Active(u, Psoc(ps[i])) && (forall m :: Above(Psoc(ps[i]), m) ==> !Active(u, m))
            && FiredTree(t, ps[..i + 1], vdevs) == FiredPsoc(u, ps[i], vdevs[ps[i]])
  {
    var u := FiredTree(t, ps[..i], vdevs);
    assert ps[i] !in ps[..i] by { assert ps[..i + 1][i] == ps[i] && Ascending(ps[..i + 1]); }
    FiredTreeAt(t, ps[..i], vdevs);
    FiredTreeStep(t, ps, i, vdevs);
    forall m | m in t && (m == Psoc(ps[i]) || Above(Psoc(ps[i]), m)) ensures !Active(u, m) {
      assert u[m] == t[m] && !Active(t, m);
    }
  }

  lemma PsocWoken(t: Tree, p: nat)
    ensures Queued(t, Driver) ==> Woken(t, Psoc(p)) == if CanTrigger(t, Driver) then Fired(t, Driver) else t
    ensures !Queued(t, Driver) && Queued(t, Psoc(p)) ==> Woken(t, Psoc(p)) == Fired(t, Psoc(p))
  {
  }

  lemma VdevWoken(t: Tree, p: nat, v: nat)
    ensures Woken(t, Vdev(p, v)) ==
            if Queued(t, Driver) then (if CanTrigger(t, Driver) then Fired(t, Driver) else t)
            else if Queued(t, Psoc(p)) then (if CanTrigger(t, Psoc(p)) then Fired(t, Psoc(p)) else t)
            else if Queued(t, Vdev(p, v)) then Fired(t, Vdev(p, v))
            else t
  {
  }

  class Dsc {
    /** Transition and operation records of every live context. */
    var nodes: Tree
    /** The child lists: psocs of the driver, vdevs of each psoc. */
    var psocs: seq<nat>
    var vdevs: map<nat, seq<nat>>

    ghost predicate Valid()
      reads this
    {
      Shape(nodes, psocs, vdevs)
    }

    constructor ()
      ensures Valid() && nodes == INIT
    {
      nodes, psocs, vdevs := INIT, [], map[];
    }

    // ----- checks -----

    method PsocActiveDownTree(p: nat) returns (b: bool)
      requires Valid() && p in psocs
      ensures b <==> ActiveBelow(nodes, Psoc(p))
    {
      var k := 0;
      while k < |vdevs[p]|
        invariant 0 <= k <= |vdevs[p]|
        invariant forall l :: 0 <= l < k ==> !Active(nodes, Vdev(p, vdevs[p][l]))
      {
        var n := Vdev(p, vdevs[p][k]);
        assert vdevs[p][k] in vdevs[p];
        if nodes[n].trans.active.Some? {
          assert Above(Psoc(p), n) && Active(nodes, n);
          return true;
        }
        k := k + 1;
      }
      return false;
    }

    method DriverActiveDownTree() returns (b: bool)
      requires Valid()
      ensures b <==> ActiveBelow(nodes, Driver)
    {
      var i := 0;
      while i < |psocs|
        invariant 0 <= i <= |psocs|
        invariant forall j :: 0 <= j < i ==> !Active(nodes, Psoc(psocs[j])) && !ActiveBelow(nodes, Psoc(psocs[j]))
      {
        var p := psocs[i];
        assert p in psocs;
        if nodes[Psoc(p)].trans.active.Some? {
          assert Above(Driver, Psoc(p)) && Active(nodes, Psoc(p));
          return true;
        }
        var below := PsocActiveDownTree(p);
        if below {
          ghost var m :| Above(Psoc(p), m) && Active(nodes, m);
          assert Above(Driver, m);
          return true;
        }
        i := i + 1;
      }
      forall m | Above(Driver, m) && m in nodes ensures !Active(nodes, m) {
        assert m.p in psocs;
        assert m.Vdev? ==> Above(Psoc(m.p), m);
      }
      return false;
    }

    method CanTrans(n: NodeId, env: Env) returns (s: Status)
      requires Valid() && n in nodes
      ensures s == DscModel.CanTrans(nodes, n, env)
      ensures s == if Unobstructed(nodes, n, env) then Success else if Barred(nodes, n, env) then Invalid else Again
    {
      ShapeIsWellFormed(nodes, psocs, vdevs);
      Answers(nodes, n, env);
      match n {
        case Driver =>
          if Busy(nodes, Driver) {
            return Again;
          }
          var below := DriverActiveDownTree();
          return if below then Again else Success;
        case Psoc(p) =>
          if Busy(nodes, Driver) {
            return Invalid;
          }
          if Busy(nodes, n) {
            return Again;
          }
          var below := PsocActiveDownTree(p);
          return if below then Again else Success;
        case Vdev(p, _) =>
          if Busy(nodes, Driver) || env.recovering {
            return Invalid;
          }
          if Busy(nodes, Psoc(p)) {
            return if env.unloading then Invalid else Again;
          }
          return if Busy(nodes, n) then Again else Success;
      }
    }

    // ----- starting a transition -----

    method TransStart(n: NodeId, desc: string, env: Env) returns (s: Status)
      requires Valid() && n in nodes
      modifies `nodes
      ensures Valid() && nodes == Apply(old(nodes), DscModel.TransStart(n, desc, env))
      ensures s == Success ==> Unobstructed(old(nodes), n, env) && NowActive(old(nodes), nodes, n, desc)
      ensures s == Invalid ==> Barred(old(nodes), n, env)
      ensures s == Again ==> !Unobstructed(old(nodes), n, env) && !Barred(old(nodes), n, env)
      ensures s in {Success, Invalid, Again} && (s != Success ==> nodes == old(nodes))
      ensures s == DscModel.CanTrans(old(nodes), n, env)
    {
      ShapeIsWellFormed(nodes, psocs, vdevs);
      Answers(nodes, n, env);
      StartOutcome(nodes, n, desc, env);
      s := CanTrans(n, env);
      if s == Success {
        nodes := WithTrans(nodes, n, Started(nodes[n].trans, desc));
      }
    }

    method TransStartWait(n: NodeId, desc: string, env: Env) returns (s: Status)
      requires Valid() && n in nodes
      modifies `nodes
      ensures Valid() && nodes == Apply(old(nodes), DscModel.TransStartWait(n, desc, env))
      ensures s == Success <==> NowActive(old(nodes), nodes, n, desc)
      ensures s == Pending <==> NowQueued(old(nodes), nodes, n, desc)
      ensures s == Invalid <==> nodes == old(nodes)
      ensures s == if Unobstructed(old(nodes), n, env) then Success
                   else if Barred(old(nodes), n, env) then Invalid
                   else Pending
    {
      ShapeIsWellFormed(nodes, psocs, vdevs);
      Answers(nodes, n, env);
      WaitOutcome(nodes, n, desc, env);
      ghost var t' := Apply(nodes, DscModel.TransStartWait(n, desc, env));
      NotBoth(nodes, t', n, desc);
      s := TransStart(n, desc, env);
      if s == Again {
        nodes := WithTrans(nodes, n, Enqueued(nodes[n].trans, desc));
        s := Pending;
      }
    }

    // ----- stopping a transition -----

    /** Trigger the next transition of `n`. The second precondition is the assertion made whenever
        a transition starts; the unchecked callers meet it only thanks to the invariant. */
    method Trigger(n: NodeId) returns (triggered: bool)
      requires Valid() && n in nodes
      requires Queued(nodes, n) ==> !Active(nodes, n)
      modifies `nodes
      ensures Valid() && (triggered <==> Queued(old(nodes), n))
      ensures nodes == if triggered then Fired(old(nodes), n) else old(nodes)
    {
      if nodes[n].trans.queue == [] {
        return false;
      }
      nodes := WithTrans(nodes, n, Triggered(nodes[n].trans));
      return true;
    }

    /** Trigger if nothing stands in the way; "handled" whenever something is queued. */
    method TriggerChecked(n: NodeId) returns (handled: bool)
      requires Valid() && n in nodes && !n.Vdev?
      modifies `nodes
      ensures Valid() && (handled <==> Queued(old(nodes), n))
      ensures nodes == if handled && CanTrigger(old(nodes), n) then Fired(old(nodes), n) else old(nodes)
      ensures nodes == if && handled
                          && (forall m :: Active(old(nodes), m) ==> !Related(m, n))
                          && (forall m :: Queued(old(nodes), m) ==> !Above(m, n))
                       then Fired(old(nodes), n) else old(nodes)
    {
      TriggerableIff(nodes, n);
      if nodes[n].trans.queue == [] {
        return false;
      }
      handled := true;
      var below;
      if n == Driver {
        below := DriverActiveDownTree();
      } else {
        below := PsocActiveDownTree(n.p);
      }
      if !below && !Active(nodes, n) && (n == Driver || !Busy(nodes, Driver)) {
        var _ := Trigger(n);
      }
    }

    method TriggerVdevs(p: nat)
      requires Valid() && p in psocs && forall m :: Above(Psoc(p), m) ==> !Active(nodes, m)
      modifies `nodes
      ensures Valid() && nodes == FiredVdevs(old(nodes), p, vdevs[p])
    {
      ghost var t, vs := nodes, vdevs[p];
      var k := 0;
      while k < |vdevs[p]|
        invariant 0 <= k <= |vs| && Valid() && nodes == FiredVdevs(t, p, vs[..k])
      {
        var n := Vdev(p, vdevs[p][k]);
        assert vs[k] in vs;
        VdevTurnReady(t, p, vs, k);
        var _ := Trigger(n);
        k := k + 1;
      }
      assert vs[..k] == vs;
    }

    /** One round of the driver's loop. */
    method PsocTurn(p: nat)
      requires Valid() && p in psocs && !Active(nodes, Psoc(p))
      requires forall m :: Above(Psoc(p), m) ==> !Active(nodes, m)
      modifies `nodes
      ensures Valid() && nodes.Keys == old(nodes.Keys)
      ensures nodes == FiredPsoc(old(nodes), p, vdevs[p])
    {
      var triggered := Trigger(Psoc(p));
      if !triggered {
        TriggerVdevs(p);
        FiredVdevsAt(old(nodes), p, vdevs[p]);
      }
    }

    lemma ListsHold(i: nat)
      requires Valid() && i <= |psocs|
      ensures Lists(nodes, psocs[..i], vdevs)
    {
    }

    lemma TreeLoopIsWoken(t: Tree)
      requires Valid() && t.Keys == nodes.Keys && !Queued(t, Driver)
      requires Lists(t, psocs, vdevs) && nodes == FiredTree(t, psocs, vdevs)
      ensures nodes == Woken(t, Driver)
    {
      FiredTreeAt(t, psocs, vdevs);
      forall m | m in t ensures nodes[m] == Woken(t, Driver)[m] {
        assert m.Psoc? ==> m.p in psocs;
      }
    }

    /** The nested loop of a driver stop. */
    method TriggerTree()
      requires Valid() && Lists(nodes, psocs, vdevs) && forall m :: !Active(nodes, m)
      modifies `nodes
      ensures Valid() && nodes.Keys == old(nodes.Keys) && nodes == FiredTree(old(nodes), psocs, vdevs)
    {
      ghost var t := nodes;
      var i := 0;
      while i < |psocs|
        invariant 0 <= i <= |psocs| && Valid() && nodes.Keys == t.Keys
        invariant Lists(t, psocs[..i], vdevs)
        invariant nodes == FiredTree(t, psocs[..i], vdevs)
      {
        assert psocs[i] in psocs;
        ListsHold(i + 1);
        TurnReady(t, psocs, i, vdevs);
        PsocTurn(psocs[i]);
        i := i + 1;
      }
      assert psocs[..i] == psocs;
    }

    method DriverTriggerTrans()
      requires Valid() && forall m :: !Active(nodes, m)
      modifies `nodes
      ensures Valid() && nodes == Woken(old(nodes), Driver)
    {
      var triggered := Trigger(Driver);
      if !triggered {
        ListsHold(|psocs|);
        assert psocs[..|psocs|] == psocs;
        TriggerTree();
        TreeLoopIsWoken(old(nodes));
      }
    }

    method DriverTransStop()
      requires Valid() && Inv(nodes) && Active(nodes, Driver)
      modifies `nodes
      ensures Valid() && nodes == Apply(old(nodes), TransStop(Driver))
    {
      OnlyDriverActive(nodes);
      nodes := WithTrans(nodes, Driver, Stopped(nodes[Driver].trans));
      assert forall m :: Active(nodes, m) ==> Active(old(nodes), m) && m != Driver;
      DriverTriggerTrans();
    }

    lemma VdevLoopIsWoken(t: Tree, p: nat)
      requires Valid() && t.Keys == nodes.Keys && p in psocs
      requires !Queued(t, Driver) && !Queued(t, Psoc(p))
      ensures FiredVdevs(t, p, vdevs[p]) == Woken(t, Psoc(p))
    {
      FiredVdevsAt(t, p, vdevs[p]);
    }

    method PsocTransStop(p: nat)
      requires Valid() && Inv(nodes) && Active(nodes, Psoc(p))
      modifies `nodes
      ensures Valid() && nodes == Apply(old(nodes), TransStop(Psoc(p)))
    {
      assert forall m :: Above(Psoc(p), m) ==> !Active(nodes, m);
      nodes := WithTrans(nodes, Psoc(p), Stopped(nodes[Psoc(p)].trans));
      ghost var t := nodes;
      PsocWoken(t, p);
      var handled := TriggerChecked(Driver);
      if handled {
        return;
      }
      var triggered := Trigger(Psoc(p));
      if triggered {
        return;
      }
      VdevLoopIsWoken(t, p);
      TriggerVdevs(p);
    }

    method VdevTransStop(p: nat, v: nat)
      requires Valid() && Active(nodes, Vdev(p, v))
      modifies `nodes
      ensures Valid() && nodes == Apply(old(nodes), TransStop(Vdev(p, v)))
    {
      var n := Vdev(p, v);
      nodes := WithTrans(nodes, n, Stopped(nodes[n].trans));
      VdevWoken(nodes, p, v);
      var handled := TriggerChecked(Driver);
      if handled {
        return;
      }
      handled := TriggerChecked(Psoc(p));
      if handled {
        return;
      }
      var _ := Trigger(n);
    }

    // ----- operations -----

    method OpStart(n: NodeId, env: Env) returns (s: Status)
      requires Valid() && n in nodes
      modifies `nodes
      ensures Valid() && nodes == Apply(old(nodes), DscModel.OpStart(n, env))
      ensures s == if Unobstructed(old(nodes), n, env) then Success
                   else if Barred(old(nodes), n, env) then Invalid
                   else Again
      ensures nodes[n].ops == old(nodes)[n].ops + if s == Success then 1 else 0
    {
      ShapeIsWellFormed(nodes, psocs, vdevs);
      Answers(nodes, n, env);
      s := CanTrans(n, env);
      if s == Success {
        nodes := nodes[n := nodes[n].(ops := nodes[n].ops + 1)];
      }
    }

    method OpStop(n: NodeId)
      requires Valid() && n in nodes && nodes[n].ops > 0
      modifies `nodes
      ensures Valid() && nodes == Apply(old(nodes), DscModel.OpStop(n))
      ensures nodes[n].ops == old(nodes)[n].ops - 1 && (nodes[n].ops == 0 ==> nodes[n].opsEvent)
    {
      nodes := nodes[n := nodes[n].(ops := nodes[n].ops - 1)];
      if nodes[n].ops == 0 {
        nodes := nodes[n := nodes[n].(opsEvent := true)];
      }
    }

    /** The locked section of waiting for operations: must the caller block? */
    method OpsCheck(n: NodeId) returns (wait: bool)
      requires Valid() && n in nodes
      modifies `nodes
      ensures Valid() && (wait <==> old(nodes)[n].ops > 0)
      ensures nodes == Apply(old(nodes), DscModel.OpsCheck(n))
      ensures nodes[n].opsEvent == (old(nodes)[n].opsEvent && !wait) && nodes[n].ops == old(nodes)[n].ops
      ensures !wait ==> nodes == old(nodes)
    {
      wait := nodes[n].ops > 0;
      if wait {
        nodes := nodes[n := nodes[n].(opsEvent := false)];
      }
    }

    // ----- creating and destroying contexts -----

    method CreatePsoc() returns (p: nat)
      requires Valid()
      modifies this
      ensures Valid() && Legal(old(nodes), Create(Psoc(p)))
      ensures nodes == Apply(old(nodes), Create(Psoc(p))) && psocs == old(psocs) + [p]
    {
      p := if psocs == [] then 0 else psocs[|psocs| - 1] + 1;
      PsocCreated(nodes, psocs, vdevs, p);
      nodes := nodes[Psoc(p) := EMPTY_NODE];
      psocs := psocs + [p];
      vdevs := vdevs[p := []];
    }

    method CreateVdev(p: nat) returns (v: nat)
      requires Valid() && p in psocs
      modifies this
      ensures Valid() && Legal(old(nodes), Create(Vdev(p, v)))
      ensures nodes == Apply(old(nodes), Create(Vdev(p, v))) && vdevs == old(vdevs)[p := old(vdevs)[p] + [v]]
    {
      var vs := vdevs[p];
      v := if vs == [] then 0 else vs[|vs| - 1] + 1;
      VdevCreated(nodes, psocs, vdevs, p, v);
      nodes := nodes[Vdev(p, v) := EMPTY_NODE];
      vdevs := vdevs[p := vs + [v]];
    }

    /** Flush the waiters of `n`: each is aborted, first come first. */
    method Flush(n: NodeId) returns (aborted: seq<Tran>, ghost cs: seq<Call>)
      requires Valid() && n in nodes && Childless(nodes, n)
      modifies `nodes
      ensures Valid() && !Queued(nodes, n) && aborted == old(nodes)[n].trans.queue
      ensures Aborts(old(nodes), cs, n, nodes)
      ensures nodes.Keys == old(nodes.Keys) && nodes[n].ops == old(nodes)[n].ops
      ensures Active(nodes, n) <==> Active(old(nodes), n)
    {
      aborted, cs := [], [];
      while nodes[n].trans.queue != []
        invariant Valid() && nodes.Keys == old(nodes.Keys)
        invariant nodes[n].ops == old(nodes)[n].ops && nodes[n].trans.active == old(nodes)[n].trans.active
        invariant aborted + nodes[n].trans.queue == old(nodes)[n].trans.queue
        invariant Aborts(old(nodes), cs, n, nodes)
        decreases |nodes[n].trans.queue|
      {
        AbortsMore(old(nodes), cs, n, nodes);
        ghost var q := nodes[n].trans.queue;
        assert aborted + q == aborted + [q[0]] + q[1..];
        aborted := aborted + [nodes[n].trans.queue[0]];
        nodes := WithTrans(nodes, n, AbortedOne(nodes[n].trans));
        cs := cs + [Abort(n)];
      }
    }

    method DetachPsoc(p: nat)
      requires Valid() && Legal(nodes, Detach(Psoc(p)))
      modifies this
      ensures Valid() && nodes == Apply(old(nodes), Detach(Psoc(p)))
    {
      PsocDetached(nodes, psocs, vdevs, p);
      nodes := nodes - {Psoc(p)};
      psocs := Without(psocs, p);
      vdevs := vdevs - {p};
    }

    method DetachVdev(p: nat, v: nat)
      requires Valid() && Legal(nodes, Detach(Vdev(p, v)))
      modifies this
      ensures Valid() && nodes == Apply(old(nodes), Detach(Vdev(p, v)))
    {
      VdevDetached(nodes, psocs, vdevs, p, v);
      nodes := nodes - {Vdev(p, v)};
      vdevs := vdevs[p := Without(vdevs[p], v)];
    }

    /** Tear `n` down: abort its waiters, then unlink it. */
    method Destroy(n: NodeId) returns (aborted: seq<Tran>)
      requires Valid() && n in nodes && n != Driver && Childless(nodes, n)
      requires !Active(nodes, n) && nodes[n].ops == 0
      modifies this
      ensures Valid() && nodes == old(nodes) - {n} && aborted == old(nodes)[n].trans.queue
    {
      ghost var cs;
      aborted, cs := Flush(n);
      FlushTouchesOnly(old(nodes), cs, n);
      match n {
        case Psoc(p) => DetachPsoc(p);
        case Vdev(p, v) => DetachVdev(p, v);
      }
    }
  }

  /** The calls `cs`, all of them aborts at `n`, take `t` to `t'`. */
  ghost predicate Aborts(t: Tree, cs: seq<Call>, n: NodeId, t': Tree) {
    && (forall i :: 0 <= i < |cs| ==> cs[i] == Abort(n))
    && LegalRun(t, cs) && t' == Final(t, cs)
  }

  lemma AbortsMore(t: Tree, cs: seq<Call>, n: NodeId, t': Tree)
    requires Aborts(t, cs, n, t') && n in t' && Childless(t, n) && t'.Keys == t.Keys
    ensures Aborts(t, cs + [Abort(n)], n, WithTrans(t', n, AbortedOne(t'[n].trans)))
  {
    RunSnoc(t, cs, Abort(n));
  }

  lemma {:induction false} FlushTouchesOnly(t: Tree, cs: seq<Call>, n: NodeId)
    requires LegalRun(t, cs) && forall i :: 0 <= i < |cs| ==> cs[i] == Abort(n)
    ensures Final(t, cs) - {n} == t - {n}
    decreases |cs|
  {
    if cs == [] {
    } else {
      FlushTouchesOnly(Apply(t, cs[0]), cs[1..], n);
    }
  }
}
