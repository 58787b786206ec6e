/**
 The lock sections and loops of `cds_sched.c` on the shared scheduler context, each proved to take the
 shared state through the corresponding step, or run of steps, of CdsRx.
 */
module CdsSched {
  import opened Basics
  import opened CdsRx
  import opened CdsRxFrames
  import opened CdsRxInvariant
  import opened CdsRxProgress

  lemma SiftedNext(q: seq<Pkt>, i: nat, target: Target, hit: bool, sofar: seq<Pkt>)
    requires i < |q|
    ensures sofar + Sifted(q[i..], target, hit) ==
            (if Hits(target, q[i]) == hit then sofar + [q[i]] else sofar) + Sifted(q[i + 1..], target, hit)
  {
    assert q[i..][0] == q[i] && q[i..][1..] == q[i + 1..];
  }

  /** The sweep of a drop: what is meant, and what stays. */
  method Sweep(q: seq<Pkt>, target: Target) returns (local: seq<Pkt>, kept: seq<Pkt>)
    ensures local == Sifted(q, target, true) && kept == Sifted(q, target, false)
  {
    local, kept := [], [];
    var i := 0;
    while i < |q|
      invariant 0 <= i <= |q|
      invariant local + Sifted(q[i..], target, true) == Sifted(q, target, true)
      invariant kept + Sifted(q[i..], target, false) == Sifted(q, target, false)
    {
      SiftedNext(q, i, target, true, local);
      SiftedNext(q, i, target, false, kept);
      if Hits(target, q[i]) {
        local := local + [q[i]];
      } else {
        kept := kept + [q[i]];
      }
      i := i + 1;
    }
  }

  class SchedContext {
    var free: seq<nat>
    var queue: seq<Pkt>
    var post: bool
    var shutdown: bool
    var active: Option<nat>
    /** Number of packets indicated so far; stamps the next one. */
    var indicated: nat

    /** This context holds the shared part of `s`. */
    ghost predicate Matches(s: State)
      reads this
    {
      free == s.free && queue == s.queue && post == s.post && shutdown == s.shutdown
      && active == s.active && indicated == s.indicated
    }

    /** Open with `n` containers. Allocation of container `failAt` fails, if there is one; then all
        containers obtained so far are given back. */
    constructor (n: nat, failAt: Option<nat>)
      ensures (failAt.None? || failAt.value >= n) ==> Matches(Opened(seq(n, i => i)))
      ensures failAt.Some? && failAt.value < n ==> Matches(Opened([]))
    {
      free, queue, post, shutdown, active, indicated := [], [], false, false, None, 0;
      new;
      var i := 0;
      while i < n && failAt != Some(i)
        invariant 0 <= i <= n && (failAt.Some? && failAt.value < n ==> i <= failAt.value)
        invariant free == seq(i, k => k)
        invariant queue == [] && !post && !shutdown && active.None? && indicated == 0
      {
        free := free + [i];
        i := i + 1;
      }
      if i < n {
        while free != []
          invariant queue == [] && !post && !shutdown && active.None? && indicated == 0
          decreases |free|
        {
          free := free[1..];
        }
      }
    }

    method AllocPkt(ghost s: State, ghost i: nat, ghost sta: nat) returns (slot: Option<nat>)
      requires Matches(s) && i !in s.producers
      modifies `free
      ensures slot.None? <==> s.free == []
      ensures slot.None? ==> Matches(s)
      ensures slot.Some? ==>
                && Matches(Next(s, Alloc(i, sta)))
                && Next(s, Alloc(i, sta)).producers[i] == Filled(slot.value, sta)
    {
      if free == [] {
        return None;
      }
      slot := Some(free[0]);
      free := free[1..];
    }

    method FreePkt(p: Pkt)
      modifies `free
      ensures free == old(free) + [p.slot]
      ensures forall s: State :: old(Matches(s)) ==> Matches(Released(s, p))
    {
      free := free + [p.slot];
    }

    /** An indication without interference: queue the container under the lock, then set the bit. */
    method Indicate(ghost s: State, ghost i: nat, slot: nat, sta: nat)
      requires Matches(s) && i in s.producers && s.producers[i] == Filled(slot, sta)
      modifies `queue, `indicated, `post
      ensures Run(s, [Add(i), Post(i)]) && Matches(End(s, [Add(i), Post(i)]))
    {
      queue := queue + [Pkt(slot, sta, indicated)];
      indicated := indicated + 1;
      assert Matches(Next(s, Add(i)));
      post := true;
      RunPair(s, Add(i), Post(i));
    }

    /** The locked loop head of `cds_rx_from_queue`. */
    method RxTake(ghost s: State) returns (pkt: Option<Pkt>)
      requires Matches(s)
      modifies `queue, `active
      ensures Matches(TakeNext(s))
      ensures pkt == if s.queue == [] then None else Some(s.queue[0])
    {
      if queue == [] {
        return None;
      }
      pkt := Some(queue[0]);
      queue := queue[1..];
      active := Some(pkt.value.sta);
    }

    /** The end of a turn: the lock is taken again, the active mark cleared, the next packet taken. */
    method Relock(ghost s: State) returns (pkt: Option<Pkt>)
      requires Matches(s) && Enabled(s, RxRelock)
      modifies `queue, `active
      ensures Matches(Next(s, RxRelock))
      ensures pkt == if s.queue == [] then None else Some(s.queue[0])
    {
      active := None;
      pkt := RxTake(s.(active := None));
    }

    /** Where the rx thread stands after `steps`: it has handed out `out`, and holds `pkt` or blocks. */
    ghost predicate Stands(s: State, steps: seq<Step>, out: seq<Pkt>, pkt: Option<Pkt>)
      reads this
    {
      && Serves(s, steps, out) && Matches(End(s, steps))
      && End(s, steps).rx == if pkt.Some? then Holding(pkt.value) else Waiting
    }

    /** One turn of the loop: call back for the packet in hand, free its container, look again. */
    method ServeOne(ghost s: State, ghost steps: seq<Step>, ghost out: seq<Pkt>, pkt: Pkt) returns (next: Option<Pkt>)
      requires Stands(s, steps, out, Some(pkt))
      modifies `free, `queue, `active
      ensures Stands(s, steps + TURN, out + [pkt], next)
      ensures next.Some? ==> |queue| < |old(queue)|
      ensures |queue| <= |old(queue)|
    {
      ghost var c := End(s, steps);
      TurnEnds(c);
      TurnServes(s, steps, out);
      ghost var c2 := Next(Next(c, RxCall), RxReturn);
      assert Matches(c2.(rx := Relocking));
      FreePkt(pkt);
      next := Relock(Next(c2, RxFree));
    }

    /** The first look at the queue. */
    method FirstLook(ghost s: State) returns (pkt: Option<Pkt>)
      requires Matches(s) && s.rx.Popping?
      modifies `queue, `active
      ensures Stands(s, [RxPop], [], pkt)
    {
      PopServes(s);
      PopLooks(s);
      RunSnoc(s, [], RxPop);
      assert [] + [RxPop] == [RxPop];
      pkt := RxTake(s);
    }

    /** `cds_rx_from_queue` without interference: the packets queued are handed out, in order, and the
        queue is empty when it returns. */
    method RxFromQueue(ghost s: State) returns (out: seq<Pkt>, ghost steps: seq<Step>)
      requires Matches(s) && s.rx.Popping?
      modifies `free, `queue, `active
      ensures out == s.queue && queue == [] && Stands(s, steps, out, None)
    {
      var pkt := FirstLook(s);
      out, steps := [], [RxPop];
      while pkt.Some?
        invariant Stands(s, steps, out, pkt)
        decreases |queue| + if pkt.Some? then 1 else 0
      {
        var next := ServeOne(s, steps, out, pkt.value);
        out, steps, pkt := out + [pkt.value], steps + TURN, next;
      }
      assert out + [] + [] == out;
    }

    /** A round of the rx thread that has woken, without interference: it clears the bit first, leaves if
        asked to, and otherwise empties the queue. */
    method RxRound(ghost s: State) returns (exit: bool, out: seq<Pkt>, ghost steps: seq<Step>)
      requires Matches(s) && s.rx.Woken?
      modifies `free, `queue, `active, `post, `shutdown
      ensures Run(s, steps) && Matches(End(s, steps)) && !post && !shutdown
      ensures exit <==> s.shutdown
      ensures exit ==> End(s, steps).rx.Exited? && out == [] && queue == s.queue
      ensures !exit ==> End(s, steps).rx.Waiting? && out == s.queue && queue == []
      ensures End(s, steps).delivered == s.delivered + out
    {
      post := false;
      ghost var s1 := Next(s, RxClear);
      assert Matches(s1);
      exit := shutdown;
      if exit {
        shutdown := false;
        out, steps := [], [RxClear, RxCheck];
        RunPair(s, RxClear, RxCheck);
        return;
      }
      ghost var s2, rest := Next(s1, RxCheck), [];
      assert Matches(s2) && s2.rx.Popping?;
      out, rest := RxFromQueue(s2);
      RunCons(s1, RxCheck, rest);
      RunCons(s, RxClear, [RxCheck] + rest);
      steps := [RxClear] + ([RxCheck] + rest);
    }

    /** The locked section of a drop: move the packets meant to a local list. */
    method DropCollect(ghost s: State, ghost j: nat, target: Target) returns (early: bool, local: seq<Pkt>)
      requires Matches(s) && j !in s.droppers
      modifies `queue
      ensures early <==> s.queue == []
      ensures Matches(Next(s, DropBegin(j, target)))
      ensures !early ==> Next(s, DropBegin(j, target)).droppers[j] == Freeing(target, local, s.indicated)
    {
      if queue == [] {
        return true, [];
      }
      early := false;
      local, queue := Sweep(queue, target);
    }

    /** Free the local list of a drop, container by container: a run of the dropper's steps. */
    method DropRelease(ghost s: State, ghost j: nat, local: seq<Pkt>)
      requires Matches(s) && j in s.droppers && s.droppers[j].Freeing? && s.droppers[j].local == local
      modifies `free
      ensures Run(s, Frees(j, |local|)) && Matches(End(s, Frees(j, |local|)))
      ensures Freed(s, End(s, Frees(j, |local|)), j)
    {
      var i := 0;
      while i < |local|
        invariant 0 <= i <= |local| && free == old(free) + SlotsOf(local[..i])
      {
        assert local[..i + 1] == local[..i] + [local[i]];
        KeysSnoc(local[..i], local[i], BySlot);
        assert old(free) + SlotsOf(local[..i]) + [local[i].slot] == old(free) + SlotsOf(local[..i + 1]);
        FreePkt(local[i]);
        i := i + 1;
      }
      assert local[..i] == local;
      FreesRun(s, j);
    }
  }

  // ----- the wait for the active station -----

  /** What a waiting dropper comes to when its reads of the active station give `seen`, from read `r` on. */
  function Waited(d: Dropper, seen: nat -> Option<nat>, r: nat): Dropper
    requires d.Polling?
    decreases CLEANUP_TIMEOUT + CLEANUP_DELAY - d.timeout
  {
    var d' := Polled(d, seen(r));
    if d'.Polling? then Waited(d', seen, r + 1) else d'
  }

  /** The polling loop; the active station is read anew in every round. Its result is that of the
      dropper's polling steps, and it gives up only after 22 reads that all found the station. */
  method PollActive(target: Target, cut: nat, seen: nat -> Option<nat>) returns (exit: Exit)
    ensures Left(target, cut, exit) == Waited(Polling(target, 0, cut), seen, 0)
    ensures exit == Clean <==> target.All? || exists r: nat :: r <= 21 && seen(r) != Some(target.sta)
    ensures exit == Clean || exit == TimedOut
  {
    var timeout, r := 0, 0;
    while Polls(Polling(target, timeout, cut), seen(r)) && timeout <= CLEANUP_TIMEOUT
      invariant 0 <= r <= 21 && timeout == r * CLEANUP_DELAY
      invariant forall k: nat :: k < r ==> Polls(Polling(target, 0, cut), seen(k))
      invariant Waited(Polling(target, timeout, cut), seen, r) == Waited(Polling(target, 0, cut), seen, 0)
      decreases 22 - r
    {
      timeout, r := timeout + CLEANUP_DELAY, r + 1;
    }
    exit := if Polls(Polling(target, timeout, cut), seen(r)) then TimedOut else Clean;
    if exit == Clean {
      assert target.All? || (r <= 21 && seen(r) != Some(target.sta));
    } else {
      assert forall k: nat :: k <= 21 ==> Polls(Polling(target, 0, cut), seen(k));
      assert forall k: nat :: k <= 21 ==> seen(k) == Some(target.sta);
    }
  }
}
