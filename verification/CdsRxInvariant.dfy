/**
 Conservation on the OL-RX path: every step keeps each container, and each indicated packet, in exactly
 one place.
 */
module CdsRxInvariant {
  import opened Basics
  import opened CdsRx
  import opened CdsRxFrames
  import opened Places

  // ----- what is where -----


  function LocalOf(s: State, j: nat): seq<Pkt> {
    if j in s.droppers && s.droppers[j].Freeing? then s.droppers[j].local else []
  }

  function FilledBy(s: State, i: nat): seq<nat> {
    if i in s.producers && s.producers[i].Filled? then [s.producers[i].slot] else []
  }

  ghost function SlotsIn(s: State): SlotPlace -> seq<nat> {
    (pl: SlotPlace) =>
      match pl
      case Free => s.free
      case AtProducer(i) => FilledBy(s, i)
      case InQueue => SlotsOf(s.queue)
      case AtRx => SlotsOf(HeldBy(s.rx))
      case AtDropper(j) => SlotsOf(LocalOf(s, j))
  }

  ghost function MsgsIn(s: State): MsgPlace -> seq<nat> {
    (pl: MsgPlace) =>
      match pl
      case MsgQueued => MsgsOf(s.queue)
      case MsgAtRx => if s.rx.Holding? then [s.rx.pkt.msg] else []
      case MsgAtDropper(j) => MsgsOf(LocalOf(s, j))
      case Delivered => MsgsOf(s.delivered)
      case Dropped => MsgsOf(s.dropped)
  }

  /** Every container of the pool is in exactly one of: free list, a producer's hands, the queue,
      the rx thread's hands, a dropper's local list. */
  ghost predicate SlotsConserved(s: State) {
    Partitioned(SlotsIn(s), s.slotAt)
  }

  /** Every indicated packet is in exactly one of: queue, rx thread's hands, a dropper's list,
      delivered, dropped. */
  ghost predicate MsgsConserved(s: State) {
    && Partitioned(MsgsIn(s), s.msgAt)
    && (forall m: nat :: m in s.msgAt <==> m < s.indicated)
  }

  // ----- containers -----

  /** The rx thread takes the first packet of the queue. */
  ghost predicate TakesFirst(s: State, s': State, p: Pkt) {
    && s'.free == s.free && s'.producers == s.producers && s'.droppers == s.droppers
    && s'.delivered == s.delivered && s'.dropped == s.dropped && s'.indicated == s.indicated
    && HeldBy(s.rx) == [] && s.queue == [p] + s'.queue && s'.rx == Holding(p)
    && s'.slotAt == s.slotAt[p.slot := AtRx] && s'.msgAt == s.msgAt[p.msg := MsgAtRx]
  }

  lemma TakeTakes(s: State)
    requires HeldBy(s.rx) == [] && s.queue != []
    ensures TakesFirst(s, TakeNext(s), s.queue[0])
  {
  }

  lemma TakesFirstKeepsSlots(s: State, s': State, p: Pkt)
    requires SlotsConserved(s) && TakesFirst(s, s', p)
    ensures SlotsConserved(s') && s'.slotAt.Keys == s.slotAt.Keys
  {
    var f, f' := SlotsIn(s), SlotsIn(s');
    KeysCons(p, s'.queue, BySlot);
    assert f(InQueue) == [p.slot] + f'(InQueue) && p.slot in f(InQueue);
    assert f(AtRx) == [] && f'(AtRx) == [p.slot];
    forall pl | pl != InQueue && pl != AtRx ensures f'(pl) == f(pl) {
      SamePlace(s, s', pl);
    }
    Moved(f, f', s.slotAt, p.slot, InQueue, AtRx);
  }

  /** A place whose owner did nothing holds what it held. */
  lemma SamePlace(s: State, s': State, pl: SlotPlace)
    requires pl.Free? ==> s'.free == s.free
    requires pl.AtProducer? ==> FilledBy(s', pl.i) == FilledBy(s, pl.i)
    requires pl.InQueue? ==> s'.queue == s.queue
    requires pl.AtRx? ==> HeldBy(s'.rx) == HeldBy(s.rx)
    requires pl.AtDropper? ==> LocalOf(s', pl.j) == LocalOf(s, pl.j)
    ensures SlotsIn(s')(pl) == SlotsIn(s)(pl)
  {
  }

  lemma TakeKeepsSlots(s: State)
    requires SlotsConserved(s) && HeldBy(s.rx) == []
    ensures SlotsConserved(TakeNext(s)) && TakeNext(s).slotAt.Keys == s.slotAt.Keys
  {
    if s.queue == [] {
      SlotsFrame(s, TakeNext(s));
    } else {
      TakeTakes(s);
      TakesFirstKeepsSlots(s, TakeNext(s), s.queue[0]);
    }
  }

  /** What producer `i` holds changes, and nobody else's hands do. */
  ghost predicate OnlyProducer(s: State, s': State, i: nat) {
    && s'.rx == s.rx && s'.droppers == s.droppers
    && (forall k :: k != i ==> FilledBy(s', k) == FilledBy(s, k))
  }

  lemma AllocKeepsSlots(s: State, i: nat, sta: nat)
    requires SlotsConserved(s) && Enabled(s, Alloc(i, sta))
    ensures SlotsConserved(Next(s, Alloc(i, sta))) && Next(s, Alloc(i, sta)).slotAt.Keys == s.slotAt.Keys
  {
    var s', x := Next(s, Alloc(i, sta)), s.free[0];
    assert s.free == [x] + s'.free;
    FillKeepsSlots(s, s', i, x);
  }

  lemma FillKeepsSlots(s: State, s': State, i: nat, x: nat)
    requires SlotsConserved(s) && OnlyProducer(s, s', i) && s'.queue == s.queue
    requires s.free == [x] + s'.free && FilledBy(s, i) == [] && FilledBy(s', i) == [x]
    requires s'.slotAt == s.slotAt[x := AtProducer(i)]
    ensures SlotsConserved(s') && s'.slotAt.Keys == s.slotAt.Keys
  {
    var f, f' := SlotsIn(s), SlotsIn(s');
    assert f(Free) == s.free && f'(Free) == s'.free && x in f(Free);
    assert f(AtProducer(i)) == [] && f'(AtProducer(i)) == [] + [x];
    forall pl | pl != Free && pl != AtProducer(i) ensures f'(pl) == f(pl) {
      SamePlace(s, s', pl);
    }
    Moved(f, f', s.slotAt, x, Free, AtProducer(i));
  }

  lemma AddKeepsSlots(s: State, i: nat)
    requires SlotsConserved(s) && Enabled(s, Add(i))
    ensures SlotsConserved(Next(s, Add(i))) && Next(s, Add(i)).slotAt.Keys == s.slotAt.Keys
  {
    var s', x := Next(s, Add(i)), s.producers[i].slot;
    QueueKeepsSlots(s, s', i, x);
  }

  lemma QueueKeepsSlots(s: State, s': State, i: nat, x: nat)
    requires SlotsConserved(s) && OnlyProducer(s, s', i) && s'.free == s.free
    requires SlotsOf(s'.queue) == SlotsOf(s.queue) + [x] && FilledBy(s, i) == [x] && FilledBy(s', i) == []
    requires s'.slotAt == s.slotAt[x := InQueue]
    ensures SlotsConserved(s') && s'.slotAt.Keys == s.slotAt.Keys
  {
    var f, f' := SlotsIn(s), SlotsIn(s');
    assert f(AtProducer(i)) == [x] + f'(AtProducer(i)) && x in f(AtProducer(i));
    forall pl | pl != AtProducer(i) && pl != InQueue ensures f'(pl) == f(pl) {
      SamePlace(s, s', pl);
    }
    Moved(f, f', s.slotAt, x, AtProducer(i), InQueue);
  }

  lemma RxFreeKeepsSlots(s: State)
    requires SlotsConserved(s) && Enabled(s, RxFree)
    ensures SlotsConserved(Next(s, RxFree)) && Next(s, RxFree).slotAt.Keys == s.slotAt.Keys
  {
    GiveBackKeepsSlots(s, Next(s, RxFree), s.rx.pkt.slot);
  }

  /** The rx thread gives its container back. */
  lemma GiveBackKeepsSlots(s: State, s': State, x: nat)
    requires SlotsConserved(s) && SlotsOf(HeldBy(s.rx)) == [x] && HeldBy(s'.rx) == []
    requires s'.queue == s.queue && s'.producers == s.producers && s'.droppers == s.droppers
    requires s'.free == s.free + [x] && s'.slotAt == s.slotAt[x := Free]
    ensures SlotsConserved(s') && s'.slotAt.Keys == s.slotAt.Keys
  {
    var f, f' := SlotsIn(s), SlotsIn(s');
    assert f(AtRx) == [x] + f'(AtRx) && x in f(AtRx);
    forall pl | pl != AtRx && pl != Free ensures f'(pl) == f(pl) {
      SamePlace(s, s', pl);
    }
    Moved(f, f', s.slotAt, x, AtRx, Free);
  }

  /** A step that leaves every container where it is. */
  lemma SlotsFrame(s: State, s': State)
    requires SlotsConserved(s)
    requires s'.free == s.free && s'.queue == s.queue && HeldBy(s'.rx) == HeldBy(s.rx) && s'.slotAt == s.slotAt
    requires forall i :: FilledBy(s', i) == FilledBy(s, i)
    requires forall j :: LocalOf(s', j) == LocalOf(s, j)
    ensures SlotsConserved(s')
  {
    forall pl ensures SlotsIn(s')(pl) == SlotsIn(s)(pl) {
      SamePlace(s, s', pl);
    }
    Unmoved(SlotsIn(s), SlotsIn(s'), s.slotAt);
  }

  lemma KeysCons(p: Pkt, q: seq<Pkt>, key: Key)
    ensures KeysOf([p] + q, key) == [KeyOf(p, key)] + KeysOf(q, key)
  {
  }

  lemma KeysSnoc(q: seq<Pkt>, p: Pkt, key: Key)
    ensures KeysOf(q + [p], key) == KeysOf(q, key) + [KeyOf(p, key)]
  {
  }

  /** Dropper `j` frees the first packet of its list. */
  ghost predicate DropsFirst(s: State, s': State, j: nat, p: Pkt) {
    && s'.queue == s.queue && s'.rx == s.rx && s'.producers == s.producers && s'.delivered == s.delivered
    && s'.indicated == s.indicated
    && LocalOf(s, j) == [p] + LocalOf(s', j)
    && (forall k :: k != j ==> LocalOf(s', k) == LocalOf(s, k))
    && s'.free == s.free + [p.slot] && s'.dropped == s.dropped + [p]
    && s'.slotAt == s.slotAt[p.slot := Free] && s'.msgAt == s.msgAt[p.msg := Dropped]
  }

  lemma DropFreeDrops(s: State, j: nat)
    requires Enabled(s, DropFree(j)) && s.droppers[j].local != []
    ensures DropsFirst(s, Next(s, DropFree(j)), j, s.droppers[j].local[0])
  {
  }

  lemma DropFreeKeepsSlots(s: State, s': State, j: nat, p: Pkt)
    requires SlotsConserved(s) && DropsFirst(s, s', j, p)
    ensures SlotsConserved(s') && s'.slotAt.Keys == s.slotAt.Keys
  {
    var f, f' := SlotsIn(s), SlotsIn(s');
    KeysCons(p, LocalOf(s', j), BySlot);
    assert f(AtDropper(j)) == [p.slot] + f'(AtDropper(j)) && p.slot in f(AtDropper(j));
    forall pl | pl != AtDropper(j) && pl != Free ensures f'(pl) == f(pl) {
      SamePlace(s, s', pl);
    }
    Moved(f, f', s.slotAt, p.slot, AtDropper(j), Free);
  }

  /** A sweep splits the queue into two disjoint, complete halves. */
  lemma {:induction false} SweepSplits(q: seq<Pkt>, target: Target, key: Key)
    requires NoDup(KeysOf(q, key))
    ensures Splits(KeysOf(q, key), KeysOf(Sifted(q, target, true), key), KeysOf(Sifted(q, target, false), key))
  {
    if q == [] {
    } else {
      var tail, x := q[1..], KeyOf(q[0], key);
      var xs, rest := KeysOf(Sifted(tail, target, true), key), KeysOf(Sifted(tail, target, false), key);
      SiftedCons(q, target, true, key);
      SiftedCons(q, target, false, key);
      assert q == [q[0]] + tail;
      KeysCons(q[0], tail, key);
      NoDupCons(x, KeysOf(tail, key));
      SweepSplits(tail, target, key);
      if Hits(target, q[0]) {
        SplitsLeft(x, KeysOf(tail, key), xs, rest);
      } else {
        SplitsRight(x, KeysOf(tail, key), xs, rest);
      }
    }
  }

  lemma SiftedCons(q: seq<Pkt>, target: Target, hit: bool, key: Key)
    requires q != []
    ensures KeysOf(Sifted(q, target, hit), key) ==
            (if Hits(target, q[0]) == hit then [KeyOf(q[0], key)] else []) + KeysOf(Sifted(q[1..], target, hit), key)
  {
    var rest := Sifted(q[1..], target, hit);
    if Hits(target, q[0]) == hit {
      KeysCons(q[0], rest, key);
    } else {
      assert [] + rest == rest;
      assert [] + KeysOf(rest, key) == KeysOf(rest, key);
    }
  }

  lemma CollectKeepsSlots(s: State, j: nat, target: Target)
    requires SlotsConserved(s) && j !in s.droppers
    ensures SlotsConserved(Collected(s, j, target)) && Collected(s, j, target).slotAt.Keys == s.slotAt.Keys
  {
    var s' := Collected(s, j, target);
    var f, f', xs := SlotsIn(s), SlotsIn(s'), SlotsOf(Sifted(s.queue, target, true));
    assert f(InQueue) == SlotsOf(s.queue) && NoDup(f(InQueue));
    SweepSplits(s.queue, target, BySlot);
    assert f(AtDropper(j)) == [] && f'(AtDropper(j)) == xs;
    assert f'(InQueue) == SlotsOf(Sifted(s.queue, target, false));
    forall pl | pl != InQueue && pl != AtDropper(j) ensures f'(pl) == f(pl) {
      SamePlace(s, s', pl);
    }
    Swept(f, f', s.slotAt, s'.slotAt, xs, InQueue, AtDropper(j));
  }

  lemma RxIdleKeepsSlots(s: State, a: Step)
    requires SlotsConserved(s) && Enabled(s, a)
    requires a.RxWake? || a.RxClear? || a.RxCheck? || a.RxCall? || a.RxReturn? || a.CloseFlag? || a.ClosePost?
    ensures SlotsConserved(Next(s, a)) && Next(s, a).slotAt == s.slotAt
  {
    var s' := Next(s, a);
    assert s'.producers == s.producers && s'.droppers == s.droppers;
    SlotsFrame(s, s');
  }

  lemma PostKeepsSlots(s: State, i: nat)
    requires SlotsConserved(s) && Enabled(s, Post(i))
    ensures SlotsConserved(Next(s, Post(i)))
  {
    SlotsFrame(s, Next(s, Post(i)));
  }

  /** A dropper that has nothing (left) to free moves on. */
  lemma DropIdleKeepsSlots(s: State, j: nat, d: Dropper)
    requires SlotsConserved(s) && LocalOf(s, j) == [] && !d.Freeing?
    ensures SlotsConserved(s.(droppers := s.droppers[j := d]))
  {
    SlotsFrame(s, s.(droppers := s.droppers[j := d]));
  }

  lemma StepKeepsSlots(s: State, a: Step)
    requires SlotsConserved(s) && Enabled(s, a)
    ensures SlotsConserved(Next(s, a)) && Next(s, a).slotAt.Keys == s.slotAt.Keys
  {
    match a {
      case Alloc(i, sta) => AllocKeepsSlots(s, i, sta);
      case Add(i) => AddKeepsSlots(s, i);
      case RxPop => TakeKeepsSlots(s);
      case RxRelock =>
        SlotsFrame(s, s.(active := None));
        TakeKeepsSlots(s.(active := None));
      case RxFree => RxFreeKeepsSlots(s);
      case DropBegin(j, target) =>
        if s.queue == [] {
          DropIdleKeepsSlots(s, j, Left(target, s.indicated, Early));
        } else {
          CollectKeepsSlots(s, j, target);
        }
      case DropFree(j) =>
        var d := s.droppers[j];
        if d.local == [] {
          DropIdleKeepsSlots(s, j, Polling(d.target, 0, d.cut));
        } else {
          DropFreeDrops(s, j);
          DropFreeKeepsSlots(s, Next(s, a), j, d.local[0]);
        }
      case Post(i) => PostKeepsSlots(s, i);
      case DropPoll(j) => DropIdleKeepsSlots(s, j, Polled(s.droppers[j], s.active));
      case _ => RxIdleKeepsSlots(s, a);
    }
  }

  // ----- packets -----

  lemma MsgsFrame(s: State, s': State)
    requires MsgsConserved(s)
    requires s'.queue == s.queue && s'.delivered == s.delivered && s'.dropped == s.dropped
    requires s'.indicated == s.indicated && s'.msgAt == s.msgAt
    requires MsgsIn(s')(MsgAtRx) == MsgsIn(s)(MsgAtRx)
    requires forall j :: LocalOf(s', j) == LocalOf(s, j)
    ensures MsgsConserved(s')
  {
    forall pl ensures MsgsIn(s')(pl) == MsgsIn(s)(pl) {
      SameMsgPlace(s, s', pl);
    }
    Unmoved(MsgsIn(s), MsgsIn(s'), s.msgAt);
  }

  lemma SameMsgPlace(s: State, s': State, pl: MsgPlace)
    requires pl.MsgQueued? ==> s'.queue == s.queue
    requires pl.MsgAtRx? ==> MsgsIn(s')(MsgAtRx) == MsgsIn(s)(MsgAtRx)
    requires pl.MsgAtDropper? ==> LocalOf(s', pl.j) == LocalOf(s, pl.j)
    requires pl.Delivered? ==> s'.delivered == s.delivered
    requires pl.Dropped? ==> s'.dropped == s.dropped
    ensures MsgsIn(s')(pl) == MsgsIn(s)(pl)
  {
  }

  lemma TakesFirstKeepsMsgs(s: State, s': State, p: Pkt)
    requires MsgsConserved(s) && TakesFirst(s, s', p)
    ensures MsgsConserved(s')
  {
    var f, f' := MsgsIn(s), MsgsIn(s');
    KeysCons(p, s'.queue, ByMsg);
    assert f(MsgQueued) == [p.msg] + f'(MsgQueued) && p.msg in f(MsgQueued);
    assert f(MsgAtRx) == [] && f'(MsgAtRx) == [p.msg];
    assert p.msg in s.msgAt;
    forall pl | pl != MsgQueued && pl != MsgAtRx ensures f'(pl) == f(pl) {
      SameMsgPlace(s, s', pl);
    }
    Moved(f, f', s.msgAt, p.msg, MsgQueued, MsgAtRx);
  }

  lemma TakeKeepsMsgs(s: State)
    requires MsgsConserved(s) && HeldBy(s.rx) == []
    ensures MsgsConserved(TakeNext(s))
  {
    if s.queue == [] {
      MsgsFrame(s, TakeNext(s));
    } else {
      TakeTakes(s);
      TakesFirstKeepsMsgs(s, TakeNext(s), s.queue[0]);
    }
  }

  lemma AddKeepsMsgs(s: State, i: nat)
    requires MsgsConserved(s) && Enabled(s, Add(i))
    ensures MsgsConserved(Next(s, Add(i)))
  {
    var s' := Next(s, Add(i));
    var f, f' := MsgsIn(s), MsgsIn(s');
    assert f'(MsgQueued) == f(MsgQueued) + [s.indicated];
    forall pl | pl != MsgQueued ensures f'(pl) == f(pl) {
      SameMsgPlace(s, s', pl);
    }
    Entered(f, f', s.msgAt, s.indicated, MsgQueued);
  }

  lemma CallKeepsMsgs(s: State)
    requires MsgsConserved(s) && Enabled(s, RxCall)
    ensures MsgsConserved(Next(s, RxCall))
  {
    HandOverKeepsMsgs(s, Next(s, RxCall), s.rx.pkt);
  }

  /** The packet in hand is handed to its callback. */
  lemma HandOverKeepsMsgs(s: State, s': State, p: Pkt)
    requires MsgsConserved(s) && s.rx == Holding(p) && !s'.rx.Holding?
    requires s'.queue == s.queue && s'.droppers == s.droppers && s'.dropped == s.dropped && s'.indicated == s.indicated
    requires s'.delivered == s.delivered + [p] && s'.msgAt == s.msgAt[p.msg := Delivered]
    ensures MsgsConserved(s')
  {
    var f, f', x := MsgsIn(s), MsgsIn(s'), p.msg;
    assert f(MsgAtRx) == [x] + f'(MsgAtRx) && x in f(MsgAtRx);
    assert x in s.msgAt;
    KeysSnoc(s.delivered, p, ByMsg);
    assert f'(Delivered) == f(Delivered) + [x];
    forall pl | pl != MsgAtRx && pl != Delivered ensures f'(pl) == f(pl) {
      SameMsgPlace(s, s', pl);
    }
    Moved(f, f', s.msgAt, x, MsgAtRx, Delivered);
  }

  lemma DropFreeKeepsMsgs(s: State, s': State, j: nat, p: Pkt)
    requires MsgsConserved(s) && DropsFirst(s, s', j, p)
    ensures MsgsConserved(s')
  {
    var f, f' := MsgsIn(s), MsgsIn(s');
    KeysCons(p, LocalOf(s', j), ByMsg);
    KeysSnoc(s.dropped, p, ByMsg);
    assert f(MsgAtDropper(j)) == [p.msg] + f'(MsgAtDropper(j)) && p.msg in f(MsgAtDropper(j));
    assert p.msg in s.msgAt;
    forall pl | pl != MsgAtDropper(j) && pl != Dropped ensures f'(pl) == f(pl) {
      SameMsgPlace(s, s', pl);
    }
    Moved(f, f', s.msgAt, p.msg, MsgAtDropper(j), Dropped);
  }

  lemma CollectKeepsMsgs(s: State, j: nat, target: Target)
    requires MsgsConserved(s) && j !in s.droppers
    ensures MsgsConserved(Collected(s, j, target))
  {
    var s' := Collected(s, j, target);
    var f, f', xs := MsgsIn(s), MsgsIn(s'), MsgsOf(Sifted(s.queue, target, true));
    assert f(MsgQueued) == MsgsOf(s.queue) && NoDup(f(MsgQueued));
    SweepSplits(s.queue, target, ByMsg);
    assert f(MsgAtDropper(j)) == [] && f'(MsgAtDropper(j)) == xs;
    assert f'(MsgQueued) == MsgsOf(Sifted(s.queue, target, false));
    forall pl | pl != MsgQueued && pl != MsgAtDropper(j) ensures f'(pl) == f(pl) {
      SameMsgPlace(s, s', pl);
    }
    Swept(f, f', s.msgAt, s'.msgAt, xs, MsgQueued, MsgAtDropper(j));
  }

  lemma RxIdleKeepsMsgs(s: State, a: Step)
    requires MsgsConserved(s) && Enabled(s, a)
    requires a.Alloc? || a.Post? || CloseStep(a) || a.RxWake? || a.RxClear? || a.RxCheck? || a.RxReturn? || a.RxFree?
    ensures MsgsConserved(Next(s, a))
  {
    var s' := Next(s, a);
    assert s'.droppers == s.droppers;
    MsgsFrame(s, s');
  }

  lemma DropIdleKeepsMsgs(s: State, j: nat, d: Dropper)
    requires MsgsConserved(s) && LocalOf(s, j) == [] && !d.Freeing?
    ensures MsgsConserved(s.(droppers := s.droppers[j := d]))
  {
    MsgsFrame(s, s.(droppers := s.droppers[j := d]));
  }

  lemma StepKeepsMsgs(s: State, a: Step)
    requires MsgsConserved(s) && Enabled(s, a)
    ensures MsgsConserved(Next(s, a))
  {
    match a {
      case Add(i) => AddKeepsMsgs(s, i);
      case RxPop => TakeKeepsMsgs(s);
      case RxRelock =>
        MsgsFrame(s, s.(active := None));
        TakeKeepsMsgs(s.(active := None));
      case RxCall => CallKeepsMsgs(s);
      case DropBegin(j, target) =>
        if s.queue == [] {
          DropIdleKeepsMsgs(s, j, Left(target, s.indicated, Early));
        } else {
          CollectKeepsMsgs(s, j, target);
        }
      case DropFree(j) =>
        var d := s.droppers[j];
        if d.local == [] {
          DropIdleKeepsMsgs(s, j, Polling(d.target, 0, d.cut));
        } else {
          DropFreeDrops(s, j);
          DropFreeKeepsMsgs(s, Next(s, a), j, d.local[0]);
        }
      case DropPoll(j) => DropIdleKeepsMsgs(s, j, Polled(s.droppers[j], s.active));
      case _ => RxIdleKeepsMsgs(s, a);
    }
  }
}
