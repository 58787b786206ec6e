/**
 The CDS OL-RX path: packet containers from a fixed pool travel from producers through the
 thread queue to the rx thread's callbacks, or are dropped by station. Any number of producers and
 droppers run beside the one rx thread; every lock section and every bit operation is one step.
 */
module CdsRx {
  import opened Basics

  /** A container in use: its slot in the pool, the station, and the number of its indication. */
  datatype Pkt = Pkt(slot: nat, sta: nat, msg: nat)

  /** Where the rx thread is. */
  datatype Rx =
    | Waiting               // blocked until RX_POST is set
    | Woken                 // out of the wait, bit not yet cleared
    | Cleared               // bit cleared, shutdown not yet looked at
    | Popping               // about to take the queue lock
    | Holding(pkt: Pkt)     // popped, callback not yet entered
    | Calling(pkt: Pkt)     // in the callback
    | Returned(pkt: Pkt)    // callback over, container not yet freed
    | Relocking             // container freed, about to take the queue lock again
    | Exited

  /** A producer: has a container, or has queued it but not yet set the bit. */
  datatype Producer = Filled(slot: nat, sta: nat) | Added

  /** Whom a drop is for: one station, or all of them. */
  datatype Target = Station(sta: nat) | All

  datatype Exit = Clean | TimedOut | Early

  /** A dropper, with the number of indications made when it held the queue lock. */
  datatype Dropper =
    | Freeing(target: Target, local: seq<Pkt>, cut: nat)
    | Polling(target: Target, timeout: nat, cut: nat)
    | Left(target: Target, cut: nat, exit: Exit)

  datatype SlotPlace = Free | AtProducer(i: nat) | InQueue | AtRx | AtDropper(j: nat)
  datatype MsgPlace = MsgQueued | MsgAtRx | MsgAtDropper(j: nat) | Delivered | Dropped

  datatype State = State(
    free: seq<nat>, queue: seq<Pkt>, post: bool, shutdown: bool, active: Option<nat>,
    rx: Rx, producers: map<nat, Producer>, droppers: map<nat, Dropper>,
    // history: number of indications, packets handed to a callback, packets dropped
    indicated: nat, delivered: seq<Pkt>, dropped: seq<Pkt>,
    // bookkeeping: where each slot and each indicated packet is
    slotAt: map<nat, SlotPlace>, msgAt: map<nat, MsgPlace>)

  const CLEANUP_DELAY := 10
  const CLEANUP_TIMEOUT := 200

  datatype Step =
    | Alloc(i: nat, sta: nat) | Add(i: nat) | Post(i: nat)
    | RxWake | RxClear | RxCheck | RxPop | RxCall | RxReturn | RxFree | RxRelock
    | DropBegin(j: nat, target: Target) | DropFree(j: nat) | DropPoll(j: nat)
    | CloseFlag | ClosePost

  predicate ProducerStep(a: Step) {
    a.Alloc? || a.Add? || a.Post?
  }

  predicate DropStep(a: Step) {
    a.DropBegin? || a.DropFree? || a.DropPoll?
  }

  predicate CloseStep(a: Step) {
    a.CloseFlag? || a.ClosePost?
  }

  /** A step of the rx thread. */
  predicate RxStep(a: Step) {
    !ProducerStep(a) && !DropStep(a) && !CloseStep(a)
  }

  predicate Hits(target: Target, p: Pkt) {
    target.All? || p.sta == target.sta
  }

  /** The packets of `q` that are (or are not) meant, in order. */
  function Sifted(q: seq<Pkt>, target: Target, hit: bool): seq<Pkt> {
    if q == [] then []
    else (if Hits(target, q[0]) == hit then [q[0]] else []) + Sifted(q[1..], target, hit)
  }

  predicate Polls(d: Dropper, active: Option<nat>) {
    d.target.Station? && active == Some(d.target.sta)
  }

  /** One round of the wait for the active station to change. */
  function Polled(d: Dropper, active: Option<nat>): Dropper
    requires d.Polling?
  {
    if !Polls(d, active) then Left(d.target, d.cut, Clean)
    else if d.timeout > CLEANUP_TIMEOUT then Left(d.target, d.cut, TimedOut)
    else Polling(d.target, d.timeout + CLEANUP_DELAY, d.cut)
  }

  ghost predicate Enabled(s: State, a: Step) {
    match a
    case Alloc(i, _) => i !in s.producers && s.free != []
    case Add(i) => i in s.producers && s.producers[i].Filled?
    case Post(i) => i in s.producers && s.producers[i].Added?
    case RxWake => s.rx.Waiting? && s.post
    case RxClear => s.rx.Woken?
    case RxCheck => s.rx.Cleared?
    case RxPop => s.rx.Popping?
    case RxCall => s.rx.Holding?
    case RxReturn => s.rx.Calling?
    case RxFree => s.rx.Returned?
    case RxRelock => s.rx.Relocking?
    case DropBegin(j, _) => j !in s.droppers
    case DropFree(j) => j in s.droppers && s.droppers[j].Freeing?
    case DropPoll(j) => j in s.droppers && s.droppers[j].Polling?
    case CloseFlag => true
    case ClosePost => true
  }

  /** The head of the loop in `cds_rx_from_queue`, under the queue lock. */
  function TakeNext(s: State): State {
    if s.queue == [] then s.(rx := Waiting)
    else
      var p := s.queue[0];
      s.(queue := s.queue[1..], active := Some(p.sta), rx := Holding(p),
         slotAt := s.slotAt[p.slot := AtRx], msgAt := s.msgAt[p.msg := MsgAtRx])
  }

  function Released(s: State, p: Pkt): State {
    s.(free := s.free + [p.slot], slotAt := s.slotAt[p.slot := Free])
  }

  datatype Key = BySlot | ByMsg

  function KeyOf(p: Pkt, key: Key): nat {
    if key.BySlot? then p.slot else p.msg
  }

  function KeysOf(q: seq<Pkt>, key: Key): seq<nat> {
    seq(|q|, i requires 0 <= i < |q| => KeyOf(q[i], key))
  }

  function SlotsOf(q: seq<Pkt>): seq<nat> {
    KeysOf(q, BySlot)
  }

  function MsgsOf(q: seq<Pkt>): seq<nat> {
    KeysOf(q, ByMsg)
  }

  ghost function Collected(s: State, j: nat, target: Target): State {
    var local := Sifted(s.queue, target, true);
    s.(queue := Sifted(s.queue, target, false),
       droppers := s.droppers[j := Freeing(target, local, s.indicated)],
       slotAt := map x | x in s.slotAt :: if x in SlotsOf(local) then AtDropper(j) else s.slotAt[x],
       msgAt := map m | m in s.msgAt :: if m in MsgsOf(local) then MsgAtDropper(j) else s.msgAt[m])
  }

  /** Dropper `j` frees the next packet of its list, or has none left. */
  function AfterDropFree(s: State, j: nat): State
    requires j in s.droppers && s.droppers[j].Freeing?
  {
    var d := s.droppers[j];
    if d.local == [] then s.(droppers := s.droppers[j := Polling(d.target, 0, d.cut)])
    else
      var x := d.local[0];
      s.(free := s.free + [x.slot], droppers := s.droppers[j := Freeing(d.target, d.local[1..], d.cut)],
         dropped := s.dropped + [x], slotAt := s.slotAt[x.slot := Free], msgAt := s.msgAt[x.msg := Dropped])
  }

  ghost function Next(s: State, a: Step): State
    requires Enabled(s, a)
  {
    match a
    case Alloc(i, sta) =>
      s.(free := s.free[1..], producers := s.producers[i := Filled(s.free[0], sta)],
         slotAt := s.slotAt[s.free[0] := AtProducer(i)])
    case Add(i) =>
      var f := s.producers[i];
      s.(queue := s.queue + [Pkt(f.slot, f.sta, s.indicated)], producers := s.producers[i := Added],
         indicated := s.indicated + 1,
         slotAt := s.slotAt[f.slot := InQueue], msgAt := s.msgAt[s.indicated := MsgQueued])
    case Post(i) => s.(post := true, producers := s.producers - {i})
    case RxWake => s.(rx := Woken)
    case RxClear => s.(post := false, rx := Cleared)
    case RxCheck => if s.shutdown then s.(shutdown := false, rx := Exited) else s.(rx := Popping)
    case RxPop => TakeNext(s)
    case RxCall =>
      s.(rx := Calling(s.rx.pkt), delivered := s.delivered + [s.rx.pkt], msgAt := s.msgAt[s.rx.pkt.msg := Delivered])
    case RxReturn => s.(rx := Returned(s.rx.pkt))
    case RxFree => Released(s.(rx := Relocking), s.rx.pkt)
    case RxRelock => TakeNext(s.(active := None))
    case DropBegin(j, target) =>
      if s.queue == [] then s.(droppers := s.droppers[j := Left(target, s.indicated, Early)])
      else Collected(s, j, target)
    case DropFree(j) => AfterDropFree(s, j)
    case DropPoll(j) =>
      s.(droppers := s.droppers[j := Polled(s.droppers[j], s.active)])
    case CloseFlag => s.(shutdown := true)
    case ClosePost => s.(post := true)
  }

  /** A freshly opened scheduler with the containers of `pool`. */
  ghost function Opened(pool: seq<nat>): State {
    State(pool, [], false, false, None, Waiting, map[], map[], 0, [], [], map x | x in pool :: Free, map[])
  }

  // ----- runs -----

  ghost predicate Run(s: State, steps: seq<Step>)
    decreases |steps|
  {
    steps == [] || (Enabled(s, steps[0]) && Run(Next(s, steps[0]), steps[1..]))
  }

  ghost function End(s: State, steps: seq<Step>): State
    requires Run(s, steps)
    decreases |steps|
  {
    if steps == [] then s else End(Next(s, steps[0]), steps[1..])
  }
}
