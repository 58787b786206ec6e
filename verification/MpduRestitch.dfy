/**
 Monitor mode: putting the MSDUs of a decapped MPDU back together by chaining buffers (the decap
 path of `htt_rx_restitch_mpdu_from_msdus`).
 */
module MpduRestitch {
  import opened Basics

  const HDR_STATUS_LEN := 64
  const WIFI_HDR_LEN := 24
  const DECAP_HDR_LEN := 14
  const SUBFRAME_HDR_LEN := 14
  const LLC_LEN := 8
  const U32 := 0x1_0000_0000

  /** A decapped MSDU: the header bytes the hardware saved, and the buffer's data. */
  datatype Msdu = Msdu(hdrStatus: Bytes, data: Bytes)

  /** Every saved header has the descriptor's fixed size (64 or 256 bytes). */
  predicate HeadersSaved(msdus: seq<Msdu>) {
    forall k :: 0 <= k < |msdus| ==> |msdus[k].hdrStatus| >= HDR_STATUS_LEN
  }

  // ----- header of the MPDU -----

  predicate ToFromDs(h: Bytes)
    requires |h| >= HDR_STATUS_LEN
  {
    h[1] % 4 == 3
  }

  predicate IsQos(h: Bytes)
    requires |h| >= HDR_STATUS_LEN
  {
    h[0] / 128 % 2 == 1
  }

  function BaseLen(h: Bytes): nat
    requires |h| >= HDR_STATUS_LEN
  {
    if ToFromDs(h) then WIFI_HDR_LEN + 6 else WIFI_HDR_LEN
  }

  function HdrLen(h: Bytes): nat
    requires |h| >= HDR_STATUS_LEN
  {
    BaseLen(h) + if IsQos(h) then 2 else 0
  }

  predicate IsAmsdu(h: Bytes)
    requires |h| >= HDR_STATUS_LEN
  {
    IsQos(h) && h[BaseLen(h)] / 128 % 2 == 1
  }

  /** Bytes copied in front of each MSDU: LLC/SNAP, and the A-MSDU subframe header before it. */
  function LlcLen(h: Bytes): nat
    requires |h| >= HDR_STATUS_LEN
  {
    if IsAmsdu(h) then SUBFRAME_HDR_LEN + LLC_LEN else LLC_LEN
  }

  /** What the saved header of the first MSDU says about the frame: length of the 802.11 header, bytes
      in front of each MSDU, and where those of the first MSDU lie (behind the 802.11 header and, if
      that is not a multiple of four bytes long, a two-byte pad). */
  datatype Layout = Layout(hdrLen: nat, llcLen: nat, llcAt: nat)

  predicate Fits(l: Layout) {
    LLC_LEN <= l.llcLen && l.hdrLen <= l.llcAt && l.llcAt + l.llcLen <= HDR_STATUS_LEN
  }

  function LayoutOf(h: Bytes): (l: Layout)
    requires |h| >= HDR_STATUS_LEN
    ensures Fits(l) && (IsAmsdu(h) <==> l.llcLen == SUBFRAME_HDR_LEN + LLC_LEN)
  {
    Layout(HdrLen(h), LlcLen(h), HdrLen(h) + if HdrLen(h) % 4 != 0 then 2 else 0)
  }

  // ----- what the frame should read -----

  function Llc(l: Layout, msdus: seq<Msdu>, k: nat): (r: Bytes)
    requires Fits(l) && HeadersSaved(msdus) && k < |msdus|
    ensures |r| == l.llcLen
  {
    if k == 0 then msdus[0].hdrStatus[l.llcAt..l.llcAt + l.llcLen]
    else msdus[k].hdrStatus[..l.llcLen]
  }

  /** An MSDU's own bytes: its data without the decap header. A buffer too short to pull from is
      left as it is. */
  function Payload(m: Msdu): Bytes {
    if |m.data| < DECAP_HDR_LEN then m.data else m.data[DECAP_HDR_LEN..]
  }

  /** Bytes that bring `n` up to a multiple of four. */
  function PadLen(n: nat): (pad: nat)
    ensures pad < 4 && (n + pad) % 4 == 0
  {
    (4 - n % 4) % 4
  }

  /** One subframe: LLC (and subframe header) with the payload. */
  function Subframe(l: Layout, msdus: seq<Msdu>, k: nat): Bytes
    requires Fits(l) && HeadersSaved(msdus) && k < |msdus|
  {
    Llc(l, msdus, k) + Payload(msdus[k])
  }

  /** Pad bytes are whatever the tailroom held: byte `i` of the pad behind MSDU `k` is `stale(k, i)`. */
  function Pad(l: Layout, msdus: seq<Msdu>, k: nat, stale: (nat, nat) -> Byte): (r: Bytes)
    requires Fits(l) && HeadersSaved(msdus) && k < |msdus|
    ensures |r| == PadLen(|Subframe(l, msdus, k)|)
  {
    seq(PadLen(|Subframe(l, msdus, k)|), (i: nat) => stale(k, i))
  }

  function Subframes(l: Layout, msdus: seq<Msdu>): (r: seq<Bytes>)
    requires Fits(l) && HeadersSaved(msdus)
    ensures |r| == |msdus|
  {
    seq(|msdus|, k requires 0 <= k < |msdus| => Subframe(l, msdus, k))
  }

  function Pads(l: Layout, msdus: seq<Msdu>, stale: (nat, nat) -> Byte): (r: seq<Bytes>)
    requires Fits(l) && HeadersSaved(msdus)
    ensures |r| == |msdus|
  {
    seq(|msdus|, k requires 0 <= k < |msdus| => Pad(l, msdus, k, stale))
  }

  /** Subframes `k` and on, each but the last followed by its pad. */
  function Body(subs: seq<Bytes>, pads: seq<Bytes>, k: nat): Bytes
    requires |pads| == |subs| && k < |subs|
    decreases |subs| - k
  {
    subs[k] + if k + 1 == |subs| then [] else pads[k] + Body(subs, pads, k + 1)
  }

  /** The frame as it should read: 802.11 header, then the subframes. */
  function Frame(msdus: seq<Msdu>, stale: (nat, nat) -> Byte): Bytes
    requires HeadersSaved(msdus) && msdus != []
  {
    var l := LayoutOf(msdus[0].hdrStatus);
    msdus[0].hdrStatus[..l.hdrLen] + Body(Subframes(l, msdus), Pads(l, msdus, stale), 0)
  }

  // ----- the chain of buffers -----

  /** Append to the last buffer of the chain. */
  function PutTail(chain: seq<Bytes>, bytes: Bytes): seq<Bytes>
    requires chain != []
  {
    chain[..|chain| - 1] + [chain[|chain| - 1] + bytes]
  }

  lemma FlatPutTail(chain: seq<Bytes>, bytes: Bytes)
    requires chain != []
    ensures Flat(PutTail(chain, bytes)) == Flat(chain) + bytes
  {
    assert PutTail(chain, bytes)[..|chain| - 1] == chain[..|chain| - 1];
  }

  /** The pad written in front of subframe `k`: the one behind its predecessor. */
  function Gap(pads: seq<Bytes>, k: nat): Bytes
    requires k <= |pads|
  {
    if k == 0 then [] else pads[k - 1]
  }

  /** What the loop has built on `head` after `k` rounds; the pad behind the last round is not yet written. */
  function Built(head: Bytes, subs: seq<Bytes>, pads: seq<Bytes>, k: nat): Bytes
    requires |pads| == |subs| && k <= |subs|
  {
    if k == 0 then head else Built(head, subs, pads, k - 1) + Gap(pads, k - 1) + subs[k - 1]
  }

  lemma Reassociate(a: Bytes, b: Bytes, c: Bytes, d: Bytes)
    ensures a + (b + (c + d)) == a + b + c + d
  {
  }

  lemma {:induction false} BuiltThenBody(head: Bytes, subs: seq<Bytes>, pads: seq<Bytes>, k: nat)
    requires |pads| == |subs| && k < |subs|
    ensures Built(head, subs, pads, k) + Gap(pads, k) + Body(subs, pads, k) == Built(head, subs, pads, |subs|)
    decreases |subs| - k
  {
    var front := Built(head, subs, pads, k) + Gap(pads, k);
    assert Built(head, subs, pads, k + 1) == front + subs[k];
    if k + 1 < |subs| {
      BuiltThenBody(head, subs, pads, k + 1);
      Reassociate(front, subs[k], pads[k], Body(subs, pads, k + 1));
    } else {
      assert subs[k] + [] == subs[k];
    }
  }

  /** One round on the chain: append to its last buffer, then link the next one. */
  function Linked(chain: seq<Bytes>, tail: Bytes, next: Bytes): seq<Bytes>
    requires chain != []
  {
    PutTail(chain, tail) + [next]
  }

  lemma LinkedFlat(chain: seq<Bytes>, gap: Bytes, llc: Bytes, next: Bytes)
    requires chain != []
    ensures Flat(Linked(chain, gap + llc, next)) == Flat(chain) + gap + (llc + next)
  {
    FlatPutTail(chain, gap + llc);
    FlatSnoc(PutTail(chain, gap + llc), next);
  }

  /** The bytes behind the first buffer grow by what a round adds, except that the first round's
      tail goes into the first buffer itself. */
  lemma LinkedRest(chain: seq<Bytes>, gap: Bytes, llc: Bytes, next: Bytes)
    requires chain != []
    ensures |Flat(Linked(chain, gap + llc, next)[1..])| ==
            |Flat(chain[1..])| + |next| + if |chain| == 1 then 0 else |gap| + |llc|
  {
    if |chain| == 1 {
      assert Linked(chain, gap + llc, next)[1..] == [next];
      FlatSnoc([], next);
      assert [] + [next] == [next];
    } else {
      assert Linked(chain, gap + llc, next)[1..] == Linked(chain[1..], gap + llc, next);
      LinkedFlat(chain[1..], gap, llc, next);
    }
  }

  /** A 32-bit unsigned value. */
  function Wrap(x: int): nat {
    x % U32
  }

  /** Adding on a 32-bit counter. */
  lemma CountOn(sum: nat, total: int, more: nat)
    requires sum == Wrap(total)
    ensures Wrap(sum + more) == Wrap(total + more)
  {
  }

  /** The pad as the code computes it. */
  function NextPad(n: nat): (pad: nat)
    ensures pad == PadLen(n)
  {
    var pad := n % 4;
    if pad != 0 then 4 - pad else 0
  }

  /** What the loop has established after `k` rounds: the chain reads as built so far, and the
      32-bit counter is the length of the chain behind its first buffer (before the first round it
      is below zero by the LLC bytes that go into that buffer). */
  ghost predicate Stitched(l: Layout, head: Bytes, subs: seq<Bytes>, pads: seq<Bytes>, k: nat,
                           chain: seq<Bytes>, sum: nat, pad: nat)
    requires |pads| == |subs| && k <= |subs|
  {
    && |chain| == k + 1
    && Flat(chain) == Built(head, subs, pads, k)
    && pad == |Gap(pads, k)|
    && sum == Wrap(|Flat(chain[1..])| - if k == 0 then l.llcLen else 0)
  }

  /** One round: finish the previous buffer with pad and LLC bytes, link the payload, count. */
  method StitchOne(l: Layout, ghost head: Bytes, ghost subs: seq<Bytes>, ghost pads: seq<Bytes>, k: nat,
                   gap: Bytes, llc: Bytes, payload: Bytes, chain: seq<Bytes>, sum: nat, pad: nat)
    returns (chain': seq<Bytes>, sum': nat, pad': nat)
    requires |pads| == |subs| && k < |subs| && Stitched(l, head, subs, pads, k, chain, sum, pad)
    requires gap == Gap(pads, k) && subs[k] == llc + payload && |llc| == l.llcLen && |pads[k]| == PadLen(|subs[k]|)
    ensures Stitched(l, head, subs, pads, k + 1, chain', sum', pad')
  {
    LinkedFlat(chain, gap, llc, payload);
    LinkedRest(chain, gap, llc, payload);
    chain' := PutTail(chain, gap + llc);
    chain' := chain' + [payload];
    assert chain' == Linked(chain, gap + llc, payload);
    CountOn(sum, |Flat(chain[1..])| - if k == 0 then l.llcLen else 0, l.llcLen + |payload| + pad);
    sum' := Wrap(sum + (l.llcLen + |payload| + pad));
    pad' := NextPad(l.llcLen + |payload|);
  }

  /** The `pad` bytes written behind the MSDU before `k`. */
  function StaleBytes(stale: (nat, nat) -> Byte, k: nat, pad: nat): (r: Bytes)
    ensures |r| == pad
  {
    seq(pad, (i: nat) => stale(if k == 0 then 0 else k - 1, i))
  }

  /** What round `k` relies on: its subframe, the pad behind it, and the pad in front of it. */
  ghost predicate GivenAt(l: Layout, msdus: seq<Msdu>, stale: (nat, nat) -> Byte, subs: seq<Bytes>, pads: seq<Bytes>,
                          k: nat)
    requires Fits(l) && HeadersSaved(msdus) && k < |subs| == |pads| == |msdus|
  {
    && subs[k] == Llc(l, msdus, k) + Payload(msdus[k])
    && |pads[k]| == PadLen(|subs[k]|)
    && Gap(pads, k) == StaleBytes(stale, k, |Gap(pads, k)|)
  }

  ghost predicate Given(l: Layout, msdus: seq<Msdu>, stale: (nat, nat) -> Byte, subs: seq<Bytes>, pads: seq<Bytes>)
    requires Fits(l) && HeadersSaved(msdus)
  {
    |subs| == |pads| == |msdus| && forall k: nat :: k < |msdus| ==> GivenAt(l, msdus, stale, subs, pads, k)
  }

  lemma FrameGiven(l: Layout, msdus: seq<Msdu>, stale: (nat, nat) -> Byte)
    requires Fits(l) && HeadersSaved(msdus)
    ensures Given(l, msdus, stale, Subframes(l, msdus), Pads(l, msdus, stale))
  {
    var subs, pads := Subframes(l, msdus), Pads(l, msdus, stale);
    forall k: nat | k < |msdus| ensures GivenAt(l, msdus, stale, subs, pads, k) {
      GapIsStale(l, msdus, stale, k);
    }
  }

  lemma GapIsStale(l: Layout, msdus: seq<Msdu>, stale: (nat, nat) -> Byte, k: nat)
    requires Fits(l) && HeadersSaved(msdus) && k < |msdus|
    ensures var pads := Pads(l, msdus, stale);
            StaleBytes(stale, k, |Gap(pads, k)|) == Gap(pads, k)
  {
  }

  /** The round for MSDU `k`: its LLC bytes come from behind the 802.11 header for the first MSDU and
      from the start of the saved header for the others. */
  method StitchMsdu(l: Layout, msdus: seq<Msdu>, stale: (nat, nat) -> Byte,
                    ghost head: Bytes, ghost subs: seq<Bytes>, ghost pads: seq<Bytes>, k: nat,
                    chain: seq<Bytes>, sum: nat, pad: nat)
    returns (chain': seq<Bytes>, sum': nat, pad': nat)
    requires Fits(l) && HeadersSaved(msdus) && k < |msdus| && Given(l, msdus, stale, subs, pads)
    requires Stitched(l, head, subs, pads, k, chain, sum, pad)
    ensures Stitched(l, head, subs, pads, k + 1, chain', sum', pad')
  {
    var at := if k == 0 then l.llcAt else 0;
    var llc: Bytes := msdus[k].hdrStatus[at..at + l.llcLen];
    assert llc == Llc(l, msdus, k) && GivenAt(l, msdus, stale, subs, pads, k);
    var gap := StaleBytes(stale, k, pad);
    assert gap == Gap(pads, k);
    chain', sum', pad' := StitchOne(l, head, subs, pads, k, gap, llc, Payload(msdus[k]), chain, sum, pad);
  }

  /** The loop: `done` MSDUs are stitched when it ends, all of them unless cloning fails. */
  method StitchAll(l: Layout, msdus: seq<Msdu>, stale: (nat, nat) -> Byte, ghost subs: seq<Bytes>,
                   ghost pads: seq<Bytes>,
                   head: Bytes, cloneNotRequired: bool, clones: nat)
    returns (done: nat, chain: seq<Bytes>, sum: nat)
    requires Fits(l) && HeadersSaved(msdus) && msdus != [] && Given(l, msdus, stale, subs, pads)
    ensures done == if !cloneNotRequired && clones < |msdus| then clones else |msdus|
    ensures done == |msdus| ==> |chain| == |msdus| + 1 && Flat(chain) == head + Body(subs, pads, 0)
    ensures done == |msdus| ==> sum == Wrap(|Flat(chain[1..])|)
  {
    chain, sum := [head], Wrap(0 - l.llcLen);
    var pad: nat := 0;
    StitchedNone(l, head, subs, pads);
    done := 0;
    while done < |msdus|
      invariant 0 <= done <= |msdus| && (cloneNotRequired || done <= clones)
      invariant Stitched(l, head, subs, pads, done, chain, sum, pad)
    {
      if !cloneNotRequired && done == clones {
        return;
      }
      chain, sum, pad := StitchMsdu(l, msdus, stale, head, subs, pads, done, chain, sum, pad);
      done := done + 1;
    }
    StitchedWhole(l, head, subs, pads, chain, sum, pad);
  }

  lemma StitchedNone(l: Layout, head: Bytes, subs: seq<Bytes>, pads: seq<Bytes>)
    requires |pads| == |subs|
    ensures Stitched(l, head, subs, pads, 0, [head], Wrap(0 - l.llcLen), 0)
  {
    FlatOne(head);
  }

  lemma StitchedWhole(l: Layout, head: Bytes, subs: seq<Bytes>, pads: seq<Bytes>, chain: seq<Bytes>, sum: nat, pad: nat)
    requires subs != [] && |pads| == |subs| && Stitched(l, head, subs, pads, |subs|, chain, sum, pad)
    ensures |chain| == |subs| + 1 && Flat(chain) == head + Body(subs, pads, 0) && sum == Wrap(|Flat(chain[1..])|)
  {
    BuiltThenBody(head, subs, pads, 0);
    assert head + [] == head;
  }

  lemma FlatOne(head: Bytes)
    ensures Flat([head]) == head && Flat([head][1..]) == []
  {
    FlatSnoc([], head);
    assert [] + [head] == [head] && [] + head == head;
  }

  /** Below 2^32 a 32-bit counter is the length it counts. */
  lemma WrapSmall(x: nat)
    requires x < U32
    ensures Wrap(x) == x
  {
  }

  /** Restitch the MSDUs. `clones` is how many MSDUs can be cloned before memory runs out; `headOk`
      says whether the header buffer could be allocated. The result is the chain of buffers, header
      first, and the length recorded for the rest of the chain; `freed` counts the buffers given back
      on failure. */
  method Restitch(msdus: seq<Msdu>, cloneNotRequired: bool, headOk: bool, clones: nat,
                  stale: (nat, nat) -> Byte)
    returns (r: Option<(seq<Bytes>, nat)>, freed: nat)
    requires HeadersSaved(msdus) && msdus != []
    ensures r.None? <==> !headOk || (!cloneNotRequired && clones < |msdus|)
    ensures r.Some? ==> freed == 0 && |r.value.0| == |msdus| + 1
    ensures r.Some? ==> Flat(r.value.0) == Frame(msdus, stale)
    ensures r.Some? ==> r.value.1 == Wrap(|Flat(r.value.0[1..])|)
    ensures r.Some? && |Flat(r.value.0[1..])| < U32 ==> r.value.1 == |Flat(r.value.0[1..])|
    ensures r.None? ==> freed == if cloneNotRequired then |msdus| else if headOk then 1 + clones else 0
  {
    if !headOk {
      return None, if cloneNotRequired then |msdus| else 0;
    }
    var h := msdus[0].hdrStatus;
    var l := LayoutOf(h);
    FrameGiven(l, msdus, stale);
    var done, chain, sum := StitchAll(l, msdus, stale, Subframes(l, msdus), Pads(l, msdus, stale),
      h[..l.hdrLen], cloneNotRequired, clones);
    if done < |msdus| {
      return None, 1 + done;
    }
    if |Flat(chain[1..])| < U32 {
      WrapSmall(|Flat(chain[1..])|);
    }
    return Some((chain, sum)), 0;
  }

  // ----- what was on the air -----

  /** An 802.11 data header: 24 bytes, six more for a fourth address when both DS bits are set, and two
      bytes of QoS control at its end for a QoS frame. */
  predicate DataHeader(head: Bytes) {
    && |head| >= 24
    && |head| == (if head[1] % 4 == 3 then 30 else 24) + (if head[0] / 128 % 2 == 1 then 2 else 0)
  }

  /** The frame is an A-MSDU: a QoS frame with the top bit of its QoS control's first byte set. */
  predicate AmsduHeader(head: Bytes)
    requires DataHeader(head)
  {
    head[0] / 128 % 2 == 1 && head[|head| - 2] / 128 % 2 == 1
  }

  /** The saved bytes of the first MSDU: the header, two bytes of pad when it is not whole words, the LLC
      bytes (in an A-MSDU with a subframe header in front), and whatever follows. */
  ghost predicate SavedFirst(status: Bytes, head: Bytes, llc: Bytes) {
    && DataHeader(head) && |llc| == (if AmsduHeader(head) then 22 else 8)
    && exists pad: Bytes, rest: Bytes ::
         |pad| == (if |head| % 4 == 0 then 0 else 2) && status == head + pad + llc + rest
  }

  /** Every MSDU saved its LLC bytes (the first one behind the header), and its data is a decap header of
      14 bytes and the payload. */
  ghost predicate Received(msdus: seq<Msdu>, head: Bytes, llcs: seq<Bytes>, payloads: seq<Bytes>) {
    && |llcs| == |payloads| == |msdus| > 0
    && SavedFirst(msdus[0].hdrStatus, head, llcs[0])
    && (forall k :: 0 < k < |msdus| ==> |llcs[k]| == |llcs[0]| && llcs[k] <= msdus[k].hdrStatus)
    && (forall k :: 0 <= k < |msdus| ==> |msdus[k].data| >= 14 && msdus[k].data[14..] == payloads[k])
  }

  /** The code finds header and LLC bytes where they were saved. */
  lemma LayoutFinds(status: Bytes, head: Bytes, llc: Bytes)
    requires |status| >= HDR_STATUS_LEN && SavedFirst(status, head, llc)
    ensures var l := LayoutOf(status);
            && l.hdrLen == |head| && l.llcLen == |llc| && status[..l.hdrLen] == head
            && status[l.llcAt..l.llcAt + l.llcLen] == llc
  {
    var pad: Bytes, rest: Bytes :| |pad| == (if |head| % 4 == 0 then 0 else 2) && status == head + pad + llc + rest;
    assert status[..|head|] == head;
    assert forall i :: 0 <= i < |head| ==> status[i] == head[i];
    assert status[|head| + |pad|..|head| + |pad| + |llc|] == llc;
  }

  /** Pad bytes behind every subframe but the last: fewer than four, up to a multiple of four. */
  predicate PaddedToWords(subs: seq<Bytes>, pads: seq<Bytes>) {
    |pads| == |subs| && forall k: nat :: k < |subs| ==> FillsWords(subs[k], pads[k])
  }

  predicate FillsWords(sub: Bytes, pad: Bytes) {
    |pad| < 4 && (|sub| + |pad|) % 4 == 0
  }

  lemma PadsFillWords(l: Layout, msdus: seq<Msdu>, stale: (nat, nat) -> Byte)
    requires Fits(l) && HeadersSaved(msdus)
    ensures PaddedToWords(Subframes(l, msdus), Pads(l, msdus, stale))
  {
    var subs, pads := Subframes(l, msdus), Pads(l, msdus, stale);
    forall k: nat | k < |subs| ensures FillsWords(subs[k], pads[k]) {
      assert |pads[k]| == PadLen(|subs[k]|);
    }
  }

  /** Round trip with the air: the restitched frame is the 802.11 header, then for each MSDU its LLC bytes
      and its payload, padded in between. */
  lemma FrameRestored(msdus: seq<Msdu>, stale: (nat, nat) -> Byte, head: Bytes, llcs: seq<Bytes>, payloads: seq<Bytes>,
                      subs: seq<Bytes>)
    requires HeadersSaved(msdus) && Received(msdus, head, llcs, payloads)
    requires |subs| == |msdus| && forall k :: 0 <= k < |subs| ==> subs[k] == llcs[k] + payloads[k]
    ensures exists pads: seq<Bytes> :: PaddedToWords(subs, pads) && Frame(msdus, stale) == head + Body(subs, pads, 0)
  {
    var l := LayoutOf(msdus[0].hdrStatus);
    LayoutFinds(msdus[0].hdrStatus, head, llcs[0]);
    var pads := Pads(l, msdus, stale);
    forall k | 0 <= k < |subs| ensures Subframes(l, msdus)[k] == subs[k] {
      SubframeFound(l, msdus, head, llcs, payloads, k);
    }
    assert Subframes(l, msdus) == subs;
    PadsFillWords(l, msdus, stale);
    assert Frame(msdus, stale) == head + Body(subs, pads, 0);
  }

  lemma SubframeFound(l: Layout, msdus: seq<Msdu>, head: Bytes, llcs: seq<Bytes>, payloads: seq<Bytes>, k: nat)
    requires HeadersSaved(msdus) && Received(msdus, head, llcs, payloads) && k < |msdus|
    requires l == LayoutOf(msdus[0].hdrStatus)
    ensures Subframe(l, msdus, k) == llcs[k] + payloads[k]
  {
    LayoutFinds(msdus[0].hdrStatus, head, llcs[0]);
    assert k > 0 ==> msdus[k].hdrStatus[..l.llcLen] == llcs[k];
    assert Payload(msdus[k]) == payloads[k];
  }

  /** So it starts with exactly the header that was received and the LLC bytes behind it. */
  lemma FrameStarts(msdus: seq<Msdu>, stale: (nat, nat) -> Byte, head: Bytes, llcs: seq<Bytes>, payloads: seq<Bytes>)
    requires HeadersSaved(msdus) && Received(msdus, head, llcs, payloads)
    ensures head + llcs[0] + payloads[0] <= Frame(msdus, stale)
    ensures |msdus| == 1 ==> Frame(msdus, stale) == head + llcs[0] + payloads[0]
  {
    var subs := seq(|msdus|, k requires 0 <= k < |msdus| => llcs[k] + payloads[k]);
    FrameRestored(msdus, stale, head, llcs, payloads, subs);
    var pads: seq<Bytes> :| PaddedToWords(subs, pads) && Frame(msdus, stale) == head + Body(subs, pads, 0);
    assert subs[0] <= Body(subs, pads, 0);
    assert head + llcs[0] + payloads[0] == head + subs[0];
    assert |msdus| == 1 ==> subs[0] + [] == subs[0];
  }

  // ----- the A-MSDU format -----

  /** Pads bring each subframe to a multiple of four bytes. */
  predicate Padded(subs: seq<Bytes>, pads: seq<Bytes>) {
    |pads| == |subs| && forall k :: 0 <= k < |subs| ==> |pads[k]| == PadLen(|subs[k]|)
  }

  /** Where subframe `k` starts, counted from the first subframe. */
  function Start(subs: seq<Bytes>, k: nat): nat
    requires k < |subs|
  {
    if k == 0 then 0 else Start(subs, k - 1) + |subs[k - 1]| + PadLen(|subs[k - 1]|)
  }

  /** Every subframe starts on a four-byte boundary from the first, and lies there in the body. */
  lemma {:induction false} SubframesAligned(subs: seq<Bytes>, pads: seq<Bytes>, k: nat)
    requires Padded(subs, pads) && k < |subs|
    ensures Start(subs, k) % 4 == 0
    ensures Start(subs, k) <= |Body(subs, pads, 0)|
    ensures Body(subs, pads, 0)[Start(subs, k)..] == Body(subs, pads, k)
  {
    if k == 0 {
    } else {
      SubframesAligned(subs, pads, k - 1);
      var at, n := Start(subs, k - 1), |subs[k - 1]|;
      StaysAligned(at, n);
      SkipTwo(Body(subs, pads, 0), at, subs[k - 1], pads[k - 1], Body(subs, pads, k));
    }
  }

  lemma StaysAligned(at: nat, n: nat)
    requires at % 4 == 0
    ensures (at + n + PadLen(n)) % 4 == 0
  {
    MultiplesOfFour(at, n + PadLen(n));
  }

  lemma SkipTwo(whole: Bytes, at: nat, a: Bytes, b: Bytes, c: Bytes)
    requires at <= |whole| && whole[at..] == a + (b + c)
    ensures at + |a| + |b| <= |whole| && whole[at + |a| + |b|..] == c
  {
    assert |whole[at..]| == |a| + |b| + |c|;
    assert whole[at..][|a| + |b|..] == c;
  }

  function BigEndian16(hi: Byte, lo: Byte): nat {
    hi * 256 + lo
  }

  /** A receiver's walk over an A-MSDU: subframe header with a big-endian length at bytes 12 and 13,
      that many bytes, then pad to a multiple of four unless the subframe is the last. */
  function Deaggregate(body: Bytes): Option<seq<Bytes>>
    decreases |body|
  {
    if |body| < SUBFRAME_HDR_LEN then None
    else
      var len := SUBFRAME_HDR_LEN + BigEndian16(body[12], body[13]);
      if |body| < len then None
      else if |body| == len then Some([body])
      else if |body| < len + PadLen(len) then None
      else
        match Deaggregate(body[len + PadLen(len)..])
        case None => None
        case Some(rest) => Some([body[..len]] + rest)
  }

  /** The subframe headers carry the lengths of what follows them. */
  predicate LengthsTold(subs: seq<Bytes>) {
    forall k :: 0 <= k < |subs| ==> LengthTold(subs[k])
  }

  /** Round trip: a standard A-MSDU receiver takes the body apart again into the subframes. */
  lemma {:induction false} DeaggregateBody(subs: seq<Bytes>, pads: seq<Bytes>, k: nat)
    requires Padded(subs, pads) && LengthsTold(subs) && k < |subs|
    ensures Deaggregate(Body(subs, pads, k)) == Some(subs[k..])
    decreases |subs| - k
  {
    if k + 1 == |subs| {
      DeaggregateLast(subs[k]);
      assert subs[k] + [] == subs[k] && subs[k..] == [subs[k]];
    } else {
      DeaggregateBody(subs, pads, k + 1);
      assert Body(subs, pads, k + 1) != [];
      DeaggregateStep(Body(subs, pads, k), subs[k], pads[k], Body(subs, pads, k + 1), subs[k + 1..]);
      assert subs[k..] == [subs[k]] + subs[k + 1..];
    }
  }

  predicate LengthTold(sub: Bytes) {
    |sub| >= SUBFRAME_HDR_LEN && BigEndian16(sub[12], sub[13]) == |sub| - SUBFRAME_HDR_LEN
  }

  lemma DeaggregateLast(sub: Bytes)
    requires LengthTold(sub)
    ensures Deaggregate(sub) == Some([sub])
  {
  }

  lemma Cut(body: Bytes, sub: Bytes, pad: Bytes, rest: Bytes)
    requires LengthTold(sub) && body == sub + (pad + rest)
    ensures |body| == |sub| + |pad| + |rest| && body[..|sub|] == sub && body[|sub| + |pad|..] == rest
    ensures SUBFRAME_HDR_LEN + BigEndian16(body[12], body[13]) == |sub|
  {
    assert body[12] == sub[12] && body[13] == sub[13];
    SkipTwo(body, 0, sub, pad, rest);
  }

  lemma DeaggregateStep(body: Bytes, sub: Bytes, pad: Bytes, rest: Bytes, r: seq<Bytes>)
    requires LengthTold(sub) && body == sub + (pad + rest) && |pad| == PadLen(|sub|) && rest != []
    requires Deaggregate(rest) == Some(r)
    ensures Deaggregate(body) == Some([sub] + r)
  {
    Cut(body, sub, pad, rest);
  }

  /** ... in particular the frame that Restitch chains together. */
  lemma RestitchedDeaggregates(msdus: seq<Msdu>, stale: (nat, nat) -> Byte)
    requires HeadersSaved(msdus) && msdus != [] && IsAmsdu(msdus[0].hdrStatus)
    requires LengthsTold(Subframes(LayoutOf(msdus[0].hdrStatus), msdus))
    ensures var l := LayoutOf(msdus[0].hdrStatus);
            Deaggregate(Frame(msdus, stale)[l.hdrLen..]) == Some(Subframes(l, msdus))
  {
    var l := LayoutOf(msdus[0].hdrStatus);
    var subs, pads := Subframes(l, msdus), Pads(l, msdus, stale);
    DeaggregateBody(subs, pads, 0);
    assert Frame(msdus, stale)[l.hdrLen..] == Body(subs, pads, 0);
    assert subs[0..] == subs;
  }
}
