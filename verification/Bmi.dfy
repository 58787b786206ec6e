/**
 Bootloader messaging: memory and firmware images cross to the target in pieces that fit a command
 buffer (`bmi_read_memory`, `bmi_write_memory`, `bmilz_data`, `bmi_fast_download`).
 */
module Bmi {
  import opened Basics

  type Memory = nat -> Byte
  /** Whether the exchange with a given number succeeds. */
  type Answers = nat -> bool

  datatype Status = Success | Failure | NotPermitted | NotInitialized

  datatype Cmd =
    | ReadMemory(address: nat, len: nat)
    | WriteMemory(address: nat, data: Bytes)
    | LzStreamStart(address: nat)
    | LzData(data: Bytes)

  /** Bytes of a command: a command id, then an address, a length and data where it has them. */
  function CmdSize(cmd: Cmd): nat {
    match cmd
    case ReadMemory(_, _) => 12
    case WriteMemory(_, data) => 12 + |data|
    case LzStreamStart(_) => 8
    case LzData(data) => 8 + |data|
  }

  /** A compressed stream that was opened for an address, and what was sent on it. */
  datatype Stream = Stream(address: nat, data: Bytes)

  datatype Target = Target(mem: Memory, streams: seq<Stream>)

  function Append(streams: seq<Stream>, data: Bytes): seq<Stream> {
    if streams == [] then []
    else
      var last := streams[|streams| - 1];
      streams[..|streams| - 1] + [Stream(last.address, last.data + data)]
  }

  function Stored(mem: Memory, address: nat, data: Bytes): Memory {
    (a: nat) => if address <= a < address + |data| then data[a - address] else mem(a)
  }

  /** What the target does with a command. */
  function Serve(t: Target, cmd: Cmd): Target {
    match cmd
    case ReadMemory(_, _) => t
    case WriteMemory(address, data) => t.(mem := Stored(t.mem, address, data))
    case LzStreamStart(address) => t.(streams := t.streams + [Stream(address, [])])
    case LzData(data) => t.(streams := Append(t.streams, data))
  }

  /** `mem'` is `mem` with `data` at `address`, and nothing else changed. */
  ghost predicate Changed(mem: Memory, mem': Memory, address: nat, data: Bytes) {
    forall a: nat :: mem'(a) == if address <= a < address + |data| then data[a - address] else mem(a)
  }

  function Slice(mem: Memory, address: nat, len: nat): (r: Bytes)
    ensures |r| == len && forall i :: 0 <= i < len ==> r[i] == mem(address + i)
  {
    seq(len, (i: nat) => mem(address + i))
  }

  /** Round trip: what was written, padded or not, is what a read of its length returns. */
  lemma WriteThenRead(mem: Memory, mem': Memory, address: nat, data: Bytes, pad: Bytes)
    requires Changed(mem, mem', address, data + pad)
    ensures Slice(mem', address, |data|) == data
  {
    forall i | 0 <= i < |data| ensures Slice(mem', address, |data|)[i] == data[i] {
      assert mem'(address + i) == (data + pad)[i];
    }
  }

  /** Sending `more` behind `data` changes the memory by both. */
  lemma ChangedOn(mem0: Memory, mem: Memory, mem': Memory, address: nat, data: Bytes, more: Bytes)
    requires Changed(mem0, mem, address, data) && mem' == Stored(mem, address + |data|, more)
    ensures Changed(mem0, mem', address, data + more)
  {
    forall a: nat
      ensures mem'(a) == if address <= a < address + |data + more| then (data + more)[a - address] else mem0(a)
    {
      assert mem(a) == if address <= a < address + |data| then data[a - address] else mem0(a);
    }
  }

  /** Between two chunks of a write: `n` bytes are across, and `remaining` is what is left. */
  predicate Underway(length: nat, n: nat, remaining: int) {
    if remaining == 0 then n == Roundup4(length)
    else n < length && n % 4 == 0 && remaining == length - n
  }

  /** A chunk is whole words, and reaches at most three bytes past the end. */
  lemma ChunkFits(length: nat, n: nat, txlen: nat, max: nat)
    requires n < length && n % 4 == 0 && max % 4 == 0 && max > 12
    requires txlen == if length - n < max - 12 then Roundup4(length - n) else max - 12
    ensures 0 < txlen <= max - 12 && n + txlen <= length + 3
    ensures Underway(length, n + txlen, if length - n < max - 12 then 0 else length - n - txlen)
  {
    MultiplesOfFour(max, 12);
    if length - n < max - 12 {
      LastChunk(length, n, max - 12);
    } else {
      MultiplesOfFour(n, max - 12);
      if n + txlen == length {
        SameMultiple(length, Roundup4(length));
      }
    }
  }

  lemma LastChunk(length: nat, n: nat, chunk: nat)
    requires n < length && n % 4 == 0 && chunk % 4 == 0 && length - n < chunk
    ensures Roundup4(length - n) <= chunk && n + Roundup4(length - n) == Roundup4(length)
  {
    var r := Roundup4(length - n);
    MultiplesOfFour(n, r);
    SameMultiple(n + r, Roundup4(length));
    if r > chunk {
      SameMultiple(r, chunk);
    }
  }

  // ----- compressed download -----

  /** A chunked transfer: whether it went through, the next exchange's number, and how many bytes got across. */
  datatype Transfer = Transfer(ok: bool, clock: nat, count: nat)

  /** The rest of a transfer of `len` bytes when `from` of them are across. */
  function LzRun(answers: Answers, clock: nat, len: nat, from: nat, chunk: nat): (r: Transfer)
    requires chunk > 0 && from <= len
    ensures from <= r.count <= len && clock <= r.clock && (r.ok <==> r.count == len)
    decreases len - from
  {
    if from == len then Transfer(true, clock, len)
    else if !answers(clock) then Transfer(false, clock + 1, from)
    else LzRun(answers, clock + 1, len, if len - from < chunk then len else from + chunk, chunk)
  }

  /** One exchange of a transfer. */
  lemma LzNext(answers: Answers, clock: nat, len: nat, from: nat, chunk: nat)
    requires chunk > 0 && from < len
    ensures LzRun(answers, clock, len, from, chunk) ==
            if answers(clock)
            then LzRun(answers, clock + 1, len, if len - from < chunk then len else from + chunk, chunk)
            else Transfer(false, clock + 1, from)
  {
  }

  /** The part of an image that is whole words, and the last word, zero padded, if there is a rest. */
  function Whole(image: Bytes): (r: Bytes) {
    image[..|image| - |image| % 4]
  }

  function LastWord(image: Bytes): (r: Bytes)
    ensures |image| % 4 != 0 ==> |r| == 4
  {
    image[|image| - |image| % 4..] + seq(4 - |image| % 4, _ => 0)
  }

  /** The image padded with zeros to a multiple of four bytes. */
  function ZeroPadded(image: Bytes): (r: Bytes)
    ensures |r| == Roundup4(|image|) && image <= r
    ensures forall i :: |image| <= i < |r| ==> r[i] == 0
  {
    image + seq(Roundup4(|image|) - |image|, _ => 0)
  }

  lemma WholeAndLast(image: Bytes)
    ensures |image| % 4 == 0 ==> Whole(image) == ZeroPadded(image) == image
    ensures |image| % 4 != 0 ==> Whole(image) + LastWord(image) == ZeroPadded(image)
  {
  }

  /** How a download ends: its status, the next exchange's number, and the streams it opened. */
  datatype Outcome = Outcome(status: Status, clock: nat, streams: seq<Stream>)

  function Download(answers: Answers, clock: nat, chunk: nat, address: nat, image: Bytes): Outcome
    requires chunk >= 4
  {
    if !answers(clock) then Outcome(Failure, clock + 1, [])
    else
      var r := LzRun(answers, clock + 1, |Whole(image)|, 0, chunk);
      if !r.ok then Outcome(Failure, r.clock, [Stream(address, Whole(image)[..r.count])])
      else if |image| % 4 == 0 then Outcome(Success, r.clock, [Stream(address, Whole(image))])
      else if answers(r.clock) then Outcome(Success, r.clock + 1, [Stream(address, Whole(image) + LastWord(image))])
      else if answers(r.clock + 1) then
        Outcome(Success, r.clock + 2, [Stream(address, Whole(image)), Stream(0, [])])
      else Outcome(Failure, r.clock + 2, [Stream(address, Whole(image))])
  }

  /** With all exchanges successful, exactly the zero-padded image is streamed. */
  lemma DownloadStreamsImage(answers: Answers, clock: nat, chunk: nat, address: nat, image: Bytes)
    requires chunk >= 4 && forall i: nat :: answers(i)
    ensures Download(answers, clock, chunk, address, image).status == Success
    ensures Download(answers, clock, chunk, address, image).streams == [Stream(address, ZeroPadded(image))]
  {
    WholeAndLast(image);
    LzAllOk(answers, clock + 1, |Whole(image)|, 0, chunk);
  }

  lemma {:induction false} LzAllOk(answers: Answers, clock: nat, len: nat, from: nat, chunk: nat)
    requires chunk > 0 && from <= len && forall i: nat :: clock <= i < clock + (len - from) ==> answers(i)
    ensures LzRun(answers, clock, len, from, chunk).ok
    ensures LzRun(answers, clock, len, from, chunk).clock <= clock + (len - from)
    decreases len - from
  {
    if from == len {
    } else {
      LzAllOk(answers, clock + 1, len, if len - from < chunk then len else from + chunk, chunk);
    }
  }

  /** The status can be trusted for an image of whole words, whatever exchanges fail ... */
  lemma AlignedStatusHonest(answers: Answers, clock: nat, chunk: nat, address: nat, image: Bytes)
    requires chunk >= 4 && |image| % 4 == 0
    ensures var o := Download(answers, clock, chunk, address, image);
            o.status == Success <==> o.streams == [Stream(address, image)]
  {
    WholeAndLast(image);
  }

  /** ... and only for those: any other image has failures after which success is reported although
      the last word never got across. */
  lemma UnalignedStatusHides(chunk: nat, address: nat, image: Bytes) returns (answers: Answers)
    requires chunk >= 4 && |image| % 4 != 0
    ensures Download(answers, 0, chunk, address, image).status == Success
    ensures Download(answers, 0, chunk, address, image).streams == [Stream(address, Whole(image)), Stream(0, [])]
    ensures Whole(image) != ZeroPadded(image)
  {
    var all: Answers := (i: nat) => true;
    LzAllOk(all, 1, |Whole(image)|, 0, chunk);
    var at := LzRun(all, 1, |Whole(image)|, 0, chunk).clock;
    answers := (i: nat) => i != at;
    LzSame(all, answers, 1, |Whole(image)|, 0, chunk);
    assert |Whole(image)| < |ZeroPadded(image)|;
  }

  /** What success means for any image: all of it was streamed, or all but the last word, followed by the
      start of an empty stream at address zero, and then the image is not of whole words and the exchange
      before the last one failed. Failure means that some exchange failed. */
  lemma StatusMeans(answers: Answers, clock: nat, chunk: nat, address: nat, image: Bytes)
    requires chunk >= 4
    ensures var o := Download(answers, clock, chunk, address, image);
            && (o.status == Success ==>
                  || o.streams == [Stream(address, ZeroPadded(image))]
                  || (&& |image| % 4 != 0 && o.streams == [Stream(address, Whole(image)), Stream(0, [])]
                      && clock + 2 <= o.clock && !answers(o.clock - 2)))
            && (o.status != Success ==> o.status == Failure && exists i: nat :: clock <= i < o.clock && !answers(i))
  {
    WholeAndLast(image);
    var o := Download(answers, clock, chunk, address, image);
    if answers(clock) {
      LzFails(answers, clock + 1, |Whole(image)|, 0, chunk);
    }
    assert o.status != Success && LzRun(answers, clock + 1, |Whole(image)|, 0, chunk).ok ==>
             !answers(clock) || !answers(o.clock - 1);
  }

  lemma {:induction false} LzFails(answers: Answers, clock: nat, len: nat, from: nat, chunk: nat)
    requires chunk > 0 && from <= len
    ensures var r := LzRun(answers, clock, len, from, chunk);
            !r.ok ==> r.clock > clock && !answers(r.clock - 1)
    decreases len - from
  {
    if from == len || !answers(clock) {
    } else {
      LzFails(answers, clock + 1, len, if len - from < chunk then len else from + chunk, chunk);
    }
  }

  /** Only the answers up to its last exchange matter to a transfer. */
  lemma {:induction false} LzSame(a: Answers, b: Answers, clock: nat, len: nat, from: nat, chunk: nat)
    requires chunk > 0 && from <= len
    requires forall i: nat :: clock <= i < LzRun(a, clock, len, from, chunk).clock ==> a(i) == b(i)
    ensures LzRun(a, clock, len, from, chunk) == LzRun(b, clock, len, from, chunk)
    decreases len - from
  {
    if from == len || !a(clock) {
    } else {
      LzSame(a, b, clock + 1, len, if len - from < chunk then len else from + chunk, chunk);
    }
  }

  // ----- the host's side -----

  /** The host's view of the messaging: a target that answers exchanges one after the other. */
  class BmiContext {
    /** BMI_DATASZ_MAX, and which exchanges succeed. */
    const max: nat
    const answers: Answers
    var clock: nat
    var target: Target
    var bmiDone: bool
    var cmdBuff: bool
    var rspBuff: bool
    /** Sizes of the commands sent so far. */
    var sizes: seq<nat>

    /** The data limit is a multiple of four above the header, and every command fitted the buffer. */
    ghost predicate Valid()
      reads this
    {
      max % 4 == 0 && max > 12 && forall i :: 0 <= i < |sizes| ==> sizes[i] <= max + 12
    }

    method Exchange(cmd: Cmd) returns (ok: bool)
      requires Valid() && CmdSize(cmd) <= max + 12
      modifies this`clock, this`target, this`sizes
      ensures Valid() && ok == answers(old(clock)) && clock == old(clock) + 1 && sizes == old(sizes) + [CmdSize(cmd)]
      ensures target == if ok then Serve(old(target), cmd) else old(target)
      ensures cmd.WriteMemory? ==> sizes == old(sizes) + [4 + 4 + 4 + |cmd.data|]
      ensures cmd.LzData? ==> sizes == old(sizes) + [4 + 4 + |cmd.data|]
      ensures cmd.ReadMemory? ==> sizes == old(sizes) + [4 + 4 + 4]
      ensures cmd.LzStreamStart? ==> sizes == old(sizes) + [4 + 4]
    {
      ok := answers(clock);
      clock := clock + 1;
      sizes := sizes + [CmdSize(cmd)];
      if ok {
        target := Serve(target, cmd);
      }
    }

    /** Send the bytes of `all` from `n` on that are in `src`. */
    method WriteChunk(at: nat, src: Bytes, ghost mem0: Memory, ghost address: nat, ghost all: Bytes, ghost n: nat)
      returns (ok: bool)
      requires Valid() && |src| <= max && n + |src| <= |all| && src == all[n..n + |src|]
      requires at == address + n && Changed(mem0, target.mem, address, all[..n])
      modifies this`clock, this`target, this`sizes
      ensures Valid() && target.streams == old(target.streams)
      ensures Changed(mem0, target.mem, address, all[..if ok then n + |src| else n])
      ensures clock == old(clock) + 1 && ok == answers(old(clock))
    {
      ok := Exchange(WriteMemory(at, src));
      if ok {
        ChangedOn(mem0, old(target.mem), target.mem, address, all[..n], src);
        assert all[..n] + src == all[..n + |src|];
      }
    }

    /** Write `buffer`; `behind` are the bytes that happen to lie behind it. `n` bytes get across. */
    method WriteMem(address: nat, buffer: Bytes, behind: Bytes) returns (status: Status, n: nat)
      requires Valid() && |behind| == 3
      modifies this`clock, this`target, this`sizes
      ensures Valid() && target.streams == old(target.streams)
      ensures n <= Roundup4(|buffer|) && Changed(old(target.mem), target.mem, address, (buffer + behind)[..n])
      ensures status == NotPermitted <==> bmiDone || !cmdBuff
      ensures status == NotPermitted ==> n == 0 && clock == old(clock)
      ensures status == Success <==> !bmiDone && cmdBuff && n == Roundup4(|buffer|)
      ensures status == Failure ==> clock > old(clock) && !answers(clock - 1)
      ensures status != NotInitialized
    {
      n := 0;
      if bmiDone || !cmdBuff {
        return NotPermitted, 0;
      }
      var all := buffer + behind;
      var remaining := |buffer|;
      while remaining > 0
        invariant Valid() && target.streams == old(target.streams)
        invariant Underway(|buffer|, n, remaining) && clock >= old(clock)
        invariant Changed(old(target.mem), target.mem, address, all[..n])
      {
        var txlen: nat;
        var from := |buffer| - remaining;
        if remaining < max - 12 {
          if remaining % 4 != 0 {
            remaining := remaining + (4 - remaining % 4);
          }
          txlen := remaining;
        } else {
          txlen := max - 12;
        }
        ChunkFits(|buffer|, n, txlen, max);
        var ok := WriteChunk(address + n, all[from..from + txlen], old(target.mem), address, all, n);
        if !ok {
          return Failure, n;
        }
        remaining := remaining - txlen;
        n := n + txlen;
      }
      status := Success;
    }

    /** Read `length` bytes into the front of `buffer`. */
    method ReadMem(address: nat, buffer: array<Byte>, length: nat) returns (status: Status)
      requires Valid() && length <= buffer.Length
      modifies this`clock, this`target, this`sizes, buffer
      ensures Valid() && target == old(target)
      ensures buffer[length..] == old(buffer[length..])
      ensures status == NotPermitted <==> bmiDone
      ensures status == NotInitialized <==> !bmiDone && !(cmdBuff && rspBuff)
      ensures status == NotPermitted || status == NotInitialized ==> buffer[..] == old(buffer[..])
      ensures status == Success ==> buffer[..length] == Slice(target.mem, address, length)
      ensures status == Failure ==> clock > old(clock) && !answers(clock - 1)
    {
      if bmiDone {
        return NotPermitted;
      }
      if !cmdBuff || !rspBuff {
        return NotInitialized;
      }
      var at, remaining := address, length;
      while remaining > 0
        invariant 0 <= remaining <= length && at == address + (length - remaining)
        invariant Valid() && target == old(target) && clock >= old(clock)
        invariant forall i :: 0 <= i < length - remaining ==> buffer[i] == target.mem(address + i)
        invariant buffer[length..] == old(buffer[length..])
      {
        var rxlen := if remaining < max then remaining else max;
        var ok := Exchange(ReadMemory(at, rxlen));
        if !ok {
          return Failure;
        }
        var rsp := Slice(target.mem, at, rxlen);
        var base := length - remaining;
        forall i | 0 <= i < rxlen {
          buffer[base + i] := rsp[i];
        }
        remaining := remaining - rxlen;
        at := at + rxlen;
      }
      status := Success;
    }

    /** Write, then read back as many bytes from the same place: with successful exchanges the chunk
        loops return the bytes that were written. */
    method WriteThenReadMem(address: nat, data: Bytes, behind: Bytes) returns (w: Status, r: Status, out: array<Byte>)
      requires Valid() && |behind| == 3
      modifies this`clock, this`target, this`sizes
      ensures Valid() && fresh(out) && out.Length == |data|
      ensures w == Success && r == Success ==> out[..] == data
      ensures !bmiDone && cmdBuff && rspBuff && (forall i: nat :: answers(i)) ==> w == Success && r == Success
    {
      out := new Byte[|data|];
      var n: nat;
      ghost var mem := target.mem;
      w, n := WriteMem(address, data, behind);
      if w == Success {
        assert (data + behind)[..n] == data + behind[..n - |data|];
        WriteThenRead(mem, target.mem, address, data, behind[..n - |data|]);
      }
      r := ReadMem(address, out, |data|);
      assert out[..] == out[..|data|];
    }

    /** One command of a transfer: the bytes of `data` between `from` and `end`. */
    method SendChunk(data: Bytes, from: nat, end: nat, ghost streams0: seq<Stream>) returns (ok: bool)
      requires Valid() && from <= end <= |data| && end - from <= max - 8
      requires target.streams == Append(streams0, data[..from])
      modifies this`clock, this`target, this`sizes
      ensures Valid() && target.mem == old(target.mem) && ok == answers(old(clock)) && clock == old(clock) + 1
      ensures target.streams == Append(streams0, data[..if ok then end else from])
    {
      AppendNext(streams0, data, from, end);
      ok := Exchange(LzData(data[from..end]));
    }

    /** The chunk loop of a transfer. */
    method SendChunks(data: Bytes) returns (ok: bool)
      requires Valid()
      modifies this`clock, this`target, this`sizes
      ensures Valid() && target.mem == old(target.mem)
      ensures var r := LzRun(answers, old(clock), |data|, 0, max - 8);
              ok == r.ok && clock == r.clock && target.streams == Append(old(target.streams), data[..r.count])
    {
      var from, chunk := 0, max - 8;
      ghost var run := LzRun(answers, clock, |data|, 0, chunk);
      AppendNothing(target.streams);
      ok := true;
      while ok && from < |data|
        invariant 0 <= from <= |data| && Valid() && target.mem == old(target.mem)
        invariant target.streams == Append(old(target.streams), data[..from])
        invariant run == if ok then LzRun(answers, clock, |data|, from, chunk) else Transfer(false, clock, from)
        decreases |data| - from, ok
      {
        LzNext(answers, clock, |data|, from, chunk);
        var end := if |data| - from < chunk then |data| else from + chunk;
        ok := SendChunk(data, from, end, old(target.streams));
        if ok {
          from := end;
        }
      }
    }

    /** Send data on the stream opened last. */
    method SendLz(data: Bytes) returns (status: Status)
      requires Valid()
      modifies this`clock, this`target, this`sizes
      ensures Valid() && target.mem == old(target.mem)
      ensures bmiDone ==> status == NotPermitted && target == old(target) && clock == old(clock)
      ensures !bmiDone ==>
                var r := LzRun(answers, old(clock), |data|, 0, max - 8);
                && status == (if r.ok then Success else Failure) && clock == r.clock
                && target.streams == Append(old(target.streams), data[..r.count])
    {
      if bmiDone {
        return NotPermitted;
      }
      var ok := SendChunks(data);
      status := if ok then Success else Failure;
    }

    method StreamStart(address: nat) returns (status: Status)
      requires Valid()
      modifies this`clock, this`target, this`sizes
      ensures Valid() && target.mem == old(target.mem)
      ensures bmiDone ==> status == NotPermitted && target == old(target) && clock == old(clock)
      ensures !bmiDone ==>
                && clock == old(clock) + 1 && status == (if answers(old(clock)) then Success else Failure)
                && target.streams == old(target.streams) + if status == Success then [Stream(address, [])] else []
    {
      if bmiDone {
        return NotPermitted;
      }
      var ok := Exchange(LzStreamStart(address));
      assert old(target.streams) + [] == old(target.streams);
      status := if ok then Success else Failure;
    }

    /** The last word, and the closing stream start that follows only if it fails. */
    method SendLastWord(address: nat, word: Bytes, ghost streams0: seq<Stream>, ghost whole: Bytes)
      returns (status: Status)
      requires Valid() && !bmiDone && |word| == 4 && target.streams == streams0 + [Stream(address, whole)]
      modifies this`clock, this`target, this`sizes
      ensures Valid() && target.mem == old(target.mem)
      ensures answers(old(clock)) ==>
                && status == Success && clock == old(clock) + 1
                && target.streams == streams0 + [Stream(address, whole + word)]
      ensures !answers(old(clock)) ==>
                && clock == old(clock) + 2 && status == (if answers(old(clock) + 1) then Success else Failure)
                && target.streams ==
                   streams0 + [Stream(address, whole)] + if status == Success then [Stream(0, [])] else []
    {
      LzWord(answers, clock, max - 8);
      assert word[..4] == word && word[..0] == [];
      status := SendLz(word);
      AppendBehind(streams0, Stream(address, whole), if status == Success then word else []);
      if status != Success {
        status := StreamStart(0);
      }
    }

    /** Open a stream and send the whole words of an image on it. */
    method SendWhole(address: nat, image: Bytes) returns (status: Status)
      requires Valid()
      modifies this`clock, this`target, this`sizes
      ensures Valid() && target.mem == old(target.mem)
      ensures bmiDone ==> status == NotPermitted && target == old(target)
      ensures !bmiDone && !answers(old(clock)) ==>
                status == Failure && clock == old(clock) + 1 && target.streams == old(target.streams)
      ensures !bmiDone && answers(old(clock)) ==>
                var r := LzRun(answers, old(clock) + 1, |Whole(image)|, 0, max - 8);
                && status == (if r.ok then Success else Failure) && clock == r.clock
                && target.streams == old(target.streams) + [Stream(address, Whole(image)[..r.count])]
    {
      status := StreamStart(address);
      if status != Success {
        assert old(target.streams) + [] == old(target.streams);
        return;
      }
      var lastWordOffset := |image| - |image| % 4;
      status := SendLz(image[..lastWordOffset]);
      ghost var count := LzRun(answers, old(clock) + 1, |Whole(image)|, 0, max - 8).count;
      AppendBehind(old(target.streams), Stream(address, []), Whole(image)[..count]);
    }

    /** Download an image as a compressed stream. */
    method FastDownload(address: nat, image: Bytes) returns (status: Status)
      requires Valid()
      modifies this`clock, this`target, this`sizes
      ensures Valid() && target.mem == old(target.mem)
      ensures bmiDone ==> status == NotPermitted && target == old(target)
      ensures !bmiDone ==>
                var o := Download(answers, old(clock), max - 8, address, image);
                status == o.status && clock == o.clock && target.streams == old(target.streams) + o.streams
    {
      status := SendWhole(address, image);
      assert Whole(image)[..|Whole(image)|] == Whole(image);
      if status != Success || |image| % 4 == 0 {
        assert old(target.streams) + [] == old(target.streams);
        return;
      }
      status := SendLastWord(address, LastWord(image), old(target.streams), Whole(image));
      assert old(target.streams) + [Stream(address, Whole(image))] + [Stream(0, [])] ==
             old(target.streams) + [Stream(address, Whole(image)), Stream(0, [])];
    }
  }

  lemma LzWord(answers: Answers, clock: nat, chunk: nat)
    requires chunk >= 4
    ensures LzRun(answers, clock, 4, 0, chunk) ==
            if answers(clock) then Transfer(true, clock + 1, 4) else Transfer(false, clock + 1, 0)
  {
  }

  lemma AppendNothing(streams: seq<Stream>)
    ensures Append(streams, []) == streams
  {
    if streams != [] {
      assert streams[|streams| - 1].data + [] == streams[|streams| - 1].data;
    }
  }

  lemma AppendNext(streams: seq<Stream>, data: Bytes, i: nat, j: nat)
    requires i <= j <= |data|
    ensures Append(Append(streams, data[..i]), data[i..j]) == Append(streams, data[..j])
  {
    assert data[..i] + data[i..j] == data[..j];
    if streams != [] {
      var d := streams[|streams| - 1].data;
      assert d + data[..i] + data[i..j] == d + (data[..i] + data[i..j]);
    }
  }

  lemma AppendBehind(streams: seq<Stream>, last: Stream, data: Bytes)
    ensures Append(streams + [last], data) == streams + [Stream(last.address, last.data + data)]
    ensures last.data == [] ==> Append(streams + [last], data) == streams + [Stream(last.address, data)]
    ensures data == [] ==> Append(streams + [last], data) == streams + [last]
  {
    assert [] + data == data && last.data + [] == last.data;
  }
}
