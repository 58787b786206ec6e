/**
 Dumping target registers section by section into one buffer, at the offsets their addresses have
 from the first (`ol_diag_read`, `ol_diag_read_reg_loc`).
 */
module RegDump {
  import opened Basics

  const PCIE_READ_LIMIT := 0x40000
  const EIO := 5

  /** Registers from `start` up to, not including, `end`. */
  datatype Section = Section(start: nat, end: nat)

  /** The order the table must obey: start0 < end0 < start1 < end1 < ... */
  predicate Ordered(table: seq<Section>) {
    && (forall i :: 0 <= i < |table| ==> table[i].start < table[i].end)
    && (forall i, j :: 0 <= i < j < |table| ==> table[i].end < table[j].start)
  }

  /** The length declared with a table is its whole span. */
  predicate Spans(table: seq<Section>, len: nat) {
    table != [] ==> Last(table).end - table[0].start == len
  }

  function Last(table: seq<Section>): Section
    requires table != []
  {
    table[|table| - 1]
  }

  predicate InSection(s: Section, a: nat) {
    s.start <= a < s.end
  }

  /** Address `a` belongs to one of the first `n` sections. */
  predicate Listed(table: seq<Section>, n: nat, a: nat)
    requires n <= |table|
  {
    exists i :: 0 <= i < n && InSection(table[i], a)
  }

  /** Registers of the first `k` sections lie at their address less the first one; everything else is
      as it was. */
  ghost predicate Dumped(table: seq<Section>, k: nat, mem: nat -> Byte, before: seq<Byte>, after: seq<Byte>)
    requires table != [] && k <= |table|
  {
    && |after| == |before|
    && forall j :: 0 <= j < |after| ==> after[j] == Expected(table, k, mem, before, j)
  }

  ghost function Expected(table: seq<Section>, k: nat, mem: nat -> Byte, before: seq<Byte>, j: nat): Byte
    requires table != [] && k <= |table| && j < |before|
  {
    if Listed(table, k, table[0].start + j) then mem(table[0].start + j) else before[j]
  }

  lemma DumpedNext(table: seq<Section>, k: nat, mem: nat -> Byte, before: seq<Byte>, mid: seq<Byte>, after: seq<Byte>)
    requires k < |table| && Dumped(table, k, mem, before, mid) && |after| == |mid|
    requires forall j :: 0 <= j < |after| ==>
               after[j] == if InSection(table[k], table[0].start + j) then mem(table[0].start + j) else mid[j]
    ensures Dumped(table, k + 1, mem, before, after)
  {
    forall j | 0 <= j < |after| ensures after[j] == Expected(table, k + 1, mem, before, j) {
      ListedNext(table, k, table[0].start + j);
      assert mid[j] == Expected(table, k, mem, before, j);
    }
  }

  lemma ListedNext(table: seq<Section>, k: nat, a: nat)
    requires k < |table|
    ensures Listed(table, k + 1, a) <==> Listed(table, k, a) || InSection(table[k], a)
  {
  }

  /** A dump of `k` sections, byte by byte: a register of one of them is found at its address less the first
      address of the table, and a byte that stands for no register of theirs is as it was. */
  lemma DumpHolds(table: seq<Section>, k: nat, mem: nat -> Byte, before: seq<Byte>, after: seq<Byte>)
    requires table != [] && k <= |table| && Dumped(table, k, mem, before, after)
    ensures forall i, j :: 0 <= i < k && 0 <= j < |before| && table[i].start <= table[0].start + j < table[i].end ==>
              after[j] == mem(table[0].start + j)
    ensures forall j | 0 <= j < |before| ::
              || after[j] == before[j]
              || exists i :: 0 <= i < k && table[i].start <= table[0].start + j < table[i].end
  {
    forall i, j | 0 <= i < k && 0 <= j < |before| && table[i].start <= table[0].start + j < table[i].end
      ensures after[j] == mem(table[0].start + j)
    {
      assert InSection(table[i], table[0].start + j);
      assert after[j] == Expected(table, k, mem, before, j);
    }
    forall j | 0 <= j < |before|
      ensures after[j] == before[j] || exists i :: 0 <= i < k && table[i].start <= table[0].start + j < table[i].end
    {
      assert after[j] == Expected(table, k, mem, before, j);
    }
  }

  /** Where a section ends relative to the declared span: only the last one reaches it. */
  lemma EndsWithin(table: seq<Section>, len: nat, i: nat)
    requires Ordered(table) && Spans(table, len) && i < |table|
    ensures table[0].start <= table[i].start && (table[i].end - table[0].start == len <==> i == |table| - 1)
    ensures table[i].end - table[0].start <= len
  {
  }

  /** How far the dump gets in a buffer of `room` bytes that holds `k` whole sections: to the start of the
      next section if the gap before it fits, else to the end of the last one. */
  function Reached(table: seq<Section>, k: nat, sectionLen: nat, room: nat): int
    requires k <= |table|
  {
    if k == |table| then sectionLen
    else if table[k].start - table[0].start <= room then table[k].start - table[0].start
    else if k == 0 then 0
    else table[k - 1].end - table[0].start
  }

  class Dumper {
    /** The target's registers, and which reads succeed. */
    const mem: nat -> Byte
    const answers: nat -> bool
    var clock: nat
    var buffer: array<Byte>

    /** One transfer of `count` bytes, within the limit of the bus, to the buffer's offset `at`. */
    method ReadMem(at: nat, pos: nat, count: nat) returns (ok: bool)
      requires at + count <= buffer.Length && count <= 0x40000
      modifies this`clock, buffer
      ensures clock == old(clock) + 1 && ok == answers(old(clock))
      ensures ok ==> forall i :: at <= i < at + count ==> buffer[i] == mem(pos + (i - at))
      ensures forall i :: 0 <= i < buffer.Length && !(at <= i < at + count) ==> buffer[i] == old(buffer[i])
    {
      ok := answers(clock);
      clock := clock + 1;
      if ok {
        forall i | at <= i < at + count {
          buffer[i] := mem(pos + (i - at));
        }
      }
    }

    /** Read in pieces within the bus limit: exactly the `count` bytes from `pos` on. */
    method DiagRead(at: nat, pos: nat, count: nat) returns (len: int)
      requires at + count <= buffer.Length
      modifies this`clock, buffer
      ensures len == count || len == -EIO
      ensures len == -EIO ==> clock > old(clock) && !answers(clock - 1)
      ensures len == count ==> clock > old(clock) && forall k :: old(clock) <= k < clock ==> answers(k)
      ensures len == count ==> forall i :: at <= i < at + count ==> buffer[i] == mem(pos + (i - at))
      ensures forall i :: 0 <= i < buffer.Length && !(at <= i < at + count) ==> buffer[i] == old(buffer[i])
    {
      var ok := true;
      if count == 4 && pos % 4 == 0 {
        ok := ReadMem(at, pos, count);
      } else if count > PCIE_READ_LIMIT {
        ok := ReadPieces(at, pos, count);
      } else {
        ok := ReadMem(at, pos, count);
      }
      len := if ok then count else -EIO;
    }

    method ReadPieces(at: nat, pos: nat, count: nat) returns (ok: bool)
      requires at + count <= buffer.Length && count > PCIE_READ_LIMIT
      modifies this`clock, buffer
      ensures clock > old(clock)
      ensures !ok ==> !answers(clock - 1)
      ensures ok ==> forall k :: old(clock) <= k < clock ==> answers(k)
      ensures ok ==> forall i :: at <= i < at + count ==> buffer[i] == mem(pos + (i - at))
      ensures forall i :: 0 <= i < buffer.Length && !(at <= i < at + count) ==> buffer[i] == old(buffer[i])
    {
      ok := true;
      var amountRead, readSize := 0, PCIE_READ_LIMIT;
      while amountRead < count && ok
        invariant 0 <= amountRead <= count && clock >= old(clock) && (amountRead > 0 || !ok ==> clock > old(clock))
        invariant readSize == if count - amountRead < PCIE_READ_LIMIT then count - amountRead else PCIE_READ_LIMIT
        invariant !ok ==> clock > old(clock) && !answers(clock - 1)
        invariant ok ==> forall k :: old(clock) <= k < clock ==> answers(k)
        invariant forall i :: at <= i < at + amountRead ==> buffer[i] == mem(pos + (i - at))
        invariant forall i :: 0 <= i < buffer.Length && !(at <= i < at + count) ==> buffer[i] == old(buffer[i])
        decreases count - amountRead, ok
      {
        ok := ReadMem(at + amountRead, pos + amountRead, readSize);
        if ok {
          amountRead := amountRead + readSize;
          var remainder := count - amountRead;
          if remainder < PCIE_READ_LIMIT {
            readSize := remainder;
          }
        }
      }
    }

    /** No read since number `from` has failed. */
    ghost predicate AllRead(from: nat)
      reads this
    {
      from <= clock && forall k: nat :: from <= k < clock ==> answers(k)
    }

    /** Read section `i` to its place in the buffer. */
    method DumpSection(table: seq<Section>, i: nat, at: nat, ghost before: seq<Byte>, ghost from: nat)
      returns (len: int)
      requires i < |table| && table[i].start <= table[i].end && at == table[i].start - table[0].start
      requires at + (table[i].end - table[i].start) <= buffer.Length && AllRead(from)
      requires Dumped(table, i, mem, before, buffer[..])
      modifies this`clock, buffer
      ensures len == table[i].end - table[i].start || len == -EIO
      ensures len == -EIO ==> clock > old(clock) && !answers(clock - 1)
      ensures len != -EIO ==> AllRead(from) && Dumped(table, i + 1, mem, before, buffer[..])
    {
      ghost var mid := buffer[..];
      len := DiagRead(at, table[i].start, table[i].end - table[i].start);
      if len != -EIO {
        DumpedNext(table, i, mem, before, mid, buffer[..]);
      }
    }

    /** Dump the sections of `table`, whose declared span is `sectionLen`. The result is how far the
        dump got, or -EIO; `k` is how many sections are in the buffer: exactly those that fit. */
    method ReadRegLoc(table: seq<Section>, sectionLen: nat) returns (result: int, ghost k: nat)
      requires Ordered(table) && Spans(table, sectionLen)
      modifies this`clock, buffer
      ensures table == [] || sectionLen == 0 ==> result == -EIO
      ensures table != [] && result == -EIO ==> clock > old(clock) && !answers(clock - 1)
      ensures table != [] && result != -EIO ==> AllRead(old(clock))
      ensures table != [] && result != -EIO ==> (result == sectionLen <==> sectionLen <= buffer.Length)
      ensures table != [] && result != -EIO ==> k <= |table| && Dumped(table, k, mem, old(buffer[..]), buffer[..])
      ensures table != [] && result != -EIO ==>
                && (k < |table| ==> table[k].end - table[0].start > buffer.Length)
                && (k > 0 ==> table[k - 1].end - table[0].start <= buffer.Length)
                && (result == sectionLen <==> k == |table|)
                && result == Reached(table, k, sectionLen, buffer.Length)
    {
      k := 0;
      if table == [] || sectionLen == 0 {
        return -EIO, k;
      }
      result := 0;
      var i := 0;
      while i < |table|
        invariant 0 <= i <= |table| && k == i && (i > 0 ==> table[i - 1].end - table[0].start <= buffer.Length)
        invariant result == if i < |table| then table[i].start - table[0].start else sectionLen
        invariant 0 <= result <= buffer.Length && AllRead(old(clock))
        invariant Dumped(table, i, mem, old(buffer[..]), buffer[..])
      {
        var curr := table[i];
        var dumpLen := curr.end - curr.start;
        if buffer.Length - result < dumpLen {
          return;
        }
        EndsWithin(table, sectionLen, i);
        var len := DumpSection(table, i, result, old(buffer[..]), old(clock));
        if len == -EIO {
          return -EIO, k;
        }
        k := i + 1;
        result := result + len;
        if result < sectionLen {
          var next := table[i + 1];
          var fillLen := next.start - curr.end;
          if buffer.Length - result < fillLen {
            return;
          }
          result := result + fillLen;
        }
        i := i + 1;
      }
    }
  }
}
