/**
 The TLV wire form of WMI commands, and a command buffer that is filled from the front.

 The width of a header and the images of fixed structures belong to the firmware interface: the
 width is a parameter, an image is whatever sequence of bytes the caller gives.
 */
module WmiTlv {
  import opened Basics

  datatype Tag = ArrayStruc | ArrayFixedStruc | ArrayUint32 | ArrayByte

  /** What lies in a byte of the buffer: the first byte of an array header, another byte of a header,
      or data. */
  datatype Cell = Hdr(tag: Tag, len: nat) | HdrRest | Data(value: int)

  type Image = seq<Cell>

  datatype Tlv = Tlv(tag: Tag, payload: Image)

  function Header(h: nat, tag: Tag, len: nat): (r: Image)
    requires h > 0
    ensures |r| == h
  {
    [Hdr(tag, len)] + seq(h - 1, _ => HdrRest)
  }

  function EncodeOne(h: nat, t: Tlv): (r: Image)
    requires h > 0
    ensures |r| == h + |t.payload|
  {
    Header(h, t.tag, |t.payload|) + t.payload
  }

  /** The TLVs one behind the other. */
  function Encode(h: nat, ts: seq<Tlv>): Image
    requires h > 0
  {
    if ts == [] then [] else Encode(h, ts[..|ts| - 1]) + EncodeOne(h, ts[|ts| - 1])
  }

  /** A reader's walk: take the header's word for the length, skip, go on to the end of the buffer. */
  function Walk(h: nat, cells: Image): Option<seq<Tlv>>
    requires h > 0
    decreases |cells|
  {
    if cells == [] then Some([])
    else if !cells[0].Hdr? || |cells| < h + cells[0].len then None
    else
      var n := h + cells[0].len;
      match Walk(h, cells[n..])
      case None => None
      case Some(rest) => Some([Tlv(cells[0].tag, cells[h..n])] + rest)
  }

  lemma {:induction false} EncodeSnoc(h: nat, ts: seq<Tlv>, t: Tlv)
    requires h > 0
    ensures Encode(h, ts + [t]) == Encode(h, ts) + EncodeOne(h, t)
  {
    assert (ts + [t])[..|ts|] == ts;
  }

  lemma EncodeSingle(h: nat, t: Tlv)
    requires h > 0
    ensures Encode(h, [t]) == EncodeOne(h, t)
  {
    EncodeSnoc(h, [], t);
    assert [] + [t] == [t];
  }

  lemma Regroup(a: Image, b: Image, c: Image)
    ensures a + b + c == a + (b + c)
  {
  }

  lemma NothingBehind(a: Image)
    ensures a + [] == a
  {
  }

  lemma AppendLast(h: nat, ts: seq<Tlv>, us: seq<Tlv>, last: Tlv)
    requires h > 0 && Encode(h, ts + us) == Encode(h, ts) + Encode(h, us)
    ensures Encode(h, ts + (us + [last])) == Encode(h, ts) + Encode(h, us + [last])
  {
    EncodeSnoc(h, ts + us, last);
    EncodeSnoc(h, us, last);
    assert ts + us + [last] == ts + (us + [last]);
    Regroup(Encode(h, ts), Encode(h, us), EncodeOne(h, last));
  }

  lemma {:induction false} EncodeAppend(h: nat, ts: seq<Tlv>, us: seq<Tlv>)
    requires h > 0
    ensures Encode(h, ts + us) == Encode(h, ts) + Encode(h, us)
    decreases |us|
  {
    if us == [] {
      assert ts + us == ts && Encode(h, us) == [];
      NothingBehind(Encode(h, ts));
    } else {
      var front, last := us[..|us| - 1], us[|us| - 1];
      assert us == front + [last];
      EncodeAppend(h, ts, front);
      AppendLast(h, ts, front, last);
    }
  }

  lemma WalkStep(h: nat, t: Tlv, rest: Image, ts: seq<Tlv>)
    requires h > 0 && Walk(h, rest) == Some(ts)
    ensures Walk(h, EncodeOne(h, t) + rest) == Some([t] + ts)
  {
    var cells := EncodeOne(h, t) + rest;
    var n := h + |t.payload|;
    assert cells[0] == Hdr(t.tag, |t.payload|);
    assert cells[n..] == rest;
    assert cells[h..n] == t.payload;
  }

  /** Round trip: the walk finds exactly the TLVs that were written, and ends at the end. */
  lemma {:induction false} WalkEncode(h: nat, ts: seq<Tlv>)
    requires h > 0
    ensures Walk(h, Encode(h, ts)) == Some(ts)
  {
    if ts == [] {
    } else {
      WalkEncode(h, ts[1..]);
      WalkStep(h, ts[0], Encode(h, ts[1..]), ts[1..]);
      EncodeAppend(h, [ts[0]], ts[1..]);
      EncodeSingle(h, ts[0]);
      assert [ts[0]] + ts[1..] == ts;
    }
  }

  /** Payload bytes of the first `n` TLVs. */
  function Total(ts: seq<Tlv>, n: nat): nat
    requires n <= |ts|
  {
    if n == 0 then 0 else Total(ts, n - 1) + |ts[n - 1].payload|
  }

  lemma {:induction false} TotalOfEmpty(ts: seq<Tlv>, n: nat)
    requires n <= |ts| && forall i :: 0 <= i < n ==> ts[i].payload == []
    ensures Total(ts, n) == 0
  {
    if n == 0 {
    } else {
      TotalOfEmpty(ts, n - 1);
    }
  }

  lemma {:induction false} EncodePrefixLength(h: nat, ts: seq<Tlv>, n: nat)
    requires h > 0 && n <= |ts|
    ensures |Encode(h, ts[..n])| == n * h + Total(ts, n)
  {
    if n == 0 {
    } else {
      EncodePrefixLength(h, ts, n - 1);
      EncodeSnoc(h, ts[..n - 1], ts[n - 1]);
      assert ts[..n - 1] + [ts[n - 1]] == ts[..n];
      OneMore(n - 1, h);
    }
  }

  /** A header and its payload for each TLV. */
  lemma EncodeLength(h: nat, ts: seq<Tlv>)
    requires h > 0
    ensures |Encode(h, ts)| == |ts| * h + Total(ts, |ts|)
  {
    EncodePrefixLength(h, ts, |ts|);
    assert ts[..|ts|] == ts;
  }

  predicate AllOfSize(items: seq<Image>, size: nat) {
    forall i :: 0 <= i < |items| ==> |items[i]| == size
  }

  lemma OneMore(n: nat, size: nat)
    ensures (n + 1) * size == n * size + size
  {
  }

  lemma {:induction false} FlatSize(items: seq<Image>, size: nat)
    requires AllOfSize(items, size)
    ensures |Flat(items)| == |items| * size
  {
    if items == [] {
    } else {
      var n := |items| - 1;
      assert AllOfSize(items[..n], size) && |items[..n]| == n;
      FlatSize(items[..n], size);
      OneMore(n, size);
    }
  }

  lemma FlatNext(items: seq<Image>, i: nat)
    requires i < |items|
    ensures Flat(items[..i + 1]) == Flat(items[..i]) + items[i]
  {
    assert items[..i + 1][..i] == items[..i];
  }

  /** Writing a header and a payload behind TLVs makes one TLV more. */
  lemma HoldsNext(h: nat, base: Image, ts: seq<Tlv>, t: Tlv)
    requires h > 0
    ensures base + Encode(h, ts) + Header(h, t.tag, |t.payload|) + t.payload == base + Encode(h, ts + [t])
  {
    EncodeSnoc(h, ts, t);
  }

  lemma HeaderOnly(h: nat, base: Image, ts: seq<Tlv>, tag: Tag)
    requires h > 0
    ensures base + Encode(h, ts) + Header(h, tag, 0) == base + Encode(h, ts + [Tlv(tag, [])])
  {
    HoldsNext(h, base, ts, Tlv(tag, []));
    NothingBehind(base + Encode(h, ts) + Header(h, tag, 0));
  }

  lemma FlatAppend(mid: Image, items: seq<Image>, i: nat)
    requires i < |items|
    ensures mid + Flat(items[..i]) + items[i] == mid + Flat(items[..i + 1])
  {
    FlatNext(items, i);
  }

  /** A command buffer and the writing position in it. */
  class CmdBuf {
    const data: array<Cell>
    const h: nat
    var pos: nat
    /** What was written: fixed parameters, then TLVs. */
    ghost var fixed: Image
    ghost var written: seq<Tlv>

    ghost predicate Valid()
      reads this, data
    {
      h > 0 && pos <= data.Length && data[..pos] == fixed + Encode(h, written)
    }

    /** `init` is what the allocated memory happens to hold. */
    constructor (h: nat, init: Image)
      requires h > 0
      ensures Valid() && fresh(data) && this.h == h && data[..] == init
      ensures pos == 0 && fixed == [] && written == []
    {
      this.h := h;
      var d := new Cell[|init|](i requires 0 <= i < |init| => init[i]);
      data := d;
      pos := 0;
      fixed, written := [], [];
      new;
      assert data[..] == init;
    }

    /** Copy to the writing position and go past it. */
    method Put(image: Image)
      requires h > 0 && pos + |image| <= data.Length
      modifies this`pos, data
      ensures pos == old(pos) + |image| <= data.Length
      ensures data[..pos] == old(data[..pos]) + image && data[pos..] == old(data[pos + |image|..])
    {
      forall i | 0 <= i < |image| {
        data[pos + i] := image[i];
      }
      pos := pos + |image|;
      assert data[..pos] == old(data[..pos]) + image;
    }

    /** Go past `n` bytes and leave them as they are. */
    method Skip(n: nat) returns (ghost pad: Image)
      requires pos + n <= data.Length
      modifies this`pos
      ensures pos == old(pos) + n && |pad| == n && data[..pos] == old(data[..pos]) + pad
    {
      pad := data[pos..pos + n];
      pos := pos + n;
    }

    /** Write a fixed-parameter structure. */
    method PutFixed(image: Image)
      requires Valid() && written == [] && pos + |image| <= data.Length
      modifies this`pos, this`fixed, data
      ensures Valid() && fixed == old(fixed) + image && pos == old(pos) + |image|
    {
      Put(image);
      fixed := fixed + image;
    }

    /** Write a header and the TLV's payload. */
    method PutTlv(tag: Tag, payload: Image)
      requires Valid() && pos + h + |payload| <= data.Length
      modifies this`pos, this`written, data
      ensures Valid() && written == old(written) + [Tlv(tag, payload)] && pos == old(pos) + h + |payload|
    {
      Put(Header(h, tag, |payload|));
      Put(payload);
      HoldsNext(h, fixed, written, Tlv(tag, payload));
      written := written + [Tlv(tag, payload)];
    }

    /** Write a header for `len` bytes and the `bytes`, then skip to `len`: the rest is what was there. */
    method PutPadded(tag: Tag, bytes: Image, len: nat) returns (ghost pad: Image)
      requires Valid() && |bytes| <= len && pos + h + len <= data.Length
      modifies this`pos, this`written, data
      ensures Valid() && |pad| == len - |bytes| && written == old(written) + [Tlv(tag, bytes + pad)]
      ensures pos == old(pos) + h + len
    {
      ghost var front := data[..pos];
      Put(Header(h, tag, len));
      Put(bytes);
      pad := Skip(len - |bytes|);
      Regroup(front + Header(h, tag, len), bytes, pad);
      HoldsNext(h, fixed, written, Tlv(tag, bytes + pad));
      written := written + [Tlv(tag, bytes + pad)];
    }

    /** Write a header that announces no payload. */
    method PutHeaderOnly(tag: Tag, len: int)
      requires Valid() && len == 0 && pos + h <= data.Length
      modifies this`pos, this`written, data
      ensures Valid() && written == old(written) + [Tlv(tag, [])] && pos == old(pos) + h
    {
      HeaderOnly(h, fixed, written, tag);
      Put(Header(h, tag, len));
      written := written + [Tlv(tag, [])];
    }

    /** The whole buffer, once it is full. */
    method Contents() returns (r: Image)
      requires Valid() && pos == data.Length
      ensures r == fixed + Encode(h, written)
    {
      assert data[..] == data[..pos];
      r := data[..];
    }

    /** Three TLVs in a row. */
    method PutThree(a: Tlv, b: Tlv, c: Tlv)
      requires Valid() && pos + 3 * h + |a.payload| + |b.payload| + |c.payload| <= data.Length
      modifies this`pos, this`written, data
      ensures Valid() && written == old(written) + [a, b, c]
      ensures pos == old(pos) + 3 * h + |a.payload| + |b.payload| + |c.payload|
    {
      PutTlv(a.tag, a.payload);
      PutTlv(b.tag, b.payload);
      PutTlv(c.tag, c.payload);
    }

    /** Structures of one size, one by one. */
    method PutEach(items: seq<Image>, size: nat)
      requires h > 0 && AllOfSize(items, size) && pos + |items| * size <= data.Length
      modifies this`pos, data
      ensures pos == old(pos) + |items| * size <= data.Length && data[..pos] == old(data[..pos]) + Flat(items)
    {
      for i := 0 to |items|
        invariant pos == old(pos) + i * size <= data.Length && data[..pos] == old(data[..pos]) + Flat(items[..i])
      {
        FlatRoom(i, |items|, size);
        Put(items[i]);
        FlatAppend(old(data[..pos]), items, i);
      }
      assert items[..|items|] == items;
    }

    /** Write a header for structures of one size, then the structures. */
    method PutItems(tag: Tag, items: seq<Image>, size: nat)
      requires Valid() && AllOfSize(items, size) && pos + h + |Flat(items)| <= data.Length
      modifies this`pos, this`written, data
      ensures Valid() && written == old(written) + [Tlv(tag, Flat(items))] && pos == old(pos) + h + |Flat(items)|
    {
      FlatSize(items, size);
      var len := |items| * size;
      Put(Header(h, tag, len));
      PutEach(items, size);
      HoldsNext(h, fixed, written, Tlv(tag, Flat(items)));
      written := written + [Tlv(tag, Flat(items))];
    }
  }

  lemma {:induction false} FlatRoom(i: nat, n: nat, size: nat)
    requires i < n
    ensures i * size + size <= n * size && (i + 1) * size == i * size + size
    decreases n
  {
    OneMore(i, size);
    if i + 1 == n {
    } else {
      FlatRoom(i, n - 1, size);
      OneMore(n - 1, size);
    }
  }
}
