/** A seekable byte stream written through a BinaryWriter, as the generator
    sees it: a byte sequence and a position that may lie past its end. */
module Stream {
  import opened Bytes

  function Max(a: nat, b: nat): nat { if a < b then b else a }

  /** The stream contents after writing `bs` at position `p` of `d`: the
      bytes before `p` are kept, a write past the end first fills the gap
      with zero bytes, and bytes beyond the written range are kept; writing
      nothing changes nothing. */
  function Overwrite(d: seq<uint8>, p: nat, bs: seq<uint8>): (r: seq<uint8>)
    ensures |r| == if bs == [] then |d| else Max(|d|, p + |bs|)
  {
    if bs == [] then d
    else if p + |bs| <= |d| then d[..p] + bs + d[p + |bs|..]
    else if p <= |d| then d[..p] + bs
    else d + Zeros(p - |d|) + bs
  }

  /** What a write leaves in the stream: the written bytes at their place,
      and elsewhere what was there before, or zero in a gap past the old end. */
  lemma {:induction false} OverwriteContents(d: seq<uint8>, p: nat, bs: seq<uint8>)
    ensures forall i :: 0 <= i < |bs| ==> Overwrite(d, p, bs)[p + i] == bs[i]
    ensures forall i :: 0 <= i < |Overwrite(d, p, bs)| && !(p <= i < p + |bs|) ==>
              Overwrite(d, p, bs)[i] == if i < |d| then d[i] else 0
  {
    if bs != [] && p > |d| {
      var r := Overwrite(d, p, bs);
      forall i | 0 <= i < |r| && !(p <= i < p + |bs|)
        ensures r[i] == if i < |d| then d[i] else 0
      {
        if |d| <= i {
          assert r[i] == Zeros(p - |d|)[i - |d|];
        }
      }
    }
  }

  /** Writing to a fresh stream leaves exactly what was written. */
  lemma {:induction false} OverwriteFresh(bs: seq<uint8>)
    ensures Overwrite([], 0, bs) == bs
  {
    OverwriteAtEnd([], bs);
    assert [] + bs == bs;
  }

  /** A header written to a fresh stream, a part written after a gap of
      |table| bytes, then the table written into the gap: the three parts in
      order. */
  lemma {:induction false} GapFilled(header: seq<uint8>, table: seq<uint8>, rest: seq<uint8>, fix: nat, gapEnd: nat,
                                     headerWritten: seq<uint8>, afterRest: seq<uint8>, final: seq<uint8>)
    requires fix == |header| && gapEnd == fix + |table|
    requires headerWritten == Overwrite([], 0, header)
    requires afterRest == Overwrite(headerWritten, gapEnd, rest)
    requires final == Overwrite(afterRest, fix, table)
    ensures final == header + table + rest
  {
    OverwriteFresh(header);
    OverwriteReserved(header, table, rest);
  }

  /** Writing at the end of the stream appends. */
  lemma {:induction false} OverwriteAtEnd(d: seq<uint8>, bs: seq<uint8>)
    ensures Overwrite(d, |d|, bs) == d + bs
  {
    if bs == [] {
      assert d + bs == d;
    } else {
      assert d[..|d|] == d;
    }
  }

  /** Two writes back to back are one write of both. */
  lemma {:induction false} OverwriteConsecutive(d: seq<uint8>, p: nat, a: seq<uint8>, b: seq<uint8>)
    ensures Overwrite(Overwrite(d, p, a), p + |a|, b) == Overwrite(d, p, a + b)
  {
    var lhs := Overwrite(Overwrite(d, p, a), p + |a|, b);
    var rhs := Overwrite(d, p, a + b);
    OverwriteContents(d, p, a);
    OverwriteContents(Overwrite(d, p, a), p + |a|, b);
    OverwriteContents(d, p, a + b);
    if a != [] && b != [] {
      assert |lhs| == |rhs|;
      forall i | 0 <= i < |lhs| ensures lhs[i] == rhs[i] {
        if p <= i < p + |a| {
          assert rhs[i] == (a + b)[i - p];
        } else if p + |a| <= i < p + |a| + |b| {
          assert rhs[i] == (a + b)[i - p];
        }
      }
    } else if a == [] {
      assert a + b == b;
    } else {
      assert a + b == a;
    }
  }

  /** Two more writes right after a written run extend the run by both. */
  lemma {:induction false} TwoMoreWritten(d0: seq<uint8>, p0: nat, run: seq<uint8>, a: seq<uint8>, b: seq<uint8>,
                                          d1: seq<uint8>, d2: seq<uint8>)
    requires d1 == Overwrite(Overwrite(d0, p0, run), p0 + |run|, a)
    requires d2 == Overwrite(d1, p0 + |run| + |a|, b)
    ensures d2 == Overwrite(d0, p0, run + (a + b))
  {
    OverwriteConsecutive(d0, p0, run, a);
    OverwriteConsecutive(d0, p0, run + a, b);
    assert run + a + b == run + (a + b);
  }

  /** A write followed by zero padding up to the next multiple of 8 is one
      write of the padded bytes. */
  lemma {:induction false} WriteThenAlign(d0: seq<uint8>, p0: nat, bs: seq<uint8>, pos1: nat, d1: seq<uint8>, d2: seq<uint8>)
    requires d1 == Overwrite(d0, p0, bs) && pos1 == p0 + |bs|
    requires d2 == Overwrite(d1, pos1, Zeros(Pad8(pos1)))
    ensures d2 == Overwrite(d0, p0, bs + Zeros(Pad8(p0 + |bs|)))
    ensures pos1 + Pad8(pos1) == p0 + |bs + Zeros(Pad8(p0 + |bs|))|
  {
    OverwriteConsecutive(d0, p0, bs, Zeros(Pad8(p0 + |bs|)));
  }

  /** The backfill step: a region reserved right after `head` and skipped over
      with content written behind it is filled in by writing `table` there. */
  lemma {:induction false} OverwriteReserved(head: seq<uint8>, table: seq<uint8>, rest: seq<uint8>)
    ensures Overwrite(Overwrite(head, |head| + |table|, rest), |head|, table) == head + table + rest
  {
    var mid := Overwrite(head, |head| + |table|, rest);
    assert head[..|head|] == head;
    if table == [] {
      assert head + table + rest == head + rest;
    } else if rest == [] {
      assert head + table + rest == head + table;
    } else {
      assert mid == head + Zeros(|table|) + rest;
      assert mid[..|head|] == head;
      assert mid[|head| + |table|..] == rest;
    }
  }

  /** The backfill step touches nothing outside the reserved region
      [lo, hi): every other byte of the result is the byte that was there. */
  lemma {:induction false} OverwriteReservedOnly(head: seq<uint8>, table: seq<uint8>, rest: seq<uint8>, lo: nat, hi: nat,
                              before: seq<uint8>, after: seq<uint8>)
    requires lo == |head| && hi == |head| + |table|
    requires before == Overwrite(head, hi, rest) && after == head + table + rest
    ensures after == Overwrite(before, lo, table)
    ensures forall k :: 0 <= k < |after| && !(lo <= k < hi) ==> k < |before| && after[k] == before[k]
  {
    OverwriteReserved(head, table, rest);
    OverwriteContents(before, lo, table);
  }

  /** The stream a BinaryWriter writes to. Writes overwrite in place from the
      current position and advance it; the position can be set anywhere. */
  class BinaryStream {
    var data: seq<uint8>
    var pos: nat

    constructor ()
      ensures data == [] && pos == 0
    {
      data := [];
      pos := 0;
    }

    method Write(bs: seq<uint8>)
      modifies this
      ensures data == Overwrite(old(data), old(pos), bs)
      ensures pos == old(pos) + |bs|
    {
      data := Overwrite(data, pos, bs);
      pos := pos + |bs|;
    }

    /** BinaryWriter.Write(uint). */
    method WriteU32(x: uint32)
      modifies this
      ensures data == Overwrite(old(data), old(pos), U32Bytes(x))
      ensures pos == old(pos) + 4
    {
      Write(U32Bytes(x));
    }

    /** BinaryWriter.Write(int). */
    method WriteI32(x: int32)
      modifies this
      ensures data == Overwrite(old(data), old(pos), I32Bytes(x))
      ensures pos == old(pos) + 4
    {
      Write(I32Bytes(x));
    }

    /** Assigning Stream.Position. */
    method Seek(p: nat)
      modifies this`pos
      ensures pos == p
    {
      pos := p;
    }

    /** The generation context's AlignStreamPosition(8): zero bytes up to the
        next multiple of 8. */
    method AlignTo8()
      modifies this
      ensures pos % 8 == 0
      ensures pos == old(pos) + Pad8(old(pos))
      ensures data == Overwrite(old(data), old(pos), Zeros(Pad8(old(pos))))
    {
      Write(Zeros(Pad8(pos)));
    }
  }
}
