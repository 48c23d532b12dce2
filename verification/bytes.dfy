/** Bytes, fixed-width integers and the little-endian encodings that
    System.IO.BinaryWriter uses for `uint`, `int` and `float` values. */
module Bytes {

  type uint8 = x: int | 0 <= x < 0x100
  type uint32 = x: int | 0 <= x < 0x1_0000_0000
  type int32 = x: int | -0x8000_0000 <= x < 0x8000_0000

  const TWO_TO_THE_32: int := 0x1_0000_0000

  /** `n` zero bytes: what a stream holds where nothing was written. */
  function Zeros(n: nat): (r: seq<uint8>)
    ensures |r| == n
    ensures forall i :: 0 <= i < n ==> r[i] == 0
  {
    seq(n, _ => 0)
  }

  /** The four bytes BinaryWriter.Write(uint) emits, least significant first. */
  function U32Bytes(x: uint32): (r: seq<uint8>)
    ensures |r| == 4
  {
    [x % 0x100, (x / 0x100) % 0x100, (x / 0x1_0000) % 0x100, x / 0x100_0000]
  }

  /** The unsigned value of the four bytes at `off`, read little-endian. */
  function ReadU32(s: seq<uint8>, off: nat): (r: uint32)
    requires off + 4 <= |s|
  {
    s[off] as int + 0x100 * (s[off + 1] as int) + 0x1_0000 * (s[off + 2] as int)
      + 0x100_0000 * (s[off + 3] as int)
  }

  /** Two's-complement reinterpretation of a 32-bit signed value, as the
      (uint) cast of C# does it. */
  function I32ToU32(x: int32): (r: uint32)
    ensures x >= 0 ==> r == x
    ensures x < 0 ==> r >= 0x8000_0000
  {
    if x < 0 then x + TWO_TO_THE_32 else x
  }

  function U32ToI32(x: uint32): (r: int32)
    ensures I32ToU32(r) == x
  {
    if x < 0x8000_0000 then x else x - TWO_TO_THE_32
  }

  /** The four bytes BinaryWriter.Write(int) emits. */
  function I32Bytes(x: int32): (r: seq<uint8>)
    ensures |r| == 4
  {
    U32Bytes(I32ToU32(x))
  }

  function ReadI32(s: seq<uint8>, off: nat): (r: int32)
    requires off + 4 <= |s|
  {
    U32ToI32(ReadU32(s, off))
  }

  /** A value truncated to 32 bits, as a C# `(uint)` cast of a `long` does. */
  function WrapU32(x: nat): (r: uint32)
    ensures x < TWO_TO_THE_32 ==> r == x
  {
    x % TWO_TO_THE_32
  }

  /** Number of zero bytes that bring position `p` to the next multiple of 8,
      the alignment every layer body is padded to. */
  function Pad8(p: nat): (r: nat)
    ensures r < 8
    ensures (p + r) % 8 == 0
  {
    if p % 8 == 0 then 0 else 8 - p % 8
  }

  lemma {:induction false} Aligned8Sum(x: nat, y: nat)
    requires x % 8 == 0 && y % 8 == 0
    ensures (x + y) % 8 == 0
  {
  }

  lemma {:induction false} Aligned8Multiple(n: nat)
    ensures (8 * n) % 8 == 0
  {
  }

  /** Pad8 is the least padding that aligns `p`. */
  lemma {:induction false} Pad8IsLeast(p: nat, k: nat)
    requires (p + k) % 8 == 0
    ensures Pad8(p) <= k
  {
  }

  /** On an aligned base, the padding depends only on the distance from it. */
  lemma {:induction false} Pad8FromAligned(base: nat, len: nat)
    requires base % 8 == 0
    ensures Pad8(base + len) == Pad8(len)
  {
  }

  /** Reading back the bytes of a `uint` recovers it. */
  lemma {:induction false} U32RoundTrip(x: uint32)
    ensures ReadU32(U32Bytes(x), 0) == x
  {
    var b := U32Bytes(x);
    var a1 := x / 0x100;
    var a2 := a1 / 0x100;
    assert x == 0x100 * a1 + b[0];
    assert a1 == 0x100 * a2 + b[1];
    assert a2 / 0x100 == x / 0x100_0000;
    assert x / 0x1_0000 == a2;
    assert a2 == 0x100 * (b[3] as int) + b[2];
  }

  /** Splitting a value at a power of 256 below which `lo` fits. */
  lemma {:induction false} SplitAt8(lo: int, hi: int)
    requires 0 <= lo < 0x100
    ensures (lo + 0x100 * hi) / 0x100 == hi && (lo + 0x100 * hi) % 0x100 == lo
  {
  }

  lemma {:induction false} SplitAt16(lo: int, hi: int)
    requires 0 <= lo < 0x1_0000
    ensures (lo + 0x1_0000 * hi) / 0x1_0000 == hi
  {
  }

  lemma {:induction false} SplitAt24(lo: int, hi: int)
    requires 0 <= lo < 0x100_0000
    ensures (lo + 0x100_0000 * hi) / 0x100_0000 == hi
  {
  }

  /** Encoding the value read from four bytes rebuilds those bytes. */
  lemma {:induction false} U32ReadEncode(s: seq<uint8>, off: nat)
    requires off + 4 <= |s|
    ensures U32Bytes(ReadU32(s, off)) == s[off..off + 4]
  {
    var b0, b1, b2, b3 := s[off] as int, s[off + 1] as int, s[off + 2] as int, s[off + 3] as int;
    var x := ReadU32(s, off);
    var a1 := b1 + 0x100 * b2 + 0x1_0000 * b3;
    var a2 := b2 + 0x100 * b3;
    SplitAt8(b0, a1);
    SplitAt8(b1, a2);
    SplitAt16(b0 + 0x100 * b1, a2);
    SplitAt8(b2, b3);
    SplitAt24(b0 + 0x100 * b1 + 0x1_0000 * b2, b3);
    assert U32Bytes(x) == [b0, b1, b2, b3];
  }

  /** Reading back the bytes of an `int` recovers it. */
  lemma {:induction false} I32RoundTrip(x: int32)
    ensures ReadI32(I32Bytes(x), 0) == x
  {
    U32RoundTrip(I32ToU32(x));
  }

  /** Wherever the bytes of a `uint` sit, reading them there recovers it. */
  lemma {:induction false} ReadU32At(s: seq<uint8>, off: nat, x: uint32)
    requires off + 4 <= |s| && s[off..off + 4] == U32Bytes(x)
    ensures ReadU32(s, off) == x
  {
    U32RoundTrip(x);
    assert s[off] == U32Bytes(x)[0] && s[off + 1] == U32Bytes(x)[1];
    assert s[off + 2] == U32Bytes(x)[2] && s[off + 3] == U32Bytes(x)[3];
  }

  /** Two `uint`s written back to back read back from their two places. */
  lemma {:induction false} ReadU32Pair(s: seq<uint8>, off: nat, x: uint32, y: uint32)
    requires off + 8 <= |s| && s[off..off + 8] == U32Bytes(x) + U32Bytes(y)
    ensures ReadU32(s, off) == x && ReadU32(s, off + 4) == y
  {
    assert s[off..off + 4] == s[off..off + 8][..4];
    assert s[off + 4..off + 8] == s[off..off + 8][4..];
    ReadU32At(s, off, x);
    ReadU32At(s, off + 4, y);
  }

  /** A slice of the second part of a concatenation, by its place in the whole. */
  lemma {:induction false} SliceAfter(p: seq<uint8>, c: seq<uint8>, off: nat, len: nat, start: nat)
    requires off + len <= |c| && start == |p| + off
    ensures start + len <= |p + c| && (p + c)[start..start + len] == c[off..off + len]
  {
    assert (p + c)[|p|..] == c;
  }

  /** Reading four bytes inside the middle part of a concatenation looks only
      at that part. */
  lemma {:induction false} ReadU32Middle(a: seq<uint8>, b: seq<uint8>, c: seq<uint8>, off: nat, pos: nat)
    requires off + 4 <= |b| && pos == |a| + off
    ensures ReadU32(a + b + c, pos) == ReadU32(b, off)
  {
    var s := a + b + c;
    assert s[pos] == b[off] && s[pos + 1] == b[off + 1];
    assert s[pos + 2] == b[off + 2] && s[pos + 3] == b[off + 3];
  }

  /** Reading four bytes at `off` of a concatenation looks only at the part
      that holds them. */
  lemma {:induction false} ReadU32Within(s: seq<uint8>, t: seq<uint8>, off: nat)
    requires off + 4 <= |t|
    ensures ReadU32(s + t, |s| + off) == ReadU32(t, off)
  {
  }
}
