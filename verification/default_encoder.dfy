/** GenerateBinDefault: the fallback that writes a layer body property by
    property, choosing each encoding by the value's type. */
module DefaultEncoder {
  import opened Bytes
  import opened Stream
  import opened Layers

  predicate Encodable(f: FieldValue)
  {
    !f.Other?
  }

  predicate AllEncodable(fs: Body)
  {
    forall i :: 0 <= i < |fs| ==> Encodable(fs[i])
  }

  /** The bytes one property value is written as: uint, int and flags as one
      4-byte word, a quantization parameter as its scale then its bias. */
  function FieldBytes(f: FieldValue): (r: seq<uint8>)
    requires Encodable(f)
    ensures |r| == if f.Quant? then 8 else 4
  {
    match f
    case UInt(u) => U32Bytes(u)
    case Int(i) => I32Bytes(i)
    case Flags(v) => U32Bytes(v)
    case Quant(scale, bias) => U32Bytes(scale) + U32Bytes(bias)
  }

  /** The encoding of a body all of whose values are encodable. */
  function EncodeFields(fs: Body): seq<uint8>
    requires AllEncodable(fs)
  {
    if fs == [] then [] else FieldBytes(fs[0]) + EncodeFields(fs[1..])
  }

  /** Index of the first value the encoder rejects, |fs| if there is none. */
  function FirstUnencodable(fs: Body): (r: nat)
    ensures r <= |fs|
    ensures AllEncodable(fs[..r])
    ensures r < |fs| ==> !Encodable(fs[r])
  {
    if fs == [] then 0
    else if !Encodable(fs[0]) then 0
    else
      var k := 1 + FirstUnencodable(fs[1..]);
      assert fs[..k] == [fs[0]] + fs[1..][..k - 1];
      k
  }

  lemma {:induction false} FirstUnencodableAt(fs: Body, i: nat)
    requires i <= |fs| && AllEncodable(fs[..i])
    requires i < |fs| ==> !Encodable(fs[i])
    ensures FirstUnencodable(fs) == i
  {
    if i > 0 {
      assert fs[..i][0] == fs[0];
      assert fs[1..][..i - 1] == fs[..i][1..];
      FirstUnencodableAt(fs[1..], i - 1);
    }
  }

  /** What GenerateBinDefault leaves written: every value before the first
      rejected one. */
  function WrittenBytes(fs: Body): seq<uint8>
  {
    EncodeFields(fs[..FirstUnencodable(fs)])
  }

  /** The outcome of GenerateBinDefault on a body. */
  function DefaultEncode(fs: Body): Result<seq<uint8>>
  {
    if AllEncodable(fs) then Ok(EncodeFields(fs)) else Err(InvalidArgumentMember)
  }

  function WordFields(fs: Body): nat
  {
    if fs == [] then 0 else (if fs[0].Quant? then 0 else 1) + WordFields(fs[1..])
  }

  function QuantFields(fs: Body): nat
  {
    if fs == [] then 0 else (if fs[0].Quant? then 1 else 0) + QuantFields(fs[1..])
  }

  /** Appending one value appends its bytes. */
  lemma {:induction false} EncodeFieldsSnoc(fs: Body, f: FieldValue)
    requires AllEncodable(fs) && Encodable(f)
    ensures AllEncodable(fs + [f])
    ensures EncodeFields(fs + [f]) == EncodeFields(fs) + FieldBytes(f)
  {
    if fs != [] {
      assert (fs + [f])[1..] == fs[1..] + [f];
      EncodeFieldsSnoc(fs[1..], f);
    }
  }

  /** Four bytes per uint, int or flags value and eight per quantization
      parameter. */
  lemma {:induction false} DefaultLength(fs: Body)
    requires AllEncodable(fs)
    ensures |EncodeFields(fs)| == 4 * WordFields(fs) + 8 * QuantFields(fs)
  {
    if fs != [] {
      DefaultLength(fs[1..]);
    }
  }

  /** The type of a property, as the encoder's switch distinguishes it. */
  datatype FieldKind = UIntKind | IntKind | FlagsKind | QuantKind

  function KindOf(f: FieldValue): FieldKind
    requires Encodable(f)
  {
    match f
    case UInt(_) => UIntKind
    case Int(_) => IntKind
    case Flags(_) => FlagsKind
    case Quant(_, _) => QuantKind
  }

  function Schema(fs: Body): (ks: seq<FieldKind>)
    requires AllEncodable(fs)
    ensures |ks| == |fs|
  {
    if fs == [] then [] else [KindOf(fs[0])] + Schema(fs[1..])
  }

  /** Reads a body back from its bytes, given the types of its properties in
      declaration order; fails unless the bytes are exactly consumed. */
  function DecodeFields(ks: seq<FieldKind>, bs: seq<uint8>): Option<Body>
    decreases ks
  {
    if ks == [] then (if bs == [] then Some([]) else None)
    else
      var w := if ks[0] == QuantKind then 8 else 4;
      if |bs| < w then None
      else
        var f := match ks[0]
          case UIntKind => UInt(ReadU32(bs, 0))
          case IntKind => Int(ReadI32(bs, 0))
          case FlagsKind => Flags(ReadU32(bs, 0))
          case QuantKind => Quant(ReadU32(bs, 0), ReadU32(bs, 4));
        match DecodeFields(ks[1..], bs[w..])
        case None => None
        case Some(rest) => Some([f] + rest)
  }

  /** Reading back one value's bytes recovers it. */
  lemma {:induction false} FieldRoundTrip(f: FieldValue, rest: seq<uint8>)
    requires Encodable(f)
    ensures var bs := FieldBytes(f) + rest;
      match f
      case UInt(u) => ReadU32(bs, 0) == u
      case Int(i) => ReadI32(bs, 0) == i
      case Flags(v) => ReadU32(bs, 0) == v
      case Quant(s, b) => ReadU32(bs, 0) == s && ReadU32(bs, 4) == b
  {
    match f
    case UInt(u) => U32RoundTrip(u);
    case Int(i) => I32RoundTrip(i);
    case Flags(v) => U32RoundTrip(v);
    case Quant(s, b) =>
      U32RoundTrip(s);
      U32RoundTrip(b);
      ReadU32Within(U32Bytes(s), U32Bytes(b) + rest, 0);
      assert FieldBytes(f) + rest == U32Bytes(s) + (U32Bytes(b) + rest);
  }

  /** The default encoding is faithful: the values are written in declaration
      order and each can be read back from its place. */
  lemma {:induction false} DefaultRoundTrip(fs: Body)
    requires AllEncodable(fs)
    ensures DecodeFields(Schema(fs), EncodeFields(fs)) == Some(fs)
  {
    if fs != [] {
      var bs := EncodeFields(fs);
      var head := FieldBytes(fs[0]);
      FieldRoundTrip(fs[0], EncodeFields(fs[1..]));
      assert bs[|head|..] == EncodeFields(fs[1..]);
      assert Schema(fs)[1..] == Schema(fs[1..]);
      DefaultRoundTrip(fs[1..]);
      assert fs == [fs[0]] + fs[1..];
    }
  }

  lemma {:induction false} EncodeFieldsPrefix(body: Body, i: nat)
    requires i < |body| && AllEncodable(body[..i]) && Encodable(body[i])
    ensures AllEncodable(body[..i + 1])
    ensures EncodeFields(body[..i + 1]) == EncodeFields(body[..i]) + FieldBytes(body[i])
  {
    EncodeFieldsSnoc(body[..i], body[i]);
    assert body[..i + 1] == body[..i] + [body[i]];
  }

  /** When every value is encodable, all of them are written. */
  lemma {:induction false} DefaultWritesAll(fs: Body)
    requires AllEncodable(fs)
    ensures DefaultEncode(fs) == Ok(WrittenBytes(fs))
  {
    FirstUnencodableAt(fs, |fs|);
    assert fs[..|fs|] == fs;
  }

  /** One iteration of GenerateBinDefault: writing the next value after the
      ones before it extends the written encoding by that value. */
  lemma {:induction false} FieldWritten(d0: seq<uint8>, p0: nat, body: Body, i: nat, before: seq<uint8>, after: seq<uint8>)
    requires i < |body| && AllEncodable(body[..i]) && Encodable(body[i])
    requires before == Overwrite(d0, p0, EncodeFields(body[..i]))
    requires after == Overwrite(before, p0 + |EncodeFields(body[..i])|, FieldBytes(body[i]))
    ensures AllEncodable(body[..i + 1])
    ensures after == Overwrite(d0, p0, EncodeFields(body[..i + 1]))
    ensures |EncodeFields(body[..i + 1])| == |EncodeFields(body[..i])| + |FieldBytes(body[i])|
  {
    EncodeFieldsPrefix(body, i);
    OverwriteConsecutive(d0, p0, EncodeFields(body[..i]), FieldBytes(body[i]));
  }

  /** One case of GenerateBinDefault's switch: writes a value it knows. */
  method WriteField(bw: BinaryStream, value: FieldValue)
    requires Encodable(value)
    modifies bw
    ensures bw.data == Overwrite(old(bw.data), old(bw.pos), FieldBytes(value))
    ensures bw.pos == old(bw.pos) + |FieldBytes(value)|
  {
    match value {
      case UInt(v) =>
        bw.WriteU32(v);
      case Int(v) =>
        bw.WriteI32(v);
      case Flags(v) =>
        bw.WriteU32(v);
      case Quant(scale, bias) =>
        ghost var d0, p0 := bw.data, bw.pos;
        bw.WriteU32(scale);
        bw.WriteU32(bias);
        OverwriteConsecutive(d0, p0, U32Bytes(scale), U32Bytes(bias));
    }
  }

  /** GenerateBinDefault: writes each property value in order and throws on
      the first one whose type it does not know, leaving the values before it
      written. */
  method GenerateBinDefault(bw: BinaryStream, body: Body) returns (r: Outcome)
    modifies bw
    ensures r.Pass? <==> AllEncodable(body)
    ensures r.Fail? ==> r.error == InvalidArgumentMember
    ensures bw.data == Overwrite(old(bw.data), old(bw.pos), WrittenBytes(body))
    ensures bw.pos == old(bw.pos) + |WrittenBytes(body)|
  {
    ghost var d0, p0 := bw.data, bw.pos;
    var i := 0;
    while i < |body|
      invariant 0 <= i <= |body|
      invariant AllEncodable(body[..i])
      invariant bw.data == Overwrite(d0, p0, EncodeFields(body[..i]))
      invariant bw.pos == p0 + |EncodeFields(body[..i])|
    {
      var value := body[i];
      if value.Other? {
        FirstUnencodableAt(body, i);
        return Fail(InvalidArgumentMember);
      }
      ghost var before := bw.data;
      WriteField(bw, value);
      FieldWritten(d0, p0, body, i, before, bw.data);
      i := i + 1;
    }
    assert body[..i] == body;
    FirstUnencodableAt(body, i);
    return Pass;
  }
}
