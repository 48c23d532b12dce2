/** The K210 program file that Generator.GenerateBin writes, as a function of
    its inputs: an 8-word global header, a table of one (type, body size)
    pair per layer, and the layer bodies, each padded to 8 bytes. */
module ProgramLayout {
  import opened Bytes
  import opened Stream
  import opened Layers
  import opened DefaultEncoder

  /** Format version written first. */
  const VERSION: uint32 := 3

  /** Size of the global header: eight 4-byte words. */
  const GLOBAL_HEADER_SIZE: nat := 32

  /** Size of one header table entry: type then body size, 4 bytes each. */
  const TABLE_ENTRY_SIZE: nat := 8

  /** Most layers the model handles: 4 * 2 * Count must fit a C# int. */
  const MAX_LAYERS: nat := 0x1000_0000

  /** The header's flags word: bit 0 set when weights are 8-bit. */
  function HeaderFlags(weightsBits: int): uint32
  {
    if weightsBits == 8 then 1 else 0
  }

  function GlobalHeader(ctx: GenContext, count: int32): (r: seq<uint8>)
    ensures |r| == GLOBAL_HEADER_SIZE
  {
    U32Bytes(VERSION) + U32Bytes(HeaderFlags(ctx.weightsBits)) + I32Bytes(0) + I32Bytes(count)
    + U32Bytes(ctx.maxStartAddress) + U32Bytes(ctx.mainMemoryUsage)
    + U32Bytes(ctx.mainMemoryOutputAddress) + U32Bytes(ctx.mainMemoryOutputSize)
  }

  /** What GenerateBinLayerBody writes for a layer before aligning: the
      registered converter's output, or the default encoding when the
      converter has no GenerateBin; an unregistered type is not supported. */
  function EncodeLayerBody(reg: Registry, ctx: GenContext, layer: Layer): Result<seq<uint8>>
  {
    var t := layer.header.layerType;
    if t !in reg then Err(LayerNotSupported(t))
    else
      match reg[t]
      case Custom(encode) => Ok(encode(layer.body, ctx))
      case UseDefault => DefaultEncode(layer.body)
  }

  /** A body followed by the zero bytes that align its end to 8. */
  function Padded(raw: seq<uint8>): (r: seq<uint8>)
    ensures |r| % 8 == 0 && |raw| <= |r| < |raw| + 8
    ensures r[..|raw|] == raw
    ensures forall i :: |raw| <= i < |r| ==> r[i] == 0
  {
    raw + Zeros(Pad8(|raw|))
  }

  /** The padded bodies of the layers, in order, or the error of the first
      layer that cannot be encoded. */
  function EncodeBodies(reg: Registry, ctx: GenContext, layers: seq<Layer>): (r: Result<seq<seq<uint8>>>)
    ensures r.Ok? ==> |r.value| == |layers|
  {
    if layers == [] then Ok([])
    else
      match EncodeBodies(reg, ctx, layers[..|layers| - 1])
      case Err(e) => Err(e)
      case Ok(bodies) =>
        match EncodeLayerBody(reg, ctx, layers[|layers| - 1])
        case Err(e) => Err(e)
        case Ok(raw) => Ok(bodies + [Padded(raw)])
  }

  function Concat(bs: seq<seq<uint8>>): seq<uint8>
  {
    if bs == [] then [] else Concat(bs[..|bs| - 1]) + bs[|bs| - 1]
  }

  /** The layers after the first pass: each header's BodySize is the number
      of bytes its body took, truncated to a uint. */
  function WithBodySizes(layers: seq<Layer>, bodies: seq<seq<uint8>>): (r: seq<Layer>)
    requires |bodies| == |layers|
    ensures |r| == |layers|
  {
    if layers == [] then []
    else
      var n := |layers| - 1;
      WithBodySizes(layers[..n], bodies[..n]) + [Sized(layers[n], bodies[n])]
  }

  /** Layer `k` after the first pass is layer `k` sized by body `k`. */
  lemma {:induction false} WithBodySizesAt(layers: seq<Layer>, bodies: seq<seq<uint8>>, k: nat)
    requires |bodies| == |layers| && k < |layers|
    ensures WithBodySizes(layers, bodies)[k] == Sized(layers[k], bodies[k])
    decreases |layers|
  {
    var n := |layers| - 1;
    if k < n {
      WithBodySizesAt(layers[..n], bodies[..n], k);
    }
  }

  /** A layer whose header records the length of `body`, truncated to a uint. */
  function Sized(layer: Layer, body: seq<uint8>): (r: Layer)
    ensures r.body == layer.body && r.header.layerType == layer.header.layerType
    ensures |body| < TWO_TO_THE_32 ==> r.header.bodySize == |body|
  {
    layer.(header := layer.header.(bodySize := WrapU32(|body|)))
  }

  function TableEntry(h: LayerHeader): (r: seq<uint8>)
    ensures |r| == TABLE_ENTRY_SIZE
  {
    U32Bytes(h.layerType) + U32Bytes(h.bodySize)
  }

  /** The header table: one entry per layer, in order. */
  function HeaderTable(layers: seq<Layer>): seq<uint8>
  {
    if layers == [] then []
    else HeaderTable(layers[..|layers| - 1]) + TableEntry(layers[|layers| - 1].header)
  }

  /** The whole program GenerateBin leaves in a fresh stream. */
  function Program(reg: Registry, ctx: GenContext, layers: seq<Layer>): Result<seq<uint8>>
    requires |layers| < MAX_LAYERS
  {
    match EncodeBodies(reg, ctx, layers)
    case Err(e) => Err(e)
    case Ok(bodies) =>
      Ok(GlobalHeader(ctx, |layers|) + HeaderTable(WithBodySizes(layers, bodies)) + Concat(bodies))
  }

  /** The stream after the first pass, before the table is filled in: the
      header, then the bodies after the reserved gap. */
  function FirstPass(ctx: GenContext, n: nat, bodies: seq<seq<uint8>>): seq<uint8>
    requires n < MAX_LAYERS
  {
    Overwrite(GlobalHeader(ctx, n), GLOBAL_HEADER_SIZE + 8 * n, Concat(bodies))
  }

  /** Where body `i` starts in the program. */
  function BodyStart(n: nat, bodies: seq<seq<uint8>>, i: nat): nat
    requires i <= |bodies|
  {
    GLOBAL_HEADER_SIZE + 8 * n + |Concat(bodies[..i])|
  }

  function TotalSize(bodies: seq<seq<uint8>>): nat
  {
    if bodies == [] then 0 else TotalSize(bodies[..|bodies| - 1]) + |bodies[|bodies| - 1]|
  }

  // ---------------------------------------------------------------------
  // Lemmas about the pieces

  lemma {:induction false} EncodeBodiesPrefix(reg: Registry, ctx: GenContext, layers: seq<Layer>, k: nat)
    requires k <= |layers|
    requires EncodeBodies(reg, ctx, layers).Ok?
    ensures EncodeBodies(reg, ctx, layers[..k]).Ok?
    ensures EncodeBodies(reg, ctx, layers[..k]).value == EncodeBodies(reg, ctx, layers).value[..k]
    decreases |layers|
  {
    if k < |layers| {
      var init := layers[..|layers| - 1];
      EncodeBodiesPrefix(reg, ctx, init, k);
      assert init[..k] == layers[..k];
    } else {
      assert layers[..k] == layers;
    }
  }

  /** Encoding succeeds exactly when every layer can be encoded, and then body
      `i` is layer `i`'s encoding, padded. */
  lemma {:induction false} EncodeBodiesOk(reg: Registry, ctx: GenContext, layers: seq<Layer>)
    ensures EncodeBodies(reg, ctx, layers).Ok? <==>
              forall i :: 0 <= i < |layers| ==> EncodeLayerBody(reg, ctx, layers[i]).Ok?
    ensures EncodeBodies(reg, ctx, layers).Ok? ==>
              |EncodeBodies(reg, ctx, layers).value| == |layers| &&
              forall i :: 0 <= i < |layers| ==>
                EncodeBodies(reg, ctx, layers).value[i] == Padded(EncodeLayerBody(reg, ctx, layers[i]).value)
  {
    if layers != [] {
      var init := layers[..|layers| - 1];
      EncodeBodiesOk(reg, ctx, init);
      assert forall i :: 0 <= i < |init| ==> init[i] == layers[i];
    }
  }

  lemma {:induction false} EncodeBodiesAt(reg: Registry, ctx: GenContext, layers: seq<Layer>, i: nat)
    requires EncodeBodies(reg, ctx, layers).Ok? && i < |layers|
    ensures EncodeLayerBody(reg, ctx, layers[i]).Ok?
    ensures EncodeBodies(reg, ctx, layers).value[i] == Padded(EncodeLayerBody(reg, ctx, layers[i]).value)
    ensures forall j :: 0 <= j < |layers| ==> |EncodeBodies(reg, ctx, layers).value[j]| % 8 == 0
  {
    EncodeBodiesOk(reg, ctx, layers);
  }

  /** A failed run reports the error of the first layer that cannot be
      encoded. */
  lemma {:induction false} EncodeBodiesErr(reg: Registry, ctx: GenContext, layers: seq<Layer>)
    requires EncodeBodies(reg, ctx, layers).Err?
    ensures exists k :: 0 <= k < |layers| &&
              (forall j :: 0 <= j < k ==> EncodeLayerBody(reg, ctx, layers[j]).Ok?) &&
              EncodeLayerBody(reg, ctx, layers[k]) == Err(EncodeBodies(reg, ctx, layers).error)
  {
    var init := layers[..|layers| - 1];
    assert forall i :: 0 <= i < |init| ==> init[i] == layers[i];
    if EncodeBodies(reg, ctx, init).Err? {
      EncodeBodiesErr(reg, ctx, init);
    } else {
      EncodeBodiesOk(reg, ctx, init);
      var k := |layers| - 1;
      assert forall j :: 0 <= j < k ==> EncodeLayerBody(reg, ctx, layers[j]).Ok?;
    }
  }

  /** When a prefix already fails, the whole run fails with that error. */
  lemma {:induction false} EncodeBodiesErrExtends(reg: Registry, ctx: GenContext, layers: seq<Layer>, k: nat)
    requires k <= |layers|
    requires EncodeBodies(reg, ctx, layers[..k]).Err?
    ensures EncodeBodies(reg, ctx, layers) == EncodeBodies(reg, ctx, layers[..k])
    decreases |layers|
  {
    if k < |layers| {
      var init := layers[..|layers| - 1];
      assert init[..k] == layers[..k];
      EncodeBodiesErrExtends(reg, ctx, init, k);
    } else {
      assert layers[..k] == layers;
    }
  }

  lemma {:induction false} ConcatAppend(a: seq<seq<uint8>>, b: seq<seq<uint8>>)
    ensures Concat(a + b) == Concat(a) + Concat(b)
    decreases |b|
  {
    if b != [] {
      var binit := b[..|b| - 1];
      assert (a + b)[..|a + b| - 1] == a + binit;
      ConcatAppend(a, binit);
    } else {
      assert a + b == a;
    }
  }

  lemma {:induction false} ConcatLength(bs: seq<seq<uint8>>)
    ensures |Concat(bs)| == TotalSize(bs)
  {
    if bs != [] {
      ConcatLength(bs[..|bs| - 1]);
    }
  }

  /** Body `i` occupies the bytes right after bodies 0 .. i-1. */
  lemma {:induction false} ConcatAt(bs: seq<seq<uint8>>, i: nat)
    requires i < |bs|
    ensures var off := |Concat(bs[..i])|;
      off + |bs[i]| <= |Concat(bs)| && Concat(bs)[off..off + |bs[i]|] == bs[i]
  {
    assert bs == bs[..i] + ([bs[i]] + bs[i + 1..]);
    ConcatAppend(bs[..i], [bs[i]] + bs[i + 1..]);
    ConcatAppend([bs[i]], bs[i + 1..]);
    assert Concat([bs[i]]) == Concat([]) + bs[i];
  }

  lemma {:induction false} HeaderTableLength(layers: seq<Layer>)
    ensures |HeaderTable(layers)| == 8 * |layers|
  {
    if layers != [] {
      HeaderTableLength(layers[..|layers| - 1]);
    }
  }

  /** Entry `i` of the table holds layer `i`'s header. */
  lemma {:induction false} HeaderTableAt(layers: seq<Layer>, i: nat)
    requires i < |layers|
    ensures |HeaderTable(layers)| == 8 * |layers|
    ensures HeaderTable(layers)[8 * i..8 * i + 8] == TableEntry(layers[i].header)
  {
    HeaderTableLength(layers);
    var init := layers[..|layers| - 1];
    HeaderTableLength(init);
    if i < |layers| - 1 {
      HeaderTableAt(init, i);
      assert HeaderTable(layers)[8 * i..8 * i + 8] == HeaderTable(init)[8 * i..8 * i + 8];
    }
  }

  /** One iteration of the second pass: writing the next layer's type and
      body size after the entries so far extends the table by its entry. */
  lemma {:induction false} TableEntryWritten(d0: seq<uint8>, p0: nat, layers: seq<Layer>, j: nat, d1: seq<uint8>, d2: seq<uint8>)
    requires j < |layers|
    requires d1 == Overwrite(Overwrite(d0, p0, HeaderTable(layers[..j])), p0 + 8 * j,
                             U32Bytes(layers[j].header.layerType))
    requires d2 == Overwrite(d1, p0 + 8 * j + 4, U32Bytes(layers[j].header.bodySize))
    ensures d2 == Overwrite(d0, p0, HeaderTable(layers[..j + 1]))
  {
    HeaderTablePrefix(layers, j);
    TwoMoreWritten(d0, p0, HeaderTable(layers[..j]), U32Bytes(layers[j].header.layerType),
                   U32Bytes(layers[j].header.bodySize), d1, d2);
  }

  lemma {:induction false} HeaderTablePrefix(layers: seq<Layer>, j: nat)
    requires j < |layers|
    ensures |HeaderTable(layers[..j])| == 8 * j
    ensures HeaderTable(layers[..j + 1]) == HeaderTable(layers[..j]) + TableEntry(layers[j].header)
  {
    HeaderTableLength(layers[..j]);
    assert layers[..j + 1][..j] == layers[..j];
  }

  /** One more layer that encodes extends the bodies by its padded body. */
  lemma {:induction false} EncodeBodiesSnoc(reg: Registry, ctx: GenContext, layers: seq<Layer>, i: nat,
                         bodies: seq<seq<uint8>>, raw: seq<uint8>)
    requires i < |layers|
    requires EncodeBodies(reg, ctx, layers[..i]) == Ok(bodies)
    requires EncodeLayerBody(reg, ctx, layers[i]) == Ok(raw)
    ensures EncodeBodies(reg, ctx, layers[..i + 1]) == Ok(bodies + [Padded(raw)])
  {
    assert layers[..i + 1][..i] == layers[..i];
  }

  /** The layer list during the first pass: the layers already written carry
      their body sizes, the rest are untouched; setting the size of the next
      one extends the written part by one. */
  lemma {:induction false} SizedStep(input: seq<Layer>, bodies: seq<seq<uint8>>, body: seq<uint8>, i: nat)
    requires i < |input| && |bodies| == i
    ensures (WithBodySizes(input[..i], bodies) + input[i..])[i := Sized(input[i], body)]
            == WithBodySizes(input[..i + 1], bodies + [body]) + input[i + 1..]
  {
    assert input[..i + 1][..i] == input[..i];
    assert (bodies + [body])[..i] == bodies;
  }

  /** From an aligned position, padding a raw body to 8 gives its padded
      body. */
  lemma {:induction false} PaddedFrom(begin: nat, raw: seq<uint8>)
    requires begin % 8 == 0
    ensures raw + Zeros(Pad8(begin + |raw|)) == Padded(raw)
  {
    Pad8FromAligned(begin, |raw|);
  }

  /** One step of the first pass: writing a padded body at the end of the
      bodies so far extends their concatenation by it. */
  lemma {:induction false} FirstPassStep(d0: seq<uint8>, p0: nat, bodies: seq<seq<uint8>>, body: seq<uint8>,
                      pos: nat, data0: seq<uint8>, data1: seq<uint8>)
    requires data0 == Overwrite(d0, p0, Concat(bodies)) && pos == p0 + |Concat(bodies)|
    requires data1 == Overwrite(data0, pos, body)
    ensures data1 == Overwrite(d0, p0, Concat(bodies + [body]))
    ensures |Concat(bodies + [body])| == |Concat(bodies)| + |body|
  {
    assert (bodies + [body])[..|bodies|] == bodies;
    OverwriteConsecutive(d0, p0, Concat(bodies), body);
  }

  /** One iteration of the first pass, as GenerateBin's loop sees it: the
      stream and the layer list before and after layer `i` is written. */
  lemma {:induction false} FirstPassIteration(reg: Registry, ctx: GenContext, input: seq<Layer>, i: nat,
                           bodies: seq<seq<uint8>>, body: seq<uint8>, d0: seq<uint8>, p0: nat, pos0: nat,
                           data0: seq<uint8>, data1: seq<uint8>, ls0: seq<Layer>, ls1: seq<Layer>)
    requires i < |input|
    requires EncodeBodies(reg, ctx, input[..i]) == Ok(bodies) && |bodies| == i
    requires EncodeLayerBody(reg, ctx, input[i]).Ok?
    requires body == Padded(EncodeLayerBody(reg, ctx, input[i]).value)
    requires data0 == Overwrite(d0, p0, Concat(bodies)) && pos0 == p0 + |Concat(bodies)|
    requires data1 == Overwrite(data0, pos0, body)
    requires ls0 == WithBodySizes(input[..i], bodies) + input[i..]
    requires ls1 == ls0[i := Sized(input[i], body)]
    ensures EncodeBodies(reg, ctx, input[..i + 1]) == Ok(bodies + [body])
    ensures data1 == Overwrite(d0, p0, Concat(bodies + [body]))
    ensures |Concat(bodies + [body])| == |Concat(bodies)| + |body|
    ensures ls1 == WithBodySizes(input[..i + 1], bodies + [body]) + input[i + 1..]
  {
    EncodeBodiesSnoc(reg, ctx, input, i, bodies, EncodeLayerBody(reg, ctx, input[i]).value);
    FirstPassStep(d0, p0, bodies, body, pos0, data0, data1);
    SizedStep(input, bodies, body, i);
  }

  /** A layer that cannot be encoded after a prefix that can ends the run with
      its error. */
  lemma {:induction false} EncodeBodiesStops(reg: Registry, ctx: GenContext, layers: seq<Layer>, i: nat)
    requires i < |layers|
    requires EncodeBodies(reg, ctx, layers[..i]).Ok?
    requires EncodeLayerBody(reg, ctx, layers[i]).Err?
    ensures EncodeBodies(reg, ctx, layers) == Err(EncodeLayerBody(reg, ctx, layers[i]).error)
  {
    assert layers[..i + 1][..i] == layers[..i];
    EncodeBodiesErrExtends(reg, ctx, layers, i + 1);
  }

  lemma {:induction false} ConcatAligned(bs: seq<seq<uint8>>)
    requires forall i :: 0 <= i < |bs| ==> |bs[i]| % 8 == 0
    ensures |Concat(bs)| % 8 == 0
  {
    if bs != [] {
      ConcatAligned(bs[..|bs| - 1]);
    }
  }

  /** The eight word writes GenerateBin starts with, one after the other,
      lay down the global header. */
  lemma {:induction false} GlobalHeaderWritten(ctx: GenContext, count: int32, d0: seq<uint8>, p0: nat,
                            d1: seq<uint8>, d2: seq<uint8>, d3: seq<uint8>, d4: seq<uint8>,
                            d5: seq<uint8>, d6: seq<uint8>, d7: seq<uint8>, d8: seq<uint8>)
    requires d1 == Overwrite(d0, p0, U32Bytes(VERSION))
    requires d2 == Overwrite(d1, p0 + 4, U32Bytes(HeaderFlags(ctx.weightsBits)))
    requires d3 == Overwrite(d2, p0 + 8, I32Bytes(0))
    requires d4 == Overwrite(d3, p0 + 12, I32Bytes(count))
    requires d5 == Overwrite(d4, p0 + 16, U32Bytes(ctx.maxStartAddress))
    requires d6 == Overwrite(d5, p0 + 20, U32Bytes(ctx.mainMemoryUsage))
    requires d7 == Overwrite(d6, p0 + 24, U32Bytes(ctx.mainMemoryOutputAddress))
    requires d8 == Overwrite(d7, p0 + 28, U32Bytes(ctx.mainMemoryOutputSize))
    ensures d8 == Overwrite(d0, p0, GlobalHeader(ctx, count))
  {
    var w := U32Bytes(VERSION);
    OverwriteConsecutive(d0, p0, w, U32Bytes(HeaderFlags(ctx.weightsBits)));
    w := w + U32Bytes(HeaderFlags(ctx.weightsBits));
    OverwriteConsecutive(d0, p0, w, I32Bytes(0));
    w := w + I32Bytes(0);
    OverwriteConsecutive(d0, p0, w, I32Bytes(count));
    w := w + I32Bytes(count);
    OverwriteConsecutive(d0, p0, w, U32Bytes(ctx.maxStartAddress));
    w := w + U32Bytes(ctx.maxStartAddress);
    OverwriteConsecutive(d0, p0, w, U32Bytes(ctx.mainMemoryUsage));
    w := w + U32Bytes(ctx.mainMemoryUsage);
    OverwriteConsecutive(d0, p0, w, U32Bytes(ctx.mainMemoryOutputAddress));
    w := w + U32Bytes(ctx.mainMemoryOutputAddress);
    OverwriteConsecutive(d0, p0, w, U32Bytes(ctx.mainMemoryOutputSize));
  }

  lemma {:induction false} GlobalHeaderWords(ctx: GenContext, count: int32, rest: seq<uint8>)
    ensures var bs := GlobalHeader(ctx, count) + rest;
      bs[0..4] == U32Bytes(VERSION) && bs[4..8] == U32Bytes(HeaderFlags(ctx.weightsBits)) &&
      bs[8..12] == I32Bytes(0) && bs[12..16] == I32Bytes(count) &&
      bs[16..20] == U32Bytes(ctx.maxStartAddress) && bs[20..24] == U32Bytes(ctx.mainMemoryUsage) &&
      bs[24..28] == U32Bytes(ctx.mainMemoryOutputAddress) && bs[28..32] == U32Bytes(ctx.mainMemoryOutputSize)
  {
  }

  lemma {:induction false} ProgramShape(reg: Registry, ctx: GenContext, layers: seq<Layer>)
    requires |layers| < MAX_LAYERS
    requires Program(reg, ctx, layers).Ok?
    ensures EncodeBodies(reg, ctx, layers).Ok?
    ensures var bodies := EncodeBodies(reg, ctx, layers).value;
      Program(reg, ctx, layers).value ==
        GlobalHeader(ctx, |layers|) + HeaderTable(WithBodySizes(layers, bodies)) + Concat(bodies)
  {
  }

  // ---------------------------------------------------------------------
  // What the program file holds

  /** The global header is eight words in a fixed order, and reading them
      back gives the version, the flags (1 exactly for 8-bit weights), zero,
      the layer count and the four addressing values. */
  lemma {:induction false} ProgramHeader(reg: Registry, ctx: GenContext, layers: seq<Layer>)
    requires |layers| < MAX_LAYERS
    requires Program(reg, ctx, layers).Ok?
    ensures var bs := Program(reg, ctx, layers).value;
      |bs| >= GLOBAL_HEADER_SIZE &&
      ReadU32(bs, 0) == 3 &&
      ReadU32(bs, 4) == (if ctx.weightsBits == 8 then 1 else 0) &&
      ReadU32(bs, 8) == 0 &&
      ReadI32(bs, 12) == |layers| &&
      ReadU32(bs, 16) == ctx.maxStartAddress &&
      ReadU32(bs, 20) == ctx.mainMemoryUsage &&
      ReadU32(bs, 24) == ctx.mainMemoryOutputAddress &&
      ReadU32(bs, 28) == ctx.mainMemoryOutputSize
  {
    var bodies := EncodeBodies(reg, ctx, layers).value;
    var rest := HeaderTable(WithBodySizes(layers, bodies)) + Concat(bodies);
    var bs := GlobalHeader(ctx, |layers|) + rest;
    assert Program(reg, ctx, layers).value == bs;
    GlobalHeaderWords(ctx, |layers|, rest);
    ReadU32At(bs, 0, VERSION);
    ReadU32At(bs, 4, HeaderFlags(ctx.weightsBits));
    ReadU32At(bs, 8, I32ToU32(0));
    ReadU32At(bs, 12, I32ToU32(|layers|));
    ReadU32At(bs, 16, ctx.maxStartAddress);
    ReadU32At(bs, 20, ctx.mainMemoryUsage);
    ReadU32At(bs, 24, ctx.mainMemoryOutputAddress);
    ReadU32At(bs, 28, ctx.mainMemoryOutputSize);
  }

  /** The table starts right after the global header; entry `i` holds layer
      `i`'s type and then its body size: the length of its padded body,
      truncated to a uint. */
  lemma {:induction false} ProgramTable(reg: Registry, ctx: GenContext, layers: seq<Layer>, i: nat)
    requires |layers| < MAX_LAYERS
    requires Program(reg, ctx, layers).Ok?
    requires i < |layers|
    ensures var bs := Program(reg, ctx, layers).value;
      var bodies := EncodeBodies(reg, ctx, layers).value;
      GLOBAL_HEADER_SIZE + 8 * (i + 1) <= |bs| &&
      ReadU32(bs, GLOBAL_HEADER_SIZE + 8 * i) == layers[i].header.layerType &&
      ReadU32(bs, GLOBAL_HEADER_SIZE + 8 * i + 4) == WrapU32(|bodies[i]|)
  {
    ProgramShape(reg, ctx, layers);
    var bodies := EncodeBodies(reg, ctx, layers).value;
    var sized := WithBodySizes(layers, bodies);
    var table := HeaderTable(sized);
    HeaderTableAt(sized, i);
    WithBodySizesAt(layers, bodies, i);
    assert sized[i].header == LayerHeader(layers[i].header.layerType, WrapU32(|bodies[i]|));
    ReadU32Pair(table, 8 * i, layers[i].header.layerType, WrapU32(|bodies[i]|));
    ReadU32Middle(GlobalHeader(ctx, |layers|), table, Concat(bodies), 8 * i, GLOBAL_HEADER_SIZE + 8 * i);
    ReadU32Middle(GlobalHeader(ctx, |layers|), table, Concat(bodies), 8 * i + 4, GLOBAL_HEADER_SIZE + 8 * i + 4);
  }

  /** In a file laid out as header, table and bodies, body `i` sits at the
      place BodyStart gives. */
  lemma {:induction false} BodyInFile(ctx: GenContext, n: nat, sized: seq<Layer>, bodies: seq<seq<uint8>>, bs: seq<uint8>, i: nat)
    requires n < MAX_LAYERS && |sized| == n && i < |bodies|
    requires bs == GlobalHeader(ctx, n) + HeaderTable(sized) + Concat(bodies)
    ensures BodyStart(n, bodies, i) + |bodies[i]| <= |bs|
    ensures bs[BodyStart(n, bodies, i)..BodyStart(n, bodies, i) + |bodies[i]|] == bodies[i]
  {
    HeaderTableLength(sized);
    ConcatAt(bodies, i);
    var off := |Concat(bodies[..i])|;
    SliceAfter(GlobalHeader(ctx, n) + HeaderTable(sized), Concat(bodies), off, |bodies[i]|, BodyStart(n, bodies, i));
  }

  /** The bodies are laid out back to back: the first right after the
      table, each where the previous one ends, each at a multiple of 8 and
      each a multiple of 8 long. */
  lemma {:induction false} BodiesContiguous(reg: Registry, ctx: GenContext, layers: seq<Layer>, bodies: seq<seq<uint8>>, i: nat)
    requires EncodeBodies(reg, ctx, layers) == Ok(bodies)
    requires i < |layers|
    ensures BodyStart(|layers|, bodies, 0) == GLOBAL_HEADER_SIZE + 8 * |layers|
    ensures BodyStart(|layers|, bodies, i + 1) == BodyStart(|layers|, bodies, i) + |bodies[i]|
    ensures BodyStart(|layers|, bodies, i) % 8 == 0 && |bodies[i]| % 8 == 0
  {
    EncodeBodiesAt(reg, ctx, layers, i);
    assert bodies[..0] == [];
    assert bodies[..i + 1][..i] == bodies[..i];
    assert forall j :: 0 <= j < i ==> |bodies[..i][j]| % 8 == 0;
    ConcatAligned(bodies[..i]);
    Aligned8Multiple(|layers|);
    Aligned8Sum(32, 8 * |layers|);
    Aligned8Sum(32 + 8 * |layers|, |Concat(bodies[..i])|);
  }

  /** Body `i` is layer `i`'s encoding padded with zeros to a multiple of 8,
      and it sits at the place BodyStart gives. */
  lemma {:induction false} ProgramBody(reg: Registry, ctx: GenContext, layers: seq<Layer>, bodies: seq<seq<uint8>>, bs: seq<uint8>, i: nat)
    requires |layers| < MAX_LAYERS
    requires Program(reg, ctx, layers) == Ok(bs)
    requires EncodeBodies(reg, ctx, layers) == Ok(bodies)
    requires i < |layers|
    ensures EncodeLayerBody(reg, ctx, layers[i]).Ok?
    ensures bodies[i] == Padded(EncodeLayerBody(reg, ctx, layers[i]).value)
    ensures BodyStart(|layers|, bodies, i) + |bodies[i]| <= |bs|
    ensures bs[BodyStart(|layers|, bodies, i)..BodyStart(|layers|, bodies, i) + |bodies[i]|] == bodies[i]
  {
    assert BodyStart(|layers|, bodies, i) >= GLOBAL_HEADER_SIZE;
    ProgramBytes(reg, ctx, layers, bodies, bs);
    EncodeBodiesAt(reg, ctx, layers, i);
    BodyInFile(ctx, |layers|, WithBodySizes(layers, bodies), bodies, bs, i);
  }

  /** The file is the global header, the table and the bodies, nothing more:
      32 + 8 * N + the sum of the body lengths bytes. When no body reaches
      4 GiB the table's sizes are those lengths. */
  lemma {:induction false} ProgramLength(reg: Registry, ctx: GenContext, layers: seq<Layer>, bodies: seq<seq<uint8>>, bs: seq<uint8>)
    requires |layers| < MAX_LAYERS
    requires Program(reg, ctx, layers) == Ok(bs)
    requires EncodeBodies(reg, ctx, layers) == Ok(bodies)
    ensures |bs| == GLOBAL_HEADER_SIZE + 8 * |layers| + TotalSize(bodies)
    ensures forall i :: 0 <= i < |layers| && |bodies[i]| < TWO_TO_THE_32 ==>
              WithBodySizes(layers, bodies)[i].header.bodySize == |bodies[i]|
  {
    ProgramBytes(reg, ctx, layers, bodies, bs);
    HeaderTableLength(WithBodySizes(layers, bodies));
    ConcatLength(bodies);
    forall i | 0 <= i < |layers| && |bodies[i]| < TWO_TO_THE_32
      ensures WithBodySizes(layers, bodies)[i].header.bodySize == |bodies[i]|
    {
      WithBodySizesAt(layers, bodies, i);
    }
  }

  /** The second pass changes nothing but the reserved table: the program is
      the first-pass stream with the table written over the gap. */
  lemma {:induction false} SecondPassOnlyTable(reg: Registry, ctx: GenContext, layers: seq<Layer>, bodies: seq<seq<uint8>>, bs: seq<uint8>)
    requires |layers| < MAX_LAYERS
    requires Program(reg, ctx, layers) == Ok(bs)
    requires EncodeBodies(reg, ctx, layers) == Ok(bodies)
    ensures bs == Overwrite(FirstPass(ctx, |layers|, bodies), GLOBAL_HEADER_SIZE, HeaderTable(WithBodySizes(layers, bodies)))
  {
    ProgramBytes(reg, ctx, layers, bodies, bs);
    BackfillOnly(ctx, |layers|, WithBodySizes(layers, bodies), bodies, bs);
  }

  /** A layer that cannot be encoded makes the whole program fail with its error. */
  lemma {:induction false} ProgramErr(reg: Registry, ctx: GenContext, input: seq<Layer>)
    requires |input| < MAX_LAYERS && EncodeBodies(reg, ctx, input).Err?
    ensures Program(reg, ctx, input) == Err(EncodeBodies(reg, ctx, input).error)
  {
  }

  /** The two passes together: the header, the bodies written after the
      reserved gap, then the table written into the gap, give the program. */
  lemma {:induction false} TwoPassesGiveProgram(reg: Registry, ctx: GenContext, input: seq<Layer>, bodies: seq<seq<uint8>>,
                                                fix: nat, gapEnd: nat, headerWritten: seq<uint8>,
                                                afterBodies: seq<uint8>, final: seq<uint8>)
    requires |input| < MAX_LAYERS
    requires EncodeBodies(reg, ctx, input) == Ok(bodies)
    requires headerWritten == Overwrite([], 0, GlobalHeader(ctx, |input|))
    requires fix == GLOBAL_HEADER_SIZE && gapEnd == fix + 8 * |input|
    requires afterBodies == Overwrite(headerWritten, gapEnd, Concat(bodies))
    requires final == Overwrite(afterBodies, fix, HeaderTable(WithBodySizes(input, bodies)))
    ensures Program(reg, ctx, input) == Ok(final)
    ensures |final| == gapEnd + |Concat(bodies)|
  {
    HeaderTableLength(WithBodySizes(input, bodies));
    GapFilled(GlobalHeader(ctx, |input|), HeaderTable(WithBodySizes(input, bodies)), Concat(bodies),
              fix, gapEnd, headerWritten, afterBodies, final);
  }

  /** The program's bytes in terms of the encoded bodies. */
  lemma {:induction false} ProgramBytes(reg: Registry, ctx: GenContext, layers: seq<Layer>, bodies: seq<seq<uint8>>, bs: seq<uint8>)
    requires |layers| < MAX_LAYERS
    requires Program(reg, ctx, layers) == Ok(bs)
    requires EncodeBodies(reg, ctx, layers) == Ok(bodies)
    ensures bs == GlobalHeader(ctx, |layers|) + HeaderTable(WithBodySizes(layers, bodies)) + Concat(bodies)
  {
  }

  /** Backfilling the table into the first-pass stream touches only the
      reserved gap. */
  lemma {:induction false} BackfillOnly(ctx: GenContext, n: nat, sized: seq<Layer>, bodies: seq<seq<uint8>>, bs: seq<uint8>)
    requires n < MAX_LAYERS && |sized| == n
    requires bs == GlobalHeader(ctx, n) + HeaderTable(sized) + Concat(bodies)
    ensures bs == Overwrite(FirstPass(ctx, n, bodies), GLOBAL_HEADER_SIZE, HeaderTable(sized))
    ensures forall k :: 0 <= k < |bs| && !(GLOBAL_HEADER_SIZE <= k < GLOBAL_HEADER_SIZE + 8 * n) ==>
              k < |FirstPass(ctx, n, bodies)| && bs[k] == FirstPass(ctx, n, bodies)[k]
  {
    HeaderTableLength(sized);
    OverwriteReservedOnly(GlobalHeader(ctx, n), HeaderTable(sized), Concat(bodies),
                          GLOBAL_HEADER_SIZE, GLOBAL_HEADER_SIZE + 8 * n, FirstPass(ctx, n, bodies), bs);
  }

  /** Generation fails exactly when some layer cannot be encoded, and then
      with the error of the first such layer. */
  lemma {:induction false} ProgramFails(reg: Registry, ctx: GenContext, layers: seq<Layer>)
    requires |layers| < MAX_LAYERS
    ensures Program(reg, ctx, layers).Err? <==>
              exists i :: 0 <= i < |layers| && EncodeLayerBody(reg, ctx, layers[i]).Err?
    ensures Program(reg, ctx, layers).Err? ==>
              exists k :: 0 <= k < |layers| &&
                (forall j :: 0 <= j < k ==> EncodeLayerBody(reg, ctx, layers[j]).Ok?) &&
                EncodeLayerBody(reg, ctx, layers[k]) == Err(Program(reg, ctx, layers).error)
  {
    EncodeBodiesOk(reg, ctx, layers);
    if EncodeBodies(reg, ctx, layers).Err? {
      EncodeBodiesErr(reg, ctx, layers);
    }
  }

  /** A layer whose type has no converter makes the whole generation fail. */
  lemma {:induction false} UnregisteredLayerFails(reg: Registry, ctx: GenContext, layers: seq<Layer>, i: nat)
    requires |layers| < MAX_LAYERS
    requires i < |layers| && layers[i].header.layerType !in reg
    ensures Program(reg, ctx, layers).Err?
  {
    ProgramFails(reg, ctx, layers);
  }

  /** Invalid is never registered, so a layer tagged Invalid always makes
      generation fail. */
  lemma {:induction false} InvalidLayerFails(cs: seq<Converter>, ctx: GenContext, layers: seq<Layer>, i: nat)
    requires |layers| < MAX_LAYERS
    requires BuildRegistry(cs).Ok?
    requires i < |layers| && layers[i].header.layerType == INVALID
    ensures Program(BuildRegistry(cs).value, ctx, layers).Err?
  {
    RegistryContents(cs);
    UnregisteredLayerFails(BuildRegistry(cs).value, ctx, layers, i);
  }

  /** LayerNotSupported names a type some layer has and no converter handles. */
  lemma {:induction false} NotSupportedNamesLayer(reg: Registry, ctx: GenContext, layers: seq<Layer>)
    requires |layers| < MAX_LAYERS
    requires Program(reg, ctx, layers).Err? && Program(reg, ctx, layers).error.LayerNotSupported?
    ensures var t := Program(reg, ctx, layers).error.layerType;
      t !in reg && exists i :: 0 <= i < |layers| && layers[i].header.layerType == t
  {
    ProgramFails(reg, ctx, layers);
    var k :| 0 <= k < |layers| &&
      EncodeLayerBody(reg, ctx, layers[k]) == Err(Program(reg, ctx, layers).error);
  }

  function ExampleContext(): GenContext
  {
    GenContext("", 0x1000, 0x2000, 0x100, 64, 8)
  }

  function ExampleLayer(): Layer
  {
    Layer(LayerHeader(1, 0), [UInt(7), Flags(0)])
  }

  lemma {:induction false} ExampleBodies()
    ensures EncodeBodies(map[1 := UseDefault], ExampleContext(), [ExampleLayer()])
      == Ok([[7, 0, 0, 0, 0, 0, 0, 0]])
  {
    var reg: Registry := map[1 := UseDefault];
    var body: seq<uint8> := [7, 0, 0, 0, 0, 0, 0, 0];
    assert [UInt(7), Flags(0)][1..] == [Flags(0)];
    assert EncodeFields([UInt(7), Flags(0)]) == body;
    assert EncodeLayerBody(reg, ExampleContext(), ExampleLayer()) == Ok(body);
    assert Padded(body) == body;
    var layers := [ExampleLayer()];
    assert layers[..0] == [];
    var empty: seq<seq<uint8>> := [];
    assert EncodeBodies(reg, ExampleContext(), layers) == Ok(empty + [Padded(body)]);
    assert empty + [Padded(body)] == [body];
  }

  lemma {:induction false} ExampleHeader()
    ensures GlobalHeader(ExampleContext(), 1) == [
        3, 0, 0, 0,  1, 0, 0, 0,  0, 0, 0, 0,  1, 0, 0, 0,
        0, 0x10, 0, 0,  0, 0x20, 0, 0,  0, 1, 0, 0,  64, 0, 0, 0]
  {
  }

  lemma {:induction false} ExampleTable()
    ensures HeaderTable(WithBodySizes([ExampleLayer()], [[7, 0, 0, 0, 0, 0, 0, 0]]))
      == [1, 0, 0, 0,  8, 0, 0, 0]
  {
    var layers := WithBodySizes([ExampleLayer()], [[7, 0, 0, 0, 0, 0, 0, 0]]);
    assert layers == [Layer(LayerHeader(1, 8), ExampleLayer().body)];
    assert layers[..0] == [];
  }

  /** One layer with the default encoding of a uint 7 and a flags word 0,
      8-bit weights: a 48-byte file whose single table entry records an
      8-byte body. */
  lemma {:induction false} ExampleProgram()
    ensures Program(map[1 := UseDefault], ExampleContext(), [ExampleLayer()]) == Ok(
        [3, 0, 0, 0,  1, 0, 0, 0,  0, 0, 0, 0,  1, 0, 0, 0,
         0, 0x10, 0, 0,  0, 0x20, 0, 0,  0, 1, 0, 0,  64, 0, 0, 0]
        + [1, 0, 0, 0,  8, 0, 0, 0]
        + [7, 0, 0, 0,  0, 0, 0, 0])
  {
    ExampleBodies();
    ExampleHeader();
    ExampleTable();
    var reg: Registry := map[1 := UseDefault];
    var layers := [ExampleLayer()];
    var bodies: seq<seq<uint8>> := [[7, 0, 0, 0, 0, 0, 0, 0]];
    assert bodies[..0] == [];
    assert Concat(bodies) == [7, 0, 0, 0, 0, 0, 0, 0];
    assert EncodeBodies(reg, ExampleContext(), layers) == Ok(bodies);
    assert Program(reg, ExampleContext(), layers)
      == Ok(GlobalHeader(ExampleContext(), 1) + HeaderTable(WithBodySizes(layers, bodies)) + Concat(bodies));
  }
}
