/** Generator.GenerateBin: writes the K210 program for a list of layers to a
    stream in two passes, and GenerateBinLayerBody, which encodes one layer
    body through the converter registry. */
module Generator {
  import opened Bytes
  import opened Stream
  import opened Layers
  import opened DefaultEncoder
  import opened ProgramLayout

  /** The eight words GenerateBin starts with. */
  method WriteGlobalHeader(bw: BinaryStream, ctx: GenContext, count: int32)
    modifies bw
    ensures bw.data == Overwrite(old(bw.data), old(bw.pos), GlobalHeader(ctx, count))
    ensures bw.pos == old(bw.pos) + GLOBAL_HEADER_SIZE
  {
    ghost var d0, p0 := bw.data, bw.pos;
    var version: uint32 := VERSION;
    var flags: uint32 := if ctx.weightsBits == 8 then 1 else 0;
    bw.WriteU32(version);
    ghost var d1 := bw.data;
    bw.WriteU32(flags);
    ghost var d2 := bw.data;
    bw.WriteI32(0);
    ghost var d3 := bw.data;
    bw.WriteI32(count);
    ghost var d4 := bw.data;
    bw.WriteU32(ctx.maxStartAddress);
    ghost var d5 := bw.data;
    bw.WriteU32(ctx.mainMemoryUsage);
    ghost var d6 := bw.data;
    bw.WriteU32(ctx.mainMemoryOutputAddress);
    ghost var d7 := bw.data;
    bw.WriteU32(ctx.mainMemoryOutputSize);
    GlobalHeaderWritten(ctx, count, d0, p0, d1, d2, d3, d4, d5, d6, d7, bw.data);
  }

  /** GenerateBinLayerBody: dispatches on the layer's type through the
      registry, then pads the stream to the next multiple of 8. An
      unregistered type throws LayerNotSupported before anything is written. */
  method GenerateBinLayerBody(bw: BinaryStream, reg: Registry, ctx: GenContext, layer: Layer)
    returns (r: Outcome)
    modifies bw
    ensures r.Pass? <==> EncodeLayerBody(reg, ctx, layer).Ok?
    ensures r.Fail? ==> r.error == EncodeLayerBody(reg, ctx, layer).error
    ensures layer.header.layerType !in reg ==> bw.data == old(bw.data) && bw.pos == old(bw.pos)
    ensures r.Pass? ==>
      var raw := EncodeLayerBody(reg, ctx, layer).value;
      var written := raw + Zeros(Pad8(old(bw.pos) + |raw|));
      bw.data == Overwrite(old(bw.data), old(bw.pos), written) &&
      bw.pos == old(bw.pos) + |written| && bw.pos % 8 == 0
  {
    ghost var d0, p0 := bw.data, bw.pos;
    var t := layer.header.layerType;
    if t !in reg {
      return Fail(LayerNotSupported(t));
    }
    ghost var raw: seq<uint8>;
    match reg[t] {
      case Custom(encode) =>
        raw := encode(layer.body, ctx);
        bw.Write(encode(layer.body, ctx));
        assert EncodeLayerBody(reg, ctx, layer) == Ok(raw);
      case UseDefault =>
        var o := GenerateBinDefault(bw, layer.body);
        if o.Fail? {
          return o;
        }
        raw := WrittenBytes(layer.body);
        DefaultWritesAll(layer.body);
        assert EncodeLayerBody(reg, ctx, layer) == Ok(raw);
    }
    ghost var d1, pos1 := bw.data, bw.pos;
    bw.AlignTo8();
    WriteThenAlign(d0, p0, raw, pos1, d1, bw.data);
    return Pass;
  }

  /** One iteration of the first pass: writes the body of layer i from an
      aligned position and sets its BodySize to the number of bytes the body
      and its padding took, truncated to a uint. */
  method GenerateLayer(stream: BinaryStream, layers: array<Layer>, i: nat, reg: Registry, ctx: GenContext)
    returns (r: Outcome)
    requires i < layers.Length && stream.pos % 8 == 0
    modifies stream, layers
    ensures r.Pass? <==> EncodeLayerBody(reg, ctx, old(layers[i])).Ok?
    ensures r.Fail? ==> r.error == EncodeLayerBody(reg, ctx, old(layers[i])).error
    ensures r.Pass? ==>
      var body := Padded(EncodeLayerBody(reg, ctx, old(layers[i])).value);
      && stream.data == Overwrite(old(stream.data), old(stream.pos), body)
      && stream.pos == old(stream.pos) + |body| && stream.pos % 8 == 0
      && layers[..] == old(layers[..])[i := Sized(old(layers[i]), body)]
  {
    var layer := layers[i];
    var beginPosition := stream.pos;
    r := GenerateBinLayerBody(stream, reg, ctx, layer);
    if r.Fail? {
      return;
    }
    ghost var raw := EncodeLayerBody(reg, ctx, layer).value;
    PaddedFrom(beginPosition, raw);
    var size := stream.pos - beginPosition;
    layers[i] := layer.(header := layer.header.(bodySize := WrapU32(size)));
  }

  /** The first pass of GenerateBin: encodes the layers in order from an
      8-aligned position, recording in each header the number of bytes its
      body and padding took. */
  method WriteBodies(stream: BinaryStream, layers: array<Layer>, reg: Registry, ctx: GenContext)
    returns (r: Outcome, ghost bodies: seq<seq<uint8>>)
    requires stream.pos % 8 == 0
    modifies stream, layers
    ensures r.Pass? <==> EncodeBodies(reg, ctx, old(layers[..])).Ok?
    ensures r.Fail? ==> r.error == EncodeBodies(reg, ctx, old(layers[..])).error
    ensures r.Pass? ==>
      EncodeBodies(reg, ctx, old(layers[..])) == Ok(bodies) &&
      stream.data == Overwrite(old(stream.data), old(stream.pos), Concat(bodies)) &&
      stream.pos == old(stream.pos) + |Concat(bodies)| &&
      layers[..] == WithBodySizes(old(layers[..]), bodies)
  {
    ghost var input := layers[..];
    ghost var d0, p0 := stream.data, stream.pos;
    var n := layers.Length;
    bodies := [];
    assert input[..0] == [] && input[0..] == input;
    var i := 0;
    while i < n
      invariant 0 <= i <= n
      invariant EncodeBodies(reg, ctx, input[..i]) == Ok(bodies) && |bodies| == i
      invariant stream.data == Overwrite(d0, p0, Concat(bodies))
      invariant stream.pos == p0 + |Concat(bodies)|
      invariant stream.pos % 8 == 0
      invariant layers[..] == WithBodySizes(input[..i], bodies) + input[i..]
    {
      ghost var data0, pos0, ls0 := stream.data, stream.pos, layers[..];
      assert layers[i] == ls0[i] == input[i];
      var res := GenerateLayer(stream, layers, i, reg, ctx);
      if res.Fail? {
        EncodeBodiesStops(reg, ctx, input, i);
        return res, bodies;
      }
      ghost var body := Padded(EncodeLayerBody(reg, ctx, input[i]).value);
      FirstPassIteration(reg, ctx, input, i, bodies, body, d0, p0, pos0, data0, stream.data, ls0, layers[..]);
      bodies := bodies + [body];
      i := i + 1;
    }
    assert input[..n] == input && input[n..] == [];
    return Pass, bodies;
  }

  /** The second pass of GenerateBin: one (type, body size) entry per layer,
      in order, written from the current position. */
  method WriteHeaderTable(stream: BinaryStream, layers: array<Layer>)
    modifies stream
    ensures stream.data == Overwrite(old(stream.data), old(stream.pos), HeaderTable(layers[..]))
    ensures stream.pos == old(stream.pos) + 8 * layers.Length
  {
    ghost var d0, p0 := stream.data, stream.pos;
    ghost var ls := layers[..];
    assert ls[..0] == [];
    var j := 0;
    while j < layers.Length
      invariant 0 <= j <= layers.Length
      invariant stream.data == Overwrite(d0, p0, HeaderTable(ls[..j]))
      invariant stream.pos == p0 + 8 * j
    {
      var h := layers[j].header;
      assert h == ls[j].header;
      stream.WriteU32(h.layerType);
      ghost var d1 := stream.data;
      stream.WriteU32(h.bodySize);
      TableEntryWritten(d0, p0, ls, j, d1, stream.data);
      j := j + 1;
    }
    assert ls[..layers.Length] == ls == layers[..];
  }

  /** The second pass of GenerateBin as a whole: seek back to the reserved
      gap, write the table there, and return to where the bodies ended. */
  method WriteHeaderTableAt(stream: BinaryStream, layers: array<Layer>, fixPosition: nat)
    modifies stream
    ensures stream.data == Overwrite(old(stream.data), fixPosition, HeaderTable(layers[..]))
    ensures stream.pos == old(stream.pos)
  {
    var newPosition := stream.pos;
    stream.Seek(fixPosition);
    WriteHeaderTable(stream, layers);
    stream.Seek(newPosition);
  }

  /** Generator.GenerateBin on a fresh stream. On success the stream holds
      exactly the program, its position is restored to the end, every
      layer's BodySize is set, and the context is returned; otherwise the
      first layer that cannot be encoded determines the error. */
  method GenerateBin(
    stream: BinaryStream, layers: array<Layer>, reg: Registry, weightsBits: int, prefix: string,
    maxStartAddress: uint32, mainMemoryUsage: uint32,
    mainMemoryOutputAddress: uint32, mainMemoryOutputSize: uint32)
    returns (r: Result<GenContext>)
    requires stream.data == [] && stream.pos == 0
    requires layers.Length < MAX_LAYERS
    modifies stream, layers
    ensures var ctx := GenContext(prefix, maxStartAddress, mainMemoryUsage,
                                  mainMemoryOutputAddress, mainMemoryOutputSize, weightsBits);
      var program := Program(reg, ctx, old(layers[..]));
      && (r.Ok? <==> program.Ok?)
      && (r.Err? ==> r.error == program.error)
      && (r.Ok? ==>
            && r.value == ctx
            && stream.data == program.value
            && stream.pos == |program.value|
            && layers[..] == WithBodySizes(old(layers[..]), EncodeBodies(reg, ctx, old(layers[..])).value))
  {
    var ctx := GenContext(prefix, maxStartAddress, mainMemoryUsage,
                          mainMemoryOutputAddress, mainMemoryOutputSize, weightsBits);
    ghost var input := layers[..];
    var n := layers.Length;
    WriteGlobalHeader(stream, ctx, n);
    ghost var headerWritten := stream.data;

    // Headers: reserved now, filled in once the bodies are written.
    var fixPosition := stream.pos;
    stream.Seek(stream.pos + 4 * 2 * n);
    Aligned8Multiple(n);
    Aligned8Sum(32, 8 * n);

    var res, bodies := WriteBodies(stream, layers, reg, ctx);
    if res.Fail? {
      ProgramErr(reg, ctx, input);
      return Err(res.error);
    }
    assert layers[..] == WithBodySizes(input, bodies);
    ghost var afterBodies := stream.data;
    WriteHeaderTableAt(stream, layers, fixPosition);
    TwoPassesGiveProgram(reg, ctx, input, bodies, fixPosition, fixPosition + 8 * n, headerWritten, afterBodies, stream.data);
    return Ok(ctx);
  }
}
