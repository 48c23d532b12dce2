# K210 program generator, modelled in Dafny

This project models `Generator` of nncase's K210 converter
(`src/NnCase.Converter.K210/Converters/Stages/Generate/Generator.cs`): the code
that serialises a scheduled list of K210 layers into the binary program the
KPU runtime loads. `GenerateBin` works in two passes over a seekable stream:

- It writes an 8-word global header: version 3, flags, a zero, the layer
  count and four addressing values.
- It reserves `8 * N` bytes for the header table.
- It encodes every layer body in order. `GenerateBinLayerBody` dispatches on
  the layer type through the converter table and then aligns the stream to 8
  bytes. The number of bytes the body and its padding took is stored in the
  layer's `BodySize`.
- It seeks back and fills the table with one `(type, BodySize)` pair per
  layer.
- It returns the stream position to the end.

`GenerateBinDefault` is the fallback body encoder. It writes the body's
property values in declaration order: a `uint`, an `int` or a flags value as
one little-endian word, and a quantization parameter as its scale and then its
bias. Any other value type makes it throw.

The model has six modules:

- `Bytes` (`bytes.dfy`): little-endian words, zero padding and 8-byte
  alignment.
- `Stream` (`stream.dfy`): the `BinaryStream` class, a byte sequence plus a
  position that writes overwrite in place and that can be moved past the end.
  It also holds the function `Overwrite`, which says what one write leaves in
  the stream.
- `Layers` (`layers.dfy`): layers, headers, bodies, the generation context,
  errors, and the converter table built from the converters' attributes.
- `DefaultEncoder` (`default_encoder.dfy`): `GenerateBinDefault`, the
  function `EncodeFields` it is proved against, and a decoder showing that the encoding can
  be read back.
- `ProgramLayout` (`program_layout.dfy`): the function `Program`, which gives
  the whole file a run produces, and the lemmas stating what the file holds.
- `Generator` (`generator.dfy`): the imperative methods for `GenerateBin` and
  `GenerateBinLayerBody`, each proved against those functions.

Layers are an `array<Layer>`, because the first pass updates each layer's
`BodySize` in place. Each method's `ensures` ties the new stream contents and
layer array to `Program`, `EncodeBodies` and `WithBodySizes`. The
`ProgramLayout` lemmas then state what the format promises about those
functions.

Two behaviours of the code are worth stating outright:

- The layer count and the reserved zero are written with
  `BinaryWriter.Write(int)` (Generator.cs:71-72); their bytes equal the
  unsigned encoding for every count the model admits.
- The converter table is built inside every `GenerateBin` call with
  `ToDictionary` (Generator.cs:39), so a type claimed by two converters
  throws then.

## Model

| member | source | states |
|---|---|---|
| Generator.GenerateBin | src/NnCase.Converter.K210/Converters/Stages/Generate/Generator.cs:16-102 | On a fresh stream, the run succeeds exactly when every layer can be encoded; otherwise it fails with the error of the first layer that cannot. On success the stream holds exactly `Program(...)`, the position is the end of the file, every layer's BodySize is set by `WithBodySizes`, and the context is returned. |
| Generator.WriteGlobalHeader | src/NnCase.Converter.K210/Converters/Stages/Generate/Generator.cs:67-76 | The eight writes put `GlobalHeader(ctx, count)` at the old position and advance it by 32. |
| Generator.GenerateBinLayerBody | src/NnCase.Converter.K210/Converters/Stages/Generate/Generator.cs:44-65 | It succeeds exactly when the layer's type is registered and its encoder accepts the body, and otherwise reports that error. An unregistered type gives LayerNotSupported and leaves the stream untouched. On success it writes the encoder's bytes followed by the zero bytes that align the position, which is then a multiple of 8. |
| Generator.GenerateLayer | src/NnCase.Converter.K210/Converters/Stages/Generate/Generator.cs:84-88 | From an aligned position, it writes the layer's padded body. It sets that layer's BodySize, and no other layer, to the number of bytes the body and its padding took, truncated to a uint. |
| Generator.WriteBodies | src/NnCase.Converter.K210/Converters/Stages/Generate/Generator.cs:82-89 | The first pass: it succeeds exactly when `EncodeBodies` does. The stream then holds the concatenated padded bodies from the old position, in input order, and the layers are `WithBodySizes(input, bodies)`. |
| Generator.WriteHeaderTable | src/NnCase.Converter.K210/Converters/Stages/Generate/Generator.cs:93-98 | Writes `HeaderTable(layers)`, one (type, BodySize) pair per layer in order, and advances the position by `8 * N`. |
| Generator.WriteHeaderTableAt | src/NnCase.Converter.K210/Converters/Stages/Generate/Generator.cs:91-100 | Writes the table at the reserved offset and leaves the position where it was before the seek. |
| DefaultEncoder.GenerateBinDefault | src/NnCase.Converter.K210/Converters/Stages/Generate/Generator.cs:104-131 | It passes exactly when every value has a known type, and otherwise throws InvalidArgumentMember. Either way the stream holds the encodings of all values before the first rejected one (all of them on success), and the position advances past them. |
| DefaultEncoder.WriteField | src/NnCase.Converter.K210/Converters/Stages/Generate/Generator.cs:112-126 | One case of the switch writes exactly `FieldBytes(value)`: 4 bytes for uint, int and flags, and scale then bias for a quantization parameter. |
| DefaultEncoder.FieldWritten | src/NnCase.Converter.K210/Converters/Stages/Generate/Generator.cs:110-130 | The loop step: writing the next value after the earlier ones extends the written encoding by that value's bytes. |
| DefaultEncoder.DefaultLength | src/NnCase.Converter.K210/Converters/Stages/Generate/Generator.cs:112-126 | The output length is 4 per uint, int or flags value plus 8 per quantization parameter. |
| DefaultEncoder.DefaultRoundTrip | src/NnCase.Converter.K210/Converters/Stages/Generate/Generator.cs:104-131 | Decoding the output with the body's property types, in declaration order, gives back the body. So values are written in order, each at its place, and nothing else is written. |
| DefaultEncoder.FieldRoundTrip | src/NnCase.Converter.K210/Converters/Stages/Generate/Generator.cs:114-126 | Each value reads back from the start of its bytes, whatever follows them. |
| DefaultEncoder.FirstUnencodableAt | src/NnCase.Converter.K210/Converters/Stages/Generate/Generator.cs:127-128 | The first value the switch rejects is determined by the values before it being accepted and that value being rejected. |
| DefaultEncoder.EncodeFieldsSnoc | src/NnCase.Converter.K210/Converters/Stages/Generate/Generator.cs:110 | Appending a value to the body appends its bytes to the encoding. |
| DefaultEncoder.DefaultWritesAll | src/NnCase.Converter.K210/Converters/Stages/Generate/Generator.cs:110-130 | When every value is accepted, what the loop writes is the whole encoding. |
| ProgramLayout.ProgramHeader | src/NnCase.Converter.K210/Converters/Stages/Generate/Generator.cs:67-76 | The first 32 bytes of the program read back as version 3, flags (1 exactly when weightsBits is 8, else 0), 0, the layer count and the four addressing values, in that order. |
| ProgramLayout.GlobalHeaderWritten | src/NnCase.Converter.K210/Converters/Stages/Generate/Generator.cs:69-76 | The eight consecutive word writes together are one write of `GlobalHeader`. |
| ProgramLayout.ProgramTable | src/NnCase.Converter.K210/Converters/Stages/Generate/Generator.cs:93-98 | Entry `i` of the table starts at `32 + 8i`. It reads back as layer `i`'s type, then the length of layer `i`'s padded body truncated to a uint. |
| ProgramLayout.HeaderTableAt | src/NnCase.Converter.K210/Converters/Stages/Generate/Generator.cs:93-98 | The table is `8 * N` bytes long, and bytes `8i..8i+8` are layer `i`'s entry. |
| ProgramLayout.TableEntryWritten | src/NnCase.Converter.K210/Converters/Stages/Generate/Generator.cs:95-97 | Writing the type and then the BodySize after the earlier entries extends the written table by one entry. |
| ProgramLayout.SecondPassOnlyTable | src/NnCase.Converter.K210/Converters/Stages/Generate/Generator.cs:91-98 | The program is the first-pass stream (header, reserved gap, bodies) with the table written over the gap at offset 32. |
| ProgramLayout.BackfillOnly | src/NnCase.Converter.K210/Converters/Stages/Generate/Generator.cs:91-98 | The backfill changes no byte outside `[32, 32 + 8N)`. |
| ProgramLayout.BodiesContiguous | src/NnCase.Converter.K210/Converters/Stages/Generate/Generator.cs:79-89 | The first body starts right after the reserved table. Each body starts where the previous one ended. Every start and every body length is a multiple of 8. |
| ProgramLayout.ProgramBody | src/NnCase.Converter.K210/Converters/Stages/Generate/Generator.cs:82-89 | Layer `i`'s bytes at its start offset are its encoder's output followed by its alignment padding. |
| ProgramLayout.ProgramLength | src/NnCase.Converter.K210/Converters/Stages/Generate/Generator.cs:91-100 | The file is `32 + 8N + ` the sum of the body lengths long. Each recorded BodySize equals its body's length whenever that fits a uint. |
| ProgramLayout.TwoPassesGiveProgram | src/NnCase.Converter.K210/Converters/Stages/Generate/Generator.cs:67-100 | Header, gap, bodies, then the table written into the gap: together they are exactly `Program(...)`, and the final length is the end of the bodies. |
| ProgramLayout.FirstPassIteration | src/NnCase.Converter.K210/Converters/Stages/Generate/Generator.cs:82-89 | One iteration of the first loop extends the encoded bodies, the written stream and the sized layers by layer `i`. |
| ProgramLayout.EncodeBodiesOk | src/NnCase.Converter.K210/Converters/Stages/Generate/Generator.cs:82-89 | The bodies encode exactly when every layer does. Body `i` is then layer `i`'s output padded to 8 bytes. |
| ProgramLayout.EncodeBodiesErr | src/NnCase.Converter.K210/Converters/Stages/Generate/Generator.cs:82-89 | A failed first pass reports the error of the first layer that cannot be encoded. |
| ProgramLayout.EncodeBodiesStops | src/NnCase.Converter.K210/Converters/Stages/Generate/Generator.cs:82-89 | If the layers before `i` encode and layer `i` does not, the run fails with layer `i`'s error. |
| ProgramLayout.ProgramFails | src/NnCase.Converter.K210/Converters/Stages/Generate/Generator.cs:44-89 | Generation fails exactly when some layer cannot be encoded, and then with the error of the first such layer. |
| ProgramLayout.ProgramErr | src/NnCase.Converter.K210/Converters/Stages/Generate/Generator.cs:82-89 | A failed first pass makes the whole run fail with its error. |
| ProgramLayout.UnregisteredLayerFails | src/NnCase.Converter.K210/Converters/Stages/Generate/Generator.cs:47-62 | A layer whose type has no converter makes generation fail. |
| ProgramLayout.NotSupportedNamesLayer | src/NnCase.Converter.K210/Converters/Stages/Generate/Generator.cs:59-62 | A LayerNotSupported failure names a type that is not registered and that some layer has. |
| ProgramLayout.InvalidLayerFails | src/NnCase.Converter.K210/Converters/Stages/Generate/Generator.cs:34-62 | With a table built from the converters, a layer tagged Invalid always makes generation fail. |
| ProgramLayout.WithBodySizesAt | src/NnCase.Converter.K210/Converters/Stages/Generate/Generator.cs:88 | After the first pass, layer `k` is the input layer `k` with BodySize set from body `k`. |
| ProgramLayout.PaddedFrom | src/NnCase.Converter.K210/Converters/Stages/Generate/Generator.cs:64 | From an aligned start, writing a body and aligning gives the body padded to a multiple of 8. |
| ProgramLayout.ExampleProgram | src/NnCase.Converter.K210/Converters/Stages/Generate/Generator.cs:67-98 | One layer with body (uint 7, flags 0) and 8-bit weights gives a 48-byte file. Its header is 3, 1, 0, 1 and the four addresses; its table entry is (1, 8); its body is `07 00 00 00 00 00 00 00`. |
| Layers.RegistryContents | src/NnCase.Converter.K210/Converters/Stages/Generate/Generator.cs:30-39 | Building the table fails exactly when two attributes name the same valid type. On success its keys are the non-Invalid types some converter names, so Invalid is never among them. |
| Layers.ToDictionaryKeys | src/NnCase.Converter.K210/Converters/Stages/Generate/Generator.cs:39 | ToDictionary succeeds exactly when no key repeats, and its keys are then those of the pairs. |
| Layers.EntriesKeys | src/NnCase.Converter.K210/Converters/Stages/Generate/Generator.cs:30-38 | The query yields one key for every non-Invalid type some converter's attributes name. |
| Stream.BinaryStream.AlignTo8 | src/NnCase.Converter.K210/Converters/Stages/Generate/Generator.cs:64 | Writes the fewest zero bytes that make the position a multiple of 8. |
| Stream.BinaryStream.Seek | src/NnCase.Converter.K210/Converters/Stages/Generate/Generator.cs:80 | Moves the position, possibly past the end, without writing. |
| Stream.OverwriteReservedOnly | src/NnCase.Converter.K210/Converters/Stages/Generate/Generator.cs:79-98 | Content written after a reserved gap, then the gap filled, gives header, gap content and content in order. Bytes outside the gap are unchanged. |
| Stream.GapFilled | src/NnCase.Converter.K210/Converters/Stages/Generate/Generator.cs:79-98 | On a fresh stream: a header, a skip, content, then a seek back and the gap written gives header, table and content in order. |
| Stream.WriteThenAlign | src/NnCase.Converter.K210/Converters/Stages/Generate/Generator.cs:52-64 | A write followed by alignment is one write of the bytes plus their padding. |
| Stream.OverwriteConsecutive | src/NnCase.Converter.K210/Converters/Stages/Generate/Generator.cs:69-76 | Two writes back to back are one write of both. |
| Stream.OverwriteContents | src/NnCase.Converter.K210/Converters/Stages/Generate/Generator.cs:69-97 | A write puts its bytes at the position and keeps every other byte, with zeros in a gap past the old end. |
| Bytes.U32RoundTrip | src/NnCase.Converter.K210/Converters/Stages/Generate/Generator.cs:69-76 | A uint written little-endian reads back unchanged. |
| Bytes.U32ReadEncode | src/NnCase.Converter.K210/Converters/Stages/Generate/Generator.cs:69-76 | Any four bytes are the encoding of the word they read as. |
| Bytes.I32RoundTrip | src/NnCase.Converter.K210/Converters/Stages/Generate/Generator.cs:71-72 | An int written as two's complement reads back unchanged. |
| Bytes.Pad8IsLeast | src/NnCase.Converter.K210/Converters/Stages/Generate/Generator.cs:64 | The alignment padding is the least number of bytes that aligns the position. |

## Left out

- Reflection (lines 30-39, 51-52). The assembly scan, `GetMethod` and
  `Activator.CreateInstance` are replaced by a list of converters, each giving
  the layer types its attributes name and, optionally, its `GenerateBin`.
- A converter's own `GenerateBin` is not shown. It is modelled as a total
  function from the body and the context to the bytes it writes, so it can
  neither fail nor read the stream.
- The order of properties by `MetadataToken` (lines 106-108) is a reflection
  artefact. A body is an explicit list of values in declaration order.
- `float` values: the scale and bias of a quantization parameter are 32-bit
  words, written as four bytes each, with no IEEE arithmetic.
- The addressing values that `GenerateBin` derives from the
  `InferenceContext` and the graph output (lines 18-25) are plain `uint`
  parameters. `InferenceContext` is not part of this model.
- `K210BinGenerationContext.AlignStreamPosition`: its body lies outside
  Generator.cs; the model writes zero bytes up to the next multiple of 8.
- `K210LayerType`'s numeric values are not part of this model. `Invalid` is
  taken to be 0.
- Generator.GenerateBin: the converter table is a parameter. The table build
  and its duplicate-key failure are modelled separately by
  `Layers.BuildRegistry`.
- Generator.GenerateBin: requires an empty stream at position 0, so offsets in
  the file are offsets in the stream.
- Generator.GenerateBin: requires fewer than 2^28 layers, so that
  `4 * 2 * layers.Count` does not overflow an `int`.
- Generator.GenerateBin: on failure, the contract says nothing about the
  stream or the layers. The caller discards both.
- Stream failures. Reading or setting `BaseStream.Position` (lines 79-80,
  91-92, 100) throws on a stream that cannot seek, and any `Write` can throw
  an I/O error. `Stream.BinaryStream` always seeks and never fails, so the
  model's `GenerateBin` never fails for either reason.
- A null body. `argument.GetType()` (line 106) throws on a null body; a
  `Layers.Body` is a sequence and is never null.
- Generator.GenerateBin: a converter's own `GenerateBin` receives the live
  context (line 52) and may change it. The model passes an immutable
  `GenContext`, so the contract's `r.value == ctx` does not capture such
  changes.
- Bodies handled by a converter's own `GenerateBin` are abstracted: a value
  of a type the default encoder does not know is `Other(payload)`, one opaque
  integer standing for its content (a weights array, say), so two such values
  are distinguished only through that integer.
- Layers are values in an array. Two list entries that share one `K210Layer`
  object, so that writing one BodySize changes both, are not modelled.
- The stream position is unbounded. It is a `long` in .NET.
- `tests/system/test_conv2d.py` drives external compilers and numeric
  comparisons. There is nothing in it to model.
