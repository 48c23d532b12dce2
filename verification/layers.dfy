/** The entities the generator works on: K210 layers with their headers and
    bodies, the generation context, the errors it raises and the registry
    that maps a layer type to the converter that encodes its body. */
module Layers {
  import opened Bytes

  /** K210LayerType. Only its numeric value matters here: `(uint)Type` is
      what the header table stores. */
  type LayerType = uint32

  /** K210LayerType.Invalid, the enumeration's first (zero) member. */
  const INVALID: LayerType := 0

  /** One property value of a layer body, by its runtime type. */
  datatype FieldValue =
    | UInt(u: uint32)                       // uint
    | Int(i: int32)                         // int
    | Flags(flags: uint32)                  // K210LayerFlags, backed by uint
    | Quant(scale: uint32, bias: uint32)    // K210QuantizationParam: the bits of two floats
    | Other(payload: int)                   // any other type, or null: an opaque stand-in for its content

  /** A layer body: its property values in declaration order. */
  type Body = seq<FieldValue>

  datatype LayerHeader = LayerHeader(layerType: LayerType, bodySize: uint32)

  datatype Layer = Layer(header: LayerHeader, body: Body)

  /** K210BinGenerationContext without its stream, which the model passes
      separately. */
  datatype GenContext = GenContext(
    prefix: string,
    maxStartAddress: uint32,
    mainMemoryUsage: uint32,
    mainMemoryOutputAddress: uint32,
    mainMemoryOutputSize: uint32,
    weightsBits: int)

  datatype Error =
    | LayerNotSupported(layerType: LayerType)   // LayerNotSupportedException
    | InvalidArgumentMember                     // InvalidOperationException("Invalid argument member.")
    | DuplicateKey(key: LayerType)              // ArgumentException from ToDictionary

  datatype Result<T> = Ok(value: T) | Err(error: Error)

  datatype Outcome = Pass | Fail(error: Error)

  datatype Option<T> = None | Some(value: T)

  /** A converter's own GenerateBin(writer, body, context): the bytes it writes. */
  type Encoder = (Body, GenContext) -> seq<uint8>

  /** How a registered layer type is encoded: by the converter's GenerateBin,
      or, when the converter has none, by the default field encoder. */
  datatype Strategy = Custom(encode: Encoder) | UseDefault

  type Registry = map<LayerType, Strategy>

  /** A converter class: the layer types its LayerConverter attributes name
      and its GenerateBin method, if it has one. */
  datatype Converter = Converter(layerTypes: seq<LayerType>, generateBin: Option<Encoder>)

  function StrategyOf(c: Converter): Strategy
  {
    match c.generateBin
    case Some(f) => Custom(f)
    case None => UseDefault
  }

  /** The (key, value) pairs of the query, in order: one per attribute whose
      layer type is not Invalid. */
  function Entries(cs: seq<Converter>): (es: seq<(LayerType, Strategy)>)
    ensures forall i :: 0 <= i < |es| ==> es[i].0 != INVALID
  {
    if cs == [] then []
    else Entries(cs[..|cs| - 1]) + AttributeEntries(cs[|cs| - 1].layerTypes, StrategyOf(cs[|cs| - 1]))
  }

  function Keys(es: seq<(LayerType, Strategy)>): seq<LayerType>
  {
    seq(|es|, i requires 0 <= i < |es| => es[i].0)
  }

  function AttributeEntries(ts: seq<LayerType>, s: Strategy): (es: seq<(LayerType, Strategy)>)
    ensures forall i :: 0 <= i < |es| ==> es[i].0 != INVALID
    ensures forall t :: t in Keys(es) <==> t in ts && t != INVALID
  {
    if ts == [] then []
    else
      var last := ts[|ts| - 1];
      var es := AttributeEntries(ts[..|ts| - 1], s);
      assert ts == ts[..|ts| - 1] + [last];
      assert Keys(es + [(last, s)]) == Keys(es) + [last];
      if last == INVALID then es else es + [(last, s)]
  }

  predicate DistinctKeys(ks: seq<LayerType>)
  {
    forall i, j :: 0 <= i < j < |ks| ==> ks[i] != ks[j]
  }

  /** Enumerable.ToDictionary: adds the pairs in order, failing on the first
      key already present. */
  function ToDictionary(es: seq<(LayerType, Strategy)>): Result<Registry>
  {
    if es == [] then Ok(map[])
    else
      match ToDictionary(es[..|es| - 1])
      case Err(e) => Err(e)
      case Ok(m) =>
        var (k, v) := es[|es| - 1];
        if k in m then Err(DuplicateKey(k)) else Ok(m[k := v])
  }

  /** The converter table of GenerateBin. */
  function BuildRegistry(cs: seq<Converter>): Result<Registry>
  {
    ToDictionary(Entries(cs))
  }

  /** ToDictionary succeeds exactly when no key repeats, and then its keys are
      those of the pairs. */
  lemma {:induction false} ToDictionaryKeys(es: seq<(LayerType, Strategy)>)
    ensures ToDictionary(es).Ok? <==> DistinctKeys(Keys(es))
    ensures ToDictionary(es).Ok? ==>
              forall k :: k in ToDictionary(es).value <==> k in Keys(es)
  {
    if es != [] {
      var init := es[..|es| - 1];
      ToDictionaryKeys(init);
      assert Keys(es) == Keys(init) + [es[|es| - 1].0];
      if !DistinctKeys(Keys(init)) {
        var i, j :| 0 <= i < j < |Keys(init)| && Keys(init)[i] == Keys(init)[j];
        assert Keys(es)[i] == Keys(es)[j];
      } else if es[|es| - 1].0 in Keys(init) {
        var i :| 0 <= i < |Keys(init)| && Keys(init)[i] == es[|es| - 1].0;
        assert Keys(es)[i] == Keys(es)[|es| - 1];
      }
    }
  }

  lemma {:induction false} EntriesKeys(cs: seq<Converter>)
    ensures forall t :: t in Keys(Entries(cs)) <==>
              t != INVALID && exists c :: c in cs && t in c.layerTypes
  {
    if cs != [] {
      var init := cs[..|cs| - 1];
      var last := cs[|cs| - 1];
      EntriesKeys(init);
      var a := Entries(init);
      var b := AttributeEntries(last.layerTypes, StrategyOf(last));
      assert Keys(Entries(cs)) == Keys(a) + Keys(b);
      assert cs == init + [last];
    }
  }

  /** Building the converter table fails exactly when two attributes name the
      same valid layer type; when it succeeds, the registered types are those
      some converter names, and Invalid is never among them. */
  lemma {:induction false} RegistryContents(cs: seq<Converter>)
    ensures BuildRegistry(cs).Ok? <==> DistinctKeys(Keys(Entries(cs)))
    ensures BuildRegistry(cs).Ok? ==> INVALID !in BuildRegistry(cs).value
    ensures BuildRegistry(cs).Ok? ==>
              forall t :: t in BuildRegistry(cs).value <==>
                t != INVALID && exists c :: c in cs && t in c.layerTypes
  {
    ToDictionaryKeys(Entries(cs));
    EntriesKeys(cs);
  }
}
