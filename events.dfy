/**
 * The visitor protocol shared by the JSON parser, the CBOR encoder, the tree
 * builder and the pull-side replay machines. A visitor call is one `Event`;
 * a component that drives a visitor appends its calls to a `seq<Event>` log.
 */
module Events {

  datatype Option<T> = None | Some(value: T)

  /** An octet of an encoded byte string or sink. */
  type Byte = b: int | 0 <= b < 256

  const TwoTo63: int := 0x8000_0000_0000_0000
  const TwoTo64: int := 0x1_0000_0000_0000_0000

  predicate IsUint64(n: int) { 0 <= n < TwoTo64 }
  predicate IsInt64(n: int) { -TwoTo63 <= n < TwoTo63 }

  /** An IEEE 754 binary64 value. Floating point is opaque here: only the bit pattern travels. */
  datatype Float64 = Float64(bits: bv64)

  /** The semantic tags the modelled components produce or dispatch on. */
  datatype SemanticTag =
    | NoTag | Undefined | Datetime | EpochSecond | EpochMilli | EpochNano
    | Bigint | Bigdec | Bigfloat | Base16 | Base64 | Base64url | Uri
    | MultiDimRowMajor | MultiDimColumnMajor

  /** Element type of a typed array view. */
  datatype ElementKind = U8 | U16 | U32 | U64 | I8 | I16 | I32 | I64 | Half | F32 | F64

  /**
   * One element of a typed array: unsigned and signed integers by value, half
   * floats by their 16 bits, single and double floats promoted to binary64.
   */
  datatype Element = UInt(u: nat) | SInt(i: int) | HalfBits(h: bv16) | Float(f: Float64)

  predicate ElementFits(kind: ElementKind, e: Element)
  {
    match kind
    case U8 | U16 | U32 | U64 => e.UInt?
    case I8 | I16 | I32 | I64 => e.SInt?
    case Half => e.HalfBits?
    case F32 | F64 => e.Float?
  }

  datatype TypedArray = TypedArray(kind: ElementKind, elements: seq<Element>)
  {
    predicate WellTyped() { forall i :: 0 <= i < |elements| ==> ElementFits(kind, elements[i]) }
  }

  /** One visitor call. `length` is `None` for an indefinite-length container. */
  datatype Event =
    | BeginObject(length: Option<nat>, tag: SemanticTag)
    | EndObject
    | BeginArray(length: Option<nat>, tag: SemanticTag)
    | EndArray
    | Key(name: string)
    | StringValue(text: string, tag: SemanticTag)
    | ByteStringValue(bytes: seq<Byte>, tag: SemanticTag)
    | ByteStringExtValue(bytes: seq<Byte>, extTag: nat)
    | Uint64Value(u: nat, tag: SemanticTag)
    | Int64Value(i: int, tag: SemanticTag)
    | HalfValue(h: bv16, tag: SemanticTag)
    | DoubleValue(d: Float64, tag: SemanticTag)
    | BoolValue(b: bool, tag: SemanticTag)
    | NullValue(tag: SemanticTag)
    | TypedArrayValue(data: TypedArray, tag: SemanticTag)
    | BeginMultiDim(shape: seq<nat>, tag: SemanticTag)
    | EndMultiDim
    | Flush
}
