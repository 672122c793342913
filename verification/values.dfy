/** The value model of the document codec: every value a document field can
    hold, the kinds used to dispatch on values, and the codec's errors. */
module Values {
  import opened Results

  newtype int32 = x: int | -0x8000_0000 <= x < 0x8000_0000
  newtype int64 = x: int | -0x8000_0000_0000_0000 <= x < 0x8000_0000_0000_0000

  /** A globally unique identifier. Its byte layout (timestamp, machine,
      counter) is not modelled: only equality of identifiers matters. */
  datatype ObjectId = ObjectId(id: nat)

  /** A field value. A double is kept as its opaque 64-bit pattern. */
  datatype Value =
    | Null
    | Bool(b: bool)
    | Int32(i32: int32)
    | Int64(i64: int64)
    | Double(bits: bv64)
    | Str(s: string)
    | Binary(bytes: seq<bv8>)
    | Oid(oid: ObjectId)
    | Doc(fields: seq<Field>)
    | Array(items: seq<Value>)

  /** One named field of a document. */
  datatype Field = Field(key: string, value: Value)

  /** A document: its fields in insertion order. */
  type Document = seq<Field>

  /** The runtime kind of a value, the key under which codecs and hooks are found. */
  datatype Kind =
    | NullKind | BoolKind | Int32Kind | Int64Kind | DoubleKind
    | StringKind | BinaryKind | ObjectIdKind | DocumentKind | ArrayKind

  datatype CodecError =
    | CodecNotFound(kind: Kind)   // no provider supplies a codec for this kind
    | MissingId                   // the document has no identity field

  type Outcome<T> = Result<T, CodecError>

  function KindOf(v: Value): Kind {
    match v
    case Null => NullKind
    case Bool(_) => BoolKind
    case Int32(_) => Int32Kind
    case Int64(_) => Int64Kind
    case Double(_) => DoubleKind
    case Str(_) => StringKind
    case Binary(_) => BinaryKind
    case Oid(_) => ObjectIdKind
    case Doc(_) => DocumentKind
    case Array(_) => ArrayKind
  }

  predicate IsContainer(k: Kind) {
    k == DocumentKind || k == ArrayKind
  }

  /** Every kind that occurs anywhere inside `v`, `v` itself included. */
  function KindsIn(v: Value): (ks: set<Kind>)
    decreases v, 1
    ensures KindOf(v) in ks
  {
    match v
    case Doc(fs) => {DocumentKind} + KindsInFields(fs)
    case Array(xs) => {ArrayKind} + KindsInItems(xs)
    case _ => {KindOf(v)}
  }

  function KindsInFields(fs: seq<Field>): set<Kind>
    decreases fs, 0
  {
    if |fs| == 0 then {} else KindsIn(fs[0].value) + KindsInFields(fs[1..])
  }

  function KindsInItems(xs: seq<Value>): set<Kind>
    decreases xs, 0
  {
    if |xs| == 0 then {} else KindsIn(xs[0]) + KindsInItems(xs[1..])
  }
}
