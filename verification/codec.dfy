/** The document codec: recursive encoding of a document into the sequence
    of fields it writes, with the identity-first rule for collectible
    documents, and recursive decoding of written fields back into a
    document. Hooks are consulted at every scalar value. */
module Codec {
  import opened Results
  import opened Values
  import opened Documents
  import opened Registry
  import opened Transformers
  import opened Identity

  /** What one encode call produces: the fields in the order they were
      written, and the caller's document as it stands afterwards (with the
      generated `_id`, if one was generated). */
  datatype Encoded = Encoded(written: Document, document: Document)

  /** Passes a value that is not traversed through the codec for its kind:
      null and containers need none, every other kind needs one from the
      registry. The value itself is carried unchanged. */
  function ThroughCodec(reg: CodecRegistry, w: Value): (r: Outcome<Value>)
    ensures r.Ok? ==> r.value == w
    ensures r.Err? <==> NeedsCodec(KindOf(w)) && Resolve(reg, KindOf(w)).Err?
    ensures r.Err? ==> r.error == CodecNotFound(KindOf(w))
  {
    if !NeedsCodec(KindOf(w)) then Ok(w)
    else
      match Resolve(reg, KindOf(w))
      case Ok(_) => Ok(w)
      case Err(e) => Err(e)
  }

  /** Writes a value a hook returned: every value inside it, at any depth,
      goes through the codec for its kind, so a document or array a hook
      returns fails on a kind without a codec just as the caller's own
      document would; hooks are not applied a second time. The value itself
      is carried unchanged. */
  function WriteThrough(reg: CodecRegistry, w: Value): (r: Outcome<Value>)
    decreases w, 1
    ensures r.Ok? ==> r.value == w
    ensures r.Err? ==> r.error.CodecNotFound? && NeedsCodec(r.error.kind) && Resolve(reg, r.error.kind).Err?
    ensures r.Err? ==> r.error.kind in KindsIn(w)
  {
    match w
    case Doc(fs) =>
      var ws :- WriteThroughFields(reg, fs);
      Ok(Doc(ws))
    case Array(xs) =>
      var ys :- WriteThroughItems(reg, xs);
      Ok(Array(ys))
    case _ => ThroughCodec(reg, w)
  }

  function WriteThroughFields(reg: CodecRegistry, fs: seq<Field>): (r: Outcome<seq<Field>>)
    decreases fs, 0
    ensures r.Ok? ==> r.value == fs
    ensures r.Err? ==> r.error.CodecNotFound? && NeedsCodec(r.error.kind) && Resolve(reg, r.error.kind).Err?
    ensures r.Err? ==> r.error.kind in KindsInFields(fs)
  {
    if |fs| == 0 then Ok([])
    else
      var w :- WriteThrough(reg, fs[0].value);
      var ws :- WriteThroughFields(reg, fs[1..]);
      Ok([Field(fs[0].key, w)] + ws)
  }

  function WriteThroughItems(reg: CodecRegistry, xs: seq<Value>): (r: Outcome<seq<Value>>)
    decreases xs, 0
    ensures r.Ok? ==> r.value == xs
    ensures r.Err? ==> r.error.CodecNotFound? && NeedsCodec(r.error.kind) && Resolve(reg, r.error.kind).Err?
    ensures r.Err? ==> r.error.kind in KindsInItems(xs)
  {
    if |xs| == 0 then Ok([])
    else
      var y :- WriteThrough(reg, xs[0]);
      var ys :- WriteThroughItems(reg, xs[1..]);
      Ok([y] + ys)
  }

  /** Encodes one value: nested documents and arrays are traversed, every
      other value is first offered to its kind's encoding hook and the
      outcome is written through the codecs for the kinds it holds. */
  function EncodeValue(reg: CodecRegistry, hooks: HookConfig, v: Value): (r: Outcome<Value>)
    decreases v, 1
    ensures r.Ok? && v.Doc? ==> r.value.Doc? && Keys(r.value.fields) == Keys(v.fields)
    ensures r.Ok? && v.Array? ==> r.value.Array? && |r.value.items| == |v.items|
    ensures r.Err? ==> r.error.CodecNotFound? && NeedsCodec(r.error.kind) && Resolve(reg, r.error.kind).Err?
  {
    match v
    case Doc(fs) =>
      var ws :- EncodeFields(reg, hooks, fs);
      Ok(Doc(ws))
    case Array(xs) =>
      var ys :- EncodeItems(reg, hooks, xs);
      Ok(Array(ys))
    case _ => WriteThrough(reg, ApplyEncodingHooks(hooks, v))
  }

  /** Encodes the fields of a nested document in their own order. */
  function EncodeFields(reg: CodecRegistry, hooks: HookConfig, fs: seq<Field>): (r: Outcome<seq<Field>>)
    decreases fs, 0
    ensures r.Ok? ==> Keys(r.value) == Keys(fs)
    ensures r.Err? ==> r.error.CodecNotFound? && NeedsCodec(r.error.kind) && Resolve(reg, r.error.kind).Err?
  {
    if |fs| == 0 then Ok([])
    else
      var w :- EncodeValue(reg, hooks, fs[0].value);
      var ws :- EncodeFields(reg, hooks, fs[1..]);
      Ok([Field(fs[0].key, w)] + ws)
  }

  /** Encodes the elements of an array in their own order. */
  function EncodeItems(reg: CodecRegistry, hooks: HookConfig, xs: seq<Value>): (r: Outcome<seq<Value>>)
    decreases xs, 0
    ensures r.Ok? ==> |r.value| == |xs|
    ensures r.Err? ==> r.error.CodecNotFound? && NeedsCodec(r.error.kind) && Resolve(reg, r.error.kind).Err?
  {
    if |xs| == 0 then Ok([])
    else
      var y :- EncodeValue(reg, hooks, xs[0]);
      var ys :- EncodeItems(reg, hooks, xs[1..]);
      Ok([y] + ys)
  }

  /** The order in which the top-level fields are written. A collectible
      document writes `_id` first (generated when absent) and then every other
      field in its original relative order; any other document is written
      in its own order. */
  function WriteOrder(d: Document, collectible: bool, newId: ObjectId): (r: Document)
    ensures !collectible ==> r == d
    ensures collectible ==> |r| >= 1 && r[0].key == IdKey && r[1..] == Without(d, IdKey)
    ensures collectible && DocumentHasId(d) ==> r[0].value == IdValue(d)
    ensures collectible && !DocumentHasId(d) ==> r[0].value == Oid(newId)
  {
    if !collectible then d
    else
      var g := GenerateIdIfAbsentFromDocument(d, newId);
      WithoutAppended(d, IdKey, Oid(newId));
      [Field(IdKey, IdValue(g))] + Without(g, IdKey)
  }

  /** Encodes a top-level document. The caller's document is never
      reordered: at most the generated `_id` is appended to it. */
  function Encode(reg: CodecRegistry, hooks: HookConfig, d: Document, collectible: bool, newId: ObjectId)
    : (r: Outcome<Encoded>)
    ensures r.Ok? && collectible ==> Keys(r.value.written) == [IdKey] + Keys(Without(d, IdKey))
    ensures r.Ok? && !collectible ==> Keys(r.value.written) == Keys(d)
    ensures r.Ok? ==> |d| <= |r.value.document| <= |d| + 1 && r.value.document[..|d|] == d
    ensures r.Ok? && (!collectible || DocumentHasId(d)) ==> r.value.document == d
    ensures r.Ok? ==> DocumentHasId(r.value.document) == (collectible || DocumentHasId(d))
    ensures r.Err? ==> r.error.CodecNotFound? && NeedsCodec(r.error.kind) && Resolve(reg, r.error.kind).Err?
  {
    var order := WriteOrder(d, collectible, newId);
    var written :- EncodeFields(reg, hooks, order);
    Ok(Encoded(written, if collectible then GenerateIdIfAbsentFromDocument(d, newId) else d))
  }

  /** Decodes one written value: nested documents and arrays are traversed,
      every other value is read through the codec for its kind and then
      offered to its kind's decoding hook. */
  function DecodeValue(reg: CodecRegistry, hooks: HookConfig, w: Value): (r: Outcome<Value>)
    decreases w, 1
    ensures r.Ok? && w.Doc? ==> r.value.Doc? && Keys(r.value.fields) == Keys(w.fields)
    ensures r.Ok? && w.Array? ==> r.value.Array? && |r.value.items| == |w.items|
    ensures r.Err? ==> r.error.CodecNotFound? && NeedsCodec(r.error.kind) && Resolve(reg, r.error.kind).Err?
  {
    match w
    case Doc(fs) =>
      var ds :- DecodeFields(reg, hooks, fs);
      Ok(Doc(ds))
    case Array(ys) =>
      var xs :- DecodeItems(reg, hooks, ys);
      Ok(Array(xs))
    case _ =>
      match ThroughCodec(reg, w)
      case Ok(x) => Ok(ApplyDecodingHooks(hooks, x))
      case Err(e) => Err(e)
  }

  function DecodeFields(reg: CodecRegistry, hooks: HookConfig, fs: seq<Field>): (r: Outcome<seq<Field>>)
    decreases fs, 0
    ensures r.Ok? ==> Keys(r.value) == Keys(fs)
    ensures r.Err? ==> r.error.CodecNotFound? && NeedsCodec(r.error.kind) && Resolve(reg, r.error.kind).Err?
  {
    if |fs| == 0 then Ok([])
    else
      var x :- DecodeValue(reg, hooks, fs[0].value);
      var xs :- DecodeFields(reg, hooks, fs[1..]);
      Ok([Field(fs[0].key, x)] + xs)
  }

  function DecodeItems(reg: CodecRegistry, hooks: HookConfig, ys: seq<Value>): (r: Outcome<seq<Value>>)
    decreases ys, 0
    ensures r.Ok? ==> |r.value| == |ys|
    ensures r.Err? ==> r.error.CodecNotFound? && NeedsCodec(r.error.kind) && Resolve(reg, r.error.kind).Err?
  {
    if |ys| == 0 then Ok([])
    else
      var x :- DecodeValue(reg, hooks, ys[0]);
      var xs :- DecodeItems(reg, hooks, ys[1..]);
      Ok([x] + xs)
  }

  /** Decodes a top-level document, keeping the fields in wire order. */
  function Decode(reg: CodecRegistry, hooks: HookConfig, wire: Document): (r: Outcome<Document>)
    ensures r.Ok? ==> Keys(r.value) == Keys(wire)
    ensures r.Err? ==> r.error.CodecNotFound? && NeedsCodec(r.error.kind) && Resolve(reg, r.error.kind).Err?
  {
    DecodeFields(reg, hooks, wire)
  }

  /** The identity value as it would be written, without encoding the rest
      of the document; fails when there is no `_id`. */
  function GetDocumentId(reg: CodecRegistry, hooks: HookConfig, d: Document): (r: Outcome<Value>)
    ensures r.Err? && r.error == MissingId <==> !DocumentHasId(d)
    ensures r.Err? && DocumentHasId(d) ==> r.error.CodecNotFound? && Resolve(reg, r.error.kind).Err?
  {
    if !DocumentHasId(d) then Err(MissingId) else EncodeValue(reg, hooks, IdValue(d))
  }
}
