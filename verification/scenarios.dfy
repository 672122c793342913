/** The behaviour pinned down by the codec's functional tests, stated on
    concrete documents. Saving to a collection and reading back is modelled
    as encoding as a collectible document and decoding what was written;
    storage itself is not modelled. */
module CodecScenarios {
  import opened Results
  import opened Values
  import opened Documents
  import opened Registry
  import opened Transformers
  import opened Identity
  import opened Codec
  import opened CodecProperties

  /** What a collection stores for `d` under the hooks in force. */
  function Save(hooks: HookConfig, d: Document, newId: ObjectId): Outcome<Document> {
    var e :- Encode(DefaultRegistry, hooks, d, true, newId);
    Ok(e.written)
  }

  /** What a collection hands back for stored data under the hooks in force. */
  function FindOne(hooks: HookConfig, stored: Outcome<Document>): Outcome<Document> {
    var wire :- stored;
    Decode(DefaultRegistry, hooks, wire)
  }

  /** The kind of the value read under `key`, if the read succeeded. */
  function KindAt(found: Outcome<Document>, key: string): Option<Kind> {
    if found.Err? then None
    else
      match Lookup(found.value, key)
      case Some(v) => Some(KindOf(v))
      case None => None
  }

  /** A hook that renders any value as a string; the rendering itself is
      left abstract. */
  function ToStringHook(render: Value -> string): Transformer {
    v => Str(render(v))
  }

  /** Saving under `h` and reading back under `h2`: a field of the document
      as saved, a generated `_id` included, comes back as its value passed
      through the encoding hooks of `h` and then the decoding hooks of `h2`. */
  lemma SaveThenFind(h: HookConfig, h2: HookConfig, d: Document, newId: ObjectId, k: string, v: Value)
    requires Lookup(GenerateIdIfAbsentFromDocument(d, newId), k) == Some(v)
    ensures FindOne(h2, Save(h, d, newId)).Ok?
    ensures Lookup(FindOne(h2, Save(h, d, newId)).value, k) == Some(Rewrite(h2.decoding, Rewrite(h.encoding, v)))
  {
    DefaultRegistryCovers();
    CoveringRegistryNeverFails(DefaultRegistry, h, d, true, newId);
    var order := WriteOrder(d, true, newId);
    var written := Encode(DefaultRegistry, h, d, true, newId).value.written;
    EncodeFieldsMeaning(DefaultRegistry, h, order);
    assert written == RewriteFields(h.encoding, order);
    DecodeFieldsMeaning(DefaultRegistry, h2, written);
    WriteOrderReadsSame(d, newId, k);
    LookupRewrite(h.encoding, order, k);
    LookupRewrite(h2.decoding, written, k);
  }

  /** The kind read back under a key is the kind of its value after the
      encoding hooks of the save and the decoding hooks of the read. */
  lemma KindFound(h: HookConfig, h2: HookConfig, d: Document, newId: ObjectId, k: string, v: Value, expected: Kind)
    requires Lookup(d, k) == Some(v)
    requires KindOf(Rewrite(h2.decoding, Rewrite(h.encoding, v))) == expected
    ensures KindAt(FindOne(h2, Save(h, d, newId)), k) == Some(expected)
  {
    SaveThenFind(h, h2, d, newId, k, v);
  }

  // ---------------------------------------------------------------------
  // Hooks: `{_id: 1, x: 1.1}` saved and read back under changing hooks.

  function TransformersDocument(bits: bv64): Document {
    [Field(IdKey, Int32(1)), Field("x", Double(bits))]
  }

  lemma TransformersDocumentX(bits: bv64)
    ensures Lookup(TransformersDocument(bits), "x") == Some(Double(bits))
  {
  }

  /** The encoding hook that renders doubles as strings. */
  function EncodeDoublesAsStrings(render: Value -> string): HookConfig {
    AddEncodingHook(NoHooks, DoubleKind, ToStringHook(render))
  }

  /** The decoding hook that renders doubles as strings, registered after
      the hooks were cleared. */
  function DecodeDoublesAsStrings(render: Value -> string): HookConfig {
    AddDecodingHook(ClearAllHooks(EncodeDoublesAsStrings(render)), DoubleKind, ToStringHook(render))
  }

  /** What the three hook configurations of the scenario make of a double. */
  lemma DoubleUnderHooks(render: Value -> string, bits: bv64)
    ensures KindOf(Rewrite(NoHooks.decoding, Rewrite(NoHooks.encoding, Double(bits)))) == DoubleKind
    ensures var h := EncodeDoublesAsStrings(render);
      KindOf(Rewrite(h.decoding, Rewrite(h.encoding, Double(bits)))) == StringKind
    ensures var h := DecodeDoublesAsStrings(render);
      KindOf(Rewrite(h.decoding, Rewrite(NoHooks.encoding, Double(bits)))) == StringKind
  {
    var x := Double(bits);
    var e := EncodeDoublesAsStrings(render);
    assert DoubleKind in e.encoding && StringKind !in e.decoding;
    assert Rewrite(e.encoding, x) == Str(render(x));
    var dh := DecodeDoublesAsStrings(render);
    assert DoubleKind in dh.decoding;
    assert Rewrite(dh.decoding, x) == Str(render(x));
  }

  /** Without hooks a stored double is read back as a double. */
  lemma NoHooksReadDouble(render: Value -> string, d: Document, k: string, bits: bv64, newId: ObjectId)
    requires Lookup(d, k) == Some(Double(bits))
    ensures KindAt(FindOne(NoHooks, Save(NoHooks, d, newId)), k) == Some(DoubleKind)
  {
    DoubleUnderHooks(render, bits);
    KindFound(NoHooks, NoHooks, d, newId, k, Double(bits), DoubleKind);
  }

  /** With the encoding hook registered, the double is stored, and so read
      back, as a string. */
  lemma EncodingHookReadsString(render: Value -> string, d: Document, k: string, bits: bv64, newId: ObjectId)
    requires Lookup(d, k) == Some(Double(bits))
    ensures var h := EncodeDoublesAsStrings(render);
      KindAt(FindOne(h, Save(h, d, newId)), k) == Some(StringKind)
  {
    DoubleUnderHooks(render, bits);
    var h := EncodeDoublesAsStrings(render);
    KindFound(h, h, d, newId, k, Double(bits), StringKind);
  }

  /** With the decoding hook registered, a double stored without hooks is
      read back as a string. */
  lemma DecodingHookReadsStoredDoubleAsString(render: Value -> string, d: Document, k: string, bits: bv64, newId: ObjectId)
    requires Lookup(d, k) == Some(Double(bits))
    ensures KindAt(FindOne(DecodeDoublesAsStrings(render), Save(NoHooks, d, newId)), k) == Some(StringKind)
  {
    DoubleUnderHooks(render, bits);
    KindFound(NoHooks, DecodeDoublesAsStrings(render), d, newId, k, Double(bits), StringKind);
  }

  /** Hooks take effect for saves and reads made while they are registered,
      and clearing them restores doubles, also for data stored earlier. */
  lemma TransformersScenario(render: Value -> string, bits: bv64, newId: ObjectId)
    ensures var d := TransformersDocument(bits);
      var encodeHook := EncodeDoublesAsStrings(render);
      var cleared := ClearAllHooks(encodeHook);
      var decodeHook := DecodeDoublesAsStrings(render);
      && KindAt(FindOne(NoHooks, Save(NoHooks, d, newId)), "x") == Some(DoubleKind)
      && KindAt(FindOne(encodeHook, Save(encodeHook, d, newId)), "x") == Some(StringKind)
      && KindAt(FindOne(cleared, Save(cleared, d, newId)), "x") == Some(DoubleKind)
      && KindAt(FindOne(decodeHook, Save(cleared, d, newId)), "x") == Some(StringKind)
      && KindAt(FindOne(ClearAllHooks(decodeHook), Save(cleared, d, newId)), "x") == Some(DoubleKind)
  {
    var d := TransformersDocument(bits);
    TransformersDocumentX(bits);
    NoHooksReadDouble(render, d, "x", bits, newId);
    EncodingHookReadsString(render, d, "x", bits, newId);
    DecodingHookReadsStoredDoubleAsString(render, d, "x", bits, newId);
  }

  // ---------------------------------------------------------------------
  // A list of nested documents.

  function NestedList(bits: bv64): Value {
    Array([
      Doc([Field("a", Int32(1)), Field("b", Bool(true))]),
      Doc([Field("c", Str("string")), Field("d", Double(bits))])])
  }

  /** A list of two nested documents is read back equal, in order. */
  lemma ListEncodingScenario(bits: bv64, newId: ObjectId)
    ensures var found := FindOne(NoHooks, Save(NoHooks, [Field("l", NestedList(bits))], newId));
      found.Ok? && Lookup(found.value, "l") == Some(NestedList(bits))
  {
    var list := NestedList(bits);
    assert Lookup([Field("l", list)], "l") == Some(list);
    SaveThenFind(NoHooks, NoHooks, [Field("l", list)], newId, "l", list);
    RewriteNothing(list);
  }

  // ---------------------------------------------------------------------
  // Identity generation.

  /** An existing `_id` is kept and is the identifier reported. */
  lemma NotGeneratedWhenPresentScenario(newId: ObjectId)
    ensures var d := [Field(IdKey, Int32(1))];
      && DocumentHasId(d)
      && DocumentHasId(GenerateIdIfAbsentFromDocument(d, newId))
      && GetDocumentId(DefaultRegistry, NoHooks, GenerateIdIfAbsentFromDocument(d, newId)) == Ok(Int32(1))
  {
    var d := [Field(IdKey, Int32(1))];
    assert d[0].key == IdKey;
    DefaultRegistryCovers();
    GetDocumentIdWithoutHooks(DefaultRegistry, d);
  }

  /** An empty document gains an `_id` of the identifier kind. */
  lemma GeneratedWhenAbsentScenario(newId: ObjectId)
    ensures var d: Document := [];
      && !DocumentHasId(d)
      && DocumentHasId(GenerateIdIfAbsentFromDocument(d, newId))
      && GetDocumentId(DefaultRegistry, NoHooks, GenerateIdIfAbsentFromDocument(d, newId)).Ok?
      && KindOf(GetDocumentId(DefaultRegistry, NoHooks, GenerateIdIfAbsentFromDocument(d, newId)).value) == ObjectIdKind
  {
    var g := GenerateIdIfAbsentFromDocument([], newId);
    DefaultRegistryCovers();
    GetDocumentIdWithoutHooks(DefaultRegistry, g);
  }

  // ---------------------------------------------------------------------
  // Identity-first order.

  function IdFirstDocument(): Document {
    [Field("x", Int32(2)), Field(IdKey, Int32(2))]
  }

  lemma IdFirstDocumentFacts()
    ensures DocumentHasId(IdFirstDocument())
    ensures Keys(IdFirstDocument()) == ["x", IdKey]
    ensures Keys(Without(IdFirstDocument(), IdKey)) == ["x"]
  {
    var d := IdFirstDocument();
    assert d[1].key == IdKey;
    var tail := d[1..];
    assert tail == [Field(IdKey, Int32(2))] && tail[1..] == [];
    assert Without(tail, IdKey) == [];
    assert Without(d, IdKey) == [d[0]];
    assert Keys([d[0]]) == ["x"];
  }

  /** `{x: 2, _id: 2}` is written `_id` first as a collectible document and
      in its own order otherwise; encoding it as collectible first does not
      reorder the caller's document. */
  lemma IdFirstScenario(newId: ObjectId)
    ensures var asCollectible := Encode(DefaultRegistry, NoHooks, IdFirstDocument(), true, newId);
      && asCollectible.Ok?
      && Keys(asCollectible.value.written) == [IdKey, "x"]
      && var again := Encode(DefaultRegistry, NoHooks, asCollectible.value.document, false, newId);
         again.Ok? && Keys(again.value.written) == ["x", IdKey]
  {
    var d := IdFirstDocument();
    IdFirstDocumentFacts();
    DefaultRegistryCovers();
    CoveringRegistryNeverFails(DefaultRegistry, NoHooks, d, true, newId);
    CoveringRegistryNeverFails(DefaultRegistry, NoHooks, d, false, newId);
  }
}
