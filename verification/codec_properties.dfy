/** Properties of the document codec: an independent description of what
    encoding and decoding do to a value, when they fail, the round trip,
    the identity-first order as a permutation, and the scoping of hooks. */
module CodecProperties {
  import opened Results
  import opened Values
  import opened Documents
  import opened Registry
  import opened Transformers
  import opened Identity
  import opened Codec

  /** Reference definition of hook application: every scalar other than
      null whose kind has a transformer in `t` is replaced by the
      transformer's output, and the shape of documents and arrays is kept. */
  function Rewrite(t: map<Kind, Transformer>, v: Value): Value
    decreases v, 1
  {
    match v
    case Doc(fs) => Doc(RewriteFields(t, fs))
    case Array(xs) => Array(RewriteItems(t, xs))
    case _ => if Hookable(v) && KindOf(v) in t then t[KindOf(v)](v) else v
  }

  function RewriteFields(t: map<Kind, Transformer>, fs: seq<Field>): seq<Field>
    decreases fs, 0
  {
    if |fs| == 0 then [] else [Field(fs[0].key, Rewrite(t, fs[0].value))] + RewriteFields(t, fs[1..])
  }

  function RewriteItems(t: map<Kind, Transformer>, xs: seq<Value>): seq<Value>
    decreases xs, 0
  {
    if |xs| == 0 then [] else [Rewrite(t, xs[0])] + RewriteItems(t, xs[1..])
  }

  /** Every kind in `ks` that needs a codec has one in `reg`. */
  predicate Resolvable(reg: CodecRegistry, ks: set<Kind>) {
    forall k :: k in ks && NeedsCodec(k) ==> Resolve(reg, k).Ok?
  }

  // ---------------------------------------------------------------------
  // Rewriting with no transformers changes nothing.

  lemma {:induction false} RewriteNothing(v: Value)
    decreases v, 1
    ensures Rewrite(map[], v) == v
  {
    match v
    case Doc(fs) => RewriteNothingFields(fs);
    case Array(xs) => RewriteNothingItems(xs);
    case _ =>
  }

  lemma {:induction false} RewriteNothingFields(fs: seq<Field>)
    decreases fs, 0
    ensures RewriteFields(map[], fs) == fs
  {
    if |fs| > 0 {
      RewriteNothing(fs[0].value);
      RewriteNothingFields(fs[1..]);
    }
  }

  lemma {:induction false} RewriteNothingItems(xs: seq<Value>)
    decreases xs, 0
    ensures RewriteItems(map[], xs) == xs
  {
    if |xs| > 0 {
      RewriteNothing(xs[0]);
      RewriteNothingItems(xs[1..]);
    }
  }

  // ---------------------------------------------------------------------
  // Decoding: it fails exactly when some kind in the written value has no
  // codec, whatever the hooks, and otherwise applies the decoding hooks.

  lemma {:induction false} DecodeValueMeaning(reg: CodecRegistry, hooks: HookConfig, w: Value)
    decreases w, 1
    ensures DecodeValue(reg, hooks, w).Ok? <==> Resolvable(reg, KindsIn(w))
    ensures DecodeValue(reg, hooks, w).Ok? ==> DecodeValue(reg, hooks, w).value == Rewrite(hooks.decoding, w)
  {
    match w
    case Doc(fs) => DecodeFieldsMeaning(reg, hooks, fs);
    case Array(ys) => DecodeItemsMeaning(reg, hooks, ys);
    case _ =>
  }

  lemma {:induction false} DecodeFieldsMeaning(reg: CodecRegistry, hooks: HookConfig, fs: seq<Field>)
    decreases fs, 0
    ensures DecodeFields(reg, hooks, fs).Ok? <==> Resolvable(reg, KindsInFields(fs))
    ensures DecodeFields(reg, hooks, fs).Ok? ==> DecodeFields(reg, hooks, fs).value == RewriteFields(hooks.decoding, fs)
  {
    if |fs| > 0 {
      DecodeValueMeaning(reg, hooks, fs[0].value);
      DecodeFieldsMeaning(reg, hooks, fs[1..]);
    }
  }

  lemma {:induction false} DecodeItemsMeaning(reg: CodecRegistry, hooks: HookConfig, ys: seq<Value>)
    decreases ys, 0
    ensures DecodeItems(reg, hooks, ys).Ok? <==> Resolvable(reg, KindsInItems(ys))
    ensures DecodeItems(reg, hooks, ys).Ok? ==> DecodeItems(reg, hooks, ys).value == RewriteItems(hooks.decoding, ys)
  {
    if |ys| > 0 {
      DecodeValueMeaning(reg, hooks, ys[0]);
      DecodeItemsMeaning(reg, hooks, ys[1..]);
    }
  }

  // ---------------------------------------------------------------------
  // Writing a hook's output: it fails exactly when some kind inside the
  // output has no codec.

  lemma {:induction false} WriteThroughMeaning(reg: CodecRegistry, w: Value)
    decreases w, 1
    ensures WriteThrough(reg, w).Ok? <==> Resolvable(reg, KindsIn(w))
  {
    match w
    case Doc(fs) => WriteThroughFieldsMeaning(reg, fs);
    case Array(xs) => WriteThroughItemsMeaning(reg, xs);
    case _ =>
  }

  lemma {:induction false} WriteThroughFieldsMeaning(reg: CodecRegistry, fs: seq<Field>)
    decreases fs, 0
    ensures WriteThroughFields(reg, fs).Ok? <==> Resolvable(reg, KindsInFields(fs))
  {
    if |fs| > 0 {
      WriteThroughMeaning(reg, fs[0].value);
      WriteThroughFieldsMeaning(reg, fs[1..]);
    }
  }

  lemma {:induction false} WriteThroughItemsMeaning(reg: CodecRegistry, xs: seq<Value>)
    decreases xs, 0
    ensures WriteThroughItems(reg, xs).Ok? <==> Resolvable(reg, KindsInItems(xs))
  {
    if |xs| > 0 {
      WriteThroughMeaning(reg, xs[0]);
      WriteThroughItemsMeaning(reg, xs[1..]);
    }
  }

  // ---------------------------------------------------------------------
  // Encoding: it applies the encoding hooks, and it fails exactly when some
  // kind in the rewritten value (the caller's kinds and those of every hook
  // output) has no codec; without hooks, exactly when some kind in the
  // value has none.

  lemma {:induction false} EncodeValueMeaning(reg: CodecRegistry, hooks: HookConfig, v: Value)
    decreases v, 1
    ensures EncodeValue(reg, hooks, v).Ok? <==> Resolvable(reg, KindsIn(Rewrite(hooks.encoding, v)))
    ensures EncodeValue(reg, hooks, v).Ok? ==> EncodeValue(reg, hooks, v).value == Rewrite(hooks.encoding, v)
    ensures hooks == NoHooks ==> (EncodeValue(reg, hooks, v).Ok? <==> Resolvable(reg, KindsIn(v)))
  {
    match v
    case Doc(fs) => EncodeFieldsMeaning(reg, hooks, fs);
    case Array(xs) => EncodeItemsMeaning(reg, hooks, xs);
    case _ => WriteThroughMeaning(reg, ApplyEncodingHooks(hooks, v));
  }

  lemma {:induction false} EncodeFieldsMeaning(reg: CodecRegistry, hooks: HookConfig, fs: seq<Field>)
    decreases fs, 0
    ensures EncodeFields(reg, hooks, fs).Ok? <==> Resolvable(reg, KindsInFields(RewriteFields(hooks.encoding, fs)))
    ensures EncodeFields(reg, hooks, fs).Ok? ==> EncodeFields(reg, hooks, fs).value == RewriteFields(hooks.encoding, fs)
    ensures hooks == NoHooks ==> (EncodeFields(reg, hooks, fs).Ok? <==> Resolvable(reg, KindsInFields(fs)))
  {
    if |fs| > 0 {
      EncodeValueMeaning(reg, hooks, fs[0].value);
      EncodeFieldsMeaning(reg, hooks, fs[1..]);
    }
  }

  lemma {:induction false} EncodeItemsMeaning(reg: CodecRegistry, hooks: HookConfig, xs: seq<Value>)
    decreases xs, 0
    ensures EncodeItems(reg, hooks, xs).Ok? <==> Resolvable(reg, KindsInItems(RewriteItems(hooks.encoding, xs)))
    ensures EncodeItems(reg, hooks, xs).Ok? ==> EncodeItems(reg, hooks, xs).value == RewriteItems(hooks.encoding, xs)
    ensures hooks == NoHooks ==> (EncodeItems(reg, hooks, xs).Ok? <==> Resolvable(reg, KindsInItems(xs)))
  {
    if |xs| > 0 {
      EncodeValueMeaning(reg, hooks, xs[0]);
      EncodeItemsMeaning(reg, hooks, xs[1..]);
    }
  }

  /** Whatever the hooks, a successful encode writes only data that reads
      back: decoding what was written succeeds, under any decoding hooks. */
  lemma WrittenDataDecodes(reg: CodecRegistry, hooks: HookConfig, hooks': HookConfig, d: Document, collectible: bool, newId: ObjectId)
    requires Encode(reg, hooks, d, collectible, newId).Ok?
    ensures Decode(reg, hooks', Encode(reg, hooks, d, collectible, newId).value.written).Ok?
  {
    var order := WriteOrder(d, collectible, newId);
    EncodeFieldsMeaning(reg, hooks, order);
    DecodeFieldsMeaning(reg, hooks', RewriteFields(hooks.encoding, order));
  }

  // ---------------------------------------------------------------------
  // Round trips without hooks.

  /** A value that encodes without hooks decodes back to itself. */
  lemma RoundTripValue(reg: CodecRegistry, v: Value)
    requires EncodeValue(reg, NoHooks, v).Ok?
    ensures DecodeValue(reg, NoHooks, EncodeValue(reg, NoHooks, v).value) == Ok(v)
  {
    EncodeValueMeaning(reg, NoHooks, v);
    RewriteNothing(v);
    DecodeValueMeaning(reg, NoHooks, v);
  }

  /** Decoding what a top-level encode wrote gives the document back in the
      order it was written. */
  lemma RoundTrip(reg: CodecRegistry, d: Document, collectible: bool, newId: ObjectId)
    requires Encode(reg, NoHooks, d, collectible, newId).Ok?
    ensures Decode(reg, NoHooks, Encode(reg, NoHooks, d, collectible, newId).value.written)
         == Ok(WriteOrder(d, collectible, newId))
  {
    var order := WriteOrder(d, collectible, newId);
    EncodeFieldsMeaning(reg, NoHooks, order);
    RewriteNothingFields(order);
    DecodeFieldsMeaning(reg, NoHooks, order);
  }

  /** A document encoded as a plain (non-collectible) document comes back
      exactly, in its own order. */
  lemma RoundTripInOrder(reg: CodecRegistry, d: Document, newId: ObjectId)
    requires Encode(reg, NoHooks, d, false, newId).Ok?
    ensures Decode(reg, NoHooks, Encode(reg, NoHooks, d, false, newId).value.written) == Ok(d)
  {
    RoundTrip(reg, d, false, newId);
  }

  /** With a registry that has a codec for every kind, encoding never fails
      and neither does decoding what was written, whatever the hooks. */
  lemma CoveringRegistryNeverFails(reg: CodecRegistry, hooks: HookConfig, d: Document, collectible: bool, newId: ObjectId)
    requires Covers(reg)
    ensures Encode(reg, hooks, d, collectible, newId).Ok?
    ensures Decode(reg, hooks, Encode(reg, hooks, d, collectible, newId).value.written).Ok?
  {
  }

  // ---------------------------------------------------------------------
  // The identity-first order of a collectible document.

  /** Every key reads the same value in the written order as in the
      document with its generated identity field. */
  lemma WriteOrderReadsSame(d: Document, newId: ObjectId, k: string)
    ensures Lookup(WriteOrder(d, true, newId), k) == Lookup(GenerateIdIfAbsentFromDocument(d, newId), k)
  {
    var order := WriteOrder(d, true, newId);
    var g := GenerateIdIfAbsentFromDocument(d, newId);
    assert order == [order[0]] + order[1..];
    if k != IdKey {
      LookupWithout(d, IdKey, k);
    }
  }

  /** For a document with unique keys the written order is a permutation of
      the document with its generated identity field, again with unique keys. */
  lemma WriteOrderPermutes(d: Document, newId: ObjectId)
    requires UniqueKeys(d)
    ensures multiset(WriteOrder(d, true, newId)) == multiset(GenerateIdIfAbsentFromDocument(d, newId))
    ensures UniqueKeys(WriteOrder(d, true, newId))
  {
    var order := WriteOrder(d, true, newId);
    var g := GenerateIdIfAbsentFromDocument(d, newId);
    assert order == [order[0]] + order[1..];
    WithoutAppended(d, IdKey, Oid(newId));
    assert Without(g, IdKey) == Without(d, IdKey);
    SplitAtKey(g, IdKey);
    assert order[0] == Field(IdKey, Lookup(g, IdKey).value);
    WithoutUnique(d, IdKey);
    forall j | 0 < j < |order| ensures order[j].key != IdKey {
      assert order[j] in Without(d, IdKey);
    }
  }

  /** Saving a document as collectible and reading it back: every key reads
      what it reads in the caller's document after id generation, and with
      unique keys nothing is lost or duplicated. */
  lemma SavedDocumentReadsBack(reg: CodecRegistry, d: Document, newId: ObjectId)
    requires Encode(reg, NoHooks, d, true, newId).Ok?
    ensures Decode(reg, NoHooks, Encode(reg, NoHooks, d, true, newId).value.written).Ok?
    ensures var back := Decode(reg, NoHooks, Encode(reg, NoHooks, d, true, newId).value.written).value;
      && (forall k :: Lookup(back, k) == Lookup(Encode(reg, NoHooks, d, true, newId).value.document, k))
      && (UniqueKeys(d) ==> multiset(back) == multiset(Encode(reg, NoHooks, d, true, newId).value.document))
      && (UniqueKeys(d) ==> UniqueKeys(back))
  {
    RoundTrip(reg, d, true, newId);
    forall k {
      WriteOrderReadsSame(d, newId, k);
    }
    if UniqueKeys(d) {
      WriteOrderPermutes(d, newId);
    }
  }

  /** Without hooks, the identity value handed back is the stored one. */
  lemma GetDocumentIdWithoutHooks(reg: CodecRegistry, d: Document)
    requires GetDocumentId(reg, NoHooks, d).Ok?
    ensures GetDocumentId(reg, NoHooks, d).value == IdValue(d)
  {
    EncodeValueMeaning(reg, NoHooks, IdValue(d));
    RewriteNothing(IdValue(d));
  }

  // ---------------------------------------------------------------------
  // Hook scoping: only the hooks of kinds that occur matter.

  lemma {:induction false} HookScopingValue(reg: CodecRegistry, h: HookConfig, h': HookConfig, v: Value)
    decreases v, 1
    requires AgreeOn(h, h', KindsIn(v))
    ensures EncodeValue(reg, h, v) == EncodeValue(reg, h', v)
    ensures DecodeValue(reg, h, v) == DecodeValue(reg, h', v)
  {
    match v
    case Doc(fs) => HookScopingFields(reg, h, h', fs);
    case Array(xs) => HookScopingItems(reg, h, h', xs);
    case _ =>
      assert EncodingHook(h, KindOf(v)) == EncodingHook(h', KindOf(v));
      assert DecodingHook(h, KindOf(v)) == DecodingHook(h', KindOf(v));
  }

  lemma {:induction false} HookScopingFields(reg: CodecRegistry, h: HookConfig, h': HookConfig, fs: seq<Field>)
    decreases fs, 0
    requires AgreeOn(h, h', KindsInFields(fs))
    ensures EncodeFields(reg, h, fs) == EncodeFields(reg, h', fs)
    ensures DecodeFields(reg, h, fs) == DecodeFields(reg, h', fs)
  {
    if |fs| > 0 {
      HookScopingValue(reg, h, h', fs[0].value);
      HookScopingFields(reg, h, h', fs[1..]);
    }
  }

  lemma {:induction false} HookScopingItems(reg: CodecRegistry, h: HookConfig, h': HookConfig, xs: seq<Value>)
    decreases xs, 0
    requires AgreeOn(h, h', KindsInItems(xs))
    ensures EncodeItems(reg, h, xs) == EncodeItems(reg, h', xs)
    ensures DecodeItems(reg, h, xs) == DecodeItems(reg, h', xs)
  {
    if |xs| > 0 {
      HookScopingValue(reg, h, h', xs[0]);
      HookScopingItems(reg, h, h', xs[1..]);
    }
  }

  /** The kinds of a field's value occur in the document. */
  lemma {:induction false} KindsOfMember(fs: seq<Field>, f: Field)
    requires f in fs
    ensures KindsIn(f.value) <= KindsInFields(fs)
  {
    if fs[0] != f {
      KindsOfMember(fs[1..], f);
    }
  }

  /** A document whose every field is drawn from `fs` has no other kinds. */
  lemma {:induction false} KindsOfSubset(gs: seq<Field>, fs: seq<Field>)
    requires forall g :: g in gs ==> g in fs
    ensures KindsInFields(gs) <= KindsInFields(fs)
  {
    if |gs| > 0 {
      KindsOfMember(fs, gs[0]);
      KindsOfSubset(gs[1..], fs);
    }
  }

  /** The written order holds no kind beyond the document's own, except the
      identifier kind of a generated `_id`. */
  lemma WriteOrderKinds(d: Document, collectible: bool, newId: ObjectId)
    ensures KindsInFields(WriteOrder(d, collectible, newId)) <= KindsInFields(d) + {ObjectIdKind}
    ensures !collectible || DocumentHasId(d) ==> KindsInFields(WriteOrder(d, collectible, newId)) <= KindsInFields(d)
  {
    if collectible {
      var order := WriteOrder(d, true, newId);
      assert order == [order[0]] + order[1..];
      KindsOfSubset(order[1..], d);
      if DocumentHasId(d) {
        KindsOfMember(d, Field(IdKey, IdValue(d)));
      }
    }
  }

  /** Hooks registered only for kinds that do not occur in a document leave
      its encoding unchanged; when an `_id` is generated, the identifier
      kind occurs too. */
  lemma HookScopingEncode(reg: CodecRegistry, h: HookConfig, h': HookConfig, d: Document, collectible: bool, newId: ObjectId)
    requires AgreeOn(h, h', KindsInFields(d))
    requires collectible && !DocumentHasId(d) ==> AgreeOn(h, h', KindsInFields(d) + {ObjectIdKind})
    ensures Encode(reg, h, d, collectible, newId) == Encode(reg, h', d, collectible, newId)
  {
    WriteOrderKinds(d, collectible, newId);
    HookScopingFields(reg, h, h', WriteOrder(d, collectible, newId));
  }

  /** Hooks registered only for kinds that do not occur in stored data leave
      its decoding unchanged. */
  lemma HookScopingDecode(reg: CodecRegistry, h: HookConfig, h': HookConfig, wire: Document)
    requires AgreeOn(h, h', KindsInFields(wire))
    ensures Decode(reg, h, wire) == Decode(reg, h', wire)
  {
    HookScopingFields(reg, h, h', wire);
  }

  /** Clearing all hooks restores hook-free behaviour in both directions. */
  lemma ClearedHooksActAsNone(reg: CodecRegistry, h: HookConfig, d: Document, collectible: bool, newId: ObjectId)
    ensures Encode(reg, ClearAllHooks(h), d, collectible, newId) == Encode(reg, NoHooks, d, collectible, newId)
    ensures Decode(reg, ClearAllHooks(h), d) == Decode(reg, NoHooks, d)
  {
  }

  /** Reading a key after rewriting reads the rewritten value. */
  lemma {:induction false} LookupRewrite(t: map<Kind, Transformer>, fs: seq<Field>, k: string)
    ensures Lookup(RewriteFields(t, fs), k)
         == (if Lookup(fs, k).Some? then Some(Rewrite(t, Lookup(fs, k).value)) else None)
  {
    if |fs| > 0 {
      LookupRewrite(t, fs[1..], k);
      var r := RewriteFields(t, fs);
      assert r[0].key == fs[0].key && r[1..] == RewriteFields(t, fs[1..]);
    }
  }
}
