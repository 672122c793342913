# DBObjectCodec — a Dafny model

This project models the document codec of the MongoDB Java driver
(`DBObjectCodec`): the component that writes a generic, dynamically shaped
document (`DBObject`) field by field and reads it back. It covers

- the value model: null, booleans, 32- and 64-bit integers, doubles (as an
  opaque 64-bit pattern), strings, binary data, object ids, nested documents
  and arrays (`values.dfy`); documents are ordered field sequences
  (`documents.dfy`);
- the codec registry built from `ValueCodecProvider` and
  `DBObjectCodecProvider`, where the first provider that supplies a kind wins
  and a missing codec is a configuration error (`registry.dfy`);
- encoding and decoding hooks (`BSON.addEncodingHook`,
  `BSON.addDecodingHook`, `BSON.clearAllHooks`), modelled as an immutable
  hook configuration passed to every call instead of process-wide mutable
  state (`transformers.dfy`);
- the identity policy on the reserved `_id` field: `documentHasId`,
  `getDocumentId`, `generateIdIfAbsentFromDocument` (`identity.dfy`,
  `codec.dfy`);
- `encode`, with `_id` written first for a collectible document and the
  input order kept otherwise, and `decode`, which keeps wire order
  (`codec.dfy`);
- the properties: an independent rewrite definition of hook application,
  the round trip, the identity-first order as a permutation, hook scoping
  (`codec_properties.dfy`), and the functional test's scenarios on concrete
  documents (`scenarios.dfy`).

Saving to a collection and reading back (`collection.save`,
`collection.findOne`) is modelled as encoding as a collectible document and
decoding what was written. The codec's own source (`DBObjectCodec.java`) is
not part of this model: its behaviour is taken from the assertions of
`DBObjectCodecTest`. Two choices go beyond those assertions: a collectible
encode generates a missing `_id` itself, and a second hook registered for a
kind replaces the first. Hooks are registered per value class, and a null
value has no class, so no hook is ever applied to null.

## Model

| member | source | states |
|---|---|---|
| Registry.Resolve | driver/src/test/functional/com/mongodb/DBObjectCodecTest.java:82 | resolution returns a provider that supplies the kind and no earlier provider does; it fails with a missing-codec error exactly when no provider supplies the kind |
| Registry.ResolveComposed | driver/src/test/functional/com/mongodb/DBObjectCodecTest.java:82 | composing provider lists: front providers win, later ones are consulted only for kinds the front ones lack |
| Registry.DefaultRegistryCovers | driver/src/test/functional/com/mongodb/DBObjectCodecTest.java:82 | the registry built from the value and document providers has a codec for every kind that needs one |
| Transformers.AddEncodingHook | driver/src/test/functional/com/mongodb/DBObjectCodecTest.java:45-49 | after registration the kind's encoding hook is the new one; other kinds and all decoding hooks are unchanged |
| Transformers.AddDecodingHook | driver/src/test/functional/com/mongodb/DBObjectCodecTest.java:58-62 | after registration the kind's decoding hook is the new one; other kinds and all encoding hooks are unchanged |
| Transformers.ClearAllHooks | driver/src/test/functional/com/mongodb/DBObjectCodecTest.java:54 | no kind has an encoding or a decoding hook afterwards |
| Identity.DocumentHasId | driver/src/test/functional/com/mongodb/DBObjectCodecTest.java:84 | true exactly when some field is named `_id` |
| Identity.GenerateIdIfAbsentFromDocument | driver/src/test/functional/com/mongodb/DBObjectCodecTest.java:81-98 | the result always has an `_id`; a document that had one is returned unchanged; otherwise the new id is appended, existing fields keep their order and values, and unique keys stay unique |
| Identity.GenerateIdIdempotent | driver/src/test/functional/com/mongodb/DBObjectCodecTest.java:81-88 | generating twice equals generating once, whatever id the second call is offered |
| Codec.EncodeValue | driver/src/test/functional/com/mongodb/DBObjectCodecTest.java:42-52 | a nested document keeps its keys and an array its length; failure names a kind that needs a codec and has none |
| Codec.WriteThrough | driver/src/test/functional/com/mongodb/DBObjectCodecTest.java:45-52 | a hook's output is written unchanged when it succeeds; failure names a kind inside the output that needs a codec and has none |
| Codec.DecodeValue | driver/src/test/functional/com/mongodb/DBObjectCodecTest.java:58-65 | decoding keeps nested keys and array lengths; failure names a kind that needs a codec and has none |
| Codec.WriteOrder | driver/src/test/functional/com/mongodb/DBObjectCodecTest.java:101-122 | collectible: `_id` first (the stored one, or the new id), then every other field in original relative order; otherwise the document's own order |
| Codec.Encode | driver/src/test/functional/com/mongodb/DBObjectCodecTest.java:104-122 | written keys are `_id` then the other keys in order (collectible) or the input keys (not collectible); the caller's document is never reordered, at most an `_id` is appended |
| Codec.Decode | driver/src/test/functional/com/mongodb/DBObjectCodecTest.java:77 | the decoded document has the wire's keys in wire order |
| Codec.GetDocumentId | driver/src/test/functional/com/mongodb/DBObjectCodecTest.java:87 | fails with the missing-id error exactly when there is no `_id` |
| CodecProperties.WriteThroughMeaning | driver/src/test/functional/com/mongodb/DBObjectCodecTest.java:45-52 | writing a hook's output succeeds exactly when every kind inside it, at any depth, has a codec |
| CodecProperties.EncodeValueMeaning | driver/src/test/functional/com/mongodb/DBObjectCodecTest.java:45-52 | encoding succeeds exactly when every kind in the value after the encoding hooks (hook outputs included) has a codec, and then equals the reference rewrite by the encoding hooks; without hooks it succeeds exactly when every kind inside the value has a codec |
| CodecProperties.WrittenDataDecodes | driver/src/test/functional/com/mongodb/DBObjectCodecTest.java:42-65 | whatever the hooks, whatever a successful encode wrote decodes without error under any decoding hooks |
| CodecProperties.DecodeValueMeaning | driver/src/test/functional/com/mongodb/DBObjectCodecTest.java:58-65 | decoding succeeds exactly when every kind inside has a codec, whatever the hooks, and then equals the reference rewrite by the decoding hooks |
| CodecProperties.RoundTripValue | driver/src/test/functional/com/mongodb/DBObjectCodecTest.java:71-78 | a value that encodes without hooks decodes back to itself |
| CodecProperties.RoundTrip | driver/src/test/functional/com/mongodb/DBObjectCodecTest.java:42-43 | decoding what encode wrote gives the document in write order |
| CodecProperties.RoundTripInOrder | driver/src/test/functional/com/mongodb/DBObjectCodecTest.java:115-122 | a non-collectible encode decodes back to exactly the input document |
| CodecProperties.CoveringRegistryNeverFails | driver/src/test/functional/com/mongodb/DBObjectCodecTest.java:82 | with a codec for every kind, encode and the decode of its output never fail, whatever the hooks |
| CodecProperties.WriteOrderReadsSame | driver/src/test/functional/com/mongodb/DBObjectCodecTest.java:101-113 | moving `_id` first changes no key's value |
| CodecProperties.WriteOrderPermutes | driver/src/test/functional/com/mongodb/DBObjectCodecTest.java:101-113 | with unique keys the identity-first order is a permutation of the document with unique keys |
| CodecProperties.SavedDocumentReadsBack | driver/src/test/functional/com/mongodb/DBObjectCodecTest.java:71-78 | a saved document read back has every key's value, nothing lost or duplicated |
| CodecProperties.GetDocumentIdWithoutHooks | driver/src/test/functional/com/mongodb/DBObjectCodecTest.java:87 | without hooks the reported id is the stored `_id` value |
| CodecProperties.HookScopingValue | driver/src/test/functional/com/mongodb/DBObjectCodecTest.java:40-69 | hook configurations that agree on the kinds inside a value encode and decode it identically |
| CodecProperties.HookScopingEncode | driver/src/test/functional/com/mongodb/DBObjectCodecTest.java:51-56 | hooks for kinds absent from a document leave its encoding unchanged; the identifier kind counts as present only when an `_id` is generated |
| CodecProperties.HookScopingDecode | driver/src/test/functional/com/mongodb/DBObjectCodecTest.java:63-65 | hooks for kinds absent from stored data leave its decoding unchanged |
| CodecProperties.ClearedHooksActAsNone | driver/src/test/functional/com/mongodb/DBObjectCodecTest.java:54-65 | after clearing all hooks, encode and decode behave as if no hook was ever registered |
| CodecScenarios.SaveThenFind | driver/src/test/functional/com/mongodb/DBObjectCodecTest.java:42-56 | any field of the document as saved, a generated `_id` included, reads back as its value passed through the save's encoding hooks and then the read's decoding hooks |
| CodecScenarios.TransformersScenario | driver/src/test/functional/com/mongodb/DBObjectCodecTest.java:40-69 | `x: 1.1` reads back as a double, as a string under the double encoding hook, as a double after clearing, as a string under the decoding hook, as a double after clearing again |
| CodecScenarios.ListEncodingScenario | driver/src/test/functional/com/mongodb/DBObjectCodecTest.java:71-78 | a list of two nested documents reads back equal |
| CodecScenarios.NotGeneratedWhenPresentScenario | driver/src/test/functional/com/mongodb/DBObjectCodecTest.java:81-88 | `{_id: 1}` has an id before and after generation and reports `Int32(1)` |
| CodecScenarios.GeneratedWhenAbsentScenario | driver/src/test/functional/com/mongodb/DBObjectCodecTest.java:91-98 | `{}` has no id before and an object id after generation |
| CodecScenarios.IdFirstScenario | driver/src/test/functional/com/mongodb/DBObjectCodecTest.java:101-123 | `{x: 2, _id: 2}` is written `[_id, x]` as collectible and then, from the same document, `[x, _id]` as non-collectible |

## Left out

- Binary framing (`BsonDocumentWriter` and the BSON reader/writer): the
  encoder's output is the sequence of written fields, not bytes.
- The database round trip (`collection.save`, `findOne`, the test fixture):
  storage and the network are I/O; a save and a read are modelled as encode
  and decode.
- Object id generation: the new id is a parameter; its timestamp, machine
  and counter layout and its uniqueness across processes are not modelled.
- Floating point and `toString`: a double is an opaque bit pattern and the
  rendering a hook performs is an abstract function to strings.
- Concurrency and atomicity of the process-wide hook registry: hooks are an
  immutable configuration handed to each call.
- Codec.EncodeValue: hooks registered for the document or array kind are
  not consulted, and no hook is applied inside a document or array a hook
  returns (every kind inside it must still have a codec); this keeps the
  traversal structurally terminating.
- Codec.Encode: a collectible encode generates a missing `_id` and appends
  it to the caller's document; the driver may instead do this in the
  collection before the codec runs, which the model does not distinguish.
- Java object types the codec also accepts (maps, iterables, `DBRef`,
  code with scope, dates and the rest of the BSON types) are not modelled;
  the value model is the closed set listed above.
- What a failed encode already wrote to the sink: the model returns an
  error and no partial output.
- Exceptions thrown by hooks: hooks are total functions here.
