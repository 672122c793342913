/** The identity field policy: the reserved `_id` key, the presence test,
    and generation of an identifier when the field is missing. */
module Identity {
  import opened Results
  import opened Values
  import opened Documents

  /** The reserved name of the identity field. */
  const IdKey: string := "_id"

  /** True iff some field of `d` is named `_id`. */
  function DocumentHasId(d: Document): (r: bool)
    ensures r <==> exists i :: 0 <= i < |d| && d[i].key == IdKey
  {
    Lookup(d, IdKey).Some?
  }

  /** The stored identity value, read without touching the other fields. */
  function IdValue(d: Document): (v: Value)
    requires DocumentHasId(d)
    ensures Field(IdKey, v) in d
  {
    Lookup(d, IdKey).value
  }

  /** Adds `_id` holding the new identifier `newId` when `d` has no `_id`;
      otherwise returns `d` unchanged. The new field is appended, so the
      fields already present keep their order. */
  function GenerateIdIfAbsentFromDocument(d: Document, newId: ObjectId): (r: Document)
    ensures DocumentHasId(r)
    ensures DocumentHasId(d) ==> r == d
    ensures !DocumentHasId(d) ==> |r| == |d| + 1 && r[..|d|] == d && IdValue(r) == Oid(newId)
    ensures forall k :: k != IdKey ==> Lookup(r, k) == Lookup(d, k)
    ensures UniqueKeys(d) ==> UniqueKeys(r)
  {
    if DocumentHasId(d) then d
    else
      var r := d + [Field(IdKey, Oid(newId))];
      LookupAppendedNew(d, IdKey, Oid(newId));
      r
  }

  /** Appending a field under a new key: that key reads the new value and
      every other key reads what it read before. */
  lemma {:induction false} LookupAppendedNew(d: Document, k: string, v: Value)
    requires k !in Keys(d)
    ensures Lookup(d + [Field(k, v)], k) == Some(v)
    ensures forall k' :: k' != k ==> Lookup(d + [Field(k, v)], k') == Lookup(d, k')
  {
    if |d| == 0 {
      assert d + [Field(k, v)] == [Field(k, v)];
    } else {
      assert (d + [Field(k, v)])[1..] == d[1..] + [Field(k, v)];
      assert Keys(d) == [d[0].key] + Keys(d[1..]);
      LookupAppendedNew(d[1..], k, v);
    }
  }

  /** Generating twice is generating once: the second call sees the id the
      first one added and keeps it, whatever identifier it is offered. */
  lemma GenerateIdIdempotent(d: Document, newId: ObjectId, other: ObjectId)
    ensures GenerateIdIfAbsentFromDocument(GenerateIdIfAbsentFromDocument(d, newId), other)
         == GenerateIdIfAbsentFromDocument(d, newId)
  {
  }
}
