/** Operations on a document's ordered field sequence: its key sequence,
    lookup by key, removal of a key, and key uniqueness. */
module Documents {
  import opened Results
  import opened Values

  /** The keys of `d`, in field order. */
  function Keys(d: Document): (ks: seq<string>)
    ensures |ks| == |d|
    ensures forall i :: 0 <= i < |d| ==> ks[i] == d[i].key
  {
    if |d| == 0 then [] else [d[0].key] + Keys(d[1..])
  }

  /** Field names are unique within one document. */
  predicate UniqueKeys(d: Document) {
    forall i, j :: 0 <= i < j < |d| ==> d[i].key != d[j].key
  }

  /** The value stored under `k`, if any (the first such field). */
  function Lookup(d: Document, k: string): (r: Option<Value>)
    ensures r.Some? <==> k in Keys(d)
    ensures r.Some? ==> Field(k, r.value) in d
  {
    if |d| == 0 then None
    else if d[0].key == k then Some(d[0].value)
    else Lookup(d[1..], k)
  }

  /** `d` with every field named `k` removed; the other fields keep their
      relative order. */
  function Without(d: Document, k: string): (r: Document)
    ensures |r| <= |d|
    ensures forall f :: f in r <==> f in d && f.key != k
  {
    if |d| == 0 then []
    else (if d[0].key == k then [] else [d[0]]) + Without(d[1..], k)
  }

  /** Removing a key that is absent changes nothing. */
  lemma {:induction false} WithoutAbsent(d: Document, k: string)
    requires k !in Keys(d)
    ensures Without(d, k) == d
  {
    if |d| > 0 {
      assert Keys(d) == [d[0].key] + Keys(d[1..]);
      WithoutAbsent(d[1..], k);
      assert d == [d[0]] + d[1..];
    }
  }

  /** Removing `k` also removes a field named `k` that was appended. */
  lemma {:induction false} WithoutAppended(d: Document, k: string, v: Value)
    ensures Without(d + [Field(k, v)], k) == Without(d, k)
  {
    if |d| == 0 {
      assert d + [Field(k, v)] == [Field(k, v)];
    } else {
      assert (d + [Field(k, v)])[1..] == d[1..] + [Field(k, v)];
      WithoutAppended(d[1..], k, v);
    }
  }

  /** Removing `k` does not change what any other key reads. */
  lemma {:induction false} LookupWithout(d: Document, k: string, k': string)
    requires k' != k
    ensures Lookup(Without(d, k), k') == Lookup(d, k')
  {
    if |d| > 0 {
      var rest := Without(d[1..], k);
      LookupWithout(d[1..], k, k');
      if d[0].key == k {
        assert Without(d, k) == rest;
      } else {
        var r := [d[0]] + rest;
        assert Without(d, k) == r;
        assert r[0] == d[0] && r[1..] == rest;
      }
    }
  }

  /** A key read from a document with unique keys names exactly one field:
      that field plus the other fields, in any order, make up the document. */
  lemma {:induction false} SplitAtKey(d: Document, k: string)
    requires UniqueKeys(d)
    requires k in Keys(d)
    ensures multiset(d) == multiset{Field(k, Lookup(d, k).value)} + multiset(Without(d, k))
  {
    var rest := d[1..];
    assert d == [d[0]] + rest;
    assert multiset(d) == multiset{d[0]} + multiset(rest);
    if d[0].key == k {
      assert k !in Keys(rest) by {
        forall i | 0 <= i < |rest| ensures rest[i].key != k {
          assert rest[i] == d[i + 1];
        }
      }
      WithoutAbsent(rest, k);
      assert Without(d, k) == Without(rest, k);
    } else {
      assert UniqueKeys(rest) by {
        forall i, j | 0 <= i < j < |rest| ensures rest[i].key != rest[j].key {
          assert rest[i] == d[i + 1] && rest[j] == d[j + 1];
        }
      }
      assert Keys(d) == [d[0].key] + Keys(rest);
      SplitAtKey(rest, k);
      assert Lookup(d, k) == Lookup(rest, k);
      assert Without(d, k) == [d[0]] + Without(rest, k);
    }
  }

  /** Removing a key keeps the remaining keys unique. */
  lemma {:induction false} WithoutUnique(d: Document, k: string)
    requires UniqueKeys(d)
    ensures UniqueKeys(Without(d, k))
  {
    if |d| > 0 {
      WithoutUnique(d[1..], k);
      if d[0].key != k {
        var r := Without(d, k);
        assert r == [d[0]] + Without(d[1..], k);
        forall i, j | 0 <= i < j < |r|
          ensures r[i].key != r[j].key
        {
          if i == 0 {
            assert r[j] in Without(d[1..], k);
            assert r[j] in d[1..];
          }
        }
      }
    }
  }
}
