/** The codec registry: an immutable, ordered list of providers, each
    supplying codecs for a set of value kinds. Resolution takes the first
    provider that supplies the kind. */
module Registry {
  import opened Results
  import opened Values

  datatype Provider = Provider(name: string, supplies: set<Kind>)

  type CodecRegistry = seq<Provider>

  /** Null, documents and arrays are written by the document codec itself;
      every other kind is written by a codec taken from the registry. */
  predicate NeedsCodec(k: Kind) {
    !IsContainer(k) && k != NullKind
  }

  /** Moves a resolved index `n` providers further down the list. */
  function Offset(r: Outcome<nat>, n: nat): Outcome<nat> {
    match r
    case Ok(j) => Ok(j + n)
    case Err(e) => Err(e)
  }

  /** The index of the provider whose codec handles `k`. */
  function Resolve(reg: CodecRegistry, k: Kind): (r: Outcome<nat>)
    ensures r.Ok? ==> r.value < |reg| && k in reg[r.value].supplies
    ensures r.Ok? ==> forall j :: 0 <= j < r.value ==> k !in reg[j].supplies
    ensures r.Err? <==> forall j :: 0 <= j < |reg| ==> k !in reg[j].supplies
    ensures r.Err? ==> r.error == CodecNotFound(k)
  {
    if |reg| == 0 then Err(CodecNotFound(k))
    else if k in reg[0].supplies then Ok(0)
    else Offset(Resolve(reg[1..], k), 1)
  }

  /** Every kind that needs a codec has one. */
  predicate Covers(reg: CodecRegistry) {
    forall k :: NeedsCodec(k) ==> Resolve(reg, k).Ok?
  }

  /** A kind supplied by a front provider resolves there, whatever follows. */
  lemma {:induction false} ResolveFront(front: CodecRegistry, back: CodecRegistry, k: Kind)
    requires Resolve(front, k).Ok?
    ensures Resolve(front + back, k) == Resolve(front, k)
  {
    var all := front + back;
    assert all[0] == front[0];
    if k !in front[0].supplies {
      assert all[1..] == front[1..] + back;
      ResolveFront(front[1..], back, k);
    }
  }

  /** A kind no front provider supplies resolves among the providers behind. */
  lemma {:induction false} ResolveBack(front: CodecRegistry, back: CodecRegistry, k: Kind)
    requires Resolve(front, k).Err?
    ensures Resolve(front + back, k) == Offset(Resolve(back, k), |front|)
  {
    var all := front + back;
    if |front| == 0 {
      assert all == back;
    } else {
      assert all[0] == front[0];
      assert all[1..] == front[1..] + back;
      ResolveBack(front[1..], back, k);
    }
  }

  /** Composition: providers placed in front take precedence, and the ones
      behind are consulted only for kinds the front ones do not supply. */
  lemma ResolveComposed(front: CodecRegistry, back: CodecRegistry, k: Kind)
    ensures Resolve(front + back, k)
         == if Resolve(front, k).Ok? then Resolve(front, k) else Offset(Resolve(back, k), |front|)
  {
    if Resolve(front, k).Ok? {
      ResolveFront(front, back, k);
    } else {
      ResolveBack(front, back, k);
    }
  }

  /** The providers of scalar values and of nested documents. Nested
      documents are written and read by the codec's own traversal, so the
      document provider is never consulted for a kind that needs a codec:
      the value provider alone covers every such kind. */
  const ValueCodecProvider: Provider :=
    Provider("ValueCodecProvider",
      {BoolKind, Int32Kind, Int64Kind, DoubleKind, StringKind, BinaryKind, ObjectIdKind})
  const DBObjectCodecProvider: Provider :=
    Provider("DBObjectCodecProvider", {DocumentKind})

  /** The registry the codec is built with: value codecs, then documents. */
  const DefaultRegistry: CodecRegistry := [ValueCodecProvider, DBObjectCodecProvider]

  lemma DefaultRegistryCovers()
    ensures Covers(DefaultRegistry)
  {
    forall k | NeedsCodec(k) ensures Resolve(DefaultRegistry, k).Ok? {
      assert k in ValueCodecProvider.supplies;
    }
  }
}
