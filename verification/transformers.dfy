/** Encoding and decoding hooks. The process-wide mutable hook registry is
    modelled as an explicit, immutable configuration handed to every encode
    and decode call: registering a hook builds a new configuration, and
    clearing all hooks yields the empty one. */
module Transformers {
  import opened Results
  import opened Values

  /** A caller-supplied transformation of one value. */
  type Transformer = Value -> Value

  /** At most one encoding and one decoding hook per kind. */
  datatype HookConfig = HookConfig(encoding: map<Kind, Transformer>, decoding: map<Kind, Transformer>)

  const NoHooks: HookConfig := HookConfig(map[], map[])

  function EncodingHook(h: HookConfig, k: Kind): Option<Transformer> {
    if k in h.encoding then Some(h.encoding[k]) else None
  }

  function DecodingHook(h: HookConfig, k: Kind): Option<Transformer> {
    if k in h.decoding then Some(h.decoding[k]) else None
  }

  /** Registers an encoding hook for `k`; a later registration for the same
      kind replaces an earlier one. */
  function AddEncodingHook(h: HookConfig, k: Kind, t: Transformer): (r: HookConfig)
    ensures EncodingHook(r, k) == Some(t)
    ensures forall k' :: k' != k ==> EncodingHook(r, k') == EncodingHook(h, k')
    ensures forall k' :: DecodingHook(r, k') == DecodingHook(h, k')
  {
    h.(encoding := h.encoding[k := t])
  }

  /** Registers a decoding hook for `k`; a later registration for the same
      kind replaces an earlier one. */
  function AddDecodingHook(h: HookConfig, k: Kind, t: Transformer): (r: HookConfig)
    ensures DecodingHook(r, k) == Some(t)
    ensures forall k' :: k' != k ==> DecodingHook(r, k') == DecodingHook(h, k')
    ensures forall k' :: EncodingHook(r, k') == EncodingHook(h, k')
  {
    h.(decoding := h.decoding[k := t])
  }

  /** Removes every hook in both directions at once. */
  function ClearAllHooks(h: HookConfig): (r: HookConfig)
    ensures forall k :: EncodingHook(r, k) == None && DecodingHook(r, k) == None
  {
    NoHooks
  }

  /** Hooks are registered per value class, and null has none: a null value
      is never handed to a hook, even one a configuration keys by the null
      kind. */
  predicate Hookable(v: Value) {
    !v.Null?
  }

  /** The value actually written for `v`: the hook registered for its kind
      applied to it, or `v` itself. */
  function ApplyEncodingHooks(h: HookConfig, v: Value): (r: Value)
    ensures !Hookable(v) || EncodingHook(h, KindOf(v)).None? ==> r == v
    ensures Hookable(v) && EncodingHook(h, KindOf(v)).Some? ==> r == EncodingHook(h, KindOf(v)).value(v)
  {
    if Hookable(v) && KindOf(v) in h.encoding then h.encoding[KindOf(v)](v) else v
  }

  /** The value handed back for a read value `w`. */
  function ApplyDecodingHooks(h: HookConfig, w: Value): (r: Value)
    ensures !Hookable(w) || DecodingHook(h, KindOf(w)).None? ==> r == w
    ensures Hookable(w) && DecodingHook(h, KindOf(w)).Some? ==> r == DecodingHook(h, KindOf(w)).value(w)
  {
    if Hookable(w) && KindOf(w) in h.decoding then h.decoding[KindOf(w)](w) else w
  }

  /** Two configurations agree on the kinds in `ks`, in both directions. */
  ghost predicate AgreeOn(h: HookConfig, h': HookConfig, ks: set<Kind>) {
    forall k :: k in ks ==> EncodingHook(h, k) == EncodingHook(h', k) && DecodingHook(h, k) == DecodingHook(h', k)
  }
}
