/** Attributes passed through to the picker's parent element: those captured
    from unmatched component parameters, layered over those of the named
    configuration object (`CombinedAttributes`). */
module Attributes {
  import opened Optional

  type AttributeMap<V> = map<string, V>

  /** The keys of a dictionary that may be null; null contributes none. */
  function KeysOf<V>(m: Option<AttributeMap<V>>): set<string> {
    match m
    case Some(d) => d.Keys
    case None => {}
  }

  /** Writes every entry of `src` into `dst` with the indexer, one key at a time,
      as the two `foreach` loops of `CombinedAttributes` do. */
  method CopyEach<V>(dst: AttributeMap<V>, src: AttributeMap<V>) returns (r: AttributeMap<V>)
    ensures r.Keys == dst.Keys + src.Keys
    ensures forall k :: k in src ==> r[k] == src[k]
    ensures forall k :: k in dst && k !in src ==> r[k] == dst[k]
  {
    r := dst;
    var pending := src.Keys;
    while pending != {}
      invariant pending <= src.Keys
      invariant r.Keys == dst.Keys + (src.Keys - pending)
      invariant forall k :: k in src && k !in pending ==> r[k] == src[k]
      invariant forall k :: k in dst && k !in src ==> r[k] == dst[k]
      decreases pending
    {
      var k :| k in pending;
      r := r[k := src[k]];
      pending := pending - {k};
    }
  }

  /** The attributes rendered on the parent element: every key of either
      dictionary, with the component's own attributes winning over the
      configuration's on a shared key. */
  method CombinedAttributes<V>(configAttributes: Option<AttributeMap<V>>, attributes: Option<AttributeMap<V>>)
    returns (combined: AttributeMap<V>)
    ensures combined.Keys == KeysOf(configAttributes) + KeysOf(attributes)
    ensures forall k :: k in KeysOf(attributes) ==> combined[k] == attributes.value[k]
    ensures forall k :: k in KeysOf(configAttributes) && k !in KeysOf(attributes) ==>
              combined[k] == configAttributes.value[k]
    ensures combined == configAttributes.GetOr(map[]) + attributes.GetOr(map[])
  {
    combined := map[];
    if configAttributes.Some? {
      combined := CopyEach(combined, configAttributes.value);
    }
    if attributes.Some? {
      combined := CopyEach(combined, attributes.value);
    }
  }
}
