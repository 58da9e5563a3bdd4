/** Proxy+Dictionary.swift: keyed access into a view of a string-keyed
    dictionary and removal of one of its keys. `Proxy` and `MutableProxy`
    behave identically here. */
module ProxyDictionary {
  import opened Wrappers
  import opened Objects
  import opened Proxies

  /** `self[key]`: a view of the entry for `key`. Its value resolves by
      force-unwrapping the parent's value, so an unresolved parent traps. */
  function Subscript<V>(p: Proxy<map<string, V>>, store: Store, key: string): (c: Proxy<V>)
    requires ResolvesToMap(store, p.objectId)
    ensures c.objectId == ChildId(ResolvedMap(store, p.objectId), key)
    ensures |c.path| == |p.path| + 1 && c.path[..|p.path|] == p.path
    ensures c.path[|p.path|] == KeyPathElement(StringKey(key), c.objectId)
    ensures c.resolver.Crashes? <==> !(p.resolver.Yields? && p.resolver.result.Some?)
    ensures p.resolver.Yields? && p.resolver.result.Some? ==>
              var d := p.resolver.result.value;
              c.resolver == Yields(if key in d then Some(d[key]) else None)
  {
    var childId := ChildId(ResolvedMap(store, p.objectId), key);
    var resolver :=
      if p.resolver.Yields? && p.resolver.result.Some? then
        var d := Get(p);
        Yields(if key in d then Some(d[key]) else None)
      else Crashes;
    Proxy(childId, ChildPath(p.path, key, childId), resolver)
  }

  /** `removeValue(forKey:)`: one write of `null` under `key` at this view's
      own path (not its parent's). */
  function RemoveValue<V>(p: Proxy<map<string, V>>, key: string): (ws: seq<StoreWrite>)
    ensures |ws| == 1
    ensures ws[0].SetMapKey? && ws[0].path == p.path && ws[0].key == key
    ensures ws[0].value == PrimitiveValue(PNull)
  {
    [SetMapKey(p.path, key, PrimitiveValue(PNull))]
  }

  /** Removing a key is the same write as setting that key's view to `null`. */
  lemma RemoveValueIsSetNull<V>(p: Proxy<map<string, V>>, store: Store, key: string)
    requires ResolvesToMap(store, p.objectId)
    ensures RemoveValue(p, key) == Set(Subscript(p, store, key), PrimitiveValue(PNull))
  {
    var c := Subscript(p, store, key);
    assert c.path[..|c.path| - 1] == p.path;
  }
}
