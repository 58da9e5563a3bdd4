/** AnyProxy.swift: the type-erased view, which keeps only the identifier
    and the path, navigates by field name and is re-typed with `as(_:)`,
    decoding the addressed node on demand. */
module AnyProxies {
  import opened Wrappers
  import opened Objects
  import opened Proxies
  import ProxyDictionary

  datatype AnyProxy = AnyProxy(objectId: Option<ObjectId>, path: Path)

  /** `toAny()`. */
  function ToAny<W>(p: Proxy<W>): (a: AnyProxy)
    ensures a.objectId == p.objectId && a.path == p.path
  {
    AnyProxy(p.objectId, p.path)
  }

  /** `subscript(dynamicMember: String)`: fatal unless the identifier resolves
      to a map node; the child's path is one step longer. */
  function Member(a: AnyProxy, store: Store, member: string): (c: AnyProxy)
    requires ResolvesToMap(store, a.objectId)
    ensures c.objectId == ChildId(ResolvedMap(store, a.objectId), member)
    ensures |c.path| == |a.path| + 1 && c.path[..|a.path|] == a.path
    ensures c.path[|a.path|] == KeyPathElement(StringKey(member), c.objectId)
  {
    var childId := ChildId(ResolvedMap(store, a.objectId), member);
    AnyProxy(childId, ChildPath(a.path, member, childId))
  }

  /** `as(_:)`: a typed view of the same location whose value is the decoding
      of the node the identifier resolves to at the time of reading: nothing
      without an identifier, and a trap (`try!`) when decoding fails. */
  function As<T, E>(a: AnyProxy, store: Store, decode: Object -> Result<T, E>): (p: Proxy<T>)
    ensures p.objectId == a.objectId && p.path == a.path
    ensures p.resolver == Yields(None) <==> a.objectId.None?
    ensures a.objectId.Some? && decode(store(a.objectId.value)).Success? ==>
              p.resolver == Yields(Some(decode(store(a.objectId.value)).value))
    ensures p.resolver.Crashes? <==> a.objectId.Some? && decode(store(a.objectId.value)).Failure?
  {
    var resolver :=
      match a.objectId
      case None => Yields(None)
      case Some(id) =>
        match decode(store(id))
        case Success(v) => Yields(Some(v))
        case Failure(_) => Crashes;
    Proxy(a.objectId, a.path, resolver)
  }

  /** Erasing the type commutes with field navigation. */
  lemma ToAnyMember<W, Y>(p: Proxy<W>, store: Store, field: string, project: W -> Y)
    requires ResolvesToMap(store, p.objectId)
    ensures ToAny(Proxies.Member(p, store, field, project)) == Member(ToAny(p), store, field)
  {
  }

  /** Erasing the type commutes with keyed dictionary access. */
  lemma ToAnySubscript<V>(p: Proxy<map<string, V>>, store: Store, key: string)
    requires ResolvesToMap(store, p.objectId)
    ensures ToAny(ProxyDictionary.Subscript(p, store, key)) == Member(ToAny(p), store, key)
  {
  }

  /** Re-typing an erased view and erasing it again is the identity. */
  lemma ToAnyAs<T, E>(a: AnyProxy, store: Store, decode: Object -> Result<T, E>)
    ensures ToAny(As(a, store, decode)) == a
  {
  }

  /** Navigating an erased view by a sequence of field names. */
  predicate WalkDefined(a: AnyProxy, store: Store, names: seq<string>)
    decreases |names|
  {
    |names| == 0 ||
    (ResolvesToMap(store, a.objectId) && WalkDefined(Member(a, store, names[0]), store, names[1..]))
  }

  function Walk(a: AnyProxy, store: Store, names: seq<string>): AnyProxy
    requires WalkDefined(a, store, names)
    decreases |names|
  {
    if |names| == 0 then a else Walk(Member(a, store, names[0]), store, names[1..])
  }

  /** Paths only grow: after a walk the path is the starting path followed by
      one step per name, each keyed by that name. */
  lemma {:induction false} WalkExtendsPath(a: AnyProxy, store: Store, names: seq<string>)
    requires WalkDefined(a, store, names)
    ensures |Walk(a, store, names).path| == |a.path| + |names|
    ensures Walk(a, store, names).path[..|a.path|] == a.path
    ensures forall i | 0 <= i < |names| :: Walk(a, store, names).path[|a.path| + i].key == StringKey(names[i])
    decreases |names|
  {
    if |names| > 0 {
      var c := Member(a, store, names[0]);
      WalkExtendsPath(c, store, names[1..]);
      var w := Walk(a, store, names);
      assert w == Walk(c, store, names[1..]);
      assert w.path[..|a.path|] == c.path[..|c.path|][..|a.path|];
      forall i | 0 <= i < |names|
        ensures w.path[|a.path| + i].key == StringKey(names[i])
      {
        if i > 0 {
          assert w.path[|c.path| + (i - 1)].key == StringKey(names[1..][i - 1]);
        } else {
          assert w.path[..|c.path|] == c.path;
        }
      }
    }
  }
}
