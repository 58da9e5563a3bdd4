/** Proxy.swift: a view of one location of the document, addressed by the
    path from the root and by the object identifier found there. Reading the
    document store is a function `Store`; writing it is described by the
    sequence of `StoreWrite`s an operation issues. The same definitions serve
    `MutableProxy`, whose views differ only in their static type. */
module Proxies {
  import opened Wrappers
  import opened Objects
  import Maps
  import StringOrder

  /** The key of one path step: a map field or a list position. */
  datatype PathKey = StringKey(name: string) | IndexKey(index: int)

  /** `Context.KeyPathElement`: one step of a path, with the identifier of the
      object found at that step (if any). */
  datatype KeyPathElement = KeyPathElement(key: PathKey, objectId: Option<ObjectId>)

  type Path = seq<KeyPathElement>

  /** `context.getObject(objectId:)`. */
  type Store = ObjectId -> Object

  /** A write issued to the document store. */
  datatype StoreWrite =
    | SetMapKey(path: Path, key: string, value: Object)
    | SetListIndex(path: Path, index: int, value: Object)

  /** The outcome of running a lazy value resolver: a value or nothing, or a
      trap inside the closure (a force-unwrap or a `try!`). */
  datatype Thunk<T> = Yields(result: Option<T>) | Crashes

  datatype Proxy<W> = Proxy(objectId: Option<ObjectId>, path: Path, resolver: Thunk<W>)

  /** `get()`: the resolved value; a missing value is a trap. */
  function Get<W>(p: Proxy<W>): (w: W)
    requires p.resolver.Yields? && p.resolver.result.Some?
    ensures p.resolver == Yields(Some(w))
  {
    p.resolver.result.value
  }

  /** The private `map` property is defined only when the identifier
      resolves to a map node; otherwise it is a fatal error. */
  predicate ResolvesToMap(store: Store, objectId: Option<ObjectId>)
  {
    objectId.Some? && store(objectId.value).MapValue?
  }

  function ResolvedMap(store: Store, objectId: Option<ObjectId>): Map
    requires ResolvesToMap(store, objectId)
  {
    store(objectId.value).m
  }

  /** `map[field]?.objectId`. */
  function ChildId(m: Map, field: string): Option<ObjectId>
  {
    match Maps.Lookup(m, field)
    case Some(o) => IdOf(o)
    case None => None
  }

  /** `path + [.init(key: .string(field), objectId: childId)]`. */
  function ChildPath(path: Path, field: string, childId: Option<ObjectId>): (r: Path)
    ensures |r| == |path| + 1 && r[..|path|] == path
    ensures r[|path|] == KeyPathElement(StringKey(field), childId)
  {
    path + [KeyPathElement(StringKey(field), childId)]
  }

  /** Optional chaining `resolver()?[keyPath:]` on a lazy value. */
  function Project<W, Y>(t: Thunk<W>, project: W -> Option<Y>): (r: Thunk<Y>)
    ensures r.Crashes? <==> t.Crashes?
    ensures t == Yields(None) ==> r == Yields(None)
    ensures t.Yields? && t.result.Some? ==> r == Yields(project(t.result.value))
  {
    match t
    case Crashes => Crashes
    case Yields(None) => Yields(None)
    case Yields(Some(w)) => Yields(project(w))
  }

  /** `subscript(dynamicMember:)` for a key path to a non-optional property:
      the child view's path is the parent's plus one step, and its identifier
      is that of the field's current node. */
  function Member<W, Y>(p: Proxy<W>, store: Store, field: string, project: W -> Y): (c: Proxy<Y>)
    requires ResolvesToMap(store, p.objectId)
    ensures c.objectId == ChildId(ResolvedMap(store, p.objectId), field)
    ensures |c.path| == |p.path| + 1 && c.path[..|p.path|] == p.path
    ensures c.path[|p.path|] == KeyPathElement(StringKey(field), c.objectId)
    ensures c.resolver.Crashes? <==> p.resolver.Crashes?
    ensures p.resolver == Yields(None) ==> c.resolver == Yields(None)
    ensures p.resolver.Yields? && p.resolver.result.Some? ==>
              c.resolver == Yields(Some(project(p.resolver.result.value)))
  {
    var childId := ChildId(ResolvedMap(store, p.objectId), field);
    Proxy(childId, ChildPath(p.path, field, childId), Project(p.resolver, (w: W) => Some(project(w))))
  }

  /** `subscript(dynamicMember:)` for a key path to an optional property: as
      `Member`, with the two levels of optionality flattened. */
  function OptionalMember<W, Y>(p: Proxy<W>, store: Store, field: string, project: W -> Option<Y>): (c: Proxy<Y>)
    requires ResolvesToMap(store, p.objectId)
    ensures c.objectId == ChildId(ResolvedMap(store, p.objectId), field)
    ensures |c.path| == |p.path| + 1 && c.path[..|p.path|] == p.path
    ensures c.path[|p.path|] == KeyPathElement(StringKey(field), c.objectId)
    ensures c.resolver.Crashes? <==> p.resolver.Crashes?
    ensures p.resolver == Yields(None) ==> c.resolver == Yields(None)
    ensures p.resolver.Yields? && p.resolver.result.Some? ==>
              c.resolver == Yields(project(p.resolver.result.value))
  {
    var childId := ChildId(ResolvedMap(store, p.objectId), field);
    Proxy(childId, ChildPath(p.path, field, childId), Project(p.resolver, project))
  }

  /** The key a write addresses inside the node at its path. */
  function WriteKey(w: StoreWrite): PathKey
  {
    match w
    case SetMapKey(_, key, _) => StringKey(key)
    case SetListIndex(_, index, _) => IndexKey(index)
  }

  /** `set(rootObject:)`: one `setMapKey` at `path` per entry of `root`, in
      the map's iteration order. */
  function SetRoot(path: Path, root: Map): (ws: seq<StoreWrite>)
    ensures |ws| == |root.mapValues|
    ensures forall i | 0 <= i < |ws| ::
              ws[i].SetMapKey? && ws[i].path == path && Maps.Lookup(root, ws[i].key) == Some(ws[i].value)
    ensures forall i, j | 0 <= i < j < |ws| :: StringOrder.Less(ws[i].key, ws[j].key)
    ensures forall k | k in root.mapValues :: exists i :: 0 <= i < |ws| && ws[i].key == k
  {
    var es := Maps.Entries(root);
    var ws := seq(|es|, i requires 0 <= i < |es| => SetMapKey(path, es[i].0, es[i].1));
    assert forall i | 0 <= i < |es| :: ws[i].key == Maps.EntryKeys(es)[i];
    ws
  }

  /** `set(newValue:)`: a view with a non-empty path issues exactly one write
      to its parent, keyed by its last path step; the root view spreads a
      new map over its own keys and ignores any other value. */
  function Set<W>(p: Proxy<W>, newValue: Object): (ws: seq<StoreWrite>)
    ensures |p.path| > 0 ==>
              |ws| == 1 && ws[0].value == newValue &&
              ws[0].path + [p.path[|p.path| - 1]] == p.path &&
              WriteKey(ws[0]) == p.path[|p.path| - 1].key
    ensures |p.path| == 0 && !newValue.MapValue? ==> ws == []
    ensures |p.path| == 0 && newValue.MapValue? ==> ws == SetRoot([], newValue.m)
  {
    if |p.path| == 0 then
      if newValue.MapValue? then SetRoot(p.path, newValue.m) else []
    else
      var parent := p.path[..|p.path| - 1];
      assert parent + [p.path[|p.path| - 1]] == p.path;
      match p.path[|p.path| - 1].key
      case StringKey(key) => [SetMapKey(parent, key, newValue)]
      case IndexKey(index) => [SetListIndex(parent, index, newValue)]
  }

  /** Setting a field's view writes that field into the parent's map. */
  lemma SetMember<W, Y>(p: Proxy<W>, store: Store, field: string, project: W -> Y, newValue: Object)
    requires ResolvesToMap(store, p.objectId)
    ensures Set(Member(p, store, field, project), newValue) == [SetMapKey(p.path, field, newValue)]
  {
    var c := Member(p, store, field, project);
    assert c.path[..|c.path| - 1] == p.path;
  }

  /** `mergeChangesFrom` is defined when both roots are the same variant
      (another pairing is a fatal error), and is modelled except for two maps. */
  predicate MergeModelled(root: Object, otherRoot: Object)
  {
    match (root, otherRoot)
    case (TextValue(_), TextValue(_)) => true
    case (ListValue(_), ListValue(_)) => true
    case (TableValue(_), TableValue(_)) => true
    case (CounterValue(_), CounterValue(_)) => true
    case (DateValue(_), DateValue(_)) => true
    case (PrimitiveValue(_), PrimitiveValue(_)) => true
    case _ => false
  }

  /** `mergeChangesFrom(other:)` away from its map arm: both stores' roots are
      compared, and a differing text or primitive is set at this view's path. */
  function MergeChangesFrom<W>(p: Proxy<W>, store: Store, other: Proxy<W>, otherStore: Store): (ws: seq<StoreWrite>)
    requires MergeModelled(store(RootId), otherStore(RootId))
    ensures store(RootId) == otherStore(RootId) ==> ws == []
    ensures (store(RootId).TextValue? || store(RootId).PrimitiveValue?) && store(RootId) != otherStore(RootId) ==>
              ws == Set(p, otherStore(RootId))
    ensures (store(RootId).ListValue? || store(RootId).TableValue? ||
             store(RootId).CounterValue? || store(RootId).DateValue?) ==> ws == []
  {
    var root := store(RootId);
    var otherRoot := otherStore(RootId);
    match (root, otherRoot)
    case (TextValue(text), TextValue(otherText)) =>
      if text != otherText then Set(p, otherRoot) else []
    case (PrimitiveValue(primitive), PrimitiveValue(otherPrimitive)) =>
      if primitive != otherPrimitive then Set(p, otherRoot) else []
    case _ => []
  }

  /** Merging from a view of the same store issues nothing. */
  lemma MergeFromSelf<W>(p: Proxy<W>, other: Proxy<W>, store: Store)
    requires MergeModelled(store(RootId), store(RootId))
    ensures MergeChangesFrom(p, store, other, store) == []
  {
  }

  /** A differing text merged into the root view issues no write, because
      `set(newValue:)` on the root only spreads maps. */
  lemma MergeTextIntoRootIsLost<W>(p: Proxy<W>, store: Store, other: Proxy<W>, otherStore: Store)
    requires p.path == []
    requires store(RootId).TextValue? && otherStore(RootId).TextValue?
    ensures MergeChangesFrom(p, store, other, otherStore) == []
  {
  }
}
