# Document tree and path navigation of automerge-swift, in Dafny

This project models the layer of automerge-swift that sits between an
application's typed model and the Automerge document store:

- the generic document tree — the `Object` enumeration with its `Map`, `List`,
  `Table`, text, counter, date and primitive variants — and the `Map` and `List`
  node types with their keyed/positional access, key-ordered iteration and
  `Codable` forms;
- the path-directed insertion `Object.set(value:at:)` used while encoding, and
  the leaf cases of `ObjectEncoder.encode` including the encoding of a table;
- the path navigator: `Proxy`, `MutableProxy` and the type-erased `AnyProxy`,
  which build paths of `KeyPathElement`s, resolve identifiers through the
  store's `getObject`, and turn `set`, `removeValue` and the non-map arms of
  `mergeChangesFrom` into writes to the store.

Everything is immutable data and pure functions, apart from two methods with
loops (`Lists.Elements`, `ObjectEncoding.EncodeTable`). The document store is
the function type `Proxies.Store` (`getObject`). Its writes are not performed.
Each operation returns the sequence of `setMapKey`/`setListIndex` calls it
issues (`Proxies.StoreWrite`). A `Proxy`'s lazy `valueResolver` is the value
`Thunk<T>`: it yields an optional value, or `Crashes` when the closure would
trap (a force-unwrap, a `try!`). A Swift fatal error outside such a closure
becomes a precondition.

Files and modules:

| file | module | source |
|---|---|---|
| wrappers.dfy | `Wrappers` | `Optional` and throwing calls |
| string_order.dfy | `StringOrder` | the key order of `Map.makeIterator` |
| objects.dfy | `Objects` | `Object`, `Map`, `List`, `Table` types |
| maps.dfy | `Maps` | Source/DataTypes/Map.swift |
| lists.dfy | `Lists` | Source/DataTypes/List.swift |
| object_encoder.dfy | `ObjectEncoding` | Source/helper/ObjectEncoder.swift |
| proxy.dfy | `Proxies` | Source/Proxy/Proxy.swift |
| proxy_dictionary.dfy | `ProxyDictionary` | Source/Proxy/Proxy+Dictionary.swift |
| any_proxy.dfy | `AnyProxies` | Source/Proxy/AnyProxy.swift |

`Object`, `Primitive`, `ObjectId`, `Context` and `Context.KeyPathElement` are
defined elsewhere in automerge-swift; here they are defined from their uses:
- `Object` has the seven variants above.
- Only map, list and table nodes are assumed to carry an object identifier (`Objects.IdOf`).
- `Primitive` is a string, a number, a boolean or `null`.
- A path step's key is a string or an integer index, together with the
  identifier found at that step.

The memberwise initialisers of `Map` (Map.swift:13-17) and `List`
(List.swift:18-23) are the datatype constructors `Objects.Map` and
`Objects.List`: they store exactly the fields they are given.

In three places one might expect more than the code does; the model follows
the code:
- One might expect `mergeChangesFrom` to compare the nodes at the view's path.
  It compares the roots of the two stores, and writes at the view's own path.
- `set(newValue:)` issues its write whether or not the view's path still
  resolves in the store; nothing checks it.
- `replaceSubrange` and `append` do not keep one element identifier and one
  conflict map per value (`Lists.AppendBreaksParallel`).

## Model

| member | source | states |
|---|---|---|
| Maps.Assign | Source/DataTypes/Map.swift:23-29 | after `map[k] = v` the lookup of `k` gives `v` (a nil `v` removes `k`), every other key reads as before, and `objectId`/`conflicts` are untouched |
| Maps.AssignLookup | Source/DataTypes/Map.swift:23-29 | writing back the value just read from a key leaves the map unchanged |
| Maps.AssignAssign | Source/DataTypes/Map.swift:27-29 | of two writes to the same key only the second is observable |
| Maps.Entries | Source/DataTypes/Map.swift:46-48 | iteration yields each binding of the map exactly once, with its value, in strictly ascending key order |
| Maps.FromUniqueEntries | Source/DataTypes/Map.swift:53 | `Dictionary(uniqueKeysWithValues:)` (distinct keys required) binds exactly the given keys, each to its given value |
| Maps.FromDictionaryLiteral | Source/DataTypes/Map.swift:52-54 | the dictionary-literal init has an empty identifier, no conflicts, and exactly the literal's bindings |
| Maps.Encode | Source/DataTypes/Map.swift:32-35 | encoding emits exactly the map's bindings and nothing of its identity |
| Maps.Decode | Source/DataTypes/Map.swift:37-42 | decoding gives the payload's bindings with `objectId == ""` and no conflicts |
| Maps.DecodeEncode | Source/DataTypes/Map.swift:32-42 | a round trip keeps every binding, and gives back the same map exactly when its identifier is empty and it has no conflicts |
| Maps.EncodeDecode | Source/DataTypes/Map.swift:32-42 | decoding then encoding gives back the payload |
| Maps.LiteralOfEntries | Source/DataTypes/Map.swift:46-54 | the iterated entries have distinct keys, and a dictionary literal of them is the map's round trip through `Codable` |
| StringOrder.SortedKeys | Source/DataTypes/Map.swift:47 | the keys sorted by `<`: strictly ascending, each key once, nothing else |
| StringOrder.LessTransitive | Source/DataTypes/Map.swift:47 | the key order used for sorting is transitive |
| StringOrder.LessTotal | Source/DataTypes/Map.swift:47 | any two distinct keys are ordered one way or the other |
| StringOrder.LessIrreflexive | Source/DataTypes/Map.swift:47 | no key sorts before itself |
| StringOrder.Least | Source/DataTypes/Map.swift:47 | a non-empty key set has a key below all others, the first one iteration yields |
| Lists.Elements | Source/DataTypes/List.swift:49-69 | walking from `startIndex` (0) by `index(after:)` (+1) to `endIndex` (the count) visits every value once, in order |
| Lists.Assign | Source/DataTypes/List.swift:57-64 | setting position `p` changes element `p` only; length, `objectId`, `elemIds` and `conflicts` are unchanged |
| Lists.ReplaceSubrange | Source/DataTypes/List.swift:71-73 | the values become prefix, then the new elements, then suffix (stated element by element); `objectId`, `elemIds` and `conflicts` are unchanged |
| Lists.Append | Source/DataTypes/List.swift:71-73 | appending (through `replaceSubrange` at the end) grows the values by one, with the new element last |
| Lists.ReplaceSubrangeParallel | Source/DataTypes/List.swift:71-73 | on a list whose `elemIds`/`conflicts` parallel its values, replacement keeps them parallel exactly when it keeps the length |
| Lists.AppendBreaksParallel | Source/DataTypes/List.swift:71-73 | a concrete list whose arrays are parallel before an append and not after |
| Lists.Empty | Source/DataTypes/List.swift:41-46 | `init()` is empty with an empty identifier, no conflicts and no element ids |
| Lists.FromArrayLiteral | Source/DataTypes/List.swift:81-86 | the array-literal init holds exactly the elements, with a fresh identity |
| Lists.Encode | Source/DataTypes/List.swift:25-28 | encoding emits exactly the values, in order |
| Lists.Decode | Source/DataTypes/List.swift:30-36 | decoding keeps the payload's values with a fresh identity |
| Lists.DecodeEncode | Source/DataTypes/List.swift:25-36 | a round trip keeps the values, and gives back the same list exactly when its identity was fresh |
| Lists.EncodeDecode | Source/DataTypes/List.swift:25-36 | decoding then encoding gives back the payload |
| ObjectEncoding.Encode | Source/helper/ObjectEncoder.swift:12-29 | dates, counters and texts map to `.date`, `.counter`, `.text`, a URL to `.primitive(.string(absoluteString))`; only other values reach the generic encoder |
| ObjectEncoding.LeafIgnoresGeneric | Source/helper/ObjectEncoder.swift:14-25 | the special leaf types encode the same whatever the generic encoder does, and never fail |
| ObjectEncoding.LeafEncodingInjective | Source/helper/ObjectEncoder.swift:14-22 | distinct dates, counters and texts encode to distinct objects |
| ObjectEncoding.EncodeTable | Source/helper/ObjectEncoder.swift:31-37 | a table encodes to a `.table` whose keys are exactly the row ids, each bound to its row's encoding; otherwise the error of the first failing row is returned |
| ObjectEncoding.SetAtEmptyPath | Source/helper/ObjectEncoder.swift:43-46 | with an empty path the object becomes `value` |
| ObjectEncoding.SetAtMapPresent | Source/helper/ObjectEncoder.swift:48-52 | on a map whose first key is present only that key changes, to the recursive `set` of the rest of the path |
| ObjectEncoding.SetAtMapAbsent | Source/helper/ObjectEncoder.swift:53-56 | on a map whose first key is absent the key is bound to `value` itself and the rest of the path is ignored |
| ObjectEncoding.SetAtListAppends | Source/helper/ObjectEncoder.swift:57-60 | on a list, an index at or past the end appends `value`, so the length grows by exactly one |
| ObjectEncoding.SetAtListInside | Source/helper/ObjectEncoder.swift:61-66 | on a list, an index inside it keeps the length and changes that element only, to the recursive `set` of the rest |
| ObjectEncoding.SetAtOtherwiseUnchanged | Source/helper/ObjectEncoder.swift:57-67 | neither a map nor a list with an integer key: the object is unchanged |
| ObjectEncoding.SetAtThenValueAt | Source/helper/ObjectEncoder.swift:42-68 | on a path through existing entries (the last step may add a map key or append at the end) the value read back at the path is the value written |
| ObjectEncoding.SetAtFrame | Source/helper/ObjectEncoder.swift:42-68 | a read along any path that leaves the written path for another existing slot sees the same value before and after the write; the slots differ by string key in a map and by integer key in a list |
| ObjectEncoding.SetAtSiblingField | Source/helper/ObjectEncoder.swift:48-56 | writing one field of a map through a key with no integer form leaves every sibling field as it was |
| Proxies.Get | Source/Proxy/Proxy.swift:99-101 | `get()` requires the resolver to yield a value, and returns it |
| Proxies.Member | Source/Proxy/Proxy.swift:103-121 | field access needs the identifier to resolve to a map; the child's path is the parent's plus `.string(field)` with the field node's identifier, which is also the child's own; its value is the projection of the parent's |
| Proxies.OptionalMember | Source/Proxy/Proxy.swift:146-156 | the same for an optional property, with the optional levels flattened |
| Proxies.SetRoot | Source/Proxy/Proxy.swift:201-205 | one `setMapKey` at the path per entry of the root map, with its value, in strictly ascending key order, covering every key |
| Proxies.Set | Source/Proxy/Proxy.swift:184-199 | a non-empty path issues exactly one write to its parent path, `setMapKey` or `setListIndex` by the last key; the empty path spreads a map over its keys and ignores any other value |
| Proxies.SetMember | Source/Proxy/Proxy.swift:112-121 | setting a field's view writes that field into the parent's map at the parent's path |
| Proxies.MergeChangesFrom | Source/Proxy/Proxy.swift:219-226 | equal roots issue nothing; differing text or primitive roots issue `set(newValue: otherRoot)` at this view's path; list, table, counter and date roots issue nothing; mismatched variants are excluded |
| Proxies.MergeFromSelf | Source/Proxy/Proxy.swift:257-270 | merging from a view of the same store issues no write |
| Proxies.MergeTextIntoRootIsLost | Source/Proxy/Proxy.swift:222-226 | on the root view a differing text root issues no write, since `set(newValue:)` there only spreads maps |
| ProxyDictionary.Subscript | Source/Proxy/Proxy+Dictionary.swift:11-28 | keyed access needs a map node; the child path is `path + [.string(key)]` with `map[key]?.objectId`; its value is the dictionary's entry for the key, and a trap when the parent has no value |
| ProxyDictionary.RemoveValue | Source/Proxy/Proxy+Dictionary.swift:31-33 | exactly one `setMapKey(path, key, null)` at the view's own path |
| ProxyDictionary.RemoveValueIsSetNull | Source/Proxy/Proxy+Dictionary.swift:19-33 | removing a key is the same write as setting that key's child view to `null` |
| AnyProxies.ToAny | Source/Proxy/AnyProxy.swift:13-15 | keeps `objectId` and `path` exactly |
| AnyProxies.Member | Source/Proxy/AnyProxy.swift:36-45 | needs a map node; the child path is `path + [.string(member)]` with `map[member]?.objectId` as step and child identifier |
| AnyProxies.As | Source/Proxy/AnyProxy.swift:49-56 | keeps `objectId` and `path`; the value is absent exactly when there is no identifier, else the decoding of the node, a trap when decoding fails |
| AnyProxies.ToAnyMember | Source/Proxy/AnyProxy.swift:40-45 | erasing the type commutes with field navigation |
| AnyProxies.ToAnySubscript | Source/Proxy/Proxy+Dictionary.swift:47-56 | erasing the type commutes with keyed dictionary access |
| AnyProxies.ToAnyAs | Source/Proxy/AnyProxy.swift:49-56 | re-typing an erased view and erasing it again is the identity |
| AnyProxies.WalkExtendsPath | Source/Proxy/AnyProxy.swift:37-45 | a chain of member accesses only appends: one step per name, keyed by that name |

## Left out

- The diff engine (Source/DataTypes/File.swift): the whole file is commented out; there is no code to model.
- Source/helper/ObjectDecoder.swift: a round trip through a JSON encoder and decoder. `AnyProxies.As` takes the decoder as a parameter.
- The generic `Codable` path of `ObjectEncoder.encode` (`ObjectEncoding` is not part of this model): it is the parameter `generic` of `ObjectEncoding.Encode`. The runtime casts (`as? Date`, …) become the variant of `ObjectEncoding.Encodable`.
- `Table<T>` and its subscript are not part of this model: a table is given as its sequence of ids and a row function, and the encoded table's identifier is taken to be empty.
- Proxies.MergeChangesFrom: the arm for two map roots (Proxy.swift:227-256) is excluded by precondition. Each recursive call re-reads the store's root, so it has no decreasing measure, and it prints.
- Key-path reflection (`KeyPath.fieldName`, the `AnyKeyPath` cast at Proxy.swift:132-144): field names are given as strings and the projection as a function. The `AnyKeyPath` subscript then behaves like `Proxies.Member`.
- The `MutableProxy` subscripts (Proxy.swift:158-182) build the same paths and resolvers as the `Proxy` ones; `MutableProxy` is not a separate type here.
- Concurrency and laziness in time: a resolver is modelled by its outcome against the store it is given, not as a closure run later.
- `reserveCapacity` (List.swift:75) does nothing, and the model has no capacity.
- ProxyDictionary.Subscript: only views of a Swift `Dictionary` are modelled. The source extension also covers other `ExpressibleByDictionaryLiteral` types with `String` keys. For those, the child's value would trap in the `as! Dictionary` cast (Proxy+Dictionary.swift:26, 54). The model types the view's value as a Dafny `map`, so that trap is not modelled.
- Objects.IdOf: `Object.objectId` is defined elsewhere in automerge-swift. The model assumes that only map, list and table nodes carry an identifier and that text, counter, date and primitive values have none.
- StringOrder.Less: Swift compares `String`s by Unicode canonical equivalence. The model compares character codes lexicographically, without normalisation. Likewise, Swift `Dictionary` keys in `Maps` are equal up to canonical equivalence, while Dafny map keys are equal only as identical character sequences.
- Primitive numbers are integers. The payloads of dates, counters and texts are opaque. Floating point and the text/counter/table internals are not modelled.
- The document store's own effect of `setMapKey`/`setListIndex` is not modelled; only the sequence of calls is.
