/** The document tree: the `Object` enumeration and the node types it carries.
    `Map`, `List` and `Table` nest `Object`s, so they are declared together.
    Each node that the document store addresses carries an object identifier. */
module Objects {
  import opened Wrappers

  /** Opaque identifier of a node in the document store. */
  type ObjectId = string

  /** The reserved identifier of the document's root map. */
  const RootId: ObjectId := "00000000-0000-0000-0000-000000000000"

  /** Leaf values. Numbers are integers here: floating point is not modelled. */
  datatype Primitive = PString(s: string) | PNumber(n: int) | PBool(b: bool) | PNull

  /** Payloads of the special leaf types; only their identity matters here. */
  datatype Date = Date(timestamp: int)
  datatype Counter = Counter(count: int)
  datatype Text = Text(chars: string)

  datatype Object =
    | MapValue(m: Map)
    | ListValue(l: List)
    | TextValue(text: Text)
    | CounterValue(counter: Counter)
    | DateValue(date: Date)
    | TableValue(table: Table)
    | PrimitiveValue(primitive: Primitive)

  /** A string-keyed map node with, per key, the competing values of concurrent writers. */
  datatype Map = Map(
    objectId: ObjectId,
    mapValues: map<string, Object>,
    conflicts: map<string, map<ObjectId, Object>>)

  /** A list node: the values plus, per slot, its element identifier and conflict map. */
  datatype List = List(
    objectId: ObjectId,
    listValues: seq<Object>,
    conflicts: seq<map<ObjectId, Object>>,
    elemIds: seq<ObjectId>)

  /** A table node: rows keyed by their row identifier. */
  datatype Table = Table(objectId: ObjectId, tableValues: map<ObjectId, Object>)

  /** The identifier of a node, for the variants that have one. */
  function IdOf(o: Object): Option<ObjectId>
  {
    match o
    case MapValue(m) => Some(m.objectId)
    case ListValue(l) => Some(l.objectId)
    case TableValue(t) => Some(t.objectId)
    case _ => None
  }
}
