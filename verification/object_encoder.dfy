/** ObjectEncoder.swift: the leaf special cases of `encode`, the encoding of a
    table, and the path-directed insertion `Object.set(value:at:)`. The generic
    `Codable` encoding is a parameter of the model. */
module ObjectEncoding {
  import opened Wrappers
  import opened Objects
  import Maps
  import Lists

  datatype EncodeError = EncodeError(reason: string)

  datatype Url = Url(absoluteString: string)

  /** A value handed to `encode`, classified by the runtime casts the encoder
      tries first; `Other` is everything that goes through `Codable`. */
  datatype Encodable<G> =
    | DateInput(date: Date)
    | CounterInput(counter: Counter)
    | TextInput(text: Text)
    | UrlInput(url: Url)
    | Other(value: G)

  predicate IsLeaf<G>(v: Encodable<G>)
  {
    !v.Other?
  }

  /** `encode(_:)`, with `generic` standing for the `Codable` path. */
  function Encode<G>(v: Encodable<G>, generic: G -> Result<Object, EncodeError>): (r: Result<Object, EncodeError>)
    ensures v.DateInput? ==> r == Success(DateValue(v.date))
    ensures v.CounterInput? ==> r == Success(CounterValue(v.counter))
    ensures v.TextInput? ==> r == Success(TextValue(v.text))
    ensures v.UrlInput? ==> r == Success(PrimitiveValue(PString(v.url.absoluteString)))
    ensures v.Other? ==> r == generic(v.value)
  {
    match v
    case DateInput(d) => Success(DateValue(d))
    case CounterInput(c) => Success(CounterValue(c))
    case TextInput(t) => Success(TextValue(t))
    case UrlInput(u) => Success(PrimitiveValue(PString(u.absoluteString)))
    case Other(g) => generic(g)
  }

  /** The special leaf types never reach the generic encoder: whatever it does,
      they encode the same way and never fail. */
  lemma LeafIgnoresGeneric<G>(v: Encodable<G>, g1: G -> Result<Object, EncodeError>, g2: G -> Result<Object, EncodeError>)
    requires IsLeaf(v)
    ensures Encode(v, g1) == Encode(v, g2)
    ensures Encode(v, g1).Success?
  {
  }

  /** Distinct dates, counters and texts encode to distinct objects. */
  lemma LeafEncodingInjective<G>(v: Encodable<G>, w: Encodable<G>, generic: G -> Result<Object, EncodeError>)
    requires IsLeaf(v) && IsLeaf(w) && !v.UrlInput? && !w.UrlInput?
    ensures Encode(v, generic) == Encode(w, generic) <==> v == w
  {
  }

  /** `encode(_: Table<T>)`: every row id becomes a key bound to that row's
      encoding; the first row that fails to encode aborts the whole call. */
  method EncodeTable<G>(ids: seq<ObjectId>, row: ObjectId -> Encodable<G>, generic: G -> Result<Object, EncodeError>)
    returns (r: Result<Object, EncodeError>)
    ensures r.Success? <==> forall i | 0 <= i < |ids| :: Encode(row(ids[i]), generic).Success?
    ensures r.Success? ==> r.value.TableValue? && r.value.table.objectId == ""
    ensures r.Success? ==> r.value.table.tableValues.Keys == set i | 0 <= i < |ids| :: ids[i]
    ensures r.Success? ==> forall id | id in r.value.table.tableValues ::
              Success(r.value.table.tableValues[id]) == Encode(row(id), generic)
    ensures r.Failure? ==> exists i | 0 <= i < |ids| ::
              Encode(row(ids[i]), generic) == Failure(r.error) &&
              forall j | 0 <= j < i :: Encode(row(ids[j]), generic).Success?
  {
    var entries: map<ObjectId, Object> := map[];
    var i := 0;
    while i < |ids|
      invariant 0 <= i <= |ids|
      invariant forall j | 0 <= j < i :: Encode(row(ids[j]), generic).Success?
      invariant entries.Keys == set j | 0 <= j < i :: ids[j]
      invariant forall id | id in entries :: Success(entries[id]) == Encode(row(id), generic)
    {
      var e := Encode(row(ids[i]), generic);
      if e.Failure? {
        return Failure(e.error);
      }
      entries := entries[ids[i] := e.value];
      i := i + 1;
    }
    r := Success(TableValue(Table("", entries)));
  }

  /** A Swift `CodingKey`: every key has a string form, some an integer form. */
  datatype CodingKey = CodingKey(stringValue: string, intValue: Option<int>)

  /** `set(value:at:)` traps when it reaches a list with a negative integer
      key: such a key is below `count`, so `list[key]` is read out of bounds.
      Everywhere else it is total. */
  predicate Settable(o: Object, path: seq<CodingKey>)
    decreases |path|
  {
    |path| == 0 ||
    match o
    case MapValue(m) =>
      var key := path[0].stringValue;
      key !in m.mapValues || Settable(m.mapValues[key], path[1..])
    case ListValue(l) =>
      path[0].intValue.None? ||
      var key := path[0].intValue.value;
      Lists.Count(l) <= key || (0 <= key && Settable(Lists.At(l, key), path[1..]))
    case _ => true
  }

  /** `Object.set(value:at:)`: replaces the value addressed by `path`. A map
      key that is present is descended into and one that is absent is bound to
      `value`; a list index at or past the end appends `value` and one inside
      the list is descended into; anything else leaves the object alone. */
  function SetAt(o: Object, value: Object, path: seq<CodingKey>): (r: Object)
    requires Settable(o, path)
    decreases |path|
  {
    if |path| == 0 then value
    else
      match o
      case MapValue(m) =>
        var key := path[0].stringValue;
        if key in m.mapValues
        then MapValue(Maps.Assign(m, key, Some(SetAt(m.mapValues[key], value, path[1..]))))
        else MapValue(Maps.Assign(m, key, Some(value)))
      case ListValue(l) =>
        if path[0].intValue.None? then o
        else
          var key := path[0].intValue.value;
          if Lists.Count(l) <= key then ListValue(Lists.Append(l, value))
          else ListValue(Lists.Assign(l, key, SetAt(Lists.At(l, key), value, path[1..])))
      case _ => o
  }

  /** Reading the value addressed by a coding path: map keys by their string
      form, list positions by their integer form. */
  function ValueAt(o: Object, path: seq<CodingKey>): Option<Object>
    decreases |path|
  {
    if |path| == 0 then Some(o)
    else
      match o
      case MapValue(m) =>
        var key := path[0].stringValue;
        if key in m.mapValues then ValueAt(m.mapValues[key], path[1..]) else None
      case ListValue(l) =>
        if path[0].intValue.Some? && 0 <= path[0].intValue.value < Lists.Count(l)
        then ValueAt(Lists.At(l, path[0].intValue.value), path[1..])
        else None
      case _ => None
  }

  lemma SetAtEmptyPath(o: Object, value: Object)
    ensures SetAt(o, value, []) == value
  {
  }

  /** On a map whose first key is present only that key's entry changes. */
  lemma SetAtMapPresent(m: Map, value: Object, path: seq<CodingKey>)
    requires |path| > 0 && path[0].stringValue in m.mapValues
    requires Settable(MapValue(m), path)
    ensures var r := SetAt(MapValue(m), value, path);
            var key := path[0].stringValue;
            && r.MapValue?
            && Maps.Lookup(r.m, key) == Some(SetAt(m.mapValues[key], value, path[1..]))
            && (forall k | k != key :: Maps.Lookup(r.m, k) == Maps.Lookup(m, k))
            && r.m.objectId == m.objectId && r.m.conflicts == m.conflicts
  {
  }

  /** On a map whose first key is absent the key is bound to `value` itself;
      the rest of the path is ignored. */
  lemma SetAtMapAbsent(m: Map, value: Object, path: seq<CodingKey>)
    requires |path| > 0 && path[0].stringValue !in m.mapValues
    ensures var r := SetAt(MapValue(m), value, path);
            var key := path[0].stringValue;
            && r.MapValue?
            && Maps.Lookup(r.m, key) == Some(value)
            && (forall k | k != key :: Maps.Lookup(r.m, k) == Maps.Lookup(m, k))
            && r.m.objectId == m.objectId && r.m.conflicts == m.conflicts
  {
  }

  /** On a list, an integer key at or past the end appends `value`: the list
      grows by exactly one however large the key. */
  lemma SetAtListAppends(l: List, value: Object, path: seq<CodingKey>)
    requires |path| > 0 && path[0].intValue.Some? && path[0].intValue.value >= Lists.Count(l)
    ensures var r := SetAt(ListValue(l), value, path);
            && r.ListValue?
            && Lists.Count(r.l) == Lists.Count(l) + 1
            && Lists.At(r.l, Lists.Count(l)) == value
            && (forall p | 0 <= p < Lists.Count(l) :: Lists.At(r.l, p) == Lists.At(l, p))
  {
  }

  /** On a list, an integer key inside the list changes that element only. */
  lemma SetAtListInside(l: List, value: Object, path: seq<CodingKey>)
    requires |path| > 0 && path[0].intValue.Some?
    requires 0 <= path[0].intValue.value < Lists.Count(l)
    requires Settable(ListValue(l), path)
    ensures var r := SetAt(ListValue(l), value, path);
            var key := path[0].intValue.value;
            && r.ListValue?
            && Lists.Count(r.l) == Lists.Count(l)
            && Lists.At(r.l, key) == SetAt(Lists.At(l, key), value, path[1..])
            && (forall p | 0 <= p < Lists.Count(l) && p != key :: Lists.At(r.l, p) == Lists.At(l, p))
  {
  }

  /** Neither a map nor a list indexed by an integer key: nothing changes. */
  lemma SetAtOtherwiseUnchanged(o: Object, value: Object, path: seq<CodingKey>)
    requires |path| > 0
    requires !o.MapValue? && !(o.ListValue? && path[0].intValue.Some?)
    ensures SetAt(o, value, path) == o
  {
  }

  /** The paths along which `set(value:at:)` leaves `value` at exactly `path`:
      every step goes through an existing entry, except possibly the last,
      which may bind a new map key or append at the list's end. */
  predicate Addressable(o: Object, path: seq<CodingKey>)
    decreases |path|
  {
    |path| == 0 ||
    match o
    case MapValue(m) =>
      var key := path[0].stringValue;
      if key in m.mapValues then Addressable(m.mapValues[key], path[1..]) else |path| == 1
    case ListValue(l) =>
      path[0].intValue.Some? &&
      var key := path[0].intValue.value;
      (key == Lists.Count(l) && |path| == 1) ||
      (0 <= key < Lists.Count(l) && Addressable(Lists.At(l, key), path[1..]))
    case _ => false
  }

  /** Read after write: on an addressable path, the written value is what is
      then read back at that path. */
  lemma {:induction false} SetAtThenValueAt(o: Object, value: Object, path: seq<CodingKey>)
    requires Addressable(o, path)
    ensures Settable(o, path)
    ensures ValueAt(SetAt(o, value, path), path) == Some(value)
    decreases |path|
  {
    if |path| > 0 {
      match o
      case MapValue(m) =>
        var key := path[0].stringValue;
        if key in m.mapValues {
          SetAtThenValueAt(m.mapValues[key], value, path[1..]);
        }
      case ListValue(l) =>
        var key := path[0].intValue.value;
        if 0 <= key < Lists.Count(l) {
          SetAtThenValueAt(Lists.At(l, key), value, path[1..]);
        }
    }
  }

  /** Two coding keys that address different slots of `node`: a map reads
      keys by their string form, a list by their integer form. */
  predicate ApartAt(node: Object, a: CodingKey, b: CodingKey)
  {
    match node
    case MapValue(_) => a.stringValue != b.stringValue
    case ListValue(_) => a.intValue != b.intValue
    case _ => true
  }

  /** Only the addressed slot changes: a read along a path `q` that agrees with
      the written path `p` on its first `i` keys, then leaves it for another
      existing slot, sees the same value before and after the write. */
  lemma {:induction false} SetAtFrame(o: Object, value: Object, p: seq<CodingKey>, q: seq<CodingKey>, i: nat)
    requires Settable(o, p)
    requires i < |p| && i < |q| && p[..i] == q[..i]
    requires ValueAt(o, q[..i]).Some?
    requires ValueAt(o, q[..i + 1]).Some?
    requires ApartAt(ValueAt(o, q[..i]).value, p[i], q[i])
    ensures ValueAt(SetAt(o, value, p), q) == ValueAt(o, q)
    decreases i
  {
    if i == 0 {
      assert q[..1] == [q[0]];
    } else {
      assert p[0] == q[0] by { assert p[..i][0] == q[..i][0]; }
      assert p[1..][..i - 1] == q[1..][..i - 1] by {
        assert p[1..][..i - 1] == p[..i][1..];
        assert q[1..][..i - 1] == q[..i][1..];
      }
      assert q[1..][..i] == q[..i + 1][1..];
      assert q[1..][..i - 1] == q[..i][1..];
      match o
      case MapValue(m) =>
        var key := p[0].stringValue;
        assert key in m.mapValues;
        SetAtFrame(m.mapValues[key], value, p[1..], q[1..], i - 1);
      case ListValue(l) =>
        var key := p[0].intValue.value;
        SetAtFrame(Lists.At(l, key), value, p[1..], q[1..], i - 1);
    }
  }

  /** Writing one field of a struct-like map leaves its sibling fields as
      they were, even though neither field's key has an integer form. */
  lemma SetAtSiblingField(m: Map, value: Object, a: string, b: string)
    requires a != b && b in m.mapValues
    ensures var field := CodingKey(a, None);
            var sibling := CodingKey(b, None);
            ValueAt(SetAt(MapValue(m), value, [field]), [sibling]) == Some(m.mapValues[b])
  {
    var p := [CodingKey(a, None)];
    var q := [CodingKey(b, None)];
    assert q[..0] == [] && q[..1] == q;
    SetAtFrame(MapValue(m), value, p, q, 0);
  }
}
