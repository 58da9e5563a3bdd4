/** Map.swift: the map node's keyed access, its key-ordered iteration, its
    Codable form and its dictionary-literal initialiser. */
module Maps {
  import opened Wrappers
  import opened Objects
  import StringOrder

  /** `map[key]`: the value bound to `key`, if any. */
  function Lookup(m: Map, key: string): Option<Object>
  {
    if key in m.mapValues then Some(m.mapValues[key]) else None
  }

  /** `map[key] = newValue`: binds `key`, or removes it when `newValue` is nil.
      The identifier and the conflict table are left as they were. */
  function Assign(m: Map, key: string, newValue: Option<Object>): (r: Map)
    ensures Lookup(r, key) == newValue
    ensures forall k | k != key :: Lookup(r, k) == Lookup(m, k)
    ensures r.objectId == m.objectId && r.conflicts == m.conflicts
  {
    match newValue
    case Some(v) => m.(mapValues := m.mapValues[key := v])
    case None => m.(mapValues := m.mapValues - {key})
  }

  /** Writing back what was read changes nothing. */
  lemma AssignLookup(m: Map, key: string)
    ensures Assign(m, key, Lookup(m, key)) == m
  {
    var r := Assign(m, key, Lookup(m, key));
    assert r.mapValues == m.mapValues by {
      forall k ensures (k in r.mapValues) == (k in m.mapValues) {
        assert Lookup(r, k) == Lookup(m, k);
      }
    }
  }

  /** Of two writes to the same key only the second is observable. */
  lemma AssignAssign(m: Map, key: string, first: Option<Object>, second: Option<Object>)
    ensures Assign(Assign(m, key, first), key, second) == Assign(m, key, second)
  {
    var a := Assign(Assign(m, key, first), key, second);
    var b := Assign(m, key, second);
    assert a.mapValues == b.mapValues by {
      forall k ensures (k in a.mapValues) == (k in b.mapValues) {
        assert Lookup(a, k) == Lookup(b, k);
      }
    }
  }

  /** Keys of a sequence of entries. */
  function EntryKeys(es: seq<(string, Object)>): (ks: seq<string>)
    ensures |ks| == |es| && forall i | 0 <= i < |es| :: ks[i] == es[i].0
  {
    seq(|es|, i requires 0 <= i < |es| => es[i].0)
  }

  /** `makeIterator()`: the entries sorted by key. Every entry of the map is
      produced exactly once, with its bound value, in strictly ascending key order. */
  function Entries(m: Map): (es: seq<(string, Object)>)
    ensures StringOrder.StrictlyAscending(EntryKeys(es))
    ensures |es| == |m.mapValues|
    ensures forall i | 0 <= i < |es| :: Lookup(m, es[i].0) == Some(es[i].1)
    ensures forall k | k in m.mapValues :: k in EntryKeys(es)
  {
    var ks := StringOrder.SortedKeys(m.mapValues.Keys);
    assert forall i | 0 <= i < |ks| :: ks[i] in ks;
    var es := seq(|ks|, i requires 0 <= i < |ks| => (ks[i], m.mapValues[ks[i]]));
    assert EntryKeys(es) == ks;
    es
  }

  /** No key occurs twice. */
  predicate DistinctKeys(es: seq<(string, Object)>)
  {
    forall i, j | 0 <= i < |es| && 0 <= j < |es| && i != j :: es[i].0 != es[j].0
  }

  /** `Dictionary(uniqueKeysWithValues:)`: a dictionary built from entries whose
      keys are distinct (Swift traps on a repeated key). */
  function FromUniqueEntries(es: seq<(string, Object)>): (d: map<string, Object>)
    requires DistinctKeys(es)
    ensures d.Keys == set i | 0 <= i < |es| :: es[i].0
    ensures forall i | 0 <= i < |es| :: es[i].0 in d && d[es[i].0] == es[i].1
    decreases |es|
  {
    if |es| == 0 then map[]
    else
      var init := es[..|es| - 1];
      assert DistinctKeys(init);
      FromUniqueEntries(init)[es[|es| - 1].0 := es[|es| - 1].1]
  }

  /** `init(dictionaryLiteral:)`: a fresh map (empty identifier, no conflicts)
      holding exactly the given entries. */
  function FromDictionaryLiteral(es: seq<(string, Object)>): (m: Map)
    requires DistinctKeys(es)
    ensures m.objectId == "" && m.conflicts == map[]
    ensures forall i | 0 <= i < |es| :: Lookup(m, es[i].0) == Some(es[i].1)
    ensures forall k | k in m.mapValues :: exists i :: 0 <= i < |es| && es[i].0 == k
  {
    Map("", FromUniqueEntries(es), map[])
  }

  /** `encode(to:)`: only the key/value bindings are written. */
  function Encode(m: Map): (payload: map<string, Object>)
    ensures forall k :: Lookup(m, k) == (if k in payload then Some(payload[k]) else None)
  {
    m.mapValues
  }

  /** `init(from:)`: the decoded bindings with a fresh identity. */
  function Decode(payload: map<string, Object>): (m: Map)
    ensures m.objectId == "" && m.conflicts == map[]
    ensures forall k :: Lookup(m, k) == (if k in payload then Some(payload[k]) else None)
  {
    Map("", payload, map[])
  }

  /** An encode/decode round trip keeps every binding and resets the identity:
      it gives back the same map exactly when that map had none. */
  lemma DecodeEncode(m: Map)
    ensures forall k :: Lookup(Decode(Encode(m)), k) == Lookup(m, k)
    ensures Decode(Encode(m)) == m <==> m.objectId == "" && m.conflicts == map[]
  {
  }

  lemma EncodeDecode(payload: map<string, Object>)
    ensures Encode(Decode(payload)) == payload
  {
  }

  /** Iterating a map and rebuilding a dictionary literal from the entries
      gives the map's bindings back under a fresh identity. */
  lemma {:induction false} LiteralOfEntries(m: Map)
    ensures DistinctKeys(Entries(m))
    ensures FromDictionaryLiteral(Entries(m)) == Decode(Encode(m))
  {
    var es := Entries(m);
    forall i, j | 0 <= i < |es| && 0 <= j < |es| && i != j
      ensures es[i].0 != es[j].0
    {
      StringOrder.AscendingDistinct(EntryKeys(es), i, j);
    }
    var d := FromUniqueEntries(es);
    forall k ensures (k in d) == (k in m.mapValues) {
      if k in m.mapValues {
        assert k in EntryKeys(es);
        var i :| 0 <= i < |es| && EntryKeys(es)[i] == k;
        assert es[i].0 == k;
      }
      if k in d {
        var i :| 0 <= i < |es| && es[i].0 == k;
        assert Lookup(m, es[i].0) == Some(es[i].1);
      }
    }
    forall k | k in d ensures d[k] == m.mapValues[k] {
      var i :| 0 <= i < |es| && es[i].0 == k;
      assert Lookup(m, es[i].0) == Some(es[i].1);
    }
    assert d == m.mapValues;
  }
}
