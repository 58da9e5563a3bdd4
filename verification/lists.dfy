/** List.swift: the list node as a Swift collection (indices, positional
    access, range replacement), its Codable form and its initialisers. Only the
    values are touched by these operations; element identifiers and conflict
    maps stay as they were. */
module Lists {
  import opened Objects

  /** Number of elements, `endIndex - startIndex`. */
  function Count(l: List): nat
  {
    |l.listValues|
  }

  function StartIndex(l: List): int
  {
    0
  }

  function EndIndex(l: List): int
  {
    |l.listValues|
  }

  function IndexAfter(l: List, i: int): int
  {
    i + 1
  }

  /** `list[position]` (Swift traps outside `0 ..< count`). */
  function At(l: List, position: int): Object
    requires 0 <= position < Count(l)
  {
    l.listValues[position]
  }

  /** Walking the collection from `startIndex` with `index(after:)` until
      `endIndex` visits every value once, in order. */
  method Elements(l: List) returns (xs: seq<Object>)
    ensures |xs| == Count(l)
    ensures forall p | 0 <= p < Count(l) :: xs[p] == At(l, p)
  {
    xs := [];
    var i := StartIndex(l);
    while i != EndIndex(l)
      invariant 0 <= i <= EndIndex(l)
      invariant xs == l.listValues[..i]
      decreases EndIndex(l) - i
    {
      xs := xs + [At(l, i)];
      i := IndexAfter(l, i);
    }
  }

  /** `list[position] = newValue`: only that slot changes. */
  function Assign(l: List, position: int, newValue: Object): (r: List)
    requires 0 <= position < Count(l)
    ensures Count(r) == Count(l)
    ensures At(r, position) == newValue
    ensures forall p | 0 <= p < Count(l) && p != position :: At(r, p) == At(l, p)
    ensures r.objectId == l.objectId && r.elemIds == l.elemIds && r.conflicts == l.conflicts
  {
    l.(listValues := l.listValues[position := newValue])
  }

  /** `replaceSubrange(lo ..< hi, with: c)` on the values alone (Swift traps
      unless `0 <= lo <= hi <= count`). */
  function ReplaceSubrange(l: List, lo: int, hi: int, c: seq<Object>): (r: List)
    requires 0 <= lo <= hi <= Count(l)
    ensures Count(r) == Count(l) - (hi - lo) + |c|
    ensures forall p | 0 <= p < lo :: At(r, p) == At(l, p)
    ensures forall p | 0 <= p < |c| :: At(r, lo + p) == c[p]
    ensures forall p | hi <= p < Count(l) :: At(r, p - (hi - lo) + |c|) == At(l, p)
    ensures r.objectId == l.objectId && r.elemIds == l.elemIds && r.conflicts == l.conflicts
  {
    l.(listValues := l.listValues[..lo] + c + l.listValues[hi..])
  }

  /** `append(_:)`, which the collection protocol routes through
      `replaceSubrange(endIndex ..< endIndex, with: [newElement])`. */
  function Append(l: List, newElement: Object): (r: List)
    ensures Count(r) == Count(l) + 1
    ensures At(r, Count(l)) == newElement
    ensures forall p | 0 <= p < Count(l) :: At(r, p) == At(l, p)
    ensures r.objectId == l.objectId && r.elemIds == l.elemIds && r.conflicts == l.conflicts
  {
    ReplaceSubrange(l, Count(l), Count(l), [newElement])
  }

  /** One element identifier and one conflict map per value. */
  predicate ParallelArrays(l: List)
  {
    |l.elemIds| == |l.listValues| && |l.conflicts| == |l.listValues|
  }

  /** Range replacement keeps the identifier and conflict arrays parallel to
      the values exactly when it does not change the number of values. */
  lemma ReplaceSubrangeParallel(l: List, lo: int, hi: int, c: seq<Object>)
    requires ParallelArrays(l)
    requires 0 <= lo <= hi <= Count(l)
    ensures ParallelArrays(ReplaceSubrange(l, lo, hi, c)) <==> |c| == hi - lo
  {
  }

  /** A concrete list on which `append` breaks the parallel arrays. */
  lemma AppendBreaksParallel()
    ensures var l := List("list", [], [], []);
            ParallelArrays(l) && !ParallelArrays(Append(l, PrimitiveValue(PNull)))
  {
  }

  /** A list with a fresh identity holding exactly `values`. */
  predicate FreshWith(l: List, values: seq<Object>)
  {
    l.objectId == "" && l.conflicts == [] && l.elemIds == [] && l.listValues == values
  }

  /** `init()`: the empty list with a fresh identity. */
  function Empty(): (l: List)
    ensures Count(l) == 0 && FreshWith(l, [])
  {
    List("", [], [], [])
  }

  /** `init(arrayLiteral:)`. */
  function FromArrayLiteral(elements: seq<Object>): (l: List)
    ensures Count(l) == |elements| && FreshWith(l, elements)
  {
    List("", elements, [], [])
  }

  /** `encode(to:)`: only the values are written. */
  function Encode(l: List): (payload: seq<Object>)
    ensures |payload| == Count(l)
    ensures forall p | 0 <= p < Count(l) :: payload[p] == At(l, p)
  {
    l.listValues
  }

  /** `init(from:)`: the decoded values with a fresh identity. */
  function Decode(payload: seq<Object>): (l: List)
    ensures Count(l) == |payload| && FreshWith(l, payload)
  {
    List("", payload, [], [])
  }

  /** An encode/decode round trip keeps the values and resets the identity: it
      gives back the same list exactly when that list had a fresh identity. */
  lemma DecodeEncode(l: List)
    ensures Decode(Encode(l)).listValues == l.listValues
    ensures Decode(Encode(l)) == l <==> FreshWith(l, l.listValues)
  {
  }

  lemma EncodeDecode(payload: seq<Object>)
    ensures Encode(Decode(payload)) == payload
  {
  }
}
