/** An insertion-ordered map, the shape of a JavaScript `Map`: lookups by key,
    and iteration over the keys in the order they were first inserted. Setting
    an existing key keeps its position; deleting a key removes it from the order. */
module OrderedMaps {
  import opened Types

  datatype OrderedMap<V> = OrderedMap(keys: seq<Id>, entries: map<Id, V>) {

    /** The key order lists every key of the map exactly once. */
    ghost predicate Valid()
    {
      && NoDuplicates(keys)
      && (forall k :: k in entries <==> k in keys)
    }

    /** `map.set(k, v)`. */
    function Put(k: Id, v: V): (r: OrderedMap<V>)
      requires Valid()
      ensures r.Valid()
      ensures r.entries == entries[k := v]
      ensures k in entries ==> r.keys == keys
      ensures k !in entries ==> r.keys == keys + [k]
    {
      if k in entries then OrderedMap(keys, entries[k := v])
      else OrderedMap(keys + [k], entries[k := v])
    }

    /** `map.delete(k)`. */
    function Remove(k: Id): (r: OrderedMap<V>)
      requires Valid()
      ensures r.Valid()
      ensures r.entries == entries - {k}
    {
      OrderedMap(Without(keys, k), entries - {k})
    }

    /** `Array.from(map.values())`: the values in key order. */
    function Values(): (r: seq<V>)
      requires Valid()
      ensures |r| == |keys|
      ensures forall i :: 0 <= i < |keys| ==> r[i] == entries[keys[i]]
    {
      ValuesOf(keys, entries)
    }
  }

  function Empty<V>(): (r: OrderedMap<V>)
    ensures r.Valid() && r.keys == [] && r.entries == map[]
  {
    OrderedMap([], map[])
  }

  /** The key order with `k` taken out, the rest kept in order. */
  function Without(keys: seq<Id>, k: Id): (r: seq<Id>)
    ensures forall x :: x in r <==> x in keys && x != k
    ensures NoDuplicates(keys) ==> NoDuplicates(r)
  {
    if |keys| == 0 then []
    else if keys[0] == k then Without(keys[1..], k)
    else
      var rest := Without(keys[1..], k);
      assert NoDuplicates(keys) ==> keys[0] !in keys[1..];
      [keys[0]] + rest
  }

  function ValuesOf<V>(keys: seq<Id>, m: map<Id, V>): (r: seq<V>)
    requires forall k :: k in keys ==> k in m
    ensures |r| == |keys|
    ensures forall i :: 0 <= i < |keys| ==> r[i] == m[keys[i]]
  {
    if |keys| == 0 then [] else [m[keys[0]]] + ValuesOf(keys[1..], m)
  }
}
