/** Python's `dict` with string keys: a map plus the insertion order of its keys,
    which is the order `.items()` visits them in. */
module Dicts {

  datatype Dict<V> = Dict(keys: seq<string>, values: map<string, V>) {

    /** Keys are distinct and are exactly the keys of the map. */
    ghost predicate Valid() {
      && (forall i, j | 0 <= i < j < |keys| :: keys[i] != keys[j])
      && (forall k :: k in values <==> k in keys)
    }

    /** `d[k] = v`: a new key goes to the end of the order, an existing key keeps its
        place and gets the new value. */
    function Put(k: string, v: V): (d: Dict<V>)
      ensures Valid() ==> d.Valid()
      ensures d.values == values[k := v]
      ensures Valid() && k in values ==> d.keys == keys
      ensures k !in values ==> d.keys == keys + [k]
      ensures forall k' | k' != k && k' in values :: k' in d.values && d.values[k'] == values[k']
    {
      Dict(if k in values then keys else keys + [k], values[k := v])
    }
  }

  function Empty<V>(): (d: Dict<V>)
    ensures d.Valid() && d.keys == [] && d.values == map[]
  {
    Dict([], map[])
  }
}
