/** Python's insertion-ordered dict: a key list in insertion order and the key-to-value map. */
module Dicts {
  import opened Sequences

  datatype Dict<K(==,!new), V> = Dict(keys: seq<K>, entries: map<K, V>) {

    /** The keys are distinct and are exactly the keys of the map. */
    ghost predicate Valid() {
      && NoDuplicates(keys)
      && (forall k :: k in entries <==> k in keys)
    }

    /** `d[k] = v`: an existing key keeps its position, a new key goes last. */
    function Set(k: K, v: V): (d: Dict<K, V>)
      requires Valid()
      ensures d.Valid()
      ensures d.entries == entries[k := v]
      ensures |d.keys| == if k in entries then |keys| else |keys| + 1
      ensures forall i :: 0 <= i < |keys| ==> d.keys[i] == keys[i]
      ensures k !in entries ==> d.keys[|keys|] == k
    {
      if k in entries then Dict(keys, entries[k := v]) else Dict(keys + [k], entries[k := v])
    }

    /** `list(d.values())`: the values in key order. */
    function Values(): (vs: seq<V>)
      requires Valid()
      ensures |vs| == |keys|
      ensures forall i :: 0 <= i < |keys| ==> vs[i] == entries[keys[i]]
    {
      seq(|keys|, i requires 0 <= i < |keys| => entries[keys[i]])
    }

    /** Every value stored under a key is among the values. */
    lemma ValuesComplete()
      requires Valid()
      ensures forall k :: k in entries ==> entries[k] in Values()
    {
      forall k | k in entries ensures entries[k] in Values() {
        var i := FirstIndex(keys, k);
        assert Values()[i] == entries[k];
      }
    }
  }

  function Empty<K(==,!new), V>(): (d: Dict<K, V>)
    ensures d.Valid() && d.keys == [] && d.entries == map[]
  {
    Dict([], map[])
  }
}
