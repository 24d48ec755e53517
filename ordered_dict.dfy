/**
 * A Python `dict` as the code under model uses it: lookups, `setdefault`,
 * `setdefault(k, []).append(x)`, and iteration in insertion order. The keys
 * are kept as a sequence (their insertion order) beside the map itself.
 */
module OrderedDict {
  import opened Basics

  datatype Dict<K, V> = Dict(keys: seq<K>, entries: map<K, V>)
  {
    /** Keys listed once each, and exactly the keys of the map. */
    ghost predicate Valid()
    {
      && NoDup(keys)
      && (forall i :: 0 <= i < |keys| ==> keys[i] in entries)
      && (forall k :: k in entries ==> k in keys)
    }
  }

  function Empty<K, V>(): (d: Dict<K, V>)
    ensures d.Valid() && d.keys == [] && d.entries == map[]
  {
    Dict([], map[])
  }

  /** `d.setdefault(k, v)`: a new key goes last with value `v`; an existing key keeps its value. */
  function SetDefault<K, V>(d: Dict<K, V>, k: K, v: V): (d': Dict<K, V>)
    ensures d.Valid() ==> d'.Valid()
    ensures k in d'.entries && d'.entries[k] == (if k in d.entries then d.entries[k] else v)
    ensures d'.entries.Keys == d.entries.Keys + {k}
    ensures forall j :: j != k && j in d.entries ==> d'.entries[j] == d.entries[j]
    ensures d'.keys == if k in d.entries then d.keys else d.keys + [k]
  {
    if k in d.entries then d else Dict(d.keys + [k], d.entries[k := v])
  }

  /** `d.setdefault(k, []).append(x)`: `x` goes at the end of the list under `k`. */
  function AppendTo<K, X>(d: Dict<K, seq<X>>, k: K, x: X): (d': Dict<K, seq<X>>)
    ensures d.Valid() ==> d'.Valid()
    ensures k in d'.entries && d'.entries[k] == (if k in d.entries then d.entries[k] else []) + [x]
    ensures d'.entries.Keys == d.entries.Keys + {k}
    ensures forall j :: j != k && j in d.entries ==> d'.entries[j] == d.entries[j]
    ensures d'.keys == if k in d.entries then d.keys else d.keys + [k]
  {
    var d1 := SetDefault(d, k, []);
    Dict(d1.keys, d1.entries[k := d1.entries[k] + [x]])
  }
}
