/**
 * A JavaScript `Map` with string keys, as both scripts use it: lookups by key,
 * `set` that appends a new key and keeps an old key in its place, and
 * iteration (`values()`, `entries()`) in key-insertion order.
 */
module OrderedMaps {
  import opened Text

  datatype OrderedMap<V> = OrderedMap(entries: map<string, V>, order: seq<string>)
  {
    /** Every key is listed once, and the list holds exactly the keys. */
    ghost predicate Valid() {
      NoDuplicates(order) && forall k :: k in entries <==> k in order
    }

    /** `m.has(k)`. */
    predicate Has(k: string) {
      k in entries
    }

    /** `m.set(k, v)`. */
    function Set(k: string, v: V): (r: OrderedMap<V>)
      ensures Valid() ==> r.Valid()
      ensures r.entries == entries[k := v]
      ensures r.order == if k in entries then order else order + [k]
    {
      if k in entries then OrderedMap(entries[k := v], order)
      else
        var r := OrderedMap(entries[k := v], order + [k]);
        assert Valid() ==> NoDuplicates(r.order) by {
          if Valid() {
            forall i, j | 0 <= i < j < |r.order| ensures r.order[i] != r.order[j] {
              if j == |order| {
                assert r.order[i] == order[i];
              }
            }
          }
        }
        r
    }

    /** `Array.from(m.values())`. */
    function Values(): (r: seq<V>)
      ensures Valid() ==> |r| == |order| && forall i :: 0 <= i < |order| ==> r[i] == entries[order[i]]
    {
      ValuesOf(entries, order)
    }
  }

  /** The empty `new Map()`. */
  function EmptyMap<V>(): (r: OrderedMap<V>)
    ensures r.Valid() && r.entries == map[] && r.order == []
  {
    OrderedMap(map[], [])
  }

  /** The values of the listed keys, in list order. */
  function ValuesOf<V>(entries: map<string, V>, order: seq<string>): (r: seq<V>)
    ensures (forall i :: 0 <= i < |order| ==> order[i] in entries) ==>
      |r| == |order| && forall i :: 0 <= i < |order| ==> r[i] == entries[order[i]]
  {
    if order == [] then []
    else (if order[0] in entries then [entries[order[0]]] else []) + ValuesOf(entries, order[1..])
  }

  /** Setting a new key appends its value to the values. */
  lemma SetNewValues<V>(m: OrderedMap<V>, k: string, v: V)
    requires m.Valid() && !m.Has(k)
    ensures m.Set(k, v).Values() == m.Values() + [v]
  {
  }
}
