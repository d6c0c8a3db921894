/** A JavaScript plain object used as a dictionary (`{}` with `obj[k] = v`,
    `k in obj` and `Object.keys(obj)`): string keys, each present once, listed
    in the order they were first assigned. */
module Objects {

  datatype Obj<V> = Obj(keys: seq<string>, entries: map<string, V>) {

    /** `keys` lists every own key of the object exactly once. */
    ghost predicate Valid() {
      && (forall i, j | 0 <= i < j < |keys| :: keys[i] != keys[j])
      && (forall k :: k in entries <==> k in keys)
    }

    /** `k in obj`, for an own key. */
    predicate Has(k: string) {
      k in entries
    }

    /** `obj[k] = v`: overwrites the value of an existing key in place and
        appends a new key at the end of `Object.keys`. */
    function Put(k: string, v: V): (r: Obj<V>)
      ensures Valid() ==> r.Valid()
      ensures r.Has(k) && r.entries[k] == v
      ensures forall k' | k' != k :: (r.Has(k') <==> Has(k')) && (Has(k') ==> r.entries[k'] == entries[k'])
      ensures if Has(k) then r.keys == keys else r.keys == keys + [k]
    {
      if k in entries then Obj(keys, entries[k := v]) else Obj(keys + [k], entries[k := v])
    }
  }

  /** `{}` */
  function Empty<V>(): (r: Obj<V>)
    ensures r.Valid() && forall k :: !r.Has(k)
  {
    Obj([], map[])
  }
}
