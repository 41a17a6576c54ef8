/** Django's cache as the marketplace uses it: a map from key to value with
    the timeout each value was stored with. Expiry itself (the clock) is not
    modelled; an entry is either there or not. */
module Cache {

  datatype Entry<V> = Entry(value: V, ttl: nat)

  type Store<V> = map<string, Entry<V>>

  /** `cache.set(key, value, ttl)`. */
  function Set<V>(c: Store<V>, key: string, value: V, ttl: nat): (r: Store<V>)
    ensures key in r && r[key] == Entry(value, ttl)
    ensures forall k :: k != key ==> (k in r <==> k in c) && (k in c ==> r[k] == c[k])
  {
    c[key := Entry(value, ttl)]
  }

  /** The outcome of a read-through call: the value handed back and the
      cache afterwards. */
  datatype Got<V> = Got(value: V, store: Store<V>)

  /** `cache.get_or_set(key, value, ttl)`: a present entry is returned as is
      and nothing is written; otherwise `value` is stored and returned. */
  function GetOrSet<V>(c: Store<V>, key: string, value: V, ttl: nat): (r: Got<V>)
    ensures key in c ==> r.value == c[key].value && r.store == c
    ensures key !in c ==> r.value == value && r.store == Set(c, key, value, ttl)
  {
    if key in c then Got(c[key].value, c) else Got(value, Set(c, key, value, ttl))
  }

  /** A second read-through call under the same key returns what the first
      returned and writes nothing, whatever value it is offered. */
  lemma GetOrSetIdempotent<V>(c: Store<V>, key: string, v1: V, v2: V, ttl1: nat, ttl2: nat)
    ensures var first := GetOrSet(c, key, v1, ttl1);
      var second := GetOrSet(first.store, key, v2, ttl2);
      second.value == first.value && second.store == first.store
    ensures key in GetOrSet(c, key, v1, ttl1).store
  {
  }
}
