/**
 The shared counter store as the filters see it: a map from key to count,
 with `incr` returning the new count and `drop` removing the key. The
 sliding-window and expiry behaviour of the real store is not modelled.
 */
module CounterStore {

  type Counters = map<string, nat>

  /** The count stored under `key`, zero when absent. */
  function Count(store: Counters, key: string): nat {
    if key in store then store[key] else 0
  }

  datatype Incremented = Incremented(count: nat, store: Counters)

  /** `incr_sliding_window(key, …)`: one more hit on `key`; every other key keeps its count. */
  function Incr(store: Counters, key: string): (r: Incremented)
    ensures r.count == Count(store, key) + 1 && r.count >= 1
    ensures Count(r.store, key) == r.count
    ensures forall k | k != key :: Count(r.store, k) == Count(store, k)
  {
    var c := Count(store, key) + 1;
    Incremented(c, store[key := c])
  }

  /** `drop_counter(key)`: forget `key`; dropping an absent key changes nothing. */
  function Drop(store: Counters, key: string): (r: Counters)
    ensures Count(r, key) == 0
    ensures forall k | k != key :: Count(r, k) == Count(store, k)
    ensures key !in store ==> r == store
  {
    store - {key}
  }

  /** Dropping a key and then incrementing it starts again from one. */
  lemma DropThenIncr(store: Counters, key: string)
    ensures Incr(Drop(store, key), key).count == 1
  {
  }
}
