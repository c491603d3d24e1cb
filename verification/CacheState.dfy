/**
 The shared memory of the coalescing cache (src/cache_inner.rs): its two locked
 structures and two counters, and the critical sections that change them.

 Each section is a function from the shared memory before to the shared memory
 after. CacheProtocol takes each as one step of an interleaving; CacheObject
 runs each in place on the fields of a class.
 */
module CacheState {
  import opened Prelude
  import opened FifoStore

  /** Names a call; a waiter's channel is named after the call that waits. */
  type Tid = nat

  datatype InFlight = InFlight(token: nat, waiters: seq<Tid>)

  datatype Shared<K, V> = Shared(
    store: Store<K, V>,
    max: Option<nat>,
    nextToken: nat,
    generation: nat,
    inFlight: map<K, InFlight>)

  /** What a caller learns under the in-flight lock. */
  datatype Role<+V> = Hit(value: V) | Joined(token: nat) | Leads(token: nat)

  ghost predicate ValidStore<K, V>(sh: Shared<K, V>) {
    Valid(sh.store, sh.max)
  }

  // ── Critical sections ───────────────────────────────────────────────────

  /** Re-check the store, then join the registered fetch or register one. */
  function Join<K(==), V>(sh: Shared<K, V>, k: K, caller: Tid): (Shared<K, V>, Role<V>) {
    if k in sh.store.entries then
      (sh, Hit(sh.store.entries[k]))
    else if k in sh.inFlight then
      var e := sh.inFlight[k];
      (sh.(inFlight := sh.inFlight[k := e.(waiters := e.waiters + [caller])]), Joined(e.token))
    else
      var t := sh.nextToken + 1;
      (sh.(nextToken := t, inFlight := sh.inFlight[k := InFlight(t, [])]), Leads(t))
  }

  /** `take_in_flight`: the waiters, provided `token` is still registered. */
  function Take<K(==), V>(sh: Shared<K, V>, k: K, token: nat): (Shared<K, V>, Option<seq<Tid>>) {
    if k in sh.inFlight && sh.inFlight[k].token == token then
      (sh.(inFlight := sh.inFlight - {k}), Some(sh.inFlight[k].waiters))
    else (sh, None)
  }

  /** Store a fetched value unless one is there already; the winner is returned. */
  function StoreFetched<K(==), V>(sh: Shared<K, V>, k: K, v: V): (Shared<K, V>, V) {
    if k in sh.store.entries then (sh, sh.store.entries[k])
    else (sh.(store := FifoStore.InsertLocked(sh.store, sh.max, k, v)), v)
  }

  /** `insert_if_current`: the counter is compared inside the write lock. */
  function InsertIfCurrent<K(==), V>(sh: Shared<K, V>, k: K, v: V, observed: nat): Shared<K, V> {
    if sh.generation != observed then sh
    else sh.(store := FifoStore.InsertLocked(sh.store, sh.max, k, v))
  }

  function Bump<K, V>(sh: Shared<K, V>): Shared<K, V> {
    sh.(generation := sh.generation + 1)
  }

  /** Unregister the fetches of `keys`, handing over their waiters. */
  function RemoveFlights<K(==), V>(sh: Shared<K, V>, keys: set<K>): (Shared<K, V>, map<K, seq<Tid>>) {
    (sh.(inFlight := sh.inFlight - keys),
     map k | k in sh.inFlight && k in keys :: sh.inFlight[k].waiters)
  }

  function RemoveStored<K(==), V>(sh: Shared<K, V>, gone: set<K>): Shared<K, V> {
    sh.(store := RemoveKeys(sh.store, gone))
  }

  /** The stored keys whose value satisfies `p`. */
  function Doomed<K(==), V>(sh: Shared<K, V>, p: V -> bool): set<K> {
    set k | k in sh.store.entries && p(sh.store.entries[k])
  }

  lemma {:induction false} RetainAbsent<K>(order: seq<K>, gone: set<K>)
    requires Elements(order) !! gone
    ensures Retain(order, gone) == order
  {
    if order != [] {
      assert order == [order[0]] + order[1..];
      assert order[0] in Elements(order);
      assert Elements(order[1..]) <= Elements(order);
      RetainAbsent(order[1..], gone);
    }
  }
}
