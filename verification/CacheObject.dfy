/** The cache as an object whose methods run the critical sections in place. */
module CacheObject {
  import opened Prelude
  import opened FifoStore
  import opened CacheState

  /** `InMemoryCache`: every public method is a series of critical sections. */
  class InMemoryCache<K(==), V> {
    var entries: map<K, V>
    var order: seq<K>
    const maxEntries: Option<nat>
    var nextToken: nat
    var generation: nat
    var inFlight: map<K, InFlight>

    ghost function State(): Shared<K, V>
      reads this
    {
      Shared(Store(entries, order), maxEntries, nextToken, generation, inFlight)
    }

    ghost predicate WellFormed()
      reads this
    {
      ValidStore(State())
    }

    constructor (maxEntries: Option<nat>)
      ensures WellFormed()
      ensures State() == Shared(Store(map[], []), maxEntries, 0, 0, map[])
    {
      this.maxEntries := maxEntries;
      entries, order := map[], [];
      nextToken, generation := 0, 0;
      inFlight := map[];
    }

    /** Insert into the locked store, evicting the oldest while over the bound. */
    method InsertLocked(k: K, v: V)
      requires WellFormed()
      modifies this`entries, this`order
      ensures WellFormed()
      ensures State() == old(State()).(store := FifoStore.InsertLocked(old(State()).store, maxEntries, k, v))
    {
      ghost var target := FifoStore.InsertLocked(Store(entries, order), maxEntries, k, v);
      KeepsValid(k, v);
      var refreshed := k in entries;
      entries := entries[k := v];
      if refreshed || maxEntries.None? {
        return;
      }
      order := order + [k];
      while |entries| > maxEntries.value
        invariant Evict(Store(entries, order), maxEntries.value) == target
        decreases |order|
      {
        if order == [] {
          break;
        }
        entries, order := entries - {order[0]}, order[1..];
      }
    }

    /** `insert_if_current`. */
    method InsertIfCurrent(k: K, v: V, observed: nat)
      requires WellFormed()
      modifies this`entries, this`order
      ensures WellFormed()
      ensures State() == CacheState.InsertIfCurrent(old(State()), k, v, observed)
    {
      if generation != observed {
        return;
      }
      InsertLocked(k, v);
    }

    /** The in-flight lock section of `get_or_fetch`. */
    method JoinOrLead(k: K, caller: Tid) returns (role: Role<V>)
      modifies this`nextToken, this`inFlight
      ensures (State(), role) == Join(old(State()), k, caller)
    {
      if k in entries {
        return Hit(entries[k]);
      }
      if k in inFlight {
        var e := inFlight[k];
        inFlight := inFlight[k := InFlight(e.token, e.waiters + [caller])];
        return Joined(e.token);
      }
      nextToken := nextToken + 1;
      inFlight := inFlight[k := InFlight(nextToken, [])];
      return Leads(nextToken);
    }

    /** `take_in_flight`. */
    method TakeInFlight(k: K, token: nat) returns (waiters: Option<seq<Tid>>)
      modifies this`inFlight
      ensures (State(), waiters) == Take(old(State()), k, token)
    {
      if k in inFlight && inFlight[k].token == token {
        waiters := Some(inFlight[k].waiters);
        inFlight := inFlight - {k};
      } else {
        waiters := None;
      }
    }

    /** The store section of a leader that claimed its slot. */
    method StoreUnlessPresent(k: K, v: V) returns (stored: V)
      requires WellFormed()
      modifies this`entries, this`order
      ensures WellFormed()
      ensures (State(), stored) == StoreFetched(old(State()), k, v)
      ensures k in old(entries) ==> stored == old(entries)[k] && State() == old(State())
      ensures k !in old(entries) ==> stored == v
      ensures maxEntries != Some(0) ==> k in entries && entries[k] == stored
    {
      if k in entries {
        return entries[k];
      }
      InsertEntries(State().store, maxEntries, k, v);
      InsertLocked(k, v);
      return v;
    }

    /** `get_or_fetch`, run without interference: a hit, or a fetch led from start
        to end; behind a registered fetch the caller is parked (`None`). */
    method GetOrFetch<E>(k: K, caller: Tid, fetched: Result<V, E>) returns (outcome: Option<Result<V, E>>)
      requires WellFormed()
      modifies this
      ensures WellFormed() && generation == old(generation)
      ensures k in old(entries) ==> outcome == Some(Ok(old(entries)[k])) && State() == old(State())
      ensures k !in old(entries) && k in old(inFlight) ==>
        && outcome == None && State() == old(State()).(inFlight := inFlight)
        && inFlight == old(inFlight)[k := InFlight(old(inFlight)[k].token, old(inFlight)[k].waiters + [caller])]
      ensures k !in old(entries) && k !in old(inFlight) ==>
        && outcome == Some(fetched) && inFlight == old(inFlight)
        && State().store == match fetched
             case Ok(v) => FifoStore.InsertLocked(old(State()).store, maxEntries, k, v)
             case Err(_) => old(State()).store
    {
      if k in entries {
        return Some(Ok(entries[k]));
      }
      var role := JoinOrLead(k, caller);
      if role.Joined? {
        return None;
      }
      var waiters := TakeInFlight(k, role.token);
      assert inFlight == old(inFlight);
      if fetched.Ok? && waiters.Some? {
        var stored := StoreUnlessPresent(k, fetched.value);
        return Some(Ok(stored));
      }
      return Some(fetched);
    }

    /** `invalidate`, run without interference. */
    method Invalidate(k: K) returns (cancelled: seq<Tid>)
      requires WellFormed()
      modifies this
      ensures WellFormed()
      ensures State() == RemoveStored(RemoveFlights(CacheState.Bump(old(State())), {k}).0, {k})
      ensures cancelled == if k in old(inFlight) then old(inFlight)[k].waiters else []
    {
      OperationsKeepValidForRemoval({k});
      generation := generation + 1;
      cancelled := if k in inFlight then inFlight[k].waiters else [];
      inFlight := inFlight - {k};
      if k in entries {
        entries := entries - {k};
        order := Retain(order, {k});
      } else {
        AbsentKeyRemoval(k);
      }
    }

    /** `invalidate_matching`, run without interference. */
    method InvalidateMatching(p: V -> bool) returns (cancelled: map<K, seq<Tid>>)
      requires WellFormed()
      modifies this
      ensures WellFormed()
      ensures var doomed := Doomed(old(State()), p);
        var flights := RemoveFlights(CacheState.Bump(old(State())), doomed);
        State() == RemoveStored(flights.0, doomed) && cancelled == flights.1
    {
      generation := generation + 1;
      var doomed := set k | k in entries && p(entries[k]);
      OperationsKeepValidForRemoval(doomed);
      if doomed == {} {
        AbsentRemoval(doomed);
        assert inFlight - doomed == inFlight;
        assert RemoveFlights(State(), doomed).1 == map[];
        return map[];
      }
      entries := entries - doomed;
      order := Retain(order, doomed);
      cancelled := map k | k in inFlight && k in doomed :: inFlight[k].waiters;
      inFlight := inFlight - doomed;
    }

    /** `clear`, run without interference. */
    method Clear() returns (cancelled: map<K, seq<Tid>>)
      requires WellFormed()
      modifies this
      ensures WellFormed() && entries == map[] && inFlight == map[]
      ensures State() == RemoveStored(
        RemoveFlights(CacheState.Bump(old(State())), old(inFlight).Keys).0, old(entries).Keys)
      ensures cancelled == map k | k in old(inFlight) :: old(inFlight)[k].waiters
    {
      OperationsKeepValidForRemoval(entries.Keys);
      RetainElements(order, entries.Keys);
      if maxEntries.Some? && Retain(order, entries.Keys) != [] {
        assert Retain(order, entries.Keys)[0] in Elements(Retain(order, entries.Keys));
      }
      generation := generation + 1;
      cancelled := map k | k in inFlight :: inFlight[k].waiters;
      inFlight := map[];
      entries, order := map[], [];
    }

    lemma KeepsValid(k: K, v: V)
      requires WellFormed()
      ensures Valid(FifoStore.InsertLocked(Store(entries, order), maxEntries, k, v), maxEntries)
    {
      if maxEntries.Some? {
        InsertRefinesFifo(Store(entries, order), maxEntries.value, k, v);
      }
    }

    lemma OperationsKeepValidForRemoval(gone: set<K>)
      requires WellFormed()
      ensures Valid(RemoveKeys(State().store, gone), maxEntries)
    {
      if maxEntries.Some? {
        RemoveRefinesFifo(State().store, maxEntries.value, gone);
      }
    }

    lemma AbsentRemoval(gone: set<K>)
      requires WellFormed() && gone !! entries.Keys
      ensures RemoveKeys(State().store, gone) == State().store
    {
      RetainAbsent(order, gone);
    }

    lemma AbsentKeyRemoval(k: K)
      requires WellFormed() && k !in entries
      ensures RemoveKeys(State().store, {k}) == State().store
    {
      AbsentRemoval({k});
    }
  }
}
