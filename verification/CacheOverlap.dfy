/**
 When a fetch that overlaps an `invalidate`, a `clear` or an
 `invalidate_matching` puts its value back after all.

 The module documentation of src/cache_inner.rs promises that an invalidation
 that lands during a fetch of its key is not undone by that fetch. The claim and
 the store are two separate sections, so this has an exception, and this file
 says exactly which.
 */
module CacheOverlap {
  import opened Prelude
  import opened FifoStore
  import opened CacheState
  import opened CacheProtocol
  import opened CacheInvariants
  import opened CacheStored
  import opened CacheTheorems

  // ── A leader keeps its key, its token and, once fetched, its result ──────────────

  predicate HasResult<K, V>(pc: Pc<K, V>) {
    pc.Fetched? || pc.Claimed? || Settled(pc)
  }

  ghost predicate SameLeader<K, V>(pc: Pc<K, V>, pc': Pc<K, V>) {
    && IsLeader(pc) && IsLeader(pc') && pc'.token == pc.token && pc'.key == pc.key
    && (HasResult(pc) ==> HasResult(pc') && pc'.result == pc.result)
  }

  lemma OwnStepKeepsLeader<K(!new), V>(s: State<K, V>, a: Action<K, V>, c: Tid)
    requires Enabled(s, a) && Actor(a) == Some(c) && c in s.pcs && IsLeader(s.pcs[c])
    ensures c in Apply(s, a).pcs && SameLeader(s.pcs[c], Apply(s, a).pcs[c])
  {
  }

  lemma OtherStepKeepsLeader<K(!new), V>(s: State<K, V>, a: Action<K, V>, c: Tid)
    requires Enabled(s, a) && Actor(a) != Some(c) && c in s.pcs && IsLeader(s.pcs[c])
    ensures c in Apply(s, a).pcs && Apply(s, a).pcs[c] == s.pcs[c]
  {
  }

  lemma StepKeepsLeader<K(!new), V>(s: State<K, V>, a: Action<K, V>, c: Tid)
    requires Enabled(s, a) && c in s.pcs && IsLeader(s.pcs[c])
    ensures c in Apply(s, a).pcs && SameLeader(s.pcs[c], Apply(s, a).pcs[c])
  {
    if Actor(a) == Some(c) {
      OwnStepKeepsLeader(s, a, c);
    } else {
      OtherStepKeepsLeader(s, a, c);
    }
  }

  lemma {:induction false} RunKeepsLeader<K(!new), V>(s: State<K, V>, run: seq<Action<K, V>>, c: Tid)
    requires IsRun(s, run) && c in s.pcs && IsLeader(s.pcs[c])
    ensures c in After(s, run).pcs && SameLeader(s.pcs[c], After(s, run).pcs[c])
    decreases |run|
  {
    if run != [] {
      StepKeepsLeader(s, run[0], c);
      RunKeepsLeader(Apply(s, run[0]), run[1..], c);
    }
  }

  // ── A lost slot was lost to an invalidation ─────────────────────────────

  ghost predicate LostSlot<K, V>(s: State<K, V>, c: Tid)
    requires c in s.pcs
  {
    s.pcs[c].Claimed? && s.pcs[c].claim.None?
  }

  ghost predicate LostInv<K, V>(s: State<K, V>) {
    forall c :: c in s.pcs && LostSlot(s, c) ==> s.pcs[c].token in s.revoked
  }

  /** Only its own claim makes a leader lose its slot. */
  lemma LosesByClaiming<K(!new), V>(s: State<K, V>, a: Action<K, V>, c: Tid)
    requires Enabled(s, a) && c in Apply(s, a).pcs && LostSlot(Apply(s, a), c)
    ensures c in s.pcs
    ensures s.pcs[c] == Apply(s, a).pcs[c] || (a == Claim(c) && s.pcs[c].token == Apply(s, a).pcs[c].token)
  {
  }

  lemma LostInvKept<K(!new), V>(s: State<K, V>, a: Action<K, V>)
    requires Inv(s) && LostInv(s) && Enabled(s, a)
    ensures LostInv(Apply(s, a))
  {
    var s' := Apply(s, a);
    StepKeepsRevoked(s, a);
    forall c | c in s'.pcs && LostSlot(s', c)
      ensures s'.pcs[c].token in s'.revoked
    {
      LosesByClaiming(s, a, c);
      if a == Claim(c) {
        ClaimLosesRevoked(s, c);
      } else {
        assert LostSlot(s, c);
      }
    }
  }

  lemma ClaimLosesRevoked<K(!new), V>(s: State<K, V>, c: Tid)
    requires Inv(s) && Enabled(s, Claim(c)) && LostSlot(DoClaim(s, c), c)
    ensures s.pcs[c].token in s.revoked
  {
    assert Unclaimed(s.pcs[c]);
  }

  lemma {:induction false} RunKeepsLost<K(!new), V>(s: State<K, V>, run: seq<Action<K, V>>)
    requires Inv(s) && LostInv(s) && IsRun(s, run)
    ensures LostInv(After(s, run))
    decreases |run|
  {
    if run != [] {
      InvKept(s, run[0]);
      LostInvKept(s, run[0]);
      RunKeepsLost(Apply(s, run[0]), run[1..]);
    }
  }

  lemma ReachedLost<K(!new), V>(max: Option<nat>, run: seq<Action<K, V>>, s: State<K, V>)
    requires Reached(max, run, s)
    ensures LostInv(s)
  {
    InitInv<K, V>(max);
    RunKeepsLost(Init<K, V>(max), run);
  }

  // ── Exactly when the value comes back ───────────────────────────────────

  /** `invalidate` of this key, or `clear`. */
  predicate CancelsFetchOf<K(==), V>(op: Op<K, V>, k: K) {
    op == InvalidateKey(k) || op == ClearAll
  }

  /** After `later`, invalidation `t` is past the store and yet the leader's
      value is stored under `k`. */
  ghost predicate Resurfaces<K(!new), V>(s: State<K, V>, later: seq<Action<K, V>>, t: Tid, k: K, token: nat) {
    && IsRun(s, later)
    && var e := After(s, later);
    && t in e.pcs && PastStore(e.pcs[t])
    && k in e.shared.store.entries && e.shared.store.entries[k].origin == ByLeader(token)
  }

  /** A leader of `k` that has not dealt with its result. */
  predicate UnderWay<K(==), V>(s: State<K, V>, c: Tid, k: K) {
    c in s.pcs && (Unclaimed(s.pcs[c]) || s.pcs[c].Claimed?) && s.pcs[c].key == k
  }

  /** The leader has its slot and a value to store. */
  predicate AboutToStoreValue<K, V>(pc: Pc<K, V>) {
    pc.Claimed? && pc.claim.Some? && pc.result.Ok?
  }

  /** ... or it will get its slot, and has a value or may still fetch one. */
  predicate CanStillStore<K, V>(s: State<K, V>, c: Tid)
    requires c in s.pcs
  {
    || AboutToStoreValue(s.pcs[c])
    || (Unclaimed(s.pcs[c]) && s.pcs[c].token !in s.revoked && (s.pcs[c].Fetched? ==> s.pcs[c].result.Ok?))
  }

  /** A leader that can no longer store keeps out of the store for good. */
  lemma CannotStoreAnyMore<K(!new), V>(s: State<K, V>, t: Tid, c: Tid, k: K, later: seq<Action<K, V>>)
    requires Inv(s) && LostInv(s) && UnderWay(s, c, k) && !CanStillStore(s, c)
    ensures !Resurfaces(s, later, t, k, s.pcs[c].token)
  {
    var token := s.pcs[c].token;
    if Resurfaces(s, later, t, k, token) {
      RunKeepsInv(s, later);
      RevokedStays(s, later);
      RunKeepsLeader(s, later, c);
      assert false;
    }
  }

  lemma AboutToStoreStores<K(!new), V>(s: State<K, V>, t: Tid, c: Tid, k: K)
    requires Inv(s) && s.shared.max != Some(0) && k !in s.shared.store.entries
    requires t in s.pcs && PastStore(s.pcs[t]) && UnderWay(s, c, k) && AboutToStoreValue(s.pcs[c])
    ensures Resurfaces(s, [StoreValue(c)], t, k, s.pcs[c].token)
  {
    InsertEntries(s.shared.store, s.shared.max, k, Stamped(s.pcs[c].result.value, ByLeader(s.pcs[c].token)));
    var a: Action<K, V> := StoreValue(c);
    Prepend(s, a, []);
    assert [a] + [] == [a];
  }

  lemma FetchedStores<K(!new), V>(s: State<K, V>, t: Tid, c: Tid, k: K)
    requires Inv(s) && s.shared.max != Some(0) && k !in s.shared.store.entries
    requires t in s.pcs && PastStore(s.pcs[t]) && UnderWay(s, c, k) && s.pcs[c].Fetched? && CanStillStore(s, c)
    ensures Resurfaces(s, [Claim(c), StoreValue(c)], t, k, s.pcs[c].token)
  {
    InvKept(s, Claim(c));
    AboutToStoreStores(DoClaim(s, c), t, c, k);
    var a: Action<K, V> := Claim(c);
    Prepend(s, a, [StoreValue(c)]);
    assert [a] + [StoreValue(c)] == [a, StoreValue(c)];
  }

  lemma FetchingStores<K(!new), V>(s: State<K, V>, t: Tid, c: Tid, k: K, v: V)
    requires Inv(s) && s.shared.max != Some(0) && k !in s.shared.store.entries
    requires t in s.pcs && PastStore(s.pcs[t]) && UnderWay(s, c, k) && s.pcs[c].Fetching? && CanStillStore(s, c)
    ensures Resurfaces(s, [FetchReturns(c, Ok(v)), Claim(c), StoreValue(c)], t, k, s.pcs[c].token)
  {
    var a: Action<K, V> := FetchReturns(c, Ok(v));
    InvKept(s, a);
    FetchedStores(Apply(s, a), t, c, k);
    Prepend(s, a, [Claim(c), StoreValue(c)]);
    assert [a] + [Claim(c), StoreValue(c)] == [a, Claim(c), StoreValue(c)];
  }

  /** Once the invalidation is past the store, a leader that can still store may
      do so; `v` is a value its fetch may return. */
  lemma StoresAfterwards<K(!new), V>(s: State<K, V>, t: Tid, c: Tid, k: K, v: V)
    returns (later: seq<Action<K, V>>)
    requires Inv(s) && s.shared.max != Some(0) && k !in s.shared.store.entries
    requires t in s.pcs && PastStore(s.pcs[t]) && UnderWay(s, c, k) && CanStillStore(s, c)
    ensures Resurfaces(s, later, t, k, s.pcs[c].token)
  {
    if s.pcs[c].Claimed? {
      later := [StoreValue(c)];
      AboutToStoreStores(s, t, c, k);
    } else if s.pcs[c].Fetched? {
      later := [Claim(c), StoreValue(c)];
      FetchedStores(s, t, c, k);
    } else {
      later := [FetchReturns(c, Ok(v)), Claim(c), StoreValue(c)];
      FetchingStores(s, t, c, k, v);
    }
  }

  // `invalidate` and `clear` take the in-flight entries, then the stored ones.

  /** It may, if the leader claimed before the in-flight entry was taken. */
  lemma ClaimedCanResurface<K(!new), V>(s: State<K, V>, t: Tid, c: Tid, k: K)
    returns (later: seq<Action<K, V>>)
    requires Inv(s) && s.shared.max != Some(0)
    requires Enabled(s, TakeFlights(t)) && CancelsFetchOf(s.pcs[t].op, k)
    requires UnderWay(s, c, k) && AboutToStoreValue(s.pcs[c])
    ensures Resurfaces(DoTakeFlights(s, t), later, t, k, s.pcs[c].token)
  {
    var s1 := DoTakeFlights(s, t);
    var s2 := DoDropStored(s1, t);
    InvKept(s, TakeFlights(t));
    InvKept(s1, DropStored(t));
    AboutToStoreStores(s2, t, c, k);
    Prepend(s1, DropStored(t), [StoreValue(c)]);
    later := [DropStored(t)] + [StoreValue(c)];
  }

  /** It cannot otherwise. */
  lemma OthersCannotResurface<K(!new), V>(
      s: State<K, V>, t: Tid, c: Tid, k: K, later: seq<Action<K, V>>)
    requires Inv(s) && LostInv(s)
    requires Enabled(s, TakeFlights(t)) && CancelsFetchOf(s.pcs[t].op, k)
    requires UnderWay(s, c, k) && !AboutToStoreValue(s.pcs[c])
    ensures !Resurfaces(DoTakeFlights(s, t), later, t, k, s.pcs[c].token)
  {
    InvKept(s, TakeFlights(t));
    LostInvKept(s, TakeFlights(t));
    CannotStoreAnyMore(DoTakeFlights(s, t), t, c, k, later);
  }

  /** A fetch under way when `invalidate(k)` or `clear` takes the in-flight entry
      can put its value back after the invalidation if and only if it had already
      claimed its slot, with a value to store. Every fetch that had not is kept
      out for good. */
  lemma OverlapResurfacesIffClaimed<K(!new), V>(
      max: Option<nat>, run: seq<Action<K, V>>, s: State<K, V>, t: Tid, c: Tid, k: K)
    requires Reached(max, run, s) && max != Some(0)
    requires Enabled(s, TakeFlights(t)) && CancelsFetchOf(s.pcs[t].op, k) && UnderWay(s, c, k)
    ensures (exists later :: Resurfaces(DoTakeFlights(s, t), later, t, k, s.pcs[c].token))
      <==> AboutToStoreValue(s.pcs[c])
  {
    ReachedInv(max, run, s);
    ReachedLost(max, run, s);
    MaxKept(Init<K, V>(max), run);
    if AboutToStoreValue(s.pcs[c]) {
      var later := ClaimedCanResurface(s, t, c, k);
    } else {
      forall later
        ensures !Resurfaces(DoTakeFlights(s, t), later, t, k, s.pcs[c].token)
      {
        OthersCannotResurface(s, t, c, k, later);
      }
    }
  }

  // `invalidate_matching` takes them the other way round.

  lemma StoreStepLeavesFetch<K(!new), V>(s: State<K, V>, t: Tid, c: Tid, k: K)
    requires Enabled(s, DropStored(t)) && s.pcs[t].op.InvalidateMatching? && UnderWay(s, c, k)
    ensures var s1 := DoDropStored(s, t);
      && t in s1.pcs && PastStore(s1.pcs[t]) && s1.shared.max == s.shared.max
      && UnderWay(s1, c, k) && s1.pcs[c] == s.pcs[c] && (CanStillStore(s1, c) <==> CanStillStore(s, c))
  {
  }

  /** From its store step on, a fetch under way for a key that is not stored any
      more can put a value back if and only if it can still store: until the
      in-flight step the fetch is not cancelled, and for a key that had no match
      it never is. */
  lemma MatchingStoreStepLeavesFetches<K(!new), V>(
      max: Option<nat>, run: seq<Action<K, V>>, s: State<K, V>, t: Tid, c: Tid, k: K, v: V)
    requires Reached(max, run, s) && max != Some(0)
    requires Enabled(s, DropStored(t)) && s.pcs[t].op.InvalidateMatching? && UnderWay(s, c, k)
    requires k !in DoDropStored(s, t).shared.store.entries
    ensures (exists later :: Resurfaces(DoDropStored(s, t), later, t, k, s.pcs[c].token)) <==> CanStillStore(s, c)
  {
    ReachedInv(max, run, s);
    ReachedLost(max, run, s);
    MaxKept(Init<K, V>(max), run);
    var s1 := DoDropStored(s, t);
    InvKept(s, DropStored(t));
    LostInvKept(s, DropStored(t));
    StoreStepLeavesFetch(s, t, c, k);
    if CanStillStore(s, c) {
      var later := StoresAfterwards(s1, t, c, k, v);
    } else {
      forall later
        ensures !Resurfaces(s1, later, t, k, s.pcs[c].token)
      {
        CannotStoreAnyMore(s1, t, c, k, later);
      }
    }
  }

  lemma FlightStepCancels<K(!new), V>(s: State<K, V>, t: Tid, c: Tid, k: K)
    requires Inv(s) && Enabled(s, TakeDoomed(t)) && k in s.pcs[t].doomed && UnderWay(s, c, k)
    ensures var s1 := DoTakeDoomed(s, t);
      && t in s1.pcs && PastStore(s1.pcs[t]) && s1.shared.max == s.shared.max && s1.shared.store == s.shared.store
      && UnderWay(s1, c, k) && s1.pcs[c] == s.pcs[c] && (CanStillStore(s1, c) <==> AboutToStoreValue(s.pcs[c]))
  {
  }

  /** From its in-flight step on, for the keys it found, it is as with
      `invalidate`: only a fetch that had claimed its slot can. */
  lemma MatchingFlightStepResurfacesIffClaimed<K(!new), V>(
      max: Option<nat>, run: seq<Action<K, V>>, s: State<K, V>, t: Tid, c: Tid, k: K)
    requires Reached(max, run, s) && max != Some(0)
    requires Enabled(s, TakeDoomed(t)) && k in s.pcs[t].doomed && UnderWay(s, c, k)
    requires k !in s.shared.store.entries
    ensures (exists later :: Resurfaces(DoTakeDoomed(s, t), later, t, k, s.pcs[c].token))
      <==> AboutToStoreValue(s.pcs[c])
  {
    ReachedInv(max, run, s);
    ReachedLost(max, run, s);
    MaxKept(Init<K, V>(max), run);
    var s1 := DoTakeDoomed(s, t);
    InvKept(s, TakeDoomed(t));
    LostInvKept(s, TakeDoomed(t));
    FlightStepCancels(s, t, c, k);
    if AboutToStoreValue(s.pcs[c]) {
      var later := StoresAfterwards(s1, t, c, k, s.pcs[c].result.value);
    } else {
      forall later
        ensures !Resurfaces(s1, later, t, k, s.pcs[c].token)
      {
        CannotStoreAnyMore(s1, t, c, k, later);
      }
    }
  }
}
