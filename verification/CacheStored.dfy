/** What may be in the store, and what an invalidation keeps out of it. */
module CacheStored {
  import opened Prelude
  import opened FifoStore
  import opened CacheState
  import opened CacheProtocol
  import opened CacheInvariants

  /** A leader whose result has been dealt with. */
  predicate Settled<K, V>(pc: Pc<K, V>) {
    pc.Waking? || pc.Led?
  }

  /** A stored value was fetched for its key by a leader no invalidation
      revoked, or came in with a counter value already seen. */
  ghost predicate OriginOk<K, V>(s: State<K, V>, k: K)
    requires k in s.shared.store.entries
  {
    var e := s.shared.store.entries[k];
    match e.origin
    case ByInsert(g) => g <= s.shared.generation
    case ByLeader(t) =>
      && t in s.leaderOf && t !in s.revoked && s.leaderOf[t] in s.pcs
      && Settled(s.pcs[s.leaderOf[t]])
      && s.pcs[s.leaderOf[t]].key == k
      && s.pcs[s.leaderOf[t]].result == Ok(e.value)
  }

  ghost predicate StoreInv<K(!new), V>(s: State<K, V>) {
    && ValidStore(s.shared)
    && (forall k :: k in s.shared.store.entries ==> OriginOk(s, k))
  }

  predicate HasBumped<K, V>(pc: Pc<K, V>) {
    pc.Bumped? || pc.TookFlights? || PastStore(pc)
  }

  predicate PastStore<K, V>(pc: Pc<K, V>) {
    pc.Removed? || pc.Notifying? || pc.Invalidated?
  }

  predicate Covers<K(==), V>(op: Op<K, V>, k: K, v: V) {
    match op
    case InvalidateKey(key) => k == key
    case InvalidateMatching(p) => p(v)
    case ClearAll => true
  }

  /** Nothing the operation covers is stored with a sample older than its bump. */
  ghost predicate Barred<K(!new), V>(s: State<K, V>, op: Op<K, V>, at: nat) {
    forall k :: k in s.shared.store.entries && Covers(op, k, s.shared.store.entries[k].value) ==>
      s.shared.store.entries[k].origin.ByInsert? ==> at <= s.shared.store.entries[k].origin.observed
  }

  ghost predicate BarrierInv<K(!new), V>(s: State<K, V>) {
    && (forall c :: c in s.pcs && HasBumped(s.pcs[c]) ==> s.pcs[c].at <= s.shared.generation)
    && (forall c :: c in s.pcs && PastStore(s.pcs[c]) ==> Barred(s, s.pcs[c].op, s.pcs[c].at))
  }

  // ── Actions that add nothing to the store ───────────────────────────────

  /** Settled leaders stay as they are, and only unsettled ones get revoked. */
  ghost predicate KeepsSettled<K, V>(s: State<K, V>, s': State<K, V>) {
    && s.shared.generation <= s'.shared.generation && s'.shared.max == s.shared.max
    && (forall t :: t in s.leaderOf ==> t in s'.leaderOf && s'.leaderOf[t] == s.leaderOf[t])
    && (forall c :: c in s.pcs && Settled(s.pcs[c]) ==>
      && c in s'.pcs && Settled(s'.pcs[c]) && s'.pcs[c].key == s.pcs[c].key
      && s'.pcs[c].token == s.pcs[c].token && s'.pcs[c].result == s.pcs[c].result
      && (s.pcs[c].token !in s.revoked ==> s.pcs[c].token !in s'.revoked))
  }

  ghost predicate Shrinks<K(!new), V>(s: State<K, V>, s': State<K, V>) {
    && ValidStore(s'.shared)
    && (forall k :: k in s'.shared.store.entries ==>
      k in s.shared.store.entries && s'.shared.store.entries[k] == s.shared.store.entries[k])
  }

  lemma ShrinkKeepsStore<K(!new), V>(s: State<K, V>, s': State<K, V>)
    requires StoreInv(s) && LeadersOk(s) && Shrinks(s, s') && KeepsSettled(s, s')
    ensures StoreInv(s')
  {
    forall k | k in s'.shared.store.entries
      ensures OriginOk(s', k)
    {
      assert OriginOk(s, k);
    }
  }

  /** One call moves from `pc` to `pc'` as far as barriers and results matter. */
  ghost predicate CalmMove<K, V>(pc: Pc<K, V>, pc': Pc<K, V>) {
    && (Settled(pc) ==> Settled(pc') && pc'.key == pc.key && pc'.token == pc.token && pc'.result == pc.result)
    && (HasBumped(pc') ==> HasBumped(pc) && pc'.at == pc.at && pc'.op == pc.op)
    && (PastStore(pc') ==> PastStore(pc))
  }

  ghost predicate CalmMoves<K, V>(s: State<K, V>, s': State<K, V>) {
    && s.pcs.Keys <= s'.pcs.Keys
    && (forall c :: c in s'.pcs ==>
      if c in s.pcs then CalmMove(s.pcs[c], s'.pcs[c]) else !HasBumped(s'.pcs[c]))
  }

  lemma CalmKeepsBarrier<K(!new), V>(s: State<K, V>, s': State<K, V>)
    requires BarrierInv(s) && Shrinks(s, s') && CalmMoves(s, s') && s.shared.generation <= s'.shared.generation
    ensures BarrierInv(s')
  {
    forall c | c in s'.pcs && PastStore(s'.pcs[c])
      ensures Barred(s', s'.pcs[c].op, s'.pcs[c].at)
    {
      assert Barred(s, s.pcs[c].op, s.pcs[c].at);
    }
  }

  /** The rest of the state as the store sees it. */
  ghost predicate LeavesStore<K, V>(s: State<K, V>, s': State<K, V>) {
    && s'.shared.store == s.shared.store && s'.shared.max == s.shared.max
    && s'.shared.generation == s.shared.generation
    && CalmMoves(s, s')
    && (forall t :: t in s.leaderOf ==> t in s'.leaderOf && s'.leaderOf[t] == s.leaderOf[t])
    && (forall c :: c in s.pcs && Settled(s.pcs[c]) ==>
      s.pcs[c].token !in s.revoked ==> s.pcs[c].token !in s'.revoked)
  }

  ghost predicate StoredInv<K(!new), V>(s: State<K, V>) {
    StoreInv(s) && BarrierInv(s)
  }

  lemma LeavesStoreKeeps<K(!new), V>(s: State<K, V>, s': State<K, V>)
    requires StoredInv(s) && LeadersOk(s) && LeavesStore(s, s')
    ensures StoredInv(s')
  {
    ShrinkKeepsStore(s, s');
    CalmKeepsBarrier(s, s');
  }

  // ── Action by action ────────────────────────────────────────────────────

  predicate IsQuietLocal<K, V>(a: Action<K, V>) {
    IsLocal(a) && !a.InsertSampled? && !a.BumpCounter?
  }

  lemma SendIsCalm<K, V>(s: State<K, V>, w: Tid, o: Outcome<K, V>, t: Tid, pc': Pc<K, V>)
    requires t in s.pcs && CalmMove(s.pcs[t], pc')
    ensures LeavesStore(s, Goto(s.(pcs := Send(s.pcs, w, o, t)), t, pc'))
  {
  }

  lemma StepIsCalm<K, V>(s: State<K, V>, t: Tid, pc': Pc<K, V>)
    requires t in s.pcs && CalmMove(s.pcs[t], pc')
    ensures LeavesStore(s, Goto(s, t, pc'))
  {
  }

  lemma StartIsCalm<K, V>(s: State<K, V>, t: Tid, pc': Pc<K, V>)
    requires t !in s.pcs && !HasBumped(pc')
    ensures LeavesStore(s, Goto(s, t, pc'))
  {
  }

  lemma QuietLeavesStore<K, V>(s: State<K, V>, a: Action<K, V>)
    requires Enabled(s, a) && IsQuietLocal(a)
    ensures LeavesStore(s, Apply(s, a))
  {
    if a.CallGet? || a.CallInvalidate? {
      StartIsCalm(s, a.t, Apply(s, a).pcs[a.t]);
    } else {
      StepIsCalm(s, a.t, Apply(s, a).pcs[a.t]);
    }
  }

  lemma WakeLeavesStore<K, V>(s: State<K, V>, t: Tid)
    requires Enabled(s, WakeNext(t))
    ensures LeavesStore(s, DoWake(s, t))
  {
    var pc' := DoWake(s, t).pcs[t];
    if s.pcs[t].waiters == [] {
      StepIsCalm(s, t, pc');
    } else {
      SendIsCalm(s, s.pcs[t].waiters[0],
        if s.pcs[t].Waking? then s.pcs[t].outcome else Cancelled(s.pcs[t].key), t, pc');
    }
  }

  lemma NotifyLeavesStore<K, V>(s: State<K, V>, t: Tid, k: K)
    requires Enabled(s, NotifyNext(t, k))
    ensures LeavesStore(s, DoNotify(s, t, k))
  {
    var pc' := DoNotify(s, t, k).pcs[t];
    if s.pcs[t].pending[k] == [] {
      StepIsCalm(s, t, pc');
    } else {
      SendIsCalm(s, s.pcs[t].pending[k][0], Cancelled(k), t, pc');
    }
  }

  lemma JoinLeavesStore<K(!new), V>(s: State<K, V>, t: Tid)
    requires LeadersOk(s) && Enabled(s, JoinOrLead(t))
    ensures LeavesStore(s, DoJoin(s, t))
  {
  }

  lemma TakeLeavesStore<K(!new), V>(s: State<K, V>, t: Tid, pc': Pc<K, V>)
    requires t in s.pcs && Unclaimed(s.pcs[t]) && !HasBumped(pc')
    ensures LeavesStore(s, Goto(s.(shared := Take(s.shared, s.pcs[t].key, s.pcs[t].token).0), t, pc'))
  {
  }

  /** Only registered fetches are revoked, and their leaders are unsettled. */
  lemma RevokeLeavesStore<K(!new), V>(s: State<K, V>, keys: set<K>, t: Tid, pc': Pc<K, V>)
    requires TokenInv(s) && t in s.pcs && CalmMove(s.pcs[t], pc')
    ensures LeavesStore(s, Goto(Revoke(s, keys).0, t, pc'))
  {
    var s' := Goto(Revoke(s, keys).0, t, pc');
    forall c | c in s.pcs && Settled(s.pcs[c]) && s.pcs[c].token !in s.revoked
      ensures s.pcs[c].token !in s'.revoked
    {
      assert s.leaderOf[s.pcs[c].token] == c;
    }
  }

  lemma BumpKeepsStored<K(!new), V>(s: State<K, V>, t: Tid)
    requires StoredInv(s) && LeadersOk(s) && Enabled(s, BumpCounter(t))
    ensures StoredInv(Apply(s, BumpCounter(t)))
  {
    var s' := Apply(s, BumpCounter(t));
    ShrinkKeepsStore(s, s');
    forall c | c in s'.pcs && PastStore(s'.pcs[c])
      ensures Barred(s', s'.pcs[c].op, s'.pcs[c].at)
    {
      assert Barred(s, s.pcs[c].op, s.pcs[c].at);
    }
  }

  /** The store step removes everything the operation covers. */
  lemma DropStoredRemoves<K(!new), V>(s: State<K, V>, t: Tid)
    requires ValidStore(s.shared) && Enabled(s, DropStored(t))
    ensures Shrinks(s, DoDropStored(s, t))
    ensures var s' := DoDropStored(s, t);
      forall k :: k in s'.shared.store.entries ==> !Covers(s.pcs[t].op, k, s'.shared.store.entries[k].value)
    ensures forall k :: k in s.shared.store.entries && k !in DoDropStored(s, t).shared.store.entries ==>
      Covers(s.pcs[t].op, k, s.shared.store.entries[k].value)
  {
    var gone := Victims(s.shared, s.pcs[t].op);
    if s.shared.max.Some? {
      RemoveRefinesFifo(s.shared.store, s.shared.max.value, gone);
    }
    assert forall k :: k in s.shared.store.entries ==>
      (k in gone <==> Covers(s.pcs[t].op, k, s.shared.store.entries[k].value));
  }

  lemma DropStoredKeepsStored<K(!new), V>(s: State<K, V>, t: Tid)
    requires StoredInv(s) && LeadersOk(s) && Enabled(s, DropStored(t))
    ensures StoredInv(DoDropStored(s, t))
  {
    DropStoredRemoves(s, t);
    DropStoredKeepsSettled(s, t);
    ShrinkKeepsStore(s, DoDropStored(s, t));
    DropStoredBars(s, t);
  }

  lemma DropStoredKeepsSettled<K(!new), V>(s: State<K, V>, t: Tid)
    requires Enabled(s, DropStored(t))
    ensures KeepsSettled(s, DoDropStored(s, t))
  {
  }

  /** The operation joins those past the store with nothing it covers stored. */
  lemma DropStoredBars<K(!new), V>(s: State<K, V>, t: Tid)
    requires BarrierInv(s) && Enabled(s, DropStored(t)) && Shrinks(s, DoDropStored(s, t))
    requires forall k :: k in DoDropStored(s, t).shared.store.entries ==>
      !Covers(s.pcs[t].op, k, DoDropStored(s, t).shared.store.entries[k].value)
    ensures BarrierInv(DoDropStored(s, t))
  {
    var s' := DoDropStored(s, t);
    forall c | c in s'.pcs && PastStore(s'.pcs[c])
      ensures Barred(s', s'.pcs[c].op, s'.pcs[c].at)
    {
      if c != t {
        assert Barred(s, s.pcs[c].op, s.pcs[c].at);
      }
    }
  }

  // ── Actions that add to the store ───────────────────────────────────────

  /** A store that gained or changed at most the entry under `k`. */
  ghost predicate Gains<K(!new), V>(s: State<K, V>, s': State<K, V>, k: K, e: Stamped<V>) {
    && ValidStore(s'.shared)
    && (forall x :: x in s'.shared.store.entries ==>
      if x == k then s'.shared.store.entries[x] == e
      else x in s.shared.store.entries && s'.shared.store.entries[x] == s.shared.store.entries[x])
  }

  lemma InsertGains<K(!new), V>(s: State<K, V>, s': State<K, V>, k: K, e: Stamped<V>)
    requires ValidStore(s.shared) && s'.shared.max == s.shared.max
    requires s'.shared.store == InsertLocked(s.shared.store, s.shared.max, k, e)
    ensures Gains(s, s', k, e)
  {
    OperationsKeepValid(s.shared.store, s.shared.max, k, e, {});
    InsertEntries(s.shared.store, s.shared.max, k, e);
  }

  lemma GainKeepsStored<K(!new), V>(s: State<K, V>, s': State<K, V>, k: K, e: Stamped<V>)
    requires StoredInv(s) && LeadersOk(s) && Gains(s, s', k, e)
    requires KeepsSettled(s, s') && CalmMoves(s, s') && s'.shared.generation == s.shared.generation
    requires e.origin.ByInsert? ==> e.origin.observed == s.shared.generation
    requires k in s'.shared.store.entries ==> OriginOk(s', k)
    ensures StoredInv(s')
  {
    forall x | x in s'.shared.store.entries
      ensures OriginOk(s', x)
    {
      assert x != k ==> OriginOk(s, x);
    }
    forall c | c in s'.pcs && PastStore(s'.pcs[c])
      ensures Barred(s', s'.pcs[c].op, s'.pcs[c].at)
    {
      assert Barred(s, s.pcs[c].op, s.pcs[c].at);
    }
  }

  lemma InsertSampledKeepsStored<K(!new), V>(s: State<K, V>, k: K, v: V, g: nat)
    requires StoredInv(s) && LeadersOk(s) && Enabled(s, InsertSampled(k, v, g))
    ensures StoredInv(Apply(s, InsertSampled(k, v, g)))
  {
    var s' := Apply(s, InsertSampled(k, v, g));
    if g == s.shared.generation {
      InsertGains(s, s', k, Stamped(v, ByInsert(g)));
      GainKeepsStored(s, s', k, Stamped(v, ByInsert(g)));
    }
  }

  lemma StoreValueKeepsStored<K(!new), V>(s: State<K, V>, t: Tid)
    requires StoredInv(s) && TokenInv(s) && Enabled(s, StoreValue(t))
    ensures StoredInv(DoStore(s, t))
  {
    var s' := DoStore(s, t);
    var pc := s.pcs[t];
    if pc.claim.None? || pc.result.Err? || pc.key in s.shared.store.entries {
      StepIsCalm(s, t, s'.pcs[t]);
      LeavesStoreKeeps(s, s');
    } else {
      FetchedKeepsStored(s, t);
    }
  }

  /** A leader that has its slot stores its value under a key not stored yet. */
  lemma FetchedKeepsStored<K(!new), V>(s: State<K, V>, t: Tid)
    requires StoredInv(s) && TokenInv(s) && Enabled(s, StoreValue(t))
    requires s.pcs[t].claim.Some? && s.pcs[t].result.Ok? && s.pcs[t].key !in s.shared.store.entries
    ensures StoredInv(DoStore(s, t))
  {
    var s' := DoStore(s, t);
    var e := Stamped(s.pcs[t].result.value, ByLeader(s.pcs[t].token));
    InsertGains(s, s', s.pcs[t].key, e);
    FetchedIsCalm(s, t);
    GainKeepsStored(s, s', s.pcs[t].key, e);
  }

  lemma FetchedIsCalm<K(!new), V>(s: State<K, V>, t: Tid)
    requires TokenInv(s) && Enabled(s, StoreValue(t))
    requires s.pcs[t].claim.Some? && s.pcs[t].result.Ok? && s.pcs[t].key !in s.shared.store.entries
    ensures var s' := DoStore(s, t); KeepsSettled(s, s') && CalmMoves(s, s')
    ensures var s' := DoStore(s, t);
      s.pcs[t].key in s'.shared.store.entries
      && s'.shared.store.entries[s.pcs[t].key] == Stamped(s.pcs[t].result.value, ByLeader(s.pcs[t].token)) ==>
        OriginOk(s', s.pcs[t].key)
  {
  }

  // ── Every action ────────────────────────────────────────────────────────

  lemma RevokersKeepStored<K(!new), V>(s: State<K, V>, a: Action<K, V>)
    requires StoredInv(s) && TokenInv(s) && Enabled(s, a) && (a.TakeFlights? || a.TakeDoomed?)
    ensures StoredInv(Apply(s, a))
  {
    var s' := Apply(s, a);
    var keys := if a.TakeDoomed? then s.pcs[a.t].doomed
                else if s.pcs[a.t].op.InvalidateKey? then {s.pcs[a.t].op.key} else s.shared.inFlight.Keys;
    RevokeLeavesStore(s, keys, a.t, s'.pcs[a.t]);
    LeavesStoreKeeps(s, s');
  }

  predicate AddsOrDrops<K, V>(a: Action<K, V>) {
    || a.StoreValue? || a.InsertSampled? || a.BumpCounter? || a.DropStored? || a.TakeFlights? || a.TakeDoomed?
  }

  lemma OthersLeaveStore<K(!new), V>(s: State<K, V>, a: Action<K, V>)
    requires LeadersOk(s) && Enabled(s, a) && !AddsOrDrops(a)
    ensures LeavesStore(s, Apply(s, a))
  {
    match a
    case JoinOrLead(t) => JoinLeavesStore(s, t);
    case Claim(t) => TakeLeavesStore(s, t, DoClaim(s, t).pcs[t]);
    case DropLeader(t) => TakeLeavesStore(s, t, DoDropLeader(s, t).pcs[t]);
    case WakeNext(t) => WakeLeavesStore(s, t);
    case NotifyNext(t, k) => NotifyLeavesStore(s, t, k);
    case _ => QuietLeavesStore(s, a);
  }

  lemma AddersKeepStored<K(!new), V>(s: State<K, V>, a: Action<K, V>)
    requires StoredInv(s) && TokenInv(s) && Enabled(s, a) && AddsOrDrops(a)
    ensures StoredInv(Apply(s, a))
  {
    match a
    case StoreValue(t) => StoreValueKeepsStored(s, t);
    case InsertSampled(k, v, g) => InsertSampledKeepsStored(s, k, v, g);
    case BumpCounter(t) => BumpKeepsStored(s, t);
    case DropStored(t) => DropStoredKeepsStored(s, t);
    case _ => RevokersKeepStored(s, a);
  }

  lemma StoredInvKept<K(!new), V>(s: State<K, V>, a: Action<K, V>)
    requires StoredInv(s) && TokenInv(s) && Enabled(s, a)
    ensures StoredInv(Apply(s, a))
  {
    if AddsOrDrops(a) {
      AddersKeepStored(s, a);
    } else {
      OthersLeaveStore(s, a);
      LeavesStoreKeeps(s, Apply(s, a));
    }
  }
}
