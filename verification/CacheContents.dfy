/** Values that fit their key stay with it, whoever fetched them. */
module CacheContents {
  import opened Prelude
  import opened FifoStore
  import opened CacheState
  import opened CacheProtocol
  import opened CacheInvariants
  import opened CacheWaiters
  import opened CacheStored

  type Fit<!K, !V> = (K, V) -> bool

  predicate OutcomeSound<K, V>(k: K, o: Outcome<K, V>, ok: Fit<K, V>) {
    o.Value? ==> ok(k, o.value)
  }

  predicate ResultSound<K, V>(k: K, r: Result<V, FetchError>, ok: Fit<K, V>) {
    r.Ok? ==> ok(k, r.value)
  }

  predicate PcSound<K, V>(pc: Pc<K, V>, ok: Fit<K, V>) {
    match pc
    case Returned(k, v) => ok(k, v)
    case Woken(k, _, o, _) => OutcomeSound(k, o, ok)
    case Fetched(k, _, r) => ResultSound(k, r, ok)
    case Claimed(k, _, r, _) => ResultSound(k, r, ok)
    case Waking(k, _, r, o, _) => ResultSound(k, r, ok) && OutcomeSound(k, o, ok)
    case Led(k, _, r, o) => ResultSound(k, r, ok) && OutcomeSound(k, o, ok)
    case _ => true
  }

  /** Every value stored, fetched, sent or returned under a key fits the key. */
  ghost predicate Sound<K(!new), V>(s: State<K, V>, ok: Fit<K, V>) {
    && (forall k :: k in s.shared.store.entries ==> ok(k, s.shared.store.entries[k].value))
    && (forall c :: c in s.pcs ==> PcSound(s.pcs[c], ok))
  }

  /** What comes in from outside fits its key. */
  predicate Admissible<K(==), V>(s: State<K, V>, a: Action<K, V>, ok: Fit<K, V>) {
    match a
    case FetchReturns(t, r) => t in s.pcs && s.pcs[t].Fetching? && ResultSound(s.pcs[t].key, r, ok)
    case InsertSampled(k, v, _) => ok(k, v)
    case _ => true
  }

  lemma InsertKeepsSound<K(!new), V>(s: State<K, V>, s': State<K, V>, k: K, e: Stamped<V>, ok: Fit<K, V>)
    requires Sound(s, ok) && ValidStore(s.shared) && ok(k, e.value) && s'.pcs == s.pcs
    requires s'.shared.store == InsertLocked(s.shared.store, s.shared.max, k, e)
    ensures Sound(s', ok)
  {
    InsertEntries(s.shared.store, s.shared.max, k, e);
  }

  lemma GotoKeepsSound<K(!new), V>(s: State<K, V>, t: Tid, pc: Pc<K, V>, ok: Fit<K, V>)
    requires Sound(s, ok) && PcSound(pc, ok)
    ensures Sound(Goto(s, t, pc), ok)
  {
  }

  lemma StoreKeepsSound<K(!new), V>(s: State<K, V>, t: Tid, ok: Fit<K, V>)
    requires Sound(s, ok) && ValidStore(s.shared) && Enabled(s, StoreValue(t))
    ensures Sound(DoStore(s, t), ok)
  {
    var pc := s.pcs[t];
    var s' := DoStore(s, t);
    if pc.claim.Some? && pc.result.Ok? && pc.key !in s.shared.store.entries {
      var e := Stamped(pc.result.value, ByLeader(pc.token));
      var s1 := s.(shared := StoreFetched(s.shared, pc.key, e).0);
      InsertKeepsSound(s, s1, pc.key, e, ok);
      GotoKeepsSound(s1, t, s'.pcs[t], ok);
    } else {
      GotoKeepsSound(s, t, s'.pcs[t], ok);
    }
  }

  lemma SendKeepsSound<K(!new), V>(s: State<K, V>, t: Tid, w: Tid, o: Outcome<K, V>, pc: Pc<K, V>, ok: Fit<K, V>)
    requires Sound(s, ok) && PcSound(pc, ok) && w in s.pcs && IsParked(s.pcs[w]) && OutcomeSound(s.pcs[w].key, o, ok)
    ensures Sound(Goto(s.(pcs := Send(s.pcs, w, o, t)), t, pc), ok)
  {
  }

  lemma SendsKeepSound<K(!new), V>(s: State<K, V>, a: Action<K, V>, ok: Fit<K, V>)
    requires Sound(s, ok) && ListsFit(s) && Enabled(s, a) && (a.WakeNext? || a.NotifyNext?)
    ensures Sound(Apply(s, a), ok)
  {
    var s' := Apply(s, a);
    var pc := s.pcs[a.t];
    var k := if a.WakeNext? then pc.key else a.key;
    var ws := if a.WakeNext? then pc.waiters else pc.pending[k];
    if ws == [] {
      GotoKeepsSound(s, a.t, s'.pcs[a.t], ok);
    } else {
      assert ListAt(s, Held(a.t, k)) == ws;
      assert Fits(s, Held(a.t, k), ws[0]);
      SendKeepsSound(s, a.t, ws[0], if pc.Waking? then pc.outcome else Cancelled(k), s'.pcs[a.t], ok);
    }
  }

  lemma SectionsKeepSound<K(!new), V>(s: State<K, V>, a: Action<K, V>, ok: Fit<K, V>)
    requires Sound(s, ok) && Enabled(s, a) && Admissible(s, a, ok)
    requires !a.WakeNext? && !a.NotifyNext? && !a.StoreValue? && !a.InsertSampled? && !a.DropStored?
    ensures Sound(Apply(s, a), ok)
  {
    assert Apply(s, a).shared.store == s.shared.store;
  }

  lemma InsertSampledKeepsSound<K(!new), V>(s: State<K, V>, a: Action<K, V>, ok: Fit<K, V>)
    requires Sound(s, ok) && ValidStore(s.shared) && Enabled(s, a) && Admissible(s, a, ok) && a.InsertSampled?
    ensures Sound(Apply(s, a), ok)
  {
    if a.observed == s.shared.generation {
      InsertKeepsSound(s, Apply(s, a), a.key, Stamped(a.value, ByInsert(a.observed)), ok);
    }
  }

  lemma DropStoredKeepsSound<K(!new), V>(s: State<K, V>, t: Tid, ok: Fit<K, V>)
    requires Sound(s, ok) && ValidStore(s.shared) && Enabled(s, DropStored(t))
    ensures Sound(DoDropStored(s, t), ok)
  {
    DropStoredRemoves(s, t);
  }

  lemma SoundKept<K(!new), V>(s: State<K, V>, a: Action<K, V>, ok: Fit<K, V>)
    requires Sound(s, ok) && ListsFit(s) && ValidStore(s.shared) && Enabled(s, a) && Admissible(s, a, ok)
    ensures Sound(Apply(s, a), ok)
  {
    match a
    case StoreValue(t) => StoreKeepsSound(s, t, ok);
    case WakeNext(_) => SendsKeepSound(s, a, ok);
    case NotifyNext(_, _) => SendsKeepSound(s, a, ok);
    case InsertSampled(_, _, _) => InsertSampledKeepsSound(s, a, ok);
    case DropStored(t) => DropStoredKeepsSound(s, t, ok);
    case _ => SectionsKeepSound(s, a, ok);
  }

  // ── A call keeps to its own job ─────────────────────────────────────────

  /** A lookup stays a lookup of its key, an invalidation stays its operation,
      and a finished operation stays finished as it was. */
  ghost predicate SameJob<K, V>(pc: Pc<K, V>, pc': Pc<K, V>) {
    && IsInvalidation(pc) == IsInvalidation(pc')
    && (IsInvalidation(pc) ==> pc'.op == pc.op)
    && (!IsInvalidation(pc) ==> pc'.key == pc.key)
    && (pc.Invalidated? ==> pc' == pc)
  }


  /** Call `c` begins with action `a`. */
  ghost predicate Begins<K, V>(a: Action<K, V>, c: Tid, pc: Pc<K, V>) {
    || (a.CallGet? && a.t == c && pc == FastReading(a.key))
    || (a.CallInvalidate? && a.t == c && pc == Starting(a.op))
  }

  /** A call's own step is part of its job. */
  lemma OwnJobKept<K(!new), V>(s: State<K, V>, a: Action<K, V>)
    requires Enabled(s, a) && !a.InsertSampled? && a.t in s.pcs
    ensures a.t in Apply(s, a).pcs && SameJob(s.pcs[a.t], Apply(s, a).pcs[a.t])
  {
    if IsInvalidation(s.pcs[a.t]) {
      OwnDropKept(s, a);
    } else {
      OwnLookupKept(s, a);
    }
  }

  lemma OwnDropKept<K(!new), V>(s: State<K, V>, a: Action<K, V>)
    requires Enabled(s, a) && !a.InsertSampled? && a.t in s.pcs && IsInvalidation(s.pcs[a.t])
    ensures a.t in Apply(s, a).pcs && SameJob(s.pcs[a.t], Apply(s, a).pcs[a.t])
  {
  }

  lemma OwnLookupKept<K(!new), V>(s: State<K, V>, a: Action<K, V>)
    requires Enabled(s, a) && !a.InsertSampled? && a.t in s.pcs && !IsInvalidation(s.pcs[a.t])
    ensures a.t in Apply(s, a).pcs && SameJob(s.pcs[a.t], Apply(s, a).pcs[a.t])
  {
  }

  /** Others' steps leave a call alone, or wake it. */
  lemma OtherJobKept<K(!new), V>(s: State<K, V>, a: Action<K, V>, c: Tid)
    requires Enabled(s, a) && Actor(a) != Some(c) && c in Apply(s, a).pcs
    ensures c in s.pcs && SameJob(s.pcs[c], Apply(s, a).pcs[c])
  {
  }

  lemma JobsKept<K(!new), V>(s: State<K, V>, a: Action<K, V>, c: Tid)
    requires Enabled(s, a) && c in Apply(s, a).pcs
    ensures c in s.pcs ==> SameJob(s.pcs[c], Apply(s, a).pcs[c])
    ensures c !in s.pcs ==> Begins(a, c, Apply(s, a).pcs[c])
  {
    if Actor(a) != Some(c) {
      OtherJobKept(s, a, c);
    } else if c in s.pcs {
      OwnJobKept(s, a);
    }
  }

  lemma GenerationGrows<K, V>(s: State<K, V>, a: Action<K, V>)
    requires Enabled(s, a)
    ensures s.shared.generation <= Apply(s, a).shared.generation
  {
  }

  lemma CallsStay<K, V>(s: State<K, V>, a: Action<K, V>)
    requires Enabled(s, a)
    ensures s.pcs.Keys <= Apply(s, a).pcs.Keys
  {
  }
}
