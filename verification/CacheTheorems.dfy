/**
 What holds in every run of the coalescing cache, however its calls interleave.
 */
module CacheTheorems {
  import opened Prelude
  import opened FifoStore
  import opened CacheState
  import opened CacheProtocol
  import opened CacheInvariants
  import opened CacheWaiters
  import opened CacheStored
  import opened CacheOutcomes

  ghost predicate Inv<K(!new), V>(s: State<K, V>) {
    TokenInv(s) && WaiterInv(s) && StoredInv(s) && OutcomeInv(s)
  }

  lemma InitInv<K(!new), V>(max: Option<nat>)
    ensures Inv(Init<K, V>(max))
  {
    var s := Init<K, V>(max);
    assert forall loc: Loc<K> :: ListAt(s, loc) == [];
    assert WaiterInv(s);
    assert StoredInv(s);
  }

  lemma InvKept<K(!new), V>(s: State<K, V>, a: Action<K, V>)
    requires Inv(s) && Enabled(s, a)
    ensures Inv(Apply(s, a))
  {
    TokenInvKept(s, a);
    WaiterInvKept(s, a);
    StoredInvKept(s, a);
    OutcomeInvKept(s, a);
  }

  lemma {:induction false} RunKeepsInv<K(!new), V>(s: State<K, V>, run: seq<Action<K, V>>)
    requires Inv(s) && IsRun(s, run)
    ensures Inv(After(s, run))
    decreases |run|
  {
    if run != [] {
      InvKept(s, run[0]);
      RunKeepsInv(Apply(s, run[0]), run[1..]);
    }
  }

  /** The state of a fresh cache after `run`. */
  ghost predicate Reached<K, V>(max: Option<nat>, run: seq<Action<K, V>>, s: State<K, V>) {
    IsRun(Init<K, V>(max), run) && After(Init<K, V>(max), run) == s
  }

  lemma ReachedInv<K(!new), V>(max: Option<nat>, run: seq<Action<K, V>>, s: State<K, V>)
    requires Reached(max, run, s)
    ensures Inv(s)
  {
    InitInv<K, V>(max);
    RunKeepsInv(Init(max), run);
  }

  // ── Waiters ─────────────────────────────────────────────────────────────

  /** An unresolved waiter is listed in exactly one place, once; the place is a
      registered fetch whose leader is live and has not claimed it and bears the
      waiter's token, or the hands of one call that has yet to send. */
  lemma WaiterHasOnePlace<K(!new), V>(max: Option<nat>, run: seq<Action<K, V>>, s: State<K, V>, w: Tid)
    returns (loc: Loc<K>)
    requires Reached(max, run, s) && w in s.pcs && s.pcs[w].Waiting?
    ensures w in ListAt(s, loc) && Distinct(ListAt(s, loc))
    ensures forall other :: w in ListAt(s, other) ==> other == loc
    ensures loc.key == s.pcs[w].key
    ensures loc.InEntry? ==>
      && Registered(s, loc.key, s.pcs[w].token)
      && s.pcs[w].token in s.leaderOf && s.leaderOf[s.pcs[w].token] in s.pcs
      && Unclaimed(s.pcs[s.leaderOf[s.pcs[w].token]])
    ensures loc.Held? ==>
      && loc.holder in s.pcs
      && loc.key in Pending(s.pcs[loc.holder])
      && w in Pending(s.pcs[loc.holder])[loc.key]
  {
    ReachedInv(max, run, s);
    assert Listed(s, w);
    loc :| w in ListAt(s, loc);
    assert Fits(s, loc, w);
  }

  /** A waiter that was answered is listed nowhere, so nobody answers it again. */
  lemma AnsweredOnce<K(!new), V>(max: Option<nat>, run: seq<Action<K, V>>, s: State<K, V>, w: Tid, loc: Loc<K>)
    requires Reached(max, run, s) && w in s.pcs && s.pcs[w].Woken?
    ensures w !in ListAt(s, loc)
  {
    ReachedInv(max, run, s);
    assert w in ListAt(s, loc) ==> Fits(s, loc, w);
  }

  /** A waiter ends with its own leader's outcome, or with a cancellation by
      that leader's drop guard or by an invalidation that revoked the token. No
      other leader ever answers it. */
  lemma AnswerIsOwnLeaders<K(!new), V>(max: Option<nat>, run: seq<Action<K, V>>, s: State<K, V>, w: Tid)
    requires Reached(max, run, s) && w in s.pcs && s.pcs[w].Woken?
    ensures s.pcs[w].waker in s.pcs && s.pcs[w].token in s.leaderOf
    ensures var pc := s.pcs[w]; var waker := s.pcs[pc.waker];
      || (Settled(waker) && s.leaderOf[pc.token] == pc.waker && waker.outcome == pc.outcome && !pc.outcome.Cancelled?)
      || ((waker.DropWaking? || waker.Dropped?) && s.leaderOf[pc.token] == pc.waker && pc.outcome == Cancelled(pc.key))
      || (IsInvalidation(waker) && pc.token in s.revoked && pc.outcome == Cancelled(pc.key))
  {
    ReachedInv(max, run, s);
    assert WokenOk(s, w);
    assert OutcomeFits(s.pcs[s.pcs[w].waker]);
  }

  // ── No waiter is stuck ──────────────────────────────────────────────────

  /** The call whose own next actions answer the waiters listed at `loc`. */
  ghost function Responsible<K, V>(s: State<K, V>, loc: Loc<K>): Tid {
    match loc
    case InEntry(k) =>
      if k in s.shared.inFlight && s.shared.inFlight[k].token in s.leaderOf
      then s.leaderOf[s.shared.inFlight[k].token] else 0
    case Held(c, _) => c
  }

  /** How many phases a call is from sending. */
  function Phase<K, V>(pc: Pc<K, V>): nat {
    match pc
    case Fetching(_, _) => 3
    case Fetched(_, _, _) => 2
    case Claimed(_, _, _, _) => 1
    case TookFlights(_, _, _) => 1
    case _ => 0
  }

  /** Position of `w` in a list. */
  function Position(ws: seq<Tid>, w: Tid): (i: nat)
    ensures i <= |ws|
    ensures w in ws ==> i < |ws| && ws[i] == w
  {
    if ws == [] || ws[0] == w then 0 else 1 + Position(ws[1..], w)
  }

  /** `s'` answered `w`, or is a phase or a position closer to doing so. */
  ghost predicate Closer<K, V>(s: State<K, V>, s': State<K, V>, w: Tid, loc: Loc<K>, loc': Loc<K>) {
    var c := Responsible(s, loc);
    && c in s.pcs && c in s'.pcs && w in s'.pcs
    && (s'.pcs[w].Woken? ||
        (&& s'.pcs[w].Waiting? && w in ListAt(s', loc') && Responsible(s', loc') == c
         && (Phase(s'.pcs[c]) < Phase(s.pcs[c]) ||
             (Phase(s'.pcs[c]) == Phase(s.pcs[c])
              && Position(ListAt(s', loc'), w) < Position(ListAt(s, loc), w)))))
  }

  ghost predicate ParkedAt<K(!new), V>(s: State<K, V>, w: Tid, loc: Loc<K>) {
    Inv(s) && w in s.pcs && s.pcs[w].Waiting? && w in ListAt(s, loc)
  }

  lemma FetchCloser<K(!new), V>(s: State<K, V>, w: Tid, k: K, r: Result<V, FetchError>)
    requires ParkedAt(s, w, InEntry(k)) && s.pcs[Responsible(s, InEntry(k))].Fetching?
    ensures var a := FetchReturns(Responsible(s, InEntry(k)), r);
      Enabled(s, a) && Closer(s, Apply(s, a), w, InEntry(k), InEntry(k))
  {
  }

  lemma ClaimCloser<K(!new), V>(s: State<K, V>, w: Tid, k: K)
    requires ParkedAt(s, w, InEntry(k)) && s.pcs[Responsible(s, InEntry(k))].Fetched?
    ensures var c := Responsible(s, InEntry(k));
      Enabled(s, Claim(c)) && Closer(s, DoClaim(s, c), w, InEntry(k), Held(c, k))
  {
  }

  lemma StoreCloser<K(!new), V>(s: State<K, V>, w: Tid, c: Tid, k: K)
    requires ParkedAt(s, w, Held(c, k)) && s.pcs[c].Claimed?
    ensures Closer(s, DoStore(s, c), w, Held(c, k), Held(c, k))
  {
  }

  lemma DropStoredCloser<K(!new), V>(s: State<K, V>, w: Tid, c: Tid, k: K)
    requires ParkedAt(s, w, Held(c, k)) && s.pcs[c].TookFlights?
    ensures Closer(s, DoDropStored(s, c), w, Held(c, k), Held(c, k))
  {
  }

  lemma SendCloser<K(!new), V>(s: State<K, V>, s': State<K, V>, w: Tid, c: Tid, k: K, o: Outcome<K, V>)
    requires ParkedAt(s, w, Held(c, k)) && Phase(s.pcs[c]) == 0
    requires Sends(s, s', Held(c, k)) && Phase(s'.pcs[c]) == 0
    requires ListAt(s, Held(c, k))[0] == w ==> s'.pcs[w].Woken?
    requires ListAt(s, Held(c, k))[0] != w ==> s'.pcs[w] == s.pcs[w]
    ensures Closer(s, s', w, Held(c, k), Held(c, k))
  {
    assert Fits(s, Held(c, k), w);
    var ws := ListAt(s, Held(c, k));
    assert ws == [ws[0]] + ws[1..];
  }

  lemma WakeCloser<K(!new), V>(s: State<K, V>, w: Tid, c: Tid, k: K)
    requires ParkedAt(s, w, Held(c, k)) && (s.pcs[c].Waking? || s.pcs[c].DropWaking?)
    ensures Closer(s, DoWake(s, c), w, Held(c, k), Held(c, k))
  {
    WakeSends(s, c);
    assert Fits(s, Held(c, k), ListAt(s, Held(c, k))[0]);
    SendCloser(s, DoWake(s, c), w, c, k, if s.pcs[c].Waking? then s.pcs[c].outcome else Cancelled(k));
  }

  lemma NotifyCloser<K(!new), V>(s: State<K, V>, w: Tid, c: Tid, k: K)
    requires ParkedAt(s, w, Held(c, k)) && s.pcs[c].Notifying?
    ensures Enabled(s, NotifyNext(c, k)) && Closer(s, DoNotify(s, c, k), w, Held(c, k), Held(c, k))
  {
    NotifySends(s, c, k);
    assert Fits(s, Held(c, k), ListAt(s, Held(c, k))[0]);
    SendCloser(s, DoNotify(s, c, k), w, c, k, Cancelled(k));
  }

  /** The next action of the responsible call, and where `w` is afterwards. */
  lemma NextCloser<K(!new), V>(s: State<K, V>, w: Tid, loc: Loc<K>, r: Result<V, FetchError>)
    returns (a: Action<K, V>, loc': Loc<K>)
    requires ParkedAt(s, w, loc)
    ensures Enabled(s, a) && Actor(a) == Some(Responsible(s, loc))
    ensures a.FetchReturns? ==> a.result == r
    ensures Closer(s, Apply(s, a), w, loc, loc')
  {
    var c := Responsible(s, loc);
    assert Fits(s, loc, w);
    loc' := loc;
    match loc
    case InEntry(k) =>
      if s.pcs[c].Fetching? {
        a := FetchReturns(c, r);
        FetchCloser(s, w, k, r);
      } else {
        a, loc' := Claim(c), Held(c, k);
        ClaimCloser(s, w, k);
      }
    case Held(_, k) =>
      if s.pcs[c].Claimed? {
        a := StoreValue(c);
        StoreCloser(s, w, c, k);
      } else if s.pcs[c].TookFlights? {
        a := DropStored(c);
        DropStoredCloser(s, w, c, k);
      } else if s.pcs[c].Notifying? {
        a := NotifyNext(c, k);
        NotifyCloser(s, w, c, k);
      } else {
        a := WakeNext(c);
        WakeCloser(s, w, c, k);
      }
  }

  /** From any state with a parked waiter, the responsible call alone - its
      fetch returning whatever it returns - reaches the waiter's answer. */
  lemma {:induction false} AnswerableFrom<K(!new), V>(s: State<K, V>, w: Tid, loc: Loc<K>, r: Result<V, FetchError>)
    returns (run: seq<Action<K, V>>)
    requires ParkedAt(s, w, loc) && Responsible(s, loc) in s.pcs
    ensures IsRun(s, run) && w in After(s, run).pcs && After(s, run).pcs[w].Woken?
    ensures forall a :: a in run ==> Actor(a) == Some(Responsible(s, loc))
    decreases Phase(s.pcs[Responsible(s, loc)]), Position(ListAt(s, loc), w)
  {
    var a, loc' := NextCloser(s, w, loc, r);
    var s' := Apply(s, a);
    if s'.pcs[w].Woken? {
      run := [a];
    } else {
      InvKept(s, a);
      var rest := AnswerableFrom(s', w, loc', r);
      run := [a] + rest;
      assert run[0] == a && run[1..] == rest;
    }
  }

  /** In every reachable state, one call can by itself answer a parked waiter:
      no run gets stuck with a waiter unresolved. */
  lemma NoWaiterStuck<K(!new), V>(max: Option<nat>, run: seq<Action<K, V>>, s: State<K, V>, w: Tid, r: Result<V, FetchError>)
    returns (c: Tid, rest: seq<Action<K, V>>)
    requires Reached(max, run, s) && w in s.pcs && s.pcs[w].Waiting?
    ensures c in s.pcs && rest != [] && IsRun(s, rest)
    ensures forall a :: a in rest ==> Actor(a) == Some(c)
    ensures w in After(s, rest).pcs && After(s, rest).pcs[w].Woken?
  {
    ReachedInv(max, run, s);
    assert Listed(s, w);
    var loc :| w in ListAt(s, loc);
    assert Fits(s, loc, w);
    c := Responsible(s, loc);
    rest := AnswerableFrom(s, w, loc, r);
  }

  // ── Leaders and invalidations ───────────────────────────────────────────

  /** Each registered fetch has its own token, led by its own live call. */
  lemma OneLeaderPerKey<K(!new), V>(max: Option<nat>, run: seq<Action<K, V>>, s: State<K, V>, k1: K, k2: K)
    requires Reached(max, run, s) && k1 in s.shared.inFlight && k2 in s.shared.inFlight
    ensures var t := s.shared.inFlight[k1].token;
      && t in s.leaderOf && s.leaderOf[t] in s.pcs
      && Unclaimed(s.pcs[s.leaderOf[t]]) && s.pcs[s.leaderOf[t]].key == k1 && s.pcs[s.leaderOf[t]].token == t
    ensures k1 != k2 ==> s.shared.inFlight[k1].token != s.shared.inFlight[k2].token
  {
    ReachedInv(max, run, s);
  }

  /** Two fetches of a key that nobody has claimed or revoked are one. */
  lemma OneLiveLeader<K(!new), V>(max: Option<nat>, run: seq<Action<K, V>>, s: State<K, V>, c1: Tid, c2: Tid)
    requires Reached(max, run, s) && LiveLeader(s, c1) && LiveLeader(s, c2) && s.pcs[c1].key == s.pcs[c2].key
    ensures c1 == c2
  {
    ReachedInv(max, run, s);
  }

  /** A fetch is under way, and no invalidation has cancelled it. */
  predicate LiveLeader<K, V>(s: State<K, V>, c: Tid) {
    c in s.pcs && Unclaimed(s.pcs[c]) && s.pcs[c].token !in s.revoked
  }

  /** A caller starts a fetch exactly when its key is not stored and no live
      fetch of it is under way; otherwise it takes what is stored, or waits on
      that fetch. */
  lemma LeadsIffNoLiveLeader<K(!new), V>(max: Option<nat>, run: seq<Action<K, V>>, s: State<K, V>, t: Tid)
    requires Reached(max, run, s) && Enabled(s, JoinOrLead(t))
    ensures var k := s.pcs[t].key; var pc := DoJoin(s, t).pcs[t];
      && (pc.Fetching? <==>
        k !in s.shared.store.entries && forall c :: LiveLeader(s, c) ==> s.pcs[c].key != k)
      && (pc.Returned? <==> k in s.shared.store.entries)
      && (pc.Waiting? <==>
        k !in s.shared.store.entries && exists c :: LiveLeader(s, c) && s.pcs[c].key == k && s.pcs[c].token == pc.token)
  {
    ReachedInv(max, run, s);
    var k := s.pcs[t].key;
    if k in s.shared.inFlight {
      assert LiveLeader(s, s.leaderOf[s.shared.inFlight[k].token]);
    }
  }

  /** Which registered tokens an action of an invalidation takes down. */
  lemma InvalidationRevokes<K(!new), V>(s: State<K, V>, t: Tid, k: K)
    requires Inv(s) && k in s.shared.inFlight && t in s.pcs
    ensures Enabled(s, TakeFlights(t)) && (s.pcs[t].op == InvalidateKey(k) || s.pcs[t].op == ClearAll) ==>
      s.shared.inFlight[k].token in DoTakeFlights(s, t).revoked && k !in DoTakeFlights(s, t).shared.inFlight
    ensures Enabled(s, TakeDoomed(t)) && k in s.pcs[t].doomed ==>
      s.shared.inFlight[k].token in DoTakeDoomed(s, t).revoked && k !in DoTakeDoomed(s, t).shared.inFlight
  {
  }

  /** A registered entry disappears only by its own leader's claim or drop, or
      by an invalidation that revokes its token; and a token once revoked stays
      so. */
  lemma EntriesGoOnlyByTakingOrRevoking<K(!new), V>(s: State<K, V>, a: Action<K, V>, k: K)
    requires TokenInv(s) && Enabled(s, a) && k in s.shared.inFlight
    ensures s.revoked <= Apply(s, a).revoked
    ensures var t := s.shared.inFlight[k].token;
      || Registered(Apply(s, a), k, t)
      || ((a.Claim? || a.DropLeader?) && a.t == s.leaderOf[t])
      || ((a.TakeFlights? || a.TakeDoomed?) && t in Apply(s, a).revoked)
  {
    if !a.JoinOrLead? && !a.Claim? && !a.DropLeader? && !a.TakeFlights? && !a.TakeDoomed? {
      ActionKeepsRoles(s, a);
    }
  }

  lemma {:induction false} RevokedStays<K(!new), V>(s: State<K, V>, run: seq<Action<K, V>>)
    requires Inv(s) && IsRun(s, run)
    ensures s.revoked <= After(s, run).revoked
    decreases |run|
  {
    if run != [] {
      InvKept(s, run[0]);
      StepKeepsRevoked(s, run[0]);
      RevokedStays(Apply(s, run[0]), run[1..]);
    }
  }

  lemma StepKeepsRevoked<K(!new), V>(s: State<K, V>, a: Action<K, V>)
    requires Enabled(s, a)
    ensures s.revoked <= Apply(s, a).revoked
  {
  }

  /** A leader whose entry an invalidation took away before its claim never
      stores: from then on no stored value bears its token. */
  lemma RevokedLeaderNeverStores<K(!new), V>(
      max: Option<nat>, run: seq<Action<K, V>>, s: State<K, V>, later: seq<Action<K, V>>, token: nat, k: K)
    requires Reached(max, run, s) && token in s.revoked && IsRun(s, later)
    requires k in After(s, later).shared.store.entries
    ensures After(s, later).shared.store.entries[k].origin != ByLeader(token)
  {
    ReachedInv(max, run, s);
    RunKeepsInv(s, later);
    RevokedStays(s, later);
    assert OriginOk(After(s, later), k);
  }

  /** An error is never cached: a stored value that a leader put there is the
      value that leader fetched for that key. */
  lemma StoredByLeaderIsFetched<K(!new), V>(max: Option<nat>, run: seq<Action<K, V>>, s: State<K, V>, k: K)
    requires Reached(max, run, s) && k in s.shared.store.entries && s.shared.store.entries[k].origin.ByLeader?
    ensures var e := s.shared.store.entries[k]; var t := e.origin.token;
      && t in s.leaderOf && s.leaderOf[t] in s.pcs && Settled(s.pcs[s.leaderOf[t]])
      && s.pcs[s.leaderOf[t]].key == k && s.pcs[s.leaderOf[t]].result == Ok(e.value)
  {
    ReachedInv(max, run, s);
    assert OriginOk(s, k);
  }

  /** After an invalidation's store step, no value it covers is stored through
      `insert_if_current` with a sample taken before the bump - ever again. */
  lemma InvalidationHolds<K(!new), V>(max: Option<nat>, run: seq<Action<K, V>>, s: State<K, V>, c: Tid, k: K)
    requires Reached(max, run, s) && c in s.pcs && PastStore(s.pcs[c])
    requires k in s.shared.store.entries && Covers(s.pcs[c].op, k, s.shared.store.entries[k].value)
    ensures match s.shared.store.entries[k].origin
      case ByInsert(observed) => s.pcs[c].at <= observed
      case ByLeader(token) => token !in s.revoked
  {
    ReachedInv(max, run, s);
    assert Barred(s, s.pcs[c].op, s.pcs[c].at);
    assert OriginOk(s, k);
  }

  /** The store step of an invalidation leaves nothing it covers, whoever put
      it there, and removes nothing else. */
  lemma StoreStepIsExact<K(!new), V>(max: Option<nat>, run: seq<Action<K, V>>, s: State<K, V>, t: Tid, k: K)
    requires Reached(max, run, s) && Enabled(s, DropStored(t))
    ensures var s' := DoDropStored(s, t);
      k in s'.shared.store.entries <==>
      k in s.shared.store.entries && !Covers(s.pcs[t].op, k, s.shared.store.entries[k].value)
    ensures var s' := DoDropStored(s, t);
      k in s'.shared.store.entries ==> s'.shared.store.entries[k] == s.shared.store.entries[k]
  {
    ReachedInv(max, run, s);
    DropStoredRemoves(s, t);
  }

  /** What a leader hands out. With its slot and a fetched value, the value that
      was stored already if there was one, else its own; either way the one that
      is stored under the key right afterwards, unless the bound is zero. Without
      its slot, or with an error, its own result, and the store stays as it is. */
  lemma LeaderAnswersWithStored<K(!new), V>(max: Option<nat>, run: seq<Action<K, V>>, s: State<K, V>, t: Tid)
    requires Reached(max, run, s) && Enabled(s, StoreValue(t))
    ensures var pc := s.pcs[t]; var s' := DoStore(s, t); var entries := s.shared.store.entries;
      if pc.claim.None? || pc.result.Err? then
        && s'.shared == s.shared
        && (if pc.claim.None? then s'.pcs[t].Led? else s'.pcs[t].Waking? && s'.pcs[t].waiters == pc.claim.value)
        && s'.pcs[t].outcome == (match pc.result case Ok(v) => Value(v) case Err(e) => Failed(e))
      else
        && s'.pcs[t].Waking? && s'.pcs[t].waiters == pc.claim.value
        && s'.pcs[t].outcome == Value(if pc.key in entries then entries[pc.key].value else pc.result.value)
        && (pc.key in entries ==> s'.shared == s.shared)
        && (max != Some(0) ==>
          && pc.key in s'.shared.store.entries
          && s'.pcs[t].outcome == Value(s'.shared.store.entries[pc.key].value))
  {
    ReachedInv(max, run, s);
    MaxKept(Init<K, V>(max), run);
    var pc := s.pcs[t];
    if pc.claim.Some? && pc.result.Ok? {
      InsertEntries(s.shared.store, s.shared.max, pc.key, Stamped(pc.result.value, ByLeader(pc.token)));
    }
  }

  // ── Keys do not disturb one another ─────────────────────────────────────

  /** The action works on `k`, on behalf of a call for `k`. */
  predicate WorksFor<K(==), V>(s: State<K, V>, a: Action<K, V>, k: K)
    requires Enabled(s, a)
  {
    match a
    case CallGet(_, key) => key == k
    case InsertSampled(key, _, _) => key == k
    case CallInvalidate(_, op) => op.InvalidateKey? && op.key == k
    case NotifyNext(_, key) => key == k
    case _ =>
      if IsInvalidation(s.pcs[a.t]) then s.pcs[a.t].op.InvalidateKey? && s.pcs[a.t].op.key == k
      else s.pcs[a.t].key == k
  }

  /** Storing `k` overflowed a full store, whose oldest entry was that of `j`. */
  ghost predicate Overflows<K, V>(s: State<K, V>, s': State<K, V>, k: K, j: K) {
    && k !in s.shared.store.entries
    && s.shared.max == Some(|s.shared.store.order|) && s.shared.store.order != []
    && s.shared.store.order[0] == j
    && s'.shared.store.order == s.shared.store.order[1..] + [k]
  }

  /** Key `j` keeps its registered fetch, its calls and its revocations; its
      entry stays as it is unless storing `k` overflows the bound. */
  ghost predicate Undisturbed<K(!new), V>(s: State<K, V>, s': State<K, V>, t: Option<Tid>, k: K, j: K) {
    && (j in s.shared.inFlight <==> j in s'.shared.inFlight)
    && (j in s.shared.inFlight ==> s'.shared.inFlight[j] == s.shared.inFlight[j])
    && (forall c :: c in s.pcs && t != Some(c) && !IsInvalidation(s.pcs[c]) && s.pcs[c].key == j ==>
      c in s'.pcs && s'.pcs[c] == s.pcs[c])
    && (forall u :: u in s.leaderOf && s.leaderOf[u] in s.pcs && IsLeader(s.pcs[s.leaderOf[u]]) ==>
      s.pcs[s.leaderOf[u]].key == j && u in s'.revoked ==> u in s.revoked)
    && (j in s'.shared.store.entries ==>
      j in s.shared.store.entries && s'.shared.store.entries[j] == s.shared.store.entries[j])
    && (j in s.shared.store.entries && j !in s'.shared.store.entries ==> Overflows(s, s', k, j))
  }

  lemma SendDisturbsNoOtherKey<K(!new), V>(s: State<K, V>, s': State<K, V>, t: Tid, w: Tid, o: Outcome<K, V>, k: K, j: K)
    requires w in s.pcs && IsParked(s.pcs[w]) && s.pcs[w].key == k && j != k
    requires t in s'.pcs && s' == Goto(s.(pcs := Send(s.pcs, w, o, t)), t, s'.pcs[t])
    ensures Undisturbed(s, s', Some(t), k, j)
  {
  }

  lemma SendsDisturbNoOtherKey<K(!new), V>(s: State<K, V>, a: Action<K, V>, k: K, j: K)
    requires ListsFit(s) && Enabled(s, a) && WorksFor(s, a, k) && j != k && IsSend(a)
    ensures Undisturbed(s, Apply(s, a), Actor(a), k, j)
  {
    var s' := Apply(s, a);
    var pc := s.pcs[a.t];
    var ws := if a.WakeNext? then pc.waiters else pc.pending[k];
    if ws != [] {
      assert ListAt(s, Held(a.t, k)) == ws;
      assert Fits(s, Held(a.t, k), ws[0]);
      SendDisturbsNoOtherKey(s, s', a.t, ws[0], if pc.Waking? then pc.outcome else Cancelled(k), k, j);
    }
  }

  lemma InsertDisturbsNoOtherKey<K(!new), V>(s: State<K, V>, sh: Shared<K, Stamped<V>>, k: K, e: Stamped<V>, j: K)
    requires ValidStore(s.shared) && j != k
    requires sh == s.shared.(store := InsertLocked(s.shared.store, s.shared.max, k, e))
    ensures Undisturbed(s, s.(shared := sh), None, k, j)
  {
    InsertEntries(s.shared.store, s.shared.max, k, e);
    if j in s.shared.store.entries && j !in sh.store.entries {
      InsertEvictsOldest(s.shared.store, s.shared.max, k, e, j);
    }
  }

  lemma StoresDisturbNoOtherKey<K(!new), V>(s: State<K, V>, a: Action<K, V>, k: K, j: K)
    requires Inv(s) && Enabled(s, a) && WorksFor(s, a, k) && j != k
    requires a.StoreValue? || a.InsertSampled?
    ensures Undisturbed(s, Apply(s, a), Actor(a), k, j)
  {
    var sh := Apply(s, a).shared;
    if a.InsertSampled? {
      if sh != s.shared {
        InsertDisturbsNoOtherKey(s, sh, k, Stamped(a.value, ByInsert(a.observed)), j);
      }
    } else if s.pcs[a.t].claim.Some? && s.pcs[a.t].result.Ok? && k !in s.shared.store.entries {
      InsertDisturbsNoOtherKey(s, sh, k, Stamped(s.pcs[a.t].result.value, ByLeader(s.pcs[a.t].token)), j);
    }
  }

  lemma RevokesDisturbNoOtherKey<K(!new), V>(s: State<K, V>, t: Tid, k: K, j: K)
    requires Inv(s) && Enabled(s, TakeFlights(t)) && WorksFor(s, TakeFlights(t), k) && j != k
    ensures Undisturbed(s, DoTakeFlights(s, t), Some(t), k, j)
  {
    var s' := DoTakeFlights(s, t);
    forall u | u in s'.revoked && u !in s.revoked
      ensures s.pcs[s.leaderOf[u]].key == k
    {
      assert k in s.shared.inFlight && s.shared.inFlight[k].token == u;
    }
  }

  lemma SectionsDisturbNoOtherKey<K(!new), V>(s: State<K, V>, a: Action<K, V>, k: K, j: K)
    requires Enabled(s, a) && WorksFor(s, a, k) && j != k
    requires (IsLocal(a) && !a.InsertSampled?) || a.JoinOrLead? || a.Claim? || a.DropLeader? || a.DropStored?
    ensures Undisturbed(s, Apply(s, a), Actor(a), k, j)
  {
  }

  /** Fetching, dropping or invalidating one key never affects another. */
  lemma OtherKeysUndisturbed<K(!new), V>(
      max: Option<nat>, run: seq<Action<K, V>>, s: State<K, V>, a: Action<K, V>, k: K, j: K)
    requires Reached(max, run, s) && Enabled(s, a) && WorksFor(s, a, k) && j != k && !a.TakeDoomed?
    ensures Undisturbed(s, Apply(s, a), Actor(a), k, j)
  {
    ReachedInv(max, run, s);
    if IsSend(a) {
      SendsDisturbNoOtherKey(s, a, k, j);
    } else if a.StoreValue? || a.InsertSampled? {
      StoresDisturbNoOtherKey(s, a, k, j);
    } else if a.TakeFlights? {
      RevokesDisturbNoOtherKey(s, a.t, k, j);
    } else {
      SectionsDisturbNoOtherKey(s, a, k, j);
    }
  }

  // ── The bound ───────────────────────────────────────────────────────────

  /** The bound holds in every reachable state. */
  lemma BoundHolds<K(!new), V>(max: nat, run: seq<Action<K, V>>, s: State<K, V>)
    requires Reached(Some(max), run, s)
    ensures |s.shared.store.entries| <= max
    ensures Distinct(s.shared.store.order) && Elements(s.shared.store.order) == s.shared.store.entries.Keys
  {
    ReachedInv(Some(max), run, s);
    MaxKept(Init<K, V>(Some(max)), run);
    DistinctSize(s.shared.store.order);
    assert |s.shared.store.entries| == |s.shared.store.entries.Keys|;
  }

  lemma StepKeepsMax<K(!new), V>(s: State<K, V>, a: Action<K, V>)
    requires Enabled(s, a)
    ensures Apply(s, a).shared.max == s.shared.max
  {
  }

  lemma {:induction false} MaxKept<K(!new), V>(s: State<K, V>, run: seq<Action<K, V>>)
    requires IsRun(s, run)
    ensures After(s, run).shared.max == s.shared.max
    decreases |run|
  {
    if run != [] {
      StepKeepsMax(s, run[0]);
      MaxKept(Apply(s, run[0]), run[1..]);
    }
  }

  // ── The window between claim and store ──────────────────────────────────

  lemma Prepend<K, V>(s: State<K, V>, a: Action<K, V>, rest: seq<Action<K, V>>)
    requires Enabled(s, a) && IsRun(Apply(s, a), rest)
    ensures IsRun(s, [a] + rest) && After(s, [a] + rest) == After(Apply(s, a), rest)
  {
    assert ([a] + rest)[1..] == rest;
  }

  lemma {:induction false} Concat<K, V>(s: State<K, V>, run: seq<Action<K, V>>, rest: seq<Action<K, V>>)
    requires IsRun(s, run) && IsRun(After(s, run), rest)
    ensures IsRun(s, run + rest) && After(s, run + rest) == After(After(s, run), rest)
    decreases |run|
  {
    if run == [] {
      assert run + rest == rest;
    } else {
      Concat(Apply(s, run[0]), run[1..], rest);
      assert run + rest == [run[0]] + (run[1..] + rest);
      Prepend(s, run[0], run[1..] + rest);
    }
  }

  /** Call 0 holds its slot on key 7 and is about to store the value 70. */
  function AboutToStore(): State<nat, int> {
    State(Shared(Store(map[], []), Some(4), 1, 0, map[]), map[0 := Claimed(7, 1, Ok(70), Some([]))], map[1 := 0], {})
  }

  /** The same, after call 1 ran `invalidate(7)` from start to end. */
  function InvalidatedMeanwhile(): State<nat, int> {
    State(Shared(Store(map[], []), Some(4), 1, 1, map[]),
      map[0 := Claimed(7, 1, Ok(70), Some([])), 1 := Invalidated(InvalidateKey(7), 1)], map[1 := 0], {})
  }

  lemma ReachAboutToStore() returns (run: seq<Action<nat, int>>)
    ensures IsRun(Init(Some(4)), run) && After(Init(Some(4)), run) == AboutToStore()
    ensures |run| == 5 && run[4] == Claim(0)
  {
    var s0 := Init<nat, int>(Some(4));
    var s1 := Goto(s0, 0, FastReading(7));
    var s2 := Goto(s1, 0, Joining(7));
    var s3 := DoJoin(s2, 0);
    var s4 := Goto(s3, 0, Fetched(7, 1, Ok(70)));
    assert s3.pcs[0] == Fetching(7, 1);
    assert s3.leaderOf == map[1 := 0] && s3.shared.inFlight == map[7 := InFlight(1, [])];
    assert DoClaim(s4, 0) == AboutToStore() by {
      assert s4.shared.inFlight - {7} == map[];
      assert DoClaim(s4, 0).pcs == AboutToStore().pcs;
    }
    run := [];
    Prepend(s4, Claim(0), run); run := [Claim(0)] + run;
    Prepend(s3, FetchReturns(0, Ok(70)), run); run := [FetchReturns(0, Ok(70))] + run;
    Prepend(s2, JoinOrLead(0), run); run := [JoinOrLead(0)] + run;
    Prepend(s1, FastRead(0), run); run := [FastRead(0)] + run;
    Prepend(s0, CallGet(0, 7), run); run := [CallGet(0, 7)] + run;
  }

  lemma InvalidateInTheWindow() returns (run: seq<Action<nat, int>>)
    ensures IsRun(AboutToStore(), run) && After(AboutToStore(), run) == InvalidatedMeanwhile()
    ensures |run| == 5 && run[0] == CallInvalidate(1, InvalidateKey(7)) && run[4] == FinishNotifying(1)
  {
    var op: Op<nat, int> := InvalidateKey(7);
    var s0 := AboutToStore();
    var s1 := Goto(s0, 1, Starting(op));
    var s2 := Goto(s0.(shared := Bump(s0.shared)), 1, Bumped(op, 1));
    var s3 := Goto(s2, 1, TookFlights(op, 1, map[]));
    var s4 := Goto(s2, 1, Notifying(op, 1, map[]));
    assert Apply(s1, BumpCounter(1)).pcs == s2.pcs;
    assert Revoke(s2, {7}).1 == map[];
    assert DoTakeFlights(s2, 1) == s3;
    assert RemoveKeys(s0.shared.store, {7}) == s0.shared.store;
    assert DoDropStored(s3, 1).pcs == s4.pcs;
    assert Goto(s4, 1, Invalidated(op, 1)).pcs == InvalidatedMeanwhile().pcs;
    run := [];
    Prepend(s4, FinishNotifying(1), run); run := [FinishNotifying(1)] + run;
    Prepend(s3, DropStored(1), run); run := [DropStored(1)] + run;
    Prepend(s2, TakeFlights(1), run); run := [TakeFlights(1)] + run;
    Prepend(s1, BumpCounter(1), run); run := [BumpCounter(1)] + run;
    Prepend(s0, CallInvalidate(1, op), run); run := [CallInvalidate(1, op)] + run;
  }

  /** The documentation says that no completed invalidation is undone by a fetch
      it overlapped. Not so between a leader's claim and its store, when neither
      lock is held: here `invalidate(7)` runs from start to end in that window,
      and the value is stored afterwards. */
  lemma InvalidateCanBeOvertaken() returns (run: seq<Action<nat, int>>, s: State<nat, int>)
    ensures Reached(Some(4), run, s)
    ensures |run| == 11 && run[4] == Claim(0) && run[10] == StoreValue(0)
    ensures run[5] == CallInvalidate(1, InvalidateKey(7)) && run[9] == FinishNotifying(1)
    ensures 1 in s.pcs && s.pcs[1] == Invalidated(InvalidateKey(7), 1)
    ensures s.shared.store.entries == map[7 := Stamped(70, ByLeader(1))]
  {
    var first := ReachAboutToStore();
    var second := InvalidateInTheWindow();
    s := DoStore(InvalidatedMeanwhile(), 0);
    assert s.shared.store == InsertLocked(Store(map[], []), Some(4), 7, Stamped(70, ByLeader(1)));
    Prepend(InvalidatedMeanwhile(), StoreValue(0), []);
    Concat(AboutToStore(), second, [StoreValue(0)] + []);
    Concat(Init(Some(4)), first, second + ([StoreValue(0)] + []));
    run := first + (second + ([StoreValue(0)] + []));
  }

  /** Exactly when the promise holds: a leader gets its slot back, and so may
      store, just when no invalidation revoked its token before its claim. */
  lemma ClaimSucceedsIffNotRevoked<K(!new), V>(max: Option<nat>, run: seq<Action<K, V>>, s: State<K, V>, t: Tid)
    requires Reached(max, run, s) && Enabled(s, Claim(t))
    ensures DoClaim(s, t).pcs[t].claim.Some? <==> s.pcs[t].token !in s.revoked
    ensures DoClaim(s, t).pcs[t].claim.None? ==> DoClaim(s, t).shared == s.shared
  {
    ReachedInv(max, run, s);
  }
}
