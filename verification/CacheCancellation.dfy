/**
 What an invalidation does with the fetches it finds, from its first step to its
 last: those of the keys it is about are unregistered before it is over, those
 of other keys stay.
 */
module CacheCancellation {
  import opened Prelude
  import opened FifoStore
  import opened CacheState
  import opened CacheProtocol
  import opened CacheInvariants
  import opened CacheStored
  import opened CacheTheorems
  import opened CacheOverlap

  // ── invalidate_matching, step by step ───────────────────────────────────

  /** Its store step drops the matching keys and hands exactly them on to the
      in-flight step; without a match the invalidation is over. Fetches stay
      registered. */
  lemma MatchingKeysAreDoomed<K(!new), V>(max: Option<nat>, run: seq<Action<K, V>>, s: State<K, V>, t: Tid)
    requires Reached(max, run, s) && Enabled(s, DropStored(t)) && s.pcs[t].op.InvalidateMatching?
    requires !s.pcs[t].TookFlights?
    ensures var s' := DoDropStored(s, t);
      && s'.shared.inFlight == s.shared.inFlight && s'.revoked == s.revoked
      && (if forall k :: k in s.shared.store.entries ==> !s.pcs[t].op.p(s.shared.store.entries[k].value) then
            s'.pcs[t] == Invalidated(s.pcs[t].op, s.pcs[t].at) && s'.shared == s.shared
          else
            && s'.pcs[t].Removed? && s'.pcs[t].op == s.pcs[t].op && s'.pcs[t].at == s.pcs[t].at
            && forall k :: k in s'.pcs[t].doomed <==>
              k in s.shared.store.entries && s.pcs[t].op.p(s.shared.store.entries[k].value))
  {
    var gone := Victims(s.shared, s.pcs[t].op);
    if forall k :: k in s.shared.store.entries ==> !s.pcs[t].op.p(s.shared.store.entries[k].value) {
      assert gone == {};
    } else {
      var k :| k in s.shared.store.entries && s.pcs[t].op.p(s.shared.store.entries[k].value);
      assert k in gone;
    }
  }

  lemma DoomedOnlyAreRevoked<K(!new), V>(s: State<K, V>, t: Tid, u: nat)
    requires Enabled(s, TakeDoomed(t)) && u in DoTakeDoomed(s, t).revoked && u !in s.revoked
    ensures exists k :: k in s.pcs[t].doomed && Registered(s, k, u)
  {
    var k :| k in s.shared.inFlight && k in s.pcs[t].doomed && s.shared.inFlight[k].token == u;
    assert Registered(s, k, u);
  }

  /** Its in-flight step unregisters the fetches of the matched keys and takes
      their waiters over; fetches, calls and waiters of every other key, and the
      store, it leaves as they are. */
  lemma DoomedStepTakesOnlyDoomed<K(!new), V>(max: Option<nat>, run: seq<Action<K, V>>, s: State<K, V>, t: Tid, j: K)
    requires Reached(max, run, s) && Enabled(s, TakeDoomed(t))
    ensures var s' := DoTakeDoomed(s, t);
      && s'.shared.store == s.shared.store
      && (j !in s.pcs[t].doomed ==> Undisturbed(s, s', Some(t), j, j))
      && (j in s.pcs[t].doomed ==> j !in s'.shared.inFlight)
      && (j in s.pcs[t].doomed && j in s.shared.inFlight ==>
        && s'.pcs[t].Notifying? && j in s'.pcs[t].pending
        && s'.pcs[t].pending[j] == s.shared.inFlight[j].waiters)
  {
    ReachedInv(max, run, s);
    var s' := DoTakeDoomed(s, t);
    forall u | u in s'.revoked && u !in s.revoked
      ensures s.pcs[s.leaderOf[u]].key in s.pcs[t].doomed
    {
      DoomedOnlyAreRevoked(s, t, u);
    }
  }

  // ── From a registered fetch to the end of an invalidation ───────────────

  /** Invalidation `pc` has yet to go through the in-flight table, and will take
      the fetch of `k` from it. */
  predicate WillTake<K(==), V>(pc: Pc<K, V>, k: K) {
    || ((pc.Starting? || pc.Bumped?) && CancelsFetchOf(pc.op, k))
    || (pc.Removed? && k in pc.doomed)
  }

  /** The fetch of token `u` is gone, or about to be taken. */
  ghost predicate TakenByNow<K, V>(s: State<K, V>, t: Tid, k: K, u: nat) {
    && t in s.pcs && IsInvalidation(s.pcs[t]) && u <= s.shared.nextToken
    && (WillTake(s.pcs[t], k) || !Registered(s, k, u))
  }

  /** An unregistered token is never registered again. */
  lemma TokensDoNotReturn<K(!new), V>(s: State<K, V>, a: Action<K, V>, k: K, u: nat)
    requires Enabled(s, a) && u <= s.shared.nextToken && Registered(Apply(s, a), k, u)
    ensures Registered(s, k, u)
  {
  }

  lemma OwnStepTakes<K(!new), V>(s: State<K, V>, a: Action<K, V>, t: Tid, k: K)
    requires Enabled(s, a) && Actor(a) == Some(t) && t in s.pcs && WillTake(s.pcs[t], k)
    ensures t in Apply(s, a).pcs && IsInvalidation(Apply(s, a).pcs[t])
    ensures WillTake(Apply(s, a).pcs[t], k) || k !in Apply(s, a).shared.inFlight
  {
  }

  lemma OthersLeaveInvalidation<K(!new), V>(s: State<K, V>, a: Action<K, V>, t: Tid)
    requires Enabled(s, a) && Actor(a) != Some(t) && t in s.pcs && IsInvalidation(s.pcs[t])
    ensures t in Apply(s, a).pcs && Apply(s, a).pcs[t] == s.pcs[t]
  {
  }

  lemma OwnStepStaysInvalidation<K(!new), V>(s: State<K, V>, a: Action<K, V>, t: Tid)
    requires Enabled(s, a) && Actor(a) == Some(t) && t in s.pcs && IsInvalidation(s.pcs[t])
    ensures t in Apply(s, a).pcs && IsInvalidation(Apply(s, a).pcs[t])
  {
  }

  lemma TokensOnlyGrow<K(!new), V>(s: State<K, V>, a: Action<K, V>)
    requires Enabled(s, a)
    ensures s.shared.nextToken <= Apply(s, a).shared.nextToken
  {
  }

  lemma StepTakes<K(!new), V>(s: State<K, V>, a: Action<K, V>, t: Tid, k: K, u: nat)
    requires Enabled(s, a) && TakenByNow(s, t, k, u)
    ensures TakenByNow(Apply(s, a), t, k, u)
  {
    TokensOnlyGrow(s, a);
    if Actor(a) != Some(t) {
      OthersLeaveInvalidation(s, a, t);
    } else {
      OwnStepStaysInvalidation(s, a, t);
      if WillTake(s.pcs[t], k) {
        OwnStepTakes(s, a, t, k);
      }
    }
    if !WillTake(s.pcs[t], k) && Registered(Apply(s, a), k, u) {
      TokensDoNotReturn(s, a, k, u);
    }
  }

  lemma {:induction false} RunTakes<K(!new), V>(s: State<K, V>, run: seq<Action<K, V>>, t: Tid, k: K, u: nat)
    requires IsRun(s, run) && TakenByNow(s, t, k, u)
    ensures TakenByNow(After(s, run), t, k, u)
    decreases |run|
  {
    if run != [] {
      StepTakes(s, run[0], t, k, u);
      RunTakes(Apply(s, run[0]), run[1..], t, k, u);
    }
  }

  lemma UnclaimedIsRevoked<K(!new), V>(s: State<K, V>, c: Tid, k: K, u: nat)
    requires Inv(s) && c in s.pcs && Unclaimed(s.pcs[c]) && s.pcs[c].key == k && s.pcs[c].token == u
    requires !Registered(s, k, u)
    ensures u in s.revoked
  {
  }

  lemma RegisteredIsLed<K(!new), V>(s: State<K, V>, k: K)
    requires Inv(s) && k in s.shared.inFlight
    ensures var u := s.shared.inFlight[k].token;
      && u <= s.shared.nextToken && u in s.leaderOf && s.leaderOf[u] in s.pcs
      && IsLeader(s.pcs[s.leaderOf[u]]) && s.pcs[s.leaderOf[u]].key == k && s.pcs[s.leaderOf[u]].token == u
  {
  }

  lemma StillLed<K(!new), V>(s: State<K, V>, later: seq<Action<K, V>>, k: K)
    requires Inv(s) && k in s.shared.inFlight && IsRun(s, later)
    ensures var u := s.shared.inFlight[k].token; var e := After(s, later);
      && Inv(e) && u in s.leaderOf && s.leaderOf[u] in e.pcs
      && IsLeader(e.pcs[s.leaderOf[u]]) && e.pcs[s.leaderOf[u]].key == k && e.pcs[s.leaderOf[u]].token == u
  {
    RegisteredIsLed(s, k);
    RunKeepsLeader(s, later, s.leaderOf[s.shared.inFlight[k].token]);
    RunKeepsInv(s, later);
  }

  lemma TakenWhenOver<K(!new), V>(s: State<K, V>, later: seq<Action<K, V>>, t: Tid, k: K)
    requires Inv(s) && t in s.pcs && WillTake(s.pcs[t], k) && k in s.shared.inFlight
    requires IsRun(s, later) && t in After(s, later).pcs && After(s, later).pcs[t].Invalidated?
    ensures !Registered(After(s, later), k, s.shared.inFlight[k].token)
  {
    RegisteredIsLed(s, k);
    RunTakes(s, later, t, k, s.shared.inFlight[k].token);
  }

  /** A fetch registered when `invalidate` of its key or `clear` starts - or when
      `invalidate_matching` has matched its key - is no longer registered when the
      invalidation is over, whatever happens in between. If its leader has not
      claimed it by itself, its token is revoked. */
  lemma FinishedInvalidationTookFetch<K(!new), V>(
      max: Option<nat>, run: seq<Action<K, V>>, s: State<K, V>, later: seq<Action<K, V>>, t: Tid, k: K)
    requires Reached(max, run, s) && t in s.pcs && WillTake(s.pcs[t], k) && k in s.shared.inFlight
    requires IsRun(s, later) && t in After(s, later).pcs && After(s, later).pcs[t].Invalidated?
    ensures var u := s.shared.inFlight[k].token; var e := After(s, later);
      && (k in e.shared.inFlight ==> e.shared.inFlight[k].token != u)
      && u in s.leaderOf && s.leaderOf[u] in e.pcs && IsLeader(e.pcs[s.leaderOf[u]]) && e.pcs[s.leaderOf[u]].key == k
      && (Unclaimed(e.pcs[s.leaderOf[u]]) ==> u in e.revoked)
  {
    ReachedInv(max, run, s);
    StillLed(s, later, k);
    TakenWhenOver(s, later, t, k);
    var u := s.shared.inFlight[k].token;
    if Unclaimed(After(s, later).pcs[s.leaderOf[u]]) {
      UnclaimedIsRevoked(After(s, later), s.leaderOf[u], k, u);
    }
  }
}
