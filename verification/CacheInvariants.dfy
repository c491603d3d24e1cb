/** What every action of the coalescing cache keeps. */
module CacheInvariants {
  import opened Prelude
  import opened FifoStore
  import opened CacheState
  import opened CacheProtocol

  // ── Tokens ──────────────────────────────────────────────────────────────

  ghost predicate Registered<K, V>(s: State<K, V>, k: K, token: nat) {
    k in s.shared.inFlight && s.shared.inFlight[k].token == token
  }

  /** A token names one leader for good, and that leader bears it. */
  ghost predicate LeadersOk<K, V>(s: State<K, V>) {
    && (forall t :: t in s.leaderOf ==>
      && t <= s.shared.nextToken
      && s.leaderOf[t] in s.pcs
      && IsLeader(s.pcs[s.leaderOf[t]])
      && s.pcs[s.leaderOf[t]].token == t)
    && (forall c :: c in s.pcs && IsLeader(s.pcs[c]) ==>
      s.pcs[c].token in s.leaderOf && s.leaderOf[s.pcs[c].token] == c)
    && (forall t :: t in s.revoked ==> t in s.leaderOf)
  }

  /** A registered entry belongs to a live leader that has not claimed it; an
      unclaimed leader without its entry lost it to an invalidation. */
  ghost predicate EntriesOk<K(!new), V>(s: State<K, V>) {
    && (forall k :: k in s.shared.inFlight ==>
      var t := s.shared.inFlight[k].token;
      && t in s.leaderOf
      && s.leaderOf[t] in s.pcs
      && Unclaimed(s.pcs[s.leaderOf[t]])
      && s.pcs[s.leaderOf[t]].key == k
      && t !in s.revoked)
    && (forall c :: c in s.pcs && Unclaimed(s.pcs[c]) ==>
      s.pcs[c].token in s.revoked || Registered(s, s.pcs[c].key, s.pcs[c].token))
  }

  /** Did the leader's claim (or its drop guard) get the slot? */
  predicate GotSlot<K, V>(pc: Pc<K, V>) {
    (pc.Claimed? && pc.claim.Some?) || pc.Waking? || pc.DropWaking?
  }

  predicate IsWaiter<K, V>(pc: Pc<K, V>) {
    pc.Waiting? || pc.Woken? || pc.Abandoned?
  }

  /** Slots are got only by leaders that were never invalidated; a waiter waits
      on a leader of its own key. */
  ghost predicate RolesOk<K, V>(s: State<K, V>) {
    && (forall c :: c in s.pcs && GotSlot(s.pcs[c]) ==> s.pcs[c].token !in s.revoked)
    && (forall c :: c in s.pcs && IsWaiter(s.pcs[c]) ==>
      && s.pcs[c].token in s.leaderOf
      && s.leaderOf[s.pcs[c].token] in s.pcs
      && IsLeader(s.pcs[s.leaderOf[s.pcs[c].token]])
      && s.pcs[s.leaderOf[s.pcs[c].token]].key == s.pcs[c].key)
  }

  ghost predicate TokenInv<K(!new), V>(s: State<K, V>) {
    LeadersOk(s) && EntriesOk(s) && RolesOk(s)
  }

  /** Nothing the token invariants look at differs between two counters. */
  predicate SameRole<K, V>(pc: Pc<K, V>, pc': Pc<K, V>) {
    && IsLeader(pc) == IsLeader(pc') && IsWaiter(pc) == IsWaiter(pc')
    && (IsLeader(pc) || IsWaiter(pc) ==> pc.key == pc'.key && pc.token == pc'.token)
    && Unclaimed(pc) == Unclaimed(pc')
    && (GotSlot(pc') ==> GotSlot(pc))
  }

  predicate NoRole<K, V>(pc: Pc<K, V>) {
    !IsLeader(pc) && !IsWaiter(pc)
  }

  /** Call `c` moves on within its role, starts out with none, or starts to wait
      on a registered fetch of its key. */
  ghost predicate MovesWithinRole<K, V>(s: State<K, V>, s': State<K, V>, c: Tid)
    requires c in s'.pcs
  {
    var pc' := s'.pcs[c];
    || (c in s.pcs && SameRole(s.pcs[c], pc'))
    || ((c in s.pcs ==> NoRole(s.pcs[c])) && NoRole(pc'))
    || ((c in s.pcs ==> NoRole(s.pcs[c])) && pc'.Waiting? && Registered(s, pc'.key, pc'.token))
  }

  /** Every call moves within its role and no token changes hands. */
  ghost predicate KeepsRoles<K(!new), V>(s: State<K, V>, s': State<K, V>) {
    && s'.shared.nextToken == s.shared.nextToken
    && s'.leaderOf == s.leaderOf && s'.revoked == s.revoked
    && s'.shared.inFlight.Keys == s.shared.inFlight.Keys
    && (forall k :: k in s.shared.inFlight ==> s'.shared.inFlight[k].token == s.shared.inFlight[k].token)
    && s.pcs.Keys <= s'.pcs.Keys
    && (forall c :: c in s'.pcs ==> MovesWithinRole(s, s', c))
  }

  lemma RolesKeepTokens<K(!new), V>(s: State<K, V>, s': State<K, V>)
    requires TokenInv(s) && KeepsRoles(s, s')
    ensures TokenInv(s')
  {
    RolesKeepLeaders(s, s');
    RolesKeepEntries(s, s');
    RolesKeepRoles(s, s');
  }

  lemma RolesKeepLeaders<K(!new), V>(s: State<K, V>, s': State<K, V>)
    requires LeadersOk(s) && KeepsRoles(s, s')
    ensures LeadersOk(s')
  {
    assert forall c :: c in s.pcs ==> MovesWithinRole(s, s', c);
  }

  lemma RolesKeepEntries<K(!new), V>(s: State<K, V>, s': State<K, V>)
    requires LeadersOk(s) && EntriesOk(s) && KeepsRoles(s, s')
    ensures EntriesOk(s')
  {
    assert forall c :: c in s.pcs ==> MovesWithinRole(s, s', c);
  }

  lemma RolesKeepRoles<K(!new), V>(s: State<K, V>, s': State<K, V>)
    requires TokenInv(s) && KeepsRoles(s, s')
    ensures RolesOk(s')
  {
    assert forall c :: c in s.pcs ==> MovesWithinRole(s, s', c);
  }

  /** Actions of one call that touch neither the in-flight table nor a channel. */
  predicate IsLocal<K, V>(a: Action<K, V>) {
    || a.CallGet? || a.FastRead? || a.FetchReturns? || a.DropWaiter? || a.InsertSampled?
    || a.CallInvalidate? || a.BumpCounter? || a.FinishNotifying?
  }

  /** One call moves to `pc` within its role; the store and the generation may
      change with it. */
  lemma MoveKeepsRoles<K(!new), V>(s: State<K, V>, sh: Shared<K, Stamped<V>>, t: Tid, pc: Pc<K, V>)
    requires sh.nextToken == s.shared.nextToken && sh.inFlight == s.shared.inFlight
    requires (t in s.pcs && SameRole(s.pcs[t], pc)) || ((t in s.pcs ==> NoRole(s.pcs[t])) && NoRole(pc))
    ensures KeepsRoles(s, Goto(s.(shared := sh), t, pc))
  {
  }

  lemma InsertKeepsRoles<K(!new), V>(s: State<K, V>, k: K, v: V, g: nat)
    requires Enabled(s, InsertSampled(k, v, g))
    ensures KeepsRoles(s, Apply(s, InsertSampled(k, v, g)))
  {
  }

  lemma LookupKeepsRoles<K(!new), V>(s: State<K, V>, a: Action<K, V>)
    requires Enabled(s, a) && (a.CallGet? || a.FastRead? || a.FetchReturns? || a.DropWaiter?)
    ensures KeepsRoles(s, Apply(s, a))
  {
    MoveKeepsRoles(s, s.shared, a.t, Apply(s, a).pcs[a.t]);
  }

  lemma InvalidationKeepsRoles<K(!new), V>(s: State<K, V>, a: Action<K, V>)
    requires Enabled(s, a) && (a.CallInvalidate? || a.BumpCounter? || a.FinishNotifying?)
    ensures KeepsRoles(s, Apply(s, a))
  {
    MoveKeepsRoles(s, Apply(s, a).shared, a.t, Apply(s, a).pcs[a.t]);
  }

  lemma LocalKeepsRoles<K(!new), V>(s: State<K, V>, a: Action<K, V>)
    requires Enabled(s, a) && IsLocal(a)
    ensures KeepsRoles(s, Apply(s, a))
  {
    if a.InsertSampled? {
      InsertKeepsRoles(s, a.key, a.value, a.observed);
    } else if a.CallInvalidate? || a.BumpCounter? || a.FinishNotifying? {
      InvalidationKeepsRoles(s, a);
    } else {
      LookupKeepsRoles(s, a);
    }
  }

  lemma StoreKeepsRoles<K(!new), V>(s: State<K, V>, t: Tid)
    requires Enabled(s, StoreValue(t))
    ensures KeepsRoles(s, DoStore(s, t))
  {
    assert SameRole(s.pcs[t], DoStore(s, t).pcs[t]);
  }

  lemma WakeKeepsRoles<K(!new), V>(s: State<K, V>, t: Tid)
    requires Enabled(s, WakeNext(t))
    ensures KeepsRoles(s, DoWake(s, t))
  {
    assert SameRole(s.pcs[t], DoWake(s, t).pcs[t]);
  }

  lemma DropStoredKeepsRoles<K(!new), V>(s: State<K, V>, t: Tid)
    requires Enabled(s, DropStored(t))
    ensures KeepsRoles(s, DoDropStored(s, t))
  {
    MoveKeepsRoles(s, DoDropStored(s, t).shared, t, DoDropStored(s, t).pcs[t]);
  }

  lemma NotifyKeepsRoles<K(!new), V>(s: State<K, V>, t: Tid, k: K)
    requires Enabled(s, NotifyNext(t, k))
    ensures KeepsRoles(s, DoNotify(s, t, k))
  {
  }

  lemma JoinKeepsRoles<K(!new), V>(s: State<K, V>, t: Tid)
    requires Enabled(s, JoinOrLead(t))
    requires s.pcs[t].key in s.shared.store.entries || s.pcs[t].key in s.shared.inFlight
    ensures KeepsRoles(s, DoJoin(s, t))
  {
  }

  lemma LeadKeepsLeaders<K(!new), V>(s: State<K, V>, t: Tid)
    requires LeadersOk(s) && Enabled(s, JoinOrLead(t))
    requires s.pcs[t].key !in s.shared.inFlight && s.pcs[t].key !in s.shared.store.entries
    ensures LeadersOk(DoJoin(s, t)) && s.shared.nextToken + 1 !in s.leaderOf
  {
    assert DoJoin(s, t).leaderOf == s.leaderOf[s.shared.nextToken + 1 := t];
  }

  lemma LeadKeepsEntries<K(!new), V>(s: State<K, V>, t: Tid)
    requires LeadersOk(s) && EntriesOk(s) && Enabled(s, JoinOrLead(t))
    requires s.pcs[t].key !in s.shared.inFlight && s.pcs[t].key !in s.shared.store.entries
    ensures EntriesOk(DoJoin(s, t))
  {
    var s' := DoJoin(s, t);
    LeadKeepsLeaders(s, t);
    assert s'.shared.inFlight == s.shared.inFlight[s.pcs[t].key := InFlight(s.shared.nextToken + 1, [])];
  }

  lemma LeadKeepsTokens<K(!new), V>(s: State<K, V>, t: Tid)
    requires TokenInv(s) && Enabled(s, JoinOrLead(t))
    requires s.pcs[t].key !in s.shared.inFlight && s.pcs[t].key !in s.shared.store.entries
    ensures TokenInv(DoJoin(s, t))
  {
    LeadKeepsLeaders(s, t);
    LeadKeepsEntries(s, t);
    LeadKeepsOthers(s, t);
  }

  lemma LeadKeepsOthers<K(!new), V>(s: State<K, V>, t: Tid)
    requires TokenInv(s) && Enabled(s, JoinOrLead(t))
    requires s.pcs[t].key !in s.shared.inFlight && s.pcs[t].key !in s.shared.store.entries
    ensures RolesOk(DoJoin(s, t))
  {
    assert DoJoin(s, t).revoked == s.revoked;
    LeadKeepsLeaders(s, t);
  }

  lemma RevokeKeepsTokens<K(!new), V>(s: State<K, V>, keys: set<K>)
    requires TokenInv(s)
    ensures TokenInv(Revoke(s, keys).0)
  {
    var s' := Revoke(s, keys).0;
    forall k | k in s'.shared.inFlight
      ensures s'.shared.inFlight[k].token !in s'.revoked
    {
      // Distinct keys have distinct leaders, hence distinct tokens.
      var t := s.shared.inFlight[k].token;
      assert s.pcs[s.leaderOf[t]].key == k;
    }
  }

  lemma RevokeStepKeepsTokens<K(!new), V>(s: State<K, V>, keys: set<K>, t: Tid, pc: Pc<K, V>)
    requires TokenInv(s) && t in s.pcs && NoRole(s.pcs[t]) && NoRole(pc)
    ensures TokenInv(Goto(Revoke(s, keys).0, t, pc))
  {
    var s1 := Revoke(s, keys).0;
    RevokeKeepsTokens(s, keys);
    MoveKeepsRoles(s1, s1.shared, t, pc);
    RolesKeepTokens(s1, Goto(s1, t, pc));
  }

  lemma TakeFlightsKeepsTokens<K(!new), V>(s: State<K, V>, t: Tid)
    requires TokenInv(s) && Enabled(s, TakeFlights(t))
    ensures TokenInv(DoTakeFlights(s, t))
  {
    var keys := if s.pcs[t].op.InvalidateKey? then {s.pcs[t].op.key} else s.shared.inFlight.Keys;
    RevokeStepKeepsTokens(s, keys, t, DoTakeFlights(s, t).pcs[t]);
  }

  lemma TakeDoomedKeepsTokens<K(!new), V>(s: State<K, V>, t: Tid)
    requires TokenInv(s) && Enabled(s, TakeDoomed(t))
    ensures TokenInv(DoTakeDoomed(s, t))
  {
    RevokeStepKeepsTokens(s, s.pcs[t].doomed, t, DoTakeDoomed(s, t).pcs[t]);
  }

  /** A leader leaves the unclaimed phase by asking for its slot. */
  lemma TakeKeepsTokens<K(!new), V>(s: State<K, V>, t: Tid, pc: Pc<K, V>)
    requires TokenInv(s) && t in s.pcs && Unclaimed(s.pcs[t])
    requires IsLeader(pc) && !Unclaimed(pc) && pc.key == s.pcs[t].key && pc.token == s.pcs[t].token
    requires GotSlot(pc) ==> Take(s.shared, pc.key, pc.token).1.Some?
    ensures TokenInv(Goto(s.(shared := Take(s.shared, pc.key, pc.token).0), t, pc))
  {
    var s' := Goto(s.(shared := Take(s.shared, pc.key, pc.token).0), t, pc);
    TakeKeepsLeaders(s, t, pc);
    TakeKeepsEntries(s, t, pc);
    assert RolesOk(s');
  }

  lemma TakeKeepsLeaders<K(!new), V>(s: State<K, V>, t: Tid, pc: Pc<K, V>)
    requires LeadersOk(s) && t in s.pcs && IsLeader(s.pcs[t])
    requires IsLeader(pc) && pc.token == s.pcs[t].token
    ensures LeadersOk(Goto(s.(shared := Take(s.shared, pc.key, pc.token).0), t, pc))
  {
  }

  lemma TakeKeepsEntries<K(!new), V>(s: State<K, V>, t: Tid, pc: Pc<K, V>)
    requires LeadersOk(s) && EntriesOk(s) && t in s.pcs && Unclaimed(s.pcs[t])
    requires IsLeader(pc) && !Unclaimed(pc) && pc.key == s.pcs[t].key && pc.token == s.pcs[t].token
    ensures EntriesOk(Goto(s.(shared := Take(s.shared, pc.key, pc.token).0), t, pc))
  {
    var s' := Goto(s.(shared := Take(s.shared, pc.key, pc.token).0), t, pc);
    forall k | k in s'.shared.inFlight
      ensures s'.leaderOf[s'.shared.inFlight[k].token] != t
    {
      assert s'.shared.inFlight[k] == s.shared.inFlight[k];
    }
  }

  lemma ActionKeepsRoles<K(!new), V>(s: State<K, V>, a: Action<K, V>)
    requires Enabled(s, a)
    requires IsLocal(a) || a.StoreValue? || a.WakeNext? || a.DropStored? || a.NotifyNext?
    ensures KeepsRoles(s, Apply(s, a))
  {
    match a
    case StoreValue(t) => StoreKeepsRoles(s, t);
    case WakeNext(t) => WakeKeepsRoles(s, t);
    case DropStored(t) => DropStoredKeepsRoles(s, t);
    case NotifyNext(t, k) => NotifyKeepsRoles(s, t, k);
    case _ => LocalKeepsRoles(s, a);
  }

  lemma ActionKeepsTokens<K(!new), V>(s: State<K, V>, a: Action<K, V>)
    requires TokenInv(s) && Enabled(s, a)
    requires IsLocal(a) || a.StoreValue? || a.WakeNext? || a.DropStored? || a.NotifyNext?
    ensures TokenInv(Apply(s, a))
  {
    ActionKeepsRoles(s, a);
    RolesKeepTokens(s, Apply(s, a));
  }

  lemma JoinKeepsTokens<K(!new), V>(s: State<K, V>, t: Tid)
    requires TokenInv(s) && Enabled(s, JoinOrLead(t))
    ensures TokenInv(DoJoin(s, t))
  {
    if s.pcs[t].key in s.shared.store.entries || s.pcs[t].key in s.shared.inFlight {
      JoinKeepsRoles(s, t);
      RolesKeepTokens(s, DoJoin(s, t));
    } else {
      LeadKeepsTokens(s, t);
    }
  }

  lemma ClaimKeepsTokens<K(!new), V>(s: State<K, V>, t: Tid)
    requires TokenInv(s) && Enabled(s, Claim(t))
    ensures TokenInv(DoClaim(s, t))
  {
    TakeKeepsTokens(s, t, DoClaim(s, t).pcs[t]);
  }

  lemma DropLeaderKeepsTokens<K(!new), V>(s: State<K, V>, t: Tid)
    requires TokenInv(s) && Enabled(s, DropLeader(t))
    ensures TokenInv(DoDropLeader(s, t))
  {
    TakeKeepsTokens(s, t, DoDropLeader(s, t).pcs[t]);
  }

  lemma TokenInvKept<K(!new), V>(s: State<K, V>, a: Action<K, V>)
    requires TokenInv(s) && Enabled(s, a)
    ensures TokenInv(Apply(s, a))
  {
    match a
    case JoinOrLead(t) => JoinKeepsTokens(s, t);
    case Claim(t) => ClaimKeepsTokens(s, t);
    case DropLeader(t) => DropLeaderKeepsTokens(s, t);
    case TakeFlights(t) => TakeFlightsKeepsTokens(s, t);
    case TakeDoomed(t) => TakeDoomedKeepsTokens(s, t);
    case _ => ActionKeepsTokens(s, a);
  }
}
