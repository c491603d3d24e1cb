/** No waiter is lost, and none is woken twice. */
module CacheWaiters {
  import opened Prelude
  import opened FifoStore
  import opened CacheState
  import opened CacheProtocol
  import opened CacheInvariants

  /** The places a waiter's channel can be: a registered fetch, or the hands of
      a call that took it and is about to send. */
  datatype Loc<K> = InEntry(key: K) | Held(holder: Tid, key: K)

  ghost function ListAt<K, V>(s: State<K, V>, loc: Loc<K>): seq<Tid> {
    match loc
    case InEntry(k) => if k in s.shared.inFlight then s.shared.inFlight[k].waiters else []
    case Held(c, k) => if c in s.pcs && k in Pending(s.pcs[c]) then Pending(s.pcs[c])[k] else []
  }

  predicate IsParked<K, V>(pc: Pc<K, V>) {
    pc.Waiting? || pc.Abandoned?
  }

  ghost predicate HolderFits<K, V>(s: State<K, V>, c: Tid, token: nat) {
    && c in s.pcs
    && (IsLeader(s.pcs[c]) || IsInvalidation(s.pcs[c]))
    && (IsLeader(s.pcs[c]) ==> s.pcs[c].token == token)
    && (IsInvalidation(s.pcs[c]) ==> token in s.revoked)
  }

  /** A listed waiter is unresolved, waits for this key, and waits on the leader
      this list belongs to - or on one an invalidation revoked. */
  ghost predicate Fits<K, V>(s: State<K, V>, loc: Loc<K>, w: Tid) {
    && w in s.pcs && IsParked(s.pcs[w]) && s.pcs[w].key == loc.key
    && (loc.InEntry? ==> Registered(s, loc.key, s.pcs[w].token))
    && (loc.Held? ==> HolderFits(s, loc.holder, s.pcs[w].token))
  }

  ghost predicate ListsDistinct<K(!new), V>(s: State<K, V>) {
    forall loc :: Distinct(ListAt(s, loc))
  }

  ghost predicate ListsDisjoint<K(!new), V>(s: State<K, V>) {
    forall l1, l2, w :: w in ListAt(s, l1) && w in ListAt(s, l2) ==> l1 == l2
  }

  ghost predicate ListsFit<K(!new), V>(s: State<K, V>) {
    forall loc, w :: w in ListAt(s, loc) ==> Fits(s, loc, w)
  }

  ghost predicate Listed<K(!new), V>(s: State<K, V>, w: Tid) {
    exists loc :: w in ListAt(s, loc)
  }

  ghost predicate WaiterInv<K(!new), V>(s: State<K, V>) {
    && ListsDistinct(s) && ListsDisjoint(s) && ListsFit(s)
    && (forall w :: w in s.pcs && s.pcs[w].Waiting? ==> Listed(s, w))
  }

  // ── Actions that move no channel ────────────────────────────────────────

  /** Unresolved waiters stay so, and no call starts to wait. */
  ghost predicate KeepsParked<K, V>(s: State<K, V>, s': State<K, V>) {
    && (forall w :: w in s.pcs && IsParked(s.pcs[w]) ==>
      && w in s'.pcs && IsParked(s'.pcs[w])
      && s'.pcs[w].key == s.pcs[w].key && s'.pcs[w].token == s.pcs[w].token)
    && (forall w :: w in s'.pcs && s'.pcs[w].Waiting? ==> w in s.pcs && s.pcs[w].Waiting?)
  }

  /** Call by call, the lists and what makes a waiter fit them stand still. */
  ghost predicate KeepsLists<K(!new), V>(s: State<K, V>, s': State<K, V>) {
    && s'.shared.inFlight == s.shared.inFlight && s'.revoked == s.revoked
    && s.pcs.Keys <= s'.pcs.Keys
    && (forall c :: c in s'.pcs ==> Pending(s'.pcs[c]) == if c in s.pcs then Pending(s.pcs[c]) else map[])
    && (forall c :: c in s.pcs ==>
      && IsLeader(s'.pcs[c]) == IsLeader(s.pcs[c]) && IsInvalidation(s'.pcs[c]) == IsInvalidation(s.pcs[c])
      && (IsLeader(s.pcs[c]) ==> s'.pcs[c].token == s.pcs[c].token))
  }

  lemma KeptListsKeepWaiters<K(!new), V>(s: State<K, V>, s': State<K, V>)
    requires WaiterInv(s) && KeepsParked(s, s') && KeepsLists(s, s')
    ensures WaiterInv(s')
  {
    assert forall loc :: ListAt(s', loc) == ListAt(s, loc);
    forall w | w in s'.pcs && s'.pcs[w].Waiting?
      ensures Listed(s', w)
    {
      var loc :| w in ListAt(s, loc);
      assert w in ListAt(s', loc);
    }
  }

  ghost predicate MovesNoChannel<K(!new), V>(s: State<K, V>, s': State<K, V>) {
    KeepsParked(s, s') && KeepsLists(s, s')
  }

  /** One call moves on from `pc` to `pc'` without touching a channel. */
  predicate QuietMove<K, V>(pc: Pc<K, V>, pc': Pc<K, V>) {
    && Pending(pc') == Pending(pc)
    && IsLeader(pc') == IsLeader(pc) && IsInvalidation(pc') == IsInvalidation(pc)
    && (IsLeader(pc) ==> pc'.token == pc.token)
    && (IsParked(pc) ==> IsParked(pc') && pc'.key == pc.key && pc'.token == pc.token)
    && (pc'.Waiting? ==> pc.Waiting?)
  }

  lemma OneQuietMove<K(!new), V>(s: State<K, V>, s': State<K, V>, t: Tid)
    requires t in s'.pcs && s'.pcs == s.pcs[t := s'.pcs[t]]
    requires s'.shared.inFlight == s.shared.inFlight && s'.revoked == s.revoked
    requires if t in s.pcs then QuietMove(s.pcs[t], s'.pcs[t])
             else Pending(s'.pcs[t]) == map[] && !s'.pcs[t].Waiting?
    ensures MovesNoChannel(s, s')
  {
  }

  predicate Starts<K, V>(a: Action<K, V>) {
    a.CallGet? || a.CallInvalidate?
  }

  lemma LocalIsQuiet<K(!new), V>(s: State<K, V>, a: Action<K, V>)
    requires Enabled(s, a) && IsLocal(a) && !a.InsertSampled?
    ensures var s' := Apply(s, a);
      && a.t in s'.pcs && s'.pcs == s.pcs[a.t := s'.pcs[a.t]]
      && s'.shared.inFlight == s.shared.inFlight && s'.revoked == s.revoked
      && if Starts(a) then Pending(s'.pcs[a.t]) == map[] && !s'.pcs[a.t].Waiting?
         else a.t in s.pcs && QuietMove(s.pcs[a.t], s'.pcs[a.t])
  {
    if a.FastRead? || a.FetchReturns? || a.DropWaiter? {
      LookupMoveIsQuiet(s, a);
    } else if !Starts(a) {
      InvalidationMoveIsQuiet(s, a);
    }
  }

  lemma LookupMoveIsQuiet<K(!new), V>(s: State<K, V>, a: Action<K, V>)
    requires Enabled(s, a) && (a.FastRead? || a.FetchReturns? || a.DropWaiter?)
    ensures QuietMove(s.pcs[a.t], Apply(s, a).pcs[a.t])
  {
  }

  lemma InvalidationMoveIsQuiet<K(!new), V>(s: State<K, V>, a: Action<K, V>)
    requires Enabled(s, a) && (a.BumpCounter? || a.FinishNotifying?)
    ensures QuietMove(s.pcs[a.t], Apply(s, a).pcs[a.t])
  {
  }

  lemma LocalMovesNoChannel<K(!new), V>(s: State<K, V>, a: Action<K, V>)
    requires Enabled(s, a) && IsLocal(a)
    ensures MovesNoChannel(s, Apply(s, a))
  {
    if !a.InsertSampled? {
      LocalIsQuiet(s, a);
      OneQuietMove(s, Apply(s, a), a.t);
    }
  }

  lemma StoreMovesNoChannel<K(!new), V>(s: State<K, V>, t: Tid)
    requires Enabled(s, StoreValue(t))
    ensures MovesNoChannel(s, DoStore(s, t))
  {
    OneQuietMove(s, DoStore(s, t), t);
  }

  lemma DropStoredMovesNoChannel<K(!new), V>(s: State<K, V>, t: Tid)
    requires Enabled(s, DropStored(t))
    ensures MovesNoChannel(s, DoDropStored(s, t))
  {
    OneQuietMove(s, DoDropStored(s, t), t);
  }

  // ── Joining: one channel appears ────────────────────────────────────────

  lemma JoinKeepsWaiters<K(!new), V>(s: State<K, V>, t: Tid)
    requires WaiterInv(s) && Enabled(s, JoinOrLead(t))
    ensures WaiterInv(DoJoin(s, t))
  {
    var k := s.pcs[t].key;
    var s' := DoJoin(s, t);
    if k in s.shared.store.entries {
      OneQuietMove(s, s', t);
      KeptListsKeepWaiters(s, s');
    } else if k in s.shared.inFlight {
      WaitKeepsWaiters(s, t);
    } else {
      LeadKeepsWaiters(s, t);
    }
  }

  lemma LeadKeepsWaiters<K(!new), V>(s: State<K, V>, t: Tid)
    requires WaiterInv(s) && Enabled(s, JoinOrLead(t))
    requires s.pcs[t].key !in s.shared.store.entries && s.pcs[t].key !in s.shared.inFlight
    ensures WaiterInv(DoJoin(s, t))
  {
    var s' := DoJoin(s, t);
    assert forall loc :: ListAt(s', loc) == ListAt(s, loc);
    assert KeepsParked(s, s');
    forall loc, w | w in ListAt(s', loc)
      ensures Fits(s', loc, w)
    {
      assert Fits(s, loc, w);
    }
    forall w | w in s'.pcs && s'.pcs[w].Waiting?
      ensures Listed(s', w)
    {
      var loc :| w in ListAt(s, loc);
      assert w in ListAt(s', loc);
    }
  }

  /** A call that is not parked is in no list. */
  lemma NotListed<K(!new), V>(s: State<K, V>, t: Tid)
    requires ListsFit(s) && t in s.pcs && !IsParked(s.pcs[t])
    ensures forall loc :: t !in ListAt(s, loc)
  {
    forall loc
      ensures t !in ListAt(s, loc)
    {
      assert t in ListAt(s, loc) ==> Fits(s, loc, t);
    }
  }

  /** One list grew by a call that was in none. */
  ghost predicate Grows<K(!new), V>(s: State<K, V>, s': State<K, V>, here: Loc<K>, t: Tid) {
    && (forall loc :: t !in ListAt(s, loc))
    && (forall loc :: ListAt(s', loc) == if loc == here then ListAt(s, loc) + [t] else ListAt(s, loc))
  }

  lemma GrowthKeepsLists<K(!new), V>(s: State<K, V>, s': State<K, V>, here: Loc<K>, t: Tid)
    requires ListsDistinct(s) && ListsDisjoint(s) && Grows(s, s', here, t)
    ensures ListsDistinct(s') && ListsDisjoint(s')
  {
  }

  lemma WaitKeepsWaiters<K(!new), V>(s: State<K, V>, t: Tid)
    requires WaiterInv(s) && Enabled(s, JoinOrLead(t))
    requires s.pcs[t].key !in s.shared.store.entries && s.pcs[t].key in s.shared.inFlight
    ensures WaiterInv(DoJoin(s, t))
  {
    var s' := DoJoin(s, t);
    var here := InEntry(s.pcs[t].key);
    NotListed(s, t);
    assert Grows(s, s', here, t);
    GrowthKeepsLists(s, s', here, t);
    forall loc, w | w in ListAt(s', loc)
      ensures Fits(s', loc, w)
    {
      assert w != t ==> Fits(s, loc, w);
    }
    forall w | w in s'.pcs && s'.pcs[w].Waiting?
      ensures Listed(s', w)
    {
      if w == t {
        assert t in ListAt(s', here);
      } else {
        var loc :| w in ListAt(s, loc);
        assert w in ListAt(s', loc);
      }
    }
  }

  // ── Taking: lists change hands whole ────────────────────────────────────

  /** The lists registered under `keys` move, as they are, into `t`'s hands. */
  ghost predicate Transfers<K(!new), V>(s: State<K, V>, s': State<K, V>, t: Tid, keys: set<K>) {
    && (forall k :: ListAt(s, Held(t, k)) == [])
    && (forall loc :: ListAt(s', loc) == Moved(s, t, keys, loc))
  }

  ghost function Moved<K, V>(s: State<K, V>, t: Tid, keys: set<K>, loc: Loc<K>): seq<Tid> {
    if loc.InEntry? && loc.key in keys then []
    else if loc.Held? && loc.holder == t && loc.key in keys then ListAt(s, InEntry(loc.key))
    else ListAt(s, loc)
  }

  lemma TransferKeepsWaiters<K(!new), V>(s: State<K, V>, s': State<K, V>, t: Tid, keys: set<K>)
    requires WaiterInv(s) && KeepsParked(s, s') && Transfers(s, s', t, keys) && ListsFit(s')
    ensures WaiterInv(s')
  {
    assert ListsDistinct(s');
    forall l1, l2, w | w in ListAt(s', l1) && w in ListAt(s', l2)
      ensures l1 == l2
    {
      var b1 := if l1 == Held(t, l1.key) && l1.key in keys then InEntry(l1.key) else l1;
      var b2 := if l2 == Held(t, l2.key) && l2.key in keys then InEntry(l2.key) else l2;
      assert ListAt(s', l1) == Moved(s, t, keys, l1) && ListAt(s', l2) == Moved(s, t, keys, l2);
      assert w in ListAt(s, b1) && w in ListAt(s, b2);
    }
    forall w | w in s'.pcs && s'.pcs[w].Waiting?
      ensures Listed(s', w)
    {
      var loc :| w in ListAt(s, loc);
      var to := if loc.InEntry? && loc.key in keys then Held(t, loc.key) else loc;
      assert ListAt(s', to) == Moved(s, t, keys, to);
      assert w in ListAt(s', to);
    }
  }

  lemma TakeKeepsWaiters<K(!new), V>(s: State<K, V>, t: Tid, s': State<K, V>)
    requires WaiterInv(s) && t in s.pcs && Unclaimed(s.pcs[t])
    requires t in s'.pcs
    requires s' == Goto(s.(shared := Take(s.shared, s.pcs[t].key, s.pcs[t].token).0), t, s'.pcs[t])
    requires IsLeader(s'.pcs[t]) && s'.pcs[t].key == s.pcs[t].key && s'.pcs[t].token == s.pcs[t].token
    requires Pending(s'.pcs[t]) == match Take(s.shared, s.pcs[t].key, s.pcs[t].token).1
         case Some(ws) => map[s.pcs[t].key := ws] case None => map[]
    ensures WaiterInv(s')
  {
    var keys := if Registered(s, s.pcs[t].key, s.pcs[t].token) then {s.pcs[t].key} else {};
    TakeTransfers(s, t, s', keys);
    TakeKeepsFits(s, t, s', keys);
    TransferKeepsWaiters(s, s', t, keys);
  }

  /** The taken list moves and no parked call does. */
  lemma TakeTransfers<K(!new), V>(s: State<K, V>, t: Tid, s': State<K, V>, keys: set<K>)
    requires t in s.pcs && Unclaimed(s.pcs[t]) && t in s'.pcs
    requires s' == Goto(s.(shared := Take(s.shared, s.pcs[t].key, s.pcs[t].token).0), t, s'.pcs[t])
    requires IsLeader(s'.pcs[t]) && s'.pcs[t].key == s.pcs[t].key && s'.pcs[t].token == s.pcs[t].token
    requires Pending(s'.pcs[t]) == match Take(s.shared, s.pcs[t].key, s.pcs[t].token).1
         case Some(ws) => map[s.pcs[t].key := ws] case None => map[]
    requires keys == if Registered(s, s.pcs[t].key, s.pcs[t].token) then {s.pcs[t].key} else {}
    ensures KeepsParked(s, s') && Transfers(s, s', t, keys)
  {
  }

  lemma TakeKeepsFits<K(!new), V>(s: State<K, V>, t: Tid, s': State<K, V>, keys: set<K>)
    requires ListsFit(s) && KeepsParked(s, s') && Transfers(s, s', t, keys)
    requires t in s.pcs && IsLeader(s.pcs[t]) && t in s'.pcs && s' == Goto(s.(shared := s'.shared), t, s'.pcs[t])
    requires IsLeader(s'.pcs[t]) && s'.pcs[t].key == s.pcs[t].key && s'.pcs[t].token == s.pcs[t].token
    requires forall k :: k in keys ==> k == s.pcs[t].key && Registered(s, k, s.pcs[t].token)
    requires forall k :: k in s'.shared.inFlight ==> k in s.shared.inFlight && s'.shared.inFlight[k] == s.shared.inFlight[k]
    ensures ListsFit(s')
  {
    forall loc, w | w in ListAt(s', loc)
      ensures Fits(s', loc, w)
    {
      var from := if loc == Held(t, loc.key) && loc.key in keys then InEntry(loc.key) else loc;
      assert ListAt(s', loc) == Moved(s, t, keys, loc);
      assert w in ListAt(s, from);
      assert Fits(s, from, w);
    }
  }

  lemma RevokeKeepsWaiters<K(!new), V>(s: State<K, V>, t: Tid, keys: set<K>, s': State<K, V>)
    requires WaiterInv(s) && t in s.pcs && IsInvalidation(s.pcs[t]) && Pending(s.pcs[t]) == map[]
    requires t in s'.pcs && s' == Goto(Revoke(s, keys).0, t, s'.pcs[t])
    requires IsInvalidation(s'.pcs[t]) && Pending(s'.pcs[t]) == Revoke(s, keys).1
    ensures WaiterInv(s')
  {
    RevokeTransfers(s, t, keys, s');
    RevokeKeepsFits(s, t, keys, s');
    TransferKeepsWaiters(s, s', t, keys);
  }

  lemma RevokeTransfers<K(!new), V>(s: State<K, V>, t: Tid, keys: set<K>, s': State<K, V>)
    requires t in s.pcs && IsInvalidation(s.pcs[t]) && Pending(s.pcs[t]) == map[]
    requires t in s'.pcs && s' == Goto(Revoke(s, keys).0, t, s'.pcs[t])
    requires IsInvalidation(s'.pcs[t]) && Pending(s'.pcs[t]) == Revoke(s, keys).1
    ensures KeepsParked(s, s') && Transfers(s, s', t, keys)
  {
  }

  lemma RevokeKeepsFits<K(!new), V>(s: State<K, V>, t: Tid, keys: set<K>, s': State<K, V>)
    requires ListsFit(s) && KeepsParked(s, s') && Transfers(s, s', t, keys)
    requires t in s.pcs && IsInvalidation(s.pcs[t])
    requires t in s'.pcs && s' == Goto(Revoke(s, keys).0, t, s'.pcs[t]) && IsInvalidation(s'.pcs[t])
    ensures ListsFit(s')
  {
    forall loc, w | w in ListAt(s', loc)
      ensures Fits(s', loc, w)
    {
      var from := if loc == Held(t, loc.key) && loc.key in keys then InEntry(loc.key) else loc;
      assert ListAt(s', loc) == Moved(s, t, keys, loc);
      assert w in ListAt(s, from);
      assert Fits(s, from, w);
    }
  }

  // ── Sending: one channel is used up ─────────────────────────────────────

  /** The first channel of list `here` was sent on; nothing else moved. */
  ghost predicate Sends<K(!new), V>(s: State<K, V>, s': State<K, V>, here: Loc<K>) {
    && ListAt(s, here) != []
    && s'.shared == s.shared && s'.revoked == s.revoked
    && (forall loc :: ListAt(s', loc) == if loc == here then ListAt(s, loc)[1..] else ListAt(s, loc))
    && s'.pcs.Keys == s.pcs.Keys
    && (forall c :: c in s.pcs ==>
      && IsLeader(s'.pcs[c]) == IsLeader(s.pcs[c]) && IsInvalidation(s'.pcs[c]) == IsInvalidation(s.pcs[c])
      && (IsLeader(s.pcs[c]) ==> s'.pcs[c].token == s.pcs[c].token)
      && (IsParked(s.pcs[c]) && c != ListAt(s, here)[0] ==> s'.pcs[c] == s.pcs[c])
      && (s'.pcs[c].Waiting? ==> s.pcs[c].Waiting? && c != ListAt(s, here)[0]))
  }

  lemma SendKeepsWaiters<K(!new), V>(s: State<K, V>, s': State<K, V>, here: Loc<K>)
    requires WaiterInv(s) && Sends(s, s', here)
    ensures WaiterInv(s')
  {
    var w0 := ListAt(s, here)[0];
    forall loc, w | w in ListAt(s', loc)
      ensures Fits(s', loc, w)
    {
      assert w in ListAt(s, loc);
      assert w != w0;
      assert Fits(s, loc, w);
    }
    forall w | w in s'.pcs && s'.pcs[w].Waiting?
      ensures Listed(s', w)
    {
      var loc :| w in ListAt(s, loc);
      assert w in ListAt(s', loc);
    }
  }

  /** Call `t` moves to `pc'` and sends on the first channel of `k`'s list. */
  lemma PopSends<K(!new), V>(s: State<K, V>, s': State<K, V>, t: Tid, k: K, o: Outcome<K, V>)
    requires t in s.pcs && ListAt(s, Held(t, k)) != [] && !IsParked(s.pcs[t])
    requires var w := ListAt(s, Held(t, k))[0]; w in s.pcs && IsParked(s.pcs[w])
    requires t in s'.pcs && s' == Goto(s.(pcs := Send(s.pcs, ListAt(s, Held(t, k))[0], o, t)), t, s'.pcs[t])
    requires IsLeader(s'.pcs[t]) == IsLeader(s.pcs[t]) && IsInvalidation(s'.pcs[t]) == IsInvalidation(s.pcs[t])
    requires IsLeader(s.pcs[t]) ==> s'.pcs[t].token == s.pcs[t].token
    requires !s'.pcs[t].Waiting?
    requires Pending(s'.pcs[t]) == Pending(s.pcs[t])[k := ListAt(s, Held(t, k))[1..]]
    ensures Sends(s, s', Held(t, k))
  {
    SendMovesTwo(s, s', t, ListAt(s, Held(t, k))[0], o);
    PopsOneList(s, s', t, ListAt(s, Held(t, k))[0], k);
  }

  lemma SendMovesTwo<K(!new), V>(s: State<K, V>, s': State<K, V>, t: Tid, w: Tid, o: Outcome<K, V>)
    requires t in s.pcs && w in s.pcs && IsParked(s.pcs[w]) && !IsParked(s.pcs[t])
    requires t in s'.pcs && s' == Goto(s.(pcs := Send(s.pcs, w, o, t)), t, s'.pcs[t])
    ensures s'.shared == s.shared && s'.pcs.Keys == s.pcs.Keys
    ensures forall c :: c in s.pcs && c != t && c != w ==> s'.pcs[c] == s.pcs[c]
    ensures Pending(s'.pcs[w]) == map[] == Pending(s.pcs[w]) && !s'.pcs[w].Waiting?
    ensures !IsLeader(s'.pcs[w]) && !IsInvalidation(s'.pcs[w])
  {
  }

  lemma PopsOneList<K(!new), V>(s: State<K, V>, s': State<K, V>, t: Tid, w: Tid, k: K)
    requires t in s.pcs && ListAt(s, Held(t, k)) != [] && w in s.pcs && w != t
    requires s'.shared == s.shared && s'.pcs.Keys == s.pcs.Keys
    requires forall c :: c in s.pcs && c != t && c != w ==> s'.pcs[c] == s.pcs[c]
    requires Pending(s'.pcs[w]) == Pending(s.pcs[w])
    requires Pending(s'.pcs[t]) == Pending(s.pcs[t])[k := ListAt(s, Held(t, k))[1..]]
    ensures forall loc :: ListAt(s', loc) == if loc == Held(t, k) then ListAt(s, loc)[1..] else ListAt(s, loc)
  {
  }

  lemma WakeSends<K(!new), V>(s: State<K, V>, t: Tid)
    requires ListsFit(s) && Enabled(s, WakeNext(t)) && s.pcs[t].waiters != []
    ensures Sends(s, DoWake(s, t), Held(t, s.pcs[t].key))
  {
    var here := Held(t, s.pcs[t].key);
    assert ListAt(s, here) == s.pcs[t].waiters;
    assert Fits(s, here, s.pcs[t].waiters[0]);
    PopSends(s, DoWake(s, t), t, here.key,
      if s.pcs[t].Waking? then s.pcs[t].outcome else Cancelled(s.pcs[t].key));
  }

  lemma WakeKeepsWaiters<K(!new), V>(s: State<K, V>, t: Tid)
    requires WaiterInv(s) && Enabled(s, WakeNext(t))
    ensures WaiterInv(DoWake(s, t))
  {
    var s' := DoWake(s, t);
    if s.pcs[t].waiters == [] {
      LastWakeKeepsLists(s, t);
      EmptyListsKeepWaiters(s, s');
    } else {
      WakeSends(s, t);
      SendKeepsWaiters(s, s', Held(t, s.pcs[t].key));
    }
  }

  /** A call lets go of lists that ran empty. */
  ghost predicate DropsEmptyLists<K(!new), V>(s: State<K, V>, s': State<K, V>) {
    && s'.shared == s.shared && s'.revoked == s.revoked && s'.pcs.Keys == s.pcs.Keys
    && (forall loc :: ListAt(s', loc) == ListAt(s, loc))
    && (forall c :: c in s.pcs ==>
      && IsLeader(s'.pcs[c]) == IsLeader(s.pcs[c]) && IsInvalidation(s'.pcs[c]) == IsInvalidation(s.pcs[c])
      && (IsLeader(s.pcs[c]) ==> s'.pcs[c].token == s.pcs[c].token))
  }

  lemma EmptyListsKeepWaiters<K(!new), V>(s: State<K, V>, s': State<K, V>)
    requires WaiterInv(s) && DropsEmptyLists(s, s') && KeepsParked(s, s')
    ensures WaiterInv(s')
  {
    forall loc, w | w in ListAt(s', loc)
      ensures Fits(s', loc, w)
    {
      assert Fits(s, loc, w);
    }
    forall w | w in s'.pcs && s'.pcs[w].Waiting?
      ensures Listed(s', w)
    {
      var loc :| w in ListAt(s, loc);
      assert w in ListAt(s', loc);
    }
  }

  lemma LastWakeKeepsLists<K(!new), V>(s: State<K, V>, t: Tid)
    requires Enabled(s, WakeNext(t)) && s.pcs[t].waiters == []
    ensures DropsEmptyLists(s, DoWake(s, t)) && KeepsParked(s, DoWake(s, t))
  {
    var s' := DoWake(s, t);
    assert s'.pcs == s.pcs[t := s'.pcs[t]];
  }

  lemma NotifySends<K(!new), V>(s: State<K, V>, t: Tid, k: K)
    requires ListsFit(s) && Enabled(s, NotifyNext(t, k)) && s.pcs[t].pending[k] != []
    ensures Sends(s, DoNotify(s, t, k), Held(t, k))
  {
    var here := Held(t, k);
    assert ListAt(s, here) == s.pcs[t].pending[k];
    assert Fits(s, here, s.pcs[t].pending[k][0]);
    PopSends(s, DoNotify(s, t, k), t, k, Cancelled(k));
  }

  lemma NotifyKeepsWaiters<K(!new), V>(s: State<K, V>, t: Tid, k: K)
    requires WaiterInv(s) && Enabled(s, NotifyNext(t, k))
    ensures WaiterInv(DoNotify(s, t, k))
  {
    var s' := DoNotify(s, t, k);
    if s.pcs[t].pending[k] == [] {
      LastNotifyKeepsLists(s, t, k);
      EmptyListsKeepWaiters(s, s');
    } else {
      NotifySends(s, t, k);
      SendKeepsWaiters(s, s', Held(t, k));
    }
  }

  lemma LastNotifyKeepsLists<K(!new), V>(s: State<K, V>, t: Tid, k: K)
    requires Enabled(s, NotifyNext(t, k)) && s.pcs[t].pending[k] == []
    ensures DropsEmptyLists(s, DoNotify(s, t, k)) && KeepsParked(s, DoNotify(s, t, k))
  {
    var s' := DoNotify(s, t, k);
    assert s'.pcs == s.pcs[t := s'.pcs[t]];
  }

  // ── Every action ────────────────────────────────────────────────────────

  lemma TakeFlightsKeepsWaiters<K(!new), V>(s: State<K, V>, t: Tid)
    requires WaiterInv(s) && Enabled(s, TakeFlights(t))
    ensures WaiterInv(DoTakeFlights(s, t))
  {
    var keys := if s.pcs[t].op.InvalidateKey? then {s.pcs[t].op.key} else s.shared.inFlight.Keys;
    RevokeKeepsWaiters(s, t, keys, DoTakeFlights(s, t));
  }

  lemma TakeDoomedKeepsWaiters<K(!new), V>(s: State<K, V>, t: Tid)
    requires WaiterInv(s) && Enabled(s, TakeDoomed(t))
    ensures WaiterInv(DoTakeDoomed(s, t))
  {
    RevokeKeepsWaiters(s, t, s.pcs[t].doomed, DoTakeDoomed(s, t));
  }

  lemma QuietKeepsWaiters<K(!new), V>(s: State<K, V>, a: Action<K, V>)
    requires WaiterInv(s) && Enabled(s, a) && (IsLocal(a) || a.StoreValue? || a.DropStored?)
    ensures WaiterInv(Apply(s, a))
  {
    if a.StoreValue? {
      StoreMovesNoChannel(s, a.t);
    } else if a.DropStored? {
      DropStoredMovesNoChannel(s, a.t);
    } else {
      LocalMovesNoChannel(s, a);
    }
    KeptListsKeepWaiters(s, Apply(s, a));
  }

  lemma ClaimKeepsWaiters<K(!new), V>(s: State<K, V>, t: Tid)
    requires WaiterInv(s) && Enabled(s, Claim(t))
    ensures WaiterInv(DoClaim(s, t))
  {
    TakeKeepsWaiters(s, t, DoClaim(s, t));
  }

  lemma DropLeaderKeepsWaiters<K(!new), V>(s: State<K, V>, t: Tid)
    requires WaiterInv(s) && Enabled(s, DropLeader(t))
    ensures WaiterInv(DoDropLeader(s, t))
  {
    TakeKeepsWaiters(s, t, DoDropLeader(s, t));
  }

  lemma WaiterInvKept<K(!new), V>(s: State<K, V>, a: Action<K, V>)
    requires WaiterInv(s) && Enabled(s, a)
    ensures WaiterInv(Apply(s, a))
  {
    match a
    case JoinOrLead(t) => JoinKeepsWaiters(s, t);
    case Claim(t) => ClaimKeepsWaiters(s, t);
    case DropLeader(t) => DropLeaderKeepsWaiters(s, t);
    case WakeNext(t) => WakeKeepsWaiters(s, t);
    case TakeFlights(t) => TakeFlightsKeepsWaiters(s, t);
    case TakeDoomed(t) => TakeDoomedKeepsWaiters(s, t);
    case NotifyNext(t, k) => NotifyKeepsWaiters(s, t, k);
    case _ => QuietKeepsWaiters(s, a);
  }
}
