/**
 The coalescing cache as a transition system (src/cache_inner.rs).

 Each critical section, atomic update, channel send and environment event is one
 action; every call has a program counter; actions of different calls interleave
 freely. Claiming the in-flight slot and storing the value are two actions, as
 the locks really are released in between.

 Two history variables, read by no action: which call led each token, and which
 tokens were unregistered by an invalidation. Stored values carry the way they
 got there.
 */
module CacheProtocol {
  import opened Prelude
  import opened FifoStore
  import opened CacheState

  /** A backend error; its text plays no part. */
  datatype FetchError = FetchError(code: nat)

  /** What a call to `get_or_fetch` ends with. */
  datatype Outcome<K, V> = Value(value: V) | Failed(error: FetchError) | Cancelled(key: K)

  /** How a stored value got into the store. */
  datatype Origin = ByLeader(token: nat) | ByInsert(observed: nat)

  datatype Stamped<V> = Stamped(value: V, origin: Origin)

  datatype Op<K, !V> = InvalidateKey(key: K) | InvalidateMatching(p: V -> bool) | ClearAll

  datatype Pc<K, !V> =
    // get_or_fetch
    | FastReading(key: K)
    | Joining(key: K)
    | Returned(key: K, value: V)
    // ... as a waiter
    | Waiting(key: K, token: nat)
    | Woken(key: K, token: nat, outcome: Outcome<K, V>, waker: Tid)
    | Abandoned(key: K, token: nat)
    // ... as a leader
    | Fetching(key: K, token: nat)
    | Fetched(key: K, token: nat, result: Result<V, FetchError>)
    | Claimed(key: K, token: nat, result: Result<V, FetchError>, claim: Option<seq<Tid>>)
    | Waking(key: K, token: nat, result: Result<V, FetchError>, outcome: Outcome<K, V>, waiters: seq<Tid>)
    | Led(key: K, token: nat, result: Result<V, FetchError>, outcome: Outcome<K, V>)
    // ... whose future was dropped during the fetch
    | DropWaking(key: K, token: nat, waiters: seq<Tid>)
    | Dropped(key: K, token: nat)
    // invalidate, invalidate_matching, clear; `at` is the counter after the bump
    | Starting(op: Op<K, V>)
    | Bumped(op: Op<K, V>, at: nat)
    | TookFlights(op: Op<K, V>, at: nat, pending: map<K, seq<Tid>>)
    | Removed(op: Op<K, V>, at: nat, doomed: set<K>)
    | Notifying(op: Op<K, V>, at: nat, pending: map<K, seq<Tid>>)
    | Invalidated(op: Op<K, V>, at: nat)

  datatype State<K, !V> = State(
    shared: Shared<K, Stamped<V>>,
    pcs: map<Tid, Pc<K, V>>,
    leaderOf: map<nat, Tid>,
    revoked: set<nat>)

  datatype Action<K, !V> =
    | CallGet(t: Tid, key: K)
    | FastRead(t: Tid)
    | JoinOrLead(t: Tid)
    | FetchReturns(t: Tid, result: Result<V, FetchError>)
    | Claim(t: Tid)
    | StoreValue(t: Tid)
    | WakeNext(t: Tid)
    | DropLeader(t: Tid)
    | DropWaiter(t: Tid)
    | InsertSampled(key: K, value: V, observed: nat)
    | CallInvalidate(t: Tid, op: Op<K, V>)
    | BumpCounter(t: Tid)
    | TakeFlights(t: Tid)
    | DropStored(t: Tid)
    | TakeDoomed(t: Tid)
    | NotifyNext(t: Tid, key: K)
    | FinishNotifying(t: Tid)

  /** The call an action belongs to. `insert_if_current` is a single section and
      keeps no program counter. */
  function Actor<K, V>(a: Action<K, V>): Option<Tid> {
    if a.InsertSampled? then None else Some(a.t)
  }

  // ── Reading a program counter ───────────────────────────────────────────

  predicate IsLeader<K, V>(pc: Pc<K, V>) {
    pc.Fetching? || pc.Fetched? || pc.Claimed? || pc.Waking? || pc.Led? || pc.DropWaking? || pc.Dropped?
  }

  /** A leader that has not yet asked for its in-flight slot back. */
  predicate Unclaimed<K, V>(pc: Pc<K, V>) {
    pc.Fetching? || pc.Fetched?
  }

  predicate IsInvalidation<K, V>(pc: Pc<K, V>) {
    pc.Starting? || pc.Bumped? || pc.TookFlights? || pc.Removed? || pc.Notifying? || pc.Invalidated?
  }

  /** The waiters a call has taken and not yet woken, by key. */
  function Pending<K, V>(pc: Pc<K, V>): map<K, seq<Tid>> {
    match pc
    case Claimed(k, _, _, Some(ws)) => map[k := ws]
    case Waking(k, _, _, _, ws) => map[k := ws]
    case DropWaking(k, _, ws) => map[k := ws]
    case TookFlights(_, _, pending) => pending
    case Notifying(_, _, pending) => pending
    case _ => map[]
  }

  /** The stored keys an invalidation removes. */
  function Victims<K(==), V>(sh: Shared<K, Stamped<V>>, op: Op<K, V>): set<K> {
    match op
    case InvalidateKey(k) => {k}
    case InvalidateMatching(p) => set k | k in sh.store.entries && p(sh.store.entries[k].value)
    case ClearAll => sh.store.entries.Keys
  }

  /** Send on `w`'s channel. A waiter that gave up ignores it. */
  function Send<K(==), V>(pcs: map<Tid, Pc<K, V>>, w: Tid, outcome: Outcome<K, V>, waker: Tid): map<Tid, Pc<K, V>> {
    if w in pcs && pcs[w].Waiting? then pcs[w := Woken(pcs[w].key, pcs[w].token, outcome, waker)]
    else pcs
  }

  function OutcomeOf<K, V>(r: Result<V, FetchError>): Outcome<K, V> {
    match r case Ok(v) => Value(v) case Err(e) => Failed(e)
  }

  // ── Actions ─────────────────────────────────────────────────────────────

  predicate Enabled<K(==), V>(s: State<K, V>, a: Action<K, V>) {
    match a
    case CallGet(t, _) => t !in s.pcs
    case FastRead(t) => t in s.pcs && s.pcs[t].FastReading?
    case JoinOrLead(t) => t in s.pcs && s.pcs[t].Joining?
    case FetchReturns(t, _) => t in s.pcs && s.pcs[t].Fetching?
    case Claim(t) => t in s.pcs && s.pcs[t].Fetched?
    case StoreValue(t) => t in s.pcs && s.pcs[t].Claimed?
    case WakeNext(t) => t in s.pcs && (s.pcs[t].Waking? || s.pcs[t].DropWaking?)
    case DropLeader(t) => t in s.pcs && s.pcs[t].Fetching?
    case DropWaiter(t) => t in s.pcs && s.pcs[t].Waiting?
    // A sampled counter value is one the counter has had.
    case InsertSampled(_, _, observed) => observed <= s.shared.generation
    case CallInvalidate(t, _) => t !in s.pcs
    case BumpCounter(t) => t in s.pcs && s.pcs[t].Starting?
    case TakeFlights(t) => t in s.pcs && s.pcs[t].Bumped? && !s.pcs[t].op.InvalidateMatching?
    case DropStored(t) => t in s.pcs
      && (s.pcs[t].TookFlights? || (s.pcs[t].Bumped? && s.pcs[t].op.InvalidateMatching?))
    case TakeDoomed(t) => t in s.pcs && s.pcs[t].Removed?
    case NotifyNext(t, k) => t in s.pcs && s.pcs[t].Notifying? && k in s.pcs[t].pending
    case FinishNotifying(t) => t in s.pcs && s.pcs[t].Notifying? && s.pcs[t].pending == map[]
  }

  /** Move call `t` to `pc`. */
  function Goto<K(==), V>(s: State<K, V>, t: Tid, pc: Pc<K, V>): State<K, V> {
    s.(pcs := s.pcs[t := pc])
  }

  function DoFastRead<K(==), V>(s: State<K, V>, t: Tid): State<K, V>
    requires Enabled(s, FastRead(t))
  {
    var k := s.pcs[t].key;
    if k in s.shared.store.entries then Goto(s, t, Returned(k, s.shared.store.entries[k].value))
    else Goto(s, t, Joining(k))
  }

  function DoJoin<K(==), V>(s: State<K, V>, t: Tid): State<K, V>
    requires Enabled(s, JoinOrLead(t))
  {
    var k := s.pcs[t].key;
    var (shared, role) := Join(s.shared, k, t);
    match role
    case Hit(stamped) => Goto(s, t, Returned(k, stamped.value))
    case Joined(token) => Goto(s.(shared := shared), t, Waiting(k, token))
    case Leads(token) =>
      Goto(s.(shared := shared, leaderOf := s.leaderOf[token := t]), t, Fetching(k, token))
  }

  function DoClaim<K(==), V>(s: State<K, V>, t: Tid): State<K, V>
    requires Enabled(s, Claim(t))
  {
    var Fetched(k, token, result) := s.pcs[t];
    var (shared, waiters) := Take(s.shared, k, token);
    Goto(s.(shared := shared), t, Claimed(k, token, result, waiters))
  }

  function DoStore<K(==), V>(s: State<K, V>, t: Tid): State<K, V>
    requires Enabled(s, StoreValue(t))
  {
    match s.pcs[t]
    case Claimed(k, token, result, None) => Goto(s, t, Led(k, token, result, OutcomeOf(result)))
    case Claimed(k, token, Err(e), Some(ws)) => Goto(s, t, Waking(k, token, Err(e), Failed(e), ws))
    case Claimed(k, token, Ok(v), Some(ws)) =>
      var (shared, stored) := StoreFetched(s.shared, k, Stamped(v, ByLeader(token)));
      Goto(s.(shared := shared), t, Waking(k, token, Ok(v), Value(stored.value), ws))
  }

  function DoWake<K(==), V>(s: State<K, V>, t: Tid): State<K, V>
    requires Enabled(s, WakeNext(t))
  {
    match s.pcs[t]
    case Waking(k, token, result, outcome, ws) =>
      if ws == [] then Goto(s, t, Led(k, token, result, outcome))
      else
        var s1 := s.(pcs := Send(s.pcs, ws[0], outcome, t));
        Goto(s1, t, Waking(k, token, result, outcome, ws[1..]))
    case DropWaking(k, token, ws) =>
      if ws == [] then Goto(s, t, Dropped(k, token))
      else
        var s1 := s.(pcs := Send(s.pcs, ws[0], Cancelled(k), t));
        Goto(s1, t, DropWaking(k, token, ws[1..]))
  }

  /** The leader's guard: give the slot back and wake whoever waits on it. */
  function DoDropLeader<K(==), V>(s: State<K, V>, t: Tid): State<K, V>
    requires Enabled(s, DropLeader(t))
  {
    var Fetching(k, token) := s.pcs[t];
    var (shared, waiters) := Take(s.shared, k, token);
    Goto(s.(shared := shared), t,
      match waiters case Some(ws) => DropWaking(k, token, ws) case None => Dropped(k, token))
  }

  /** Unregister fetches for an invalidation, recording whose tokens fell. */
  function Revoke<K(==), V>(s: State<K, V>, keys: set<K>): (State<K, V>, map<K, seq<Tid>>) {
    var (shared, pending) := RemoveFlights(s.shared, keys);
    (s.(shared := shared,
        revoked := s.revoked + set k | k in s.shared.inFlight && k in keys :: s.shared.inFlight[k].token),
     pending)
  }

  function DoTakeFlights<K(==), V>(s: State<K, V>, t: Tid): State<K, V>
    requires Enabled(s, TakeFlights(t))
  {
    var Bumped(op, at) := s.pcs[t];
    var keys := if op.InvalidateKey? then {op.key} else s.shared.inFlight.Keys;
    var (s1, pending) := Revoke(s, keys);
    Goto(s1, t, TookFlights(op, at, pending))
  }

  function DoDropStored<K(==), V>(s: State<K, V>, t: Tid): State<K, V>
    requires Enabled(s, DropStored(t))
  {
    var op := s.pcs[t].op;
    var at := s.pcs[t].at;
    var gone := Victims(s.shared, op);
    var s1 := s.(shared := RemoveStored(s.shared, gone));
    if s.pcs[t].TookFlights? then Goto(s1, t, Notifying(op, at, s.pcs[t].pending))
    else if gone == {} then Goto(s, t, Invalidated(op, at))
    else Goto(s1, t, Removed(op, at, gone))
  }

  function DoTakeDoomed<K(==), V>(s: State<K, V>, t: Tid): State<K, V>
    requires Enabled(s, TakeDoomed(t))
  {
    var Removed(op, at, doomed) := s.pcs[t];
    var (s1, pending) := Revoke(s, doomed);
    Goto(s1, t, Notifying(op, at, pending))
  }

  function DoNotify<K(==), V>(s: State<K, V>, t: Tid, k: K): State<K, V>
    requires Enabled(s, NotifyNext(t, k))
  {
    var Notifying(op, at, pending) := s.pcs[t];
    var ws := pending[k];
    if ws == [] then Goto(s, t, Notifying(op, at, pending - {k}))
    else
      var s1 := s.(pcs := Send(s.pcs, ws[0], Cancelled(k), t));
      Goto(s1, t, Notifying(op, at, pending[k := ws[1..]]))
  }

  function Apply<K(==), V>(s: State<K, V>, a: Action<K, V>): State<K, V>
    requires Enabled(s, a)
  {
    match a
    case CallGet(t, k) => Goto(s, t, FastReading(k))
    case FastRead(t) => DoFastRead(s, t)
    case JoinOrLead(t) => DoJoin(s, t)
    case FetchReturns(t, r) => Goto(s, t, Fetched(s.pcs[t].key, s.pcs[t].token, r))
    case Claim(t) => DoClaim(s, t)
    case StoreValue(t) => DoStore(s, t)
    case WakeNext(t) => DoWake(s, t)
    case DropLeader(t) => DoDropLeader(s, t)
    case DropWaiter(t) => Goto(s, t, Abandoned(s.pcs[t].key, s.pcs[t].token))
    case InsertSampled(k, v, g) =>
      s.(shared := InsertIfCurrent(s.shared, k, Stamped(v, ByInsert(g)), g))
    case CallInvalidate(t, op) => Goto(s, t, Starting(op))
    case BumpCounter(t) =>
      Goto(s.(shared := Bump(s.shared)), t, Bumped(s.pcs[t].op, s.shared.generation + 1))
    case TakeFlights(t) => DoTakeFlights(s, t)
    case DropStored(t) => DoDropStored(s, t)
    case TakeDoomed(t) => DoTakeDoomed(s, t)
    case NotifyNext(t, k) => DoNotify(s, t, k)
    case FinishNotifying(t) => Goto(s, t, Invalidated(s.pcs[t].op, s.pcs[t].at))
  }

  // ── Runs ────────────────────────────────────────────────────────────────

  function Init<K(==), V>(max: Option<nat>): State<K, V> {
    State(Shared(Store(map[], []), max, 0, 0, map[]), map[], map[], {})
  }

  /** Each action of `run` is enabled where it happens. */
  predicate IsRun<K(==), V>(s: State<K, V>, run: seq<Action<K, V>>)
    decreases |run|
  {
    run == [] || (Enabled(s, run[0]) && IsRun(Apply(s, run[0]), run[1..]))
  }

  function After<K(==), V>(s: State<K, V>, run: seq<Action<K, V>>): State<K, V>
    requires IsRun(s, run)
    decreases |run|
  {
    if run == [] then s else After(Apply(s, run[0]), run[1..])
  }
}
