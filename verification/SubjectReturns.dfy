/**
 What can put a deleted subject back into the identifier caches.

 `delete_subject` and `delete_version` (src/cache.rs) promise that everything
 cached under the subject is dropped. The two caches are invalidated one after
 the other, and in between a lookup by GUID still hits the second and
 cross-indexes the first. This file gives that run, and says of every step
 whether it puts an entry of a subject into a cache.
 */
module SubjectReturns {
  import opened Prelude
  import opened FifoStore
  import opened CacheState
  import opened CacheProtocol
  import opened CacheInvariants
  import opened CacheStored
  import opened CacheTheorems
  import opened RegistryCache
  import opened RegistryCoherence

  // ── Which steps put an entry there ──────────────────────────────────────

  /** Key `k` is stored with a schema of the subject. */
  ghost predicate Holds<K>(s: State<K, Schema>, k: K, subject: string) {
    k in s.shared.store.entries && s.shared.store.entries[k].value.subject == Some(subject)
  }

  /** A leader that has its slot stores a fetched schema of the subject, under a
      key that is not stored. */
  ghost predicate LeaderPuts<K>(s: State<K, Schema>, a: Action<K, Schema>, k: K, subject: string)
    requires Enabled(s, a)
  {
    && a.StoreValue? && s.pcs[a.t].key == k && k !in s.shared.store.entries
    && s.pcs[a.t].claim.Some? && s.pcs[a.t].result.Ok? && s.pcs[a.t].result.value.subject == Some(subject)
  }

  lemma StorePutsIff<K(!new)>(s: State<K, Schema>, t: Tid, k: K, subject: string)
    requires Inv(s) && s.shared.max != Some(0) && Enabled(s, StoreValue(t)) && !Holds(s, k, subject)
    ensures Holds(DoStore(s, t), k, subject) <==> LeaderPuts(s, StoreValue(t), k, subject)
  {
    if s.pcs[t].claim.Some? && s.pcs[t].result.Ok? {
      InsertEntries(s.shared.store, s.shared.max, s.pcs[t].key,
        Stamped(s.pcs[t].result.value, ByLeader(s.pcs[t].token)));
    }
  }

  /** The other steps of a cache put nothing in. */
  lemma OtherStepsPutNothing<K(!new)>(s: State<K, Schema>, a: Action<K, Schema>)
    requires Enabled(s, a) && !a.StoreValue? && !a.DropStored? && !a.InsertSampled?
    ensures Apply(s, a).shared.store == s.shared.store
  {
  }

  lemma DropPutsNothing<K(!new)>(s: State<K, Schema>, t: Tid, k: K, subject: string)
    requires Inv(s) && Enabled(s, DropStored(t)) && !Holds(s, k, subject)
    ensures !Holds(Apply(s, DropStored(t)), k, subject)
  {
    DropStoredRemoves(s, t);
  }

  /** Of a cache's own steps only a leader's store does. */
  lemma ActionPutsIff<K(!new)>(s: State<K, Schema>, a: Action<K, Schema>, k: K, subject: string)
    requires Inv(s) && s.shared.max != Some(0) && Enabled(s, a) && !a.InsertSampled? && !Holds(s, k, subject)
    ensures Holds(Apply(s, a), k, subject) <==> LeaderPuts(s, a, k, subject)
  {
    if a.StoreValue? {
      StorePutsIff(s, a.t, k, subject);
    } else if a.DropStored? {
      DropPutsNothing(s, a.t, k, subject);
    } else {
      OtherStepsPutNothing(s, a);
    }
  }

  /** `insert_if_current` does exactly when its sample is still current. */
  lemma InsertPutsIff<K(!new)>(s: State<K, Schema>, key: K, schema: Schema, observed: nat, k: K, subject: string)
    requires Inv(s) && s.shared.max != Some(0) && !Holds(s, k, subject)
    ensures var e := Stamped(schema, ByInsert(observed));
      Holds(s.(shared := InsertIfCurrent(s.shared, key, e, observed)), k, subject)
      <==> key == k && schema.subject == Some(subject) && observed == s.shared.generation
  {
    InsertEntries(s.shared.store, s.shared.max, key, Stamped(schema, ByInsert(observed)));
  }

  /** A step of a lookup by ID (or of warming) storing what it fetched, or of a
      lookup by subject or GUID indexing what it got. */
  ghost predicate PutsUnderId(b: Backend, w: World, act: Act, id: SchemaId, subject: string)
    requires Can(b, w, act)
  {
    match act
    case OnIds(t, a) => (w.frames[t].call == ById(id) || w.frames[t].call == Warm(id)) && LeaderPuts(w.ids, a, id, subject)
    case IndexById(t) =>
      var f := w.frames[t];
      && (f.call.BySubject? || f.call.ByGuid?)
      && f.step.schema.id == Some(id) && f.step.schema.subject == Some(subject)
      && f.step.at.id == w.ids.shared.generation
    case _ => false
  }

  ghost predicate PutsUnderGuid(b: Backend, w: World, act: Act, guid: SchemaGuid, subject: string)
    requires Can(b, w, act)
  {
    match act
    case OnGuids(t, g) => w.frames[t].call == ByGuid(guid) && LeaderPuts(w.guids, g, guid, subject)
    case IndexByGuid(t) =>
      var f := w.frames[t];
      && (f.call.BySubject? || f.call.ById?)
      && f.step.schema.guid == Some(guid) && f.step.schema.subject == Some(subject)
      && f.step.at.guid == w.guids.shared.generation
    case _ => false
  }

  // ... for which only the right calls must be at the index steps.

  predicate IndexFits(f: Frame) {
    match f.step
    case IndexingId(_, _) => f.call.BySubject? || f.call.ByGuid?
    case IndexingGuid(_, _) => f.call.BySubject? || f.call.ById?
    case _ => true
  }

  ghost predicate IndexesFit(w: World) {
    forall t :: t in w.frames ==> IndexFits(w.frames[t])
  }

  lemma IndexesFitKept(b: Backend, w: World, act: Act)
    requires Can(b, w, act) && IndexesFit(w)
    ensures IndexesFit(Do(b, w, act))
  {
  }

  lemma {:induction false} HistoryKeepsIndexesFit(b: Backend, w: World, acts: seq<Act>)
    requires IsHistory(b, w, acts) && IndexesFit(w)
    ensures IndexesFit(AfterActs(b, w, acts))
    decreases |acts|
  {
    if acts != [] {
      IndexesFitKept(b, w, acts[0]);
      HistoryKeepsIndexesFit(b, Do(b, w, acts[0]), acts[1..]);
    }
  }

  lemma ReachedFacts(b: Backend, maxEntries: nat, acts: seq<Act>, w: World)
    requires WorldReached(b, maxEntries, acts, w)
    ensures WorldInv(b, w) && IndexesFit(w)
    ensures w.ids.shared.max.Some? && w.ids.shared.max != Some(0)
    ensures w.guids.shared.max.Some? && w.guids.shared.max != Some(0)
  {
    WorldReachedInv(b, maxEntries, acts, w);
    HistoryKeepsIndexesFit(b, Fresh(maxEntries), acts);
    CachesAreValid(b, maxEntries, acts, w);
  }

  /** A lookup's leader stores under the identifier it was asked for. */
  lemma IdLeaderIsAsked(b: Backend, w: World, t: Tid, a: Action<SchemaId, Schema>)
    requires WorldInv(b, w) && Can(b, w, OnIds(t, a)) && a.StoreValue?
    ensures var key := w.ids.pcs[a.t].key; w.frames[t].call == ById(key) || w.frames[t].call == Warm(key)
  {
    assert JobsOk(w, t, w.frames[t]);
  }

  lemma GuidLeaderIsAsked(b: Backend, w: World, t: Tid, g: Action<SchemaGuid, Schema>)
    requires WorldInv(b, w) && Can(b, w, OnGuids(t, g)) && g.StoreValue?
    ensures w.frames[t].call == ByGuid(w.guids.pcs[g.t].key)
  {
    assert JobsOk(w, t, w.frames[t]);
  }

  lemma IdActionPutsIff(b: Backend, w: World, t: Tid, a: Action<SchemaId, Schema>, id: SchemaId, subject: string)
    requires WorldInv(b, w) && w.ids.shared.max != Some(0)
    requires Can(b, w, OnIds(t, a)) && !Holds(w.ids, id, subject)
    ensures Holds(Do(b, w, OnIds(t, a)).ids, id, subject) <==> PutsUnderId(b, w, OnIds(t, a), id, subject)
  {
    ActionPutsIff(w.ids, a, id, subject);
    if a.StoreValue? {
      IdLeaderIsAsked(b, w, t, a);
    }
  }

  lemma IdIndexPutsIff(b: Backend, w: World, t: Tid, id: SchemaId, subject: string)
    requires Inv(w.ids) && IndexesFit(w) && w.ids.shared.max != Some(0)
    requires Can(b, w, IndexById(t)) && !Holds(w.ids, id, subject)
    ensures Holds(Do(b, w, IndexById(t)).ids, id, subject) <==> PutsUnderId(b, w, IndexById(t), id, subject)
  {
    var f := w.frames[t];
    assert IndexFits(f);
    if f.step.schema.id.Some? {
      InsertPutsIff(w.ids, f.step.schema.id.value, f.step.schema, f.step.at.id, id, subject);
    }
  }

  lemma OtherActsPutNothing(b: Backend, w: World, act: Act)
    requires Can(b, w, act)
    ensures !act.OnIds? && !act.IndexById? ==> Do(b, w, act).ids == w.ids
    ensures !act.OnGuids? && !act.IndexByGuid? ==> Do(b, w, act).guids == w.guids
  {
  }

  /** In every reachable state, exactly these steps put an entry of the subject
      under an ID that had none: they are the only ones that can undo a delete's
      first half. */
  lemma PutsUnderIdExactly(b: Backend, maxEntries: nat, acts: seq<Act>, w: World, act: Act, id: SchemaId, subject: string)
    requires WorldReached(b, maxEntries, acts, w) && Can(b, w, act) && !Holds(w.ids, id, subject)
    ensures Holds(Do(b, w, act).ids, id, subject) <==> PutsUnderId(b, w, act, id, subject)
  {
    ReachedFacts(b, maxEntries, acts, w);
    match act
    case OnIds(t, a) => IdActionPutsIff(b, w, t, a, id, subject);
    case IndexById(t) => IdIndexPutsIff(b, w, t, id, subject);
    case _ => OtherActsPutNothing(b, w, act);
  }

  lemma GuidActionPutsIff(b: Backend, w: World, t: Tid, g: Action<SchemaGuid, Schema>, guid: SchemaGuid, subject: string)
    requires WorldInv(b, w) && w.guids.shared.max != Some(0)
    requires Can(b, w, OnGuids(t, g)) && !Holds(w.guids, guid, subject)
    ensures Holds(Do(b, w, OnGuids(t, g)).guids, guid, subject) <==> PutsUnderGuid(b, w, OnGuids(t, g), guid, subject)
  {
    ActionPutsIff(w.guids, g, guid, subject);
    if g.StoreValue? {
      GuidLeaderIsAsked(b, w, t, g);
    }
  }

  lemma GuidIndexPutsIff(b: Backend, w: World, t: Tid, guid: SchemaGuid, subject: string)
    requires Inv(w.guids) && IndexesFit(w) && w.guids.shared.max != Some(0)
    requires Can(b, w, IndexByGuid(t)) && !Holds(w.guids, guid, subject)
    ensures Holds(Do(b, w, IndexByGuid(t)).guids, guid, subject) <==> PutsUnderGuid(b, w, IndexByGuid(t), guid, subject)
  {
    var f := w.frames[t];
    assert IndexFits(f);
    if f.step.schema.guid.Some? {
      InsertPutsIff(w.guids, f.step.schema.guid.value, f.step.schema, f.step.at.guid, guid, subject);
    }
  }

  /** The same for the GUID cache and a delete's second half. */
  lemma PutsUnderGuidExactly(b: Backend, maxEntries: nat, acts: seq<Act>, w: World, act: Act, guid: SchemaGuid, subject: string)
    requires WorldReached(b, maxEntries, acts, w) && Can(b, w, act) && !Holds(w.guids, guid, subject)
    ensures Holds(Do(b, w, act).guids, guid, subject) <==> PutsUnderGuid(b, w, act, guid, subject)
  {
    ReachedFacts(b, maxEntries, acts, w);
    match act
    case OnGuids(t, g) => GuidActionPutsIff(b, w, t, g, guid, subject);
    case IndexByGuid(t) => GuidIndexPutsIff(b, w, t, guid, subject);
    case _ => OtherActsPutNothing(b, w, act);
  }

  // ── The run ─────────────────────────────────────────────────────────────

  const ID := SchemaId(7)
  const GUID := SchemaGuid([1])
  const SUBJECT := "orders"
  const CONTENT := Content(Avro, "{}", [])
  const SCHEMA := Schema(Some(ID), Some(GUID), CONTENT, Some(1), Some(SUBJECT))

  function TheBackend(): Backend {
    Backend((_: SchemaId) => CONTENT, (_: SchemaGuid) => CONTENT)
  }

  function DropIds(): Op<SchemaId, Schema> {
    InvalidateMatching(HasSubject(SUBJECT))
  }

  function DropGuids(): Op<SchemaGuid, Schema> {
    InvalidateMatching(HasSubject(SUBJECT))
  }

  /** A cache without fetches, at the given generation. */
  function Quiet<K(==), V>(entries: map<K, Stamped<V>>, order: seq<K>, generation: nat, pcs: map<Tid, Pc<K, V>>): State<K, V> {
    State(Shared(Store(entries, order), Some(4), 0, generation, map[]), pcs, map[], {})
  }

  function IdStore(observed: nat): map<SchemaId, Stamped<Schema>> {
    map[ID := Stamped(SCHEMA, ByInsert(observed))]
  }

  function GuidStore(): map<SchemaGuid, Stamped<Schema>> {
    map[GUID := Stamped(SCHEMA, ByInsert(0))]
  }

  /** Call 0 looked up the subject's latest schema. */
  function Populated(): World {
    World(Quiet(IdStore(0), [ID], 0, map[]), Quiet(GuidStore(), [GUID], 0, map[]),
      map[0 := Frame(BySubject(SUBJECT), Answered(SCHEMA))])
  }

  /** Call 1 deleted the subject and is done with the ID cache. */
  function HalfWay(): World {
    World(Quiet(map[], [], 1, map[1 := Invalidated(DropIds(), 1)]), Quiet(GuidStore(), [GUID], 0, map[]),
      map[0 := Frame(BySubject(SUBJECT), Answered(SCHEMA)), 1 := Frame(Delete(SUBJECT), DroppingByGuid)])
  }

  /** Call 2 looked up the GUID and indexed the ID again. */
  function BackAgain(): World {
    World(Quiet(IdStore(1), [ID], 1, map[1 := Invalidated(DropIds(), 1)]),
      Quiet(GuidStore(), [GUID], 0, map[2 := Returned(GUID, SCHEMA)]),
      map[0 := Frame(BySubject(SUBJECT), Answered(SCHEMA)), 1 := Frame(Delete(SUBJECT), DroppingByGuid),
          2 := Frame(ByGuid(GUID), Answered(SCHEMA))])
  }

  /** Call 1 is done with the GUID cache too. */
  function Deleted(): World {
    World(Quiet(IdStore(1), [ID], 1, map[1 := Invalidated(DropIds(), 1)]),
      Quiet(map[], [], 1, map[2 := Returned(GUID, SCHEMA), 1 := Invalidated(DropGuids(), 1)]),
      map[0 := Frame(BySubject(SUBJECT), Answered(SCHEMA)), 1 := Frame(Delete(SUBJECT), Finished),
          2 := Frame(ByGuid(GUID), Answered(SCHEMA))])
  }

  lemma {:induction false} AppendAct(b: Backend, w: World, acts: seq<Act>, act: Act)
    requires IsHistory(b, w, acts) && Can(b, AfterActs(b, w, acts), act)
    ensures IsHistory(b, w, acts + [act])
    ensures AfterActs(b, w, acts + [act]) == Do(b, AfterActs(b, w, acts), act)
    decreases |acts|
  {
    if acts == [] {
      assert [] + [act] == [act] && [act][1..] == [];
    } else {
      AppendAct(b, Do(b, w, acts[0]), acts[1..], act);
      assert (acts + [act])[1..] == acts[1..] + [act];
    }
  }

  lemma {:induction false} AppendActs(b: Backend, w: World, acts: seq<Act>, more: seq<Act>)
    requires IsHistory(b, w, acts) && IsHistory(b, AfterActs(b, w, acts), more)
    ensures IsHistory(b, w, acts + more)
    ensures AfterActs(b, w, acts + more) == AfterActs(b, AfterActs(b, w, acts), more)
    decreases |acts|
  {
    if acts == [] {
      assert [] + more == more;
    } else {
      AppendActs(b, Do(b, w, acts[0]), acts[1..], more);
      assert (acts + more)[1..] == acts[1..] + more;
    }
  }

  /** `w'` is what `acts` make of `w`. */
  ghost predicate Leads(w: World, acts: seq<Act>, w': World) {
    IsHistory(TheBackend(), w, acts) && AfterActs(TheBackend(), w, acts) == w'
  }

  /** One more act onto a history. */
  lemma Next(w: World, acts: seq<Act>, w1: World, act: Act, w2: World) returns (more: seq<Act>)
    requires Leads(w, acts, w1) && Can(TheBackend(), w1, act) && Do(TheBackend(), w1, act) == w2
    ensures Leads(w, more, w2) && more == acts + [act]
  {
    AppendAct(TheBackend(), w, acts, act);
    more := acts + [act];
  }

  lemma Populating() returns (acts: seq<Act>)
    ensures Leads(Fresh(4), acts, Populated())
  {
    var b := TheBackend();
    var w0 := Fresh(4);
    var w1 := Do(b, w0, Begin(0, BySubject(SUBJECT)));
    var w2 := Do(b, w1, SampleIdGen(0));
    var w3 := Do(b, w2, SampleGuidGen(0));
    var w4 := Do(b, w3, BackendAnswers(0, Ok(SCHEMA)));
    acts := Next(w0, [], w0, Begin(0, BySubject(SUBJECT)), w1);
    acts := Next(w0, acts, w1, SampleIdGen(0), w2);
    acts := Next(w0, acts, w2, SampleGuidGen(0), w3);
    acts := Next(w0, acts, w3, BackendAnswers(0, Ok(SCHEMA)), w4);
    assert w4.frames == map[0 := Frame(BySubject(SUBJECT), IndexingId(Generations(0, 0), SCHEMA))];
    acts := Indexing(w0, acts, w4);
  }

  /** Call 0 indexes its schema under both identifiers. */
  lemma Indexing(w0: World, before: seq<Act>, w4: World) returns (acts: seq<Act>)
    requires w4 == World(Quiet(map[], [], 0, map[]), Quiet(map[], [], 0, map[]),
      map[0 := Frame(BySubject(SUBJECT), IndexingId(Generations(0, 0), SCHEMA))])
    requires Leads(w0, before, w4)
    ensures Leads(w0, acts, Populated())
  {
    var b := TheBackend();
    var w5 := Do(b, w4, IndexById(0));
    assert w5.ids.shared.store == Store(IdStore(0), [ID]);
    acts := Next(w0, before, w4, IndexById(0), w5);
    var w6 := Do(b, w5, IndexByGuid(0));
    assert w6.guids.shared.store == Store(GuidStore(), [GUID]);
    assert w6 == Populated();
    acts := Next(w0, acts, w5, IndexByGuid(0), w6);
  }

  /** A cache with one entry, of the subject, after `i` steps of an invalidation
      of that subject by call `t`. */
  function Dropping<K(==)>(k: K, e: Stamped<Schema>, pcs: map<Tid, Pc<K, Schema>>, t: Tid, i: nat): State<K, Schema> {
    var op := InvalidateMatching(HasSubject(SUBJECT));
    if i == 0 then Quiet(map[k := e], [k], 0, pcs)
    else if i == 1 then Quiet(map[k := e], [k], 0, pcs[t := Starting(op)])
    else if i == 2 then Quiet(map[k := e], [k], 1, pcs[t := Bumped(op, 1)])
    else if i == 3 then Quiet(map[], [], 1, pcs[t := Removed(op, 1, {k})])
    else if i == 4 then Quiet(map[], [], 1, pcs[t := Notifying(op, 1, map[])])
    else Quiet(map[], [], 1, pcs[t := Invalidated(op, 1)])
  }

  function DropStep<K>(t: Tid, i: nat): Action<K, Schema> {
    if i == 0 then CallInvalidate(t, InvalidateMatching(HasSubject(SUBJECT)))
    else if i == 1 then BumpCounter(t)
    else if i == 2 then DropStored(t)
    else if i == 3 then TakeDoomed(t)
    else FinishNotifying(t)
  }

  lemma MatchIsFound<K(!new)>(k: K, e: Stamped<Schema>, pcs: map<Tid, Pc<K, Schema>>)
    requires e.value.subject == Some(SUBJECT)
    ensures var sh := Quiet(map[k := e], [k], 1, pcs).shared;
      && Victims(sh, InvalidateMatching(HasSubject(SUBJECT))) == {k}
      && RemoveStored(sh, {k}) == Quiet(map[], [], 1, pcs).shared
  {
    var sh := Quiet(map[k := e], [k], 1, pcs).shared;
    var op: Op<K, Schema> := InvalidateMatching(HasSubject(SUBJECT));
    forall x
      ensures x in Victims(sh, op) <==> x == k
    {
    }
    var gone := RemoveKeys(sh.store, {k});
    assert gone.entries == map[];
    RetainElements([k], {k});
    RetainDistinct([k], {k});
    DistinctSize(gone.order);
  }

  lemma NothingToCancel<K(!new)>(s: State<K, Schema>, k: K)
    requires s.shared.inFlight == map[] && s.revoked == {}
    ensures Revoke(s, {k}) == (s, map[])
  {
    var r := Revoke(s, {k});
    assert r.0.revoked == {};
    assert r.1 == map[];
  }

  lemma DropStepApplies<K(!new)>(k: K, e: Stamped<Schema>, pcs: map<Tid, Pc<K, Schema>>, t: Tid, i: nat)
    requires t !in pcs && i < 5 && e.value.subject == Some(SUBJECT)
    ensures Enabled(Dropping(k, e, pcs, t, i), DropStep(t, i))
    ensures Apply(Dropping(k, e, pcs, t, i), DropStep(t, i)) == Dropping(k, e, pcs, t, i + 1)
  {
    var s, s' := Dropping(k, e, pcs, t, i), Dropping(k, e, pcs, t, i + 1);
    if i == 2 {
      MatchIsFound(k, e, s.pcs);
    } else if i == 3 {
      NothingToCancel(s, k);
    }
    assert Apply(s, DropStep(t, i)).pcs == s'.pcs;
  }

  /** Call 1's invalidation of the ID cache, between `Begin` and `DropEnds`. */
  function DroppingIds(i: nat): World {
    World(Dropping(ID, Stamped(SCHEMA, ByInsert(0)), map[], 1, i), Quiet(GuidStore(), [GUID], 0, map[]),
      map[0 := Frame(BySubject(SUBJECT), Answered(SCHEMA)), 1 := Frame(Delete(SUBJECT), DroppingById)])
  }

  lemma {:induction false} DropsIds(i: nat) returns (acts: seq<Act>)
    requires i <= 5
    ensures Leads(DroppingIds(0), acts, DroppingIds(i))
  {
    if i == 0 {
      acts := [];
    } else {
      acts := DropsIds(i - 1);
      DropStepApplies(ID, Stamped(SCHEMA, ByInsert(0)), map[], 1, i - 1);
      acts := Next(DroppingIds(0), acts, DroppingIds(i - 1), OnIds(1, DropStep(1, i - 1)), DroppingIds(i));
    }
  }

  lemma StartingDelete() returns (acts: seq<Act>)
    ensures Leads(Populated(), acts, DroppingIds(0))
  {
    var b := TheBackend();
    var w1 := Do(b, Populated(), Begin(1, Delete(SUBJECT)));
    acts := Next(Populated(), [], Populated(), Begin(1, Delete(SUBJECT)), w1);
    assert Do(b, w1, DeleteAnswers(1, true)) == DroppingIds(0);
    acts := Next(Populated(), acts, w1, DeleteAnswers(1, true), DroppingIds(0));
  }

  lemma LeavingIds() returns (acts: seq<Act>)
    ensures Leads(DroppingIds(0), acts, HalfWay())
  {
    var b := TheBackend();
    acts := DropsIds(5);
    assert Do(b, DroppingIds(5), DropEnds(1)) == HalfWay();
    acts := Next(DroppingIds(0), acts, DroppingIds(5), DropEnds(1), HalfWay());
  }

  lemma GoingHalfWay() returns (acts: seq<Act>)
    ensures Leads(Populated(), acts, HalfWay())
  {
    var first := StartingDelete();
    var second := LeavingIds();
    AppendActs(TheBackend(), Populated(), first, second);
    acts := first + second;
  }

  /** Call 2 while it looks the GUID up. */
  function LookingUp(pcs: map<Tid, Pc<SchemaGuid, Schema>>, step: Step): World {
    World(Quiet(map[], [], 1, map[1 := Invalidated(DropIds(), 1)]), Quiet(GuidStore(), [GUID], 0, pcs),
      map[0 := Frame(BySubject(SUBJECT), Answered(SCHEMA)), 1 := Frame(Delete(SUBJECT), DroppingByGuid),
          2 := Frame(ByGuid(GUID), step)])
  }

  lemma StartingLookup() returns (acts: seq<Act>)
    ensures Leads(HalfWay(), acts, LookingUp(map[], Looking(Generations(1, 0))))
  {
    var b := TheBackend();
    var w0 := HalfWay();
    assert Do(b, w0, Begin(2, ByGuid(GUID))) == LookingUp(map[], Sampling);
    acts := Next(w0, [], w0, Begin(2, ByGuid(GUID)), LookingUp(map[], Sampling));
    assert Do(b, LookingUp(map[], Sampling), SampleIdGen(2)) == LookingUp(map[], SampledId(1));
    acts := Next(w0, acts, LookingUp(map[], Sampling), SampleIdGen(2), LookingUp(map[], SampledId(1)));
    assert Do(b, LookingUp(map[], SampledId(1)), SampleGuidGen(2)) == LookingUp(map[], Looking(Generations(1, 0)));
    acts := Next(w0, acts, LookingUp(map[], SampledId(1)), SampleGuidGen(2), LookingUp(map[], Looking(Generations(1, 0))));
  }

  lemma HittingTheGuid() returns (acts: seq<Act>)
    ensures Leads(LookingUp(map[], Looking(Generations(1, 0))), acts,
      LookingUp(map[2 := Returned(GUID, SCHEMA)], Looking(Generations(1, 0))))
  {
    var b, at := TheBackend(), Generations(1, 0);
    var w0 := LookingUp(map[], Looking(at));
    var w1 := LookingUp(map[2 := FastReading(GUID)], Looking(at));
    var w2 := LookingUp(map[2 := Returned(GUID, SCHEMA)], Looking(at));
    assert Do(b, w0, OnGuids(2, CallGet(2, GUID))) == w1;
    acts := Next(w0, [], w0, OnGuids(2, CallGet(2, GUID)), w1);
    assert Do(b, w1, OnGuids(2, FastRead(2))) == w2;
    acts := Next(w0, acts, w1, OnGuids(2, FastRead(2)), w2);
  }

  lemma CrossIndexing() returns (acts: seq<Act>)
    ensures Leads(LookingUp(map[2 := Returned(GUID, SCHEMA)], Looking(Generations(1, 0))), acts, BackAgain())
  {
    var b, at := TheBackend(), Generations(1, 0);
    var w0 := LookingUp(map[2 := Returned(GUID, SCHEMA)], Looking(at));
    var w1 := LookingUp(map[2 := Returned(GUID, SCHEMA)], IndexingId(at, SCHEMA));
    assert Do(b, w0, LookupEnds(2)) == w1;
    acts := Next(w0, [], w0, LookupEnds(2), w1);
    var w2 := Do(b, w1, IndexById(2));
    assert w2.ids.shared.store == Store(IdStore(1), [ID]);
    assert w2.frames == BackAgain().frames;
    assert w2.ids == BackAgain().ids;
    assert w2.guids == BackAgain().guids;
    acts := Next(w0, acts, w1, IndexById(2), w2);
  }

  /** Call 1's invalidation of the GUID cache. */
  function DroppingGuids(i: nat): World {
    World(Quiet(IdStore(1), [ID], 1, map[1 := Invalidated(DropIds(), 1)]),
      Dropping(GUID, Stamped(SCHEMA, ByInsert(0)), map[2 := Returned(GUID, SCHEMA)], 1, i),
      map[0 := Frame(BySubject(SUBJECT), Answered(SCHEMA)), 1 := Frame(Delete(SUBJECT), DroppingByGuid),
          2 := Frame(ByGuid(GUID), Answered(SCHEMA))])
  }

  lemma {:induction false} DropsGuids(i: nat) returns (acts: seq<Act>)
    requires i <= 5
    ensures Leads(DroppingGuids(0), acts, DroppingGuids(i))
  {
    if i == 0 {
      acts := [];
    } else {
      acts := DropsGuids(i - 1);
      DropStepApplies(GUID, Stamped(SCHEMA, ByInsert(0)), map[2 := Returned(GUID, SCHEMA)], 1, i - 1);
      acts := Next(DroppingGuids(0), acts, DroppingGuids(i - 1), OnGuids(1, DropStep(1, i - 1)), DroppingGuids(i));
    }
  }

  lemma Finishing() returns (acts: seq<Act>)
    ensures Leads(BackAgain(), acts, Deleted())
  {
    assert BackAgain() == DroppingGuids(0);
    acts := DropsGuids(5);
    var w1 := Do(TheBackend(), DroppingGuids(5), DropEnds(1));
    assert w1.guids.pcs == Deleted().guids.pcs;
    assert w1.frames == Deleted().frames;
    acts := Next(BackAgain(), acts, DroppingGuids(5), DropEnds(1), w1);
  }

  /** The documentation says that a delete drops everything cached under the
      subject. Here it has finished, successfully, and the subject's schema is
      cached under its ID: a lookup by GUID ran between its two halves. */
  lemma DeletedSubjectCanReturn() returns (acts: seq<Act>)
    ensures WorldReached(TheBackend(), 4, acts, Deleted())
    ensures Deleted().frames[1] == Frame(Delete(SUBJECT), Finished)
    ensures Holds(Deleted().ids, ID, SUBJECT)
  {
    var b := TheBackend();
    var first := Populating();
    var second := GoingHalfWay();
    var third := StartingLookup();
    var fourth := HittingTheGuid();
    var fifth := CrossIndexing();
    var sixth := Finishing();
    AppendActs(b, Fresh(4), first, second);
    AppendActs(b, Fresh(4), first + second, third);
    AppendActs(b, Fresh(4), first + second + third, fourth);
    AppendActs(b, Fresh(4), first + second + third + fourth, fifth);
    AppendActs(b, Fresh(4), first + second + third + fourth + fifth, sixth);
    acts := first + second + third + fourth + fifth + sixth;
  }
}
