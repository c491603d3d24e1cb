/**
 What each call of the caching registry (src/cache.rs) goes through: a lookup
 indexes the other identifier before it answers, with the samples it took before
 it asked; a finished drop has run its operation in each cache it is about, and a
 failed delete in none.
 */
module RegistryCalls {
  import opened Prelude
  import opened FifoStore
  import opened CacheState
  import opened CacheProtocol
  import opened CacheInvariants
  import opened CacheTheorems
  import opened CacheContents
  import opened RegistryCache
  import opened RegistryCoherence
  import opened SubjectReturns

  // ── Beginnings ──────────────────────────────────────────────────────────

  /** A lookup begins by sampling, warming by fetching, a delete by asking the
      backend, and a drop with the first cache it is about. */
  lemma CallsBegin(b: Backend, w: World, t: Tid, call: Call)
    requires Can(b, w, Begin(t, call))
    ensures var f := Do(b, w, Begin(t, call)).frames[t];
      && f.call == call
      && (call.ById? || call.ByGuid? || call.BySubject? ==> f.step == Sampling)
      && (call.Warm? ==> f.step == Warming)
      && (call.Delete? ==> f.step == Deleting)
      && (call.DropId? || call.DropAll? || call.DropSubject? ==> f.step == DroppingById)
      && (call.DropGuid? ==> f.step == DroppingByGuid)
  {
  }

  // ── From an outcome to the answer ───────────────────────────────────────

  /** A call of `get_or_fetch` that is over: as a hit, as a leader or as a waiter. */
  predicate EndedWith<K(==), V(==)>(pc: Pc<K, V>, v: V) {
    || (pc.Returned? && pc.value == v)
    || ((pc.Led? || pc.Woken?) && pc.outcome == Value(v))
  }

  predicate EndedWithout<K, V>(pc: Pc<K, V>) {
    (pc.Led? || pc.Woken?) && !pc.outcome.Value?
  }

  /** By ID a lookup goes on to index the GUID, by GUID the ID, by subject the ID
      first, each with the schema it got and the samples it took; warming answers
      at once, and without a schema they all fail. */
  lemma LookupGoesOn(b: Backend, w: World, t: Tid, v: Schema)
    requires t in w.frames
    ensures w.frames[t].call.ById? && w.frames[t].step.Looking? && t in w.ids.pcs && EndedWith(w.ids.pcs[t], v) ==>
      && Can(b, w, LookupEnds(t))
      && Do(b, w, LookupEnds(t)).frames[t].step == IndexingGuid(w.frames[t].step.at, v)
    ensures w.frames[t].call.ByGuid? && w.frames[t].step.Looking? && t in w.guids.pcs && EndedWith(w.guids.pcs[t], v) ==>
      && Can(b, w, LookupEnds(t))
      && Do(b, w, LookupEnds(t)).frames[t].step == IndexingId(w.frames[t].step.at, v)
    ensures w.frames[t].call.BySubject? && Can(b, w, BackendAnswers(t, Ok(v))) ==>
      Do(b, w, BackendAnswers(t, Ok(v))).frames[t].step == IndexingId(w.frames[t].step.at, v)
    ensures w.frames[t].call.Warm? && w.frames[t].step.Warming? && t in w.ids.pcs && EndedWith(w.ids.pcs[t], v) ==>
      Can(b, w, LookupEnds(t)) && Do(b, w, LookupEnds(t)).frames[t].step == Answered(v)
  {
  }

  lemma LookupGivesUp(b: Backend, w: World, t: Tid, e: FetchError)
    requires t in w.frames
    ensures w.frames[t].call.ById? && w.frames[t].step.Looking? && t in w.ids.pcs && EndedWithout(w.ids.pcs[t]) ==>
      Can(b, w, LookupEnds(t)) && Do(b, w, LookupEnds(t)).frames[t].step == Failing
    ensures w.frames[t].call.ByGuid? && w.frames[t].step.Looking? && t in w.guids.pcs && EndedWithout(w.guids.pcs[t]) ==>
      Can(b, w, LookupEnds(t)) && Do(b, w, LookupEnds(t)).frames[t].step == Failing
    ensures w.frames[t].call.BySubject? && w.frames[t].step.Looking? ==>
      && Can(b, w, BackendAnswers(t, Err(e)))
      && Do(b, w, BackendAnswers(t, Err(e))).frames[t].step == Failing
  {
  }

  /** Act `act` makes lookup `t` answer. */
  ghost predicate MakesAnswer(b: Backend, w: World, act: Act, t: Tid) {
    && Can(b, w, act) && t in w.frames && !w.frames[t].step.Answered?
    && Do(b, w, act).frames[t].step.Answered?
  }

  lemma AnsweringActs(b: Backend, w: World, act: Act, t: Tid)
    requires IndexesFit(w) && MakesAnswer(b, w, act, t)
    ensures w.frames[t].call.ById? || w.frames[t].call.BySubject? ==> act == IndexByGuid(t)
    ensures w.frames[t].call.ByGuid? ==> act == IndexById(t)
  {
    assert IndexFits(w.frames[t]);
  }

  /** A current index step leaves its schema in the cache. */
  lemma IndexStores<K(!new)>(sh: Shared<K, Stamped<Schema>>, k: K, schema: Schema)
    requires ValidStore(sh) && sh.max != Some(0)
    ensures var sh' := InsertIfCurrent(sh, k, Stamped(schema, ByInsert(sh.generation)), sh.generation);
      k in sh'.store.entries && sh'.store.entries[k].value == schema
  {
    InsertEntries(sh.store, sh.max, k, Stamped(schema, ByInsert(sh.generation)));
  }

  /** From `w` to `w'` lookup `t` went from indexing the GUID to its answer, and if
      the schema has a GUID and the sample is current, it is cached under it. */
  ghost predicate GuidIndexed(w: World, w': World, t: Tid) {
    && t in w.frames && w.frames[t].step.IndexingGuid?
    && var IndexingGuid(at, schema) := w.frames[t].step;
    && t in w'.frames && w'.frames[t].step == Answered(schema)
    && (schema.guid.Some? && at.guid == w.guids.shared.generation ==>
      var entries := w'.guids.shared.store.entries;
      schema.guid.value in entries && entries[schema.guid.value].value == schema)
  }

  ghost predicate IdIndexed(w: World, w': World, t: Tid) {
    && t in w.frames && w.frames[t].step.IndexingId?
    && var IndexingId(at, schema) := w.frames[t].step;
    && t in w'.frames && w'.frames[t].step == Answered(schema)
    && (schema.id.Some? && at.id == w.ids.shared.generation ==>
      var entries := w'.ids.shared.store.entries;
      schema.id.value in entries && entries[schema.id.value].value == schema)
  }

  lemma GuidIsIndexed(b: Backend, w: World, t: Tid)
    requires Inv(w.guids) && w.guids.shared.max != Some(0) && Can(b, w, IndexByGuid(t))
    ensures GuidIndexed(w, Do(b, w, IndexByGuid(t)), t)
  {
    var f := w.frames[t];
    if f.step.schema.guid.Some? {
      IndexStores(w.guids.shared, f.step.schema.guid.value, f.step.schema);
    }
  }

  lemma IdIsIndexed(b: Backend, w: World, t: Tid)
    requires Inv(w.ids) && w.ids.shared.max != Some(0) && Can(b, w, IndexById(t)) && w.frames[t].call.ByGuid?
    ensures IdIndexed(w, Do(b, w, IndexById(t)), t)
  {
    var f := w.frames[t];
    if f.step.schema.id.Some? {
      IndexStores(w.ids.shared, f.step.schema.id.value, f.step.schema);
    }
  }

  /** A lookup by ID or by subject answers only by indexing the GUID, one by GUID
      only by indexing the ID, and right after that its schema is cached under that
      identifier if it has one and nothing was invalidated since the sample. */
  lemma AnswersAreIndexed(b: Backend, maxEntries: nat, acts: seq<Act>, w: World, act: Act, t: Tid)
    requires WorldReached(b, maxEntries, acts, w) && MakesAnswer(b, w, act, t)
    ensures w.frames[t].call.ById? || w.frames[t].call.BySubject? ==>
      act == IndexByGuid(t) && GuidIndexed(w, Do(b, w, act), t)
    ensures w.frames[t].call.ByGuid? ==>
      act == IndexById(t) && IdIndexed(w, Do(b, w, act), t)
  {
    ReachedFacts(b, maxEntries, acts, w);
    AnsweringActs(b, w, act, t);
    if w.frames[t].call.ById? || w.frames[t].call.BySubject? {
      GuidIsIndexed(b, w, t);
    } else if w.frames[t].call.ByGuid? {
      IdIsIndexed(b, w, t);
    }
  }

  /** A lookup by subject comes to the GUID only past the ID, with the same schema
      and samples. */
  lemma SubjectIndexesIdFirst(b: Backend, w: World, act: Act, t: Tid)
    requires Can(b, w, act) && t in w.frames && w.frames[t].call.BySubject?
    requires !w.frames[t].step.IndexingGuid? && Do(b, w, act).frames[t].step.IndexingGuid?
    ensures act == IndexById(t) && w.frames[t].step.IndexingId?
    ensures Do(b, w, act).frames[t].step == IndexingGuid(w.frames[t].step.at, w.frames[t].step.schema)
  {
  }

  // ── Samples are from before the question ────────────────────────────────

  /** Lookup `f` took sample `at`, and uses no other. */
  predicate Sampled(f: Frame, at: Generations) {
    match f.step
    case Looking(a) => a == at
    case IndexingId(a, _) => a == at
    case IndexingGuid(a, _) => a == at
    case Answered(_) => true
    case Failing => true
    case _ => false
  }

  lemma SampleStays(b: Backend, w: World, act: Act, t: Tid, at: Generations)
    requires Can(b, w, act) && t in w.frames && Sampled(w.frames[t], at)
    ensures var w' := Do(b, w, act);
      t in w'.frames && Sampled(w'.frames[t], at) && w'.frames[t].call == w.frames[t].call
  {
  }

  lemma {:induction false} SampleStaysThroughout(b: Backend, w: World, acts: seq<Act>, t: Tid, at: Generations)
    requires IsHistory(b, w, acts) && t in w.frames && Sampled(w.frames[t], at)
    ensures var w' := AfterActs(b, w, acts); t in w'.frames && Sampled(w'.frames[t], at)
    decreases |acts|
  {
    if acts != [] {
      SampleStays(b, w, acts[0], t, at);
      SampleStaysThroughout(b, Do(b, w, acts[0]), acts[1..], t, at);
    }
  }

  /** What the samples are for: if a cache is invalidated after a lookup has begun
      to ask - even before it has an answer - its index step leaves that cache as
      it is. */
  lemma NothingIsIndexedAcrossInvalidation(
      b: Backend, maxEntries: nat, acts: seq<Act>, w: World, later: seq<Act>, t: Tid)
    requires WorldReached(b, maxEntries, acts, w) && t in w.frames && w.frames[t].step.Looking?
    requires IsHistory(b, w, later)
    ensures var w' := AfterActs(b, w, later);
      && (Can(b, w', IndexById(t)) && w.ids.shared.generation < w'.ids.shared.generation ==>
        Do(b, w', IndexById(t)).ids == w'.ids)
      && (Can(b, w', IndexByGuid(t)) && w.guids.shared.generation < w'.guids.shared.generation ==>
        Do(b, w', IndexByGuid(t)).guids == w'.guids)
  {
    SamplesAreReached(b, maxEntries, acts, w, t);
    SampleStaysThroughout(b, w, later, t, w.frames[t].step.at);
  }

  /** Both samples are the counters as they stand when taken, the ID's first. */
  lemma SamplesAreCurrent(b: Backend, w: World, t: Tid)
    ensures Can(b, w, SampleIdGen(t)) ==>
      Do(b, w, SampleIdGen(t)).frames[t].step == SampledId(w.ids.shared.generation)
    ensures Can(b, w, SampleGuidGen(t)) ==>
      Do(b, w, SampleGuidGen(t)).frames[t].step
      == Looking(Generations(w.frames[t].step.idGen, w.guids.shared.generation))
  {
  }

  // ── Drops ───────────────────────────────────────────────────────────────

  /** A finished drop has finished its operation in each cache it is about, and
      started none in the other. */
  lemma FinishedDropsRan(b: Backend, maxEntries: nat, acts: seq<Act>, w: World, t: Tid)
    requires WorldReached(b, maxEntries, acts, w) && t in w.frames && w.frames[t].step.Finished?
    ensures match w.frames[t].call
      case Delete(subject) =>
        && t in w.ids.pcs && w.ids.pcs[t].Invalidated? && w.ids.pcs[t].op == InvalidateMatching(HasSubject(subject))
        && t in w.guids.pcs && w.guids.pcs[t].Invalidated? && w.guids.pcs[t].op == InvalidateMatching(HasSubject(subject))
      case DropSubject(subject) =>
        && t in w.ids.pcs && w.ids.pcs[t].Invalidated? && w.ids.pcs[t].op == InvalidateMatching(HasSubject(subject))
        && t in w.guids.pcs && w.guids.pcs[t].Invalidated? && w.guids.pcs[t].op == InvalidateMatching(HasSubject(subject))
      case DropAll =>
        && t in w.ids.pcs && w.ids.pcs[t].Invalidated? && w.ids.pcs[t].op == ClearAll
        && t in w.guids.pcs && w.guids.pcs[t].Invalidated? && w.guids.pcs[t].op == ClearAll
      case DropId(id) =>
        && t in w.ids.pcs && w.ids.pcs[t].Invalidated? && w.ids.pcs[t].op == InvalidateKey(id)
        && t !in w.guids.pcs
      case DropGuid(guid) =>
        && t in w.guids.pcs && w.guids.pcs[t].Invalidated? && w.guids.pcs[t].op == InvalidateKey(guid)
        && t !in w.ids.pcs
      case _ => true
  {
    WorldReachedInv(b, maxEntries, acts, w);
    assert JobsOk(w, t, w.frames[t]);
  }

  /** A delete that waits for the backend, or that the backend refused. */
  predicate Undeleted(f: Frame) {
    f.call.Delete? && (f.step.Deleting? || f.step.Failing?)
  }

  ghost predicate DeletesWait(w: World) {
    forall t :: t in w.frames && Undeleted(w.frames[t]) ==> t !in w.ids.pcs && t !in w.guids.pcs
  }

  lemma IdStepStartsActor(b: Backend, w: World, t: Tid, a: Action<SchemaId, Schema>, c: Tid)
    requires CachesOk(b, w) && Can(b, w, OnIds(t, a)) && c !in w.ids.pcs && c in Do(b, w, OnIds(t, a)).ids.pcs
    ensures c == t
  {
    JobsKept(w.ids, a, c);
  }

  lemma GuidStepStartsActor(b: Backend, w: World, t: Tid, g: Action<SchemaGuid, Schema>, c: Tid)
    requires CachesOk(b, w) && Can(b, w, OnGuids(t, g)) && c !in w.guids.pcs && c in Do(b, w, OnGuids(t, g)).guids.pcs
    ensures c == t
  {
    JobsKept(w.guids, g, c);
  }

  lemma ActorIsNoDelete(b: Backend, w: World, act: Act)
    requires Can(b, w, act) && (act.OnIds? || act.OnGuids?)
    ensures act.t in w.frames && !Undeleted(w.frames[act.t]) && Do(b, w, act).frames == w.frames
    ensures act.OnIds? ==> Do(b, w, act).guids == w.guids
    ensures act.OnGuids? ==> Do(b, w, act).ids == w.ids
  {
  }

  lemma OtherActsKeepDeletesWait(b: Backend, w: World, act: Act)
    requires Can(b, w, act) && DeletesWait(w) && !act.OnIds? && !act.OnGuids?
    ensures DeletesWait(Do(b, w, act))
  {
  }

  lemma DeletesWaitKept(b: Backend, w: World, act: Act)
    requires CachesOk(b, w) && Can(b, w, act) && DeletesWait(w)
    ensures DeletesWait(Do(b, w, act))
  {
    if !act.OnIds? && !act.OnGuids? {
      OtherActsKeepDeletesWait(b, w, act);
    } else {
      ActorIsNoDelete(b, w, act);
      var w' := Do(b, w, act);
      forall c | c in w'.frames && Undeleted(w'.frames[c])
        ensures c !in w'.ids.pcs && c !in w'.guids.pcs
      {
        if act.OnIds? && c in w'.ids.pcs {
          IdStepStartsActor(b, w, act.t, act.a, c);
        } else if act.OnGuids? && c in w'.guids.pcs {
          GuidStepStartsActor(b, w, act.t, act.g, c);
        }
      }
    }
  }

  lemma {:induction false} HistoryKeepsDeletesWait(b: Backend, w: World, acts: seq<Act>)
    requires IsHistory(b, w, acts) && WorldInv(b, w) && DeletesWait(w)
    ensures DeletesWait(AfterActs(b, w, acts))
    decreases |acts|
  {
    if acts != [] {
      WorldInvKept(b, w, acts[0]);
      DeletesWaitKept(b, w, acts[0]);
      HistoryKeepsDeletesWait(b, Do(b, w, acts[0]), acts[1..]);
    }
  }

  /** A delete drops nothing before the backend has answered, and nothing at all if
      the answer is an error: it has made no step in either cache. */
  lemma RefusedDeleteDropsNothing(b: Backend, maxEntries: nat, acts: seq<Act>, w: World, t: Tid)
    requires WorldReached(b, maxEntries, acts, w) && t in w.frames && w.frames[t].call.Delete?
    requires w.frames[t].step.Deleting? || w.frames[t].step.Failing?
    ensures t !in w.ids.pcs && t !in w.guids.pcs
  {
    InitInv<SchemaId, Schema>(Some(Bound(maxEntries)));
    InitInv<SchemaGuid, Schema>(Some(Bound(maxEntries)));
    HistoryKeepsDeletesWait(b, Fresh(maxEntries), acts);
  }

  /** The backend's answer decides between the two. */
  lemma AnswerDecidesDelete(b: Backend, w: World, t: Tid, deleted: bool)
    requires Can(b, w, DeleteAnswers(t, deleted))
    ensures Do(b, w, DeleteAnswers(t, deleted)).frames[t].step == if deleted then DroppingById else Failing
  {
  }
}
