/** The two identifier caches agree with the backend, and with deletions. */
module RegistryCoherence {
  import opened Prelude
  import opened CacheState
  import opened CacheProtocol
  import opened CacheInvariants
  import opened CacheStored
  import opened CacheTheorems
  import opened CacheContents
  import opened RegistryCache

  /** The schema has the content of the identifier the call asked for, and of
      every identifier it reports. */
  predicate AnswerFits(b: Backend, call: Call, s: Schema) {
    && Truthful(b, s)
    && (call.ById? || call.Warm? ==> s.content == b.byId(call.id))
    && (call.ByGuid? ==> s.content == b.byGuid(call.guid))
  }

  /** The samples a frame carries are values its counters have had. */
  ghost predicate SamplesOk(w: World, f: Frame) {
    match f.step
    case SampledId(g) => g <= w.ids.shared.generation
    case Looking(at) => at.id <= w.ids.shared.generation && at.guid <= w.guids.shared.generation
    case IndexingId(at, _) => at.id <= w.ids.shared.generation && at.guid <= w.guids.shared.generation
    case IndexingGuid(at, _) => at.id <= w.ids.shared.generation && at.guid <= w.guids.shared.generation
    case _ => true
  }

  predicate SchemaOk(b: Backend, f: Frame) {
    match f.step
    case IndexingId(_, s) => AnswerFits(b, f.call, s)
    case IndexingGuid(_, s) => AnswerFits(b, f.call, s)
    case Answered(s) => AnswerFits(b, f.call, s)
    case _ => true
  }

  /** What call `t` does in a cache is what its frame calls for. */
  ghost predicate IdJobOk(f: Frame, pc: Pc<SchemaId, Schema>) {
    if IsInvalidation(pc) then IdOp(f.call) == Some(pc.op)
    else (f.call.ById? || f.call.Warm?) && pc.key == f.call.id
  }

  ghost predicate GuidJobOk(f: Frame, pc: Pc<SchemaGuid, Schema>) {
    if IsInvalidation(pc) then GuidOp(f.call) == Some(pc.op)
    else f.call.ByGuid? && pc.key == f.call.guid
  }

  /** A drop is past a cache only when its operation there is finished. */
  ghost predicate DropsOk(w: World, t: Tid, f: Frame) {
    && ((f.step.DroppingByGuid? || f.step.Finished?) && IdOp(f.call).Some? ==>
      t in w.ids.pcs && w.ids.pcs[t].Invalidated?)
    && (f.step.Finished? && GuidOp(f.call).Some? ==> t in w.guids.pcs && w.guids.pcs[t].Invalidated?)
  }

  ghost predicate JobsOk(w: World, t: Tid, f: Frame) {
    && (t in w.ids.pcs ==> IdJobOk(f, w.ids.pcs[t]))
    && (t in w.guids.pcs ==> GuidJobOk(f, w.guids.pcs[t]))
    && DropsOk(w, t, f)
  }

  ghost predicate FramesOk(b: Backend, w: World) {
    && w.ids.pcs.Keys <= w.frames.Keys && w.guids.pcs.Keys <= w.frames.Keys
    && (forall t :: t in w.frames ==>
      SamplesOk(w, w.frames[t]) && SchemaOk(b, w.frames[t]) && JobsOk(w, t, w.frames[t]))
  }

  ghost predicate CachesOk(b: Backend, w: World) {
    && Inv(w.ids) && Sound(w.ids, FitsId(b))
    && Inv(w.guids) && Sound(w.guids, FitsGuid(b))
  }

  ghost predicate WorldInv(b: Backend, w: World) {
    CachesOk(b, w) && FramesOk(b, w)
  }

  // ── Actions inside a cache ──────────────────────────────────────────────

  lemma IdActionKeepsFrames(b: Backend, w: World, t: Tid, a: Action<SchemaId, Schema>)
    requires FramesOk(b, w) && Can(b, w, OnIds(t, a))
    ensures FramesOk(b, Do(b, w, OnIds(t, a)))
  {
    var w' := Do(b, w, OnIds(t, a));
    GenerationGrows(w.ids, a);
    CallsStay(w.ids, a);
    forall c | c in w'.ids.pcs
      ensures c in w.ids.pcs ==> SameJob(w.ids.pcs[c], w'.ids.pcs[c])
      ensures c !in w.ids.pcs ==> Begins(a, c, w'.ids.pcs[c])
    {
      JobsKept(w.ids, a, c);
    }
  }

  lemma GuidActionKeepsFrames(b: Backend, w: World, t: Tid, g: Action<SchemaGuid, Schema>)
    requires FramesOk(b, w) && Can(b, w, OnGuids(t, g))
    ensures FramesOk(b, Do(b, w, OnGuids(t, g)))
  {
    var w' := Do(b, w, OnGuids(t, g));
    GenerationGrows(w.guids, g);
    CallsStay(w.guids, g);
    forall c | c in w'.guids.pcs
      ensures c in w.guids.pcs ==> SameJob(w.guids.pcs[c], w'.guids.pcs[c])
      ensures c !in w.guids.pcs ==> Begins(g, c, w'.guids.pcs[c])
    {
      JobsKept(w.guids, g, c);
    }
  }

  lemma CacheActionsKeepInv(b: Backend, w: World, act: Act)
    requires WorldInv(b, w) && Can(b, w, act) && (act.OnIds? || act.OnGuids?)
    ensures WorldInv(b, Do(b, w, act))
  {
    match act
    case OnIds(t, a) =>
      IdActionKeepsFrames(b, w, t, a);
      InvKept(w.ids, a);
      SoundKept(w.ids, a, FitsId(b));
    case OnGuids(t, g) =>
      GuidActionKeepsFrames(b, w, t, g);
      InvKept(w.guids, g);
      SoundKept(w.guids, g, FitsGuid(b));
  }

  // ── Actions of the wrapper ──────────────────────────────────────────────

  lemma BeginKeepsFrames(b: Backend, w: World, t: Tid, call: Call)
    requires FramesOk(b, w) && Can(b, w, Begin(t, call))
    ensures FramesOk(b, Do(b, w, Begin(t, call)))
  {
  }

  /** One frame moves on; the caches stand still. */
  lemma StepKeepsFrames(b: Backend, w: World, t: Tid, step: Step)
    requires FramesOk(b, w) && t in w.frames
    requires SamplesOk(w, Frame(w.frames[t].call, step)) && SchemaOk(b, Frame(w.frames[t].call, step))
    requires DropsOk(w, t, Frame(w.frames[t].call, step))
    ensures FramesOk(b, SetStep(w, t, step))
  {
  }

  lemma FrameKeepsInv(b: Backend, w: World, t: Tid, step: Step)
    requires WorldInv(b, w) && t in w.frames
    requires SamplesOk(w, Frame(w.frames[t].call, step)) && SchemaOk(b, Frame(w.frames[t].call, step))
    requires DropsOk(w, t, Frame(w.frames[t].call, step))
    ensures WorldInv(b, SetStep(w, t, step))
  {
    StepKeepsFrames(b, w, t, step);
  }

  lemma LookupKeepsInv(b: Backend, w: World, t: Tid)
    requires WorldInv(b, w) && Can(b, w, LookupEnds(t))
    ensures WorldInv(b, Do(b, w, LookupEnds(t)))
  {
    var f := w.frames[t];
    if f.call.ByGuid? {
      GuidAnswerFits(b, w, t);
      FrameKeepsInv(b, w, t, AfterLookup(f.call, f.step.at, OutcomeAt(w.guids.pcs[t]).value));
    } else {
      IdAnswerFits(b, w, t);
      var at := if f.call.ById? then f.step.at else Generations(0, 0);
      FrameKeepsInv(b, w, t, AfterLookup(f.call, at, OutcomeAt(w.ids.pcs[t]).value));
    }
  }

  lemma GuidAnswerFits(b: Backend, w: World, t: Tid)
    requires WorldInv(b, w) && t in w.frames && w.frames[t].call.ByGuid?
    requires t in w.guids.pcs && OutcomeAt(w.guids.pcs[t]).Some?
    ensures var o := OutcomeAt(w.guids.pcs[t]).value; o.Value? ==> AnswerFits(b, w.frames[t].call, o.value)
  {
    assert GuidJobOk(w.frames[t], w.guids.pcs[t]);
    assert PcSound(w.guids.pcs[t], FitsGuid(b));
  }

  lemma IdAnswerFits(b: Backend, w: World, t: Tid)
    requires WorldInv(b, w) && t in w.frames && (w.frames[t].call.ById? || w.frames[t].call.Warm?)
    requires t in w.ids.pcs && OutcomeAt(w.ids.pcs[t]).Some?
    ensures var o := OutcomeAt(w.ids.pcs[t]).value; o.Value? ==> AnswerFits(b, w.frames[t].call, o.value)
  {
    assert IdJobOk(w.frames[t], w.ids.pcs[t]);
    assert PcSound(w.ids.pcs[t], FitsId(b));
  }

  /** `insert_if_current` with a sampled counter is an action of the cache. */
  lemma IndexKeepsCache<K(!new), V>(s: State<K, V>, k: K, v: V, observed: nat, ok: Fit<K, V>)
    requires Inv(s) && Sound(s, ok) && observed <= s.shared.generation && ok(k, v)
    ensures var s' := s.(shared := InsertIfCurrent(s.shared, k, Stamped(v, ByInsert(observed)), observed));
      Inv(s') && Sound(s', ok) && s'.shared.generation == s.shared.generation && s'.pcs == s.pcs
  {
    var a := InsertSampled(k, v, observed);
    InvKept(s, a);
    SoundKept(s, a, ok);
  }

  /** Frames see only the counters and the program counters of the caches. */
  lemma SameCountersKeepFrames(b: Backend, w: World, w': World)
    requires FramesOk(b, w) && w'.frames == w.frames
    requires w'.ids.pcs == w.ids.pcs && w'.ids.shared.generation == w.ids.shared.generation
    requires w'.guids.pcs == w.guids.pcs && w'.guids.shared.generation == w.guids.shared.generation
    ensures FramesOk(b, w')
  {
  }

  lemma IndexByIdKeepsInv(b: Backend, w: World, t: Tid)
    requires WorldInv(b, w) && Can(b, w, IndexById(t))
    ensures WorldInv(b, Do(b, w, IndexById(t)))
  {
    var f := w.frames[t];
    var next := if f.call.ByGuid? then Answered(f.step.schema) else IndexingGuid(f.step.at, f.step.schema);
    StepKeepsFrames(b, w, t, next);
    if f.step.schema.id.Some? {
      IndexKeepsCache(w.ids, f.step.schema.id.value, f.step.schema, f.step.at.id, FitsId(b));
      SameCountersKeepFrames(b, SetStep(w, t, next), Do(b, w, IndexById(t)));
    }
  }

  lemma IndexByGuidKeepsInv(b: Backend, w: World, t: Tid)
    requires WorldInv(b, w) && Can(b, w, IndexByGuid(t))
    ensures WorldInv(b, Do(b, w, IndexByGuid(t)))
  {
    var f := w.frames[t];
    StepKeepsFrames(b, w, t, Answered(f.step.schema));
    if f.step.schema.guid.Some? {
      IndexKeepsCache(w.guids, f.step.schema.guid.value, f.step.schema, f.step.at.guid, FitsGuid(b));
      SameCountersKeepFrames(b, SetStep(w, t, Answered(f.step.schema)), Do(b, w, IndexByGuid(t)));
    }
  }

  lemma DropEndsKeepsInv(b: Backend, w: World, t: Tid)
    requires WorldInv(b, w) && Can(b, w, DropEnds(t))
    ensures WorldInv(b, Do(b, w, DropEnds(t)))
  {
    var f := w.frames[t];
    assert JobsOk(w, t, f);
    FrameKeepsInv(b, w, t,
      if f.step.DroppingById? && GuidOp(f.call).Some? then DroppingByGuid else Finished);
  }

  lemma BeginKeepsInv(b: Backend, w: World, t: Tid, call: Call)
    requires WorldInv(b, w) && Can(b, w, Begin(t, call))
    ensures WorldInv(b, Do(b, w, Begin(t, call)))
  {
    BeginKeepsFrames(b, w, t, call);
  }

  /** Samples and outside answers. */
  lemma InputKeepsInv(b: Backend, w: World, act: Act)
    requires WorldInv(b, w) && Can(b, w, act)
    requires act.SampleIdGen? || act.SampleGuidGen? || act.BackendAnswers? || act.DeleteAnswers?
    ensures WorldInv(b, Do(b, w, act))
  {
    match act
    case SampleIdGen(t) => FrameKeepsInv(b, w, t, SampledId(w.ids.shared.generation));
    case SampleGuidGen(t) =>
      FrameKeepsInv(b, w, t, Looking(Generations(w.frames[t].step.idGen, w.guids.shared.generation)));
    case BackendAnswers(t, r) =>
      var o: Outcome<SchemaId, Schema> := OutcomeOf(r);
      FrameKeepsInv(b, w, t, AfterLookup(w.frames[t].call, w.frames[t].step.at, o));
    case DeleteAnswers(t, deleted) => FrameKeepsInv(b, w, t, if deleted then DroppingById else Failing);
  }

  lemma WorldInvKept(b: Backend, w: World, act: Act)
    requires WorldInv(b, w) && Can(b, w, act)
    ensures WorldInv(b, Do(b, w, act))
  {
    match act
    case Begin(t, call) => BeginKeepsInv(b, w, t, call);
    case OnIds(_, _) => CacheActionsKeepInv(b, w, act);
    case OnGuids(_, _) => CacheActionsKeepInv(b, w, act);
    case LookupEnds(t) => LookupKeepsInv(b, w, t);
    case IndexById(t) => IndexByIdKeepsInv(b, w, t);
    case IndexByGuid(t) => IndexByGuidKeepsInv(b, w, t);
    case DropEnds(t) => DropEndsKeepsInv(b, w, t);
    case _ => InputKeepsInv(b, w, act);
  }

  lemma {:induction false} HistoryKeepsInv(b: Backend, w: World, acts: seq<Act>)
    requires WorldInv(b, w) && IsHistory(b, w, acts)
    ensures WorldInv(b, AfterActs(b, w, acts))
    decreases |acts|
  {
    if acts != [] {
      WorldInvKept(b, w, acts[0]);
      HistoryKeepsInv(b, Do(b, w, acts[0]), acts[1..]);
    }
  }

  ghost predicate WorldReached(b: Backend, maxEntries: nat, acts: seq<Act>, w: World) {
    IsHistory(b, Fresh(maxEntries), acts) && AfterActs(b, Fresh(maxEntries), acts) == w
  }

  lemma WorldReachedInv(b: Backend, maxEntries: nat, acts: seq<Act>, w: World)
    requires WorldReached(b, maxEntries, acts, w)
    ensures WorldInv(b, w)
  {
    var max := Some(Bound(maxEntries));
    InitInv<SchemaId, Schema>(max);
    InitInv<SchemaGuid, Schema>(max);
    HistoryKeepsInv(b, Fresh(maxEntries), acts);
  }

  // ── What a caller may rely on ───────────────────────────────────────────

  /** Every entry, under whichever identifier and however it got there, has the
      backend's type, text and references for that identifier. */
  lemma EntriesMatchBackend(b: Backend, maxEntries: nat, acts: seq<Act>, w: World)
    requires WorldReached(b, maxEntries, acts, w)
    ensures forall id :: id in w.ids.shared.store.entries ==>
      w.ids.shared.store.entries[id].value.content == b.byId(id)
    ensures forall guid :: guid in w.guids.shared.store.entries ==>
      w.guids.shared.store.entries[guid].value.content == b.byGuid(guid)
  {
    WorldReachedInv(b, maxEntries, acts, w);
  }

  /** Every successful lookup answers with the backend's content for what was
      asked, whether from the backend, a cache, a leader or the other cache. */
  lemma LookupsMatchBackend(b: Backend, maxEntries: nat, acts: seq<Act>, w: World, t: Tid)
    requires WorldReached(b, maxEntries, acts, w) && t in w.frames && w.frames[t].step.Answered?
    ensures AnswerFits(b, w.frames[t].call, w.frames[t].step.schema)
  {
    WorldReachedInv(b, maxEntries, acts, w);
  }

  /** A finished delete (or subject invalidation): in neither cache is there an
      entry with that subject from a populate or cross-index call that sampled
      its counter before the delete bumped it. */
  lemma DeleteBarsEarlierSamples(b: Backend, maxEntries: nat, acts: seq<Act>, w: World, t: Tid)
    requires WorldReached(b, maxEntries, acts, w)
    requires t in w.frames && w.frames[t].step.Finished? && (w.frames[t].call.Delete? || w.frames[t].call.DropSubject?)
    ensures t in w.ids.pcs && w.ids.pcs[t].Invalidated? && t in w.guids.pcs && w.guids.pcs[t].Invalidated?
    ensures forall id :: id in w.ids.shared.store.entries ==>
      var e := w.ids.shared.store.entries[id];
      e.value.subject == Some(w.frames[t].call.subject) && e.origin.ByInsert? ==> w.ids.pcs[t].at <= e.origin.observed
    ensures forall guid :: guid in w.guids.shared.store.entries ==>
      var e := w.guids.shared.store.entries[guid];
      e.value.subject == Some(w.frames[t].call.subject) && e.origin.ByInsert? ==> w.guids.pcs[t].at <= e.origin.observed
  {
    WorldReachedInv(b, maxEntries, acts, w);
    FinishedDrops(b, w, t);
    SubjectIsBarred(w.ids, t, w.frames[t].call.subject);
    SubjectIsBarred(w.guids, t, w.frames[t].call.subject);
  }

  lemma FinishedDrops(b: Backend, w: World, t: Tid)
    requires FramesOk(b, w) && t in w.frames && w.frames[t].step.Finished?
    requires w.frames[t].call.Delete? || w.frames[t].call.DropSubject?
    ensures t in w.ids.pcs && w.ids.pcs[t].Invalidated?
    ensures w.ids.pcs[t].op == InvalidateMatching(HasSubject(w.frames[t].call.subject))
    ensures t in w.guids.pcs && w.guids.pcs[t].Invalidated?
    ensures w.guids.pcs[t].op == InvalidateMatching(HasSubject(w.frames[t].call.subject))
  {
    assert JobsOk(w, t, w.frames[t]);
  }

  lemma SubjectIsBarred<K(!new)>(s: State<K, Schema>, t: Tid, subject: string)
    requires BarrierInv(s) && t in s.pcs && s.pcs[t].Invalidated?
    requires s.pcs[t].op == InvalidateMatching(HasSubject(subject))
    ensures forall k :: k in s.shared.store.entries ==>
      var e := s.shared.store.entries[k];
      e.value.subject == Some(subject) && e.origin.ByInsert? ==> s.pcs[t].at <= e.origin.observed
  {
    assert Barred(s, s.pcs[t].op, s.pcs[t].at);
  }

  /** The counter samples a call carries never run ahead of the counters, so an
      index step that finds its sample current sampled after the last bump. */
  lemma SamplesAreReached(b: Backend, maxEntries: nat, acts: seq<Act>, w: World, t: Tid)
    requires WorldReached(b, maxEntries, acts, w) && t in w.frames
    requires w.frames[t].step.Looking? || w.frames[t].step.IndexingId? || w.frames[t].step.IndexingGuid?
    ensures w.frames[t].step.at.id <= w.ids.shared.generation
    ensures w.frames[t].step.at.guid <= w.guids.shared.generation
  {
    WorldReachedInv(b, maxEntries, acts, w);
    assert SamplesOk(w, w.frames[t]);
  }

  ghost predicate SameBounds(w: World, w': World) {
    w'.ids.shared.max == w.ids.shared.max && w'.guids.shared.max == w.guids.shared.max
  }

  lemma ActKeepsBounds(b: Backend, w: World, act: Act)
    requires Can(b, w, act)
    ensures SameBounds(w, Do(b, w, act))
  {
    match act
    case OnIds(_, a) => StepKeepsMax(w.ids, a);
    case OnGuids(_, g) => StepKeepsMax(w.guids, g);
    case _ =>
  }

  lemma {:induction false} HistoryKeepsBounds(b: Backend, w: World, acts: seq<Act>)
    requires IsHistory(b, w, acts)
    ensures SameBounds(w, AfterActs(b, w, acts))
    decreases |acts|
  {
    if acts != [] {
      ActKeepsBounds(b, w, acts[0]);
      HistoryKeepsBounds(b, Do(b, w, acts[0]), acts[1..]);
    }
  }

  /** Both caches hold at most the configured number of entries, or one if that
      is zero, in every history, and map and queue agree. */
  lemma CachesAreValid(b: Backend, maxEntries: nat, acts: seq<Act>, w: World)
    requires WorldReached(b, maxEntries, acts, w)
    ensures var bound := if maxEntries == 0 then 1 else maxEntries;
      && w.ids.shared.max == w.guids.shared.max == Some(bound)
      && ValidStore(w.ids.shared) && ValidStore(w.guids.shared)
      && |w.ids.shared.store.entries| <= bound && |w.guids.shared.store.entries| <= bound
  {
    WorldReachedInv(b, maxEntries, acts, w);
    HistoryKeepsBounds(b, Fresh(maxEntries), acts);
    StoreSize(w.ids.shared);
    StoreSize(w.guids.shared);
  }

  lemma StoreSize<K, V>(sh: Shared<K, V>)
    requires ValidStore(sh) && sh.max.Some?
    ensures |sh.store.entries| <= sh.max.value
  {
    DistinctSize(sh.store.order);
    assert |sh.store.entries| == |sh.store.entries.Keys|;
  }
}
