/**
 The caching registry wrapper (src/cache.rs): one cache by schema ID and one by
 schema GUID, each the transition system of CacheProtocol, driven by the calls
 of `CachedSchemaRegistry`. Actions of the two caches, of every call and of the
 backend interleave freely.

 The backend is a fixed assignment of content to identifiers; subject, version
 and which identifiers a response reports are up to it, response by response.
 */
module RegistryCache {
  import opened Prelude
  import opened CacheState
  import opened CacheProtocol
  import opened CacheContents

  datatype SchemaId = SchemaId(value: nat)
  datatype SchemaGuid = SchemaGuid(bytes: seq<nat>)
  datatype SchemaType = Avro | Json | Protobuf
  datatype Reference = Reference(name: string, subject: string, version: int)

  /** What an identifier determines. */
  datatype Content = Content(schemaType: SchemaType, text: string, references: seq<Reference>)

  datatype Schema = Schema(
    id: Option<SchemaId>,
    guid: Option<SchemaGuid>,
    content: Content,
    version: Option<int>,
    subject: Option<string>)

  datatype Backend = Backend(byId: SchemaId -> Content, byGuid: SchemaGuid -> Content)

  /** A response whose content is that of every identifier it reports. */
  predicate Truthful(b: Backend, s: Schema) {
    && (s.id.Some? ==> s.content == b.byId(s.id.value))
    && (s.guid.Some? ==> s.content == b.byGuid(s.guid.value))
  }

  function FitsId(b: Backend): (SchemaId, Schema) -> bool {
    (id: SchemaId, s: Schema) => Truthful(b, s) && s.content == b.byId(id)
  }

  function FitsGuid(b: Backend): (SchemaGuid, Schema) -> bool {
    (guid: SchemaGuid, s: Schema) => Truthful(b, s) && s.content == b.byGuid(guid)
  }

  // ── Calls ───────────────────────────────────────────────────────────────

  datatype Call =
    | ById(id: SchemaId)
    | ByGuid(guid: SchemaGuid)
    | BySubject(subject: string)     // get_latest_schema, get_schema_by_version
    | Warm(id: SchemaId)
    | DropId(id: SchemaId)
    | DropGuid(guid: SchemaGuid)
    | DropAll
    | DropSubject(subject: string)   // invalidate_subject
    | Delete(subject: string)        // delete_subject, delete_version

  /** Both counters, each sampled once before the lookup. */
  datatype Generations = Generations(id: nat, guid: nat)

  datatype Step =
    | Sampling
    | SampledId(idGen: nat)
    | Looking(at: Generations)
    | IndexingId(at: Generations, schema: Schema)
    | IndexingGuid(at: Generations, schema: Schema)
    | Answered(schema: Schema)
    | Failing
    | Warming
    | Deleting
    | DroppingById
    | DroppingByGuid
    | Finished

  datatype Frame = Frame(call: Call, step: Step)

  datatype World = World(
    ids: State<SchemaId, Schema>,
    guids: State<SchemaGuid, Schema>,
    frames: map<Tid, Frame>)

  function HasSubject(subject: string): Schema -> bool {
    (s: Schema) => s.subject == Some(subject)
  }

  function FirstStep(call: Call): Step {
    match call
    case ById(_) => Sampling
    case ByGuid(_) => Sampling
    case BySubject(_) => Sampling
    case Warm(_) => Warming
    case Delete(_) => Deleting
    case DropGuid(_) => DroppingByGuid
    case _ => DroppingById
  }

  /** The operation an invalidating call runs on the ID cache. */
  function IdOp(call: Call): Option<Op<SchemaId, Schema>> {
    match call
    case DropId(id) => Some(InvalidateKey(id))
    case DropAll => Some(ClearAll)
    case DropSubject(subject) => Some(InvalidateMatching(HasSubject(subject)))
    case Delete(subject) => Some(InvalidateMatching(HasSubject(subject)))
    case _ => None
  }

  function GuidOp(call: Call): Option<Op<SchemaGuid, Schema>> {
    match call
    case DropGuid(guid) => Some(InvalidateKey(guid))
    case DropAll => Some(ClearAll)
    case DropSubject(subject) => Some(InvalidateMatching(HasSubject(subject)))
    case Delete(subject) => Some(InvalidateMatching(HasSubject(subject)))
    case _ => None
  }

  /** The outcome of a finished `get_or_fetch`. */
  function OutcomeAt<K, V>(pc: Pc<K, V>): Option<Outcome<K, V>> {
    match pc
    case Returned(_, v) => Some(Value(v))
    case Led(_, _, _, o) => Some(o)
    case Woken(_, _, o, _) => Some(o)
    case _ => None
  }

  datatype Act =
    | Begin(t: Tid, call: Call)
    | SampleIdGen(t: Tid)
    | SampleGuidGen(t: Tid)
    | OnIds(t: Tid, a: Action<SchemaId, Schema>)
    | OnGuids(t: Tid, g: Action<SchemaGuid, Schema>)
    | LookupEnds(t: Tid)
    | BackendAnswers(t: Tid, r: Result<Schema, FetchError>)
    | IndexById(t: Tid)
    | IndexByGuid(t: Tid)
    | DeleteAnswers(t: Tid, deleted: bool)
    | DropEnds(t: Tid)

  /** Call `t` is inside `get_or_fetch` of the ID cache, or invalidating it. */
  ghost predicate UsesIds(f: Frame, a: Action<SchemaId, Schema>) {
    || (((f.call.ById? && f.step.Looking?) || (f.call.Warm? && f.step.Warming?))
        && !a.CallInvalidate? && (a.CallGet? ==> a.key == f.call.id))
    || (f.step.DroppingById? && !a.CallGet? && (a.CallInvalidate? ==> Some(a.op) == IdOp(f.call)))
  }

  ghost predicate UsesGuids(f: Frame, a: Action<SchemaGuid, Schema>) {
    || (f.call.ByGuid? && f.step.Looking? && !a.CallInvalidate? && (a.CallGet? ==> a.key == f.call.guid))
    || (f.step.DroppingByGuid? && !a.CallGet? && (a.CallInvalidate? ==> Some(a.op) == GuidOp(f.call)))
  }


  /** The lookup call `t` waits for has an outcome. */
  predicate LookupOver(w: World, t: Tid)
    requires t in w.frames
  {
    match w.frames[t].call
    case ById(_) => w.frames[t].step.Looking? && t in w.ids.pcs && OutcomeAt(w.ids.pcs[t]).Some?
    case Warm(_) => w.frames[t].step.Warming? && t in w.ids.pcs && OutcomeAt(w.ids.pcs[t]).Some?
    case ByGuid(_) => w.frames[t].step.Looking? && t in w.guids.pcs && OutcomeAt(w.guids.pcs[t]).Some?
    case _ => false
  }

  ghost predicate Can(b: Backend, w: World, act: Act) {
    match act
    case Begin(t, _) => t !in w.frames && t !in w.ids.pcs && t !in w.guids.pcs
    case SampleIdGen(t) => t in w.frames && w.frames[t].step.Sampling?
    case SampleGuidGen(t) => t in w.frames && w.frames[t].step.SampledId?
    case OnIds(t, a) =>
      t in w.frames && Actor(a) == Some(t) && UsesIds(w.frames[t], a)
      && Enabled(w.ids, a) && Admissible(w.ids, a, FitsId(b))
    case OnGuids(t, g) =>
      t in w.frames && Actor(g) == Some(t) && UsesGuids(w.frames[t], g)
      && Enabled(w.guids, g) && Admissible(w.guids, g, FitsGuid(b))
    case LookupEnds(t) => t in w.frames && LookupOver(w, t)
    case BackendAnswers(t, r) =>
      t in w.frames && w.frames[t].call.BySubject? && w.frames[t].step.Looking?
      && (r.Ok? ==> Truthful(b, r.value))
    case IndexById(t) => t in w.frames && w.frames[t].step.IndexingId?
    case IndexByGuid(t) => t in w.frames && w.frames[t].step.IndexingGuid?
    case DeleteAnswers(t, _) => t in w.frames && w.frames[t].step.Deleting?
    case DropEnds(t) =>
      t in w.frames &&
      (|| (w.frames[t].step.DroppingById? && t in w.ids.pcs && w.ids.pcs[t].Invalidated?)
       || (w.frames[t].step.DroppingByGuid? && t in w.guids.pcs && w.guids.pcs[t].Invalidated?))
  }

  function SetStep(w: World, t: Tid, step: Step): World
    requires t in w.frames
  {
    w.(frames := w.frames[t := w.frames[t].(step := step)])
  }

  /** Where a lookup goes with its outcome: by ID it cross-indexes the GUID, by
      GUID the ID, by subject both; warming keeps nothing more. */
  function AfterLookup<K>(call: Call, at: Generations, o: Outcome<K, Schema>): Step {
    if !o.Value? then Failing
    else match call
      case ById(_) => IndexingGuid(at, o.value)
      case ByGuid(_) => IndexingId(at, o.value)
      case BySubject(_) => IndexingId(at, o.value)
      case _ => Answered(o.value)
  }

  ghost function Do(b: Backend, w: World, act: Act): World
    requires Can(b, w, act)
  {
    match act
    case Begin(t, call) => w.(frames := w.frames[t := Frame(call, FirstStep(call))])
    case SampleIdGen(t) => SetStep(w, t, SampledId(w.ids.shared.generation))
    case SampleGuidGen(t) =>
      SetStep(w, t, Looking(Generations(w.frames[t].step.idGen, w.guids.shared.generation)))
    case OnIds(_, a) => w.(ids := Apply(w.ids, a))
    case OnGuids(_, g) => w.(guids := Apply(w.guids, g))
    case LookupEnds(t) =>
      var f := w.frames[t];
      if f.call.ByGuid? then SetStep(w, t, AfterLookup(f.call, f.step.at, OutcomeAt(w.guids.pcs[t]).value))
      else if f.call.ById? then SetStep(w, t, AfterLookup(f.call, f.step.at, OutcomeAt(w.ids.pcs[t]).value))
      else SetStep(w, t, AfterLookup(f.call, Generations(0, 0), OutcomeAt(w.ids.pcs[t]).value))
    case BackendAnswers(t, r) =>
      var o: Outcome<SchemaId, Schema> := OutcomeOf(r);
      SetStep(w, t, AfterLookup(w.frames[t].call, w.frames[t].step.at, o))
    case IndexById(t) =>
      var f := w.frames[t];
      var next := if f.call.ByGuid? then Answered(f.step.schema) else IndexingGuid(f.step.at, f.step.schema);
      var w1 := SetStep(w, t, next);
      var id := f.step.schema.id;
      if id.None? then w1
      else w1.(ids := w1.ids.(shared :=
        InsertIfCurrent(w.ids.shared, id.value, Stamped(f.step.schema, ByInsert(f.step.at.id)), f.step.at.id)))
    case IndexByGuid(t) =>
      var f := w.frames[t];
      var w1 := SetStep(w, t, Answered(f.step.schema));
      var guid := f.step.schema.guid;
      if guid.None? then w1
      else w1.(guids := w1.guids.(shared :=
        InsertIfCurrent(w.guids.shared, guid.value, Stamped(f.step.schema, ByInsert(f.step.at.guid)), f.step.at.guid)))
    case DeleteAnswers(t, deleted) => SetStep(w, t, if deleted then DroppingById else Failing)
    case DropEnds(t) =>
      SetStep(w, t,
        if w.frames[t].step.DroppingById? && GuidOp(w.frames[t].call).Some? then DroppingByGuid else Finished)
  }

  // ── Runs ────────────────────────────────────────────────────────────────

  /** `with_max_entries` keeps room for one entry at least. */
  function Bound(maxEntries: nat): nat {
    if maxEntries < 1 then 1 else maxEntries
  }

  function Fresh(maxEntries: nat): World {
    World(Init(Some(Bound(maxEntries))), Init(Some(Bound(maxEntries))), map[])
  }

  ghost predicate IsHistory(b: Backend, w: World, acts: seq<Act>)
    decreases |acts|
  {
    acts == [] || (Can(b, w, acts[0]) && IsHistory(b, Do(b, w, acts[0]), acts[1..]))
  }

  ghost function AfterActs(b: Backend, w: World, acts: seq<Act>): World
    requires IsHistory(b, w, acts)
    decreases |acts|
  {
    if acts == [] then w else AfterActs(b, Do(b, w, acts[0]), acts[1..])
  }
}
