# schemreg in Dafny

A Dafny model of the hard parts of `schemreg`, a Rust client for Confluent-style
and AWS Glue schema registries, with proofs of what those parts promise. Paths
below are files of that repository.

## What is modelled

**The coalescing cache** (`src/cache_inner.rs`). `FifoStore` is the entry map and
its order queue, `CacheState` the critical sections on the shared memory as
functions, and `CacheObject` the class whose methods run them in place.
`CacheProtocol` is a transition system: every critical section, atomic counter
operation and channel send is one step, every call has a program counter, and a
fetch may succeed, fail or be dropped at any time. `CacheInvariants`,
`CacheWaiters`, `CacheStored` and `CacheOutcomes` are its inductive invariants,
`CacheTheorems` what follows for every run, `CacheCancellation` what an
invalidation does with the fetches it finds, and `CacheOverlap` exactly which
fetches outlive one. History variables record who led a token and
which tokens an invalidation took; stored values are stamped with where they came
from. Neither is read by a step.

**The registry wrapper** (`src/cache.rs`). `RegistryObject` is the class with its
two identifier caches. `RegistryCache` runs two copies of the cache protocol, the
wrapper's calls and the backend side by side, and `RegistryCoherence` proves what
the two caches hold in every history. `CacheContents` carries a relation between
keys and values through the protocol, `RegistryCalls` says what each call goes
through, and `SubjectReturns` what can put a deleted subject back.

**Avro schema sets** (`src/avro/schema_set.rs`, `src/avro/mod.rs`). `AvroNames`
is the namespace-inheriting name walk, `NameOccurrences` what it finds,
`TopoOrder` the graph theory of taking the lowest ready index, `SchemaSet` the
ordering algorithm with its heap and counters, `OrderingByNames` what it means
for the names in a set,
`NameTable` a one-pass resolver to judge the order by, `ResolvedSchema` the
construction from parsed schemas, `Dependencies` the removal of repeated
documents and `ReferenceClosure` the bounded depth-first collection from a
registry that may be cyclic.

**The wire codec** (`src/wire.rs`, `src/protobuf/mod.rs`, `src/glue/mod.rs`,
`src/decoder.rs`). `Varint`, `MessageIndex`, `WireFormat`, `GlueFormat`,
`DescriptorPath` and `Decoder`, on bytes as integers below 256, with `Integers`
for the machine widths and `ByteBuffers` for the output buffer.

**Calendar and back-off** (`src/http.rs`, `src/retry.rs`). `Calendar`,
`HttpDate` and `Retry`.

## Where code and documentation differ

The model follows the code.

- The module documentation (`src/cache_inner.rs:25-35`) says that an invalidation
  is not undone by a fetch it overlaps. Between a leader's claim
  (`src/cache_inner.rs:348`) and its store (`src/cache_inner.rs:357-369`) no lock
  is held, and there it can be: `CacheTheorems.InvalidateCanBeOvertaken` is such a
  run and `CacheOverlap.OverlapResurfacesIffClaimed` the exact condition.
  `invalidate_matching`, which drops stored values first, leaves a wider window:
  `CacheOverlap.MatchingStoreStepLeavesFetches` and
  `CacheOverlap.MatchingFlightStepResurfacesIffClaimed`.
- A finished delete is documented to have dropped everything cached under its
  subject (`src/cache.rs:361-372`, `src/cache.rs:383-388`). The two caches are
  invalidated one after the other, and a lookup by GUID in between can put the
  subject back into the first: `SubjectReturns.DeletedSubjectCanReturn`.
  `SubjectReturns.PutsUnderIdExactly` and `SubjectReturns.PutsUnderGuidExactly`
  give every step that can, and `RegistryCoherence.DeleteBarsEarlierSamples` what
  does hold.
- The reference closure is documented as bounded by 256 schemas. The check
  (`src/avro/mod.rs:159`) precedes the recursion and the push
  (`src/avro/mod.rs:181`) follows it, so up to 287 can come back
  (`ReferenceClosure.ClosureSize`, `ReferenceClosure.ClosureSizeIsTight`). The
  limit is kept by a registry if and only if at most 256 pairs are reachable
  (`ReferenceClosure.SizeIsReachable`), and by all registries of a given nesting
  if and only if references have no references of their own
  (`ReferenceClosure.LimitHoldsIffFlat`).
- `days_from_civil` is documented as correct for every 64-bit year
  (`src/http.rs:118-119`). `Calendar.CountsExactlyBetween` gives the first and the
  last date for which it is with overflow checks,
  `Calendar.WrappingCountsExactlyBetween` those for a build without.
- Re-encoding a varint of ten bytes can give other bytes of the same length
  (`Varint.CanonicalForms`); for message-index values, which fit 33 bits, equal
  length does mean equal bytes (`MessageIndex.AcceptedIndexes`).

## Model

| member | source | states |
|---|---|---|
| `FifoStore.InsertRefinesFifo` | src/cache_inner.rs:405-428 | Inserting is one put into a bounded FIFO list of pairs: a known key is overwritten where it stands, a new one goes last, and an overflow drops exactly the oldest insertion; the queue stays duplicate-free and lists exactly the stored keys. |
| `FifoStore.RemoveRefinesFifo` | src/cache_inner.rs:169-175 | Forgetting keys removes exactly their pairs from that list and moves no other pair. |
| `FifoStore.OperationsKeepValid` | src/cache_inner.rs:70-74 | Map and queue agree, within the bound, after every store operation, bounded or unbounded. |
| `FifoStore.InsertEntries` | src/cache_inner.rs:405-428 | An insert changes no value of another key, and the inserted key is present afterwards unless the bound is zero. |
| `FifoStore.InsertEvictsOldest` | src/cache_inner.rs:419-427 | Another key loses its entry to an insert only when the key is new, the store was full and that entry was its oldest. |
| `FifoStore.EvictOnce` | src/cache_inner.rs:419-427 | The eviction loop, met one over the bound, drops one entry only, the oldest. |
| `CacheObject.InMemoryCache.constructor` | src/cache_inner.rs:109-125 | A new cache is empty, with both counters at zero, and well formed. |
| `CacheObject.InMemoryCache.InsertLocked` | src/cache_inner.rs:405-428 | The in-place insert with its eviction loop leaves map and queue as the specified insert does, and nothing else changed. |
| `CacheObject.InMemoryCache.InsertIfCurrent` | src/cache_inner.rs:257-268 | Stores only when the counter still has the sampled value; otherwise the whole state is unchanged. |
| `CacheObject.InMemoryCache.JoinOrLead` | src/cache_inner.rs:297-324 | A stored value is a hit; else the caller is appended to the registered fetch, or registers one under a token never used before. |
| `CacheObject.InMemoryCache.TakeInFlight` | src/cache_inner.rs:395-401 | Hands out the waiters and unregisters the fetch only for the token that registered it. |
| `CacheObject.InMemoryCache.StoreUnlessPresent` | src/cache_inner.rs:355-370 | A value that is already stored wins: it is returned and nothing changes. Otherwise the given one is returned, and stored unless the bound is zero. |
| `CacheObject.InMemoryCache.GetOrFetch` | src/cache_inner.rs:277-391 | Run alone: a stored value is returned and nothing changes; behind a registered fetch the caller is parked; otherwise the fetch's own outcome is returned, a value is stored, an error is not, and no fetch stays registered. |
| `CacheObject.InMemoryCache.Invalidate` | src/cache_inner.rs:160-178 | One bump; the in-flight entry, its waiters and the stored entry of this key go, and nothing of another key. |
| `CacheObject.InMemoryCache.InvalidateMatching` | src/cache_inner.rs:185-222 | One bump; exactly the stored keys with a matching value go, together with the fetches of those keys; with no match, fetches stay. |
| `CacheObject.InMemoryCache.Clear` | src/cache_inner.rs:225-238 | One bump; everything stored and every fetch goes, and every waiter is handed out for cancellation. |
| `CacheInvariants.TokenInvKept` | src/cache_inner.rs:312-323 | Every step of every interleaving keeps: a token names one leader for good; a registered fetch belongs to a live leader of its key that has not claimed it; an unclaimed leader without its entry was invalidated. |
| `CacheWaiters.WaiterInvKept` | src/cache_inner.rs:277-401 | Every step keeps: waiter lists are duplicate-free and disjoint, hold only parked calls of their own key and token, and every parked call is in one. |
| `CacheStored.StoredInvKept` | src/cache_inner.rs:160-268 | Every step keeps: a stored value is the one its leader fetched under a token nobody revoked, or came in with a counter value already seen; nothing an invalidation past its store step covers bears an older sample. |
| `CacheOutcomes.OutcomeInvKept` | src/cache_inner.rs:326-391 | Every step keeps: an answered waiter was answered by its own leader, by that leader's drop guard, or by an invalidation that revoked its token. |
| `CacheTheorems.RunKeepsInv` | src/cache_inner.rs:277-401 | All of these hold after every run, whatever the interleaving. |
| `CacheTheorems.WaiterHasOnePlace` | src/cache_inner.rs:300-311 | In every reachable state an unresolved waiter is listed exactly once: in the registered fetch of its own live, unclaimed leader, or in the hands of one call that has yet to send. |
| `CacheTheorems.AnsweredOnce` | src/cache_inner.rs:385-389 | A waiter that has been answered is listed nowhere, so nobody answers it a second time. |
| `CacheTheorems.AnswerIsOwnLeaders` | src/cache_inner.rs:326-391 | A waiter ends with exactly its own leader's outcome, or with a cancellation by that leader's drop guard or by an invalidation that revoked its token. |
| `CacheTheorems.AnswerableFrom` | src/cache_inner.rs:343-391 | From any state with a parked waiter, one call by its own steps alone reaches that waiter's answer, whatever its fetch returns. |
| `CacheTheorems.NoWaiterStuck` | src/cache_inner.rs:430-455 | No run gets stuck with a waiter parked, leaders dropped during the fetch included. |
| `CacheTheorems.OneLeaderPerKey` | src/cache_inner.rs:312-323 | In every reachable state a registered fetch is led by a live call for its own key that has not claimed it, under a token no other key has. |
| `CacheTheorems.OneLiveLeader` | src/cache_inner.rs:297-324 | Fetches coalesce: in every reachable state two calls that lead a fetch of the same key, unclaimed and not invalidated, are the same call. |
| `CacheTheorems.LeadsIffNoLiveLeader` | src/cache_inner.rs:297-324 | A caller starts a fetch exactly when its key is not stored and every unclaimed fetch of it has been invalidated; it waits exactly when such a fetch is live, and on that one. |
| `CacheTheorems.InvalidationRevokes` | src/cache_inner.rs:163-168 | The in-flight step of an invalidation or a clear unregisters the fetch and revokes its token. |
| `CacheTheorems.EntriesGoOnlyByTakingOrRevoking` | src/cache_inner.rs:395-401 | A registered fetch disappears only by its own leader's claim or drop guard, or by an invalidation: no leader takes or cancels a later leader's waiters. |
| `CacheTheorems.ClaimSucceedsIffNotRevoked` | src/cache_inner.rs:345-348 | In every reachable state a leader gets its slot back exactly when no invalidation revoked its token; if not, nothing shared changes. |
| `CacheTheorems.RevokedLeaderNeverStores` | src/cache_inner.rs:343-379 | A leader whose entry was taken away before its claim never has its value in the store, in any continuation of the run. |
| `CacheTheorems.StoredByLeaderIsFetched` | src/cache_inner.rs:350-383 | Errors are never cached: what a leader stored is the value its own fetch returned for that key. |
| `CacheTheorems.LeaderAnswersWithStored` | src/cache_inner.rs:343-383 | In every reachable state a leader with its slot and a fetched value hands out the value already stored, if there is one, else its own, and it is the value stored right afterwards; without its slot, or with an error, it hands out its own result and the store stays as it is. |
| `CacheTheorems.InvalidationHolds` | src/cache_inner.rs:160-268 | After an invalidation's store step, nothing it covers is in the store through `insert_if_current` with a sample taken before its bump, in any interleaving, ever. |
| `CacheTheorems.StoreStepIsExact` | src/cache_inner.rs:169-175 | The store step leaves nothing the operation covers, whoever stored it, and removes nothing else. |
| `CacheTheorems.OtherKeysUndisturbed` | src/cache_inner.rs:28-35 | Fetching, dropping or invalidating one key leaves the fetches, calls, waiters and values of every other key as they were; its entry goes only when storing a new key overflows a full store of which it is the oldest. |
| `CacheTheorems.BoundHolds` | src/cache_inner.rs:91-99 | In every reachable state at most the configured number of entries is stored and the queue lists exactly the stored keys. |
| `CacheTheorems.InvalidateCanBeOvertaken` | src/cache_inner.rs:343-379 | A run in which `invalidate` runs from start to end between a leader's claim and its store, and the value is stored afterwards: the promise of src/cache_inner.rs:25-35 has an exception. |
| `CacheOverlap.OverlapResurfacesIffClaimed` | src/cache_inner.rs:160-238 | Exactly which fetches are the exception: one under way when `invalidate` or `clear` takes the in-flight entry can put its value back if and only if it had already claimed its slot with a value to store. |
| `CacheOverlap.MatchingStoreStepLeavesFetches` | src/cache_inner.rs:185-222 | For `invalidate_matching` the window is wider: after its store step a fetch of a key no longer stored can put a value back if and only if it can still store one, having claimed with a value or being neither claimed nor revoked nor failed. |
| `CacheOverlap.MatchingFlightStepResurfacesIffClaimed` | src/cache_inner.rs:185-222 | After its in-flight step, for a key it matched that is not stored, a fetch under way can put its value back if and only if it had already claimed its slot with a value to store. |
| `CacheOverlap.ClaimedCanResurface` | src/cache_inner.rs:348-370 | The continuation in which a fetch that had claimed puts its value back. |
| `CacheOverlap.OthersCannotResurface` | src/cache_inner.rs:345-379 | No continuation brings back the value of a fetch that had not claimed, had lost its slot, or failed. |
| `CacheCancellation.FinishedInvalidationTookFetch` | src/cache_inner.rs:160-238 | A fetch registered when `invalidate` of its key or `clear` starts, or when `invalidate_matching` has matched its key, is no longer registered when the invalidation is over, in any interleaving; a leader that has not claimed it by then is revoked. |
| `CacheCancellation.MatchingKeysAreDoomed` | src/cache_inner.rs:185-205 | The store step of `invalidate_matching` leaves all fetches registered and hands exactly the matching keys on; without a match the invalidation is over. |
| `CacheCancellation.DoomedStepTakesOnlyDoomed` | src/cache_inner.rs:206-222 | Its in-flight step takes the fetches of the matched keys, with their waiters, and leaves fetches, calls and waiters of every other key, and the store, as they are. |
| `CacheContents.SoundKept` | src/cache_inner.rs:277-391 | Whatever relation between keys and values the fetches and inserts respect holds of every value stored, sent or returned. |
| `RegistryObject.CachedSchemaRegistry.constructor` | src/cache.rs:134-141 | Both identifier caches start empty with the configured bound, or one if that is zero. |
| `RegistryObject.CachedSchemaRegistry.IndexById` | src/cache.rs:164-168 | Stores under the reported ID if the ID counter has not moved since the sample; the GUID cache is untouched. |
| `RegistryObject.CachedSchemaRegistry.IndexByGuid` | src/cache.rs:171-176 | The same for the GUID, leaving the ID cache untouched. |
| `RegistryObject.CachedSchemaRegistry.Populate` | src/cache.rs:158-161 | Each cache is checked against its own sample; a schema without an identifier is not stored under it. |
| `RegistryObject.CachedSchemaRegistry.InvalidateSubject` | src/cache.rs:296-301 | In each cache exactly the entries of the subject go and the others keep their values; exactly the fetches of keys stored with the subject go and the others keep their waiters; the counter moves on by one. |
| `RegistryObject.CachedSchemaRegistry.Delete` | src/cache.rs:373-401 | A failed delete changes nothing; a successful one leaves both caches as dropping the subject does, other subjects and fetches untouched. |
| `RegistryCoherence.WorldInvKept` | src/cache.rs:149-176 | Every step of both caches, every call and the backend keeps: values fit the identifier they are stored under, samples are counter values already seen, and a drop is past a cache only when finished there. |
| `RegistryCoherence.SamplesAreReached` | src/cache.rs:149-154 | In every history the counter samples a call carries are values its two counters have reached, so an index step that finds a sample current was sampled after the last invalidation. |
| `RegistryCoherence.EntriesMatchBackend` | src/cache.rs:281-348 | In every reachable state every entry under an ID or a GUID has the backend's type, text and references for it, whichever lookup put it there. |
| `RegistryCoherence.LookupsMatchBackend` | src/cache.rs:281-348 | So does the answer of every successful lookup. |
| `RegistryCoherence.DeleteBarsEarlierSamples` | src/cache.rs:373-401 | Once a delete or a subject invalidation has finished, in every interleaving, no entry of the subject came from a populate or cross-index call that sampled before the corresponding bump. |
| `RegistryCoherence.CachesAreValid` | src/cache.rs:134-141 | In every history both caches hold at most the configured number of entries, or one if that is zero, and map and queue agree. |
| `SubjectReturns.DeletedSubjectCanReturn` | src/cache.rs:296-301 | A run from two empty caches after which a delete has finished successfully and the subject is cached under its ID: a lookup by GUID hit the second cache between the two halves and indexed the first. |
| `SubjectReturns.PutsUnderIdExactly` | src/cache.rs:158-176 | In every reachable state exactly these steps put an entry of a subject under an ID that had none: the store of a lookup by that ID (or of warming it) that fetched one, and the index step of a lookup by subject or GUID whose sample is current. |
| `SubjectReturns.PutsUnderGuidExactly` | src/cache.rs:158-176 | The same for a GUID: the store of a lookup by that GUID, and the index step of a lookup by subject or ID whose sample is current. |
| `RegistryCalls.AnswersAreIndexed` | src/cache.rs:281-348 | In every history a lookup by ID or subject answers only by indexing the GUID, one by GUID only by indexing the ID; right after that the answer is cached under that identifier, if it has one and the sample is current. |
| `RegistryCalls.SubjectIndexesIdFirst` | src/cache.rs:158-161 | A lookup by subject comes to the GUID only past the ID, with the same schema and samples. |
| `RegistryCalls.LookupGoesOn` | src/cache.rs:281-348 | Whether its `get_or_fetch` ended as a hit, a leader or a waiter, a lookup goes on with that value and the samples it took. |
| `RegistryCalls.CallsBegin` | src/cache.rs:203-401 | A lookup begins by sampling, a delete by asking the backend, a drop with the first cache it is about. |
| `RegistryCalls.NothingIsIndexedAcrossInvalidation` | src/cache.rs:144-154 | If a cache is invalidated after a lookup began to ask, even before it has an answer, the index step of that lookup leaves that cache as it is, whatever happens in between. |
| `RegistryCalls.FinishedDropsRan` | src/cache.rs:203-226 | A finished drop has finished the right operation in each cache it is about and started none in the other. |
| `RegistryCalls.RefusedDeleteDropsNothing` | src/cache.rs:373-401 | In every history a delete that waits for the backend, or was refused by it, has made no step in either cache. |
| `TopoOrder.GreedyIsLeast` | src/avro/schema_set.rs:290-312 | Taking the lowest ready index each time gives an order no later, lexicographically, than any topological order. |
| `TopoOrder.GreedyKeepsIdentity` | src/avro/schema_set.rs:290-291 | An order that is already topological is kept. |
| `TopoOrder.LeftoverDependsOnCycle` | src/avro/schema_set.rs:314-317 | The indices never emitted are exactly those that transitively depend on some cycle. |
| `TopoOrder.CompleteIffAcyclic` | src/avro/schema_set.rs:314 | Everything is emitted exactly when the prerequisite graph has no cycle. |
| `TopoOrder.TopologicalIsPermutation` | src/avro/schema_set.rs:327 | A topological order lists every index exactly once. |
| `AvroNames.NameCollector.WalkNames` | src/avro/schema_set.rs:355-383 | The mutating walk collects exactly the names defined and referenced by the specified traversal, which NameOccurrences characterises. |
| `NameOccurrences.NamesOf` | src/avro/schema_set.rs:343-353 | A name is defined by a schema exactly when some path of steps leads to a record, enum or fixed type of that full name, and referenced exactly when one leads to a reference to it. |
| `NameOccurrences.NamesAreOccurrences` | src/avro/schema_set.rs:355-387 | Full names follow the own namespace, else that of the nearest enclosing record that has one, through any nesting of arrays, maps, unions and fields. |
| `NameOccurrences.NameIsTopDefinition` | src/avro/schema_set.rs:391-398 | Exactly records, enums and fixed types have a name, and it is the one they define at the top. |
| `AvroNames.TopNameIsDefined` | src/avro/schema_set.rs:391-398 | The name reported for a schema is among the names its walk defines. |
| `SchemaSet.CollectInfos` | src/avro/schema_set.rs:243 | Each schema is paired with what it defines, what it references and its own name. |
| `SchemaSet.BuildDefiner` | src/avro/schema_set.rs:246-257 | Succeeds with the one definer of every name, or names one that two schemas define. |
| `SchemaSet.BuildPrerequisites` | src/avro/schema_set.rs:259-288 | Succeeds with the prerequisite graph in both directions, each edge once, or names a reference nothing defines or only something nested defines, and which of the two. |
| `SchemaSet.SortIndices` | src/avro/schema_set.rs:292-312 | The heap loop computes the lowest-index-first order and leaves, for each index, the number of its prerequisites not emitted. |
| `SchemaSet.RemainingMeansLeft` | src/avro/schema_set.rs:315-316 | A positive remaining count says exactly that the schema depends on a cycle. |
| `SchemaSet.ReportCycle` | src/avro/schema_set.rs:314-324 | The reported indices are exactly those that transitively depend on a cycle, schemas merely downstream of one included. |
| `SchemaSet.OrderSchemata` | src/avro/schema_set.rs:242-332 | Succeeds exactly when no name is defined twice, every cross-schema reference names another schema's top-level type and there is no cycle; the output is the lexicographically least topological arrangement; every error is true of the input. |
| `SchemaSet.OrderIsPermutation` | src/avro/schema_set.rs:326-331 | The output holds the input schemas, each as often. |
| `SchemaSet.OrderedStaysPut` | src/avro/schema_set.rs:290-291 | An already ordered input comes back unchanged. |
| `SchemaSet.OrderingIsIdempotent` | src/avro/schema_set.rs:290-291 | Ordering an ordered set again changes nothing. |
| `OrderingByNames.OrderableMeans` | src/avro/schema_set.rs:230-332 | Told by occurrences alone: a set is accepted exactly when no name has two schemas that define it, every name a schema needs from outside is what some schema of the set is called, and no round of schemas needs each the next. |
| `OrderingByNames.DefinitionsPrecede` | src/avro/schema_set.rs:230-332 | In the produced order whatever a schema needs is what an earlier one is called. |
| `OrderingByNames.ErrorMeans` | src/avro/schema_set.rs:242-324 | A duplicate has two definers, a missing name none, a nested one a definer but no schema called so, and a circular set has a round. |
| `OrderingByNames.InfoMeans` | src/avro/schema_set.rs:243-268 | The collected sets and name of a schema are what it defines, what it needs and what it is called. |
| `NameTable.ResolveExact` | src/avro/schema_set.rs:12-15 | A one-pass resolver accepts a schema exactly when it redefines nothing and uses only names seen before, and then knows exactly the old names and the defined ones. |
| `NameTable.ResolveListExact` | src/avro/schema_set.rs:12-15 | The same for a list of schemas read front to back. |
| `NameTable.OrderIsAccepted` | src/avro/schema_set.rs:236-241 | The produced order is accepted by that resolver, given that each schema alone puts its definitions first and defines no name twice. |
| `NameTable.AcceptedIsOrdered` | src/avro/schema_set.rs:12-15 | Conversely whatever the resolver accepts defines no name twice and is already ordered. |
| `NameTable.ReadableIsOrderable` | src/avro/schema_set.rs:236-241 | A list the resolver accepts as it stands, with references to top-level types only, is one that ordering accepts. |
| `ResolvedSchema.FromParsed` | src/avro/schema_set.rs:135-173 | Refuses more than 256 dependencies; otherwise succeeds exactly when the root and its distinct dependencies can be ordered, or the root alone has no dangling reference; a reported error is true of the set; the resulting table holds exactly the root and the dependencies, in their least dependency order with the root given last, and is accepted by the resolver. |
| `ResolvedSchema.DropRepeats` | src/avro/schema_set.rs:148-153 | Keeps each dependency once, in the order of first occurrence, and never the root. |
| `ResolvedSchema.UsableAfterOrdering` | src/avro/schema_set.rs:169-172 | An ordered set of distinct schemas can be read front to back. |
| `Dependencies.DedupeDependencies` | src/avro/schema_set.rs:408-452 | Fails exactly when an input does not parse or two inputs, root included, declare one name and differ; the error is true of the inputs; equal undotted names in two namespaces are both kept, and a dotted name and a name in a namespace that come to the same have one document. |
| `Dependencies.DedupeKeepsDefinitions` | src/avro/schema_set.rs:408-452 | The kept documents are the given ones except the root's; no two kept ones declare the same name and none declares the root's. |
| `Dependencies.DedupeIsOrderFree` | src/avro/schema_set.rs:402-407 | Neither success nor the kept documents depend on the order or repetition of the dependencies. |
| `Dependencies.KeptAreTheFirst` | src/avro/schema_set.rs:423-450 | Kept are, as they stood in the input, the first dependency to declare each name but the root's, and every one that declares none. |
| `Dependencies.NamingRule` | src/avro/schema_set.rs:459-469 | A dotted name stands by itself; an undotted one follows a non-empty text namespace; with a missing, empty or non-text namespace it stands by itself. |
| `Dependencies.UnnamedRule` | src/avro/schema_set.rs:459-461 | A document without a name in text declares none, and only such a one. |
| `Dependencies.NamespacesKeepApart` | src/avro/schema_set.rs:402-407 | One name in two namespaces is two names: the documents never clash, and as root and only dependency they are accepted and the dependency is kept. |
| `Dependencies.DottedMeetsNamespace` | src/avro/schema_set.rs:454-458 | A dotted name and a name in a namespace that come to the same clash exactly when their documents differ. |
| `ReferenceClosure.ReferenceCollector.CollectReferenceClosure` | src/avro/mod.rs:137-184 | The recursive walk over the mutable visited set and output is the specified depth-first collection, on every registry, cyclic ones included, and puts out the registry's text for each schema. |
| `ReferenceClosure.FetchClosure` | src/avro/mod.rs:611-620 | On success the texts are, position by position, those of the reachable pairs, each pair once, dependencies first exactly when nothing reachable is on a cycle; a text is put out exactly when it is that of a reachable pair; an error is true of the registry. |
| `ReferenceClosure.ClosureErrorIsTrue` | src/avro/mod.rs:144-167 | A failed fetch is of a reachable pair the registry lacks, too many means that more than 256 are reachable, too deep that a chain of 32 without repetition goes on. |
| `ReferenceClosure.ClosureIsExact` | src/avro/mod.rs:137-184 | A successful closure has asked the registry for exactly the reachable subject-version pairs, each once, and put each of them out once. |
| `ReferenceClosure.SizeIsReachable` | src/avro/mod.rs:159-181 | A successful closure is as large as the set of reachable pairs, so it keeps the documented limit of 256 if and only if at most 256 are reachable. |
| `ReferenceClosure.ClosureSize` | src/avro/mod.rs:159-181 | Whatever the registry, it puts out at most 256 + 32 - 1 schemas. |
| `ReferenceClosure.ClosureSizeWithin` | src/avro/mod.rs:159-181 | If no chain of references from the roots is longer than d, at most 255 + d. |
| `ReferenceClosure.ClosureSizeIsMet` | src/avro/mod.rs:159-181 | For each d from 1 to 32 some registry has no longer chain and reaches 255 + d. |
| `ReferenceClosure.ClosureSizeIsTight` | src/avro/mod.rs:159-181 | So 287 can come back. |
| `ReferenceClosure.LimitHoldsIffFlat` | src/avro/mod.rs:159-181 | The documented limit holds for all registries whose chains are no longer than d if and only if d is at most 1: no referenced schema has references of its own. |
| `ReferenceClosure.ClosureOrderedIffAcyclic` | src/avro/mod.rs:137-184 | Every dependency precedes its users in the output exactly when nothing reachable is on a reference cycle. |
| `ReferenceClosure.ClosureSucceeds` | src/avro/mod.rs:144-163 | A closure of at most 256 schemas, all in the registry, whose chains without repetition respect the depth limit is collected, cyclic or not. |
| `ReferenceClosure.SmallClosureSucceeds` | src/avro/mod.rs:144-163 | In particular any closure of fewer than 32 schemas. |
| `Integers.BitsAreArithmetic` | src/wire.rs:138-160 | On 64-bit words the masks, shifts and disjoint unions of the byte codecs are the remainders, quotients and sums of this model. |
| `Integers.OrIsSum` | src/wire.rs:215 | At each of the shifts 7 to 63 the reader makes, joining the shifted bits to those read so far by `|` is the sum modulo 2^64. |
| `Varint.WriteVarint` | src/wire.rs:139-149 | Appends the specified encoding to the buffer and changes nothing before it. |
| `Varint.VarintLength` | src/wire.rs:153-160 | The computed length is the length of what is written. |
| `Varint.ReadVarintAt` | src/wire.rs:202-227 | The shifting loop reads the base-128 value less its bits above bit 63, or the specified error. |
| `Varint.VarintLenIsLeast` | src/wire.rs:151-160 | The length is the least number of 7-bit groups that hold the value. |
| `Varint.ShortEncodings` | src/wire.rs:139-149 | Below 128 the byte is the value; below 16384 the first byte carries the lower seven bits. |
| `Varint.EncodeIsVarint` | src/wire.rs:139-149 | Every 64-bit value takes 1 to 10 bytes, of which all but the last are continuation bytes, and the bytes stand for the value. |
| `Varint.ReadsVarints` | src/wire.rs:202-227 | Reading accepts exactly a terminated run of at most ten bytes, whatever surrounds it, with the run's value modulo 2^64. |
| `Varint.ReadIsTrue` | src/wire.rs:202-227 | Truncation is reported exactly for continuation bytes up to the end of the data, overflow for ten continuation bytes. |
| `Varint.ReadUndoesWrite` | src/wire.rs:139-227 | For every 64-bit value and all surrounding bytes, reading gives back what was written and its length. |
| `Varint.ReadIsLocal` | src/wire.rs:202-227 | No byte beyond the reported ones influences the result. |
| `Varint.CanonicalForms` | src/wire.rs:202-227 | The bytes read are the encoder's exactly when they have no leading zeros and a tenth byte is 1; the encoder's are never longer, and as long exactly when there are no leading zeros and a tenth byte is odd. |
| `Varint.TenthByteKeepsOneBit` | src/wire.rs:215 | Ten-byte forms that differ in the tenth byte read alike exactly when its lowest bit is the same: the reader is not injective. |
| `MessageIndex.ZigzagInverse` | src/wire.rs:170-197 | Decoding accepts exactly the encodings of 32-bit naturals; odd and too large values are refused. |
| `MessageIndex.ZigzagValues` | src/wire.rs:170-197 | Twice a 32-bit number decodes to it, twice a larger one overflows, an odd value is negative. |
| `MessageIndex.PutMessageIndexes` | src/wire.rs:393-406 | Appends the specified array: one zero byte for the empty path and for `[0]`, else the count and the segments. |
| `MessageIndex.MessageIndexLen` | src/wire.rs:376-385 | The space reserved for the array is the space it takes. |
| `MessageIndex.ParseMessageIndexes` | src/wire.rs:502-524 | The counting loop reads exactly the specified path and end, or the first error met. |
| `MessageIndex.IndexesRoundTrip` | src/wire.rs:376-524 | Every path of at most 512 segments comes back from in front of any payload, the empty one as `[0]`, using exactly its length; every longer path is refused. |
| `MessageIndex.AcceptedIndexes` | src/wire.rs:502-524 | An accepted path has 1 to 512 segments, encoding it takes no more bytes than were consumed, and as many exactly when those bytes are the encoder's own. |
| `MessageIndex.DecodesExactly` | src/wire.rs:502-524 | A path is accepted with its length exactly when that many bytes are varints, of any admissible length, for twice the count and twice each segment, or for a zero count and the path `[0]`. |
| `MessageIndex.SmallPathBytes` | src/wire.rs:376-406 | A path of fewer than 64 positions below 64 is the byte twice its length and the bytes twice each position. |
| `MessageIndex.DecodeIsLocal` | src/wire.rs:502-524 | Only the consumed bytes are read. |
| `DescriptorPath.PathFromExact` | src/protobuf/mod.rs:115-151 | A path is derived from exactly the alternating message-type and nested-type chains with non-negative positions, and it is those positions. |
| `DescriptorPath.PathRefused` | src/protobuf/mod.rs:115-151 | An odd or short path, another first field, a level that is not a nested type and a negative position are refused, each as what it is, in that order. |
| `DescriptorPath.PathReachesTheWire` | src/protobuf/mod.rs:106-151 | A path derived from a descriptor is written to the wire and read back unchanged. |
| `WireFormat.BigEndianInverse` | src/wire.rs:236-270 | Four bytes stand for an ID exactly when they are its big-endian encoding. |
| `WireFormat.PrefixBytes` | src/wire.rs:232-243 | An ID is a zero byte and four bytes, most significant first; a GUID is a one byte and its sixteen bytes. |
| `WireFormat.PrefixRefused` | src/wire.rs:253-286 | Empty data, another first byte and a cut-off prefix are refused as what they are. |
| `WireFormat.PutPrefix` | src/wire.rs:232-243 | Appends the magic byte and identifier of the key. |
| `WireFormat.PrefixExact` | src/wire.rs:253-286 | The prefix decoder reports a key exactly when the data begin with that key's prefix. |
| `WireFormat.EncodeWireFormat` | src/wire.rs:315-321 | The frame is the prefix and the payload. |
| `WireFormat.EncodeProtobufWireFormat` | src/wire.rs:447-459 | The frame is the prefix, the index array and the payload. |
| `WireFormat.FrameExact` | src/wire.rs:345-348 | Unframing reports a key and payload exactly when the data are their frame. |
| `WireFormat.EncodeSchemaIdHeader` | src/wire.rs:553-562 | The header is the prefix and, given a path, the index array. |
| `WireFormat.HeaderIsPrefix` | src/wire.rs:526-562 | The header value is exactly what the payload would carry in front. |
| `WireFormat.HeaderRoundTrip` | src/wire.rs:553-606 | Key and normalised path come back from every header. |
| `WireFormat.AcceptedHeader` | src/wire.rs:591-606 | An accepted header is a prefix alone, or a prefix and an index array and nothing after it, no shorter than the encoder's; if as short, the encoder's own. |
| `WireFormat.TrailingBytesRefused` | src/wire.rs:591-606 | A header with anything after its index array is refused. |
| `WireFormat.DetectionAgrees` | src/wire.rs:728-760 | On every byte string detection agrees with the Confluent and the Glue header decoders, which never both accept. |
| `WireFormat.DetectionExact` | src/wire.rs:688-760 | A format is detected exactly when the data begin with its header; the two invalid outcomes are exactly the truncated or malformed headers. |
| `GlueFormat.EncodeGlueWireFormat` | src/glue/mod.rs:318-337 | The frame is the 18-byte header and the payload, compressed if asked for; a compressor failure is the only error. |
| `GlueFormat.GlueHeaderExact` | src/glue/mod.rs:376-403 | The header is accepted exactly when the data begin with it. |
| `GlueFormat.GlueHeaderBytes` | src/glue/mod.rs:318-337 | The header is three, then zero for a plain and five for a compressed payload, then the sixteen bytes of the version. |
| `GlueFormat.GlueHeaderRefused` | src/glue/mod.rs:376-403 | A short, wrongly versioned or unknown-compression header is refused as what it is. |
| `Decoder.ConfluentRoundTrip` | src/decoder.rs:200-241 | For every key, path of at most 512 segments and payload, framing by schema type, detecting and decoding gives the same payload, the key's schema and, for Protobuf only, the normalised path. |
| `Decoder.LongPathsAreRefused` | src/decoder.rs:222-226 | A Protobuf frame with a longer path is an error, not a wrong payload. |
| `Decoder.GlueRoundTrip` | src/decoder.rs:243-273 | Every Glue frame comes back with its schema and payload; a compressed one if ZLIB restores the payload. |
| `Decoder.PassesThroughIffUnframed` | src/decoder.rs:280-292 | Bytes pass through untouched exactly when neither header decoder accepts them; otherwise success needs the backend's schema for the named key. |
| `Decoder.FailsExactly` | src/decoder.rs:200-273 | Each error of a framed message, for exactly the inputs it applies to: no backend, a payload that does not decompress, an unknown schema, a malformed Protobuf path. |
| `Decoder.DecodedParts` | src/decoder.rs:214-239 | An accepted Confluent message is, byte for byte, its prefix, for Protobuf an index array that decodes to the reported path, and the payload. |
| `Decoder.UnframeRoundTrip` | src/protobuf/mod.rs:543-565 | A Protobuf frame is unframed exactly when its normalised path is the expected one. |
| `Decoder.UnframeAgrees` | src/protobuf/mod.rs:543-565 | The Protobuf unframer and the format-agnostic decoder see the same message in the same bytes. |
| `Calendar.CivilMatchesCalendar` | src/http.rs:120-128 | The branch-free count equals the sum of year and month lengths since 1970-01-01 for every month of every integer year, negative ones included, and any day number. |
| `Calendar.NextDayCountsOne` | src/http.rs:120-128 | Consecutive dates are one day apart over month, year and leap-year ends. |
| `Calendar.CountOrdersDates` | src/http.rs:120-128 | Counts are in the order of their dates, so no two dates share one. |
| `Calendar.EveryDayHasADate` | src/http.rs:120-128 | Every integer is the count of some date. |
| `Calendar.CountsExactlyBetween` | src/http.rs:115-128 | In overflow-checked 64-bit arithmetic the count is right for exactly the dates from -25252734927764585-06-07 to 25252734927766554-09-25, and overflows for every other. |
| `Calendar.WrappingCountsExactlyBetween` | src/http.rs:115-128 | In wrapping 64-bit arithmetic it is right for exactly the dates from -25252734927764585-06-07 to 25252734927768524-07-27, those whose count fits. |
| `Calendar.LargestYearOverflows` | src/http.rs:118-119 | The largest 64-bit year is counted right by neither, contrary to the comment. |
| `HttpDate.ParseImfFixdate` | src/http.rs:82-113 | An IMF-fixdate (section 5.6.7 of RFC 9110) of the years 0 to 9999 comes to the calendar's day count times 86400 plus the time of day. |
| `HttpDate.ImfFixdateParts` | src/http.rs:82-98 | The 29 characters of such a date stand where the parser looks for them. |
| `HttpDate.AcceptedDate` | src/http.rs:82-113 | Whatever is accepted, signed fields and impossible days of a month included, comes to the calendar's count for a year from -999 to 9999. |
| `HttpDate.SecondsFollowDates` | src/http.rs:112 | Later dates are later moments. |
| `HttpDate.DateIsTimeLeft` | src/http.rs:63-74 | A date asks for the time left until it, in milliseconds, and for none once it has passed. |
| `HttpDate.SecondsAreMilliseconds` | src/http.rs:66-69 | The decimal digits of a number, with or without a plus sign, ask for 1000 times as many milliseconds, held to 64 bits; beyond 64 bits for nothing. |
| `HttpDate.SecondsAreCounted` | src/http.rs:112 | A minute is 60 seconds later, an hour 3600, and the next day, over month and year ends, 86400. |
| `HttpDate.SignsAreRead` | src/http.rs:89 | A numeric field may carry either sign. |
| `Retry.CappedIsExact` | src/retry.rs:157-161 | For every attempt number the saturating back-off is min(max, base * 2^attempt) over the integers, held to 64 bits. |
| `Retry.CappedGrows` | src/retry.rs:157-161 | Before jitter a later attempt never waits less. |
| `Retry.DelayBounds` | src/retry.rs:145-169 | Jitter stays between half the back-off and all of it; a delay the server asks for is shortened only by the ceiling (section 10.2.3 of RFC 9110); nothing exceeds the ceiling. |
| `Retry.JitterReachesAll` | src/retry.rs:163-168 | With jitter exactly the delays from half the back-off to twice that half occur. |
| `Retry.Request` | src/http.rs:248-302 | Network errors, 429 and 500 to 599 are repeated, at most max_retries times, and no other reply is; the last reply is returned, and exactly the delays between are slept. |
| `Retry.SleepFollowsReply` | src/http.rs:266-301 | The sleep after a reply is what that reply itself asked for, up to the ceiling, if it did and is heeded; else the back-off of that attempt, at most halved. |
| `Retry.TotalDelayBound` | src/http.rs:266-301 | Whatever the server replies and the draws are, the sleeps add up to at most max_retries times max_backoff. |
| `Retry.BackoffIsGeometric` | src/retry.rs:157-168 | Without server-directed delays the first n sleeps add up to at most base * (2^n - 1). |

## Left out

- HTTP, TLS, authentication, the AWS client, REST routes, pagination and body limits: a registry is a given function or a step of the environment.
- Avro, JSON Schema and Protobuf serialisation and schema parsing: ordering starts from parsed schema trees, deduplication from a given JSON parser.
- ZLIB: a pair of given functions; `Decoder.GlueRoundTrip` asks that they restore the payload in question.
- The JSON Schema reference resolver, subject strategies, schema resolution policy, builders, formatting and error predicates: they repeat the Avro walk or are single-branch facts.
- Error texts: errors are plain variants carrying the name or index they report.
- Memory-ordering below sequential consistency and wrap-around of the 64-bit token and generation counters: the atomics are sequentially consistent and the counters unbounded.
- Iteration order of hash maps and sorted sets: which of several errors is reported first is not fixed (`SchemaSet.BuildDefiner`, `SchemaSet.BuildPrerequisites` and `ResolvedSchema.FromParsed` say that the reported one is true).
- Panics inside callbacks and lock poisoning, and builds without the Glue feature.
- CacheTheorems.NoWaiterStuck: says that an answer is always within reach of one call's own steps, not that a scheduler takes them.
- CacheTheorems.OtherKeysUndisturbed: leaves out the in-flight step of `invalidate_matching`, whose keys are many; `CacheCancellation.DoomedStepTakesOnlyDoomed` is that case.
- CacheTheorems.OneLiveLeader: one fetch per key between registration and claim; between a claim and its store a new caller of the same key can lead a second one.
- The re-check of the store under the in-flight lock (`src/cache_inner.rs:297-304`) and the counter check inside the write lock (`src/cache_inner.rs:258-260`) are one step each with what follows: a store change, respectively a bump, in between commutes with the rest of the section.
- A future dropped before its first poll, or a caller that never polls again, is a call that takes no further step.
- CacheProtocol allows `insert_if_current` at any time with any counter value already seen; the wrapper's own samples are tracked in RegistryCache.
- RegistryObject.CachedSchemaRegistry.Delete: the lookups themselves, which await a backend, are modelled as interleaved calls in RegistryCache and not as methods of the class.
- The concurrency bound and failure list of `warm_cache` (`src/cache.rs:243-272`): warming is any number of lookups by ID.
- Equality of parsed Avro schemas is structural; canonical-form equality of the Avro library is not part of this model, nor are the library's own name methods beyond what the walk uses.
- The other constructor of a resolved schema, `parse` (`src/avro/schema_set.rs:87-127`), which hands text to the Avro library.
- ReferenceClosure counts versions as given; the conversion of a registry response to references is not part of this model.
- Borrowing and zero-copy variants of the decoders (`src/wire.rs:368-371`, `src/glue/mod.rs:351-374`) have the behaviour of the ones modelled.
- HttpDate.DateIsTimeLeft: takes the header value with surrounding white space already removed, and the clock as an argument.
- HttpDate.ParseImfFixdate: text is its bytes; on UTF-8 text a field whose boundary would split a character is refused by the source and, not being decimal digits or a month, here too.
- Retry.Request: the concurrency permit and logging are left out; the server's replies and the jitter's draws are given functions, any values allowed, and durations are whole milliseconds.
- Retry.CappedIsExact: sub-millisecond parts of the configured durations are dropped before the computation, as the source does.
