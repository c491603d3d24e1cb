/**
 The caching registry as an object: `CachedSchemaRegistry` of src/cache.rs with
 its two identifier caches, each method run without interference. RegistryCache
 interleaves the same critical sections.
 */
module RegistryObject {
  import opened Prelude
  import opened CacheState
  import opened CacheObject
  import opened RegistryCache

  /** Of one cache: the entries of the subject are gone and no others, a fetch is
      gone exactly if its key was stored with the subject, the other fetches keep
      their waiters, and the counter has moved on by one. */
  ghost predicate SubjectDropped<K(!new)>(before: Shared<K, Schema>, after: Shared<K, Schema>, subject: string) {
    && (forall k :: k in after.store.entries <==>
      k in before.store.entries && before.store.entries[k].subject != Some(subject))
    && (forall k :: k in after.store.entries ==> after.store.entries[k] == before.store.entries[k])
    && (forall k :: k in after.inFlight <==>
      k in before.inFlight && !(k in before.store.entries && before.store.entries[k].subject == Some(subject)))
    && (forall k :: k in after.inFlight ==> after.inFlight[k] == before.inFlight[k])
    && after.generation == before.generation + 1
    && after.nextToken == before.nextToken && after.max == before.max
  }

  class CachedSchemaRegistry {
    const cache: InMemoryCache<SchemaId, Schema>
    const guidCache: InMemoryCache<SchemaGuid, Schema>

    /** Both caches are well formed. */
    ghost predicate Valid()
      reads this, cache, guidCache
    {
      cache.WellFormed() && guidCache.WellFormed()
    }

    constructor (maxEntries: nat)
      ensures Valid() && fresh(cache) && fresh(guidCache)
      ensures cache.entries == map[] && guidCache.entries == map[]
      ensures cache.maxEntries == guidCache.maxEntries
      ensures cache.maxEntries == Some(if maxEntries == 0 then 1 else maxEntries)
    {
      var bound := if maxEntries < 1 then 1 else maxEntries;
      cache := new InMemoryCache(Some(bound));
      guidCache := new InMemoryCache(Some(bound));
    }

    method SampleGenerations() returns (at: Generations)
      ensures at == Generations(cache.generation, guidCache.generation)
    {
      return Generations(cache.generation, guidCache.generation);
    }

    /** Index under the numeric ID, if one was reported and nothing was
        invalidated since the sample. */
    method IndexById(schema: Schema, at: Generations)
      requires Valid()
      modifies cache
      ensures Valid()
      ensures cache.State() ==
        if schema.id.None? then old(cache.State())
        else CacheState.InsertIfCurrent(old(cache.State()), schema.id.value, schema, at.id)
      ensures guidCache.State() == old(guidCache.State())
    {
      if schema.id.Some? {
        cache.InsertIfCurrent(schema.id.value, schema, at.id);
      }
    }

    method IndexByGuid(schema: Schema, at: Generations)
      requires Valid()
      modifies guidCache
      ensures Valid()
      ensures guidCache.State() ==
        if schema.guid.None? then old(guidCache.State())
        else CacheState.InsertIfCurrent(old(guidCache.State()), schema.guid.value, schema, at.guid)
      ensures cache.State() == old(cache.State())
    {
      if schema.guid.Some? {
        guidCache.InsertIfCurrent(schema.guid.value, schema, at.guid);
      }
    }

    /** Index under every reported identifier; each cache checks its own
        counter. */
    method Populate(schema: Schema, at: Generations)
      requires Valid()
      modifies cache, guidCache
      ensures Valid()
      ensures cache.State() ==
        if schema.id.None? then old(cache.State())
        else CacheState.InsertIfCurrent(old(cache.State()), schema.id.value, schema, at.id)
      ensures guidCache.State() ==
        if schema.guid.None? then old(guidCache.State())
        else CacheState.InsertIfCurrent(old(guidCache.State()), schema.guid.value, schema, at.guid)
    {
      IndexById(schema, at);
      IndexByGuid(schema, at);
    }

    /** Drop everything cached under a subject, keep everything else, and make
        samples taken before worthless. */
    method InvalidateSubject(subject: string)
      requires Valid()
      modifies cache, guidCache
      ensures Valid()
      ensures SubjectDropped(old(cache.State()), cache.State(), subject)
      ensures SubjectDropped(old(guidCache.State()), guidCache.State(), subject)
    {
      var cancelledIds := cache.InvalidateMatching(HasSubject(subject));
      var cancelledGuids := guidCache.InvalidateMatching(HasSubject(subject));
    }

    /** `delete_subject` and `delete_version`, given the backend's answer. */
    method Delete(subject: string, deleted: bool)
      requires Valid()
      modifies cache, guidCache
      ensures Valid()
      ensures !deleted ==> cache.State() == old(cache.State()) && guidCache.State() == old(guidCache.State())
      ensures deleted ==>
        && SubjectDropped(old(cache.State()), cache.State(), subject)
        && SubjectDropped(old(guidCache.State()), guidCache.State(), subject)
    {
      if deleted {
        InvalidateSubject(subject);
      }
    }
  }
}
