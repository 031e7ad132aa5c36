/** The synchronizer (`Synchronizer`): manual registration of resources,
    schema-update gating, discovery of resources in code, the sync itself and
    the population of the cache from its result. The store, the cache and the
    process-wide one-shot flag are objects the synchronizer updates in place. */
module Synchronization {
  import opened Wrappers
  import opened OrderedDict
  import opened Resources
  import opened ResourceSynchronizer

  /** A type taking part in discovery, by name. */
  type TypeName = string

  /** A manually crafted resource: a key, a language and that language's text. */
  datatype ManualResource = ManualResource(key: string, language: string, translation: Text)

  datatype SyncError =
    | ArgumentNull(parameterName: string)
    | InvalidOperation(message: string)

  datatype Outcome = Pass | Fail(error: SyncError)

  /** The parts of the global configuration the synchronizer reads. */
  datatype Configuration = Configuration(
    populateCacheOnStartup: bool,
    foreignResources: Option<seq<TypeName>>,
    schemaHandlerRegistered: bool)

  /** What reflection provides: the types marked as resources, the types marked
      as models, and the discovered resources of one type. */
  datatype DiscoveryHelper = DiscoveryHelper(
    resourceTypes: seq<TypeName>,
    modelTypes: seq<TypeName>,
    scan: TypeName -> seq<DiscoveredResource>)

  datatype CacheEntry = CacheEntry(resource: Resource, isDeterminate: bool)

  const ManualAuthor: string := "manual"
  const SchemaHandlerMissing: string :=
    "Resource sync handler is not registered. Make sure that storage provider is registered e.g. ctx.UseSqlServer(..)"

  // ---------------------------------------------------------------- discovery

  /** The discovered resources of every type, type after type (`SelectMany`). */
  function ScanAll(types: seq<TypeName>, scan: TypeName -> seq<DiscoveredResource>): seq<DiscoveredResource> {
    if types == [] then []
    else ScanAll(types[..|types| - 1], scan) + scan(types[|types| - 1])
  }

  /** Keeps the first resource of every key, in order (`DistinctBy(r => r.Key)`). */
  function DistinctByKey(ds: seq<DiscoveredResource>): seq<DiscoveredResource> {
    if ds == [] then []
    else
      var kept := DistinctByKey(ds[..|ds| - 1]);
      if IndexOfDiscovered(kept, ds[|ds| - 1].key) < |kept| then kept else kept + [ds[|ds| - 1]]
  }

  /** `DiscoverResources(types)`: every type scanned, duplicates by key dropped. */
  function DiscoverResources(types: seq<TypeName>, scan: TypeName -> seq<DiscoveredResource>): seq<DiscoveredResource> {
    DistinctByKey(ScanAll(types, scan))
  }

  /** Every resource of `r` is the first occurrence of its key in `ds`, and
      `r` lists them in the order of those first occurrences. */
  ghost predicate FirstOccurrences(ds: seq<DiscoveredResource>, r: seq<DiscoveredResource>) {
    && (forall i :: 0 <= i < |r| ==>
          IndexOfDiscovered(ds, r[i].key) < |ds| && r[i] == ds[IndexOfDiscovered(ds, r[i].key)])
    && (forall i, j :: 0 <= i < j < |r| ==>
          IndexOfDiscovered(ds, r[i].key) < IndexOfDiscovered(ds, r[j].key))
  }

  lemma FirstOccurrencesExtend(init: seq<DiscoveredResource>, last: DiscoveredResource, kept: seq<DiscoveredResource>)
    requires FirstOccurrences(init, kept)
    ensures FirstOccurrences(init + [last], kept)
    ensures forall i :: 0 <= i < |kept| ==> IndexOfDiscovered(init + [last], kept[i].key) < |init|
  {
    var ds := init + [last];
    assert ds[..|init|] == init;
    forall i | 0 <= i < |kept|
      ensures IndexOfDiscovered(ds, kept[i].key) == IndexOfDiscovered(init, kept[i].key)
    {
      IndexOfDiscoveredIs(ds, kept[i].key, IndexOfDiscovered(init, kept[i].key));
    }
  }

  lemma FirstOccurrencesAppend(init: seq<DiscoveredResource>, last: DiscoveredResource, kept: seq<DiscoveredResource>)
    requires FirstOccurrences(init, kept)
    requires last.key !in DiscoveredKeys(init)
    ensures FirstOccurrences(init + [last], kept + [last])
  {
    var ds := init + [last];
    FirstOccurrencesExtend(init, last, kept);
    IndexOfDiscoveredMissing(init, last.key);
    IndexOfDiscoveredIs(ds, last.key, |init|);
    var r := kept + [last];
    forall i | 0 <= i < |r|
      ensures IndexOfDiscovered(ds, r[i].key) < |ds| && r[i] == ds[IndexOfDiscovered(ds, r[i].key)]
    {
      if i < |kept| {
        assert r[i] == kept[i];
      }
    }
  }

  /** The de-duplicated discovery has pairwise-distinct keys and the same keys
      as the scans; each kept resource is the first occurrence of its key, and
      the kept resources are in the order of those first occurrences. */
  lemma {:induction false} DistinctByKeySpec(ds: seq<DiscoveredResource>)
    ensures DistinctDiscoveredKeys(DistinctByKey(ds))
    ensures DiscoveredKeys(DistinctByKey(ds)) == DiscoveredKeys(ds)
    ensures FirstOccurrences(ds, DistinctByKey(ds))
  {
    if ds != [] {
      var n := |ds| - 1;
      var init, last := ds[..n], ds[n];
      var kept := DistinctByKey(init);
      DistinctByKeySpec(init);
      assert ds == init + [last];
      DiscoveredKeysSnoc(init, last);
      if IndexOfDiscovered(kept, last.key) == |kept| {
        assert last.key !in DiscoveredKeys(kept) by {
          var f := FindDiscovered(kept, last.key);
        }
        FirstOccurrencesAppend(init, last, kept);
        DiscoveredKeysSnoc(kept, last);
        forall i | 0 <= i < |kept| ensures kept[i].key != last.key {
          assert kept[i] in kept;
        }
      } else {
        FirstOccurrencesExtend(init, last, kept);
        var i := IndexOfDiscovered(kept, last.key);
        assert kept[i] in kept;
      }
    }
  }

  /** The resource types to scan: the marked resource types, with the
      configured foreign resource types appended when there are any. */
  function ResourceTypes(helper: DiscoveryHelper, config: Configuration): (r: seq<TypeName>)
    ensures helper.resourceTypes <= r
    ensures |r| > |helper.resourceTypes| <==>
      config.foreignResources.Some? && |config.foreignResources.value| > 0
    ensures r[|helper.resourceTypes|..] ==
      if config.foreignResources.Some? then config.foreignResources.value else []
  {
    match config.foreignResources
    case Some(foreign) => if |foreign| > 0 then helper.resourceTypes + foreign else helper.resourceTypes
    case None => helper.resourceTypes
  }

  /** What the sync stores for a key: the stored resource reconciled with the
      first resource of that key found on resource types, then with the first
      one found on model types. A key found in both scans is reconciled twice. */
  lemma DiscoveredMergeFind(stored: seq<Resource>, resourceTypes: seq<TypeName>, modelTypes: seq<TypeName>,
                            scan: TypeName -> seq<DiscoveredResource>, k: string)
    ensures FindResource(MergeLists(stored, DiscoverResources(resourceTypes, scan), DiscoverResources(modelTypes, scan)), k)
         == Resolve(Resolve(FindResource(stored, k), FindDiscovered(DiscoverResources(resourceTypes, scan), k)),
                    FindDiscovered(DiscoverResources(modelTypes, scan), k))
  {
    DistinctByKeySpec(ScanAll(resourceTypes, scan));
    DistinctByKeySpec(ScanAll(modelTypes, scan));
    MergeListsFind(stored, DiscoverResources(resourceTypes, scan), DiscoverResources(modelTypes, scan), k);
  }

  // ------------------------------------------------------ manual registration

  /** The resource created for a manual resource whose key is not stored yet. */
  function NewManualResource(m: ManualResource): Resource {
    Resource(m.key, [Entry(m.language, m.translation)], false, false, false, Some(ManualAuthor))
  }

  /** The store after `CreateOrUpdateTranslation(key, language, text)`: that
      one translation of that one resource upserted. */
  function UpdateTranslation(rs: seq<Resource>, key: string, language: string, text: Text): seq<Resource> {
    var i := IndexOfResource(rs, key);
    if i < |rs| then rs[i := rs[i].(translations := Upsert(rs[i].translations, language, text))] else rs
  }

  /** One step of `RegisterManually`. */
  function RegisterOne(rs: seq<Resource>, m: ManualResource): seq<Resource> {
    if IndexOfResource(rs, m.key) == |rs| then rs + [NewManualResource(m)]
    else UpdateTranslation(rs, m.key, m.language, m.translation)
  }

  /** The store after registering the manual resources in order. */
  function RegisterAll(rs: seq<Resource>, ms: seq<ManualResource>): seq<Resource> {
    if ms == [] then rs
    else RegisterOne(RegisterAll(rs, ms[..|ms| - 1]), ms[|ms| - 1])
  }

  /** A manual resource with a new key is appended as a resource with exactly
      that one translation, not modified, not hidden, not from code, and
      authored "manual". */
  lemma RegisterOneNew(rs: seq<Resource>, m: ManualResource)
    requires m.key !in ResourceKeys(rs)
    ensures |RegisterOne(rs, m)| == |rs| + 1 && RegisterOne(rs, m)[..|rs|] == rs
    ensures RegisterOne(rs, m)[|rs|].key == m.key
    ensures RegisterOne(rs, m)[|rs|].translations == [Entry(m.language, m.translation)]
    ensures !RegisterOne(rs, m)[|rs|].isModified && !RegisterOne(rs, m)[|rs|].isHidden
    ensures !RegisterOne(rs, m)[|rs|].fromCode && RegisterOne(rs, m)[|rs|].author == Some(ManualAuthor)
  {
    IndexOfResourceMissing(rs, m.key);
  }

  /** A manual resource with a stored key creates no resource: only that
      resource's translation for that language is created or updated. */
  lemma RegisterOneExisting(rs: seq<Resource>, m: ManualResource)
    requires m.key in ResourceKeys(rs)
    ensures |RegisterOne(rs, m)| == |rs|
    ensures FindResource(RegisterOne(rs, m), m.key)
         == Some(FindResource(rs, m.key).value.(translations := Upsert(FindResource(rs, m.key).value.translations, m.language, m.translation)))
    ensures forall j :: 0 <= j < |rs| && rs[j].key != m.key ==> RegisterOne(rs, m)[j] == rs[j]
  {
    var i := IndexOfResource(rs, m.key);
    IndexOfResourceIs(RegisterOne(rs, m), m.key, i);
  }

  /** The translation a store holds for a key and a culture, if any. */
  function TranslationIn(rs: seq<Resource>, key: string, culture: string): Option<Text> {
    match FindResource(rs, key)
    case Some(r) => Get(r.translations, culture)
    case None => None
  }

  lemma {:induction false} RegisterOneTranslation(rs: seq<Resource>, m: ManualResource, k: string, c: string)
    ensures TranslationIn(RegisterOne(rs, m), k, c) ==
      if k == m.key && c == m.language then Some(m.translation) else TranslationIn(rs, k, c)
  {
    var i := IndexOfResource(rs, m.key);
    var r := RegisterOne(rs, m);
    if k == m.key {
      IndexOfResourceIs(r, k, i);
      if i < |rs| {
        UpsertGet(rs[i].translations, m.language, m.translation, c);
      }
    } else if IndexOfResource(rs, k) < |rs| {
      IndexOfResourceIs(r, k, IndexOfResource(rs, k));
    } else {
      IndexOfResourceIs(r, k, |r|);
    }
  }

  /** The last manual registration of a key and culture, if any. */
  function LastManual(ms: seq<ManualResource>, k: string, c: string): Option<Text> {
    if ms == [] then None
    else if ms[|ms| - 1].key == k && ms[|ms| - 1].language == c then Some(ms[|ms| - 1].translation)
    else LastManual(ms[..|ms| - 1], k, c)
  }

  /** After registration each key and culture holds the text of its last manual
      registration; every translation not registered is left as it was. */
  lemma {:induction false} RegisterAllTranslation(rs: seq<Resource>, ms: seq<ManualResource>, k: string, c: string)
    ensures TranslationIn(RegisterAll(rs, ms), k, c) ==
      if LastManual(ms, k, c).Some? then LastManual(ms, k, c) else TranslationIn(rs, k, c)
  {
    if ms != [] {
      RegisterAllTranslation(rs, ms[..|ms| - 1], k, c);
      RegisterOneTranslation(RegisterAll(rs, ms[..|ms| - 1]), ms[|ms| - 1], k, c);
    }
  }

  lemma RegisterOneDistinct(rs: seq<Resource>, m: ManualResource)
    requires DistinctResourceKeys(rs)
    ensures DistinctResourceKeys(RegisterOne(rs, m))
  {
  }

  // ------------------------------------------------------------ cache content

  /** The cache entries after inserting every resource, in order, under its
      cache key with the determinate flag set. */
  function InsertAll(m: map<string, CacheEntry>, rs: seq<Resource>, cacheKey: string -> string): map<string, CacheEntry> {
    if rs == [] then m
    else InsertAll(m, rs[..|rs| - 1], cacheKey)[cacheKey(rs[|rs| - 1].key) := CacheEntry(rs[|rs| - 1], true)]
  }

  /** Filling a cleared cache gives an entry for the cache key of every
      resource and nothing else, each entry determinate and holding a resource
      of that cache key. */
  lemma {:induction false} InsertAllEntries(rs: seq<Resource>, cacheKey: string -> string)
    ensures InsertAll(map[], rs, cacheKey).Keys == set r | r in rs :: cacheKey(r.key)
    ensures forall k :: k in InsertAll(map[], rs, cacheKey) ==>
      InsertAll(map[], rs, cacheKey)[k].isDeterminate &&
      InsertAll(map[], rs, cacheKey)[k].resource in rs &&
      cacheKey(InsertAll(map[], rs, cacheKey)[k].resource.key) == k
  {
    if rs != [] {
      var init, last := rs[..|rs| - 1], rs[|rs| - 1];
      InsertAllEntries(init, cacheKey);
      assert rs == init + [last];
      assert forall r | r in rs :: r in init || r == last;
      assert forall r | r in init :: r in rs;
    }
  }

  /** With distinct resource keys and an injective cache key, every resource is
      found in the filled cache under its own cache key. */
  lemma {:induction false} InsertAllFinds(rs: seq<Resource>, cacheKey: string -> string, i: nat)
    requires DistinctResourceKeys(rs)
    requires forall a, b :: cacheKey(a) == cacheKey(b) ==> a == b
    requires i < |rs|
    ensures cacheKey(rs[i].key) in InsertAll(map[], rs, cacheKey)
    ensures InsertAll(map[], rs, cacheKey)[cacheKey(rs[i].key)] == CacheEntry(rs[i], true)
  {
    if i < |rs| - 1 {
      InsertAllFinds(rs[..|rs| - 1], cacheKey, i);
      assert rs[i].key != rs[|rs| - 1].key;
    }
  }

  // ------------------------------------------------------------------ objects

  /** The process-wide one-shot flag. Reading it as a boolean reports whether
      it was already set and sets it; it is never reset. */
  class SingleShotFlag {
    var isSet: bool

    constructor (isSet: bool)
      ensures this.isSet == isSet
    {
      this.isSet := isSet;
    }

    method Read() returns (wasSet: bool)
      modifies this
      ensures wasSet == old(isSet) && isSet
    {
      wasSet := isSet;
      isSet := true;
    }
  }

  /** The resource storage and the command and query handlers over it. */
  class Store {
    var resources: seq<Resource>
    var schemaUpdates: nat

    constructor (resources: seq<Resource>)
      ensures this.resources == resources && schemaUpdates == 0
    {
      this.resources := resources;
      schemaUpdates := 0;
    }

    /** `GetResource.Query(key)`. */
    method GetResource(key: string) returns (r: Option<Resource>)
      ensures r == FindResource(resources, key)
    {
      r := FindResource(resources, key);
    }

    /** `GetAllResources.Query(true)`. */
    method GetAllResources() returns (rs: seq<Resource>)
      ensures rs == resources
    {
      rs := resources;
    }

    /** `CreateNewResources.Command(rs)`. */
    method CreateNewResources(rs: seq<Resource>)
      modifies this`resources
      ensures resources == old(resources) + rs
    {
      resources := resources + rs;
    }

    /** `CreateOrUpdateTranslation.Command(key, language, text)`. */
    method CreateOrUpdateTranslation(key: string, language: string, text: Text)
      modifies this`resources
      ensures resources == UpdateTranslation(old(resources), key, language, text)
    {
      resources := UpdateTranslation(resources, key, language, text);
    }

    /** `UpdateSchema.Command().Execute()`: one more schema update run. */
    method UpdateSchema()
      modifies this`schemaUpdates
      ensures schemaUpdates == old(schemaUpdates) + 1
    {
      schemaUpdates := schemaUpdates + 1;
    }

    /** `SyncResources.Query(resources, models)`: merges the discovered
        resources into storage and returns the merged set. */
    method SyncResources(discoveredResources: seq<DiscoveredResource>, discoveredModels: seq<DiscoveredResource>)
      returns (synced: seq<Resource>)
      modifies this`resources
      ensures resources == MergeLists(old(resources), discoveredResources, discoveredModels)
      ensures synced == resources
    {
      resources := MergeLists(resources, discoveredResources, discoveredModels);
      synced := resources;
    }
  }

  /** The cache: entries by cache key, and the set of resource keys known to exist. */
  class Cache {
    var entries: map<string, CacheEntry>
    var knownKeys: set<string>

    constructor ()
      ensures entries == map[] && knownKeys == {}
    {
      entries := map[];
      knownKeys := {};
    }

    /** `ClearCache.Command()`. */
    method Clear()
      modifies this`entries
      ensures entries == map[]
    {
      entries := map[];
    }

    method Insert(key: string, resource: Resource, isDeterminate: bool)
      modifies this`entries
      ensures entries == old(entries)[key := CacheEntry(resource, isDeterminate)]
    {
      entries := entries[key := CacheEntry(resource, isDeterminate)];
    }

    method StoreKnownKey(key: string)
      modifies this`knownKeys
      ensures knownKeys == old(knownKeys) + {key}
    {
      knownKeys := knownKeys + {key};
    }
  }

  class Synchronizer {
    const helper: DiscoveryHelper
    const config: Configuration
    /** `CacheKeyHelper.BuildKey`. */
    const cacheKey: string -> string
    const store: Store
    const cache: Cache
    /** The static `_synced` flag, shared by every synchronizer of the process. */
    const synced: SingleShotFlag

    constructor (helper: DiscoveryHelper, config: Configuration, cacheKey: string -> string,
                 store: Store, cache: Cache, synced: SingleShotFlag)
      requires store.schemaUpdates <= (if synced.isSet then 1 else 0)
      requires DistinctResourceKeys(store.resources)
      ensures this.helper == helper && this.config == config && this.cacheKey == cacheKey
      ensures this.store == store && this.cache == cache && this.synced == synced
      ensures Valid()
    {
      this.helper := helper;
      this.config := config;
      this.cacheKey := cacheKey;
      this.store := store;
      this.cache := cache;
      this.synced := synced;
    }

    /** The schema update has run at most once, and only after the flag was
        set; stored keys are distinct. */
    ghost predicate Valid()
      reads store, synced
    {
      && store.schemaUpdates <= (if synced.isSet then 1 else 0)
      && DistinctResourceKeys(store.resources)
    }

    /** `RegisterManually(resources)`: null is rejected before the store is
        touched; otherwise each manual resource is created when its key is new
        and otherwise only its translation is created or updated. */
    method RegisterManually(resources: Option<seq<ManualResource>>) returns (outcome: Outcome)
      requires Valid()
      modifies store`resources
      ensures Valid()
      ensures resources.None? ==> outcome == Fail(ArgumentNull("resources")) && store.resources == old(store.resources)
      ensures resources.Some? ==> outcome == Pass && store.resources == RegisterAll(old(store.resources), resources.value)
    {
      if resources.None? {
        return Fail(ArgumentNull("resources"));
      }
      var ms := resources.value;
      var i := 0;
      while i < |ms|
        invariant 0 <= i <= |ms|
        invariant store.resources == RegisterAll(old(store.resources), ms[..i])
        invariant Valid()
      {
        var m := ms[i];
        RegisterOneDistinct(store.resources, m);
        var existing := store.GetResource(m.key);
        if existing.None? {
          store.CreateNewResources([NewManualResource(m)]);
        } else {
          store.CreateOrUpdateTranslation(m.key, m.language, m.translation);
        }
        assert ms[..i + 1][..i] == ms[..i];
        i := i + 1;
      }
      assert ms[..|ms|] == ms;
      return Pass;
    }

    /** `UpdateStorageSchema()`: fails when no schema handler is registered,
        whatever the flag; otherwise runs the schema update only if the flag was
        not yet set, and sets it. */
    method UpdateStorageSchema() returns (outcome: Outcome)
      requires Valid()
      modifies store`schemaUpdates, synced
      ensures Valid()
      ensures !config.schemaHandlerRegistered ==>
        outcome == Fail(InvalidOperation(SchemaHandlerMissing)) &&
        store.schemaUpdates == old(store.schemaUpdates) && synced.isSet == old(synced.isSet)
      ensures config.schemaHandlerRegistered ==>
        outcome == Pass && synced.isSet &&
        store.schemaUpdates == old(store.schemaUpdates) + (if old(synced.isSet) then 0 else 1)
    {
      if !config.schemaHandlerRegistered {
        return Fail(InvalidOperation(SchemaHandlerMissing));
      }
      var wasSet := synced.Read();
      if !wasSet {
        store.UpdateSchema();
      }
      return Pass;
    }

    /** `ReadMerge()`: the stored resources as they are. */
    method ReadMerge() returns (rs: seq<Resource>)
      ensures rs == store.resources
    {
      rs := store.GetAllResources();
    }

    /** `DiscoverReadMerge()`: schema update, the two scans (run one after the
        other here), and the merge of both into storage. */
    method DiscoverReadMerge() returns (outcome: Outcome, rs: seq<Resource>)
      requires Valid()
      modifies store, synced
      ensures Valid()
      ensures !config.schemaHandlerRegistered ==>
        outcome.Fail? && unchanged(store) && synced.isSet == old(synced.isSet)
      ensures config.schemaHandlerRegistered ==>
        && outcome == Pass
        && synced.isSet
        && store.schemaUpdates == old(store.schemaUpdates) + (if old(synced.isSet) then 0 else 1)
        && store.resources == MergeLists(old(store.resources),
             DiscoverResources(ResourceTypes(helper, config), helper.scan),
             DiscoverResources(helper.modelTypes, helper.scan))
        && rs == store.resources
    {
      outcome := UpdateStorageSchema();
      if outcome.Fail? {
        return outcome, [];
      }
      var resourceTypes := ResourceTypes(helper, config);
      var discoveredResources := DiscoverResources(resourceTypes, helper.scan);
      var discoveredModels := DiscoverResources(helper.modelTypes, helper.scan);
      rs := store.SyncResources(discoveredResources, discoveredModels);
    }

    /** `StoreKnownResourcesAndPopulateCache(rs)`: either clear the cache and
        insert every resource under its cache key, or only record every
        resource key as known. */
    method StoreKnownResourcesAndPopulateCache(rs: seq<Resource>)
      modifies cache
      ensures config.populateCacheOnStartup ==>
        cache.entries == InsertAll(map[], rs, cacheKey) && cache.knownKeys == old(cache.knownKeys)
      ensures !config.populateCacheOnStartup ==>
        cache.entries == old(cache.entries) && cache.knownKeys == old(cache.knownKeys) + ResourceKeys(rs)
    {
      if config.populateCacheOnStartup {
        cache.Clear();
        var i := 0;
        while i < |rs|
          invariant 0 <= i <= |rs|
          invariant cache.entries == InsertAll(map[], rs[..i], cacheKey)
          invariant cache.knownKeys == old(cache.knownKeys)
        {
          cache.Insert(cacheKey(rs[i].key), rs[i], true);
          assert rs[..i + 1][..i] == rs[..i];
          i := i + 1;
        }
        assert rs[..|rs|] == rs;
      } else {
        var i := 0;
        while i < |rs|
          invariant 0 <= i <= |rs|
          invariant cache.entries == old(cache.entries)
          invariant cache.knownKeys == old(cache.knownKeys) + ResourceKeys(rs[..i])
        {
          cache.StoreKnownKey(rs[i].key);
          assert rs[..i + 1] == rs[..i] + [rs[i]];
          assert ResourceKeys(rs[..i + 1]) == ResourceKeys(rs[..i]) + {rs[i].key} by {
            assert forall r | r in rs[..i + 1] :: r in rs[..i] || r == rs[i];
          }
          i := i + 1;
        }
        assert rs[..|rs|] == rs;
      }
    }

    /** `SyncResources(registerResources)`: without registration the stored
        resources are only read, with no schema update and no discovery; with it
        they are discovered and merged. Either way the cache is then populated
        from the resulting resources. */
    method SyncResources(registerResources: bool) returns (outcome: Outcome)
      requires Valid()
      modifies store, cache, synced
      ensures Valid()
      ensures !registerResources ==>
        && outcome == Pass
        && unchanged(store) && synced.isSet == old(synced.isSet)
        && (config.populateCacheOnStartup ==>
              cache.entries == InsertAll(map[], store.resources, cacheKey) && cache.knownKeys == old(cache.knownKeys))
        && (!config.populateCacheOnStartup ==>
              cache.entries == old(cache.entries) && cache.knownKeys == old(cache.knownKeys) + ResourceKeys(store.resources))
      ensures registerResources && !config.schemaHandlerRegistered ==>
        outcome.Fail? && unchanged(store) && unchanged(cache) && synced.isSet == old(synced.isSet)
      ensures registerResources && config.schemaHandlerRegistered ==>
        && outcome == Pass
        && synced.isSet
        && store.schemaUpdates == old(store.schemaUpdates) + (if old(synced.isSet) then 0 else 1)
        && store.resources == MergeLists(old(store.resources),
             DiscoverResources(ResourceTypes(helper, config), helper.scan),
             DiscoverResources(helper.modelTypes, helper.scan))
        && (config.populateCacheOnStartup ==>
              cache.entries == InsertAll(map[], store.resources, cacheKey) && cache.knownKeys == old(cache.knownKeys))
        && (!config.populateCacheOnStartup ==>
              cache.entries == old(cache.entries) && cache.knownKeys == old(cache.knownKeys) + ResourceKeys(store.resources))
    {
      var rs: seq<Resource>;
      if registerResources {
        outcome, rs := DiscoverReadMerge();
        if outcome.Fail? {
          return;
        }
      } else {
        outcome := Pass;
        rs := ReadMerge();
      }
      StoreKnownResourcesAndPopulateCache(rs);
    }
  }
}
