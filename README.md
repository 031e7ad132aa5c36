# DbLocalizationProvider resource synchronization, in Dafny

A model of the part of DbLocalizationProvider that keeps localization
resources in step with the resources declared in code.

The model covers five parts:

- **Merge** (`ResourceSynchronizer.MergeLists`). Stored resources are merged
  with the resources discovered on resource types and on model types. A stored
  resource met again in discovery always takes the discovered invariant-culture
  text. It takes the other discovered texts only while it is not modified.
  Discovered keys that are not stored become new resources. Stored keys that
  discovery does not mention pass through unchanged.
- **Synchronizer** (`Synchronizer`). This covers manual registration, the
  schema update that runs at most once per process, discovery with
  de-duplication by key, the sync itself, and filling the cache (or only the
  set of known keys) from the result. The store, the cache and the one-shot
  flag are objects that the methods update in place.
- **`[ResourceKey]` collector.** It builds one discovered resource per
  attribute. The base text sits under the invariant culture.
  `[TranslationForCulture]` attributes overwrite or extend it. It fails when
  two of those attributes name the same culture.
- **CSV export.** Resources are written in key order, one record each, with a
  `ResourceKey` column and one column per available language.
- **CSV parse.** Each row becomes a resource with one translation per
  available language.

Files:

- `wrappers.dfy`: `Option` and `Result`.
- `ordered_dict.dfy`: a string-keyed dictionary that keeps insertion order.
  It models translation lists, the dynamic CSV record and the collector's
  list updated in place.
- `resources.dfy`: resources, discovered resources and key lookup.
- `resource_synchronizer.dfy`: the merge.
- `resource_synchronizer_tests.dfy`: the merge's unit tests, stated as lemmas.
- `synchronizer.dfy`: the synchronizer.
- `collector.dfy`: the `[ResourceKey]` collector.
- `csv_export.dfy`: CSV export.
- `csv_parse.dfy`: CSV parse.

A translation text is `Option<string>`, where `None` stands for .NET `null`.
The invariant culture is the empty culture name `""`.

## Model

| member | source | states |
|---|---|---|
| Resources.ByLanguage | src/DbLocalizationProvider.Csv/Exporter.cs:41 | a language with a translation gives that translation's text (the first entry for the language); a language without one gives null, with no fallback to the invariant culture |
| ResourceSynchronizer.MergeLists | Tests/DbLocalizationProvider.Storage.SqlServer.Tests/ResourceSynchronizedTests/_Tests.cs:104-107 | the merged keys are exactly the stored keys plus both discovered lists' keys, and no key appears twice when none did in the store |
| ResourceSynchronizer.ReconcileTranslation | Tests/DbLocalizationProvider.Storage.SqlServer.Tests/ResourceSynchronizedTests/_Tests.cs:216-223 | reconciling a stored resource with a discovered one changes only its translations; a culture takes the discovered text if and only if discovery has that culture and it is the invariant culture or the resource is not modified |
| ResourceSynchronizer.MergeAllFind | Tests/DbLocalizationProvider.Storage.SqlServer.Tests/ResourceSynchronizedTests/_Tests.cs:157-164 | merging one discovered list with distinct keys agrees, for every key, with a per-key reference: stored and discovered are reconciled, stored only stays, discovered only becomes new, absent stays absent |
| ResourceSynchronizer.MergeListsFind | Tests/DbLocalizationProvider.Storage.SqlServer.Tests/ResourceSynchronizedTests/_Tests.cs:157-164 | when each discovered list has distinct keys, every key of the merge is the stored resource reconciled with the discovered resource of that key, then with the discovered model of that key; a key found in both lists is reconciled twice |
| ResourceSynchronizer.MergeListsKeepsStoreOnly | Tests/DbLocalizationProvider.Storage.SqlServer.Tests/ResourceSynchronizedTests/_Tests.cs:80-107 | a stored resource that no discovered resource matches stays at its place, unchanged |
| ResourceSynchronizer.MergeListsAddsDiscoveryOnly | Tests/DbLocalizationProvider.Storage.SqlServer.Tests/ResourceSynchronizedTests/_Tests.cs:52-62 | a discovered resource whose key is not stored becomes a new unmodified resource carrying the discovered translations |
| ResourceSynchronizer.MergeListsReconcilesMatch | Tests/DbLocalizationProvider.Storage.SqlServer.Tests/ResourceSynchronizedTests/_Tests.cs:157-164 | a stored resource that a discovered resource matches is the one resource with that key afterwards: invariant text from discovery, other cultures from discovery only when not modified, all else as stored |
| ResourceSynchronizer.MergeListsSwapIndependent | Tests/DbLocalizationProvider.Storage.SqlServer.Tests/ResourceSynchronizedTests/_Tests.cs:145-157 | discovered resources and discovered models are treated alike: swapping the two lists gives the same resource for every key |
| ResourceSynchronizer.MergeListsCount | Tests/DbLocalizationProvider.Storage.SqlServer.Tests/ResourceSynchronizedTests/_Tests.cs:157-160 | with distinct stored keys, the merge holds one resource per distinct key of the three inputs |
| ResourceSynchronizer.MergeListsDisjointCount | Tests/DbLocalizationProvider.Storage.SqlServer.Tests/ResourceSynchronizedTests/_Tests.cs:78-108 | inputs with pairwise-disjoint keys give a merge whose size is the sum of the three sizes |
| ResourceSynchronizerTests.MergeEmptyLists | Tests/DbLocalizationProvider.Storage.SqlServer.Tests/ResourceSynchronizedTests/_Tests.cs:41-49 | three empty inputs merge to nothing |
| ResourceSynchronizerTests.MergeWhenDiscoveredModelsEmptyShouldAddDiscoveredResource | Tests/DbLocalizationProvider.Storage.SqlServer.Tests/ResourceSynchronizedTests/_Tests.cs:52-62 | one discovered resource and no models merge to exactly one resource |
| ResourceSynchronizerTests.MergeWhenDiscoveredResourcesEmptyShouldAddDiscoveredModel | Tests/DbLocalizationProvider.Storage.SqlServer.Tests/ResourceSynchronizedTests/_Tests.cs:65-75 | one discovered model and no resources merge to exactly one resource |
| ResourceSynchronizerTests.MergeAllDifferentResourcesShouldKeepAll | Tests/DbLocalizationProvider.Storage.SqlServer.Tests/ResourceSynchronizedTests/_Tests.cs:78-108 | one stored, one discovered resource and one discovered model with different keys merge to three resources |
| ResourceSynchronizerTests.MergeDatabaseContainsDiscoveredResourceNotModifiedShouldOverwriteIncludingInvariant | Tests/DbLocalizationProvider.Storage.SqlServer.Tests/ResourceSynchronizedTests/_Tests.cs:111-165 | for unmodified stored resources, four resources result and both the invariant and the English texts come from discovery |
| ResourceSynchronizerTests.MergeDatabaseContainsDiscoveredResourceModifiedShouldNotOverwriteShouldOverwriteInvariant | Tests/DbLocalizationProvider.Storage.SqlServer.Tests/ResourceSynchronizedTests/_Tests.cs:168-224 | for modified stored resources, four resources result; the invariant texts come from discovery and the English texts stay as stored |
| Synchronization.DistinctByKeySpec | src/DbLocalizationProvider/Sync/Synchronizer.cs:145 | de-duplicated discovery has distinct keys and the same keys as the scans; each kept resource is the first one with its key, kept in first-occurrence order |
| Synchronization.ResourceTypes | src/DbLocalizationProvider/Sync/Synchronizer.cs:122-129 | the scanned resource types are the marked resource types followed by the configured foreign types, which are appended only when configured and non-empty |
| Synchronization.DiscoveredMergeFind | src/DbLocalizationProvider/Sync/Synchronizer.cs:134-138 | what the sync stores for each key is the stored resource reconciled with the first resource of that key from the resource-type scan, then with the first from the model-type scan |
| Synchronization.RegisterOneNew | src/DbLocalizationProvider/Sync/Synchronizer.cs:48-66 | a manual resource with a new key is appended with exactly its one translation; it is not modified, not hidden, not from code, and its author is "manual" |
| Synchronization.RegisterOneExisting | src/DbLocalizationProvider/Sync/Synchronizer.cs:68-76 | a manual resource with a stored key creates nothing; only that resource's translation for that language is set, and other resources are unchanged |
| Synchronization.RegisterOneTranslation | src/DbLocalizationProvider/Sync/Synchronizer.cs:45-77 | after one registration, the key and language hold the manual text, and every other key/language pair keeps its translation |
| Synchronization.RegisterAllTranslation | src/DbLocalizationProvider/Sync/Synchronizer.cs:45-77 | after registering a list, each key and language holds the text of its last registration, and every unregistered pair is unchanged |
| Synchronization.RegisterOneDistinct | src/DbLocalizationProvider/Sync/Synchronizer.cs:47-66 | registration never creates a second resource for a stored key |
| Synchronization.InsertAllEntries | src/DbLocalizationProvider/Sync/Synchronizer.cs:154-160 | a cleared and refilled cache has an entry exactly for the cache key of each resource; each entry is determinate and holds a resource with that cache key |
| Synchronization.InsertAllFinds | src/DbLocalizationProvider/Sync/Synchronizer.cs:156-160 | with distinct keys and an injective cache key, each resource is the determinate entry under its own cache key |
| Synchronization.SingleShotFlag.Read | src/DbLocalizationProvider/Sync/Synchronizer.cs:23 | reading the flag reports its previous state and leaves it set |
| Synchronization.Store.GetResource | src/DbLocalizationProvider/Sync/Synchronizer.cs:47 | returns the stored resource with the key, or none when there is none |
| Synchronization.Store.GetAllResources | src/DbLocalizationProvider/Sync/Synchronizer.cs:111 | returns every stored resource |
| Synchronization.Store.CreateNewResources | src/DbLocalizationProvider/Sync/Synchronizer.cs:65-66 | appends the given resources to the store |
| Synchronization.Store.CreateOrUpdateTranslation | src/DbLocalizationProvider/Sync/Synchronizer.cs:70-75 | sets one translation of one stored resource |
| Synchronization.Store.UpdateSchema | src/DbLocalizationProvider/Sync/Synchronizer.cs:94 | counts one more schema update run |
| Synchronization.Store.SyncResources | src/DbLocalizationProvider/Sync/Synchronizer.cs:137-138 | the store becomes the merge of its resources with both discovered lists, and that merge is returned |
| Synchronization.Cache.Clear | src/DbLocalizationProvider/Sync/Synchronizer.cs:154 | empties the cache entries |
| Synchronization.Cache.Insert | src/DbLocalizationProvider/Sync/Synchronizer.cs:159 | sets the entry for one cache key |
| Synchronization.Cache.StoreKnownKey | src/DbLocalizationProvider/Sync/Synchronizer.cs:165 | adds one key to the known keys |
| Synchronization.Synchronizer.constructor | src/DbLocalizationProvider/Sync/Synchronizer.cs:29-32 | the synchronizer keeps the discovery helper it is given, with its configuration, store, cache and the shared flag, and starts valid: the schema update has run at most once, only with the flag set, and stored keys are distinct |
| Synchronization.Synchronizer.RegisterManually | src/DbLocalizationProvider/Sync/Synchronizer.cs:38-78 | null fails with an argument-null error and leaves the store alone; otherwise the store becomes the in-order registration of every manual resource, and keys stay distinct |
| Synchronization.Synchronizer.UpdateStorageSchema | src/DbLocalizationProvider/Sync/Synchronizer.cs:83-96 | without a schema handler it fails with the invalid-operation message and changes nothing; otherwise the flag ends set and the schema update runs if and only if the flag was unset, so it runs at most once |
| Synchronization.Synchronizer.ReadMerge | src/DbLocalizationProvider/Sync/Synchronizer.cs:109-112 | returns the stored resources as they are |
| Synchronization.Synchronizer.DiscoverReadMerge | src/DbLocalizationProvider/Sync/Synchronizer.cs:114-141 | the schema update is gated as above and failure stops everything; otherwise the store becomes the merge of the de-duplicated discovery over resource types (with foreign types) and over model types, and that merge is returned |
| Synchronization.Synchronizer.StoreKnownResourcesAndPopulateCache | src/DbLocalizationProvider/Sync/Synchronizer.cs:150-167 | with population on, the cache holds exactly the refilled entries and the known keys are unchanged; with it off, the entries are unchanged and the known keys gain every resource key |
| Synchronization.Synchronizer.SyncResources | src/DbLocalizationProvider/Sync/Synchronizer.cs:102-107 | without registration, no schema update and no discovery happen and the cache is filled from the stored resources; with registration, the flag ends set and the schema update runs only if the flag was unset, and the cache is filled from the merged resources; nothing changes when no schema handler is registered |
| Collector.ApplyAdditionalTranslations | src/DbLocalizationProvider/Sync/Collectors/ResourceKeyAttributeCollector.cs:59-66 | updating the list in place: each additional translation overwrites the first translation of its culture or is appended, in attribute order |
| Collector.GetDiscoveredResources | src/DbLocalizationProvider/Sync/Collectors/ResourceKeyAttributeCollector.cs:47-79 | fails with the member's resource key if and only if the member has `[ResourceKey]` attributes and two additional translations share a culture; otherwise one resource per attribute in order, keyed from the attribute key with the type prefix only when the type specifies one, and marked as from the attribute |
| Collector.NoDuplicatesDistinct | src/DbLocalizationProvider/Sync/Collectors/ResourceKeyAttributeCollector.cs:56-57 | once the duplicate check passes, the additional translations have distinct cultures |
| Collector.TranslationsForGet | src/DbLocalizationProvider/Sync/Collectors/ResourceKeyAttributeCollector.cs:51-66 | the translations have distinct cultures; each additional translation is found under its culture, even the invariant one; the base text is under the invariant culture unless overridden; no other culture has a translation |
| CsvExport.InsertByKey | src/DbLocalizationProvider.Csv/Exporter.cs:33 | inserting into the ordered list adds exactly that resource |
| CsvExport.OrderByKey | src/DbLocalizationProvider.Csv/Exporter.cs:33 | the export order is a permutation of the resources |
| CsvExport.OrderByKeySorted | src/DbLocalizationProvider.Csv/Exporter.cs:33 | under a total preorder on keys, the export order is ascending by resource key |
| CsvExport.AddProperty | src/DbLocalizationProvider.Csv/Exporter.cs:63-75 | sets the column when the record has it, otherwise appends it |
| CsvExport.BuildRecord | src/DbLocalizationProvider.Csv/Exporter.cs:35-45 | builds a resource's record column by column: its key, then each language's translation added in turn |
| CsvExport.Export | src/DbLocalizationProvider.Csv/Exporter.cs:28-61 | one record per resource, in key order; each record is that resource's key followed by its language columns; content type is text/csv |
| CsvExport.RecordColumns | src/DbLocalizationProvider.Csv/Exporter.cs:35-45 | every record has distinct column names: exactly the key column and the languages, so all records share one header |
| CsvExport.RecordCells | src/DbLocalizationProvider.Csv/Exporter.cs:37-43 | a language column holds that language's translation or null; the key column holds the resource key unless a language has that name; there are no other columns |
| CsvParse.RowTranslations | src/DbLocalizationProvider.Csv/FormatParser.cs:55-61 | one translation per available language, in language order |
| CsvParse.Parse | src/DbLocalizationProvider.Csv/FormatParser.cs:28-51 | fails if and only if some row has no ResourceKey column; otherwise one resource per row, in order, keyed by that column and carrying the row's translations, and the languages are returned as read |
| CsvParse.ParsedTranslation | src/DbLocalizationProvider.Csv/FormatParser.cs:55-61 | a parsed resource has a translation for exactly the available languages: the row's cell if the column exists, otherwise null; other columns are ignored |
| CsvParse.ExportedRow | src/DbLocalizationProvider.Csv/Exporter.cs:37-45 | the row written for a resource holds its key and, per language, its translation's text, with an empty text for null |
| CsvParse.RoundTrip | src/DbLocalizationProvider.Csv/FormatParser.cs:40-47 | exporting a resource then parsing its row gives back its key, read from the key column, and, per language, the same text, with null becoming empty text |

## Left out

- The storage layer, SQL and the command and query handlers are not modelled. `Store` stands in for them, with the effect each handler has on the stored list.
- The C# body of `ResourceSynchronizer.MergeLists` is not among the modelled source files. The merge is modelled from its unit tests.
- ResourceSynchronizer.MergeLists: the result order is a modelling choice. Stored resources keep their order and new resources are appended in discovery order. Callers do not depend on the result order. A key that both discovered lists hold but the store does not is also a modelling choice: it becomes one resource, the resource-list entry reconciled as an unmodified resource with the model-list entry. No test covers this case.
- ResourceSynchronizer.FromDiscovered: the metadata of a resource created by discovery is a modelling choice. It is marked from code, authored "type-scan", not hidden and not modified. The tests check only that such a resource is added. Carrying the discovered translations verbatim is part of the same modelling choice.
- ResourceSynchronizer.Reconcile: a modified resource whose discovered counterpart has no invariant translation keeps its stored invariant text. The tests do not cover this case.
- ResourceSynchronizer.MergeAllFind: stated for one discovered list with distinct keys. Discovery removes duplicates only within each scan (`Synchronization.DistinctByKeySpec`), so a key can occur once in each list. `ResourceSynchronizer.MergeListsFind` covers that case: it needs only each list's own keys to be distinct. Lists with a repeated key inside one list are not described key by key, though `MergeLists` still keeps the result's keys distinct.
- ResourceSynchronizer.MergeListsAddsDiscoveryOnly, ResourceSynchronizer.MergeListsReconcilesMatch and ResourceSynchronizer.MergeListsSwapIndependent: stated only for keys distinct across both lists together. A key found by both scans is described by `ResourceSynchronizer.MergeListsFind` instead.
- Synchronization.SingleShotFlag.Read: `ThreadSafeSingleShotFlag` is not part of this model. Reading it as a boolean is modelled as reporting its old value and setting it. Thread safety is not modelled.
- The two discovery scans run in parallel in the source (`Parallel.Invoke`). Here they run one after the other, which gives the same result because they share no state.
- Reflection is not modelled: the type lists, the per-type scan and the member's attributes are inputs.
- The cache is abstracted as a map of entries plus a separate set of known keys. Here clearing and inserting touch only the entries, and recording a known key touches only the set. How `ClearCache`, `CacheManager.Insert` and `BaseCacheManager.StoreKnownKey` relate the two is not part of this model.
- `ConfigurationContext.Current` becomes the `Configuration` value. Foreign resources are given by type name.
- `ModificationDate = DateTime.UtcNow` on manual resources is not modelled. Neither is the dated export file name.
- `ResourceKeyBuilder.BuildResourceKey` and `CacheKeyHelper.BuildKey` are not part of this model. They are function parameters.
- Resources.ByLanguage: `Translations.ByLanguage` is not part of this model. It is taken as the text of the first translation for the language, with no fallback to the invariant culture (the export passes `false`).
- `DiscoveredTranslation.FromSingle` is not part of this model. It is taken as a single invariant-culture translation.
- Collector.GetDiscoveredResources: the result is a lazy sequence in the source, so the duplicate-culture exception is raised when it is enumerated. Here it is raised at once. The other fields of a discovered resource are not modelled: member info, declaring and return types, old type name and namespace, and the constructor's boolean argument.
- CSV serialization and tokenising (CsvHelper, streams, UTF-8 encoding) are not modelled. Export yields its records. Parse takes its rows as maps from column name to cell text, with an empty field read back as empty text.
- CsvExport.OrderByKeySorted: the culture-sensitive string comparison behind `OrderBy` is a relation parameter, assumed to be a total preorder. That the sort is stable is not proved.
- CsvParse.ParsedResource: a parsed resource's fields other than key and translations take constructor defaults here: not modified, not hidden, not from code, no author.
- The available languages (`AvailableLanguagesHandler`, the languages factory) are not modelled. They are an input, read once per export or parse.
