/** The six merge scenarios of the repository's `ResourceSynchronizer` tests,
    stated as lemmas about `MergeLists`. */
module ResourceSynchronizerTests {
  import opened Wrappers
  import opened OrderedDict
  import opened Resources
  import opened ResourceSynchronizer

  function Tr(culture: string, text: string): Translation {
    Entry(culture, Some(text))
  }

  function Stored(key: string, isModified: bool, translations: seq<Translation>): Resource {
    Resource(key, translations, isModified, false, false, None)
  }

  function Discovered(key: string, translations: seq<Translation>): DiscoveredResource {
    DiscoveredResource(key, translations, false)
  }

  /** The text a merge result holds for `key` and `culture`
      (`result.First(r => r.ResourceKey == key).Translations.ByLanguage(culture)`). */
  function TranslationOf(rs: seq<Resource>, key: string, culture: string): Text {
    match FindResource(rs, key)
    case Some(r) => ByLanguage(r.translations, culture)
    case None => None
  }

  const DefaultDiscoveredResource: DiscoveredResource :=
    Discovered("discovered-resource", [Tr("en", "English discovered resource")])

  const DefaultDiscoveredModel: DiscoveredResource :=
    Discovered("discovered-model", [Tr("en", "English discovered model")])

  lemma MergeEmptyLists()
    ensures MergeLists([], [], []) == []
  {
  }

  lemma MergeWhenDiscoveredModelsEmptyShouldAddDiscoveredResource()
    ensures |MergeLists([], [DefaultDiscoveredResource], [])| == 1
  {
    assert DiscoveredKeys([DefaultDiscoveredResource]) == {"discovered-resource"};
    MergeListsCount([], [DefaultDiscoveredResource], []);
  }

  lemma MergeWhenDiscoveredResourcesEmptyShouldAddDiscoveredModel()
    ensures |MergeLists([], [], [DefaultDiscoveredModel])| == 1
  {
    assert DiscoveredKeys([DefaultDiscoveredModel]) == {"discovered-model"};
    MergeListsCount([], [], [DefaultDiscoveredModel]);
  }

  lemma MergeAllDifferentResourcesShouldKeepAll()
    ensures |MergeLists([Stored("key-from-db", false, [Tr("en", "English from DB")])],
                        [DefaultDiscoveredResource], [DefaultDiscoveredModel])| == 3
  {
    var db := [Stored("key-from-db", false, [Tr("en", "English from DB")])];
    assert ResourceKeys(db) == {"key-from-db"};
    assert DiscoveredKeys([DefaultDiscoveredResource]) == {"discovered-resource"};
    assert DiscoveredKeys([DefaultDiscoveredModel]) == {"discovered-model"};
    MergeListsDisjointCount(db, [DefaultDiscoveredResource], [DefaultDiscoveredModel]);
  }

  /** The store of the two overlap scenarios; they differ only in `IsModified`. */
  function OverlapStore(isModified: bool): seq<Resource> {
    [ Stored("resource-key-1", isModified,
        [Tr(InvariantCulture, "Resource-1 INVARIANT from DB"), Tr("en", "Resource-1 English from DB")]),
      Stored("resource-key-2", isModified,
        [Tr(InvariantCulture, "Resource-2 INVARIANT from DB"), Tr("en", "Resource-2 English from DB")]) ]
  }

  const OverlapDiscovered1: DiscoveredResource :=
    Discovered("resource-key-1",
      [Tr(InvariantCulture, "Resource-1 INVARIANT from Discovery"), Tr("en", "Resource-1 English from Discovery")])

  const OverlapDiscovered2: DiscoveredResource :=
    Discovered("resource-key-2",
      [Tr(InvariantCulture, "Resource-2 INVARIANT from Discovery"), Tr("en", "Resource-2 English from Discovery")])

  /** resource-key-1 is matched through the resource list. */
  const OverlapResources: seq<DiscoveredResource> := [OverlapDiscovered1, DefaultDiscoveredResource]

  /** resource-key-2 is matched through the model list. */
  const OverlapModels: seq<DiscoveredResource> := [DefaultDiscoveredModel, OverlapDiscovered2]

  lemma OverlapKeysDistinct(isModified: bool)
    ensures DistinctResourceKeys(OverlapStore(isModified))
    ensures DistinctDiscoveredKeys(OverlapResources + OverlapModels)
  {
    assert "resource-key-1"[13] != "resource-key-2"[13];
    assert "discovered-resource"[11] != "discovered-model"[11];
    assert "discovered-resource"[0] != "resource-key-1"[0];
    assert "discovered-model"[0] != "resource-key-2"[0];
  }

  lemma OverlapKeySets(isModified: bool)
    ensures ResourceKeys(OverlapStore(isModified)) + DiscoveredKeys(OverlapResources) + DiscoveredKeys(OverlapModels)
         == {"resource-key-1", "resource-key-2", "discovered-resource", "discovered-model"}
  {
    var db := OverlapStore(isModified);
    assert ResourceKeys(db) == {"resource-key-1", "resource-key-2"} by {
      assert forall r | r in db :: r == db[0] || r == db[1];
      assert db[0] in db && db[1] in db;
    }
    assert DiscoveredKeys(OverlapResources) == {"resource-key-1", "discovered-resource"} by {
      assert forall d | d in OverlapResources :: d == OverlapResources[0] || d == OverlapResources[1];
      assert OverlapResources[0] in OverlapResources && OverlapResources[1] in OverlapResources;
    }
    assert DiscoveredKeys(OverlapModels) == {"discovered-model", "resource-key-2"} by {
      assert forall d | d in OverlapModels :: d == OverlapModels[0] || d == OverlapModels[1];
      assert OverlapModels[0] in OverlapModels && OverlapModels[1] in OverlapModels;
    }
  }

  lemma OverlapKeyCount()
    ensures |{"resource-key-1", "resource-key-2", "discovered-resource", "discovered-model"}| == 4
  {
    assert "resource-key-1"[13] != "resource-key-2"[13];
    assert "discovered-resource"[11] != "discovered-model"[11];
    assert "discovered-resource"[0] != "resource-key-1"[0];
    assert "discovered-model"[0] != "resource-key-2"[0];
    assert "discovered-resource"[0] != "resource-key-2"[0];
    assert "discovered-model"[0] != "resource-key-1"[0];
  }

  /** Both overlap scenarios resolve to four resources: two matched, two new. */
  lemma OverlapCount(isModified: bool)
    ensures |MergeLists(OverlapStore(isModified), OverlapResources, OverlapModels)| == 4
  {
    OverlapKeysDistinct(isModified);
    OverlapKeySets(isModified);
    OverlapKeyCount();
    MergeListsCount(OverlapStore(isModified), OverlapResources, OverlapModels);
  }

  /** In both overlap scenarios each matched resource is reconciled with its
      discovered counterpart, whichever list that came from. */
  lemma OverlapMatch(isModified: bool, i: nat, d: DiscoveredResource, c: string)
    requires (i == 0 && d == OverlapDiscovered1) || (i == 1 && d == OverlapDiscovered2)
    ensures TranslationOf(MergeLists(OverlapStore(isModified), OverlapResources, OverlapModels), d.key, c)
         == ByLanguage(Reconcile(OverlapStore(isModified)[i], d).translations, c)
    ensures Get(Reconcile(OverlapStore(isModified)[i], d).translations, c) ==
      if c in Keys(d.translations) && (c == InvariantCulture || !isModified)
      then Get(d.translations, c)
      else Get(OverlapStore(isModified)[i].translations, c)
  {
    OverlapKeysDistinct(isModified);
    assert d in OverlapResources + OverlapModels;
    MergeListsReconcilesMatch(OverlapStore(isModified), OverlapResources, OverlapModels, i, d, c);
  }

  lemma MergeDatabaseContainsDiscoveredResourceNotModifiedShouldOverwriteIncludingInvariant()
    ensures |MergeLists(OverlapStore(false), OverlapResources, OverlapModels)| == 4
    ensures TranslationOf(MergeLists(OverlapStore(false), OverlapResources, OverlapModels), "resource-key-1", InvariantCulture)
         == Some("Resource-1 INVARIANT from Discovery")
    ensures TranslationOf(MergeLists(OverlapStore(false), OverlapResources, OverlapModels), "resource-key-1", "en")
         == Some("Resource-1 English from Discovery")
    ensures TranslationOf(MergeLists(OverlapStore(false), OverlapResources, OverlapModels), "resource-key-2", InvariantCulture)
         == Some("Resource-2 INVARIANT from Discovery")
    ensures TranslationOf(MergeLists(OverlapStore(false), OverlapResources, OverlapModels), "resource-key-2", "en")
         == Some("Resource-2 English from Discovery")
  {
    OverlapCount(false);
    OverlapMatch(false, 0, OverlapDiscovered1, InvariantCulture);
    OverlapMatch(false, 0, OverlapDiscovered1, "en");
    OverlapMatch(false, 1, OverlapDiscovered2, InvariantCulture);
    OverlapMatch(false, 1, OverlapDiscovered2, "en");
  }

  lemma MergeDatabaseContainsDiscoveredResourceModifiedShouldNotOverwriteShouldOverwriteInvariant()
    ensures |MergeLists(OverlapStore(true), OverlapResources, OverlapModels)| == 4
    ensures TranslationOf(MergeLists(OverlapStore(true), OverlapResources, OverlapModels), "resource-key-1", InvariantCulture)
         == Some("Resource-1 INVARIANT from Discovery")
    ensures TranslationOf(MergeLists(OverlapStore(true), OverlapResources, OverlapModels), "resource-key-1", "en")
         == Some("Resource-1 English from DB")
    ensures TranslationOf(MergeLists(OverlapStore(true), OverlapResources, OverlapModels), "resource-key-2", InvariantCulture)
         == Some("Resource-2 INVARIANT from Discovery")
    ensures TranslationOf(MergeLists(OverlapStore(true), OverlapResources, OverlapModels), "resource-key-2", "en")
         == Some("Resource-2 English from DB")
  {
    OverlapCount(true);
    OverlapMatch(true, 0, OverlapDiscovered1, InvariantCulture);
    OverlapMatch(true, 0, OverlapDiscovered1, "en");
    OverlapMatch(true, 1, OverlapDiscovered2, InvariantCulture);
    OverlapMatch(true, 1, OverlapDiscovered2, "en");
  }
}
