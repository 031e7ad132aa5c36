/** The merge of persisted resources with the resources discovered in code
    (`ResourceSynchronizer.MergeLists`). The merge walks the discovered
    resources, then the discovered models, in order. A discovered key that is
    already present is reconciled in place; a new key is appended as a new
    resource. Resources no discovery mentions pass through. */
module ResourceSynchronizer {
  import opened Wrappers
  import opened OrderedDict
  import opened Resources

  /** The author recorded on a resource first created by a discovery scan. */
  const TypeScanAuthor: string := "type-scan"

  /** A resource seen only in discovery becomes a new, unmodified resource
      carrying the discovered translations verbatim. */
  function FromDiscovered(d: DiscoveredResource): Resource {
    Resource(d.key, d.translations, false, false, true, Some(TypeScanAuthor))
  }

  /** A stored resource met again in discovery. The invariant translation is
      always refreshed from discovery; the other discovered translations
      overwrite the stored ones only while the resource is not modified. */
  function Reconcile(stored: Resource, d: DiscoveredResource): Resource {
    if !stored.isModified then
      stored.(translations := UpsertAll(stored.translations, d.translations))
    else
      match Get(d.translations, InvariantCulture)
      case Some(v) => stored.(translations := Upsert(stored.translations, InvariantCulture, v))
      case None => stored
  }

  /** Reconciliation changes translations only, and each culture ends up with
      the discovered text exactly when discovery has that culture and it is the
      invariant one or the stored resource is not modified; otherwise the
      stored text stays. */
  lemma ReconcileTranslation(stored: Resource, d: DiscoveredResource, c: string)
    requires DistinctKeys(d.translations)
    ensures Reconcile(stored, d) == stored.(translations := Reconcile(stored, d).translations)
    ensures Get(Reconcile(stored, d).translations, c) ==
      if c in Keys(d.translations) && (c == InvariantCulture || !stored.isModified)
      then Get(d.translations, c)
      else Get(stored.translations, c)
  {
    if !stored.isModified {
      UpsertAllGet(stored.translations, d.translations, c);
      GetLastIsGet(d.translations, c);
    } else if Get(d.translations, InvariantCulture).Some? {
      UpsertGet(stored.translations, InvariantCulture, Get(d.translations, InvariantCulture).value, c);
    }
  }

  /** Merges one discovered resource into the resources gathered so far. */
  function MergeOne(acc: seq<Resource>, d: DiscoveredResource): seq<Resource> {
    var i := IndexOfResource(acc, d.key);
    if i < |acc| then acc[i := Reconcile(acc[i], d)] else acc + [FromDiscovered(d)]
  }

  /** Merges the discovered resources one after the other, in order. */
  function MergeAll(acc: seq<Resource>, ds: seq<DiscoveredResource>): seq<Resource> {
    if ds == [] then acc
    else MergeOne(MergeAll(acc, ds[..|ds| - 1]), ds[|ds| - 1])
  }

  /** `MergeLists(stored, discoveredResources, discoveredModels)`: both
      discovered lists are merged alike, resources first. The result holds
      every key of the three inputs and no other, and never holds a key twice
      when the store does not. */
  function MergeLists(
    stored: seq<Resource>,
    discoveredResources: seq<DiscoveredResource>,
    discoveredModels: seq<DiscoveredResource>): (r: seq<Resource>)
    ensures ResourceKeys(r) == ResourceKeys(stored) + DiscoveredKeys(discoveredResources) + DiscoveredKeys(discoveredModels)
    ensures DistinctResourceKeys(stored) ==> DistinctResourceKeys(r)
  {
    var ds := discoveredResources + discoveredModels;
    MergeAllKeys(stored, ds);
    assert DiscoveredKeys(ds) == DiscoveredKeys(discoveredResources) + DiscoveredKeys(discoveredModels) by {
      assert forall d | d in ds :: d in discoveredResources || d in discoveredModels;
    }
    MergeAllDistinct(stored, ds);
    MergeAll(stored, ds)
  }

  lemma MergeOneKeys(acc: seq<Resource>, d: DiscoveredResource)
    ensures ResourceKeys(MergeOne(acc, d)) == ResourceKeys(acc) + {d.key}
  {
    var i := IndexOfResource(acc, d.key);
    var r := MergeOne(acc, d);
    if i < |acc| {
      forall x ensures x in ResourceKeys(r) <==> x in ResourceKeys(acc) {
        if x in ResourceKeys(acc) {
          var e :| e in acc && e.key == x;
          var j :| 0 <= j < |acc| && acc[j] == e;
          assert r[j].key == x;
        }
        if x in ResourceKeys(r) {
          var e :| e in r && e.key == x;
          var j :| 0 <= j < |r| && r[j] == e;
          assert acc[j].key == x;
        }
      }
    } else {
      assert forall e | e in r :: e in acc || e == FromDiscovered(d);
      assert FromDiscovered(d) in r;
    }
  }

  lemma {:induction false} MergeAllKeys(acc: seq<Resource>, ds: seq<DiscoveredResource>)
    ensures ResourceKeys(MergeAll(acc, ds)) == ResourceKeys(acc) + DiscoveredKeys(ds)
  {
    if ds != [] {
      var init, last := ds[..|ds| - 1], ds[|ds| - 1];
      MergeAllKeys(acc, init);
      MergeOneKeys(MergeAll(acc, init), last);
      assert ds == init + [last];
      assert forall d | d in ds :: d in init || d == last;
    }
  }

  lemma MergeOneDistinct(acc: seq<Resource>, d: DiscoveredResource)
    requires DistinctResourceKeys(acc)
    ensures DistinctResourceKeys(MergeOne(acc, d))
  {
    var i := IndexOfResource(acc, d.key);
    if i == |acc| {
      forall j | 0 <= j < |acc| ensures acc[j].key != d.key {
      }
    }
  }

  lemma {:induction false} MergeAllDistinct(acc: seq<Resource>, ds: seq<DiscoveredResource>)
    ensures DistinctResourceKeys(acc) ==> DistinctResourceKeys(MergeAll(acc, ds))
  {
    if ds != [] && DistinctResourceKeys(acc) {
      MergeAllDistinct(acc, ds[..|ds| - 1]);
      MergeOneDistinct(MergeAll(acc, ds[..|ds| - 1]), ds[|ds| - 1]);
    }
  }

  /** The per-key reference definition of one merge step: what is held for a
      key, from the resource found for it and the discovered resource with it. */
  function Resolve(found: Option<Resource>, discovered: Option<DiscoveredResource>): Option<Resource> {
    match (found, discovered)
    case (Some(s), Some(d)) => Some(Reconcile(s, d))
    case (Some(s), None) => Some(s)
    case (None, Some(d)) => Some(FromDiscovered(d))
    case (None, None) => None
  }

  /** What merging one discovered list into `stored` holds for key `k`. */
  function Resolved(stored: seq<Resource>, ds: seq<DiscoveredResource>, k: string): Option<Resource> {
    Resolve(FindResource(stored, k), FindDiscovered(ds, k))
  }

  lemma MergeOneFind(acc: seq<Resource>, d: DiscoveredResource, k: string)
    ensures FindResource(MergeOne(acc, d), k) ==
      if k != d.key then FindResource(acc, k)
      else match FindResource(acc, k)
        case Some(s) => Some(Reconcile(s, d))
        case None => Some(FromDiscovered(d))
  {
    var i := IndexOfResource(acc, d.key);
    var r := MergeOne(acc, d);
    var j := IndexOfResource(acc, k);
    if k == d.key {
      IndexOfResourceIs(r, k, i);
    } else if j < |acc| {
      IndexOfResourceIs(r, k, j);
    } else {
      IndexOfResourceIs(r, k, |r|);
    }
  }

  lemma FindDiscoveredInit(ds: seq<DiscoveredResource>, k: string)
    requires ds != [] && ds[|ds| - 1].key != k
    ensures FindDiscovered(ds, k) == FindDiscovered(ds[..|ds| - 1], k)
  {
    var init := ds[..|ds| - 1];
    var a, b := IndexOfDiscovered(ds, k), IndexOfDiscovered(init, k);
    if b < |init| {
      assert ds[b] == init[b];
    } else {
      assert a == |ds|;
    }
  }

  /** The merge agrees with its per-key reference definition, provided the
      discovered keys are distinct. */
  lemma {:induction false} MergeAllFind(stored: seq<Resource>, ds: seq<DiscoveredResource>, k: string)
    requires DistinctDiscoveredKeys(ds)
    ensures FindResource(MergeAll(stored, ds), k) == Resolved(stored, ds, k)
  {
    if ds != [] {
      var init, last := ds[..|ds| - 1], ds[|ds| - 1];
      MergeAllFind(stored, init, k);
      MergeOneFind(MergeAll(stored, init), last, k);
      if k == last.key {
        FindDiscoveredAt(ds, |ds| - 1);
        assert FindDiscovered(init, k) == None;
      } else {
        FindDiscoveredInit(ds, k);
      }
    }
  }

  /** Merging a concatenation is merging one list, then the other. */
  lemma {:induction false} MergeAllAppend(acc: seq<Resource>, a: seq<DiscoveredResource>, b: seq<DiscoveredResource>)
    ensures MergeAll(acc, a + b) == MergeAll(MergeAll(acc, a), b)
  {
    if b == [] {
      assert a + b == a;
    } else {
      MergeAllAppend(acc, a, b[..|b| - 1]);
      assert (a + b)[..|a + b| - 1] == a + b[..|b| - 1];
    }
  }

  /** The merge agrees, key by key, with reconciling the stored resource
      against the discovered resource first and the discovered model second.
      Each list needs distinct keys of its own (as de-duplicated discovery
      gives); a key may appear in both. */
  lemma MergeListsFind(
    stored: seq<Resource>, discoveredResources: seq<DiscoveredResource>,
    discoveredModels: seq<DiscoveredResource>, k: string)
    requires DistinctDiscoveredKeys(discoveredResources) && DistinctDiscoveredKeys(discoveredModels)
    ensures FindResource(MergeLists(stored, discoveredResources, discoveredModels), k)
         == Resolve(Resolve(FindResource(stored, k), FindDiscovered(discoveredResources, k)),
                    FindDiscovered(discoveredModels, k))
  {
    MergeAllAppend(stored, discoveredResources, discoveredModels);
    MergeAllFind(stored, discoveredResources, k);
    MergeAllFind(MergeAll(stored, discoveredResources), discoveredModels, k);
  }

  /** A stored resource whose key no discovered resource has keeps its place
      and its content. */
  lemma {:induction false} MergeAllKeepsUntouched(stored: seq<Resource>, ds: seq<DiscoveredResource>, i: nat)
    requires i < |stored|
    requires stored[i].key !in DiscoveredKeys(ds)
    ensures i < |MergeAll(stored, ds)| && MergeAll(stored, ds)[i] == stored[i]
  {
    if ds != [] {
      var init, last := ds[..|ds| - 1], ds[|ds| - 1];
      assert forall d | d in init :: d in ds;
      MergeAllKeepsUntouched(stored, init, i);
      assert last in ds;
    }
  }

  /** Store-only resources pass through the merge unchanged and in place. */
  lemma MergeListsKeepsStoreOnly(
    stored: seq<Resource>, discoveredResources: seq<DiscoveredResource>,
    discoveredModels: seq<DiscoveredResource>, i: nat)
    requires i < |stored|
    requires stored[i].key !in DiscoveredKeys(discoveredResources) + DiscoveredKeys(discoveredModels)
    ensures i < |MergeLists(stored, discoveredResources, discoveredModels)|
    ensures MergeLists(stored, discoveredResources, discoveredModels)[i] == stored[i]
  {
    var ds := discoveredResources + discoveredModels;
    assert forall d | d in ds :: d in discoveredResources || d in discoveredModels;
    MergeAllKeepsUntouched(stored, ds, i);
  }

  /** A discovered resource whose key is not stored becomes a new resource with
      the discovered translations. */
  lemma MergeListsAddsDiscoveryOnly(
    stored: seq<Resource>, discoveredResources: seq<DiscoveredResource>,
    discoveredModels: seq<DiscoveredResource>, d: DiscoveredResource)
    requires DistinctDiscoveredKeys(discoveredResources + discoveredModels)
    requires d in discoveredResources + discoveredModels
    requires d.key !in ResourceKeys(stored)
    ensures FindResource(MergeLists(stored, discoveredResources, discoveredModels), d.key) == Some(FromDiscovered(d))
    ensures !FromDiscovered(d).isModified && FromDiscovered(d).translations == d.translations
  {
    var ds := discoveredResources + discoveredModels;
    var i :| 0 <= i < |ds| && ds[i] == d;
    FindDiscoveredAt(ds, i);
    MergeAllFind(stored, ds, d.key);
  }

  /** A stored resource met in discovery is reconciled with it: one resource for
      the key, the invariant text from discovery, every other culture from
      discovery only when the stored resource is not modified. */
  lemma MergeListsReconcilesMatch(
    stored: seq<Resource>, discoveredResources: seq<DiscoveredResource>,
    discoveredModels: seq<DiscoveredResource>, i: nat, d: DiscoveredResource, c: string)
    requires DistinctResourceKeys(stored)
    requires DistinctDiscoveredKeys(discoveredResources + discoveredModels)
    requires DistinctKeys(d.translations)
    requires i < |stored|
    requires d in discoveredResources + discoveredModels && d.key == stored[i].key
    ensures FindResource(MergeLists(stored, discoveredResources, discoveredModels), d.key) == Some(Reconcile(stored[i], d))
    ensures Reconcile(stored[i], d) == stored[i].(translations := Reconcile(stored[i], d).translations)
    ensures Get(Reconcile(stored[i], d).translations, c) ==
      if c in Keys(d.translations) && (c == InvariantCulture || !stored[i].isModified)
      then Get(d.translations, c)
      else Get(stored[i].translations, c)
  {
    var ds := discoveredResources + discoveredModels;
    var j :| 0 <= j < |ds| && ds[j] == d;
    FindDiscoveredAt(ds, j);
    FindResourceAt(stored, i);
    MergeAllFind(stored, ds, d.key);
    ReconcileTranslation(stored[i], d, c);
  }

  lemma SwapDistinct(a: seq<DiscoveredResource>, b: seq<DiscoveredResource>)
    requires DistinctDiscoveredKeys(a + b)
    ensures DistinctDiscoveredKeys(b + a)
  {
    var ab, ba := a + b, b + a;
    forall i, j | 0 <= i < j < |ba| ensures ba[i].key != ba[j].key {
      var i' := if i < |b| then i + |a| else i - |b|;
      var j' := if j < |b| then j + |a| else j - |b|;
      assert ba[i] == ab[i'] && ba[j] == ab[j'];
    }
  }

  lemma SwapFind(a: seq<DiscoveredResource>, b: seq<DiscoveredResource>, k: string)
    requires DistinctDiscoveredKeys(a + b)
    ensures FindDiscovered(a + b, k) == FindDiscovered(b + a, k)
  {
    var ab, ba := a + b, b + a;
    SwapDistinct(a, b);
    var f := FindDiscovered(ab, k);
    if f.Some? {
      var i :| 0 <= i < |ab| && ab[i] == f.value;
      var i' := if i < |a| then i + |b| else i - |a|;
      assert ba[i'] == ab[i];
      FindDiscoveredAt(ab, i);
      FindDiscoveredAt(ba, i');
    } else {
      assert DiscoveredKeys(ab) == DiscoveredKeys(ba) by {
        assert forall d :: d in ab <==> d in ba;
      }
    }
  }

  /** Both discovered lists are treated alike: for distinct discovered keys,
      swapping the two lists changes nothing for any key. */
  lemma MergeListsSwapIndependent(
    stored: seq<Resource>, discoveredResources: seq<DiscoveredResource>,
    discoveredModels: seq<DiscoveredResource>, k: string)
    requires DistinctDiscoveredKeys(discoveredResources + discoveredModels)
    ensures DistinctDiscoveredKeys(discoveredModels + discoveredResources)
    ensures FindResource(MergeLists(stored, discoveredResources, discoveredModels), k)
         == FindResource(MergeLists(stored, discoveredModels, discoveredResources), k)
  {
    SwapDistinct(discoveredResources, discoveredModels);
    SwapFind(discoveredResources, discoveredModels, k);
    MergeAllFind(stored, discoveredResources + discoveredModels, k);
    MergeAllFind(stored, discoveredModels + discoveredResources, k);
  }

  /** Distinct keys: as many keys as resources. */
  lemma {:induction false} DistinctResourceCount(rs: seq<Resource>)
    requires DistinctResourceKeys(rs)
    ensures |ResourceKeys(rs)| == |rs|
  {
    if rs != [] {
      var init, last := rs[..|rs| - 1], rs[|rs| - 1];
      assert DistinctResourceKeys(init) by {
        forall i, j | 0 <= i < j < |init| ensures init[i].key != init[j].key {
          assert init[i] == rs[i] && init[j] == rs[j];
        }
      }
      DistinctResourceCount(init);
      assert rs == init + [last];
      ResourceKeysSnoc(init, last);
      ResourceKeyAbsent(init, last.key);
    }
  }

  lemma {:induction false} DistinctDiscoveredCount(ds: seq<DiscoveredResource>)
    requires DistinctDiscoveredKeys(ds)
    ensures |DiscoveredKeys(ds)| == |ds|
  {
    if ds != [] {
      var init, last := ds[..|ds| - 1], ds[|ds| - 1];
      assert DistinctDiscoveredKeys(init) by {
        forall i, j | 0 <= i < j < |init| ensures init[i].key != init[j].key {
          assert init[i] == ds[i] && init[j] == ds[j];
        }
      }
      DistinctDiscoveredCount(init);
      assert ds == init + [last];
      DiscoveredKeysSnoc(init, last);
      DiscoveredKeyAbsent(init, last.key);
    }
  }

  /** One resolved resource per distinct key: the size of the result is the
      number of distinct keys among the three inputs, so a key both stored and
      discovered yields one entry, not two. */
  lemma MergeListsCount(
    stored: seq<Resource>, discoveredResources: seq<DiscoveredResource>,
    discoveredModels: seq<DiscoveredResource>)
    requires DistinctResourceKeys(stored)
    ensures |MergeLists(stored, discoveredResources, discoveredModels)|
         == |ResourceKeys(stored) + DiscoveredKeys(discoveredResources) + DiscoveredKeys(discoveredModels)|
  {
    DistinctResourceCount(MergeLists(stored, discoveredResources, discoveredModels));
  }

  /** With pairwise-disjoint keys nothing is lost or combined: the result size
      is the sum of the three input sizes. */
  lemma MergeListsDisjointCount(
    stored: seq<Resource>, discoveredResources: seq<DiscoveredResource>,
    discoveredModels: seq<DiscoveredResource>)
    requires DistinctResourceKeys(stored)
    requires DistinctDiscoveredKeys(discoveredResources) && DistinctDiscoveredKeys(discoveredModels)
    requires ResourceKeys(stored) !! DiscoveredKeys(discoveredResources)
    requires ResourceKeys(stored) !! DiscoveredKeys(discoveredModels)
    requires DiscoveredKeys(discoveredResources) !! DiscoveredKeys(discoveredModels)
    ensures |MergeLists(stored, discoveredResources, discoveredModels)|
         == |stored| + |discoveredResources| + |discoveredModels|
  {
    MergeListsCount(stored, discoveredResources, discoveredModels);
    DistinctResourceCount(stored);
    DistinctDiscoveredCount(discoveredResources);
    DistinctDiscoveredCount(discoveredModels);
  }
}
