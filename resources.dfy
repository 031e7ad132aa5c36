/** The resource entities shared by the synchronizer, the merge, the attribute
    collector and the CSV exporter and parser. */
module Resources {
  import opened Wrappers
  import opened OrderedDict

  /** A translation text; `None` stands for a null string. */
  type Text = Option<string>

  /** A translation: the culture name is the entry key, the text its value. */
  type Translation = Entry<Text>

  /** The name of the invariant (culture-neutral) culture. */
  const InvariantCulture: string := ""

  /** The text of the translation for `language`, or null when the list has
      none (a lookup without fallback to the invariant culture). */
  function ByLanguage(ts: seq<Translation>, language: string): (r: Text)
    ensures r.Some? ==> Entry(language, r) in ts
    ensures language !in Keys(ts) ==> r == None
    ensures language in Keys(ts) ==> r == ts[IndexOf(ts, language)].value
  {
    match Get(ts, language)
    case Some(t) => t
    case None => None
  }

  /** A persisted localization resource. */
  datatype Resource = Resource(
    key: string,
    translations: seq<Translation>,
    isModified: bool,
    isHidden: bool,
    fromCode: bool,
    author: Text)

  /** A resource declared in code, as found by a discovery scan. */
  datatype DiscoveredResource = DiscoveredResource(
    key: string,
    translations: seq<Translation>,
    fromResourceKeyAttribute: bool)

  ghost function ResourceKeys(rs: seq<Resource>): set<string> {
    set r | r in rs :: r.key
  }

  ghost predicate DistinctResourceKeys(rs: seq<Resource>) {
    forall i, j :: 0 <= i < j < |rs| ==> rs[i].key != rs[j].key
  }

  /** Position of the first resource with key `k`, or `|rs|` when there is none. */
  function IndexOfResource(rs: seq<Resource>, k: string): (i: nat)
    ensures i <= |rs|
    ensures i < |rs| ==> rs[i].key == k
    ensures forall j :: 0 <= j < i ==> rs[j].key != k
  {
    if rs == [] then 0
    else if rs[0].key == k then 0
    else 1 + IndexOfResource(rs[1..], k)
  }

  /** The first resource with key `k` (`First(r => r.ResourceKey == k)`). */
  function FindResource(rs: seq<Resource>, k: string): (r: Option<Resource>)
    ensures r.Some? ==> r.value in rs && r.value.key == k
    ensures r.None? ==> k !in ResourceKeys(rs)
  {
    var i := IndexOfResource(rs, k);
    if i < |rs| then Some(rs[i]) else None
  }

  /** `IndexOfResource` is determined by its contract. */
  lemma IndexOfResourceIs(rs: seq<Resource>, k: string, i: nat)
    requires i <= |rs|
    requires i < |rs| ==> rs[i].key == k
    requires forall j :: 0 <= j < i ==> rs[j].key != k
    ensures IndexOfResource(rs, k) == i
  {
  }

  /** With distinct keys, the resource found for a key is the one holding it. */
  lemma FindResourceAt(rs: seq<Resource>, i: nat)
    requires DistinctResourceKeys(rs)
    requires i < |rs|
    ensures FindResource(rs, rs[i].key) == Some(rs[i])
  {
    IndexOfResourceIs(rs, rs[i].key, i);
  }

  ghost function DiscoveredKeys(ds: seq<DiscoveredResource>): set<string> {
    set d | d in ds :: d.key
  }

  ghost predicate DistinctDiscoveredKeys(ds: seq<DiscoveredResource>) {
    forall i, j :: 0 <= i < j < |ds| ==> ds[i].key != ds[j].key
  }

  /** Position of the first discovered resource with key `k`, or `|ds|`. */
  function IndexOfDiscovered(ds: seq<DiscoveredResource>, k: string): (i: nat)
    ensures i <= |ds|
    ensures i < |ds| ==> ds[i].key == k
    ensures forall j :: 0 <= j < i ==> ds[j].key != k
  {
    if ds == [] then 0
    else if ds[0].key == k then 0
    else 1 + IndexOfDiscovered(ds[1..], k)
  }

  /** The first discovered resource with key `k`. */
  function FindDiscovered(ds: seq<DiscoveredResource>, k: string): (r: Option<DiscoveredResource>)
    ensures r.Some? ==> r.value in ds && r.value.key == k
    ensures r.None? ==> k !in DiscoveredKeys(ds)
  {
    var i := IndexOfDiscovered(ds, k);
    if i < |ds| then Some(ds[i]) else None
  }

  /** `IndexOfDiscovered` is determined by its contract. */
  lemma IndexOfDiscoveredIs(ds: seq<DiscoveredResource>, k: string, i: nat)
    requires i <= |ds|
    requires i < |ds| ==> ds[i].key == k
    requires forall j :: 0 <= j < i ==> ds[j].key != k
    ensures IndexOfDiscovered(ds, k) == i
  {
  }

  /** With distinct keys, the discovered resource found for a key is the one holding it. */
  lemma FindDiscoveredAt(ds: seq<DiscoveredResource>, i: nat)
    requires DistinctDiscoveredKeys(ds)
    requires i < |ds|
    ensures FindDiscovered(ds, ds[i].key) == Some(ds[i])
  {
    var a := IndexOfDiscovered(ds, ds[i].key);
    assert a == i;
  }

  /** A key held by no resource has no index. */
  lemma IndexOfResourceMissing(rs: seq<Resource>, k: string)
    requires k !in ResourceKeys(rs)
    ensures IndexOfResource(rs, k) == |rs|
  {
    forall j | 0 <= j < |rs| ensures rs[j].key != k {
      assert rs[j] in rs;
    }
    IndexOfResourceIs(rs, k, |rs|);
  }

  /** A key held by no discovered resource has no index. */
  lemma IndexOfDiscoveredMissing(ds: seq<DiscoveredResource>, k: string)
    requires k !in DiscoveredKeys(ds)
    ensures IndexOfDiscovered(ds, k) == |ds|
  {
    forall j | 0 <= j < |ds| ensures ds[j].key != k {
      assert ds[j] in ds;
    }
    IndexOfDiscoveredIsLength(ds, k);
  }

  lemma IndexOfDiscoveredIsLength(ds: seq<DiscoveredResource>, k: string)
    requires forall j :: 0 <= j < |ds| ==> ds[j].key != k
    ensures IndexOfDiscovered(ds, k) == |ds|
  {
  }

  lemma ResourceKeysSnoc(rs: seq<Resource>, r: Resource)
    ensures ResourceKeys(rs + [r]) == ResourceKeys(rs) + {r.key}
  {
    assert forall x | x in rs + [r] :: x in rs || x == r;
    assert forall x | x in rs :: x in rs + [r];
  }

  lemma DiscoveredKeysSnoc(ds: seq<DiscoveredResource>, d: DiscoveredResource)
    ensures DiscoveredKeys(ds + [d]) == DiscoveredKeys(ds) + {d.key}
  {
    assert forall e | e in ds + [d] :: e in ds || e == d;
    assert forall e | e in ds :: e in ds + [d];
  }

  lemma ResourceKeyAbsent(rs: seq<Resource>, k: string)
    requires forall j :: 0 <= j < |rs| ==> rs[j].key != k
    ensures k !in ResourceKeys(rs)
  {
    forall r | r in rs ensures r.key != k {
      var j :| 0 <= j < |rs| && rs[j] == r;
    }
  }

  lemma DiscoveredKeyAbsent(ds: seq<DiscoveredResource>, k: string)
    requires forall j :: 0 <= j < |ds| ==> ds[j].key != k
    ensures k !in DiscoveredKeys(ds)
  {
    forall d | d in ds ensures d.key != k {
      var j :| 0 <= j < |ds| && ds[j] == d;
    }
  }
}
