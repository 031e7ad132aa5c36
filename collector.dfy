/** The `[ResourceKey]` attribute collector: one discovered resource per
    `[ResourceKey]` attribute on a member, its translations being the member's
    translation (or the attribute's own text) for the invariant culture,
    overridden or extended by the member's `[TranslationForCulture]`
    attributes. */
module Collector {
  import opened Wrappers
  import opened OrderedDict
  import opened Resources

  /** `[ResourceKey(key, Value = value)]`. */
  datatype ResourceKeyAttribute = ResourceKeyAttribute(key: string, value: Text)

  /** `[TranslationForCulture(translation, culture)]`. */
  datatype TranslationForCulture = TranslationForCulture(translation: Text, culture: string)

  datatype CollectorError = DuplicateResourceTranslations(resourceKey: string)

  /** The additional translations as translation entries, in attribute order. */
  function AsTranslations(adds: seq<TranslationForCulture>): (ts: seq<Translation>)
    ensures |ts| == |adds|
    ensures forall i :: 0 <= i < |adds| ==> ts[i] == Entry(adds[i].culture, adds[i].translation)
  {
    seq(|adds|, i requires 0 <= i < |adds| => Entry(adds[i].culture, adds[i].translation))
  }

  /** Some culture carries more than one additional translation. */
  predicate HasDuplicateCultures(adds: seq<TranslationForCulture>) {
    exists i, j | 0 <= i < j < |adds| :: adds[i].culture == adds[j].culture
  }

  /** The base text: the attribute's value unless it is null or empty, in
      which case the member's translation. */
  function BaseTranslation(attr: ResourceKeyAttribute, translation: Text): Text {
    if attr.value.None? || attr.value.value == "" then translation else attr.value
  }

  /** `DiscoveredTranslation.FromSingle(text)`: one invariant-culture translation. */
  function FromSingle(text: Text): seq<Translation> {
    [Entry(InvariantCulture, text)]
  }

  /** The translations of one discovered resource: the base translation, then
      each additional translation overwriting the entry of its culture or
      appended when there is none. */
  function TranslationsFor(base: Text, adds: seq<TranslationForCulture>): seq<Translation> {
    UpsertAll(FromSingle(base), AsTranslations(adds))
  }

  /** `ForEach` over the additional translations, updating the list in place:
      overwrite the first translation of the same culture, otherwise append. */
  method ApplyAdditionalTranslations(translations: seq<Translation>, adds: seq<TranslationForCulture>)
    returns (r: seq<Translation>)
    ensures r == UpsertAll(translations, AsTranslations(adds))
  {
    r := translations;
    var k := 0;
    while k < |adds|
      invariant 0 <= k <= |adds|
      invariant r == UpsertAll(translations, AsTranslations(adds[..k]))
    {
      var t := adds[k];
      var existing := IndexOf(r, t.culture);
      if existing < |r| {
        r := r[existing := Entry(t.culture, t.translation)];
      } else {
        r := r + [Entry(t.culture, t.translation)];
      }
      assert AsTranslations(adds[..k + 1])[..k] == AsTranslations(adds[..k]);
      k := k + 1;
    }
    assert adds[..|adds|] == adds;
  }

  /** The resource built for one `[ResourceKey]` attribute. */
  function ResourceFor(attr: ResourceKeyAttribute, adds: seq<TranslationForCulture>, translation: Text,
                       prefix: Option<string>, buildKey: (Option<string>, string) -> string): DiscoveredResource {
    DiscoveredResource(buildKey(prefix, attr.key), TranslationsFor(BaseTranslation(attr, translation), adds), true)
  }

  /** `GetDiscoveredResources`: fails with the member's resource key when
      the member has `[ResourceKey]` attributes and two of its additional
      translations name the same culture; otherwise one resource per
      attribute, in order, its key built from the attribute's key and the
      type's prefix only when the type specifies one, its translations as
      `TranslationsFor` gives them, and marked as coming from the attribute. */
  function GetDiscoveredResources(attrs: seq<ResourceKeyAttribute>, adds: seq<TranslationForCulture>,
                                  translation: Text, resourceKey: string,
                                  resourceKeyPrefix: Option<string>, typeKeyPrefixSpecified: bool,
                                  buildKey: (Option<string>, string) -> string)
    : (r: Result<seq<DiscoveredResource>, CollectorError>)
    ensures r.Failure? <==> |attrs| > 0 && HasDuplicateCultures(adds)
    ensures r.Failure? ==> r.error == DuplicateResourceTranslations(resourceKey)
    ensures r.Success? ==> |r.value| == |attrs|
    ensures r.Success? ==> forall i :: 0 <= i < |attrs| ==>
      && r.value[i].key == buildKey(if typeKeyPrefixSpecified then resourceKeyPrefix else None, attrs[i].key)
      && r.value[i].translations == TranslationsFor(BaseTranslation(attrs[i], translation), adds)
      && r.value[i].fromResourceKeyAttribute
  {
    if |attrs| > 0 && HasDuplicateCultures(adds) then Failure(DuplicateResourceTranslations(resourceKey))
    else
      var prefix := if typeKeyPrefixSpecified then resourceKeyPrefix else None;
      Success(seq(|attrs|, i requires 0 <= i < |attrs| => ResourceFor(attrs[i], adds, translation, prefix, buildKey)))
  }

  lemma NoDuplicatesDistinct(adds: seq<TranslationForCulture>)
    requires !HasDuplicateCultures(adds)
    ensures DistinctKeys(AsTranslations(adds))
  {
    var ts := AsTranslations(adds);
    forall i, j | 0 <= i < j < |ts| ensures ts[i].key != ts[j].key {
      assert adds[i].culture != adds[j].culture;
    }
  }

  /** Without duplicate cultures the translations have one entry per culture:
      each additional translation is found under its culture (overriding the
      base text when its culture is the invariant one), the base text is found
      under the invariant culture unless overridden, and no other culture has
      a translation. */
  lemma {:induction false} TranslationsForGet(base: Text, adds: seq<TranslationForCulture>, c: string)
    requires !HasDuplicateCultures(adds)
    ensures DistinctKeys(TranslationsFor(base, adds))
    ensures forall i :: 0 <= i < |adds| && adds[i].culture == c ==>
      Get(TranslationsFor(base, adds), c) == Some(adds[i].translation)
    ensures (forall i :: 0 <= i < |adds| ==> adds[i].culture != c) ==>
      Get(TranslationsFor(base, adds), c) == if c == InvariantCulture then Some(base) else None
  {
    var us := AsTranslations(adds);
    NoDuplicatesDistinct(adds);
    UpsertAllKeepsDistinct(FromSingle(base), us);
    UpsertAllGet(FromSingle(base), us, c);
    GetLastIsGet(us, c);
    forall i | 0 <= i < |adds| && adds[i].culture == c
      ensures Get(us, c) == Some(adds[i].translation)
    {
      GetAt(us, i);
    }
    if forall i :: 0 <= i < |adds| ==> adds[i].culture != c {
      assert c !in Keys(us) by {
        forall e | e in us ensures e.key != c {
          var i :| 0 <= i < |us| && us[i] == e;
        }
      }
      assert Keys(FromSingle(base)) == {InvariantCulture} by {
        assert forall e | e in FromSingle(base) :: e == Entry(InvariantCulture, base);
      }
    }
  }
}
