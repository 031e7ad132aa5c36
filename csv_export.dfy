/** The CSV exporter: one record per resource, ordered by resource key, with a
    `ResourceKey` column and one column per available language. */
module CsvExport {
  import opened Wrappers
  import opened OrderedDict
  import opened Resources

  const ResourceKeyColumn: string := "ResourceKey"
  const CsvContentType: string := "text/csv"

  /** One exported record: column name to cell, in insertion order; a null
      translation is a `None` cell. */
  type Record = seq<Entry<Text>>

  /** The records written to the file and the content type. */
  datatype ExportResult = ExportResult(records: seq<Record>, contentType: string)

  // ------------------------------------------------------------------ order

  /** The string comparison used to order resource keys, as a relation. */
  ghost predicate TotalPreorder(leq: (string, string) -> bool) {
    && (forall a, b :: leq(a, b) || leq(b, a))
    && (forall a, b, c :: leq(a, b) && leq(b, c) ==> leq(a, c))
  }

  ghost predicate SortedByKey(rs: seq<Resource>, leq: (string, string) -> bool) {
    forall i, j :: 0 <= i < j < |rs| ==> leq(rs[i].key, rs[j].key)
  }

  /** Puts `r` before the first resource whose key it does not exceed. */
  function InsertByKey(r: Resource, rs: seq<Resource>, leq: (string, string) -> bool): (s: seq<Resource>)
    ensures multiset(s) == multiset(rs) + multiset{r}
    ensures |s| == |rs| + 1
  {
    if rs == [] || leq(r.key, rs[0].key) then [r] + rs
    else
      assert rs == [rs[0]] + rs[1..];
      [rs[0]] + InsertByKey(r, rs[1..], leq)
  }

  /** `OrderBy(x => x.ResourceKey)`. */
  function OrderByKey(rs: seq<Resource>, leq: (string, string) -> bool): (s: seq<Resource>)
    ensures multiset(s) == multiset(rs)
    ensures |s| == |rs|
  {
    if rs == [] then []
    else
      assert rs == [rs[0]] + rs[1..];
      InsertByKey(rs[0], OrderByKey(rs[1..], leq), leq)
  }

  lemma {:induction false} InsertByKeySpec(r: Resource, rs: seq<Resource>, leq: (string, string) -> bool)
    requires TotalPreorder(leq)
    requires SortedByKey(rs, leq)
    ensures SortedByKey(InsertByKey(r, rs, leq), leq)
  {
    if rs == [] || leq(r.key, rs[0].key) {
      var s := [r] + rs;
      forall i, j | 0 <= i < j < |s| ensures leq(s[i].key, s[j].key) {
        if i == 0 && j > 1 {
          assert leq(rs[0].key, rs[j - 1].key);
        }
      }
    } else {
      var tail := InsertByKey(r, rs[1..], leq);
      InsertByKeySpec(r, rs[1..], leq);
      var s := [rs[0]] + tail;
      assert leq(rs[0].key, r.key);
      forall j | 0 <= j < |tail| ensures leq(rs[0].key, tail[j].key) {
        assert tail[j] in multiset(tail);
        if tail[j] != r {
          assert tail[j] in multiset(rs[1..]);
          var k :| 0 <= k < |rs[1..]| && rs[1..][k] == tail[j];
          assert rs[k + 1] == tail[j];
        }
      }
      forall i, j | 0 <= i < j < |s| ensures leq(s[i].key, s[j].key) {
        if i == 0 {
          assert s[j] == tail[j - 1];
        }
      }
    }
  }

  /** Under a total preorder the export order is ascending by key. */
  lemma {:induction false} OrderByKeySorted(rs: seq<Resource>, leq: (string, string) -> bool)
    requires TotalPreorder(leq)
    ensures SortedByKey(OrderByKey(rs, leq), leq)
  {
    if rs != [] {
      OrderByKeySorted(rs[1..], leq);
      InsertByKeySpec(rs[0], OrderByKey(rs[1..], leq), leq);
    }
  }

  // ---------------------------------------------------------------- records

  /** The language columns of a resource: each language with the resource's
      translation in it, without fallback to the invariant culture. */
  function LanguageColumns(r: Resource, languages: seq<string>): Record {
    if languages == [] then []
    else
      var language := languages[|languages| - 1];
      LanguageColumns(r, languages[..|languages| - 1]) + [Entry(language, ByLanguage(r.translations, language))]
  }

  /** The record of a resource: its key, then each language column added in
      turn, a column already present being overwritten. */
  function RecordFor(r: Resource, languages: seq<string>): Record {
    UpsertAll([Entry(ResourceKeyColumn, Some(r.key))], LanguageColumns(r, languages))
  }

  /** `AddProperty`: sets an existing column, or adds a new one. */
  method AddProperty(record: Record, languageName: string, translation: Text) returns (r: Record)
    ensures r == Upsert(record, languageName, translation)
  {
    var i := IndexOf(record, languageName);
    if i < |record| {
      r := record[i := Entry(languageName, translation)];
    } else {
      r := record + [Entry(languageName, translation)];
    }
  }

  /** The body of the export loop: the record of one resource, built column
      by column. */
  method BuildRecord(resource: Resource, languages: seq<string>) returns (record: Record)
    ensures record == RecordFor(resource, languages)
  {
    record := [Entry(ResourceKeyColumn, Some(resource.key))];
    var k := 0;
    while k < |languages|
      invariant 0 <= k <= |languages|
      invariant record == UpsertAll([Entry(ResourceKeyColumn, Some(resource.key))], LanguageColumns(resource, languages[..k]))
    {
      var translation := ByLanguage(resource.translations, languages[k]);
      record := AddProperty(record, languages[k], translation);
      assert languages[..k + 1][..k] == languages[..k];
      k := k + 1;
    }
    assert languages[..|languages|] == languages;
  }

  /** `Export`: the languages are read once; then one record per resource in
      key order. The file name (which holds the current date) and the CSV
      serialization are not modelled. */
  method Export(resources: seq<Resource>, languages: seq<string>, leq: (string, string) -> bool)
    returns (result: ExportResult)
    ensures result.contentType == CsvContentType
    ensures |result.records| == |resources|
    ensures forall i :: 0 <= i < |resources| ==>
      result.records[i] == RecordFor(OrderByKey(resources, leq)[i], languages)
  {
    var ordered := OrderByKey(resources, leq);
    var records: seq<Record> := [];
    var i := 0;
    while i < |ordered|
      invariant 0 <= i <= |ordered|
      invariant |records| == i
      invariant forall j :: 0 <= j < i ==> records[j] == RecordFor(ordered[j], languages)
    {
      var record := BuildRecord(ordered[i], languages);
      records := records + [record];
      i := i + 1;
    }
    result := ExportResult(records, CsvContentType);
  }

  lemma {:induction false} LanguageColumnsLast(r: Resource, languages: seq<string>, c: string)
    ensures GetLast(LanguageColumns(r, languages), c) ==
      if c in languages then Some(ByLanguage(r.translations, c)) else None
  {
    if languages != [] {
      var init := languages[..|languages| - 1];
      LanguageColumnsLast(r, init, c);
      assert languages == init + [languages[|languages| - 1]];
      assert LanguageColumns(r, languages)[..|LanguageColumns(r, languages)| - 1] == LanguageColumns(r, init);
    }
  }

  lemma {:induction false} LanguageColumnsKeys(r: Resource, languages: seq<string>)
    ensures Keys(LanguageColumns(r, languages)) == set l | l in languages
  {
    if languages != [] {
      var init, last := languages[..|languages| - 1], languages[|languages| - 1];
      var cols := LanguageColumns(r, languages);
      LanguageColumnsKeys(r, init);
      assert languages == init + [last];
      assert cols == LanguageColumns(r, init) + [Entry(last, ByLanguage(r.translations, last))];
      assert forall e | e in cols :: e in LanguageColumns(r, init) || e == Entry(last, ByLanguage(r.translations, last));
      assert forall e | e in LanguageColumns(r, init) :: e in cols;
      assert (set l | l in languages) == (set l | l in init) + {last};
    }
  }

  /** Every record has one column per distinct name: the resource key column
      and each language; so all records share the same columns, which makes
      the header taken from them fit every row. */
  lemma RecordColumns(r: Resource, languages: seq<string>)
    ensures DistinctKeys(RecordFor(r, languages))
    ensures Keys(RecordFor(r, languages)) == {ResourceKeyColumn} + set l | l in languages
  {
    var base: Record := [Entry(ResourceKeyColumn, Some(r.key))];
    UpsertAllKeepsDistinct(base, LanguageColumns(r, languages));
    UpsertAllKeys(base, LanguageColumns(r, languages));
    LanguageColumnsKeys(r, languages);
    assert Keys(base) == {ResourceKeyColumn} by {
      assert forall e | e in base :: e == base[0];
    }
  }

  /** A language column holds the resource's own translation in that language
      (null when it has none); the key column holds the resource key unless a
      language has that very name. */
  lemma RecordCells(r: Resource, languages: seq<string>, c: string)
    ensures c in languages ==> Get(RecordFor(r, languages), c) == Some(ByLanguage(r.translations, c))
    ensures c == ResourceKeyColumn && c !in languages ==> Get(RecordFor(r, languages), c) == Some(Some(r.key))
    ensures c != ResourceKeyColumn && c !in languages ==> Get(RecordFor(r, languages), c) == None
  {
    var base: Record := [Entry(ResourceKeyColumn, Some(r.key))];
    UpsertAllGet(base, LanguageColumns(r, languages), c);
    LanguageColumnsLast(r, languages, c);
    IndexOfIs(base, ResourceKeyColumn, 0);
    if c != ResourceKeyColumn {
      IndexOfIs(base, c, 1);
    }
  }
}
