/** The CSV format parser: one resource per row, keyed by the `ResourceKey`
    column, with one translation per available language read from the column
    of that language's name. */
module CsvParse {
  import opened Wrappers
  import opened OrderedDict
  import opened Resources
  import opened CsvExport

  /** One parsed row: column name to cell text. */
  type Row = map<string, string>

  datatype ParseResult = ParseResult(resources: seq<Resource>, languages: seq<string>)

  /** Looking up a column the row does not have. */
  datatype ParseError = MissingColumn(name: string)

  /** `SetTranslations`: one translation per language, in language order, with
      the row's cell for that language, or null when the row has no such
      column. */
  function RowTranslations(row: Row, languages: seq<string>): (ts: seq<Translation>)
    ensures |ts| == |languages|
    ensures forall i :: 0 <= i < |languages| ==> ts[i].key == languages[i]
  {
    seq(|languages|, i requires 0 <= i < |languages| =>
      Entry(languages[i], if languages[i] in row then Some(row[languages[i]]) else None))
  }

  /** The resource read from a row: a new resource with the row's key and its
      translations. */
  function ParsedResource(row: Row, key: string, languages: seq<string>): Resource {
    Resource(key, RowTranslations(row, languages), false, false, false, None)
  }

  /** `Parse`: the languages are read once; every row needs a `ResourceKey`
      column. */
  method Parse(rows: seq<Row>, languages: seq<string>) returns (r: Result<ParseResult, ParseError>)
    ensures r.Failure? <==> exists i :: 0 <= i < |rows| && ResourceKeyColumn !in rows[i]
    ensures r.Failure? ==> r.error == MissingColumn(ResourceKeyColumn)
    ensures r.Success? ==> r.value.languages == languages && |r.value.resources| == |rows|
    ensures r.Success? ==> forall i :: 0 <= i < |rows| ==>
      r.value.resources[i] == ParsedResource(rows[i], rows[i][ResourceKeyColumn], languages)
  {
    var resources: seq<Resource> := [];
    var i := 0;
    while i < |rows|
      invariant 0 <= i <= |rows|
      invariant |resources| == i
      invariant forall j :: 0 <= j < i ==> ResourceKeyColumn in rows[j]
      invariant forall j :: 0 <= j < i ==>
        resources[j] == ParsedResource(rows[j], rows[j][ResourceKeyColumn], languages)
    {
      var row := rows[i];
      if ResourceKeyColumn !in row {
        return Failure(MissingColumn(ResourceKeyColumn));
      }
      var resourceKey := row[ResourceKeyColumn];
      var resource := Resource(resourceKey, [], false, false, false, None);
      resource := resource.(translations := resource.translations + RowTranslations(row, languages));
      resources := resources + [resource];
      i := i + 1;
    }
    return Success(ParseResult(resources, languages));
  }

  /** A parsed resource has a translation for exactly the available languages:
      the row's cell when the row has that language's column, null otherwise;
      columns that are not languages are ignored. */
  lemma {:induction false} ParsedTranslation(row: Row, key: string, languages: seq<string>, c: string)
    ensures c in languages && c in row ==> Get(ParsedResource(row, key, languages).translations, c) == Some(Some(row[c]))
    ensures c in languages && c !in row ==> Get(ParsedResource(row, key, languages).translations, c) == Some(None)
    ensures c !in languages ==> Get(ParsedResource(row, key, languages).translations, c) == None
  {
    var ts := RowTranslations(row, languages);
    var i := IndexOf(ts, c);
    if c !in languages {
      assert c !in Keys(ts) by {
        forall e | e in ts ensures e.key != c {
          var j :| 0 <= j < |ts| && ts[j] == e;
        }
      }
    } else {
      var j :| 0 <= j < |languages| && languages[j] == c;
      assert ts[j].key == c;
      assert i <= j;
    }
  }

  // ---------------------------------------------- round trip through a file

  /** A cell as written to the file: a null translation is an empty field. */
  function CellText(t: Text): string {
    t.GetOr("")
  }

  /** The row read back from a written record. */
  function RowOf(record: Record): Row {
    if record == [] then map[]
    else RowOf(record[..|record| - 1])[record[|record| - 1].key := CellText(record[|record| - 1].value)]
  }

  lemma {:induction false} RowOfLookup(record: Record, c: string)
    ensures c in RowOf(record) <==> GetLast(record, c).Some?
    ensures c in RowOf(record) ==> RowOf(record)[c] == CellText(GetLast(record, c).value)
  {
    if record != [] {
      RowOfLookup(record[..|record| - 1], c);
    }
  }

  /** The row of an exported record holds the resource key and, for each
      language, the text of the resource's translation, with an empty text
      where the translation was null. */
  lemma ExportedRow(r: Resource, languages: seq<string>, c: string)
    requires ResourceKeyColumn !in languages
    ensures ResourceKeyColumn in RowOf(RecordFor(r, languages))
    ensures RowOf(RecordFor(r, languages))[ResourceKeyColumn] == r.key
    ensures c in languages ==>
      c in RowOf(RecordFor(r, languages)) &&
      RowOf(RecordFor(r, languages))[c] == CellText(ByLanguage(r.translations, c))
  {
    var record := RecordFor(r, languages);
    RecordColumns(r, languages);
    RecordCells(r, languages, ResourceKeyColumn);
    RecordCells(r, languages, c);
    GetLastIsGet(record, ResourceKeyColumn);
    GetLastIsGet(record, c);
    RowOfLookup(record, ResourceKeyColumn);
    RowOfLookup(record, c);
  }

  /** Export then parse: the resource comes back with the key read from its
      row's key column, and each available language comes back with the text
      it had, a null translation coming back as empty text. */
  lemma RoundTrip(r: Resource, languages: seq<string>, c: string)
    requires ResourceKeyColumn !in languages
    requires c in languages
    ensures ResourceKeyColumn in RowOf(RecordFor(r, languages))
    ensures ParsedResource(RowOf(RecordFor(r, languages)), RowOf(RecordFor(r, languages))[ResourceKeyColumn], languages).key == r.key
    ensures Get(ParsedResource(RowOf(RecordFor(r, languages)), RowOf(RecordFor(r, languages))[ResourceKeyColumn], languages).translations, c)
         == Some(Some(CellText(ByLanguage(r.translations, c))))
  {
    ExportedRow(r, languages, c);
    var row := RowOf(RecordFor(r, languages));
    ParsedTranslation(row, row[ResourceKeyColumn], languages, c);
  }
}
