// Catalog artifacts: dataset manifests and column rows.
module CatalogModel {
  import opened Prelude

  datatype DtypeClass = StringClass | Number | Boolean | Date | Time | Timestamp | Binary | Variant | UnknownClass

  datatype FieldRole = EntityKey | TimeIndex | KnownAt | Feature | Label | Metadata

  datatype RightsClass = Public | Internal | Private | Restricted

  datatype DatasetField = DatasetField(column: string, role: FieldRole)

  /** A manifest; `evidence` stands for its remaining fields. */
  datatype DatasetManifest = DatasetManifest(
    id: string,
    database: string,
    schema: string,
    object_: string,
    rightsClass: RightsClass,
    defaultLimit: nat,
    maxRowsWithoutExport: nat,
    approxRowCount: Option<nat>,
    bytes: Option<nat>,
    description: Option<string>,
    fields: seq<DatasetField>,
    evidence: string)

  /** A column row; `evidence` stands for its remaining fields (length, aliases,
      tags, provenance). */
  datatype ColumnEntry = ColumnEntry(
    datasetId: string,
    column: string,
    ordinal: nat,
    snowflakeType: string,
    dtype: DtypeClass,
    nullable: bool,
    precision: Option<nat>,
    scale: Option<nat>,
    comment: Option<string>,
    evidence: string)

  function FieldByRole(fields: seq<DatasetField>, role: FieldRole): (r: Option<DatasetField>)
    ensures r.Some? ==> r.value in fields && r.value.role == role
  {
    if fields == [] then None
    else if fields[0].role == role then Some(fields[0])
    else FieldByRole(fields[1..], role)
  }

  /** Drop `_`, `-` and white space, then lower-case. */
  function Normalize(uni: Unicode, s: string): string {
    if s == [] then []
    else (if s[0] == '_' || s[0] == '-' || uni.isWhitespace(s[0]) then [] else uni.lower(s[0])) + Normalize(uni, s[1..])
  }

  predicate SameIdentifier(uni: Unicode, left: string, right: string) {
    Normalize(uni, left) == Normalize(uni, right)
  }

  /** The first column whose normalised name is that of `name`. */
  function FindColumn(uni: Unicode, name: string, columns: seq<ColumnEntry>): (r: Option<ColumnEntry>)
    ensures r.Some? ==> r.value in columns && SameIdentifier(uni, r.value.column, name)
    ensures r.None? ==> forall c :: c in columns ==> !SameIdentifier(uni, c.column, name)
  {
    if columns == [] then None
    else if SameIdentifier(uni, columns[0].column, name) then Some(columns[0])
    else FindColumn(uni, name, columns[1..])
  }

  // ----- the columns of one dataset, in ordinal order -----

  function OfDataset(id: string, columns: seq<ColumnEntry>): seq<ColumnEntry> {
    if columns == [] then []
    else (if columns[0].datasetId == id then [columns[0]] else []) + OfDataset(id, columns[1..])
  }

  function InsertByOrdinal(c: ColumnEntry, sorted: seq<ColumnEntry>): (r: seq<ColumnEntry>)
    ensures forall x :: x in r <==> x == c || x in sorted
  {
    if sorted == [] || c.ordinal <= sorted[0].ordinal then [c] + sorted
    else [sorted[0]] + InsertByOrdinal(c, sorted[1..])
  }

  /** The stable `sort_by_key(ordinal)`. */
  function SortByOrdinal(columns: seq<ColumnEntry>): (r: seq<ColumnEntry>)
    ensures forall x :: x in r <==> x in columns
  {
    if columns == [] then [] else InsertByOrdinal(columns[0], SortByOrdinal(columns[1..]))
  }

  function DatasetColumns(id: string, columns: seq<ColumnEntry>): seq<ColumnEntry> {
    SortByOrdinal(OfDataset(id, columns))
  }
}
