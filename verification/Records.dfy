/** Rows of the application database, as a backup payload and a table hold them.
    The tables and columns that recovery treats by name are constructors. */
module Records {

  datatype Table =
    | Templates | TemplateVersions | ConversionJobs | StepGate
    | ComposerSources | ComposerDrafts | ComposerRevisions | ComposerArtifacts | ComposerLibraryVersions
    | OtherTable(name: string)

  datatype Column =
    | Id | OwnerId | ObjectOwnerId | TemplateId | TemplateVersionId | RestoredFromVersionId | CurrentVersionId
    | Status | PublicationState
    | SourceObjectId | SourceReady | State | CleanupCompleted | ResultObjectId | ResultManifestObjectId
    | DraftId | RevisionId
    | OtherColumn(name: string)

  datatype Value = Null | Text(text: string) | Number(number: int) | Flag(flag: bool)

  type Row = map<Column, Value>
  type Tables = map<Table, seq<Row>>

  /** `row.get(column)`. */
  function Cell(row: Row, column: Column): Value {
    if column in row then row[column] else Null
  }

  function RowsOf(tables: Tables, table: Table): seq<Row> {
    if table in tables then tables[table] else []
  }

  /** Equality of SQL: never true of NULL. */
  predicate Same(left: Value, right: Value) {
    left == right && left != Null
  }

  const PUBLISHED := Text("published")
  const ACTIVE := Text("active")

  predicate UniqueIds(rows: seq<Row>) {
    forall i, j :: 0 <= i < j < |rows| ==> Cell(rows[i], Id) != Cell(rows[j], Id)
  }
}
