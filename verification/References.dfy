/** The stable object references of a database: `_referenced_keys_from_rows` of
    src/markweave/recovery_adapters.py and `read_reference_rows` of
    src/markweave/recovery_schema.py, and why the check of the payload and the
    check of the restored database cannot disagree. */
module References {
  import opened Records
  import opened Reload
  import opened ReloadOrder

  /** `scope/owner/id`. */
  datatype ObjectName = ObjectName(scope: string, owner: Value, id: Value)

  const REFERENCE_TABLES: set<Table> :=
    {TemplateVersions, ConversionJobs, ComposerSources, ComposerDrafts, ComposerRevisions, ComposerArtifacts,
     ComposerLibraryVersions}

  function ReferenceColumns(table: Table): set<Column> {
    match table
    case TemplateVersions => {Id, ObjectOwnerId, PublicationState}
    case ConversionJobs =>
      {OwnerId, SourceObjectId, SourceReady, State, CleanupCompleted, ResultObjectId, ResultManifestObjectId}
    case ComposerSources => {Id, OwnerId, PublicationState}
    case ComposerDrafts => {Id, OwnerId}
    case ComposerRevisions => {Id, DraftId, PublicationState}
    case ComposerArtifacts => {Id, RevisionId}
    case ComposerLibraryVersions => {Id, ObjectOwnerId, PublicationState}
    case _ => {}
  }

  predicate Truthy(value: Value) {
    match value
    case Null => false
    case Text(text) => text != ""
    case Number(number) => number != 0
    case Flag(flag) => flag
  }

  const EXPIRED := Text("expired")

  predicate SourceCleaned(row: Row) {
    Cell(row, State) == EXPIRED
      && (Cell(row, CleanupCompleted) == Flag(true) || Cell(row, CleanupCompleted) == Number(1))
  }

  /** The objects one conversion refers to. */
  function JobKeys(row: Row): set<ObjectName> {
    (if Truthy(Cell(row, SourceReady)) && !SourceCleaned(row)
     then {ObjectName("uploads", Cell(row, OwnerId), Cell(row, SourceObjectId))} else {})
    + (if Truthy(Cell(row, ResultObjectId)) then {ObjectName("results", Cell(row, OwnerId), Cell(row, ResultObjectId))}
       else {})
    + (if Truthy(Cell(row, ResultManifestObjectId))
       then {ObjectName("result-manifests", Cell(row, OwnerId), Cell(row, ResultManifestObjectId))} else {})
  }

  function PublishedKeys(rows: seq<Row>, scope: string, owner: Column): set<ObjectName> {
    set row | row in rows && Cell(row, PublicationState) == PUBLISHED ::
      ObjectName(scope, Cell(row, owner), Cell(row, Id))
  }

  /** `{row["id"]: row["owner_id"] for row in drafts}`: the last row of an id wins. */
  function DraftOwners(rows: seq<Row>): map<Value, Value> {
    if rows == [] then map[]
    else var last := rows[|rows| - 1]; DraftOwners(rows[..|rows| - 1])[Cell(last, Id) := Cell(last, OwnerId)]
  }

  function RevisionOwners(rows: seq<Row>, drafts: map<Value, Value>): map<Value, Value> {
    if rows == [] then map[]
    else
      var last, before := rows[|rows| - 1], RevisionOwners(rows[..|rows| - 1], drafts);
      if Cell(last, PublicationState) == PUBLISHED && Cell(last, DraftId) in drafts
      then before[Cell(last, Id) := drafts[Cell(last, DraftId)]] else before
  }

  function ArtifactKeys(rows: seq<Row>, revisions: map<Value, Value>): set<ObjectName> {
    set row | row in rows && Cell(row, RevisionId) in revisions ::
      ObjectName("composer-artifacts", revisions[Cell(row, RevisionId)], Cell(row, Id))
  }

  function JobsKeys(rows: seq<Row>): set<ObjectName> {
    set row, key | row in rows && key in JobKeys(row) :: key
  }

  /** Every stable object the rows refer to. */
  function ReferencedKeys(tables: Tables): set<ObjectName> {
    var drafts := DraftOwners(RowsOf(tables, ComposerDrafts));
    PublishedKeys(RowsOf(tables, TemplateVersions), "template-versions", ObjectOwnerId)
    + PublishedKeys(RowsOf(tables, ComposerSources), "composer-sources", OwnerId)
    + PublishedKeys(RowsOf(tables, ComposerLibraryVersions), "composer-library", ObjectOwnerId)
    + JobsKeys(RowsOf(tables, ConversionJobs))
    + ArtifactKeys(RowsOf(tables, ComposerArtifacts), RevisionOwners(RowsOf(tables, ComposerRevisions), drafts))
  }

  // ---------------------------------------------------------------------
  // The loops

  lemma PublishedNext(rows: seq<Row>, scope: string, owner: Column, i: nat)
    requires i < |rows|
    ensures PublishedKeys(rows[..i + 1], scope, owner)
            == PublishedKeys(rows[..i], scope, owner)
               + if Cell(rows[i], PublicationState) == PUBLISHED
                 then {ObjectName(scope, Cell(rows[i], owner), Cell(rows[i], Id))} else {}
  {
    assert rows[..i + 1] == rows[..i] + [rows[i]];
  }

  lemma JobsNext(rows: seq<Row>, i: nat)
    requires i < |rows|
    ensures JobsKeys(rows[..i + 1]) == JobsKeys(rows[..i]) + JobKeys(rows[i])
  {
    assert rows[..i + 1] == rows[..i] + [rows[i]];
  }

  method CollectPublished(rows: seq<Row>, scope: string, owner: Column, found: set<ObjectName>)
    returns (keys: set<ObjectName>)
    ensures keys == found + PublishedKeys(rows, scope, owner)
  {
    keys := found;
    for i := 0 to |rows|
      invariant keys == found + PublishedKeys(rows[..i], scope, owner)
    {
      PublishedNext(rows, scope, owner, i);
      if Cell(rows[i], PublicationState) == PUBLISHED {
        keys := keys + {ObjectName(scope, Cell(rows[i], owner), Cell(rows[i], Id))};
      }
    }
    assert rows[..|rows|] == rows;
  }

  method CollectJob(row: Row, found: set<ObjectName>) returns (keys: set<ObjectName>)
    ensures keys == found + JobKeys(row)
  {
    keys := found;
    if Truthy(Cell(row, SourceReady)) && !SourceCleaned(row) {
      keys := keys + {ObjectName("uploads", Cell(row, OwnerId), Cell(row, SourceObjectId))};
    }
    if Truthy(Cell(row, ResultObjectId)) {
      keys := keys + {ObjectName("results", Cell(row, OwnerId), Cell(row, ResultObjectId))};
    }
    if Truthy(Cell(row, ResultManifestObjectId)) {
      keys := keys + {ObjectName("result-manifests", Cell(row, OwnerId), Cell(row, ResultManifestObjectId))};
    }
  }

  method CollectJobs(rows: seq<Row>, found: set<ObjectName>) returns (keys: set<ObjectName>)
    ensures keys == found + JobsKeys(rows)
  {
    keys := found;
    for i := 0 to |rows|
      invariant keys == found + JobsKeys(rows[..i])
    {
      JobsNext(rows, i);
      keys := CollectJob(rows[i], keys);
    }
    assert rows[..|rows|] == rows;
  }

  method CollectOwners(tables: Tables) returns (revisions: map<Value, Value>)
    ensures revisions == RevisionOwners(RowsOf(tables, ComposerRevisions), DraftOwners(RowsOf(tables, ComposerDrafts)))
  {
    var rows, drafts := RowsOf(tables, ComposerDrafts), map[];
    for i := 0 to |rows|
      invariant drafts == DraftOwners(rows[..i])
    {
      assert rows[..i + 1][..i] == rows[..i];
      drafts := drafts[Cell(rows[i], Id) := Cell(rows[i], OwnerId)];
    }
    assert rows[..|rows|] == rows;
    rows, revisions := RowsOf(tables, ComposerRevisions), map[];
    for i := 0 to |rows|
      invariant revisions == RevisionOwners(rows[..i], drafts)
    {
      assert rows[..i + 1][..i] == rows[..i];
      if Cell(rows[i], PublicationState) == PUBLISHED && Cell(rows[i], DraftId) in drafts {
        revisions := revisions[Cell(rows[i], Id) := drafts[Cell(rows[i], DraftId)]];
      }
    }
    assert rows[..|rows|] == rows;
  }

  /** `_referenced_keys_from_rows`: all keys, unless one is no valid object key. */
  method CollectReferences(tables: Tables, valid: ObjectName -> bool) returns (keys: set<ObjectName>, ok: bool)
    ensures keys == ReferencedKeys(tables)
    ensures ok <==> forall key :: key in keys ==> valid(key)
  {
    keys := CollectPublished(RowsOf(tables, TemplateVersions), "template-versions", ObjectOwnerId, {});
    keys := CollectPublished(RowsOf(tables, ComposerSources), "composer-sources", OwnerId, keys);
    keys := CollectPublished(RowsOf(tables, ComposerLibraryVersions), "composer-library", ObjectOwnerId, keys);
    keys := CollectJobs(RowsOf(tables, ConversionJobs), keys);
    var revisions := CollectOwners(tables);
    var rows := RowsOf(tables, ComposerArtifacts);
    ghost var before := keys;
    for i := 0 to |rows|
      invariant keys == before + ArtifactKeys(rows[..i], revisions)
    {
      assert rows[..i + 1] == rows[..i] + [rows[i]];
      if Cell(rows[i], RevisionId) in revisions {
        keys := keys + {ObjectName("composer-artifacts", revisions[Cell(rows[i], RevisionId)], Cell(rows[i], Id))};
      }
    }
    assert rows[..|rows|] == rows;
    ok := forall key :: key in keys ==> valid(key);
  }

  // ---------------------------------------------------------------------
  // Reading back only the reference columns, in any order

  function Projected(row: Row, columns: set<Column>): Row {
    map column | column in columns && column in row :: row[column]
  }

  /** A query of some columns answers the projected rows, in any order. */
  ghost predicate ReadsBack(rows: seq<Row>, read: seq<Row>, columns: set<Column>) {
    && (forall row :: row in rows ==> Projected(row, columns) in read)
    && (forall each :: each in read ==> IsProjection(rows, each, columns))
  }

  predicate IsProjection(rows: seq<Row>, each: Row, columns: set<Column>) {
    exists row :: row in rows && each == Projected(row, columns)
  }

  /** `read_reference_rows`: the reference columns that the shape has. */
  ghost predicate ReadReferenceRows(tables: Tables, shape: map<Table, set<Column>>, read: Tables) {
    && read.Keys == REFERENCE_TABLES * shape.Keys
    && forall table :: table in read ==>
          ReadsBack(RowsOf(tables, table), read[table], ReferenceColumns(table) * shape[table])
  }

  lemma ProjectedCell(row: Row, columns: set<Column>, column: Column)
    requires column in columns
    ensures Cell(Projected(row, columns), column) == Cell(row, column)
  {
  }

  lemma ProjectionFound(rows: seq<Row>, read: seq<Row>, columns: set<Column>, each: Row) returns (row: Row)
    requires ReadsBack(rows, read, columns) && each in read
    ensures row in rows && each == Projected(row, columns)
    ensures forall column :: column in columns ==> Cell(each, column) == Cell(row, column)
  {
    assert IsProjection(rows, each, columns);
    row :| row in rows && each == Projected(row, columns);
  }

  lemma SamePublished(rows: seq<Row>, read: seq<Row>, columns: set<Column>, scope: string, owner: Column)
    requires ReadsBack(rows, read, columns) && {Id, owner, PublicationState} <= columns
    ensures PublishedKeys(read, scope, owner) == PublishedKeys(rows, scope, owner)
  {
    forall key | key in PublishedKeys(rows, scope, owner)
      ensures key in PublishedKeys(read, scope, owner)
    {
      var row :| row in rows && Cell(row, PublicationState) == PUBLISHED
        && key == ObjectName(scope, Cell(row, owner), Cell(row, Id));
      assert Projected(row, columns) in read;
    }
    forall key | key in PublishedKeys(read, scope, owner)
      ensures key in PublishedKeys(rows, scope, owner)
    {
      var each :| each in read && Cell(each, PublicationState) == PUBLISHED
        && key == ObjectName(scope, Cell(each, owner), Cell(each, Id));
      var row := ProjectionFound(rows, read, columns, each);
    }
  }

  lemma SameJobKeys(row: Row)
    ensures JobKeys(Projected(row, ReferenceColumns(ConversionJobs))) == JobKeys(row)
  {
    var columns := ReferenceColumns(ConversionJobs);
    ProjectedCell(row, columns, OwnerId);
    ProjectedCell(row, columns, SourceObjectId);
    ProjectedCell(row, columns, SourceReady);
    ProjectedCell(row, columns, State);
    ProjectedCell(row, columns, CleanupCompleted);
    ProjectedCell(row, columns, ResultObjectId);
    ProjectedCell(row, columns, ResultManifestObjectId);
  }

  lemma SameJobs(rows: seq<Row>, read: seq<Row>)
    requires ReadsBack(rows, read, ReferenceColumns(ConversionJobs))
    ensures JobsKeys(read) == JobsKeys(rows)
  {
    var columns := ReferenceColumns(ConversionJobs);
    forall key | key in JobsKeys(rows)
      ensures key in JobsKeys(read)
    {
      var row :| row in rows && key in JobKeys(row);
      SameJobKeys(row);
      assert Projected(row, columns) in read;
    }
    forall key | key in JobsKeys(read)
      ensures key in JobsKeys(rows)
    {
      var each :| each in read && key in JobKeys(each);
      var row := ProjectionFound(rows, read, columns, each);
      SameJobKeys(row);
    }
  }

  /** Rows that agree on some columns whenever they have the same id. */
  ghost predicate Keyed(rows: seq<Row>, columns: set<Column>) {
    forall one, other, column ::
      one in rows && other in rows && column in columns && Cell(one, Id) == Cell(other, Id) ==>
      Cell(one, column) == Cell(other, column)
  }

  lemma UniqueIsKeyed(rows: seq<Row>, columns: set<Column>)
    requires UniqueIds(rows)
    ensures Keyed(rows, columns)
  {
    forall one, other, column | one in rows && other in rows && column in columns && Cell(one, Id) == Cell(other, Id)
      ensures Cell(one, column) == Cell(other, column)
    {
      var i :| 0 <= i < |rows| && rows[i] == one;
      var j :| 0 <= j < |rows| && rows[j] == other;
      assert i == j;
    }
  }

  lemma KeyedBack(rows: seq<Row>, read: seq<Row>, columns: set<Column>)
    requires ReadsBack(rows, read, columns) && Keyed(rows, columns) && Id in columns
    ensures Keyed(read, columns)
  {
    forall one, other, column | one in read && other in read && column in columns && Cell(one, Id) == Cell(other, Id)
      ensures Cell(one, column) == Cell(other, column)
    {
      var first := ProjectionFound(rows, read, columns, one);
      var second := ProjectionFound(rows, read, columns, other);
    }
  }

  lemma {:induction false} DraftOwner(rows: seq<Row>, row: Row)
    requires row in rows && Keyed(rows, {OwnerId})
    ensures Cell(row, Id) in DraftOwners(rows) && DraftOwners(rows)[Cell(row, Id)] == Cell(row, OwnerId)
  {
    var last := rows[|rows| - 1];
    assert rows == rows[..|rows| - 1] + [last];
    assert last in rows;
    if Cell(last, Id) != Cell(row, Id) {
      DraftOwner(rows[..|rows| - 1], row);
    }
  }

  lemma {:induction false} DraftKnown(rows: seq<Row>, id: Value) returns (row: Row)
    requires id in DraftOwners(rows)
    ensures row in rows && Cell(row, Id) == id
  {
    var last := rows[|rows| - 1];
    assert rows == rows[..|rows| - 1] + [last];
    if Cell(last, Id) == id {
      row := last;
    } else {
      row := DraftKnown(rows[..|rows| - 1], id);
    }
  }

  lemma SameDrafts(rows: seq<Row>, read: seq<Row>)
    requires ReadsBack(rows, read, ReferenceColumns(ComposerDrafts)) && UniqueIds(rows)
    ensures DraftOwners(read) == DraftOwners(rows)
  {
    var columns := ReferenceColumns(ComposerDrafts);
    UniqueIsKeyed(rows, columns);
    KeyedBack(rows, read, columns);
    forall id | id in DraftOwners(rows)
      ensures id in DraftOwners(read) && DraftOwners(read)[id] == DraftOwners(rows)[id]
    {
      var row := DraftKnown(rows, id);
      DraftOwner(rows, row);
      ProjectedCell(row, columns, Id);
      ProjectedCell(row, columns, OwnerId);
      DraftOwner(read, Projected(row, columns));
    }
    forall id | id in DraftOwners(read)
      ensures id in DraftOwners(rows)
    {
      var each := DraftKnown(read, id);
      var row := ProjectionFound(rows, read, columns, each);
      DraftOwner(rows, row);
    }
  }

  predicate OwnedRevision(row: Row, drafts: map<Value, Value>) {
    Cell(row, PublicationState) == PUBLISHED && Cell(row, DraftId) in drafts
  }

  lemma {:induction false} RevisionOwner(rows: seq<Row>, drafts: map<Value, Value>, row: Row)
    requires row in rows && Keyed(rows, {DraftId, PublicationState}) && OwnedRevision(row, drafts)
    ensures Cell(row, Id) in RevisionOwners(rows, drafts)
            && RevisionOwners(rows, drafts)[Cell(row, Id)] == drafts[Cell(row, DraftId)]
  {
    var last := rows[|rows| - 1];
    assert rows == rows[..|rows| - 1] + [last];
    assert last in rows;
    if Cell(last, Id) != Cell(row, Id) {
      RevisionOwner(rows[..|rows| - 1], drafts, row);
    }
  }

  lemma {:induction false} RevisionKnown(rows: seq<Row>, drafts: map<Value, Value>, id: Value) returns (row: Row)
    requires id in RevisionOwners(rows, drafts)
    ensures row in rows && Cell(row, Id) == id && OwnedRevision(row, drafts)
  {
    var last := rows[|rows| - 1];
    assert rows == rows[..|rows| - 1] + [last];
    if Cell(last, Id) == id && OwnedRevision(last, drafts) {
      row := last;
    } else {
      row := RevisionKnown(rows[..|rows| - 1], drafts, id);
    }
  }

  lemma SameRevisions(rows: seq<Row>, read: seq<Row>, drafts: map<Value, Value>)
    requires ReadsBack(rows, read, ReferenceColumns(ComposerRevisions)) && UniqueIds(rows)
    ensures RevisionOwners(read, drafts) == RevisionOwners(rows, drafts)
  {
    var columns := ReferenceColumns(ComposerRevisions);
    UniqueIsKeyed(rows, columns);
    KeyedBack(rows, read, columns);
    forall id | id in RevisionOwners(rows, drafts)
      ensures id in RevisionOwners(read, drafts) && RevisionOwners(read, drafts)[id] == RevisionOwners(rows, drafts)[id]
    {
      var row := RevisionKnown(rows, drafts, id);
      RevisionOwner(rows, drafts, row);
      ProjectedCell(row, columns, Id);
      ProjectedCell(row, columns, DraftId);
      ProjectedCell(row, columns, PublicationState);
      RevisionOwner(read, drafts, Projected(row, columns));
    }
    forall id | id in RevisionOwners(read, drafts)
      ensures id in RevisionOwners(rows, drafts)
    {
      var each := RevisionKnown(read, drafts, id);
      var row := ProjectionFound(rows, read, columns, each);
      RevisionOwner(rows, drafts, row);
    }
  }

  lemma SameArtifacts(rows: seq<Row>, read: seq<Row>, revisions: map<Value, Value>)
    requires ReadsBack(rows, read, ReferenceColumns(ComposerArtifacts))
    ensures ArtifactKeys(read, revisions) == ArtifactKeys(rows, revisions)
  {
    var columns := ReferenceColumns(ComposerArtifacts);
    forall key | key in ArtifactKeys(rows, revisions)
      ensures key in ArtifactKeys(read, revisions)
    {
      var row :| row in rows && Cell(row, RevisionId) in revisions
                 && key == ObjectName("composer-artifacts", revisions[Cell(row, RevisionId)], Cell(row, Id));
      ProjectedCell(row, columns, Id);
      ProjectedCell(row, columns, RevisionId);
      assert Projected(row, columns) in read;
    }
    forall key | key in ArtifactKeys(read, revisions)
      ensures key in ArtifactKeys(rows, revisions)
    {
      var each :| each in read && Cell(each, RevisionId) in revisions
                  && key == ObjectName("composer-artifacts", revisions[Cell(each, RevisionId)], Cell(each, Id));
      var row := ProjectionFound(rows, read, columns, each);
    }
  }

  /** A shape with every reference column. */
  predicate ShapeHasReferences(shape: map<Table, set<Column>>) {
    forall table :: table in REFERENCE_TABLES ==> table in shape && ReferenceColumns(table) <= shape[table]
  }

  lemma TableReadBack(tables: Tables, shape: map<Table, set<Column>>, read: Tables, table: Table)
    requires ReadReferenceRows(tables, shape, read) && ShapeHasReferences(shape) && table in REFERENCE_TABLES
    ensures ReadsBack(RowsOf(tables, table), RowsOf(read, table), ReferenceColumns(table))
  {
    assert ReferenceColumns(table) * shape[table] == ReferenceColumns(table);
  }

  lemma SameArtifactKeys(tables: Tables, shape: map<Table, set<Column>>, read: Tables)
    requires ReadReferenceRows(tables, shape, read) && ShapeHasReferences(shape)
    requires UniqueIds(RowsOf(tables, ComposerDrafts)) && UniqueIds(RowsOf(tables, ComposerRevisions))
    ensures ArtifactKeys(RowsOf(read, ComposerArtifacts),
                         RevisionOwners(RowsOf(read, ComposerRevisions), DraftOwners(RowsOf(read, ComposerDrafts))))
            == ArtifactKeys(RowsOf(tables, ComposerArtifacts),
                            RevisionOwners(RowsOf(tables, ComposerRevisions),
                                           DraftOwners(RowsOf(tables, ComposerDrafts))))
  {
    var drafts := DraftOwners(RowsOf(tables, ComposerDrafts));
    TableReadBack(tables, shape, read, ComposerDrafts);
    SameDrafts(RowsOf(tables, ComposerDrafts), RowsOf(read, ComposerDrafts));
    TableReadBack(tables, shape, read, ComposerRevisions);
    SameRevisions(RowsOf(tables, ComposerRevisions), RowsOf(read, ComposerRevisions), drafts);
    TableReadBack(tables, shape, read, ComposerArtifacts);
    SameArtifacts(RowsOf(tables, ComposerArtifacts), RowsOf(read, ComposerArtifacts),
                  RevisionOwners(RowsOf(tables, ComposerRevisions), drafts));
  }

  lemma SamePublishedTable(tables: Tables, shape: map<Table, set<Column>>, read: Tables, table: Table, scope: string,
                           owner: Column)
    requires ReadReferenceRows(tables, shape, read) && ShapeHasReferences(shape) && table in REFERENCE_TABLES
    requires {Id, owner, PublicationState} <= ReferenceColumns(table)
    ensures PublishedKeys(RowsOf(read, table), scope, owner) == PublishedKeys(RowsOf(tables, table), scope, owner)
  {
    TableReadBack(tables, shape, read, table);
    SamePublished(RowsOf(tables, table), RowsOf(read, table), ReferenceColumns(table), scope, owner);
  }

  /** Reading only the reference columns, in any order, gives the same keys. */
  lemma ReadKeysAgree(tables: Tables, shape: map<Table, set<Column>>, read: Tables)
    requires ReadReferenceRows(tables, shape, read) && ShapeHasReferences(shape)
    requires UniqueIds(RowsOf(tables, ComposerDrafts)) && UniqueIds(RowsOf(tables, ComposerRevisions))
    ensures ReferencedKeys(read) == ReferencedKeys(tables)
  {
    SamePublishedTable(tables, shape, read, TemplateVersions, "template-versions", ObjectOwnerId);
    SamePublishedTable(tables, shape, read, ComposerSources, "composer-sources", OwnerId);
    SamePublishedTable(tables, shape, read, ComposerLibraryVersions, "composer-library", ObjectOwnerId);
    TableReadBack(tables, shape, read, ConversionJobs);
    SameJobs(RowsOf(tables, ConversionJobs), RowsOf(read, ConversionJobs));
    SameArtifactKeys(tables, shape, read);
  }

  // ---------------------------------------------------------------------
  // The two checks

  function PayloadTables(payload: seq<TablePayload>, schema: map<Table, seq<Column>>): Tables {
    map table | table in schema :: PayloadRows(payload, |payload|, table)
  }

  lemma ReloadedRows(payload: seq<TablePayload>, schema: map<Table, seq<Column>>, table: Table)
    requires table != Templates
    ensures RowsOf(Finished(payload, schema, FinalRows(payload, schema, ConversionJobs)), table)
            == RowsOf(PayloadTables(payload, schema), table)
  {
  }

  lemma ReloadedIds(references: set<Reference>, schema: map<Table, seq<Column>>, payload: seq<TablePayload>,
                    exact: bool, table: Table)
    requires UniqueTables(payload) && Reloadable(references, schema, payload, exact) && Inserted(table)
    requires table in schema ==> Id in ColumnSet(schema[table])
    ensures UniqueIds(RowsOf(PayloadTables(payload, schema), table))
  {
    if table in schema {
      var k := ItemOf(payload, |payload|, table);
      assert forall i :: 0 <= i < |payload| ==> ItemFits(payload[i], schema, exact);
      OneItem(payload, schema, |payload|, k);
      assert Numbered(payload[k].rows);
    }
  }

  /** At the head revision the check of the restored database cannot fail once
      the check of the payload has passed: it finds the same keys. */
  lemma DatabaseCheckAgrees(references: set<Reference>, schema: map<Table, seq<Column>>, payload: seq<TablePayload>,
                            exact: bool, shape: map<Table, set<Column>>, restored: Tables, read: Tables)
    requires UniqueTables(payload) && Reloadable(references, schema, payload, exact)
    requires forall table :: table in {ComposerDrafts, ComposerRevisions} && table in schema ==>
              Id in ColumnSet(schema[table])
    requires restored == Finished(payload, schema, FinalRows(payload, schema, ConversionJobs))
    requires ReadReferenceRows(restored, shape, read) && ShapeHasReferences(shape)
    ensures ReferencedKeys(read) == ReferencedKeys(PayloadTables(payload, schema))
  {
    var tables := PayloadTables(payload, schema);
    ReloadedIds(references, schema, payload, exact, ComposerDrafts);
    ReloadedIds(references, schema, payload, exact, ComposerRevisions);
    forall table | table != Templates {
      ReloadedRows(payload, schema, table);
    }
    ReadKeysAgree(restored, shape, read);
  }
}
